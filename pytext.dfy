/** Python text primitives used by the annotation cleaner and the docstring
    extractor: the character classes behind the regular expressions `\s` and
    `\w`, `str.strip()`, and `repr()` of the constants that can appear in a
    type annotation, each `repr` with a reader proved to be its inverse. */
module PyText {

  datatype Option<+T> = None | Some(value: T)

  /** `str.isspace()`, which is also what `\s` matches in a `str` pattern
      and what `str.strip()` removes. */
  predicate IsSpace(c: char) {
    || ('\t' <= c <= '\r')
    || ('\U{001C}' <= c <= ' ')
    || c == '\U{0085}' || c == '\U{00A0}' || c == '\U{1680}'
    || ('\U{2000}' <= c <= '\U{200A}')
    || c == '\U{2028}' || c == '\U{2029}' || c == '\U{202F}' || c == '\U{205F}' || c == '\U{3000}'
  }

  predicate IsUpper(c: char) { 'A' <= c <= 'Z' }

  predicate IsDigit(c: char) { '0' <= c <= '9' }

  /** `[a-zA-Z_]`: the first character class of the qualified-name rule. */
  predicate IsIdentStart(c: char) { IsUpper(c) || ('a' <= c <= 'z') || c == '_' }

  /** `[a-zA-Z0-9_]`, and the ASCII part of `\w`. */
  predicate IsWordChar(c: char) { IsIdentStart(c) || IsDigit(c) }

  predicate AllSpace(s: string) {
    forall k | 0 <= k < |s| :: IsSpace(s[k])
  }

  predicate AllWord(s: string) {
    forall k | 0 <= k < |s| :: IsWordChar(s[k])
  }

  predicate StartsWith(s: string, prefix: string) {
    |prefix| <= |s| && s[..|prefix|] == prefix
  }

  /** A string `str.strip()` leaves alone. */
  predicate IsStripped(s: string) {
    s == [] || (!IsSpace(s[0]) && !IsSpace(s[|s| - 1]))
  }

  /** End of the maximal run of `\s` characters that starts at `j`. */
  function SpaceEnd(s: string, j: nat): (k: nat)
    requires j <= |s|
    ensures j <= k <= |s|
    ensures AllSpace(s[j..k])
    ensures k == |s| || !IsSpace(s[k])
    decreases |s| - j
  {
    if j < |s| && IsSpace(s[j]) then SpaceEnd(s, j + 1) else j
  }

  /** End of the maximal run of word characters that starts at `j`. */
  function WordEnd(s: string, j: nat): (k: nat)
    requires j <= |s|
    ensures j <= k <= |s|
    ensures AllWord(s[j..k])
    ensures k == |s| || !IsWordChar(s[k])
    decreases |s| - j
  {
    if j < |s| && IsWordChar(s[j]) then WordEnd(s, j + 1) else j
  }

  lemma {:induction false} WordEndOf(s: string, j: nat, k: nat)
    requires j <= k <= |s|
    requires AllWord(s[j..k])
    requires k == |s| || !IsWordChar(s[k])
    ensures WordEnd(s, j) == k
    decreases k - j
  {
    if j < k {
      assert IsWordChar(s[j..k][0]);
      assert s[j + 1..k] == s[j..k][1..];
      WordEndOf(s, j + 1, k);
    }
  }

  /** A word run stops at or before any non-word character. */
  lemma {:induction false} WordEndBelow(s: string, j: nat, b: nat)
    requires j <= b < |s| && !IsWordChar(s[b])
    ensures WordEnd(s, j) <= b
    decreases b - j
  {
    if j < b && IsWordChar(s[j]) {
      WordEndBelow(s, j + 1, b);
    }
  }

  lemma {:induction false} SpaceEndOf(s: string, j: nat, k: nat)
    requires j <= k <= |s|
    requires AllSpace(s[j..k])
    requires k == |s| || !IsSpace(s[k])
    ensures SpaceEnd(s, j) == k
    decreases k - j
  {
    if j < k {
      assert IsSpace(s[j..k][0]);
      assert s[j + 1..k] == s[j..k][1..];
      SpaceEndOf(s, j + 1, k);
    }
  }

  /** Start of the maximal run of `\s` characters that ends at `j`, not
      scanning below `lo`. */
  function SpaceStart(s: string, lo: nat, j: nat): (k: nat)
    requires lo <= j <= |s|
    ensures lo <= k <= j
    ensures AllSpace(s[k..j])
    ensures k == lo || !IsSpace(s[k - 1])
    decreases j
  {
    if j > lo && IsSpace(s[j - 1]) then
      var k := SpaceStart(s, lo, j - 1);
      assert s[k..j] == s[k..j - 1] + [s[j - 1]];
      k
    else j
  }

  /** `str.strip()`: the middle of `s` between two all-blank margins, with
      no blank character left at either end. */
  function Strip(s: string): (r: string)
    ensures IsStripped(r)
    ensures exists i, j | 0 <= i <= j <= |s| :: r == s[i..j] && AllSpace(s[..i]) && AllSpace(s[j..])
  {
    var i := SpaceEnd(s, 0);
    var j := SpaceStart(s, i, |s|);
    assert s[..i] == s[0..i] && s[j..] == s[j..|s|];
    s[i..j]
  }

  /** Stripping changes nothing on a string with no blank at either end. */
  lemma {:induction false} StripFixesStripped(s: string)
    requires IsStripped(s)
    ensures Strip(s) == s
  {
    assert SpaceEnd(s, 0) == 0;
    if s != [] { assert SpaceStart(s, 0, |s|) == |s|; }
  }

  /** Stripping blanks only leaves the empty string. */
  lemma StripAllSpace(s: string)
    requires AllSpace(s)
    ensures Strip(s) == ""
  {
  }

  /** Stripping adds no character. */
  lemma StripAvoids(c: char, s: string)
    requires c !in s
    ensures c !in Strip(s)
  {
    var i := SpaceEnd(s, 0);
    var j := SpaceStart(s, i, |s|);
    assert forall k | 0 <= k < j - i :: s[i..j][k] == s[i + k];
  }

  lemma StripIdempotent(s: string)
    ensures Strip(Strip(s)) == Strip(s)
  {
    StripFixesStripped(Strip(s));
  }

  // ----- repr() of a str -----

  function HexDigit(d: nat): char
    requires d < 16
  {
    "0123456789abcdef"[d]
  }

  /** Characters below U+0100 that `str.isprintable()` rejects, apart from
      the three with a named escape. */
  predicate IsLatin1Unprintable(c: char) {
    c < ' ' || ('\U{007F}' <= c <= '\U{00A0}') || c == '\U{00AD}'
  }

  /** The quote `repr` chooses: a double quote only when the text holds a
      single quote and no double quote. */
  function QuoteFor(s: string): (q: char)
    ensures q == '\'' || q == '"'
    ensures q == '"' <==> ('\'' in s && '"' !in s)
  {
    if '\'' in s && '"' !in s then '"' else '\''
  }

  function EscapeChar(c: char, q: char): string {
    if c == q || c == '\\' then ['\\', c]
    else if c == '\t' then "\\t"
    else if c == '\n' then "\\n"
    else if c == '\r' then "\\r"
    else if IsLatin1Unprintable(c) then ['\\', 'x', HexDigit(c as int / 16), HexDigit(c as int % 16)]
    else [c]
  }

  function Escape(s: string, q: char): string {
    if s == [] then [] else EscapeChar(s[0], q) + Escape(s[1..], q)
  }

  /** `repr(s)` for a `str` constant. */
  function StrRepr(s: string): (r: string)
    ensures |r| >= 2 && r[0] == r[|r| - 1] == QuoteFor(s)
  {
    [QuoteFor(s)] + Escape(s, QuoteFor(s)) + [QuoteFor(s)]
  }

  function HexValue(c: char): (v: Option<nat>)
    ensures v.Some? ==> v.value < 16
  {
    if '0' <= c <= '9' then Some(c as int - '0' as int)
    else if 'a' <= c <= 'f' then Some(c as int - 'a' as int + 10)
    else None
  }

  /** Reads the body of a quoted literal up to its unescaped closing quote
      `q`; gives the decoded text and what follows the closing quote. */
  function ReadQuoted(t: string, q: char): (res: Option<(string, string)>)
    ensures res.Some? ==> |res.value.1| < |t|
    decreases |t|
  {
    if t == [] then None
    else if t[0] == q then Some(([], t[1..]))
    else if t[0] == '\\' then
      if |t| < 2 then None
      else if t[1] == 't' then Prepend('\t', ReadQuoted(t[2..], q))
      else if t[1] == 'n' then Prepend('\n', ReadQuoted(t[2..], q))
      else if t[1] == 'r' then Prepend('\r', ReadQuoted(t[2..], q))
      else if t[1] == '\\' || t[1] == '\'' || t[1] == '"' then Prepend(t[1], ReadQuoted(t[2..], q))
      else if t[1] == 'x' && |t| >= 4 && HexValue(t[2]).Some? && HexValue(t[3]).Some? then
        Prepend((16 * HexValue(t[2]).value + HexValue(t[3]).value) as char, ReadQuoted(t[4..], q))
      else None
    else Prepend(t[0], ReadQuoted(t[1..], q))
  }

  function Prepend(c: char, res: Option<(string, string)>): (r: Option<(string, string)>)
    ensures r.Some? <==> res.Some?
    ensures r.Some? ==> r.value == ([c] + res.value.0, res.value.1)
  {
    match res
    case None => None
    case Some((body, rest)) => Some(([c] + body, rest))
  }

  /** Reads a quoted literal in either quote style. */
  function ReadStrLiteral(t: string): (res: Option<(string, string)>)
    ensures res.Some? ==> |res.value.1| < |t|
  {
    if |t| > 0 && (t[0] == '\'' || t[0] == '"') then ReadQuoted(t[1..], t[0]) else None
  }

  lemma HexRoundTrip(d: nat)
    requires d < 16
    ensures HexValue(HexDigit(d)) == Some(d)
  {
  }

  lemma {:induction false} ReadEscapedChar(c: char, q: char, u: string)
    requires q == '\'' || q == '"'
    ensures ReadQuoted(EscapeChar(c, q) + u, q) == Prepend(c, ReadQuoted(u, q))
  {
    if c == q || c == '\\' || c == '\t' || c == '\n' || c == '\r' {
      ReadEscapedPair(c, q, u);
    } else if IsLatin1Unprintable(c) {
      ReadEscapedHex(c, q, u);
    } else {
      var t := EscapeChar(c, q) + u;
      assert t[1..] == u;
    }
  }

  /** A character escaped by a backslash and one more character. */
  lemma ReadEscapedPair(c: char, q: char, u: string)
    requires q == '\'' || q == '"'
    requires c == q || c == '\\' || c == '\t' || c == '\n' || c == '\r'
    ensures ReadQuoted(EscapeChar(c, q) + u, q) == Prepend(c, ReadQuoted(u, q))
  {
    var t := EscapeChar(c, q) + u;
    assert |EscapeChar(c, q)| == 2;
    assert t[2..] == u;
  }

  /** A character escaped as `\x` and two hexadecimal digits. */
  lemma ReadEscapedHex(c: char, q: char, u: string)
    requires q == '\'' || q == '"'
    requires c != q && c != '\\' && c != '\t' && c != '\n' && c != '\r' && IsLatin1Unprintable(c)
    ensures ReadQuoted(EscapeChar(c, q) + u, q) == Prepend(c, ReadQuoted(u, q))
  {
    var hi, lo := c as int / 16, c as int % 16;
    HexRoundTrip(hi);
    HexRoundTrip(lo);
    var e := EscapeChar(c, q);
    assert e == ['\\', 'x', HexDigit(hi), HexDigit(lo)];
    ReadHexAt(e + u, q, hi, lo, u);
  }

  /** `\x` with two digits whose value is `16 * hi + lo`. */
  lemma ReadHexAt(t: string, q: char, hi: nat, lo: nat, u: string)
    requires q == '\'' || q == '"'
    requires |t| >= 4 && t[0] == '\\' && t[1] == 'x' && t[4..] == u
    requires HexValue(t[2]) == Some(hi) && HexValue(t[3]) == Some(lo)
    ensures ReadQuoted(t, q) == Prepend((16 * hi + lo) as char, ReadQuoted(u, q))
  {
  }

  /** Reading back an escaped body, then its closing quote, recovers the
      text exactly and stops right after the quote. */
  lemma {:induction false} ReadEscaped(s: string, q: char, rest: string)
    requires q == '\'' || q == '"'
    ensures ReadQuoted(Escape(s, q) + [q] + rest, q) == Some((s, rest))
  {
    if s == [] {
      assert Escape(s, q) + [q] + rest == [q] + rest;
    } else {
      var u := Escape(s[1..], q) + [q] + rest;
      assert Escape(s, q) + [q] + rest == EscapeChar(s[0], q) + u;
      ReadEscapedChar(s[0], q, u);
      ReadEscaped(s[1..], q, rest);
      assert [s[0]] + s[1..] == s;
    }
  }

  /** `repr` of a `str` loses nothing: the literal reads back as the same
      text, whatever follows it. */
  lemma StrReprRoundTrip(s: string, rest: string)
    ensures ReadStrLiteral(StrRepr(s) + rest) == Some((s, rest))
  {
    var q := QuoteFor(s);
    var t := StrRepr(s) + rest;
    assert t[1..] == Escape(s, q) + [q] + rest;
    ReadEscaped(s, q, rest);
  }

  /** `repr` of a string holds a dot only where the string does: an escape
      is a backslash followed by letters or hexadecimal digits. */
  lemma StrReprNoDot(s: string)
    requires '.' !in s
    ensures '.' !in StrRepr(s)
  {
    EscapeNoDot(s, QuoteFor(s));
  }

  lemma {:induction false} EscapeNoDot(s: string, q: char)
    requires '.' !in s && q != '.'
    ensures '.' !in Escape(s, q)
    decreases |s|
  {
    if s != [] {
      assert s[0] in s;
      EscapeCharNoDot(s[0], q);
      assert '.' !in s[1..] by {
        assert forall k | 0 <= k < |s| - 1 :: s[1..][k] == s[k + 1];
      }
      EscapeNoDot(s[1..], q);
    }
  }

  lemma EscapeCharNoDot(c: char, q: char)
    requires c != '.' && q != '.'
    ensures '.' !in EscapeChar(c, q)
  {
    if IsLatin1Unprintable(c) {
      HexDigitNotDot(c as int / 16);
      HexDigitNotDot(c as int % 16);
    }
  }

  lemma HexDigitNotDot(d: nat)
    requires d < 16
    ensures HexDigit(d) != '.'
  {
  }

  // ----- repr() of an int -----

  function DigitChar(d: nat): char
    requires d < 10
  {
    "0123456789"[d]
  }

  /** Decimal digits of a natural number, most significant first. */
  function NatDigits(n: nat): (r: string)
    ensures |r| > 0
    ensures forall k | 0 <= k < |r| :: IsDigit(r[k])
  {
    if n < 10 then [DigitChar(n)] else NatDigits(n / 10) + [DigitChar(n % 10)]
  }

  /** `repr(i)` for an `int` constant: a minus sign exactly when `i` is
      negative, then decimal digits. */
  function IntRepr(i: int): (r: string)
    ensures |r| > 0 && (r[0] == '-' <==> i < 0)
    ensures forall k | (if i < 0 then 1 else 0) <= k < |r| :: IsDigit(r[k])
  {
    if i < 0 then "-" + NatDigits(-i) else NatDigits(i)
  }

  function DigitsValue(ds: string): nat
    requires forall k | 0 <= k < |ds| :: IsDigit(ds[k])
  {
    if ds == [] then 0
    else
      assert IsDigit(ds[|ds| - 1]);
      DigitsValue(ds[..|ds| - 1]) * 10 + (ds[|ds| - 1] as int - '0' as int)
  }

  function DigitEnd(s: string, j: nat): (k: nat)
    requires j <= |s|
    ensures j <= k <= |s|
    ensures forall m | j <= m < k :: IsDigit(s[m])
    ensures k == |s| || !IsDigit(s[k])
    decreases |s| - j
  {
    if j < |s| && IsDigit(s[j]) then DigitEnd(s, j + 1) else j
  }

  /** Reads a maximal run of decimal digits. */
  function ReadNat(t: string): (res: Option<(nat, string)>)
    ensures res.Some? ==> |res.value.1| < |t|
  {
    var k := DigitEnd(t, 0);
    if k == 0 then None else Some((DigitsValue(t[..k]), t[k..]))
  }

  lemma {:induction false} NatDigitsValue(n: nat)
    ensures DigitsValue(NatDigits(n)) == n
  {
    if n >= 10 {
      NatDigitsValue(n / 10);
      var ds := NatDigits(n);
      assert ds[..|ds| - 1] == NatDigits(n / 10);
    }
  }

  lemma {:induction false} DigitEndOf(s: string, j: nat, k: nat)
    requires j <= k <= |s|
    requires forall m | j <= m < k :: IsDigit(s[m])
    requires k == |s| || !IsDigit(s[k])
    ensures DigitEnd(s, j) == k
    decreases k - j
  {
    if j < k { DigitEndOf(s, j + 1, k); }
  }

  /** `repr` of a natural number reads back as the same number when no
      digit follows it. */
  lemma NatReprRoundTrip(n: nat, rest: string)
    requires rest == [] || !IsDigit(rest[0])
    ensures ReadNat(IntRepr(n) + rest) == Some((n, rest))
  {
    var ds := NatDigits(n);
    var t := ds + rest;
    DigitEndOf(t, 0, |ds|);
    assert t[..|ds|] == ds && t[|ds|..] == rest;
    NatDigitsValue(n);
  }

  // ----- searching -----

  /** First position at or after `i` holding `c`, or the length. */
  function Find(s: string, c: char, i: nat): (k: nat)
    requires i <= |s|
    ensures i <= k <= |s| && (k < |s| ==> s[k] == c)
    ensures forall m | i <= m < k :: s[m] != c
    decreases |s| - i
  {
    if i == |s| || s[i] == c then i else Find(s, c, i + 1)
  }

  lemma {:induction false} FindOf(s: string, c: char, i: nat, k: nat)
    requires i <= k < |s| && s[k] == c
    requires forall m | i <= m < k :: s[m] != c
    ensures Find(s, c, i) == k
    decreases k - i
  {
    if i < k {
      FindOf(s, c, i + 1, k);
    }
  }

  // ----- str.join -----

  /** `sep.join(parts)` */
  function Join(sep: string, parts: seq<string>): string {
    if |parts| == 0 then ""
    else if |parts| == 1 then parts[0]
    else Join(sep, parts[..|parts| - 1]) + sep + parts[|parts| - 1]
  }

  /** `sep.join` read from the front: the first part, then the separator
      and the join of the others. */
  lemma {:induction false} JoinFront(sep: string, parts: seq<string>)
    requires |parts| >= 2
    ensures Join(sep, parts) == parts[0] + sep + Join(sep, parts[1..])
    decreases |parts|
  {
    var n := |parts|;
    if n > 2 {
      JoinFront(sep, parts[..n - 1]);
      assert parts[..n - 1][1..] == parts[1..][..n - 2];
      assert parts[..n - 1][0] == parts[0];
    } else {
      assert parts[1..] == [parts[1]];
    }
  }

  lemma JoinAppend(sep: string, parts: seq<string>, x: string)
    ensures Join(sep, parts + [x]) == if parts == [] then x else Join(sep, parts) + sep + x
  {
    assert (parts + [x])[..|parts|] == parts;
  }

  /** A character in neither the separator nor any part is not in the join. */
  lemma {:induction false} JoinAvoids(c: char, sep: string, parts: seq<string>)
    requires c !in sep
    requires forall k | 0 <= k < |parts| :: c !in parts[k]
    ensures c !in Join(sep, parts)
    decreases |parts|
  {
    if |parts| > 1 {
      JoinAvoids(c, sep, parts[..|parts| - 1]);
    }
  }
}
