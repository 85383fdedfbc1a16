/** The parameter-description extractor of src/func_analyzer/utils.py:125-188.

    `parse_docstring_params` hands a non-empty docstring to the
    `docstring_parser` package and keeps the stripped descriptions it
    finds; when that package raises, `_parse_docstring_manual` runs three
    regular-expression passes: `:param name: text` lines twice (the second
    pass only adds names the first missed) and then the `Parameters`
    section of a NumPy docstring.

    The `docstring_parser` package is not part of this model: it is the
    parameter `structured`, which gives the parameters it would list, or
    `None` where it raises. Each regular expression is modelled by what it
    matches at one position, worked out from its quantifiers, and
    `re.finditer` by the scan that tries every position and resumes after
    each match. `\w` is taken to be the ASCII word characters. */
module Docstring {
  import opened PyText

  /** `DocstringStyle`: accepted by `parse_docstring_params`, never used. */
  datatype DocstringStyle = Google | Numpy | Sphinx | Auto

  /** What `docstring_parser` reports for one parameter. */
  datatype DocParam = DocParam(argName: string, description: Option<string>)

  /** One match of a parameter pattern: the name group, the description
      group, and where the match ends. */
  datatype ParamMatch = ParamMatch(name: string, description: string, end: nat)

  predicate IsParamName(name: string) {
    |name| > 0 && AllWord(name)
  }

  // ----- :param name: description -----

  /** `:param\s+(\w+):\s*(.+?)(?=\n\s*:|\n\s*\n|$)` under MULTILINE and
      DOTALL, tried at position `i`. Every alternative of the look-ahead
      starts with a newline, where the multi-line `$` holds anyway, so the
      lazy description stops at the first newline (or the end) after its
      first character. The description starts after the blanks that follow
      the colon; when only blanks remain, `\s*` gives one of them back so
      that `.+?` has a character to match. */
  function SphinxParamAt(s: string, i: nat): (m: Option<ParamMatch>)
    requires i <= |s|
    ensures m.Some? ==>
      && StartsWith(s[i..], ":param")
      && IsParamName(m.value.name)
      && i < m.value.end <= |s|
      && (m.value.end == |s| || s[m.value.end] == '\n')
      && 0 < |m.value.description| <= m.value.end - i
      && m.value.description == s[m.value.end - |m.value.description|..m.value.end]
      && ('\n' !in m.value.description || AllSpace(m.value.description))
  {
    if !StartsWith(s[i..], ":param") then None
    else
      var j := SpaceEnd(s, i + 6);
      var k := WordEnd(s, j);
      if j == i + 6 || k == j || k == |s| || s[k] != ':' then None
      else match SphinxDescription(s, k + 1)
        case Some((d, e)) => Some(ParamMatch(s[j..k], d, e))
        case None => None
  }

  /** The description group and the end of the match, the colon after the
      name ending just before `c`. */
  function SphinxDescription(s: string, c: nat): (r: Option<(string, nat)>)
    requires 0 < c <= |s|
    ensures r.Some? ==> var (d, e) := r.value;
      && c < e <= |s| && (e == |s| || s[e] == '\n')
      && 0 < |d| <= e - c + 1 && d == s[e - |d|..e]
      && ('\n' !in d || AllSpace(d))
  {
    var m := SpaceEnd(s, c);
    if m < |s| then
      var e := Find(s, '\n', m + 1);
      assert '\n' !in s[m..e] by {
        assert forall p | m <= p < e :: s[p] != '\n';
      }
      Some((s[m..e], e))
    else if m > c then
      assert s[m - 1..m] == [s[m - 1]];
      Some((s[m - 1..m], m))
    else None
  }

  /** `re.finditer` of the `:param` pattern from position `i`. */
  function SphinxMatches(s: string, i: nat): (ms: seq<ParamMatch>)
    requires i <= |s|
    ensures forall k | 0 <= k < |ms| :: IsParamName(ms[k].name)
    ensures forall k | 0 <= k < |ms| :: '\n' !in ms[k].description || AllSpace(ms[k].description)
    decreases |s| - i
  {
    if i == |s| then []
    else match SphinxParamAt(s, i)
      case Some(m) => [m] + SphinxMatches(s, m.end)
      case None => SphinxMatches(s, i + 1)
  }

  // ----- the NumPy Parameters section -----

  /** End of the run of `-` characters that starts at `j`. */
  function DashEnd(s: string, j: nat): (k: nat)
    requires j <= |s|
    ensures j <= k <= |s| && (k == |s| || s[k] != '-')
    ensures forall p | j <= p < k :: s[p] == '-'
    decreases |s| - j
  {
    if j < |s| && s[j] == '-' then DashEnd(s, j + 1) else j
  }

  /** Where the section body starts when `Parameters\n-+\n` matches at
      `i`. */
  function SectionStartAt(s: string, i: nat): (c: Option<nat>)
    requires i <= |s|
    ensures c.Some? ==> StartsWith(s[i..], "Parameters\n") && i + 13 <= c.value <= |s| && s[c.value - 1] == '\n'
  {
    if StartsWith(s[i..], "Parameters\n") then
      var j := DashEnd(s, i + 11);
      if j > i + 11 && j < |s| && s[j] == '\n' then Some(j + 1) else None
    else None
  }

  /** `(?=\n\s*\n|\n\s*[A-Z]|\Z)` at `p`: a line that is blank or, after
      its indentation, starts with a capital letter, or the end. */
  predicate SectionStop(s: string, p: nat)
    requires p <= |s|
  {
    p == |s|
    || (s[p] == '\n'
        && var q := SpaceEnd(s, p + 1);
           Find(s, '\n', p + 1) < q || (q < |s| && IsUpper(s[q])))
  }

  /** The lazy `(.*?)`: the first stop at or after `p`. */
  function SectionEnd(s: string, p: nat): (e: nat)
    requires p <= |s|
    ensures p <= e <= |s| && SectionStop(s, e)
    ensures forall q | p <= q < e :: !SectionStop(s, q)
    decreases |s| - p
  {
    if SectionStop(s, p) then p else SectionEnd(s, p + 1)
  }

  /** `re.search(r'Parameters\n-+\n(.*?)(?=...)', docstring, re.DOTALL)`
      from position `i`: the first position where the heading matches. */
  function NumpySectionFrom(s: string, i: nat): (section: Option<string>)
    requires i <= |s|
    decreases |s| - i
  {
    if i == |s| then None
    else match SectionStartAt(s, i)
      case Some(c) => Some(s[c..SectionEnd(s, c)])
      case None => NumpySectionFrom(s, i + 1)
  }

  function NumpySection(s: string): Option<string> {
    NumpySectionFrom(s, 0)
  }

  // ----- name : type lines inside the section -----

  /** The last newline in `[lo, hi)` that is not the final character. */
  function LastNewlineBelow(t: string, lo: nat, hi: nat): (n: Option<nat>)
    requires lo <= hi <= |t|
    ensures n.Some? ==> lo <= n.value < hi && n.value + 1 < |t| && t[n.value] == '\n'
    decreases hi
  {
    if hi == lo then None
    else if t[hi - 1] == '\n' && hi < |t| then Some(hi - 1)
    else LastNewlineBelow(t, lo, hi - 1)
  }

  /** The newline that `\s*[^\n]*\n` consumes after the colon at `l`: the
      greedy `\s*` is given back one character at a time, so the latest
      newline that still leaves a character for the description wins. */
  function ConsumedNewline(t: string, l: nat): (n: Option<nat>)
    requires l < |t|
    ensures n.Some? ==> l < n.value && n.value + 1 < |t| && t[n.value] == '\n'
  {
    var m := SpaceEnd(t, l + 1);
    var f := Find(t, '\n', m);
    if f + 1 < |t| then Some(f) else LastNewlineBelow(t, l + 1, m)
  }

  /** `(?=\n\s*\w+\s*:|$)` at `p`, without MULTILINE: the next `name :`
      line, the very end, or a newline that ends the text. */
  predicate NumpyStop(t: string, p: nat)
    requires p <= |t|
  {
    p == |t|
    || (t[p] == '\n'
        && (p == |t| - 1
            || var q := SpaceEnd(t, p + 1);
               var r := WordEnd(t, q);
               r > q && var u := SpaceEnd(t, r); u < |t| && t[u] == ':'))
  }

  function NumpyDescEnd(t: string, p: nat): (e: nat)
    requires p <= |t|
    ensures p <= e <= |t| && NumpyStop(t, e)
    ensures forall q | p <= q < e :: !NumpyStop(t, q)
    decreases |t| - p
  {
    if NumpyStop(t, p) then p else NumpyDescEnd(t, p + 1)
  }

  /** Where the description starts: after the spaces that follow the
      consumed newline, or on the last of them when they run to the end. */
  function DescStart(t: string, n: nat): (b: nat)
    requires n + 1 < |t|
    ensures n < b < |t|
  {
    var m := SpaceEnd(t, n + 1);
    if m < |t| then m else m - 1
  }

  /** `(\w+)\s*:\s*[^\n]*\n\s*(.+?)(?=\n\s*\w+\s*:|$)` under DOTALL, tried
      at position `i` of the section. */
  function NumpyParamAt(t: string, i: nat): (m: Option<ParamMatch>)
    requires i < |t|
    ensures m.Some? ==> IsParamName(m.value.name) && i < m.value.end <= |t| && |m.value.description| > 0
  {
    if !IsWordChar(t[i]) then None
    else
      var k := WordEnd(t, i);
      var l := SpaceEnd(t, k);
      if l == |t| || t[l] != ':' then None
      else match ConsumedNewline(t, l)
        case None => None
        case Some(n) =>
          var b := DescStart(t, n);
          var e := NumpyDescEnd(t, b + 1);
          Some(ParamMatch(t[i..k], t[b..e], e))
  }

  /** Where a match lies: its name is the whole word at `i`, and its
      description is a non-empty run of the text that ends where the next
      `name :` line, or the end, begins. */
  lemma NumpyParamAtShape(t: string, i: nat, m: ParamMatch)
    requires i < |t| && NumpyParamAt(t, i) == Some(m)
    ensures var name := m.name; var d := m.description; var e := m.end;
      && i + |name| < e - |d| && t[i..i + |name|] == name && !IsWordChar(t[i + |name|])
      && 0 < |d| && t[e - |d|..e] == d && NumpyStop(t, e)
  {
    var k, b, e := MatchBounds(t, i, m);
    MatchShape(t, i, k, b, e, m);
  }

  /** The positions a match is cut at. */
  lemma MatchBounds(t: string, i: nat, m: ParamMatch) returns (k: nat, b: nat, e: nat)
    requires i < |t| && NumpyParamAt(t, i) == Some(m)
    ensures i <= k < b < e <= |t| && !IsWordChar(t[k]) && NumpyStop(t, e)
    ensures m == ParamMatch(t[i..k], t[b..e], e)
  {
    k := WordEnd(t, i);
    var l := SpaceEnd(t, k);
    var n := ConsumedNewline(t, l).value;
    b := DescStart(t, n);
    e := NumpyDescEnd(t, b + 1);
    NumpyParamAtOf(t, i, k, l, n, b, e, t[i..k], t[b..e]);
  }

  /** The name and description of a match, as slices of the text. */
  lemma MatchShape(t: string, i: nat, k: nat, b: nat, e: nat, m: ParamMatch)
    requires i <= k < b < e <= |t| && !IsWordChar(t[k]) && NumpyStop(t, e)
    requires m == ParamMatch(t[i..k], t[b..e], e)
    ensures var name := m.name; var d := m.description; var e := m.end;
      && i + |name| < e - |d| && t[i..i + |name|] == name && !IsWordChar(t[i + |name|])
      && 0 < |d| && t[e - |d|..e] == d && NumpyStop(t, e)
  {
  }

  /** `re.finditer` of the NumPy parameter pattern from position `i`. */
  function NumpyParamMatches(t: string, i: nat): (ms: seq<ParamMatch>)
    requires i <= |t|
    ensures forall k | 0 <= k < |ms| :: IsParamName(ms[k].name) && |ms[k].description| > 0
    decreases |t| - i
  {
    if i == |t| then []
    else match NumpyParamAt(t, i)
      case Some(m) => [m] + NumpyParamMatches(t, m.end)
      case None => NumpyParamMatches(t, i + 1)
  }

  // ----- filling the dictionary -----

  /** `d[name] = description.strip()` for every match in order: a later
      match of a name replaces an earlier one. */
  function Overwrite(params: map<string, string>, ms: seq<ParamMatch>): map<string, string> {
    if ms == [] then params
    else
      var last := ms[|ms| - 1];
      Overwrite(params, ms[..|ms| - 1])[last.name := Strip(last.description)]
  }

  /** The same, guarded by `if name not in d`: a name already present
      keeps its description. */
  function FillGaps(params: map<string, string>, ms: seq<ParamMatch>): map<string, string> {
    if ms == [] then params
    else
      var prev := FillGaps(params, ms[..|ms| - 1]);
      var last := ms[|ms| - 1];
      if last.name in prev then prev else prev[last.name := Strip(last.description)]
  }

  /** The NumPy section's parameter matches, none when there is no
      section. */
  function NumpyMatches(docstring: string): seq<ParamMatch> {
    match NumpySection(docstring)
    case Some(section) => NumpyParamMatches(section, 0)
    case None => []
  }

  /** What `_parse_docstring_manual` returns. */
  function ManualParams(docstring: string): map<string, string> {
    var google := SphinxMatches(docstring, 0);
    FillGaps(FillGaps(Overwrite(map[], google), google), NumpyMatches(docstring))
  }

  /** `_parse_docstring_manual`: the three passes over the matches. */
  method ParseDocstringManual(docstring: string) returns (params: map<string, string>)
    ensures params == ManualParams(docstring)
  {
    var google := SphinxMatches(docstring, 0);
    params := StoreEach(map[], google);
    var sphinx := SphinxMatches(docstring, 0);
    params := StoreMissing(params, sphinx);
    var numpy := NumpyMatches(docstring);
    params := StoreMissing(params, numpy);
  }

  /** A pass that stores every match's stripped description. */
  method StoreEach(start: map<string, string>, ms: seq<ParamMatch>) returns (params: map<string, string>)
    ensures params == Overwrite(start, ms)
  {
    params := start;
    for n := 0 to |ms|
      invariant params == Overwrite(start, ms[..n])
    {
      assert ms[..n + 1][..n] == ms[..n];
      params := params[ms[n].name := Strip(ms[n].description)];
    }
    assert ms[..|ms|] == ms;
  }

  /** A pass that stores a match only when its name is still missing. */
  method StoreMissing(start: map<string, string>, ms: seq<ParamMatch>) returns (params: map<string, string>)
    ensures params == FillGaps(start, ms)
  {
    params := start;
    for n := 0 to |ms|
      invariant params == FillGaps(start, ms[..n])
    {
      assert ms[..n + 1][..n] == ms[..n];
      if ms[n].name !in params {
        params := params[ms[n].name := Strip(ms[n].description)];
      }
    }
    assert ms[..|ms|] == ms;
  }

  // ----- the structured parser's parameters -----

  /** `if param.description:` -- present and non-empty. */
  predicate HasDescription(p: DocParam) {
    p.description.Some? && p.description.value != ""
  }

  /** The dictionary built from `docstring_parser`'s parameters: the
      stripped description of every parameter that has one, a later entry
      for a name replacing an earlier one. */
  function StructuredParams(ps: seq<DocParam>): map<string, string> {
    if ps == [] then map[]
    else
      var prev := StructuredParams(ps[..|ps| - 1]);
      var last := ps[|ps| - 1];
      if HasDescription(last) then prev[last.argName := Strip(last.description.value)] else prev
  }

  /** What `parse_docstring_params` returns. */
  function DocstringParams(docstring: Option<string>, structured: string -> Option<seq<DocParam>>): (r: map<string, string>)
    ensures docstring.None? || docstring.value == "" ==> r == map[]
  {
    if docstring.None? || docstring.value == "" then map[]
    else match structured(docstring.value)
      case Some(ps) => StructuredParams(ps)
      case None => ManualParams(docstring.value)
  }

  /** `parse_docstring_params`: an empty docstring gives an empty
      dictionary; otherwise the structured parser's parameters, or the
      manual passes when it fails. */
  method ParseDocstringParams(docstring: Option<string>, structured: string -> Option<seq<DocParam>>,
                              style: DocstringStyle := Auto)
    returns (params: map<string, string>)
    ensures params == DocstringParams(docstring, structured)
  {
    if docstring.None? || docstring.value == "" {
      return map[];
    }
    match structured(docstring.value) {
      case Some(parsed) =>
        params := map[];
        for n := 0 to |parsed|
          invariant params == StructuredParams(parsed[..n])
        {
          assert parsed[..n + 1][..n] == parsed[..n];
          if HasDescription(parsed[n]) {
            params := params[parsed[n].argName := Strip(parsed[n].description.value)];
          }
        }
        assert parsed[..|parsed|] == parsed;
      case None =>
        params := ParseDocstringManual(docstring.value);
    }
  }

  // ----- what the passes store -----

  function Names(ms: seq<ParamMatch>): set<string> {
    set k | 0 <= k < |ms| :: ms[k].name
  }

  /** `ms[k]` is the last match for `name`. */
  predicate IsLastWith(ms: seq<ParamMatch>, name: string, k: nat) {
    k < |ms| && ms[k].name == name && forall q | k < q < |ms| :: ms[q].name != name
  }

  /** `ms[k]` is the first match for `name`. */
  predicate IsFirstWith(ms: seq<ParamMatch>, name: string, k: nat) {
    k < |ms| && ms[k].name == name && forall q | 0 <= q < k :: ms[q].name != name
  }

  lemma NamesInit(ms: seq<ParamMatch>)
    requires ms != []
    ensures Names(ms) == Names(ms[..|ms| - 1]) + {ms[|ms| - 1].name}
  {
    var init := ms[..|ms| - 1];
    forall name | name in Names(ms)
      ensures name in Names(init) + {ms[|ms| - 1].name}
    {
      var k :| 0 <= k < |ms| && ms[k].name == name;
      if k < |ms| - 1 { assert init[k].name == name; }
    }
    forall name | name in Names(init)
      ensures name in Names(ms)
    {
      var k :| 0 <= k < |init| && init[k].name == name;
      assert ms[k].name == name;
    }
  }

  /** The first pass adds exactly the matched names. */
  lemma {:induction false} OverwriteKeys(params: map<string, string>, ms: seq<ParamMatch>)
    ensures Overwrite(params, ms).Keys == params.Keys + Names(ms)
    decreases |ms|
  {
    if ms != [] {
      OverwriteKeys(params, ms[..|ms| - 1]);
      NamesInit(ms);
    }
  }

  /** Under the first pass the last match of a name decides its
      description. */
  lemma {:induction false} OverwriteLastWins(params: map<string, string>, ms: seq<ParamMatch>, name: string, k: nat)
    requires IsLastWith(ms, name, k)
    ensures name in Overwrite(params, ms) && Overwrite(params, ms)[name] == Strip(ms[k].description)
    decreases |ms|
  {
    if k < |ms| - 1 {
      OverwriteLastWins(params, ms[..|ms| - 1], name, k);
    }
  }

  /** A pass that adds only missing names changes no name already
      present... */
  lemma {:induction false} FillGapsKeeps(params: map<string, string>, ms: seq<ParamMatch>, name: string)
    requires name in params
    ensures name in FillGaps(params, ms) && FillGaps(params, ms)[name] == params[name]
    decreases |ms|
  {
    if ms != [] {
      FillGapsKeeps(params, ms[..|ms| - 1], name);
    }
  }

  /** ...adds exactly the matched names... */
  lemma {:induction false} FillGapsKeys(params: map<string, string>, ms: seq<ParamMatch>)
    ensures FillGaps(params, ms).Keys == params.Keys + Names(ms)
    decreases |ms|
  {
    if ms != [] {
      FillGapsKeys(params, ms[..|ms| - 1]);
      NamesInit(ms);
    }
  }

  /** ...and gives a new name the description of its first match. */
  lemma {:induction false} FillGapsFirstWins(params: map<string, string>, ms: seq<ParamMatch>, name: string, k: nat)
    requires name !in params && IsFirstWith(ms, name, k)
    ensures name in FillGaps(params, ms) && FillGaps(params, ms)[name] == Strip(ms[k].description)
    decreases |ms|
  {
    var init := ms[..|ms| - 1];
    if k < |ms| - 1 {
      FillGapsFirstWins(params, init, name, k);
      FillGapsKeeps(FillGaps(params, init), [ms[|ms| - 1]], name);
      assert [ms[|ms| - 1]][..0] == [];
    } else {
      FillGapsKeys(params, init);
      assert name !in Names(init) by {
        forall q | 0 <= q < |init| ensures init[q].name != name {
          assert init[q] == ms[q];
        }
      }
    }
  }

  /** The second `:param` pass, over the same matches as the first, adds
      nothing. */
  lemma SecondPassAddsNothing(params: map<string, string>, ms: seq<ParamMatch>)
    ensures FillGaps(Overwrite(params, ms), ms) == Overwrite(params, ms)
  {
    OverwriteKeys(params, ms);
    FillGapsPresent(Overwrite(params, ms), ms);
  }

  lemma {:induction false} FillGapsPresent(params: map<string, string>, ms: seq<ParamMatch>)
    requires Names(ms) <= params.Keys
    ensures FillGaps(params, ms) == params
    decreases |ms|
  {
    if ms != [] {
      NamesInit(ms);
      FillGapsPresent(params, ms[..|ms| - 1]);
    }
  }

  /** What `_parse_docstring_manual` stores, name by name: the names of
      the `:param` lines and of the NumPy section, a `:param` name with
      the description of its last line, and a name found only in the NumPy
      section with the description of its first entry there. */
  lemma ManualParamsContents(docstring: string)
    ensures var google := SphinxMatches(docstring, 0);
      var numpy := NumpyMatches(docstring);
      var r := ManualParams(docstring);
      && r.Keys == Names(google) + Names(numpy)
      && (forall name, k: nat | IsLastWith(google, name, k) :: r[name] == Strip(google[k].description))
      && (forall name, k: nat | name !in Names(google) && IsFirstWith(numpy, name, k)
            :: r[name] == Strip(numpy[k].description))
  {
    var google := SphinxMatches(docstring, 0);
    SecondPassAddsNothing(map[], google);
    assert ManualParams(docstring) == FillGaps(Overwrite(map[], google), NumpyMatches(docstring));
    PassesContents(google, NumpyMatches(docstring));
  }

  /** The same for any two match lists: a first pass over `google`, then
      a pass over `numpy` that only adds missing names. */
  lemma PassesContents(google: seq<ParamMatch>, numpy: seq<ParamMatch>)
    ensures var r := FillGaps(Overwrite(map[], google), numpy);
      && r.Keys == Names(google) + Names(numpy)
      && (forall name, k: nat | IsLastWith(google, name, k) :: r[name] == Strip(google[k].description))
      && (forall name, k: nat | name !in Names(google) && IsFirstWith(numpy, name, k)
            :: r[name] == Strip(numpy[k].description))
  {
    var first := Overwrite(map[], google);
    OverwriteKeys(map[], google);
    FillGapsKeys(first, numpy);
    forall name, k: nat | IsLastWith(google, name, k)
      ensures FillGaps(first, numpy)[name] == Strip(google[k].description)
    {
      OverwriteLastWins(map[], google, name, k);
      FillGapsKeeps(first, numpy, name);
    }
    forall name, k: nat | name !in Names(google) && IsFirstWith(numpy, name, k)
      ensures FillGaps(first, numpy)[name] == Strip(numpy[k].description)
    {
      FillGapsFirstWins(first, numpy, name, k);
    }
  }

  /** Every name the manual passes store is a non-empty word. */
  lemma ManualNamesAreWords(docstring: string)
    ensures forall name | name in ManualParams(docstring) :: IsParamName(name)
  {
    ManualParamsContents(docstring);
    var numpy := NumpyMatches(docstring);
    assert forall k | 0 <= k < |numpy| :: IsParamName(numpy[k].name) by {
      match NumpySection(docstring)
      case Some(section) =>
      case None =>
    }
  }

  /** A `:param` description never reaches past the end of its line. */
  lemma SphinxDescriptionsOneLine(docstring: string)
    ensures forall k | 0 <= k < |SphinxMatches(docstring, 0)| :: '\n' !in Strip(SphinxMatches(docstring, 0)[k].description)
  {
    var ms := SphinxMatches(docstring, 0);
    forall k | 0 <= k < |ms|
      ensures '\n' !in Strip(ms[k].description)
    {
      if AllSpace(ms[k].description) {
        StripAllSpace(ms[k].description);
      } else {
        StripAvoids('\n', ms[k].description);
      }
    }
  }

  // ----- every stored description is stripped -----

  predicate AllStripped(params: map<string, string>) {
    forall name | name in params :: IsStripped(params[name])
  }

  lemma {:induction false} OverwriteStripped(params: map<string, string>, ms: seq<ParamMatch>)
    requires AllStripped(params)
    ensures AllStripped(Overwrite(params, ms))
    decreases |ms|
  {
    if ms != [] {
      OverwriteStripped(params, ms[..|ms| - 1]);
    }
  }

  lemma {:induction false} FillGapsStripped(params: map<string, string>, ms: seq<ParamMatch>)
    requires AllStripped(params)
    ensures AllStripped(FillGaps(params, ms))
    decreases |ms|
  {
    if ms != [] {
      FillGapsStripped(params, ms[..|ms| - 1]);
    }
  }

  lemma {:induction false} StructuredStripped(ps: seq<DocParam>)
    ensures AllStripped(StructuredParams(ps))
    decreases |ps|
  {
    if ps != [] {
      StructuredStripped(ps[..|ps| - 1]);
    }
  }

  /** Whichever path produced it, every description in the result of
      `parse_docstring_params` is stripped. */
  lemma DescriptionsStripped(docstring: Option<string>, structured: string -> Option<seq<DocParam>>)
    ensures AllStripped(DocstringParams(docstring, structured))
  {
    if docstring.Some? && docstring.value != "" {
      match structured(docstring.value)
      case Some(ps) => StructuredStripped(ps);
      case None =>
        var google := SphinxMatches(docstring.value, 0);
        OverwriteStripped(map[], google);
        FillGapsStripped(Overwrite(map[], google), google);
        FillGapsStripped(FillGaps(Overwrite(map[], google), google), NumpyMatches(docstring.value));
    }
  }

  // ----- the structured parser's result -----

  /** `p` is a parameter named `name` that has a description. */
  predicate Describes(p: DocParam, name: string) {
    p.argName == name && HasDescription(p)
  }

  /** `ps[k]` is the last parameter named `name` that has a description. */
  predicate IsLastDescribed(ps: seq<DocParam>, name: string, k: nat) {
    k < |ps| && Describes(ps[k], name) && forall q | k < q < |ps| :: !Describes(ps[q], name)
  }

  /** The structured path keeps exactly the parameters with a
      description, each name with the description of its last such
      entry. */
  lemma StructuredContents(ps: seq<DocParam>, name: string)
    ensures name in StructuredParams(ps) <==> exists k | 0 <= k < |ps| :: Describes(ps[k], name)
    ensures forall k: nat | IsLastDescribed(ps, name, k) :: StructuredParams(ps)[name] == Strip(ps[k].description.value)
  {
    StructuredKeys(ps, name);
    forall k: nat | IsLastDescribed(ps, name, k)
      ensures StructuredParams(ps)[name] == Strip(ps[k].description.value)
    {
      StructuredLastWins(ps, name, k);
    }
  }

  lemma {:induction false} StructuredKeys(ps: seq<DocParam>, name: string)
    ensures name in StructuredParams(ps) <==> exists k | 0 <= k < |ps| :: Describes(ps[k], name)
    decreases |ps|
  {
    if ps != [] {
      var init := ps[..|ps| - 1];
      StructuredKeys(init, name);
      StructuredLast(ps, name);
      DescribedSplit(ps, init, name);
    }
  }

  lemma {:induction false} StructuredLastWins(ps: seq<DocParam>, name: string, k: nat)
    requires IsLastDescribed(ps, name, k)
    ensures name in StructuredParams(ps) && StructuredParams(ps)[name] == Strip(ps[k].description.value)
    decreases |ps|
  {
    var init := ps[..|ps| - 1];
    StructuredLast(ps, name);
    if k < |init| {
      assert init[k] == ps[k];
      assert IsLastDescribed(init, name, k);
      StructuredLastWins(init, name, k);
    }
  }

  /** A describing entry is in the front part or is the last one. */
  lemma DescribedSplit(ps: seq<DocParam>, init: seq<DocParam>, name: string)
    requires ps != [] && init == ps[..|ps| - 1]
    ensures (exists k | 0 <= k < |ps| :: Describes(ps[k], name))
        <==> (exists k | 0 <= k < |init| :: Describes(init[k], name)) || Describes(ps[|ps| - 1], name)
  {
    if exists k | 0 <= k < |ps| :: Describes(ps[k], name) {
      var k :| 0 <= k < |ps| && Describes(ps[k], name);
      if k < |init| {
        assert init[k] == ps[k];
      }
    }
    if exists k | 0 <= k < |init| :: Describes(init[k], name) {
      var k :| 0 <= k < |init| && Describes(init[k], name);
      assert ps[k] == init[k];
    }
  }

  /** What the last parameter changes in the dictionary. */
  lemma StructuredLast(ps: seq<DocParam>, name: string)
    requires ps != []
    ensures var prev := StructuredParams(ps[..|ps| - 1]); var last := ps[|ps| - 1];
      && (name in StructuredParams(ps) <==> name in prev || Describes(last, name))
      && (Describes(last, name) ==> StructuredParams(ps)[name] == Strip(last.description.value))
      && (!Describes(last, name) && name in prev ==> StructuredParams(ps)[name] == prev[name])
  {
  }

  // ----- two consequences of the patterns as written -----

  lemma {:induction false} SectionEndOf(s: string, p: nat, e: nat)
    requires p <= e <= |s| && SectionStop(s, e)
    requires forall q | p <= q < e :: !SectionStop(s, q)
    ensures SectionEnd(s, p) == e
    decreases e - p
  {
    if p < e {
      SectionEndOf(s, p + 1, e);
    }
  }

  /** The NumPy parameter pattern needs a line break after `name : type`. */
  lemma {:induction false} SingleLineSectionHasNoParams(t: string, i: nat)
    requires i <= |t| && '\n' !in t
    ensures NumpyParamMatches(t, i) == []
    decreases |t| - i
  {
    if i < |t| {
      assert forall q | 0 <= q < |t| :: t[q] != '\n';
      SingleLineSectionHasNoParams(t, i + 1);
    }
  }

  /** A NumPy section whose first description starts with a capital
      letter ends before that description, because `\n\s*[A-Z]` in the
      section pattern also matches there: the section is the single
      `name : type` line and no parameter is found in it. */
  lemma CapitalisedNumpyDescriptionLost(dashes: string, entry: string, indent: string, desc: string)
    requires |dashes| > 0 && forall k | 0 <= k < |dashes| :: dashes[k] == '-'
    requires '\n' !in entry
    requires AllSpace(indent) && |desc| > 0 && IsUpper(desc[0])
    ensures var d := "Parameters\n" + dashes + "\n" + entry + "\n" + indent + desc;
      NumpySection(d) == Some(entry) && NumpyMatches(d) == []
  {
    var d := "Parameters\n" + dashes + "\n" + entry + "\n" + indent + desc;
    var j := 11 + |dashes|;
    var e := j + 1 + |entry|;
    SectionLayout(dashes, entry, indent, desc);
    SectionCutAt(d, j, e, |indent|, entry);
  }

  lemma SectionLayout(dashes: string, entry: string, indent: string, desc: string)
    requires |dashes| > 0 && forall k | 0 <= k < |dashes| :: dashes[k] == '-'
    requires '\n' !in entry
    requires |desc| > 0
    ensures var d := "Parameters\n" + dashes + "\n" + entry + "\n" + indent + desc;
      var j := 11 + |dashes|; var e := j + 1 + |entry|;
      && e + 1 + |indent| < |d|
      && d[..11] == "Parameters\n"
      && (forall p | 11 <= p < j :: d[p] == '-')
      && d[j] == '\n' && d[j + 1..e] == entry
      && (forall q | j + 1 <= q < e :: d[q] != '\n')
      && d[e] == '\n' && d[e + 1..e + 1 + |indent|] == indent && d[e + 1 + |indent|] == desc[0]
  {
    var d := "Parameters\n" + dashes + "\n" + entry + "\n" + indent + desc;
    var j := 11 + |dashes|;
    var e := j + 1 + |entry|;
    forall p | 11 <= p < j
      ensures d[p] == '-'
    {
      assert d[p] == dashes[p - 11];
    }
    forall q | j + 1 <= q < e
      ensures d[q] != '\n'
    {
      assert d[q] == entry[q - j - 1];
    }
    assert d[j + 1..e] == entry;
    assert d[e + 1..e + 1 + |indent|] == indent;
  }

  /** `Parameters\n`, dashes, and a section whose first line is followed
      by an indented capital: the section is that first line alone. */
  lemma SectionCutAt(d: string, j: nat, e: nat, w: nat, entry: string)
    requires 11 < j < e && e + 1 + w < |d|
    requires d[..11] == "Parameters\n"
    requires forall p | 11 <= p < j :: d[p] == '-'
    requires d[j] == '\n' && forall q | j + 1 <= q < e :: d[q] != '\n'
    requires d[e] == '\n' && AllSpace(d[e + 1..e + 1 + w]) && IsUpper(d[e + 1 + w])
    requires d[j + 1..e] == entry && '\n' !in entry
    ensures NumpySection(d) == Some(entry) && NumpyMatches(d) == []
  {
    SingleLineSectionHasNoParams(entry, 0);
    var c := j + 1;
    DashRun(d, 11, j);
    assert d[0..] == d;
    assert SectionStartAt(d, 0) == Some(c);
    SpaceEndOf(d, e + 1, e + 1 + w);
    assert SectionStop(d, e);
    SectionEndOf(d, c, e);
  }

  lemma {:induction false} DashRun(s: string, j: nat, k: nat)
    requires j <= k < |s| && s[k] != '-'
    requires forall p | j <= p < k :: s[p] == '-'
    ensures DashEnd(s, j) == k
    decreases k - j
  {
    if j < k {
      DashRun(s, j + 1, k);
    }
  }

  /** A `:param` description ends at its line break: whatever follows,
      an indented continuation line included, is not part of it. */
  lemma ContinuationLineDropped(name: string, desc: string, rest: string)
    requires IsParamName(name)
    requires |desc| > 0 && !IsSpace(desc[0]) && '\n' !in desc
    ensures var d := ":param " + name + ": " + desc + "\n" + rest;
      SphinxParamAt(d, 0) == Some(ParamMatch(name, desc, 9 + |name| + |desc|))
  {
    ParamLineLayout(name, desc, rest);
    ParamLineAt(":param " + name + ": " + desc + "\n" + rest, name, desc);
  }

  /** The `:param` match of a text laid out as `:param name: desc\n...`. */
  lemma ParamLineAt(d: string, name: string, desc: string)
    requires IsParamName(name)
    requires |desc| > 0 && !IsSpace(desc[0]) && '\n' !in desc
    requires var k := 7 + |name|;
      && |d| > k + 2 + |desc|
      && d[0..] == d && d[..6] == ":param" && d[6] == ' '
      && d[7..k] == name && d[k] == ':' && d[7] == name[0]
      && d[k + 1] == ' ' && d[k + 2..k + 2 + |desc|] == desc && d[k + 2 + |desc|] == '\n'
    ensures SphinxParamAt(d, 0) == Some(ParamMatch(name, desc, 9 + |name| + |desc|))
  {
    var k := 7 + |name|;
    SpaceEndOf(d, 6, 7);
    WordEndOf(d, 7, k);
    DescriptionLine(d, k + 1, desc);
  }

  lemma ParamLineLayout(name: string, desc: string, rest: string)
    requires |name| > 0
    ensures var d := ":param " + name + ": " + desc + "\n" + rest; var k := 7 + |name|;
      && |d| == k + 3 + |desc| + |rest|
      && d[0..] == d && d[..6] == ":param" && d[6] == ' '
      && d[7..k] == name && d[k] == ':' && d[7] == name[0]
      && d[k + 1] == ' ' && d[k + 2..k + 2 + |desc|] == desc && d[k + 2 + |desc|] == '\n'
  {
    var head := ":param " + name + ": ";
    var d := ":param " + name + ": " + desc + "\n" + rest;
    var k := 7 + |name|;
    assert d[..|head|] == head;
    assert d[..6] == head[..6] == ":param";
    assert d[7..k] == head[7..k] == name;
    assert d[k + 2..k + 2 + |desc|] == desc;
  }

  /** One blank, then a description line that holds no line break. */
  lemma DescriptionLine(s: string, c: nat, desc: string)
    requires 0 < c && c + 1 + |desc| < |s|
    requires |desc| > 0 && !IsSpace(desc[0]) && '\n' !in desc
    requires s[c] == ' ' && s[c + 1..c + 1 + |desc|] == desc && s[c + 1 + |desc|] == '\n'
    ensures SphinxDescription(s, c) == Some((desc, c + 1 + |desc|))
  {
    var m := c + 1;
    var e := m + |desc|;
    assert s[m] == desc[0];
    SpaceEndOf(s, c, m);
    forall q | m + 1 <= q < e
      ensures s[q] != '\n'
    {
      assert s[q] == desc[q - m];
    }
    FindOf(s, '\n', m + 1, e);
  }

  /** Without a colon there is no `:param` match. */
  lemma {:induction false} NoTagNoMatches(s: string, i: nat)
    requires i <= |s|
    requires forall q | i <= q < |s| :: s[q] != ':'
    ensures SphinxMatches(s, i) == []
    decreases |s| - i
  {
    if i < |s| {
      assert SphinxParamAt(s, i).None? by {
        assert s[i..][0] == s[i];
      }
      NoTagNoMatches(s, i + 1);
    }
  }

  // ----- a NumPy entry that is found -----

  /** One NumPy entry: `name : type`, then an indented description line. */
  function NumpyEntry(name: string, typ: string, indent: string, desc: string): string {
    name + " : " + typ + "\n" + indent + desc + "\n"
  }

  /** An entry written the usual way: a word name, a one-line type and an
      indented one-line description that does not start with a capital.
      Neither the type nor the description holds a colon. */
  predicate EntryParts(name: string, typ: string, indent: string, desc: string) {
    && IsParamName(name)
    && |typ| > 0 && !IsSpace(typ[0]) && '\n' !in typ && ':' !in typ
    && AllSpace(indent) && '\n' !in indent
    && |desc| > 0 && !IsSpace(desc[0]) && !IsUpper(desc[0]) && '\n' !in desc && ':' !in desc
  }

  /** The NumPy pattern finds the entry, with its name and exactly its
      description line, and nothing after it. */
  lemma NumpyEntryFound(name: string, typ: string, indent: string, desc: string)
    requires EntryParts(name, typ, indent, desc)
    ensures var t := NumpyEntry(name, typ, indent, desc);
      NumpyParamMatches(t, 0) == [ParamMatch(name, desc, |t| - 1)]
  {
    var t := NumpyEntry(name, typ, indent, desc);
    assert NumpyParamAt(t, 0) == Some(ParamMatch(name, desc, |t| - 1)) && t[|t| - 1] == '\n' by {
      EntryLayout(name, typ, indent, desc);
      EntryAt(t, name, typ, indent, desc);
    }
    OnlyMatch(t, ParamMatch(name, desc, |t| - 1));
  }

  /** A match that ends at a final line break is the only one. */
  lemma OnlyMatch(t: string, m: ParamMatch)
    requires |t| > 0 && NumpyParamAt(t, 0) == Some(m) && m.end == |t| - 1 && t[|t| - 1] == '\n'
    ensures NumpyParamMatches(t, 0) == [m]
  {
    NoMatchAtFinalNewline(t);
    MatchThenNone(t, 0, m);
  }

  /** A match after which nothing matches is the only match from `i`. */
  lemma MatchThenNone(t: string, i: nat, m: ParamMatch)
    requires i < |t| && NumpyParamAt(t, i) == Some(m) && m.end <= |t| && NumpyParamMatches(t, m.end) == []
    ensures NumpyParamMatches(t, i) == [m]
  {
    assert [m] + [] == [m];
  }

  /** A final line break starts no match. */
  lemma NoMatchAtFinalNewline(t: string)
    requires |t| > 0 && t[|t| - 1] == '\n'
    ensures NumpyParamMatches(t, |t| - 1) == []
  {
    assert NumpyParamAt(t, |t| - 1).None?;
  }

  /** A docstring whose `Parameters` section is one such entry: the manual
      parser maps the entry's name to its stripped description. */
  lemma NumpyEntryParsed(dashes: string, name: string, typ: string, indent: string, desc: string)
    requires |dashes| > 0 && forall k | 0 <= k < |dashes| :: dashes[k] == '-'
    requires EntryParts(name, typ, indent, desc)
    ensures var t := NumpyEntry(name, typ, indent, desc);
      var d := "Parameters\n" + dashes + "\n" + t;
      NumpySection(d) == Some(t) && ManualParams(d) == map[name := Strip(desc)]
  {
    var t := NumpyEntry(name, typ, indent, desc);
    var d := "Parameters\n" + dashes + "\n" + t;
    EntrySection(dashes, name, typ, indent, desc);
    EntryHasNoTag(dashes, name, typ, indent, desc);
    NumpyEntryFound(name, typ, indent, desc);
    OnlyNumpyMatch(d, ParamMatch(name, desc, |t| - 1));
  }

  /** The heading and an entry form a section that is the entry. */
  lemma EntrySection(dashes: string, name: string, typ: string, indent: string, desc: string)
    requires |dashes| > 0 && forall k | 0 <= k < |dashes| :: dashes[k] == '-'
    requires EntryParts(name, typ, indent, desc)
    ensures var t := NumpyEntry(name, typ, indent, desc);
      NumpySection("Parameters\n" + dashes + "\n" + t) == Some(t)
  {
    var t := NumpyEntry(name, typ, indent, desc);
    var n := |name| + 3 + |typ|;
    EntryLayout(name, typ, indent, desc);
    HeadingLayout(dashes, t);
    SectionOfEntry("Parameters\n" + dashes + "\n" + t, 11 + |dashes|, t, n, n + 1 + |indent|);
  }

  /** The heading and an entry hold no `:param` tag. */
  lemma EntryHasNoTag(dashes: string, name: string, typ: string, indent: string, desc: string)
    requires |dashes| > 0 && forall k | 0 <= k < |dashes| :: dashes[k] == '-'
    requires EntryParts(name, typ, indent, desc)
    ensures SphinxMatches("Parameters\n" + dashes + "\n" + NumpyEntry(name, typ, indent, desc), 0) == []
  {
    var t := NumpyEntry(name, typ, indent, desc);
    var d := "Parameters\n" + dashes + "\n" + t;
    EntryLayout(name, typ, indent, desc);
    HeadingLayout(dashes, t);
    EntryColons(d, 11 + |dashes|, t, |name| + 1);
    NoParamTagNoMatches(d, 0);
  }

  /** A docstring with no `:param` tag and one NumPy match maps that
      match's name to its stripped description. */
  lemma OnlyNumpyMatch(d: string, m: ParamMatch)
    requires SphinxMatches(d, 0) == [] && NumpyMatches(d) == [m]
    ensures ManualParams(d) == map[m.name := Strip(m.description)]
  {
    assert FillGaps(map[], []) == map[];
    assert [m][..0] == [];
  }

  /** Where the characters of an entry lie. */
  lemma EntryLayout(name: string, typ: string, indent: string, desc: string)
    requires EntryParts(name, typ, indent, desc)
    ensures var t := NumpyEntry(name, typ, indent, desc);
      var k := |name|; var a := k + 3; var n := a + |typ|; var b := n + 1 + |indent|; var e := b + |desc|;
      && |t| == e + 1 && t[0..k] == name && t[k] == ' ' && t[k + 1] == ':' && t[k + 2] == ' '
      && t[a..n] == typ && t[n] == '\n' && t[n + 1..b] == indent && t[b..e] == desc && t[e] == '\n'
      && (forall q | 0 <= q < |t| && q != n && q != e :: t[q] != '\n')
      && (forall q | 0 <= q < |t| && q != k + 1 :: t[q] != ':')
  {
    var t := NumpyEntry(name, typ, indent, desc);
    var k := |name|;
    var a := k + 3;
    var n := a + |typ|;
    var b := n + 1 + |indent|;
    var e := b + |desc|;
    assert t[0..k] == name;
    assert t[a..n] == typ;
    assert t[n + 1..b] == indent;
    assert t[b..e] == desc;
    forall q | 0 <= q < |t| && q != n && q != e
      ensures t[q] != '\n' && (q != k + 1 ==> t[q] != ':')
    {
      if q < k {
        assert t[q] == name[q] && IsWordChar(name[q]);
      } else if a <= q < n {
        assert t[q] == typ[q - a] && typ[q - a] in typ;
      } else if n < q < b {
        assert t[q] == indent[q - n - 1] && IsSpace(indent[q - n - 1]) && indent[q - n - 1] in indent;
      } else if b <= q < e {
        assert t[q] == desc[q - b] && desc[q - b] in desc;
      }
    }
  }

  /** The NumPy pattern at the start of a laid-out entry. */
  lemma EntryAt(t: string, name: string, typ: string, indent: string, desc: string)
    requires IsParamName(name) && |typ| > 0 && !IsSpace(typ[0]) && '\n' !in typ
    requires AllSpace(indent) && |desc| > 0 && !IsSpace(desc[0]) && '\n' !in desc
    requires var k := |name|; var a := k + 3; var n := a + |typ|; var b := n + 1 + |indent|; var e := b + |desc|;
      && |t| == e + 1 && t[0..k] == name && t[k] == ' ' && t[k + 1] == ':' && t[k + 2] == ' '
      && t[a..n] == typ && t[n] == '\n' && t[n + 1..b] == indent && t[b..e] == desc && t[e] == '\n'
    ensures NumpyParamAt(t, 0) == Some(ParamMatch(name, desc, |t| - 1))
  {
    var k := |name|;
    var n := k + 3 + |typ|;
    var b := n + 1 + |indent|;
    var e := b + |desc|;
    NameScan(t, name);
    TypeScan(t, k + 1, typ);
    DescStartScan(t, n, indent, desc);
    DescEndScan(t, b, desc);
    NumpyParamAtOf(t, 0, k, k + 1, n, b, e, name, desc);
  }

  /** The name, then a blank and the colon. */
  lemma NameScan(t: string, name: string)
    requires IsParamName(name) && |name| + 1 < |t| && t[..|name|] == name
    requires t[|name|] == ' ' && t[|name| + 1] == ':'
    ensures IsWordChar(t[0]) && WordEnd(t, 0) == |name| && SpaceEnd(t, |name|) == |name| + 1
  {
    var k := |name|;
    assert t[0] == name[0];
    WordEndOf(t, 0, k);
    assert t[k..k + 1] == [' '];
    SpaceEndOf(t, k, k + 1);
  }

  /** After the colon at `l`: a blank, a one-line type and its newline. */
  lemma TypeScan(t: string, l: nat, typ: string)
    requires |typ| > 0 && !IsSpace(typ[0]) && '\n' !in typ
    requires l + 2 + |typ| + 1 < |t| && t[l + 1] == ' ' && t[l + 2..l + 2 + |typ|] == typ
    requires t[l + 2 + |typ|] == '\n'
    ensures ConsumedNewline(t, l) == Some(l + 2 + |typ|)
  {
    var a := l + 2;
    var n := a + |typ|;
    assert t[l + 1..a] == [' '] && t[a] == typ[0];
    SpaceEndOf(t, l + 1, a);
    forall q | a <= q < n
      ensures t[q] != '\n'
    {
      assert t[q] == typ[q - a] && typ[q - a] in typ;
    }
    FindOf(t, '\n', a, n);
  }

  /** The indentation after the newline at `n`, then the description. */
  lemma DescStartScan(t: string, n: nat, indent: string, desc: string)
    requires AllSpace(indent) && |desc| > 0 && !IsSpace(desc[0])
    requires n + 1 + |indent| < |t| && t[n + 1..n + 1 + |indent|] == indent
    requires t[n + 1 + |indent|] == desc[0]
    ensures DescStart(t, n) == n + 1 + |indent|
  {
    SpaceEndOf(t, n + 1, n + 1 + |indent|);
  }

  /** A one-line description followed by the final newline. */
  lemma DescEndScan(t: string, b: nat, desc: string)
    requires |desc| > 0 && '\n' !in desc
    requires b + |desc| + 1 == |t| && t[b..b + |desc|] == desc && t[b + |desc|] == '\n'
    ensures NumpyDescEnd(t, b + 1) == b + |desc|
  {
    var e := b + |desc|;
    forall q | b + 1 <= q < e
      ensures !NumpyStop(t, q)
    {
      assert t[q] == desc[q - b] && desc[q - b] in desc;
    }
    NumpyDescEndOf(t, b + 1, e);
  }

  /** `NumpyParamAt` once each of its scans is known. */
  lemma NumpyParamAtOf(t: string, i: nat, k: nat, l: nat, n: nat, b: nat, e: nat, name: string, desc: string)
    requires i < |t| && IsWordChar(t[i])
    requires WordEnd(t, i) == k && SpaceEnd(t, k) == l && l < |t| && t[l] == ':'
    requires ConsumedNewline(t, l) == Some(n)
    requires DescStart(t, n) == b && NumpyDescEnd(t, b + 1) == e
    requires t[i..k] == name && t[b..e] == desc
    ensures NumpyParamAt(t, i) == Some(ParamMatch(name, desc, e))
  {
    var m := NumpyParamAt(t, i);
    assert m.Some?;
    assert m.value.name == name;
    assert m.value.end == e;
    assert m.value.description == desc;
  }

  lemma {:induction false} NumpyDescEndOf(t: string, p: nat, e: nat)
    requires p <= e <= |t| && NumpyStop(t, e)
    requires forall q | p <= q < e :: !NumpyStop(t, q)
    ensures NumpyDescEnd(t, p) == e
    decreases e - p
  {
    if p < e {
      NumpyDescEndOf(t, p + 1, e);
    }
  }

  /** The heading in front of a section body. */
  lemma HeadingLayout(dashes: string, t: string)
    requires |dashes| > 0 && forall k | 0 <= k < |dashes| :: dashes[k] == '-'
    ensures var d := "Parameters\n" + dashes + "\n" + t; var j := 11 + |dashes|;
      && |d| == j + 1 + |t| && d[..11] == "Parameters\n"
      && (forall p | 11 <= p < j :: d[p] == '-')
      && d[j] == '\n' && d[j + 1..] == t
  {
    var d := "Parameters\n" + dashes + "\n" + t;
    var j := 11 + |dashes|;
    forall p | 11 <= p < j
      ensures d[p] == '-'
    {
      assert d[p] == dashes[p - 11];
    }
    assert d[j + 1..] == t;
  }

  /** A body whose only line breaks are the one after its first line and
      the final one, and whose second line does not start with a capital,
      is the whole section. */
  lemma SectionOfEntry(d: string, j: nat, t: string, n: nat, b: nat)
    requires 11 < j && |d| == j + 1 + |t| && d[..11] == "Parameters\n"
    requires forall p | 11 <= p < j :: d[p] == '-'
    requires d[j] == '\n' && d[j + 1..] == t
    requires n < b < |t| - 1 && t[n] == '\n' && t[|t| - 1] == '\n'
    requires forall q | 0 <= q < |t| && q != n && q != |t| - 1 :: t[q] != '\n'
    requires AllSpace(t[n + 1..b]) && !IsSpace(t[b]) && !IsUpper(t[b])
    ensures NumpySection(d) == Some(t)
  {
    var c := j + 1;
    HeadingStart(d, j);
    BodyHasNoStop(d, c, t, n, b);
    SectionEndOf(d, c, |d|);
    assert d[c..|d|] == t;
  }

  /** `Parameters\n-+\n` matches at the start, and the body follows it. */
  lemma HeadingStart(d: string, j: nat)
    requires 11 < j < |d| && d[..11] == "Parameters\n"
    requires forall p | 11 <= p < j :: d[p] == '-'
    requires d[j] == '\n'
    ensures SectionStartAt(d, 0) == Some(j + 1)
  {
    DashRun(d, 11, j);
    assert d[0..] == d;
  }

  /** No stop inside a body laid out as in `SectionOfEntry`. */
  lemma BodyHasNoStop(d: string, c: nat, t: string, n: nat, b: nat)
    requires c <= |d| && d[c..] == t
    requires n < b < |t| - 1 && t[n] == '\n' && t[|t| - 1] == '\n'
    requires forall q | 0 <= q < |t| && q != n && q != |t| - 1 :: t[q] != '\n'
    requires AllSpace(t[n + 1..b]) && !IsSpace(t[b]) && !IsUpper(t[b])
    ensures forall q | c <= q < |d| :: !SectionStop(d, q)
  {
    forall x | 0 <= x < |t|
      ensures d[c + x] == t[x]
    {
      assert d[c..][x] == d[c + x];
    }
    forall x | n < x < b
      ensures IsSpace(t[x])
    {
      assert t[n + 1..b][x - n - 1] == t[x];
    }
    forall q | c <= q < |d|
      ensures !SectionStop(d, q)
    {
      assert d[q] == t[q - c];
      if q - c == n {
        NoStopAtFirstBreak(d, c, t, n, b);
      }
    }
  }

  /** The line break after the first line of the body is not a stop. */
  lemma NoStopAtFirstBreak(d: string, c: nat, t: string, n: nat, b: nat)
    requires c + |t| == |d| && forall x | 0 <= x < |t| :: d[c + x] == t[x]
    requires n < b < |t| - 1 && t[n] == '\n' && t[|t| - 1] == '\n'
    requires forall q | 0 <= q < |t| && q != n && q != |t| - 1 :: t[q] != '\n'
    requires (forall x | n < x < b :: IsSpace(t[x])) && !IsSpace(t[b]) && !IsUpper(t[b])
    ensures !SectionStop(d, c + n)
  {
    var q := c + n;
    var blank := d[q + 1..c + b];
    forall k | 0 <= k < |blank|
      ensures IsSpace(blank[k])
    {
      assert blank[k] == d[c + (n + 1 + k)] == t[n + 1 + k];
    }
    assert d[c + b] == t[b];
    SpaceEndOf(d, q + 1, c + b);
    forall r | q + 1 <= r < |d| - 1
      ensures d[r] != '\n'
    {
      assert d[c + (r - c)] == t[r - c];
    }
    assert d[c + (|t| - 1)] == t[|t| - 1];
    FindOf(d, '\n', q + 1, |d| - 1);
    assert d[c + n] == t[n];
  }

  /** The only colon of a docstring made of a heading and an entry is
      followed by a blank, so no `:param` tag is present. */
  lemma EntryColons(d: string, j: nat, t: string, colon: nat)
    requires 11 < j && |d| == j + 1 + |t| && d[..11] == "Parameters\n"
    requires forall p | 11 <= p < j :: d[p] == '-'
    requires d[j] == '\n' && d[j + 1..] == t
    requires colon + 1 < |t| && t[colon + 1] == ' '
    requires forall q | 0 <= q < |t| && q != colon :: t[q] != ':'
    ensures forall q | 0 <= q < |d| - 1 :: d[q] == ':' ==> d[q + 1] != 'p'
  {
    forall q | 0 <= q < |d| - 1 && d[q] == ':'
      ensures d[q + 1] != 'p'
    {
      if q < 11 {
        assert d[q] == d[..11][q];
      } else if q > j {
        assert d[q] == t[q - j - 1];
        assert d[q + 1] == t[q - j];
      }
    }
  }

  /** Without a colon followed by `p` there is no `:param` match. */
  lemma {:induction false} NoParamTagNoMatches(s: string, i: nat)
    requires i <= |s|
    requires forall q | 0 <= q < |s| - 1 :: s[q] == ':' ==> s[q + 1] != 'p'
    ensures SphinxMatches(s, i) == []
    decreases |s| - i
  {
    if i < |s| {
      assert SphinxParamAt(s, i).None? by {
        if i + 1 < |s| {
          assert s[i..][0] == s[i] && s[i..][1] == s[i + 1];
        }
      }
      NoParamTagNoMatches(s, i + 1);
    }
  }
}
