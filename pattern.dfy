/** The pattern-based annotation cleaner of src/func_analyzer/utils.py:82-99,
    the fallback used when an annotation text does not parse. It applies
    seven substitution rules in a fixed order, each one as `re.sub` does: a
    single left-to-right scan that replaces every non-overlapping match and
    never rescans its own output. The regular expressions are modelled by
    what they match at one position (`MatchAt`), worked out by hand from
    their greedy quantifiers; none of them can match the empty string. */
module PatternCleaner {
  import opened PyText

  /** The rules of the pattern list: deletion of a literal module prefix,
      `module.Class` to `Class`, `<class 'w'>` to `w` and
      `<class 'a.b'>` to `a.b`. */
  datatype Rule = DeleteLiteral(lit: string) | QualifiedClass | ClassWord | ClassDotted

  /** A match found at some position: where it ends and what replaces it. */
  datatype Match = Match(end: nat, replacement: string)

  /** The seven rules, in the order they are applied. */
  const Patterns: seq<Rule> := [
    DeleteLiteral("typing."),
    DeleteLiteral("__main__."),
    DeleteLiteral("builtins."),
    DeleteLiteral("collections.abc."),
    QualifiedClass,
    ClassWord,
    ClassDotted
  ]

  /** The prefix every `<class '...'>` rule starts with. */
  const ClassOpen: string := "<class '"

  /** What `rule` matches when the scan stands at position `i`. Every match
      is non-empty and its replacement is shorter than the text it
      replaces. */
  function MatchAt(rule: Rule, s: string, i: nat): (m: Option<Match>)
    requires i < |s|
    ensures m.Some? ==> i < m.value.end <= |s| && |m.value.replacement| < m.value.end - i
  {
    match rule
    case DeleteLiteral(lit) => LiteralAt(lit, s, i)
    case QualifiedClass => QualifiedClassAt(s, i)
    case ClassWord => ClassWordAt(s, i)
    case ClassDotted => ClassDottedAt(s, i)
  }

  /** A literal prefix such as `typing\.`, replaced by nothing. */
  function LiteralAt(lit: string, s: string, i: nat): (m: Option<Match>)
    requires i < |s|
    ensures m.Some? <==> |lit| > 0 && i + |lit| <= |s| && s[i..i + |lit|] == lit
    ensures m.Some? ==> m.value == Match(i + |lit|, "")
  {
    if |lit| > 0 && i + |lit| <= |s| && s[i..i + |lit|] == lit then Some(Match(i + |lit|, "")) else None
  }

  /** `[a-zA-Z_][a-zA-Z0-9_]*\.([A-Z][a-zA-Z0-9_]*)`, replaced by the group:
      the greedy word run must stop at the dot, and the group runs to the end
      of the word after it. */
  function QualifiedClassAt(s: string, i: nat): (m: Option<Match>)
    requires i < |s|
    ensures m.Some? <==> IsIdentStart(s[i]) && var j := WordEnd(s, i + 1);
      j + 1 < |s| && s[j] == '.' && IsUpper(s[j + 1])
    ensures m.Some? ==> var j := WordEnd(s, i + 1);
      j + 1 < |s| && m.value == Match(WordEnd(s, j + 2), s[j + 1..WordEnd(s, j + 2)])
  {
    if IsIdentStart(s[i]) then
      var j := WordEnd(s, i + 1);
      if j + 1 < |s| && s[j] == '.' && IsUpper(s[j + 1]) then
        var k := WordEnd(s, j + 2);
        Some(Match(k, s[j + 1..k]))
      else None
    else None
  }

  /** `<class '(\w+)'>`, replaced by the group. */
  function ClassWordAt(s: string, i: nat): (m: Option<Match>)
    requires i < |s|
    ensures m.Some? <==> StartsWith(s[i..], ClassOpen) && var k := WordEnd(s, i + 8);
      k > i + 8 && StartsWith(s[k..], "'>")
    ensures m.Some? ==> var k := WordEnd(s, i + 8); k + 2 <= |s| && m.value == Match(k + 2, s[i + 8..k])
  {
    if StartsWith(s[i..], ClassOpen) then
      var k := WordEnd(s, i + 8);
      if k > i + 8 && StartsWith(s[k..], "'>") then Some(Match(k + 2, s[i + 8..k])) else None
    else None
  }

  /** `<class '(\w+\.\w+)'>`, replaced by the group. */
  function ClassDottedAt(s: string, i: nat): (m: Option<Match>)
    requires i < |s|
    ensures m.Some? <==> StartsWith(s[i..], ClassOpen) && var j := WordEnd(s, i + 8);
      i + 8 < j < |s| && s[j] == '.'
      && var k := WordEnd(s, j + 1);
      k > j + 1 && StartsWith(s[k..], "'>")
    ensures m.Some? ==> var j := WordEnd(s, i + 8); j < |s| && var k := WordEnd(s, j + 1);
      k + 2 <= |s| && m.value == Match(k + 2, s[i + 8..k])
  {
    if StartsWith(s[i..], ClassOpen) then
      var j := WordEnd(s, i + 8);
      if j > i + 8 && j < |s| && s[j] == '.' then
        var k := WordEnd(s, j + 1);
        if k > j + 1 && StartsWith(s[k..], "'>") then Some(Match(k + 2, s[i + 8..k])) else None
      else None
    else None
  }

  /** `re.sub(rule, replacement, s[i..])` with the scan starting at `i`. */
  function SubFrom(rule: Rule, s: string, i: nat): (r: string)
    requires i <= |s|
    ensures |r| <= |s| - i
    decreases |s| - i
  {
    if i == |s| then ""
    else match MatchAt(rule, s, i)
      case Some(m) => m.replacement + SubFrom(rule, s, m.end)
      case None => [s[i]] + SubFrom(rule, s, i + 1)
  }

  function Sub(rule: Rule, s: string): (r: string)
    ensures |r| <= |s|
  {
    SubFrom(rule, s, 0)
  }

  /** The rules applied one after the other, the first rule first. */
  function ApplyRules(rules: seq<Rule>, s: string): (r: string)
    ensures |r| <= |s|
  {
    if rules == [] then s else Sub(rules[|rules| - 1], ApplyRules(rules[..|rules| - 1], s))
  }

  /** `clean_annotation_pattern`: the loop over the pattern list, each
      substitution applied to the previous one's output. */
  method CleanAnnotationPattern(annotation: string) returns (cleaned: string)
    ensures cleaned == ApplyRules(Patterns, annotation)
    ensures |cleaned| <= |annotation|
  {
    cleaned := annotation;
    for n := 0 to |Patterns|
      invariant cleaned == ApplyRules(Patterns[..n], annotation)
    {
      ApplyStep(n, annotation);
      cleaned := Sub(Patterns[n], cleaned);
    }
    assert Patterns[..|Patterns|] == Patterns;
  }

  /** One more rule of the list applies to the previous rules' output. */
  lemma ApplyStep(n: nat, s: string)
    requires n < |Patterns|
    ensures ApplyRules(Patterns[..n + 1], s) == Sub(Patterns[n], ApplyRules(Patterns[..n], s))
  {
    assert Patterns[..n + 1][..n] == Patterns[..n];
  }

  /** Where a match starts, the scan emits its replacement and resumes at
      its end. */
  lemma SubMatches(rule: Rule, s: string, i: nat)
    requires i < |s| && MatchAt(rule, s, i).Some?
    ensures SubFrom(rule, s, i) == MatchAt(rule, s, i).value.replacement + SubFrom(rule, s, MatchAt(rule, s, i).value.end)
  {
  }

  lemma SubAtEnd(rule: Rule, s: string)
    ensures SubFrom(rule, s, |s|) == ""
  {
  }

  /** The text arithmetic of a scan in three pieces (copied, replaced,
      copied), for `QualifiedClassStep`. */
  lemma ThreePieces(whole: string, mid: string, last: string, done: string, x: string, y: string, z: string)
    requires whole == x + mid && mid == y + last && last == z + done && done == ""
    ensures whole == x + y + z
  {
  }

  // ----- texts a rule leaves alone -----

  predicate NoMatchIn(rule: Rule, s: string, i: nat, j: nat)
    requires i <= j <= |s|
  {
    forall p | i <= p < j :: MatchAt(rule, s, p).None?
  }

  /** Where no match starts, the scan copies the text. */
  lemma {:induction false} SubSkip(rule: Rule, s: string, i: nat, j: nat)
    requires i <= j <= |s|
    requires NoMatchIn(rule, s, i, j)
    ensures SubFrom(rule, s, i) == s[i..j] + SubFrom(rule, s, j)
    decreases j - i
  {
    if i < j {
      SkipStep(rule, s, i, j);
      SubSkip(rule, s, i + 1, j);
      CopyStep(s, i, j, SubFrom(rule, s, i), SubFrom(rule, s, i + 1), SubFrom(rule, s, j));
    }
  }

  /** The text arithmetic of one copied character. */
  lemma CopyStep(s: string, i: nat, j: nat, here: string, next: string, after: string)
    requires i < j <= |s|
    requires here == [s[i]] + next && next == s[i + 1..j] + after
    ensures here == s[i..j] + after
  {
    assert s[i..j] == [s[i]] + s[i + 1..j];
  }

  /** Where no match starts, the scan copies one character. */
  lemma SkipStep(rule: Rule, s: string, i: nat, j: nat)
    requires i < j <= |s| && NoMatchIn(rule, s, i, j)
    ensures NoMatchIn(rule, s, i + 1, j)
    ensures SubFrom(rule, s, i) == [s[i]] + SubFrom(rule, s, i + 1)
  {
    SubCopies(rule, s, i);
  }

  lemma SubCopies(rule: Rule, s: string, i: nat)
    requires i < |s| && MatchAt(rule, s, i).None?
    ensures SubFrom(rule, s, i) == [s[i]] + SubFrom(rule, s, i + 1)
  {
  }

  /** A rule that matches nowhere leaves the text unchanged. */
  lemma SubUnchanged(rule: Rule, s: string)
    requires NoMatchIn(rule, s, 0, |s|)
    ensures Sub(rule, s) == s
  {
    SubSkip(rule, s, 0, |s|);
  }

  /** The rules other than the `<class '...'>` ones only match across a dot;
      those two only match at a `<`. */
  predicate NeedsDot(rule: Rule) {
    (rule.DeleteLiteral? && '.' in rule.lit) || rule.QualifiedClass? || rule.ClassDotted?
  }

  lemma MatchNeedsDot(rule: Rule, s: string, i: nat)
    requires i < |s| && NeedsDot(rule) && MatchAt(rule, s, i).Some?
    ensures '.' in s
  {
    match rule
    case DeleteLiteral(lit) =>
      var k :| 0 <= k < |lit| && lit[k] == '.';
      assert s[i..i + |lit|][k] == s[i + k];
    case QualifiedClass =>
      assert s[WordEnd(s, i + 1)] == '.';
    case ClassDotted =>
      assert s[WordEnd(s, i + 8)] == '.';
  }

  lemma MatchNeedsAngle(rule: Rule, s: string, i: nat)
    requires i < |s| && (rule.ClassWord? || rule.ClassDotted?) && MatchAt(rule, s, i).Some?
    ensures s[i] == '<'
  {
    assert s[i..][0] == s[i];
  }

  /** A rule that needs a dot leaves text without one unchanged. */
  lemma SkipsWithoutDot(rule: Rule, s: string)
    requires NeedsDot(rule) && '.' !in s
    ensures Sub(rule, s) == s
  {
    forall p | 0 <= p < |s|
      ensures MatchAt(rule, s, p).None?
    {
      if MatchAt(rule, s, p).Some? { MatchNeedsDot(rule, s, p); }
    }
    SubUnchanged(rule, s);
  }

  /** The `<class '...'>` rules leave text without a `<` unchanged. */
  lemma SkipsWithoutAngle(rule: Rule, s: string)
    requires (rule.ClassWord? || rule.ClassDotted?) && '<' !in s
    ensures Sub(rule, s) == s
  {
    forall p | 0 <= p < |s|
      ensures MatchAt(rule, s, p).None?
    {
      if MatchAt(rule, s, p).Some? { MatchNeedsAngle(rule, s, p); }
    }
    SubUnchanged(rule, s);
  }

  /** Text with neither a dot nor an angle bracket passes through every
      rule unchanged; so does `Union[str, int, float]`. */
  lemma PlainTextUnchanged(s: string)
    requires '.' !in s && '<' !in s
    ensures ApplyRules(Patterns, s) == s
  {
    forall rule | rule in Patterns
      ensures Sub(rule, s) == s
    {
      if NeedsDot(rule) { SkipsWithoutDot(rule, s); } else { SkipsWithoutAngle(rule, s); }
    }
    AllRulesUnchanged(Patterns, s);
  }

  lemma {:induction false} AllRulesUnchanged(rules: seq<Rule>, s: string)
    requires forall rule | rule in rules :: Sub(rule, s) == s
    ensures ApplyRules(rules, s) == s
    decreases |rules|
  {
    if rules != [] {
      var init := rules[..|rules| - 1];
      assert forall rule | rule in init :: rule in rules;
      AllRulesUnchanged(init, s);
      assert rules[|rules| - 1] in rules;
    }
  }

  lemma EmptyUnchanged()
    ensures ApplyRules(Patterns, "") == ""
  {
    PlainTextUnchanged("");
  }

  /** The whole pipeline spelled out rule by rule. */
  lemma PipelineSteps(s: string)
    ensures ApplyRules(Patterns, s)
         == Sub(ClassDotted, Sub(ClassWord, Sub(QualifiedClass,
              Sub(DeleteLiteral("collections.abc."), Sub(DeleteLiteral("builtins."),
                Sub(DeleteLiteral("__main__."), Sub(DeleteLiteral("typing."), s)))))))
  {
    PipelineIndexed(s);
    assert Patterns[0] == DeleteLiteral("typing.") && Patterns[1] == DeleteLiteral("__main__.");
    assert Patterns[2] == DeleteLiteral("builtins.") && Patterns[3] == DeleteLiteral("collections.abc.");
    assert Patterns[4] == QualifiedClass && Patterns[5] == ClassWord && Patterns[6] == ClassDotted;
  }

  lemma PipelineIndexed(s: string)
    ensures ApplyRules(Patterns, s)
         == Sub(Patterns[6], Sub(Patterns[5], Sub(Patterns[4],
              Sub(Patterns[3], Sub(Patterns[2], Sub(Patterns[1], Sub(Patterns[0], s)))))))
  {
    ApplySeven(Patterns, s);
  }

  /** Seven rules applied in turn, written out. */
  lemma ApplySeven(rules: seq<Rule>, s: string)
    requires |rules| == 7
    ensures ApplyRules(rules, s)
         == Sub(rules[6], Sub(rules[5], Sub(rules[4],
              Sub(rules[3], Sub(rules[2], Sub(rules[1], Sub(rules[0], s)))))))
  {
    assert rules[..0] == [];
    var s1 := ApplyPrefix(rules, 0, s, s);
    var s2 := ApplyPrefix(rules, 1, s, s1);
    var s3 := ApplyPrefix(rules, 2, s, s2);
    var s4 := ApplyPrefix(rules, 3, s, s3);
    var s5 := ApplyPrefix(rules, 4, s, s4);
    var s6 := ApplyPrefix(rules, 5, s, s5);
    var s7 := ApplyPrefix(rules, 6, s, s6);
    assert rules[..7] == rules;
  }

  /** One more rule of a prefix, applied to what the prefix gave. */
  lemma ApplyPrefix(rules: seq<Rule>, k: nat, s: string, x: string) returns (y: string)
    requires k < |rules| && ApplyRules(rules[..k], s) == x
    ensures y == Sub(rules[k], x) && ApplyRules(rules[..k + 1], s) == y
  {
    assert rules[..k + 1][..k] == rules[..k];
    y := Sub(rules[k], x);
  }

  // ----- the `<class '...'>` forms of str(type) -----

  /** What `str()` gives for a class: `<class 'name'>`. */
  function ClassText(name: string): string {
    ClassOpen + name + "'>"
  }

  predicate EndsWith(s: string, suffix: string) {
    |suffix| <= |s| && s[|s| - |suffix|..] == suffix
  }

  /** The builtin class `<class 'w'>` becomes `w`. */
  lemma BuiltinClassCleaned(w: string)
    requires |w| > 0 && AllWord(w)
    ensures ApplyRules(Patterns, ClassText(w)) == w
  {
    var s := ClassText(w);
    NoDotInWord(w);
    assert '.' !in s;
    PrefixRulesPass(s);
    ClassWordStep(w);
    PipelineSteps(s);
  }

  /** The first five rules leave text without a dot unchanged. */
  lemma PrefixRulesPass(s: string)
    requires '.' !in s
    ensures Sub(QualifiedClass, Sub(DeleteLiteral("collections.abc."), Sub(DeleteLiteral("builtins."),
              Sub(DeleteLiteral("__main__."), Sub(DeleteLiteral("typing."), s))))) == s
  {
    SkipsWithoutDot(DeleteLiteral("typing."), s);
    SkipsWithoutDot(DeleteLiteral("__main__."), s);
    SkipsWithoutDot(DeleteLiteral("builtins."), s);
    SkipsWithoutDot(DeleteLiteral("collections.abc."), s);
    SkipsWithoutDot(QualifiedClass, s);
  }

  lemma NoDotInWord(w: string)
    requires AllWord(w)
    ensures '.' !in w && '<' !in w && '\'' !in w
  {
    assert forall k | 0 <= k < |w| :: w[k] != '.' && w[k] != '<' && w[k] != '\'';
  }

  /** The sixth rule turns `<class 'w'>` into `w`, which the seventh then
      leaves alone. */
  lemma ClassWordStep(w: string)
    requires |w| > 0 && AllWord(w)
    ensures Sub(ClassWord, ClassText(w)) == w
    ensures Sub(ClassDotted, w) == w
  {
    var s := ClassText(w);
    var k := 8 + |w|;
    assert s[8..k] == w && s[k..] == "'>" && s[..8] == ClassOpen;
    WordEndOf(s, 8, k);
    assert ClassWordAt(s, 0) == Some(Match(|s|, w));
    NoDotInWord(w);
    SkipsWithoutAngle(ClassDotted, w);
  }

  /** Where the characters of `<class 'p.q'>` lie: its only dot separates
      `p` from `q` and its only `<` opens it. */
  lemma DottedClassLayout(p: string, q: string)
    requires AllWord(p) && AllWord(q)
    ensures var s := ClassText(p + "." + q); var j := 8 + |p|;
      && |s| == j + |q| + 3
      && s[..8] == ClassOpen && s[8..j] == p && s[j] == '.'
      && s[j + 1..j + 1 + |q|] == q && s[j + 1 + |q|..] == "'>"
      && s[8..j + 1 + |q|] == p + "." + q
      && forall k | 0 <= k < |s| :: (s[k] == '.' ==> k == j) && (s[k] == '<' ==> k == 0)
  {
    var s := ClassText(p + "." + q);
    var j := 8 + |p|;
    forall k | 0 <= k < |s|
      ensures (s[k] == '.' ==> k == j) && (s[k] == '<' ==> k == 0)
    {
      if k < 8 {
        assert s[k] == ClassOpen[k];
      } else if k < j {
        assert s[k] == p[k - 8] && IsWordChar(p[k - 8]);
      } else if j < k < j + 1 + |q| {
        assert s[k] == q[k - j - 1] && IsWordChar(q[k - j - 1]);
      } else if k > j {
        assert s[k] == "'>"[k - j - 1 - |q|];
      }
    }
  }

  /** None of the four literal prefixes occurs in `<class 'p.q'>` when `p`
      does not end in the module name the prefix names. */
  lemma LiteralAbsent(lit: string, p: string, q: string)
    requires |lit| >= 2 && lit[|lit| - 1] == '.' && '\'' !in lit
    requires AllWord(p) && AllWord(q)
    requires '.' in lit[..|lit| - 1] || !EndsWith(p, lit[..|lit| - 1])
    ensures Sub(DeleteLiteral(lit), ClassText(p + "." + q)) == ClassText(p + "." + q)
  {
    var s := ClassText(p + "." + q);
    var j := 8 + |p|;
    var n := |lit|;
    DottedClassLayout(p, q);
    forall i | 0 <= i < |s|
      ensures MatchAt(DeleteLiteral(lit), s, i).None?
    {
      if i + n <= |s| {
        var e := i + n - 1;
        if s[e] != '.' {
          assert s[i..i + n][n - 1] != lit[n - 1];
        } else if i < 8 {
          assert e == j;
          assert lit[7 - i] != '\'';
          assert s[i..i + n][7 - i] == s[7] == '\'';
        } else if '.' in lit[..n - 1] {
          var k :| 0 <= k < n - 1 && lit[..n - 1][k] == '.';
          assert e == j;
          assert s[i + k] == p[i - 8 + k] && IsWordChar(p[i - 8 + k]);
          assert s[i..i + n][k] != lit[k];
        } else {
          assert e == j;
          assert s[i..i + n][..n - 1] == s[i..j] == p[i - 8..];
          assert p[|p| - (n - 1)..] != lit[..n - 1];
        }
      }
    }
    SubUnchanged(DeleteLiteral(lit), s);
  }

  /** The four literal prefixes pass `<class 'p.q'>` unchanged. */
  lemma LiteralsPass(p: string, q: string)
    requires AllWord(p) && AllWord(q)
    requires !EndsWith(p, "typing") && !EndsWith(p, "__main__") && !EndsWith(p, "builtins")
    ensures var s := ClassText(p + "." + q);
      Sub(DeleteLiteral("collections.abc."), Sub(DeleteLiteral("builtins."),
        Sub(DeleteLiteral("__main__."), Sub(DeleteLiteral("typing."), s)))) == s
  {
    assert "typing."[..6] == "typing";
    assert "__main__."[..8] == "__main__";
    assert "builtins."[..8] == "builtins";
    assert "collections.abc."[..15][11] == '.';
    LiteralAbsent("typing.", p, q);
    LiteralAbsent("__main__.", p, q);
    LiteralAbsent("builtins.", p, q);
    LiteralAbsent("collections.abc.", p, q);
  }

  /** `<class 'pkg.Widget'>` becomes `Widget`: the fifth rule drops the
      module in front of a capitalised class name and the sixth then
      unwraps `<class 'Widget'>`. */
  lemma QualifiedClassCleaned(p: string, w: string)
    requires |p| > 0 && IsIdentStart(p[0]) && AllWord(p)
    requires |w| > 0 && IsUpper(w[0]) && AllWord(w)
    requires !EndsWith(p, "typing") && !EndsWith(p, "__main__") && !EndsWith(p, "builtins")
    ensures ApplyRules(Patterns, ClassText(p + "." + w)) == w
  {
    var s := ClassText(p + "." + w);
    LiteralsPass(p, w);
    QualifiedClassStep(p, w);
    ClassWordStep(w);
    PipelineSteps(s);
  }

  /** `<class 'typing.W'>` becomes `W`, whatever the case of `W`: the first
      rule deletes `typing.` before the `<class '(\w+\.\w+)'>` rule is
      reached, so that rule never sees `typing.List`. */
  lemma TypingClassCleaned(w: string)
    requires |w| > 0 && AllWord(w)
    ensures ApplyRules(Patterns, ClassText("typing." + w)) == w
  {
    var s := ClassText("typing." + w);
    var c := ClassText(w);
    assert "typing" + "." == "typing." && "typing." + w == "typing" + "." + w;
    ModulePrefixStep("typing", w);
    NoDotInWord(w);
    assert '.' !in c;
    SkipsWithoutDot(DeleteLiteral("__main__."), c);
    SkipsWithoutDot(DeleteLiteral("builtins."), c);
    SkipsWithoutDot(DeleteLiteral("collections.abc."), c);
    SkipsWithoutDot(QualifiedClass, c);
    ClassWordStep(w);
    PipelineSteps(s);
  }

  /** `<class 'typing.List'>`, the example the seventh rule is written for,
      becomes `List`. */
  lemma TypingListCleaned()
    ensures ApplyRules(Patterns, "<class 'typing.List'>") == "List"
  {
    assert AllWord("List");
    assert ClassText("typing." + "List") == "<class 'typing.List'>";
    TypingClassCleaned("List");
  }

  /** A prefix rule turns `<class 'm.W'>` into `<class 'W'>` when `m` is a
      single word: its only match is the `m.` that ends at the text's only
      dot. This is the converse of `LiteralsPass` for `typing`, `__main__`
      and `builtins`. */
  lemma ModulePrefixStep(m: string, w: string)
    requires |m| > 0 && AllWord(m) && AllWord(w)
    ensures Sub(DeleteLiteral(m + "."), ClassText(m + "." + w)) == ClassText(w)
  {
    var s := ClassText(m + "." + w);
    var j := 8 + |m|;
    DottedClassLayout(m, w);
    OnlyDotMatch(m + ".", s, j);
    assert s[8..j + 1] == m + "." by {
      assert s[8..j] == m && s[j] == '.';
    }
    DeleteOnce(m + ".", s, 8);
    assert s[0..8] + s[j + 1..|s|] == ClassText(w) by {
      assert s[0..8] == ClassOpen && s[j + 1..|s|] == w + "'>";
    }
  }

  /** Deleting a literal that matches at `i` and nowhere else. */
  lemma DeleteOnce(lit: string, s: string, i: nat)
    requires |lit| > 0 && i + |lit| <= |s| && s[i..i + |lit|] == lit
    requires forall j | 0 <= j < |s| && j != i :: MatchAt(DeleteLiteral(lit), s, j).None?
    ensures Sub(DeleteLiteral(lit), s) == s[0..i] + s[i + |lit|..|s|]
  {
    var rule := DeleteLiteral(lit);
    var k := i + |lit|;
    assert MatchAt(rule, s, i) == Some(Match(k, ""));
    SubSkip(rule, s, 0, i);
    SubMatches(rule, s, i);
    SubSkip(rule, s, k, |s|);
    SubAtEnd(rule, s);
    ThreePieces(SubFrom(rule, s, 0), SubFrom(rule, s, i), SubFrom(rule, s, k),
      SubFrom(rule, s, |s|), s[0..i], "", s[k..|s|]);
  }

  /** A literal whose only dot is its last character can only match where
      it ends at the text's only dot. */
  lemma OnlyDotMatch(lit: string, s: string, j: nat)
    requires |lit| > 0 && lit[|lit| - 1] == '.' && |lit| - 1 <= j < |s|
    requires forall k | 0 <= k < |s| :: s[k] == '.' ==> k == j
    ensures forall i | 0 <= i < |s| && i != j + 1 - |lit| :: MatchAt(DeleteLiteral(lit), s, i).None?
  {
    forall i | 0 <= i < |s| && i != j + 1 - |lit|
      ensures MatchAt(DeleteLiteral(lit), s, i).None?
    {
      if i + |lit| <= |s| {
        assert s[i..i + |lit|][|lit| - 1] == s[i + |lit| - 1] != '.';
      }
    }
  }

  lemma QualifiedClassStep(p: string, w: string)
    requires |p| > 0 && IsIdentStart(p[0]) && AllWord(p)
    requires |w| > 0 && IsUpper(w[0]) && AllWord(w)
    ensures Sub(QualifiedClass, ClassText(p + "." + w)) == ClassText(w)
  {
    var s := ClassText(p + "." + w);
    var k := 9 + |p| + |w|;
    DottedClassLayout(p, w);
    QualifiedNotBefore(p, w);
    SubSkip(QualifiedClass, s, 0, 8);
    QualifiedMatch(p, w);
    SubMatches(QualifiedClass, s, 8);
    QualifiedNotAfter(p, w);
    SubSkip(QualifiedClass, s, k, |s|);
    SubAtEnd(QualifiedClass, s);
    assert s[0..8] == ClassOpen && s[k..|s|] == "'>";
    ThreePieces(SubFrom(QualifiedClass, s, 0), SubFrom(QualifiedClass, s, 8), SubFrom(QualifiedClass, s, k),
      SubFrom(QualifiedClass, s, |s|), s[0..8], w, s[k..|s|]);
  }

  /** Nothing matches in the closing `'>`. */
  lemma QualifiedNotAfter(p: string, w: string)
    requires AllWord(p) && AllWord(w)
    ensures var s := ClassText(p + "." + w);
      9 + |p| + |w| <= |s| && NoMatchIn(QualifiedClass, s, 9 + |p| + |w|, |s|)
  {
    var s := ClassText(p + "." + w);
    var k := 9 + |p| + |w|;
    DottedClassLayout(p, w);
    forall i | k <= i < |s|
      ensures MatchAt(QualifiedClass, s, i).None?
    {
      assert s[i] == s[k..][i - k];
    }
  }

  /** In `<class 'p.W'>` the fifth rule finds nothing before `p`... */
  lemma QualifiedNotBefore(p: string, w: string)
    requires AllWord(p) && AllWord(w)
    ensures NoMatchIn(QualifiedClass, ClassText(p + "." + w), 0, 8)
  {
    var s := ClassText(p + "." + w);
    DottedClassLayout(p, w);
    assert s[6] == ' ';
    forall i | 0 <= i < 8
      ensures MatchAt(QualifiedClass, s, i).None?
    {
      assert s[i] == ClassOpen[i];
      if 1 <= i <= 5 {
        WordEndBelow(s, i + 1, 6);
      }
    }
  }

  /** ...and at `p` it matches through the end of `W`, leaving `W`. */
  lemma QualifiedMatch(p: string, w: string)
    requires |p| > 0 && IsIdentStart(p[0]) && AllWord(p)
    requires |w| > 0 && IsUpper(w[0]) && AllWord(w)
    ensures QualifiedClassAt(ClassText(p + "." + w), 8) == Some(Match(9 + |p| + |w|, w))
  {
    var s := ClassText(p + "." + w);
    var j := 8 + |p|;
    var k := j + 1 + |w|;
    DottedClassLayout(p, w);
    assert s[9..j] == p[1..];
    WordEndOf(s, 9, j);
    assert s[j + 2..k] == w[1..];
    WordEndOf(s, j + 2, k);
  }

  /** `<class 'pkg.widget'>` becomes `pkg.widget`: a lower-case class name
      keeps its module, and only the seventh rule applies. */
  lemma LowercaseClassKept(p: string, q: string)
    requires |p| > 0 && AllWord(p)
    requires |q| > 0 && !IsUpper(q[0]) && AllWord(q)
    requires !EndsWith(p, "typing") && !EndsWith(p, "__main__") && !EndsWith(p, "builtins")
    ensures ApplyRules(Patterns, ClassText(p + "." + q)) == p + "." + q
  {
    var s := ClassText(p + "." + q);
    LiteralsPass(p, q);
    LowercaseSteps(p, q);
    PipelineSteps(s);
  }

  lemma LowercaseSteps(p: string, q: string)
    requires |p| > 0 && AllWord(p)
    requires |q| > 0 && !IsUpper(q[0]) && AllWord(q)
    ensures var s := ClassText(p + "." + q);
      Sub(QualifiedClass, s) == s && Sub(ClassWord, s) == s && Sub(ClassDotted, s) == p + "." + q
  {
    var s := ClassText(p + "." + q);
    LowercaseNoQualified(p, q);
    SubUnchanged(QualifiedClass, s);
    LowercaseNoClassWord(p, q);
    SubUnchanged(ClassWord, s);
    LowercaseDotted(p, q);
  }

  lemma LowercaseNoQualified(p: string, q: string)
    requires |p| > 0 && AllWord(p)
    requires |q| > 0 && !IsUpper(q[0]) && AllWord(q)
    ensures var s := ClassText(p + "." + q); NoMatchIn(QualifiedClass, s, 0, |s|)
  {
    var s := ClassText(p + "." + q);
    var j := 8 + |p|;
    DottedClassLayout(p, q);
    assert s[j + 1] == q[0];
    forall i | 0 <= i < |s|
      ensures MatchAt(QualifiedClass, s, i).None?
    {
    }
  }

  lemma LowercaseNoClassWord(p: string, q: string)
    requires |p| > 0 && AllWord(p)
    requires |q| > 0 && AllWord(q)
    ensures var s := ClassText(p + "." + q); NoMatchIn(ClassWord, s, 0, |s|)
  {
    var s := ClassText(p + "." + q);
    var j := 8 + |p|;
    DottedClassLayout(p, q);
    WordEndOf(s, 8, j);
    forall i | 0 <= i < |s|
      ensures MatchAt(ClassWord, s, i).None?
    {
      if i == 0 {
        assert s[j..][0] == '.';
      } else {
        NoClassOpen(s, i);
      }
    }
  }

  /** The `<class '...'>` rules match only at a `<`. */
  lemma NoClassOpen(s: string, i: nat)
    requires i < |s| && s[i] != '<'
    ensures ClassWordAt(s, i).None? && ClassDottedAt(s, i).None?
  {
    assert s[i..][0] == s[i];
  }

  lemma LowercaseDotted(p: string, q: string)
    requires |p| > 0 && AllWord(p)
    requires |q| > 0 && AllWord(q)
    ensures var s := ClassText(p + "." + q); Sub(ClassDotted, s) == p + "." + q
  {
    var s := ClassText(p + "." + q);
    var j := 8 + |p|;
    var k := j + 1 + |q|;
    DottedClassLayout(p, q);
    WordEndOf(s, 8, j);
    WordEndOf(s, j + 1, k);
    assert ClassDottedAt(s, 0) == Some(Match(|s|, p + "." + q));
    SubMatches(ClassDotted, s, 0);
    SubAtEnd(ClassDotted, s);
  }

}
