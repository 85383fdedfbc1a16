/** The annotation normaliser's entry points in src/func_analyzer/utils.py:
    `clean_annotation_ast` (parse, then the visitor; the pattern rules when
    the text does not parse), `format_annotation_with_color` and
    `clean_annotation_string`.

    Python's `ast.parse(text, mode='eval')` is not part of this model: it
    is the parameter `parse`, which gives the expression tree of a text or
    `None` where Python raises `SyntaxError` or `ValueError`. */
module Normalizer {
  import opened PyText
  import opened Annotation
  import opened CanonicalReader
  import opened PatternCleaner

  /** What `clean_annotation_ast` returns: the rendering of the parsed
      tree, or the pattern rules' output when the text does not parse. */
  function CleanText(annotation: string, parse: string -> Option<Node>): (r: string)
    ensures parse(annotation).None? ==> |r| <= |annotation|
  {
    match parse(annotation)
    case Some(tree) => Render(tree)
    case None => ApplyRules(Patterns, annotation)
  }

  /** A parsed annotation whose unqualified tree is canonical is cleaned to
      a text that reads back as exactly that tree: only qualifiers are
      lost. */
  lemma CleanedReadsBack(annotation: string, parse: string -> Option<Node>)
    requires parse(annotation).Some? && IsExpr(Unqualify(parse(annotation).value))
    ensures ReadAnnotation(CleanText(annotation, parse)) == Some(Unqualify(parse(annotation).value))
  {
    ReadRenderedQualified(parse(annotation).value);
  }

  /** `clean_annotation_ast`: a fresh `AnnotationCleaner` walks the parsed
      expression and its tokens are joined. */
  method CleanAnnotationAst(annotation: string, parse: string -> Option<Node>) returns (cleaned: string)
    ensures cleaned == CleanText(annotation, parse)
  {
    match parse(annotation) {
      case Some(tree) =>
        var cleaner := new AnnotationCleaner();
        cleaner.Visit(tree);
        cleaned := Concat(cleaner.result);
        assert cleaner.result == Tokens(tree);
        TokensRender(tree);
      case None =>
        cleaned := CleanAnnotationPattern(annotation);
    }
  }

  /** `format_annotation_with_color`: the text wrapped in a colour tag. */
  function FormatAnnotationWithColor(annotation: string, color: string := "cyan"): (r: string)
    ensures |r| == |annotation| + |color| + 10
    ensures StartsWith(r, "<fg=" + color + ">(") && r[|r| - 4..] == ")</>"
  {
    "<fg=" + color + ">(" + annotation + ")</>"
  }

  /** Takes a coloured annotation apart again: the colour runs up to the
      first `>`, the annotation sits between `(` and the closing `)</>`. */
  function ReadColored(r: string): Option<(string, string)> {
    if |r| >= 10 && StartsWith(r, "<fg=") && r[|r| - 4..] == ")</>" then
      var c := Find(r, '>', 4);
      if c + 2 <= |r| - 4 && r[c + 1] == '(' then Some((r[4..c], r[c + 2..|r| - 4])) else None
    else None
  }

  /** Colour and annotation can be read back from the coloured text when
      the colour holds no `>`. */
  lemma ColoredRoundTrip(annotation: string, color: string)
    requires '>' !in color
    ensures ReadColored(FormatAnnotationWithColor(annotation, color)) == Some((color, annotation))
  {
    var r := FormatAnnotationWithColor(annotation, color);
    var c := 4 + |color|;
    assert r[4..c] == color;
    assert r[c] == '>' && r[c + 1] == '(';
    assert r[c + 2..|r| - 4] == annotation;
    forall m | 4 <= m < c
      ensures r[m] != '>'
    {
      assert r[m] == color[m - 4];
    }
    FindOf(r, '>', 4, c);
  }

  /** So different annotations never share a coloured text. */
  lemma ColoredInjective(a1: string, a2: string, color: string)
    requires '>' !in color
    requires FormatAnnotationWithColor(a1, color) == FormatAnnotationWithColor(a2, color)
    ensures a1 == a2
  {
    ColoredRoundTrip(a1, color);
    ColoredRoundTrip(a2, color);
  }

  /** `if color:` -- only a present, non-empty colour counts. */
  predicate Truthy(color: Option<string>) {
    color.Some? && color.value != ""
  }

  /** `clean_annotation_string` on the text `str(field_annotation)`: both
      of its fallbacks to the pattern rules happen where `parse` gives
      `None`, so it cleans as `clean_annotation_ast` does and then colours
      when asked to. */
  method CleanAnnotationString(annotation: string, color: Option<string> := None, parse: string -> Option<Node>)
    returns (r: string)
    ensures !Truthy(color) ==> r == CleanText(annotation, parse)
    ensures Truthy(color) ==> r == FormatAnnotationWithColor(CleanText(annotation, parse), color.value)
  {
    var cleaned := CleanAnnotationAst(annotation, parse);
    if Truthy(color) {
      r := FormatAnnotationWithColor(cleaned, color.value);
    } else {
      r := cleaned;
    }
  }

  /** Cleaning is idempotent on annotations whose cleaned form is
      canonical, provided Python parses the cleaned text as the reader
      does. */
  lemma CleanIdempotent(annotation: string, parse: string -> Option<Node>)
    requires parse(annotation).Some? && IsExpr(Unqualify(parse(annotation).value))
    requires parse(CleanText(annotation, parse)) == ReadAnnotation(CleanText(annotation, parse))
    ensures CleanText(CleanText(annotation, parse), parse) == CleanText(annotation, parse)
  {
    var t := parse(annotation).value;
    var u := Unqualify(t);
    RenderUnqualify(t);
    ReadRenderedAnnotation(u);
  }

  /** Cleaning is not idempotent on every text. `<class 'pkg.widget'>` does
      not parse and the pattern rules keep its module: `pkg.widget`. That
      text parses as an attribute, and cleaning it again drops the module:
      `widget`. */
  lemma CleanNotIdempotent(p: string, q: string, parse: string -> Option<Node>)
    requires |p| > 0 && IsIdentStart(p[0]) && AllWord(p)
    requires |q| > 0 && !IsUpper(q[0]) && AllWord(q)
    requires !EndsWith(p, "typing") && !EndsWith(p, "__main__") && !EndsWith(p, "builtins")
    requires parse(ClassText(p + "." + q)).None?
    requires parse(p + "." + q) == Some(Attribute(Name(p), q))
    ensures CleanText(ClassText(p + "." + q), parse) == p + "." + q
    ensures CleanText(CleanText(ClassText(p + "." + q), parse), parse) == q
    ensures CleanText(CleanText(ClassText(p + "." + q), parse), parse) != CleanText(ClassText(p + "." + q), parse)
  {
    LowercaseClassKept(p, q);
  }

  /** Texts Python cannot parse, such as `<class 'str'>`, fall back to the
      pattern rules: `<class 'w'>` becomes `w`. */
  lemma UnparsableClassText(w: string, parse: string -> Option<Node>)
    requires |w| > 0 && AllWord(w)
    requires parse(ClassText(w)).None?
    ensures CleanText(ClassText(w), parse) == w
  {
    BuiltinClassCleaned(w);
  }

  /** `typing.Optional[typing.Dict[str, typing.Any]]` cleans to
      `Optional[Dict[str, Any]]`. */
  lemma TypingPrefixesDropped(parse: string -> Option<Node>)
    requires parse("typing.Optional[typing.Dict[str, typing.Any]]")
      == Some(Subscript(Dotted(["typing", "Optional"]),
           Subscript(Dotted(["typing", "Dict"]), Tuple([Name("str"), Dotted(["typing", "Any"])]))))
    ensures CleanText("typing.Optional[typing.Dict[str, typing.Any]]", parse) == "Optional[Dict[str, Any]]"
  {
    var inner := Subscript(Dotted(["typing", "Dict"]), Tuple([Name("str"), Dotted(["typing", "Any"])]));
    var tree := Subscript(Dotted(["typing", "Optional"]), inner);
    assert Render(inner) == "Dict[str, Any]" by {
      DottedRendersLastSegment(["typing", "Any"]);
      DottedRendersLastSegment(["typing", "Dict"]);
      RenderPair(Dotted(["typing", "Dict"]), Name("str"), Dotted(["typing", "Any"]));
      DictSpelling();
    }
    assert Render(tree) == "Optional[Dict[str, Any]]" by {
      DottedRendersLastSegment(["typing", "Optional"]);
      RenderSingle(Dotted(["typing", "Optional"]), inner);
      OptionalSpelling();
    }
  }

  /** The spelling step of `TypingPrefixesDropped`, kept apart so that the
      character-by-character comparison runs without the rendering facts. */
  lemma DictSpelling()
    ensures "Dict" + "[" + "str" + ", " + "Any" + "]" == "Dict[str, Any]"
  {
  }

  /** The outer spelling step of `TypingPrefixesDropped`. */
  lemma OptionalSpelling()
    ensures "Optional" + "[" + "Dict[str, Any]" + "]" == "Optional[Dict[str, Any]]"
  {
  }

  /** A subscript with two arguments. */
  lemma RenderPair(v: Node, x: Node, y: Node)
    ensures Render(Subscript(v, Tuple([x, y]))) == Render(v) + "[" + Render(x) + ", " + Render(y) + "]"
  {
    var args := [x, y];
    assert RenderEach(args) == [Render(x), Render(y)] by {
      assert args[..1] == [x];
    }
    assert [Render(x)] + [Render(y)] == RenderEach(args);
    JoinAppend(", ", [Render(x)], Render(y));
    assert Join(", ", RenderEach(args)) == Render(x) + ", " + Render(y);
  }

  /** A subscript with one argument. */
  lemma RenderSingle(v: Node, e: Node)
    requires !e.Tuple?
    ensures Render(Subscript(v, e)) == Render(v) + "[" + Render(e) + "]"
  {
  }
}
