/** Reads back the text the annotation cleaner produces. This is not
    Python's parser: it reads exactly the small grammar the renderer emits
    for qualifier-free type expressions (names, literals, subscripts with
    `", "`-separated arguments and `" | "` chains) and serves as the inverse
    that shows the rendering of src/func_analyzer/utils.py:27-62 loses no
    information besides the qualifiers it drops. */
module CanonicalReader {
  import opened PyText
  import opened Annotation

  predicate IsIdentifier(id: string) {
    |id| > 0 && IsIdentStart(id[0]) && AllWord(id)
  }

  /** The three keywords that denote constants rather than names. */
  predicate IsConstantKeyword(id: string) {
    id == "True" || id == "False" || id == "None"
  }

  predicate IsCanonicalConst(c: ConstValue) {
    c.StrValue? || (c.IntValue? && c.i >= 0) || c.BoolValue? || c.NoneValue?
  }

  /** A name, a literal, or a subscript of one. */
  predicate IsTerm(n: Node)
    decreases n, 0
  {
    match n
    case Name(id) => IsIdentifier(id) && !IsConstantKeyword(id)
    case Constant(c) => IsCanonicalConst(c)
    case Subscript(value, slice) => IsTerm(value) && IsSlice(slice)
    case _ => false
  }

  /** A single argument, or a tuple of two or more. */
  predicate IsSlice(slice: Node)
    decreases slice, 2
  {
    if slice.Tuple? then |slice.elts| >= 2 && forall k | 0 <= k < |slice.elts| :: IsExpr(slice.elts[k])
    else IsExpr(slice)
  }

  /** A term, or a left-leaning chain of `|` over terms. */
  predicate IsExpr(n: Node)
    decreases n, 1
  {
    IsTerm(n) || (n.BinOp? && n.op == BitOr && IsExpr(n.left) && IsTerm(n.right))
  }

  // ----- the reader -----

  type Reading<T> = Option<(T, string)>

  function ReadAtom(s: string): (res: Reading<Node>)
    ensures res.Some? ==> |res.value.1| < |s|
  {
    if |s| == 0 then None
    else if s[0] == '\'' || s[0] == '"' then
      match ReadStrLiteral(s)
      case None => None
      case Some((v, rest)) => Some((Constant(StrValue(v)), rest))
    else if IsDigit(s[0]) then
      match ReadNat(s)
      case None => None
      case Some((v, rest)) => Some((Constant(IntValue(v)), rest))
    else if IsIdentStart(s[0]) then
      var k := WordEnd(s, 0);
      var id := s[..k];
      var atom :=
        if id == "True" then Constant(BoolValue(true))
        else if id == "False" then Constant(BoolValue(false))
        else if id == "None" then Constant(NoneValue)
        else Name(id);
      Some((atom, s[k..]))
    else None
  }

  function ReadExpr(s: string): (res: Reading<Node>)
    ensures res.Some? ==> |res.value.1| < |s|
    decreases |s|, 3
  {
    match ReadTerm(s)
    case None => None
    case Some((t, rest)) => ReadChain(t, rest)
  }

  /** The `" | " term` repetitions after the first term, nesting to the
      left. */
  function ReadChain(acc: Node, s: string): (res: Reading<Node>)
    ensures res.Some? ==> |res.value.1| <= |s|
    decreases |s|, 3
  {
    if StartsWith(s, " | ") then
      match ReadTerm(s[3..])
      case None => None
      case Some((t, rest)) => ReadChain(BinOp(acc, BitOr, t), rest)
    else Some((acc, s))
  }

  function ReadTerm(s: string): (res: Reading<Node>)
    ensures res.Some? ==> |res.value.1| < |s|
    decreases |s|, 2
  {
    match ReadAtom(s)
    case None => None
    case Some((atom, rest)) => ReadSubscripts(atom, rest)
  }

  /** The slice a subscript with these arguments has. */
  function SliceOf(args: seq<Node>): Node
    requires |args| > 0
  {
    if |args| == 1 then args[0] else Tuple(args)
  }

  function ReadSubscripts(base: Node, s: string): (res: Reading<Node>)
    ensures res.Some? ==> |res.value.1| <= |s|
    decreases |s|, 1
  {
    if StartsWith(s, "[") then
      match ReadArgs(s[1..])
      case None => None
      case Some((args, rest)) =>
        if StartsWith(rest, "]") then ReadSubscripts(Subscript(base, SliceOf(args)), rest[1..]) else None
    else Some((base, s))
  }

  function ReadArgs(s: string): (res: Reading<seq<Node>>)
    ensures res.Some? ==> |res.value.0| > 0 && |res.value.1| < |s|
    decreases |s|, 4
  {
    match ReadExpr(s)
    case None => None
    case Some((e, rest)) =>
      if StartsWith(rest, ", ") then
        match ReadArgs(rest[2..])
        case None => None
        case Some((es, rest2)) => Some(([e] + es, rest2))
      else Some(([e], rest))
  }

  /** Reads a whole annotation text; anything left over is a failure. */
  function ReadAnnotation(s: string): Option<Node> {
    match ReadExpr(s)
    case Some((e, rest)) => if rest == [] then Some(e) else None
    case None => None
  }

  // ----- reading back what was rendered -----

  predicate NoWordStart(rest: string) {
    rest == [] || !IsWordChar(rest[0])
  }

  predicate TermStop(rest: string) {
    NoWordStart(rest) && !StartsWith(rest, "[")
  }

  predicate ExprStop(rest: string) {
    TermStop(rest) && !StartsWith(rest, " | ")
  }

  /** The text between the brackets of a subscript. */
  function SliceText(slice: Node): string {
    if slice.Tuple? then Join(", ", RenderEach(slice.elts)) else Render(slice)
  }

  function SliceArgs(slice: Node): (args: seq<Node>)
    ensures |args| > 0 ==> SliceOf(args) == slice || (slice.Tuple? && |slice.elts| == 1)
  {
    if slice.Tuple? then slice.elts else [slice]
  }

  lemma {:induction false} AtomRoundTrip(a: Node, rest: string)
    requires IsTerm(a) && !a.Subscript?
    requires NoWordStart(rest)
    ensures ReadAtom(Render(a) + rest) == Some((a, rest))
  {
    match a
    case Name(id) =>
      NameRoundTrip(id, rest);
    case Constant(c) =>
      match c
      case StrValue(v) =>
        StrReprRoundTrip(v, rest);
      case IntValue(v) =>
        NatReprRoundTrip(v, rest);
        assert (Render(a) + rest)[0] == NatDigits(v)[0];
      case BoolValue(b) =>
        KeywordRoundTrip(c, rest);
      case NoneValue =>
        KeywordRoundTrip(c, rest);
  }

  lemma NameRoundTrip(id: string, rest: string)
    requires IsIdentifier(id) && !IsConstantKeyword(id) && NoWordStart(rest)
    ensures ReadAtom(id + rest) == Some((Name(id), rest))
  {
    WordThenRest(id, rest);
  }

  lemma KeywordRoundTrip(c: ConstValue, rest: string)
    requires (c.BoolValue? || c.NoneValue?) && NoWordStart(rest)
    ensures ReadAtom(Render(Constant(c)) + rest) == Some((Constant(c), rest))
  {
    var id := if c.NoneValue? then "None" else if c.b then "True" else "False";
    assert Render(Constant(c)) == id;
    WordThenRest(id, rest);
  }

  /** A word followed by a text that does not continue it reads back as
      that word. */
  lemma WordThenRest(id: string, rest: string)
    requires AllWord(id) && NoWordStart(rest)
    ensures WordEnd(id + rest, 0) == |id|
    ensures (id + rest)[..|id|] == id && (id + rest)[|id|..] == rest
  {
    var s := id + rest;
    assert s[..|id|] == id && s[|id|..] == rest;
    assert s[0..|id|] == id;
    WordEndOf(s, 0, |id|);
  }

  lemma {:induction false} TermPrefix(t: Node, rest: string)
    requires IsTerm(t) && NoWordStart(rest)
    ensures ReadTerm(Render(t) + rest) == ReadSubscripts(t, rest)
    decreases t, 1, 0
  {
    if t.Subscript? {
      var inner := SliceText(t.slice);
      var after := "[" + inner + "]" + rest;
      assert Render(t) + rest == Render(t.value) + after;
      TermPrefix(t.value, after);
      SliceRoundTrip(t.slice, "]" + rest);
      SubscriptStep(t.value, t.slice, inner, rest);
    } else {
      AtomRoundTrip(t, rest);
    }
  }

  /** One step of reading subscripts: a bracketed argument list that reads
      back as the slice's arguments extends the base by that slice. */
  lemma SubscriptStep(base: Node, slice: Node, inner: string, rest: string)
    requires ReadArgs(inner + ("]" + rest)) == Some((SliceArgs(slice), "]" + rest))
    requires IsSlice(slice)
    ensures ReadSubscripts(base, "[" + inner + "]" + rest) == ReadSubscripts(Subscript(base, slice), rest)
  {
    var after := "[" + inner + "]" + rest;
    assert after[1..] == inner + ("]" + rest);
    assert ("]" + rest)[1..] == rest;
  }

  lemma {:induction false} SliceRoundTrip(slice: Node, rest: string)
    requires IsSlice(slice) && StartsWith(rest, "]")
    ensures ReadArgs(SliceText(slice) + rest) == Some((SliceArgs(slice), rest))
    decreases slice, 5, 0
  {
    if slice.Tuple? {
      ArgsFrom(slice, 0, rest);
      assert slice.elts[0..] == slice.elts;
    } else {
      ExprRoundTrip(slice, rest);
    }
  }

  lemma {:induction false} ArgsFrom(slice: Node, i: nat, rest: string)
    requires slice.Tuple? && IsSlice(slice) && i < |slice.elts|
    requires StartsWith(rest, "]")
    ensures ReadArgs(Join(", ", RenderEach(slice.elts[i..])) + rest) == Some((slice.elts[i..], rest))
    decreases slice, 4, |slice.elts| - i
  {
    var elts := slice.elts;
    var e := elts[i];
    assert e in elts && IsExpr(e);
    if i == |elts| - 1 {
      assert elts[i..] == [e];
      assert Join(", ", RenderEach(elts[i..])) == Render(e);
      ClosingStops(rest);
      ExprRoundTrip(e, rest);
      ReadArgsLast(Render(e) + rest, e, rest);
    } else {
      var tail := Join(", ", RenderEach(elts[i + 1..])) + rest;
      ArgsText(elts, i, rest);
      CommaStops(tail);
      ExprRoundTrip(e, ", " + tail);
      ArgsFrom(slice, i + 1, rest);
      ReadArgsStep(Render(e) + (", " + tail), e, tail, elts[i + 1..], rest);
      assert [e] + elts[i + 1..] == elts[i..];
    }
  }

  lemma ClosingStops(rest: string)
    requires StartsWith(rest, "]")
    ensures ExprStop(rest) && !StartsWith(rest, ", ")
  {
    assert rest[0] == rest[..1][0] == ']';
  }

  lemma CommaStops(tail: string)
    ensures ExprStop(", " + tail)
  {
    assert (", " + tail)[0] == ',';
  }

  /** The rendered arguments from position i split at the first `", "`. */
  lemma ArgsText(elts: seq<Node>, i: nat, rest: string)
    requires i < |elts| - 1
    ensures Join(", ", RenderEach(elts[i..])) + rest
         == Render(elts[i]) + (", " + (Join(", ", RenderEach(elts[i + 1..])) + rest))
  {
    var parts := RenderEach(elts[i..]);
    EachFront(elts, i);
    JoinFront(", ", parts);
    CommaRegroup(Join(", ", parts), parts[0], Join(", ", parts[1..]), rest);
  }

  /** Regrouping around the separator, for `ArgsText`. */
  lemma CommaRegroup(w: string, a: string, b: string, rest: string)
    requires w == a + ", " + b
    ensures w + rest == a + (", " + (b + rest))
  {
  }

  /** One step of reading an argument list. */
  lemma ReadArgsStep(s: string, e: Node, tail: string, es: seq<Node>, rest: string)
    requires ReadExpr(s) == Some((e, ", " + tail))
    requires ReadArgs(tail) == Some((es, rest))
    ensures ReadArgs(s) == Some(([e] + es, rest))
  {
    assert (", " + tail)[2..] == tail;
  }

  /** The last argument: the list ends at the closing bracket. */
  lemma ReadArgsLast(s: string, e: Node, rest: string)
    requires ReadExpr(s) == Some((e, rest))
    requires StartsWith(rest, "]")
    ensures ReadArgs(s) == Some(([e], rest))
  {
    ClosingStops(rest);
  }

  lemma EachFront(elts: seq<Node>, i: nat)
    requires i < |elts| - 1
    ensures |RenderEach(elts[i..])| >= 2
    ensures RenderEach(elts[i..])[0] == Render(elts[i])
    ensures RenderEach(elts[i..])[1..] == RenderEach(elts[i + 1..])
  {
    RenderEachIndex(elts[i..], 0);
    forall k | 0 <= k < |elts| - i - 1
      ensures RenderEach(elts[i..])[1..][k] == RenderEach(elts[i + 1..])[k]
    {
      RenderEachIndex(elts[i..], k + 1);
      RenderEachIndex(elts[i + 1..], k);
    }
  }

  lemma {:induction false} ExprPrefix(e: Node, rest: string)
    requires IsExpr(e) && TermStop(rest)
    ensures ReadExpr(Render(e) + rest) == ReadChain(e, rest)
    decreases e, 2, 0
  {
    if IsTerm(e) {
      TermPrefix(e, rest);
    } else {
      var after := " | " + Render(e.right) + rest;
      assert Render(e) + rest == Render(e.left) + after;
      ExprPrefix(e.left, after);
      TermPrefix(e.right, rest);
      assert ReadSubscripts(e.right, rest) == Some((e.right, rest));
      ChainStep(e.left, e.right, Render(e.right), rest);
    }
  }

  /** One step of reading a chain: `" | "` and a term extend the chain read
      so far. */
  lemma ChainStep(acc: Node, t: Node, text: string, rest: string)
    requires ReadTerm(text + rest) == Some((t, rest))
    ensures ReadChain(acc, " | " + text + rest) == ReadChain(BinOp(acc, BitOr, t), rest)
  {
    assert (" | " + text + rest)[3..] == text + rest;
  }

  lemma {:induction false} ExprRoundTrip(e: Node, rest: string)
    requires IsExpr(e) && ExprStop(rest)
    ensures ReadExpr(Render(e) + rest) == Some((e, rest))
    decreases e, 3, 0
  {
    ExprPrefix(e, rest);
  }

  /** The reader gives back every canonical tree from its rendering. */
  lemma ReadRenderedAnnotation(e: Node)
    requires IsExpr(e)
    ensures ReadAnnotation(Render(e)) == Some(e)
  {
    ExprRoundTrip(e, []);
    assert Render(e) + [] == Render(e);
  }

  /** So two different canonical trees never render alike. */
  lemma RenderInjective(a: Node, b: Node)
    requires IsExpr(a) && IsExpr(b)
    requires Render(a) == Render(b)
    ensures a == b
  {
    ReadRenderedAnnotation(a);
    ReadRenderedAnnotation(b);
  }

  // ----- qualified names -----

  /** The tree with every attribute access replaced by its last segment:
      what the rendering keeps of a qualified name. */
  function Unqualify(n: Node): (u: Node)
    ensures n.Attribute? ==> u == Name(n.attr)
    decreases n
  {
    match n
    case Attribute(_, attr) => Name(attr)
    case Subscript(value, slice) => Subscript(Unqualify(value), Unqualify(slice))
    case Tuple(elts) => Tuple(UnqualifyEach(elts))
    case BinOp(left, op, right) => BinOp(Unqualify(left), op, Unqualify(right))
    case Other(children) => Other(UnqualifyEach(children))
    case _ => n
  }

  function UnqualifyEach(nodes: seq<Node>): (us: seq<Node>)
    ensures |us| == |nodes|
    decreases nodes
  {
    if nodes == [] then [] else UnqualifyEach(nodes[..|nodes| - 1]) + [Unqualify(nodes[|nodes| - 1])]
  }

  /** Dropping the qualifiers first changes nothing in the rendering. */
  lemma {:induction false} RenderUnqualify(n: Node)
    ensures Render(Unqualify(n)) == Render(n)
    decreases n, 1
  {
    match n
    case Subscript(value, slice) =>
      RenderUnqualify(value);
      RenderUnqualify(slice);
      if slice.Tuple? {
        RenderEachUnqualify(slice, slice.elts);
      }
    case Tuple(elts) =>
      RenderEachUnqualify(n, elts);
    case BinOp(left, _, right) =>
      RenderUnqualify(left);
      RenderUnqualify(right);
    case Other(children) =>
      RenderEachUnqualify(n, children);
    case _ =>
  }

  lemma {:induction false} RenderEachUnqualify(n: Node, nodes: seq<Node>)
    requires forall k | 0 <= k < |nodes| :: nodes[k] < n
    ensures RenderEach(UnqualifyEach(nodes)) == RenderEach(nodes)
    decreases n, 0, |nodes|
  {
    if nodes != [] {
      var init := nodes[..|nodes| - 1];
      assert forall k | 0 <= k < |init| :: init[k] == nodes[k];
      RenderEachUnqualify(n, init);
      RenderUnqualify(nodes[|nodes| - 1]);
    }
  }

  /** A qualified annotation reads back as its unqualified tree: the
      cleaner's output keeps everything except the module prefixes. */
  lemma ReadRenderedQualified(t: Node)
    requires IsExpr(Unqualify(t))
    ensures ReadAnnotation(Render(t)) == Some(Unqualify(t))
  {
    RenderUnqualify(t);
    ReadRenderedAnnotation(Unqualify(t));
  }
}
