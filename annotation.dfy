/** The syntax tree of a type annotation and the qualifier-dropping
    renderer of `AnnotationCleaner` (src/func_analyzer/utils.py:21-62).

    `Render` is the specification: the text `''.join(cleaner.result)` holds
    after the visitor has walked a tree. The class `AnnotationCleaner`
    keeps the source's shape (a token list that the `visit_*` methods append
    to) and each of its methods is proved to append exactly the rendering of
    the node it visits. */
module Annotation {
  import opened PyText

  /** The value of an `ast.Constant`. `OtherValue` stands for the kinds whose
      `repr` this model does not compute (float, complex, bytes) and carries
      that `repr` text. */
  datatype ConstValue =
    | StrValue(s: string)
    | IntValue(i: int)
    | BoolValue(b: bool)
    | NoneValue
    | EllipsisValue
    | OtherValue(text: string)

  /** The operator of an `ast.BinOp`. */
  datatype Operator =
    | BitOr | Add | Sub | Mult | MatMult | Div | Mod | Pow
    | LShift | RShift | BitXor | BitAnd | FloorDiv

  /** The expression nodes the cleaner meets. The five kinds with a
      `visit_*` method, `Tuple` (special inside a subscript), and `Other`
      for every other node kind (a call, a unary minus, a slice, ...),
      which `generic_visit` walks child by child in field order. */
  datatype Node =
    | Name(id: string)
    | Attribute(value: Node, attr: string)
    | Subscript(value: Node, slice: Node)
    | Tuple(elts: seq<Node>)
    | Constant(literal: ConstValue)
    | BinOp(left: Node, op: Operator, right: Node)
    | Other(children: seq<Node>)

  /** `repr(node.value)` */
  function Repr(c: ConstValue): string {
    match c
    case StrValue(s) => StrRepr(s)
    case IntValue(i) => IntRepr(i)
    case BoolValue(b) => if b then "True" else "False"
    case NoneValue => "None"
    case EllipsisValue => "Ellipsis"
    case OtherValue(text) => text
  }

  /** The text the cleaner produces for a node. */
  function Render(n: Node): string
    decreases n
  {
    match n
    case Name(id) => id
    case Attribute(_, attr) => attr
    case Subscript(value, slice) =>
      Render(value) + "[" + (if slice.Tuple? then Join(", ", RenderEach(slice.elts)) else Render(slice)) + "]"
    case Tuple(elts) => Join("", RenderEach(elts))
    case Constant(c) => Repr(c)
    case BinOp(left, op, right) => Render(left) + (if op == BitOr then " | " else "") + Render(right)
    case Other(children) => Join("", RenderEach(children))
  }

  /** The renderings of a sequence of nodes, in order. */
  function RenderEach(nodes: seq<Node>): (r: seq<string>)
    ensures |r| == |nodes|
    decreases nodes
  {
    if nodes == [] then [] else RenderEach(nodes[..|nodes| - 1]) + [Render(nodes[|nodes| - 1])]
  }

  /** `''.join(parts)` */
  function Concat(parts: seq<string>): string {
    Join("", parts)
  }

  lemma ConcatAppend(parts: seq<string>, x: string)
    ensures Concat(parts + [x]) == Concat(parts) + x
  {
    JoinAppend("", parts, x);
  }

  lemma {:induction false} ConcatSplit(a: seq<string>, b: seq<string>)
    ensures Concat(a + b) == Concat(a) + Concat(b)
    decreases |b|
  {
    if b == [] {
      assert a + b == a;
    } else {
      var n := |b|;
      ConcatSplit(a, b[..n - 1]);
      assert a + b == (a + b[..n - 1]) + [b[n - 1]];
      ConcatAppend(a + b[..n - 1], b[n - 1]);
      ConcatAppend(b[..n - 1], b[n - 1]);
      assert b == b[..n - 1] + [b[n - 1]];
    }
  }

  /** The token list the visitor appends for a node, in the order the
      `visit_*` methods append them. */
  function Tokens(n: Node): seq<string>
    decreases n
  {
    match n
    case Name(id) => [id]
    case Attribute(_, attr) => [attr]
    case Subscript(value, slice) =>
      Tokens(value) + ["["] + (if slice.Tuple? then ArgTokens(slice.elts) else Tokens(slice)) + ["]"]
    case Tuple(elts) => ChildTokens(elts)
    case Constant(c) => [Repr(c)]
    case BinOp(left, op, right) => Tokens(left) + (if op == BitOr then [" | "] else []) + Tokens(right)
    case Other(children) => ChildTokens(children)
  }

  /** The loop of `visit_Subscript` over a tuple slice: `", "` before every
      argument but the first. */
  function ArgTokens(elts: seq<Node>): seq<string>
    decreases elts
  {
    if |elts| == 0 then []
    else if |elts| == 1 then Tokens(elts[0])
    else ArgTokens(elts[..|elts| - 1]) + [", "] + Tokens(elts[|elts| - 1])
  }

  /** `generic_visit`: the children's tokens, one child after the other. */
  function ChildTokens(nodes: seq<Node>): seq<string>
    decreases nodes
  {
    if nodes == [] then [] else ChildTokens(nodes[..|nodes| - 1]) + Tokens(nodes[|nodes| - 1])
  }

  /** Joining the visitor's tokens gives the rendering: the class and the
      function agree on every tree. */
  lemma {:induction false} TokensRender(n: Node)
    ensures Concat(Tokens(n)) == Render(n)
    decreases n, 1
  {
    match n
    case Name(id) =>
    case Attribute(_, attr) =>
    case Constant(c) =>
    case Subscript(value, slice) =>
      var inner := if slice.Tuple? then ArgTokens(slice.elts) else Tokens(slice);
      TokensRender(value);
      if slice.Tuple? {
        ArgTokensRender(slice, |slice.elts|);
        assert slice.elts[..|slice.elts|] == slice.elts;
      } else {
        TokensRender(slice);
      }
      ConcatSplit(Tokens(value) + ["["] + inner, ["]"]);
      ConcatSplit(Tokens(value) + ["["], inner);
      ConcatSplit(Tokens(value), ["["]);
    case BinOp(left, op, right) =>
      TokensRender(left);
      TokensRender(right);
      ConcatSplit(Tokens(left) + (if op == BitOr then [" | "] else []), Tokens(right));
      ConcatSplit(Tokens(left), if op == BitOr then [" | "] else []);
    case Tuple(elts) =>
      ChildTokensRender(n, elts, |elts|);
      assert elts[..|elts|] == elts;
    case Other(children) =>
      ChildTokensRender(n, children, |children|);
      assert children[..|children|] == children;
  }

  lemma {:induction false} ArgTokensRender(slice: Node, i: nat)
    requires slice.Tuple? && i <= |slice.elts|
    ensures Concat(ArgTokens(slice.elts[..i])) == Join(", ", RenderEach(slice.elts[..i]))
    decreases slice, 0, i
  {
    var elts := slice.elts;
    if i > 0 {
      var last := elts[i - 1];
      assert last in elts;
      TokensRender(last);
      RenderEachAppend(elts, i - 1);
      if i > 1 {
        ArgTokensRender(slice, i - 1);
        assert elts[..i][..i - 1] == elts[..i - 1];
        ConcatSplit(ArgTokens(elts[..i - 1]) + [", "], Tokens(last));
        ConcatSplit(ArgTokens(elts[..i - 1]), [", "]);
        JoinAppend(", ", RenderEach(elts[..i - 1]), Render(last));
      } else {
        assert elts[..1] == [last];
      }
    }
  }

  lemma {:induction false} ChildTokensRender(n: Node, kids: seq<Node>, i: nat)
    requires (n.Tuple? && kids == n.elts) || (n.Other? && kids == n.children)
    requires i <= |kids|
    ensures Concat(ChildTokens(kids[..i])) == Join("", RenderEach(kids[..i]))
    decreases n, 0, i
  {
    if i > 0 {
      var last := kids[i - 1];
      assert last < n;
      TokensRender(last);
      ChildTokensRender(n, kids, i - 1);
      ChildTokensAppend(kids, i - 1);
      RenderEachAppend(kids, i - 1);
      ConcatJoinStep(ChildTokens(kids[..i - 1]), Tokens(last), RenderEach(kids[..i - 1]), Render(last));
    }
  }

  /** One more argument of a subscript's tuple. */
  lemma ArgTokensStep(elts: seq<Node>, i: nat)
    requires i < |elts|
    ensures ArgTokens(elts[..i + 1]) == ArgTokens(elts[..i]) + (if i == 0 then [] else [", "]) + Tokens(elts[i])
  {
    assert elts[..i + 1][..i] == elts[..i];
  }

  /** Regrouping of appended token lists, for the steps of `VisitSubscript`
      and `VisitArgs`. */
  lemma Regroup(o: seq<string>, a: seq<string>, b: seq<string>, c: seq<string>)
    ensures o + a + b + c == o + (a + b + c)
  {
  }

  /** One step of `generic_visit`: the tokens of the next child extend
      those of the children before it. */
  lemma ChildStep(o: seq<string>, nodes: seq<Node>, i: nat)
    requires i < |nodes|
    ensures o + ChildTokens(nodes[..i]) + Tokens(nodes[i]) == o + ChildTokens(nodes[..i + 1])
  {
    ChildTokensAppend(nodes, i);
  }

  lemma ChildTokensAppend(nodes: seq<Node>, i: nat)
    requires i < |nodes|
    ensures ChildTokens(nodes[..i + 1]) == ChildTokens(nodes[..i]) + Tokens(nodes[i])
  {
    assert nodes[..i + 1][..i] == nodes[..i];
  }

  /** One step of `ChildTokensRender`: appending a child keeps the joined
      tokens equal to the joined renderings. */
  lemma ConcatJoinStep(a: seq<string>, b: seq<string>, rs: seq<string>, r: string)
    requires Concat(a) == Join("", rs) && Concat(b) == r
    ensures Concat(a + b) == Join("", rs + [r])
  {
    ConcatSplit(a, b);
    JoinAppend("", rs, r);
  }

  lemma RenderEachAppend(nodes: seq<Node>, i: nat)
    requires i < |nodes|
    ensures RenderEach(nodes[..i + 1]) == RenderEach(nodes[..i]) + [Render(nodes[i])]
  {
    assert nodes[..i + 1][..i] == nodes[..i];
  }

  lemma {:induction false} RenderEachIndex(nodes: seq<Node>, k: nat)
    requires k < |nodes|
    ensures RenderEach(nodes)[k] == Render(nodes[k])
    decreases |nodes|
  {
    if k < |nodes| - 1 {
      RenderEachIndex(nodes[..|nodes| - 1], k);
    }
  }

  // ----- what the rendering promises -----

  /** The tree Python builds for a dotted name `a.b.c`:
      `Attribute(Attribute(Name(a), b), c)`. */
  function Dotted(segments: seq<string>): Node
    requires |segments| > 0
  {
    if |segments| == 1 then Name(segments[0])
    else Attribute(Dotted(segments[..|segments| - 1]), segments[|segments| - 1])
  }

  /** A dotted name renders as its last segment alone, whatever the depth
      of the qualifier in front of it. */
  lemma DottedRendersLastSegment(segments: seq<string>)
    requires |segments| > 0
    ensures Render(Dotted(segments)) == segments[|segments| - 1]
  {
  }

  /** The tree Python builds for `a | b | c`: `|` associates to the left. */
  function UnionChain(members: seq<Node>): Node
    requires |members| > 0
  {
    if |members| == 1 then members[0]
    else BinOp(UnionChain(members[..|members| - 1]), BitOr, members[|members| - 1])
  }

  /** A chain of unions renders flat, its members in order separated by
      `" | "`. */
  lemma {:induction false} UnionChainRendersFlat(members: seq<Node>)
    requires |members| > 0
    ensures Render(UnionChain(members)) == Join(" | ", RenderEach(members))
    decreases |members|
  {
    var n := |members|;
    if n > 1 {
      UnionChainRendersFlat(members[..n - 1]);
      RenderEachAppend(members, n - 1);
      assert members[..n - 1 + 1] == members;
      JoinAppend(" | ", RenderEach(members[..n - 1]), Render(members[n - 1]));
    }
  }

  /** No part of the tree that reaches the output holds a dot: identifiers,
      last segments, string constants and the text of unmodelled constants
      are dot-free. The qualifier under an `Attribute` is not looked at,
      because it is never rendered. */
  predicate DotFree(n: Node)
    decreases n
  {
    match n
    case Name(id) => '.' !in id
    case Attribute(_, attr) => '.' !in attr
    case Subscript(value, slice) => DotFree(value) && DotFree(slice)
    case Tuple(elts) => forall k | 0 <= k < |elts| :: DotFree(elts[k])
    case Constant(c) => (c.StrValue? ==> '.' !in c.s) && (c.OtherValue? ==> '.' !in c.text)
    case BinOp(left, _, right) => DotFree(left) && DotFree(right)
    case Other(children) => forall k | 0 <= k < |children| :: DotFree(children[k])
  }

  /** The rendering carries no qualifier: a tree whose rendered parts are
      dot-free renders without a dot, however deeply qualified its names. */
  lemma {:induction false} RenderHasNoQualifier(n: Node)
    requires DotFree(n)
    ensures '.' !in Render(n)
    decreases n, 1
  {
    match n
    case Name(_) =>
    case Attribute(_, _) =>
    case Constant(c) =>
      if c.IntValue? {
        assert '.' !in NatDigits(if c.i < 0 then -c.i else c.i);
      } else if c.StrValue? {
        StrReprNoDot(c.s);
      }
    case Subscript(value, slice) =>
      RenderHasNoQualifier(value);
      if slice.Tuple? {
        EachHasNoDot(slice, slice.elts, ", ");
      } else {
        RenderHasNoQualifier(slice);
      }
    case BinOp(left, _, right) =>
      RenderHasNoQualifier(left);
      RenderHasNoQualifier(right);
    case Tuple(elts) =>
      EachHasNoDot(n, elts, "");
    case Other(children) =>
      EachHasNoDot(n, children, "");
  }

  lemma {:induction false} EachHasNoDot(n: Node, kids: seq<Node>, sep: string)
    requires (n.Tuple? && kids == n.elts) || (n.Other? && kids == n.children)
    requires DotFree(n) && '.' !in sep
    ensures '.' !in Join(sep, RenderEach(kids))
    decreases n, 0
  {
    forall k | 0 <= k < |kids|
      ensures '.' !in RenderEach(kids)[k]
    {
      assert kids[k] < n;
      RenderEachIndex(kids, k);
      RenderHasNoQualifier(kids[k]);
    }
    JoinAvoids('.', sep, RenderEach(kids));
  }

  /** `AnnotationCleaner(ast.NodeVisitor)`: a list of text tokens that the
      visitor methods append to; `''.join(result)` is the cleaned text. */
  class AnnotationCleaner {
    var result: seq<string>

    constructor ()
      ensures result == []
    {
      result := [];
    }

    /** `NodeVisitor.visit`: dispatches on the node kind; a kind with no
        `visit_*` method goes to `generic_visit`. */
    method Visit(node: Node)
      modifies this
      ensures result == old(result) + Tokens(node)
      decreases node, 2
    {
      match node
      case Name(_) => VisitName(node);
      case Attribute(_, _) => VisitAttribute(node);
      case Subscript(_, _) => VisitSubscript(node);
      case Constant(_) => VisitConstant(node);
      case BinOp(_, _, _) => VisitBinOp(node);
      case Tuple(_) => GenericVisit(node);
      case Other(_) => GenericVisit(node);
    }

    /** `visit_Name`: the identifier itself. */
    method VisitName(node: Node)
      requires node.Name?
      modifies this
      ensures result == old(result) + [node.id]
    {
      result := result + [node.id];
    }

    /** `visit_Attribute`: only the last segment; the qualifier in
        `node.value` is never visited. */
    method VisitAttribute(node: Node)
      requires node.Attribute?
      modifies this
      ensures result == old(result) + [node.attr]
    {
      result := result + [node.attr];
    }

    /** `visit_Constant`: the `repr` of the value. */
    method VisitConstant(node: Node)
      requires node.Constant?
      modifies this
      ensures result == old(result) + [Repr(node.literal)]
    {
      result := result + [Repr(node.literal)];
    }

    /** `visit_Subscript`: the base, `[`, the arguments (a tuple slice
        separated by `", "`), then `]`. */
    method VisitSubscript(node: Node)
      requires node.Subscript?
      modifies this
      ensures result == old(result) + Tokens(node)
      decreases node, 1
    {
      Visit(node.value);
      result := result + ["["];
      if node.slice.Tuple? {
        VisitArgs(node);
      } else {
        Visit(node.slice);
      }
      result := result + ["]"];
      Regroup(old(result), Tokens(node.value) + ["["], if node.slice.Tuple? then ArgTokens(node.slice.elts) else Tokens(node.slice), ["]"]);
    }

    /** The loop of `visit_Subscript` over a tuple slice: `", "` before
        every argument but the first. */
    method VisitArgs(node: Node)
      requires node.Subscript? && node.slice.Tuple?
      modifies this
      ensures result == old(result) + ArgTokens(node.slice.elts)
      decreases node, 0
    {
      var elts := node.slice.elts;
      for i := 0 to |elts|
        invariant result == old(result) + ArgTokens(elts[..i])
      {
        ghost var before := result;
        ghost var sep: seq<string> := if i == 0 then [] else [", "];
        if i > 0 {
          result := result + [", "];
        }
        assert elts[i] in node.slice.elts;
        Visit(elts[i]);
        ArgTokensStep(elts, i);
        Regroup(old(result), ArgTokens(elts[..i]), sep, Tokens(elts[i]));
      }
      assert elts[..|elts|] == elts;
    }

    /** `visit_BinOp`: left, then `" | "` only for `BitOr`, then right. */
    method VisitBinOp(node: Node)
      requires node.BinOp?
      modifies this
      ensures result == old(result) + Tokens(node)
      decreases node, 0
    {
      Visit(node.left);
      if node.op == BitOr {
        result := result + [" | "];
      }
      Visit(node.right);
    }

    /** `generic_visit` on a node kind the cleaner has no method for: its
        child nodes in order, with nothing of its own. */
    method GenericVisit(node: Node)
      requires node.Tuple? || node.Other?
      modifies this
      ensures result == old(result) + Tokens(node)
      decreases node, 0
    {
      var children := if node.Tuple? then node.elts else node.children;
      for i := 0 to |children|
        invariant result == old(result) + ChildTokens(children[..i])
      {
        assert children[i] < node;
        Visit(children[i]);
        ChildStep(old(result), children, i);
      }
      assert children[..|children|] == children;
    }
  }
}
