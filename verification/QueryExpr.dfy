// The expressions of queries, and which query variables a condition uses: the
// conversion of ast/convert.go and usedAliases of types/query_plan_builder.go.
module QueryExpr {

  datatype Kind =
    | Call          // of a top-level function
    | Form          // binary, unary, index, group, list, map, if, ..
    | Unconverted   // a set or omap literal, spawn, async, await

  datatype Expr =
    | Lit(text: string)
    | Selector(root: string, tail: seq<string>)                // x.a.b
    | Field(base: Expr, name: string)                          // e.a, on any other e
    | Compound(kind: Kind, name: string, parts: seq<Expr>)

  // ---- What a condition reads ----

  function Reads(e: Expr): set<string>
    decreases e
  {
    match e
    case Lit(_) => {}
    case Selector(x, _) => {x}
    case Field(b, _) => Reads(b)
    case Compound(_, _, parts) => set i, x | 0 <= i < |parts| && x in Reads(parts[i]) :: x
  }

  // An interpretation of everything but the query variables.
  datatype Interp<!V> = Interp(
    lit: string -> V,
    global: string -> V,
    field: (V, string) -> V,
    op: (string, seq<V>) -> V,
    truth: V -> bool,
    elems: V -> seq<V>,
    nothing: V)   // the alias of a row that a join leaves unmatched

  type Row<V> = map<string, V>

  function Path<V>(I: Interp<V>, v: V, tail: seq<string>): V {
    if tail == [] then v else Path(I, I.field(v, tail[0]), tail[1..])
  }

  function Eval<V>(I: Interp<V>, row: Row<V>, e: Expr): V
    decreases e
  {
    match e
    case Lit(t) => I.lit(t)
    case Selector(x, tail) => Path(I, if x in row then row[x] else I.global(x), tail)
    case Field(b, n) => I.field(Eval(I, row, b), n)
    case Compound(_, name, parts) =>
      I.op(name, seq(|parts|, i requires 0 <= i < |parts| => Eval(I, row, parts[i])))
  }

  // x.a.b is field b of x.a.
  lemma SelectorIsFields<V>(I: Interp<V>, row: Row<V>, x: string, tail: seq<string>, name: string)
    ensures Eval(I, row, Selector(x, tail + [name])) == Eval(I, row, Field(Selector(x, tail), name))
  {
    PathSnoc(I, if x in row then row[x] else I.global(x), tail, name);
  }

  lemma {:induction false} PathSnoc<V>(I: Interp<V>, v: V, tail: seq<string>, name: string)
    ensures Path(I, v, tail + [name]) == I.field(Path(I, v, tail), name)
    decreases |tail|
  {
    if tail == [] {
      assert ([] + [name])[1..] == [];
    } else {
      assert (tail + [name])[1..] == tail[1..] + [name];
      PathSnoc(I, I.field(v, tail[0]), tail[1..], name);
    }
  }

  ghost predicate AgreeOn<V>(a: Row<V>, b: Row<V>, xs: set<string>) {
    forall x <- xs :: (x in a <==> x in b) && (x in a ==> a[x] == b[x])
  }

  // An expression depends only on the variables it reads.
  lemma {:induction false} EvalDependsOnReads<V>(I: Interp<V>, a: Row<V>, b: Row<V>, e: Expr)
    requires AgreeOn(a, b, Reads(e))
    ensures Eval(I, a, e) == Eval(I, b, e)
    decreases e
  {
    match e
    case Lit(_) =>
    case Selector(x, _) => assert x in Reads(e);
    case Field(base, _) => EvalDependsOnReads(I, a, b, base);
    case Compound(_, _, parts) =>
      forall i | 0 <= i < |parts| ensures Eval(I, a, parts[i]) == Eval(I, b, parts[i]) {
        EvalDependsOnReads(I, a, b, parts[i]);
      }
      assert seq(|parts|, i requires 0 <= i < |parts| => Eval(I, a, parts[i]))
          == seq(|parts|, i requires 0 <= i < |parts| => Eval(I, b, parts[i]));
  }

  // ---- What usedAliases finds ----

  // ast.Node: a kind, a value if it is a string, and children.
  datatype AstNode = AstNode(kind: string, value: string, children: seq<AstNode>)

  const SELECTOR := "selector"

  function SelectorNode(root: string, tail: seq<string>): AstNode
    decreases |tail|
  {
    if tail == [] then AstNode(SELECTOR, root, [])
    else AstNode(SELECTOR, tail[|tail| - 1], [SelectorNode(root, tail[..|tail| - 1])])
  }

  // FromExpr: FromPrimary has no case for set and omap literals, spawn, async
  // and await, and answers with a childless "unknown" node. (No form has the
  // kind "selector".)
  function FromExpr(e: Expr): AstNode
    decreases e
  {
    match e
    case Lit(t) => AstNode("literal", t, [])
    case Selector(x, tail) => SelectorNode(x, tail)
    case Field(b, n) => AstNode(SELECTOR, n, [FromExpr(b)])
    case Compound(kind, name, parts) =>
      if kind == Unconverted then AstNode("unknown", "", [])
      else AstNode(if kind == Call then "call" else "form", name,
                   seq(|parts|, i requires 0 <= i < |parts| => FromExpr(parts[i])))
  }

  // The innermost selector of a chain of selectors.
  function SelectorBase(n: AstNode): AstNode {
    if |n.children| == 1 && n.children[0].kind == SELECTOR then SelectorBase(n.children[0]) else n
  }

  // The recursive closure `walk` of usedAliases.
  function Walk(n: AstNode): set<string>
    decreases n
  {
    (if n.kind == SELECTOR then {SelectorBase(n).value} else {}) +
    set i, x | 0 <= i < |n.children| && x in Walk(n.children[i]) :: x
  }

  function UsedAliases(e: Expr): set<string> {
    Walk(FromExpr(e))
  }

  // The variables read outside unconverted parts.
  function SeenReads(e: Expr): set<string>
    decreases e
  {
    match e
    case Lit(_) => {}
    case Selector(x, _) => {x}
    case Field(b, _) => SeenReads(b)
    case Compound(kind, _, parts) =>
      if kind == Unconverted then {} else set i, x | 0 <= i < |parts| && x in SeenReads(parts[i]) :: x
  }

  // The field names that are taken for variables: those selected from an
  // expression that is not itself a selection.
  function StrayFields(e: Expr): set<string>
    decreases e
  {
    match e
    case Lit(_) => {}
    case Selector(_, _) => {}
    case Field(b, n) => StrayFields(b) + if b.Selector? || b.Field? then {} else {n}
    case Compound(kind, _, parts) =>
      if kind == Unconverted then {} else set i, x | 0 <= i < |parts| && x in StrayFields(parts[i]) :: x
  }

  lemma {:induction false} SelectorWalk(root: string, tail: seq<string>)
    ensures SelectorNode(root, tail).kind == SELECTOR
    ensures SelectorBase(SelectorNode(root, tail)).value == root
    ensures Walk(SelectorNode(root, tail)) == {root}
    decreases |tail|
  {
    if tail != [] {
      SelectorWalk(root, tail[..|tail| - 1]);
    }
  }

  lemma {:induction false} BaseIsWalked(n: AstNode)
    requires n.kind == SELECTOR
    ensures SelectorBase(n).value in Walk(n)
  {
  }

  // usedAliases finds exactly the variables read outside unconverted parts and
  // the stray field names.
  lemma {:induction false} UsedAliasesExactly(e: Expr)
    ensures UsedAliases(e) == SeenReads(e) + StrayFields(e)
    ensures FromExpr(e).kind == SELECTOR <==> e.Selector? || e.Field?
    decreases e
  {
    match e
    case Lit(_) =>
    case Selector(x, tail) => SelectorWalk(x, tail);
    case Field(b, n) =>
      UsedAliasesExactly(b);
      var node := FromExpr(e);
      assert node.children == [FromExpr(b)];
      assert Walk(node) == {SelectorBase(node).value} + Walk(FromExpr(b));
      if b.Selector? || b.Field? {
        BaseIsWalked(FromExpr(b));
      }
    case Compound(kind, _, parts) =>
      if kind != Unconverted {
        var node := FromExpr(e);
        forall i | 0 <= i < |parts| ensures Walk(node.children[i]) == SeenReads(parts[i]) + StrayFields(parts[i]) {
          UsedAliasesExactly(parts[i]);
        }
      }
  }

  // No part of e is dropped by the conversion.
  predicate Converted(e: Expr)
    decreases e
  {
    match e
    case Lit(_) => true
    case Selector(_, _) => true
    case Field(b, _) => Converted(b)
    case Compound(kind, _, parts) => kind != Unconverted && forall i | 0 <= i < |parts| :: Converted(parts[i])
  }

  lemma {:induction false} ConvertedIsSeen(e: Expr)
    requires Converted(e)
    ensures SeenReads(e) == Reads(e)
    decreases e
  {
    match e
    case Field(b, _) => ConvertedIsSeen(b);
    case Compound(_, _, parts) =>
      forall i | 0 <= i < |parts| ensures SeenReads(parts[i]) == Reads(parts[i]) {
        ConvertedIsSeen(parts[i]);
      }
    case _ =>
  }

  // Without dropped parts, usedAliases covers every variable the condition reads.
  lemma UsedAliasesCover(e: Expr)
    requires Converted(e)
    ensures Reads(e) <= UsedAliases(e)
  {
    UsedAliasesExactly(e);
    ConvertedIsSeen(e);
  }
}
