// Narrowing against the evaluation of conditions.
module NarrowingSoundness {
  import opened Options
  import Types
  import opened Precedence
  import opened OperatorTables
  import opened Environments
  import opened Narrowing

  datatype Value = Nil | Bool(b: bool) | Other(id: nat)

  type Store = string -> Value

  // What the model leaves open: the operands it does not look into, the
  // operators other than `&&`, `||` and comparisons with `none`, and the values
  // of the types that are not options. An operator sees None for a side that
  // has no value, so that it may be lazy.
  datatype Semantics = Semantics(
    form: (nat, Store) -> Option<Value>,
    apply: (string, Option<Value>, Option<Value>) -> Option<Value>,
    base: (Value, Type) -> bool)

  function EvalOperand(sem: Semantics, o: Operand, store: Store): Option<Value> {
    match o
    case Ident(x) => Some(store(x))
    case NoneLiteral => Some(Nil)
    case Form(id) => sem.form(id, store)
  }

  function Eval(sem: Semantics, t: Tree<Operand>, store: Store): Option<Value> {
    match t
    case Leaf(o) => EvalOperand(sem, o, store)
    case Node(op, l, r) =>
      var a := Eval(sem, l, store);
      var b := Eval(sem, r, store);
      if op == "&&" || op == "||" then
        (match a
         case Some(Bool(x)) => if x == (op == "||") then a else if b.Some? && b.value.Bool? then b else None
         case _ => None)
      else if op in ["==", "!="] && a.Some? && b.Some? && (a.value.Nil? || b.value.Nil?) then
        Some(Bool((a == b) == (op == "==")))
      else sem.apply(op, a, b)
  }

  // Options are flat: `none`, or a value of the element type.
  predicate HasType(sem: Semantics, v: Value, t: Type) {
    if IsOption(t) then v.Nil? || HasType(sem, v, t.args[0]) else sem.base(v, t)
  }

  // Every visible variable has a value of its visible type.
  ghost predicate Respects(sem: Semantics, store: Store, s: seq<Scope>) {
    forall x | Visible(s, x).Some? :: HasType(sem, store(x), Visible(s, x).value)
  }

  // ---- What the tree of a condition says about `none` ----

  // The names that are not `none` when t comes out as `outcome`.
  function Facts(t: Tree<Operand>, outcome: bool): seq<string> {
    match t
    case Leaf(_) => []
    case Node(op, l, r) =>
      if op == "&&" then (if outcome then Facts(l, true) + Facts(r, true) else [])
      else if op == "||" then (if outcome then [] else Facts(l, false) + Facts(r, false))
      else if l.Leaf? && r.Leaf? then ComparisonFacts(op, l.value, r.value, outcome)
      else []
  }

  function ComparisonFacts(op: string, l: Operand, r: Operand, outcome: bool): seq<string> {
    match ComparedName(l, r)
    case None => []
    case Some(x) => if op == (if outcome then "!=" else "==") then [x] else []
  }

  lemma {:induction false} FactsHold(sem: Semantics, t: Tree<Operand>, store: Store, outcome: bool, x: string)
    requires Eval(sem, t, store) == Some(Bool(outcome))
    ensures x in Facts(t, outcome) ==> store(x) != Nil
  {
    match t
    case Leaf(_) =>
    case Node(op, l, r) =>
      if op == "&&" || op == "||" {
        if Eval(sem, l, store) == Some(Bool(outcome)) {
          FactsHold(sem, l, store, outcome, x);
        }
        if Eval(sem, r, store) == Some(Bool(outcome)) {
          FactsHold(sem, r, store, outcome, x);
        }
      }
  }

  // ---- Narrow computes exactly these facts ----

  function Count(xs: seq<string>, x: string): nat {
    if xs == [] then 0 else (if xs[0] == x then 1 else 0) + Count(xs[1..], x)
  }

  lemma {:induction false} CountAdds(xs: seq<string>, ys: seq<string>, x: string)
    ensures Count(xs + ys, x) == Count(xs, x) + Count(ys, x)
    ensures Count(xs, x) > 0 <==> x in xs
  {
    if xs == [] {
      assert xs + ys == ys;
    } else {
      assert (xs + ys)[1..] == xs[1..] + ys;
      CountAdds(xs[1..], ys, x);
    }
  }

  // Exactly the option-typed names among the facts are narrowed, and each loses
  // one option layer for every time that the facts name it.
  ghost predicate Describes(m: Narrowings, s: seq<Scope>, facts: seq<string>) {
    forall x :: DescribesAt(m, s, facts, x)
  }

  predicate DescribesAt(m: Narrowings, s: seq<Scope>, facts: seq<string>, x: string) {
    && (x in m <==> x in facts && Visible(s, x).Some? && IsOption(Visible(s, x).value))
    && (x in m ==> m[x] == Strip(Visible(s, x).value, Count(facts, x)))
  }

  lemma MergeDescribes(l: Narrowings, r: Narrowings, s: Chain, f: seq<string>, g: seq<string>)
    requires Describes(l, s, f) && Describes(r, Narrowed(s, l), g)
    ensures Describes(Merge(l, r), s, f + g)
  {
    forall x ensures DescribesAt(Merge(l, r), s, f + g, x) {
      assert DescribesAt(l, s, f, x) && DescribesAt(r, Narrowed(s, l), g, x);
      NarrowedLookups(s, l, x);
      CountAdds(f, g, x);
      CountAdds(g, [], x);
      assert x in f + g <==> x in f || x in g;
      if x in l {
        StripAdds(Visible(s, x).value, Count(f, x), Count(g, x));
      }
    }
  }

  // Facts of a chain with no logical operator: one comparison or nothing.
  lemma PlainFacts(table: Table, operands: seq<Operand>, ops: seq<string>, outcome: bool)
    requires |operands| == |ops| + 1 && "&&" !in ops && "||" !in ops
    ensures Facts(Build(table, operands, ops), outcome) ==
      if |ops| == 1 then ComparisonFacts(ops[0], operands[0], operands[1], outcome) else []
  {
    hide Build, ComparisonFacts;
    if ops == [] {
      BuildSingle(table, operands);
    } else {
      var k := Loosest(table, ops);
      assert ops[k] in ops;
      BuildSplit(table, operands, ops, k);
      LeafOrNode(table, operands[..k + 1], ops[..k]);
      LeafOrNode(table, operands[k + 1..], ops[k + 1..]);
    }
  }

  lemma LeafOrNode(table: Table, operands: seq<Operand>, ops: seq<string>)
    requires |operands| == |ops| + 1
    ensures Build(table, operands, ops) == Leaf(operands[0]) || (ops != [] && Build(table, operands, ops).Node?)
    ensures Build(table, operands, ops).Leaf? <==> ops == []
  {
    if ops == [] {
      BuildSingle(table, operands);
    } else {
      BuildSplit(table, operands, ops, Loosest(table, ops));
    }
  }

  // The tree of a chain splits where narrowing does.
  ghost predicate Splits(t: Tree<Operand>, operands: seq<Operand>, ops: seq<string>)
    requires |operands| == |ops| + 1
    decreases |ops|
  {
    var k := SplitPoint(ops);
    if k < |ops| then
      && t.Node? && t.op == ops[k]
      && Splits(t.left, operands[..k + 1], ops[..k]) && Splits(t.right, operands[k + 1..], ops[k + 1..])
    else exists table :: t == Build(table, operands, ops)
  }

  lemma {:induction false} NarrowDescribes(t: Tree<Operand>, operands: seq<Operand>, ops: seq<string>,
                                                s: Chain, outcome: bool)
    requires |operands| == |ops| + 1 && Splits(t, operands, ops)
    ensures Describes(Narrow(operands, ops, s, outcome), s, Facts(t, outcome))
    decreases |ops|
  {
    hide *;
    hide Splits;
    var k := SplitPoint(ops);
    NarrowStep(operands, ops, s, outcome);
    SplitsStep(t, operands, ops, outcome);
    if k < |ops| && outcome == (ops[k] == "&&") {
      var l := Narrow(operands[..k + 1], ops[..k], s, outcome);
      NarrowDescribes(t.left, operands[..k + 1], ops[..k], s, outcome);
      NarrowDescribes(t.right, operands[k + 1..], ops[k + 1..], Narrowed(s, l), outcome);
      MergeDescribes(l, Narrow(operands[k + 1..], ops[k + 1..], Narrowed(s, l), outcome), s,
        Facts(t.left, outcome), Facts(t.right, outcome));
    } else if k == |ops| == 1 {
      ComparisonDescribes(ops[0], operands[0], operands[1], s, outcome);
    } else {
      NothingDescribes(s);
    }
  }

  // One step of the recursion of Narrow, and of Facts on a tree that splits
  // where narrowing does.
  lemma NarrowStep(operands: seq<Operand>, ops: seq<string>, s: seq<Scope>, outcome: bool)
    requires |operands| == |ops| + 1
    ensures var k := SplitPoint(ops);
      Narrow(operands, ops, s, outcome) ==
        if k < |ops| && outcome == (ops[k] == "&&") then
          var l := Narrow(operands[..k + 1], ops[..k], s, outcome);
          Merge(l, Narrow(operands[k + 1..], ops[k + 1..], Narrowed(s, l), outcome))
        else if k == |ops| == 1 then Comparison(ops[0], operands[0], operands[1], s, outcome)
        else map[]
  {
    hide SplitPoint, LastIndex, Comparison, Merge, Narrowed;
    SplitPointIs(ops);
  }

  lemma SplitsStep(t: Tree<Operand>, operands: seq<Operand>, ops: seq<string>, outcome: bool)
    requires |operands| == |ops| + 1 && Splits(t, operands, ops)
    ensures var k := SplitPoint(ops);
      && (k < |ops| ==>
        && t.Node? && Splits(t.left, operands[..k + 1], ops[..k]) && Splits(t.right, operands[k + 1..], ops[k + 1..]))
      && Facts(t, outcome) ==
        if k < |ops| && outcome == (ops[k] == "&&") then Facts(t.left, outcome) + Facts(t.right, outcome)
        else if k == |ops| == 1 then ComparisonFacts(ops[0], operands[0], operands[1], outcome)
        else []
  {
    hide SplitPoint, LastIndex, ComparisonFacts, Build;
    SplitPointIs(ops);
    if SplitPoint(ops) == |ops| {
      var table :| t == Build(table, operands, ops);
      PlainFacts(table, operands, ops, outcome);
    }
  }

  lemma SplitPointIs(ops: seq<string>)
    ensures SplitPoint(ops) < |ops| <==> "||" in ops || "&&" in ops
    ensures SplitPoint(ops) < |ops| ==> ops[SplitPoint(ops)] == if "||" in ops then "||" else "&&"
    ensures SplitPoint(ops) == if "||" in ops then LastIndex(ops, "||") else LastIndex(ops, "&&")
  {
  }

  lemma NothingDescribes(s: seq<Scope>)
    ensures Describes(map[], s, [])
  {
  }

  lemma ComparisonDescribes(op: string, l: Operand, r: Operand, s: seq<Scope>, outcome: bool)
    ensures Describes(Comparison(op, l, r, s, outcome), s, ComparisonFacts(op, l, r, outcome))
  {
    var m := Comparison(op, l, r, s, outcome);
    var f := ComparisonFacts(op, l, r, outcome);
    forall x ensures DescribesAt(m, s, f, x) {
      CountAdds(f, [], x);
      if x in f {
        assert Count(f, x) == 1;
        assert Visible(s, x).Some? && IsOption(Visible(s, x).value) ==>
          Strip(Visible(s, x).value, 1) == Strip(Visible(s, x).value.args[0], 0);
      }
    }
  }

  lemma {:induction false} CheckTreeSplits(operands: seq<Operand>, ops: seq<string>)
    requires |operands| == |ops| + 1
    ensures Splits(CheckTree(operands, ops), operands, ops)
    decreases |ops|
  {
    hide SplitPoint, Build;
    var k := SplitPoint(ops);
    if k < |ops| {
      CheckTreeSplits(operands[..k + 1], ops[..k]);
      CheckTreeSplits(operands[k + 1..], ops[k + 1..]);
    }
  }

  // On the tree that the checker reads, narrowing finds exactly the facts.
  lemma NarrowsExactly(operands: seq<Operand>, ops: seq<string>, s: Chain, outcome: bool)
    requires |operands| == |ops| + 1
    ensures Describes(Narrow(operands, ops, s, outcome), s, Facts(CheckTree(operands, ops), outcome))
  {
    CheckTreeSplits(operands, ops);
    NarrowDescribes(CheckTree(operands, ops), operands, ops, s, outcome);
  }

  // ---- Soundness ----

  lemma {:induction false} StripKeepsValues(sem: Semantics, v: Value, t: Type, n: nat)
    requires HasType(sem, v, t) && v != Nil
    ensures HasType(sem, v, Strip(t, n))
  {
    if n > 0 && IsOption(t) {
      StripKeepsValues(sem, v, t.args[0], n - 1);
    }
  }

  // The narrowings of a condition hold in every store in which the condition
  // comes out that way.
  ghost predicate SoundOn(t: Tree<Operand>, m: Narrowings, s: seq<Scope>, outcome: bool) {
    forall sem, store :: Respects(sem, store, s) && Eval(sem, t, store) == Some(Bool(outcome)) ==>
      Respects(sem, store, Narrowed(s, m))
  }

  lemma DescribedIsSound(t: Tree<Operand>, m: Narrowings, s: Chain, outcome: bool)
    requires Describes(m, s, Facts(t, outcome))
    ensures SoundOn(t, m, s, outcome)
  {
    hide Facts, Eval, Visible, HasType, Narrowed;
    var facts := Facts(t, outcome);
    forall sem, store | Respects(sem, store, s) && Eval(sem, t, store) == Some(Bool(outcome))
      ensures Respects(sem, store, Narrowed(s, m))
    {
      forall x | Visible(Narrowed(s, m), x).Some?
        ensures HasType(sem, store(x), Visible(Narrowed(s, m), x).value)
      {
        NarrowedLookups(s, m, x);
        if x in m {
          assert DescribesAt(m, s, facts, x);
          FactsHold(sem, t, store, outcome, x);
          StripKeepsValues(sem, store(x), Visible(s, x).value, Count(facts, x));
        }
      }
    }
  }

  // The then-branch, the else-branch and the right side of a logical operator
  // see only types that their variables have.
  lemma NarrowingSound(operands: seq<Operand>, ops: seq<string>, s: Chain, outcome: bool)
    requires |operands| == |ops| + 1
    ensures SoundOn(CheckTree(operands, ops), Narrow(operands, ops, s, outcome), s, outcome)
  {
    NarrowsExactly(operands, ops, s, outcome);
    DescribedIsSound(CheckTree(operands, ops), Narrow(operands, ops, s, outcome), s, outcome);
  }

  // ---- The tree that FromExpr builds ----

  // An operator that FromExpr puts below the logical ones.
  ghost predicate HasLoose(ops: seq<string>) {
    exists j :: 0 <= j < |ops| && AstRank(ops[j]) == 0
  }

  lemma AstSplitIsLoosest(ops: seq<string>)
    requires !HasLoose(ops) && SplitPoint(ops) < |ops|
    ensures IsLoosest(AstTable(), ops, SplitPoint(ops))
  {
    hide SplitPoint;
    SplitPointIs(ops);
    forall j | 0 <= j < |ops|
      ensures AstTable()(ops[j]) >= (if "||" in ops then 1 else 2)
      ensures j > SplitPoint(ops) ==> AstTable()(ops[j]) > (if "||" in ops then 1 else 2)
    {
      assert ops[j] in ops && AstRank(ops[j]) != 0;
    }
  }

  lemma {:induction false} AstTreeSplits(operands: seq<Operand>, ops: seq<string>)
    requires |operands| == |ops| + 1 && !HasLoose(ops)
    ensures Splits(Build(AstTable(), operands, ops), operands, ops)
    decreases |ops|
  {
    hide SplitPoint, Build, AstTable, AstRank;
    var k := SplitPoint(ops);
    if k < |ops| {
      AstSplitIsLoosest(ops);
      BuildSplit(AstTable(), operands, ops, k);
      AstTreeSplits(operands[..k + 1], ops[..k]);
      AstTreeSplits(operands[k + 1..], ops[k + 1..]);
    }
  }

  lemma LooseIsRoot(operands: seq<Operand>, ops: seq<string>)
    requires |operands| == |ops| + 1 && HasLoose(ops)
    ensures ops != []
    ensures var t, k := Build(AstTable(), operands, ops), Loosest(AstTable(), ops);
      t.Node? && t.op == ops[k] && AstRank(ops[k]) == 0
  {
    hide Build, AstRank;
    BuildSplit(AstTable(), operands, ops, Loosest(AstTable(), ops));
  }

  // Arithmetic and set operators never come out as a boolean.
  ghost predicate Typed(sem: Semantics) {
    forall op, a, b :: ClassOf(op) in {Mul, Add, SetOp} && sem.apply(op, a, b).Some? ==>
      !sem.apply(op, a, b).value.Bool?
  }

  ghost predicate SoundTyped(t: Tree<Operand>, m: Narrowings, s: seq<Scope>, outcome: bool) {
    forall sem, store :: Typed(sem) && Respects(sem, store, s) && Eval(sem, t, store) == Some(Bool(outcome)) ==>
      Respects(sem, store, Narrowed(s, m))
  }

  // Every variable that the facts name has more option layers than that.
  predicate StayOptions(facts: seq<string>, s: seq<Scope>) {
    forall x | x in facts && Visible(s, x).Some? && IsOption(Visible(s, x).value) ::
      IsOption(Strip(Visible(s, x).value, Count(facts, x)))
  }

  lemma StayOptionsIff(m: Narrowings, facts: seq<string>, s: seq<Scope>)
    requires Describes(m, s, facts)
    ensures StayOptions(facts, s) <==> forall x <- m :: IsOption(m[x])
  {
    hide Visible, Strip, Count;
    forall x | x in facts || x in m ensures DescribesAt(m, s, facts, x) {
    }
  }

  // Read as the tree that FromExpr builds, the narrowings are right exactly when
  // the chain has no operator that this tree puts below `||` and `&&`, when the
  // loosest one is a set operator, so that the chain is no condition, or when
  // the facts leave every type an option.
  lemma AstNarrowingSoundIff(operands: seq<Operand>, ops: seq<string>, s: Chain, outcome: bool)
    requires |operands| == |ops| + 1
    ensures SoundTyped(Build(AstTable(), operands, ops), Narrow(operands, ops, s, outcome), s, outcome) <==>
      || !HasLoose(ops)
      || (ops != [] && ClassOf(ops[Loosest(AstTable(), ops)]) == SetOp)
      || StayOptions(Facts(CheckTree(operands, ops), outcome), s)
    ensures !HasLoose(ops) || StayOptions(Facts(CheckTree(operands, ops), outcome), s) ==>
      SoundOn(Build(AstTable(), operands, ops), Narrow(operands, ops, s, outcome), s, outcome)
  {
    hide Build, Narrow, Facts, SoundOn, SoundTyped, StayOptions;
    hide AstTable, AstRank, HasLoose, CheckTree, ClassOf, Loosest;
    var m, facts := Narrow(operands, ops, s, outcome), Facts(CheckTree(operands, ops), outcome);
    var t := Build(AstTable(), operands, ops);
    NarrowsExactly(operands, ops, s, outcome);
    StayOptionsIff(m, facts, s);
    if !HasLoose(ops) {
      AstTreeSplits(operands, ops);
      NarrowDescribes(t, operands, ops, s, outcome);
      DescribedIsSound(t, m, s, outcome);
      SoundIsTyped(t, m, s, outcome);
    } else {
      LooseIsRoot(operands, ops);
      if StayOptions(facts, s) {
        OptionsSound(t, m, s, facts, outcome);
        SoundIsTyped(t, m, s, outcome);
      } else if ClassOf(t.op) == SetOp {
        NoCondition(t, m, s, outcome);
      } else {
        var x :| x in m && !IsOption(m[x]);
        LooseUnsound(t, m, s, facts, outcome, x);
      }
    }
  }

  lemma SoundIsTyped(t: Tree<Operand>, m: Narrowings, s: seq<Scope>, outcome: bool)
    requires SoundOn(t, m, s, outcome)
    ensures SoundTyped(t, m, s, outcome)
  {
    hide Respects, Eval, Narrowed, Typed;
  }

  lemma NoCondition(t: Tree<Operand>, m: Narrowings, s: seq<Scope>, outcome: bool)
    requires t.Node? && AstRank(t.op) == 0 && ClassOf(t.op) == SetOp
    ensures SoundTyped(t, m, s, outcome)
  {
    hide Respects, Narrowed, AstRank, ClassOf;
    LooseOperator(t.op);
  }

  // A store in which every option is `none`, and a loosest operator that comes
  // out as it likes.
  lemma LooseUnsound(t: Tree<Operand>, m: Narrowings, s: Chain, facts: seq<string>, outcome: bool, x: string)
    requires t.Node? && AstRank(t.op) == 0 && ClassOf(t.op) != SetOp
    requires Describes(m, s, facts) && x in m && !IsOption(m[x])
    ensures !SoundTyped(t, m, s, outcome)
  {
    hide Narrowed, Visible, AstRank, ClassOf;
    LooseOperator(t.op);
    var apply := (op: string, a: Option<Value>, b: Option<Value>) =>
      Some(if ClassOf(op) in {Mul, Add, SetOp} then Nil else Bool(outcome));
    var sem := Semantics((_, _) => Some(Nil), apply, (v, _) => v != Nil);
    var store := y => if Visible(s, y).Some? && IsOption(Visible(s, y).value) then Nil else Bool(true);
    assert Typed(sem);
    assert Eval(sem, t, store) == Some(Bool(outcome));
    assert Respects(sem, store, s);
    assert DescribesAt(m, s, facts, x);
    NarrowedLookups(s, m, x);
    assert !HasType(sem, store(x), Visible(Narrowed(s, m), x).value);
    assert !Respects(sem, store, Narrowed(s, m));
  }

  lemma LooseOperator(op: string)
    requires AstRank(op) == 0
    ensures op !in ["&&", "||", "==", "!="] && ClassOf(op) in {Coalesce, SetOp, Class.Other}
  {
  }

  lemma OptionsSound(t: Tree<Operand>, m: Narrowings, s: Chain, facts: seq<string>, outcome: bool)
    requires Describes(m, s, facts) && forall x <- m :: IsOption(m[x])
    ensures SoundOn(t, m, s, outcome)
  {
    hide Eval, Visible, Narrowed;
    forall sem, store | Respects(sem, store, s) && Eval(sem, t, store) == Some(Bool(outcome))
      ensures Respects(sem, store, Narrowed(s, m))
    {
      forall x | Visible(Narrowed(s, m), x).Some?
        ensures HasType(sem, store(x), Visible(Narrowed(s, m), x).value)
      {
        NarrowedLookups(s, m, x);
        if x in m && store(x) != Nil {
          assert DescribesAt(m, s, facts, x);
          StripKeepsValues(sem, store(x), Visible(s, x).value, Count(facts, x));
        }
      }
    }
  }

  // ---- The environments after the store has changed ----

  ghost predicate RespectsDeclared(sem: Semantics, store: Store, s: Chain) {
    forall x | Declared(s, x).Some? :: HasType(sem, store(x), Declared(s, x).value)
  }

  // A closure body may run in any store that respects the declared types.
  lemma ClosureBoundarySound(sem: Semantics, store: Store, s: Chain)
    requires Grounded(s)
    ensures Respects(sem, store, BoundaryChain(s)) <==> RespectsDeclared(sem, store, s)
  {
    hide HasType, BoundaryChain, Declared, Visible;
    forall x ensures Visible(BoundaryChain(s), x) == Declared(s, x) {
      BoundaryShowsDeclaredIff(s, x);
    }
  }

  // An impure call may assign the variables; the constants keep their values,
  // and so their narrowings.
  lemma DropSound(sem: Semantics, store: Store, after: Store, s: Chain)
    requires Grounded(s) && forall x <- s[0].narrowed :: !IsVar(s, x)
    requires Respects(sem, store, s) && RespectsDeclared(sem, after, s)
    requires forall x | !IsVar(s, x) :: after(x) == store(x)
    ensures Respects(sem, after, Dropped(s, MarkedNames(s)))
  {
    hide HasType, Dropped, MarkedNames;
    var t := Dropped(s, MarkedNames(s));
    forall x | Visible(t, x).Some?
      ensures HasType(sem, after(x), Visible(t, x).value)
    {
      DropShowsDeclared(s, x);
      GroundedHasDeclaration(s, x);
      if !Marked(s, x) {
        DeclaredUnmarked(s, x);
      }
    }
  }

  // a ?? b && x != none: narrowed to the element type of x, although the left
  // side of `??` alone may decide the condition.
  lemma CoalesceExample(elem: Type)
    requires !IsOption(elem)
    ensures var operands := [Ident("a"), Ident("b"), Ident("x"), NoneLiteral];
      var ops := ["??", "&&", "!="];
      var s: Chain := [Scope(map["x" := Types.Comp(Types.Option, [elem])], map[], {})];
      && Narrow(operands, ops, s, true) == map["x" := elem]
      && !SoundTyped(Build(AstTable(), operands, ops), Narrow(operands, ops, s, true), s, true)
  {
    hide *;
    hide Facts;
    var operands, ops := [Ident("a"), Ident("b"), Ident("x"), NoneLiteral], ["??", "&&", "!="];
    var s: Chain := [Scope(map["x" := Types.Comp(Types.Option, [elem])], map[], {})];
    var m := Narrow(operands, ops, s, true);
    CoalesceNarrows(elem);
    assert "x" in m;
    NarrowsExactly(operands, ops, s, true);
    StayOptionsIff(m, Facts(CheckTree(operands, ops), true), s);
    CoalesceIsLoose();
    AstNarrowingSoundIff(operands, ops, s, true);
  }

  lemma CoalesceNarrows(elem: Type)
    ensures var s: Chain := [Scope(map["x" := Types.Comp(Types.Option, [elem])], map[], {})];
      Narrow([Ident("a"), Ident("b"), Ident("x"), NoneLiteral], ["??", "&&", "!="], s, true) == map["x" := elem]
  {
    var operands, ops := [Ident("a"), Ident("b"), Ident("x"), NoneLiteral], ["??", "&&", "!="];
    var s: Chain := [Scope(map["x" := Types.Comp(Types.Option, [elem])], map[], {})];
    assert ops[2..] == ["!="] && ops[..1] == ["??"];
    assert LastIndex(ops, "&&") == 1;
    assert Narrow(operands[..2], ops[..1], s, true) == map[];
  }

  lemma CoalesceIsLoose()
    ensures var ops := ["??", "&&", "!="]; HasLoose(ops) && ClassOf(ops[Loosest(AstTable(), ops)]) == Coalesce
  {
    var ops := ["??", "&&", "!="];
    assert AstRank(ops[0]) == 0;
    var k := Loosest(AstTable(), ops);
    assert k == 0;
  }
}
