// Operator precedence, computed three ways: the operator stack of FromExpr
// (ast/convert.go), the in-place collapse level by level of inferBinaryType and
// checkBinaryExpr (types/infer.go, types/check_expr.go), and the split at the
// rightmost logical operator of checkBinaryExpr.
//
// A parsed binary expression is a chain: operands with one operator between
// each two neighbours. A table gives every operator a number; larger binds
// tighter.
module Precedence {
  import opened Options
  import opened Sequences

  datatype Tree<A> = Leaf(value: A) | Node(op: string, left: Tree<A>, right: Tree<A>)

  type Table = string -> nat

  // k is the rightmost of the loosest operators: the root of the tree.
  ghost predicate IsLoosest(table: Table, ops: seq<string>, k: nat) {
    && k < |ops|
    && (forall j | 0 <= j < k :: table(ops[j]) >= table(ops[k]))
    && (forall j | k < j < |ops| :: table(ops[j]) > table(ops[k]))
  }

  function Loosest(table: Table, ops: seq<string>): (k: nat)
    requires ops != []
    ensures k < |ops| && IsLoosest(table, ops, k)
  {
    var n := |ops| - 1;
    if n == 0 then 0
    else
      var k := Loosest(table, ops[..n]);
      if table(ops[n]) <= table(ops[k]) then n else k
  }

  lemma LoosestUnique(table: Table, ops: seq<string>, j: nat, k: nat)
    requires IsLoosest(table, ops, j) && IsLoosest(table, ops, k)
    ensures j == k
  {
    var a, b := table(ops[j]), table(ops[k]);
  }

  // The tree of a chain whose operands are trees already.
  function Join<A>(table: Table, ts: seq<Tree<A>>, ops: seq<string>): Tree<A>
    requires |ts| == |ops| + 1
    decreases |ops|
  {
    if ops == [] then ts[0]
    else
      var k := Loosest(table, ops);
      Node(ops[k], Join(table, ts[..k + 1], ops[..k]), Join(table, ts[k + 1..], ops[k + 1..]))
  }

  lemma JoinSplit<A>(table: Table, ts: seq<Tree<A>>, ops: seq<string>, k: nat)
    requires |ts| == |ops| + 1 && k < |ops| && IsLoosest(table, ops, k)
    ensures Join(table, ts, ops) ==
      Node(ops[k], Join(table, ts[..k + 1], ops[..k]), Join(table, ts[k + 1..], ops[k + 1..]))
  {
    hide IsLoosest, Loosest;
    LoosestUnique(table, ops, Loosest(table, ops), k);
  }

  lemma JoinSingle<A>(table: Table, ts: seq<Tree<A>>)
    requires |ts| == 1
    ensures Join(table, ts, []) == ts[0]
  {
  }

  function Leaves<A>(operands: seq<A>): seq<Tree<A>> {
    seq(|operands|, i requires 0 <= i < |operands| => Leaf(operands[i]))
  }

  // The tree of a chain.
  function Build<A>(table: Table, operands: seq<A>, ops: seq<string>): Tree<A>
    requires |operands| == |ops| + 1
  {
    Join(table, Leaves(operands), ops)
  }

  // ---- An independent description of the tree ----

  function Operands<A>(t: Tree<A>): seq<A> {
    match t
    case Leaf(v) => [v]
    case Node(_, l, r) => Operands(l) + Operands(r)
  }

  function Operators<A>(t: Tree<A>): (ops: seq<string>)
    ensures |Operands(t)| == |ops| + 1
  {
    match t
    case Leaf(_) => []
    case Node(op, l, r) => Operators(l) + [op] + Operators(r)
  }

  // Every operator has, on its left, only operators that bind at least as tight
  // and, on its right, only operators that bind tighter.
  ghost predicate LeftAssociative<A>(table: Table, t: Tree<A>) {
    match t
    case Leaf(_) => true
    case Node(op, l, r) =>
      && LeftAssociative(table, l) && LeftAssociative(table, r)
      && (forall o <- Operators(l) :: table(o) >= table(op))
      && (forall o <- Operators(r) :: table(o) > table(op))
  }

  lemma BuildSingle<A>(table: Table, operands: seq<A>)
    ensures |operands| == 1 ==> Build(table, operands, []) == Leaf(operands[0])
  {
  }

  lemma {:induction false} BuildReadsAsChain<A>(table: Table, operands: seq<A>, ops: seq<string>)
    requires |operands| == |ops| + 1
    ensures var t := Build(table, operands, ops);
      Operands(t) == operands && Operators(t) == ops && LeftAssociative(table, t)
    decreases |ops|
  {
    hide *;
    if ops == [] {
      LeafReads(table, operands);
    } else {
      var k := Loosest(table, ops);
      var l, r := Build(table, operands[..k + 1], ops[..k]), Build(table, operands[k + 1..], ops[k + 1..]);
      BuildSplit(table, operands, ops, k);
      BuildReadsAsChain(table, operands[..k + 1], ops[..k]);
      BuildReadsAsChain(table, operands[k + 1..], ops[k + 1..]);
      assert operands == operands[..k + 1] + operands[k + 1..];
      assert ops == ops[..k] + [ops[k]] + ops[k + 1..];
      NodeReads(table, ops[k], l, r);
    }
  }

  lemma LeafReads<A>(table: Table, operands: seq<A>)
    requires |operands| == 1
    ensures var t := Build(table, operands, []);
      Operands(t) == operands && Operators(t) == [] && LeftAssociative(table, t)
  {
    BuildSingle(table, operands);
  }

  // A tree is left-associative if both sides are and its root is loosest.
  lemma NodeReads<A>(table: Table, op: string, l: Tree<A>, r: Tree<A>)
    ensures var t, ops := Node(op, l, r), Operators(l) + [op] + Operators(r);
      && Operands(t) == Operands(l) + Operands(r) && Operators(t) == ops
      && (LeftAssociative(table, t) <==>
        LeftAssociative(table, l) && LeftAssociative(table, r) && IsLoosest(table, ops, |Operators(l)|))
  {
    var a, b := Operators(l), Operators(r);
    LoosestBetween(table, a, op, b);
    assert LeftAssociative(table, Node(op, l, r)) <==>
      && LeftAssociative(table, l) && LeftAssociative(table, r)
      && (forall o <- a :: table(o) >= table(op))
      && (forall o <- b :: table(o) > table(op));
  }

  lemma LoosestBetween(table: Table, a: seq<string>, op: string, b: seq<string>)
    ensures IsLoosest(table, a + [op] + b, |a|) <==>
      (forall o <- a :: table(o) >= table(op)) && (forall o <- b :: table(o) > table(op))
  {
    var ops := a + [op] + b;
    if IsLoosest(table, ops, |a|) {
      forall o | o in a ensures table(o) >= table(op) {
        var j :| 0 <= j < |a| && a[j] == o;
        assert ops[j] == o;
      }
      forall o | o in b ensures table(o) > table(op) {
        var j :| 0 <= j < |b| && b[j] == o;
        assert ops[|a| + 1 + j] == o;
      }
    }
    if (forall o <- a :: table(o) >= table(op)) && (forall o <- b :: table(o) > table(op)) {
      forall j | 0 <= j < |a| ensures table(ops[j]) >= table(op) {
        assert ops[j] == a[j] && a[j] in a;
      }
      forall j | |a| < j < |ops| ensures table(ops[j]) > table(op) {
        assert ops[j] == b[j - |a| - 1] && ops[j] in b;
      }
    }
  }

  lemma {:induction false} LeftAssociativeIsBuild<A>(table: Table, t: Tree<A>)
    requires LeftAssociative(table, t)
    ensures t == Build(table, Operands(t), Operators(t))
  {
    hide *;
    match t
    case Leaf(v) =>
      LeafTree(v);
      BuildSingle(table, [v]);
    case Node(op, l, r) =>
      var k := |Operators(l)|;
      NodeReads(table, op, l, r);
      BuildSplit(table, Operands(t), Operators(t), k);
      LeftAssociativeIsBuild(table, l);
      LeftAssociativeIsBuild(table, r);
      assert Operands(t)[..k + 1] == Operands(l) && Operands(t)[k + 1..] == Operands(r);
      assert Operators(t)[..k] == Operators(l) && Operators(t)[k + 1..] == Operators(r);
  }

  lemma LeafTree<A>(v: A)
    ensures Operands(Leaf(v)) == [v] && Operators(Leaf(v)) == []
  {
  }

  // Build reads in order as the chain, is left-associative under the table, and
  // is the only such tree.
  lemma BuildIsTheTree<A>(table: Table, operands: seq<A>, ops: seq<string>, t: Tree<A>)
    requires |operands| == |ops| + 1
    ensures t == Build(table, operands, ops) <==>
      Operands(t) == operands && Operators(t) == ops && LeftAssociative(table, t)
  {
    BuildReadsAsChain(table, operands, ops);
    if LeftAssociative(table, t) {
      LeftAssociativeIsBuild(table, t);
    }
  }

  // The tree splits at any operator that is the rightmost loosest one.
  lemma BuildSplit<A>(table: Table, operands: seq<A>, ops: seq<string>, k: nat)
    requires |operands| == |ops| + 1 && k < |ops| && IsLoosest(table, ops, k)
    ensures Build(table, operands, ops) ==
      Node(ops[k], Build(table, operands[..k + 1], ops[..k]), Build(table, operands[k + 1..], ops[k + 1..]))
  {
    hide Join, IsLoosest;
    JoinSplit(table, Leaves(operands), ops, k);
    LeavesSplit(operands, k + 1);
  }

  lemma LeavesSplit<A>(operands: seq<A>, k: nat)
    requires k <= |operands|
    ensures Leaves(operands)[..k] == Leaves(operands[..k]) && Leaves(operands)[k..] == Leaves(operands[k..])
  {
  }

  // ---- Collapsing one operator in place ----

  // An operator that binds tighter than its left neighbour and at least as
  // tight as its right neighbour.
  ghost predicate Peak(table: Table, ops: seq<string>, k: nat) {
    && k < |ops|
    && (k > 0 ==> table(ops[k - 1]) < table(ops[k]))
    && (k + 1 < |ops| ==> table(ops[k + 1]) <= table(ops[k]))
  }

  function CollapsedTrees<A>(ts: seq<Tree<A>>, ops: seq<string>, k: nat): (ts': seq<Tree<A>>)
    requires k < |ops| && |ts| == |ops| + 1
    ensures |ts'| == |ts| - 1
  {
    ts[..k] + [Node(ops[k], ts[k], ts[k + 1])] + ts[k + 2..]
  }

  function Without(ops: seq<string>, k: nat): (ops': seq<string>)
    requires k < |ops|
    ensures |ops'| == |ops| - 1
  {
    ops[..k] + ops[k + 1..]
  }

  // Where the loosest operator is once a peak has been taken out.
  lemma LoosestWithout(table: Table, ops: seq<string>, k: nat, m: nat)
    requires Peak(table, ops, k) && IsLoosest(table, ops, m)
    ensures m == k ==> |ops| == 1
    ensures m != k ==> IsLoosest(table, Without(ops, k), if m < k then m else m - 1)
    ensures m < k ==> Peak(table, ops[m + 1..], k - m - 1)
    ensures k < m ==> Peak(table, ops[..m], k)
  {
    var ops' := Without(ops, k);
    assert forall j | 0 <= j < |ops'| :: ops'[j] == ops[if j < k then j else j + 1];
    var a := if k > 0 then table(ops[k - 1]) else 0;
    var b := if k + 1 < |ops| then table(ops[k + 1]) else 0;
  }

  // Collapsing a peak does not change the tree of the chain.
  lemma {:induction false} CollapsePeak<A>(table: Table, ts: seq<Tree<A>>, ops: seq<string>, k: nat)
    requires |ts| == |ops| + 1 && k < |ops| && Peak(table, ops, k)
    ensures Join(table, CollapsedTrees(ts, ops, k), Without(ops, k)) == Join(table, ts, ops)
    decreases |ops|
  {
    hide *;
    var ts', ops' := CollapsedTrees(ts, ops, k), Without(ops, k);
    var m := Loosest(table, ops);
    JoinSplit(table, ts, ops, m);
    LoosestWithout(table, ops, k, m);
    if m < k {
      JoinSplit(table, ts', ops', m);
      CollapsePeak(table, ts[m + 1..], ops[m + 1..], k - m - 1);
      CollapseRight(ts, ops, k, m);
    } else if k < m {
      JoinSplit(table, ts', ops', m - 1);
      CollapsePeak(table, ts[..m + 1], ops[..m], k);
      CollapseLeft(ts, ops, k, m);
    } else {
      CollapseOnly(table, ts, ops);
    }
  }

  lemma CollapseOnly<A>(table: Table, ts: seq<Tree<A>>, ops: seq<string>)
    requires |ts| == 2 && |ops| == 1
    ensures Join(table, CollapsedTrees(ts, ops, 0), Without(ops, 0)) == Join(table, ts, ops)
  {
    assert CollapsedTrees(ts, ops, 0) == [Node(ops[0], ts[0], ts[1])];
    assert Without(ops, 0) == [];
  }

  lemma CollapseRight<A>(ts: seq<Tree<A>>, ops: seq<string>, k: nat, m: nat)
    requires |ts| == |ops| + 1 && m < k < |ops|
    ensures var ts', ops' := CollapsedTrees(ts, ops, k), Without(ops, k);
      && ops'[m] == ops[m] && ts'[..m + 1] == ts[..m + 1] && ops'[..m] == ops[..m]
      && ts'[m + 1..] == CollapsedTrees(ts[m + 1..], ops[m + 1..], k - m - 1)
      && ops'[m + 1..] == Without(ops[m + 1..], k - m - 1)
  {
  }

  lemma CollapseLeft<A>(ts: seq<Tree<A>>, ops: seq<string>, k: nat, m: nat)
    requires |ts| == |ops| + 1 && k < m < |ops|
    ensures var ts', ops' := CollapsedTrees(ts, ops, k), Without(ops, k);
      && ops'[m - 1] == ops[m] && ts'[m..] == ts[m + 1..] && ops'[m..] == ops[m + 1..]
      && ts'[..m] == CollapsedTrees(ts[..m + 1], ops[..m], k)
      && ops'[..m - 1] == Without(ops[..m], k)
  {
  }

  // ---- FromExpr: the operator stack ----

  // The operators on the stack bind tighter from bottom to top.
  ghost predicate Rising(table: Table, stack: seq<string>) {
    forall i, j | 0 <= i < j < |stack| :: table(stack[i]) < table(stack[j])
  }

  // The closure `reduce` of FromExpr: pops every operator that binds at least
  // as tight as p. What is still to come does not see the difference.
  method Reduce<A>(table: Table, p: nat, operands: seq<Tree<A>>, ops: seq<string>,
                   ghost restOperands: seq<Tree<A>>, ghost restOps: seq<string>)
    returns (operands': seq<Tree<A>>, ops': seq<string>)
    requires |operands| == |ops| + 1 && Rising(table, ops)
    requires |restOperands| == |restOps| && (restOps != [] ==> table(restOps[0]) <= p)
    ensures |operands'| == |ops'| + 1 && Rising(table, ops')
    ensures forall op <- ops' :: table(op) < p
    ensures p == 0 ==> ops' == []
    ensures Join(table, operands' + restOperands, ops' + restOps) == Join(table, operands + restOperands, ops + restOps)
  {
    hide Join;
    operands', ops' := operands, ops;
    while |ops'| > 0 && table(ops'[|ops'| - 1]) >= p
      invariant |operands'| == |ops'| + 1 && Rising(table, ops')
      invariant Join(table, operands' + restOperands, ops' + restOps) ==
        Join(table, operands + restOperands, ops + restOps)
      decreases |ops'|
    {
      ghost var ts, os, k := operands' + restOperands, ops' + restOps, |ops'| - 1;
      CollapsePeak(table, ts, os, k);
      var op, left, right := ops'[|ops'| - 1], operands'[|operands'| - 2], operands'[|operands'| - 1];
      ops' := ops'[..|ops'| - 1];
      operands' := operands'[..|operands'| - 2] + [Node(op, left, right)];
      assert operands' + restOperands == CollapsedTrees(ts, os, k);
      assert ops' + restOps == Without(os, k);
    }
  }

  lemma RisingEmpty(table: Table)
    ensures Rising(table, [])
  {
  }

  lemma RisingPush(table: Table, stack: seq<string>, op: string)
    requires Rising(table, stack) && forall o <- stack :: table(o) < table(op)
    ensures Rising(table, stack + [op])
  {
  }

  // FromExpr on a chain.
  method FromExpr<A>(table: Table, operands: seq<A>, ops: seq<string>) returns (t: Tree<A>)
    requires |operands| == |ops| + 1
    ensures t == Build(table, operands, ops)
  {
    hide Join, Rising;
    RisingEmpty(table);
    var stack, opStack := [Leaf(operands[0])], [];
    ghost var leaves := Leaves(operands);
    assert stack + leaves[1..] == leaves;
    assert opStack + ops == ops;
    for i := 0 to |ops|
      invariant |stack| == |opStack| + 1 && Rising(table, opStack)
      invariant Join(table, stack + leaves[i + 1..], opStack + ops[i..]) == Join(table, leaves, ops)
    {
      stack, opStack := Reduce(table, table(ops[i]), stack, opStack, leaves[i + 1..], ops[i..]);
      RisingPush(table, opStack, ops[i]);
      MoveOne(stack, leaves, i + 1);
      MoveOne(opStack, ops, i);
      stack := stack + [Leaf(operands[i + 1])];
      opStack := opStack + [ops[i]];
    }
    assert stack + leaves[|ops| + 1..] == stack && opStack + ops[|ops|..] == opStack;
    stack, opStack := Reduce(table, 0, stack, opStack, [], []);
    assert stack + [] == stack && opStack + [] == opStack;
    JoinSingle(table, stack);
    t := stack[0];
  }

  // ---- The level-by-level collapse ----

  // The table that a list of levels stands for, tightest level first. An
  // operator in no level gets 0.
  function LevelTable(levels: seq<seq<string>>): Table {
    op => LevelRank(levels, op)
  }

  function LevelRank(levels: seq<seq<string>>, op: string): nat {
    if levels == [] then 0 else if op in levels[0] then |levels| else LevelRank(levels[1..], op)
  }

  lemma {:induction false} LevelRankBounds(levels: seq<seq<string>>, l: nat, op: string)
    requires l <= |levels| && forall i | 0 <= i < l :: op !in levels[i]
    ensures LevelRank(levels, op) <= |levels| - l
    ensures l < |levels| && op in levels[l] ==> LevelRank(levels, op) == |levels| - l
    ensures LevelRank(levels, op) == 0 <==> forall i | 0 <= i < |levels| :: op !in levels[i]
    decreases |levels|
  {
    if levels != [] {
      LevelRankBounds(levels[1..], if l == 0 then 0 else l - 1, op);
      if op !in levels[0] {
        assert (forall i | 0 <= i < |levels| :: op !in levels[i]) <==>
          forall i | 0 <= i < |levels[1..]| :: op !in levels[1..][i];
      }
    }
  }

  // The value of a tree under an operation that may fail.
  function Fold<V>(f: (string, V, V) -> Option<V>, t: Tree<V>): Option<V> {
    match t
    case Leaf(v) => Some(v)
    case Node(op, l, r) =>
      match (Fold(f, l), Fold(f, r))
      case (Some(a), Some(b)) => f(op, a, b)
      case _ => None
  }

  // A failing operand makes the whole chain fail.
  lemma {:induction false} FailurePropagates<V>(f: (string, V, V) -> Option<V>, table: Table,
                                                ts: seq<Tree<V>>, ops: seq<string>, i: nat)
    requires |ts| == |ops| + 1 && i < |ts| && Fold(f, ts[i]).None?
    ensures Fold(f, Join(table, ts, ops)).None?
    decreases |ops|
  {
    hide Join, Fold, IsLoosest;
    if ops == [] {
      JoinSingle(table, ts);
    } else {
      var k := Loosest(table, ops);
      var l, r := Join(table, ts[..k + 1], ops[..k]), Join(table, ts[k + 1..], ops[k + 1..]);
      JoinSplit(table, ts, ops, k);
      FailingSide(f, ops[k], l, r);
      if i <= k {
        assert ts[..k + 1][i] == ts[i];
        FailurePropagates(f, table, ts[..k + 1], ops[..k], i);
      } else {
        assert ts[k + 1..][i - k - 1] == ts[i];
        FailurePropagates(f, table, ts[k + 1..], ops[k + 1..], i - k - 1);
      }
    }
  }

  lemma FailingSide<V>(f: (string, V, V) -> Option<V>, op: string, l: Tree<V>, r: Tree<V>)
    ensures Fold(f, l).None? || Fold(f, r).None? ==> Fold(f, Node(op, l, r)).None?
  {
  }

  ghost predicate Listed(levels: seq<seq<string>>, op: string) {
    exists level <- levels :: op in level
  }

  // The operands are the values of the trees.
  ghost predicate Values<V>(f: (string, V, V) -> Option<V>, ts: seq<Tree<V>>, operands: seq<V>) {
    |ts| == |operands| && forall j | 0 <= j < |ts| :: Fold(f, ts[j]) == Some(operands[j])
  }

  // No operator of the first l levels is left, and only listed ones are gone.
  ghost predicate LevelsDone(levels: seq<seq<string>>, l: nat, ops0: seq<string>, ops: seq<string>) {
    && l <= |levels|
    && (forall op <- ops, k | 0 <= k < l :: op !in levels[k])
    && (forall op <- ops :: op in ops0)
    && (forall op <- ops0 :: Listed(levels, op) || op in ops)
  }

  // The shared loop of inferBinaryType and checkBinaryExpr: level by level, the
  // operators of the level are applied from the left and spliced out. None
  // stands for an error of the operation, or for operators left at the end.
  method CollapseByLevel<V>(levels: seq<seq<string>>, f: (string, V, V) -> Option<V>,
                            operands0: seq<V>, ops0: seq<string>)
    returns (r: Option<V>)
    requires |operands0| == |ops0| + 1
    ensures (forall op <- ops0 :: Listed(levels, op)) ==> r == Fold(f, Build(LevelTable(levels), operands0, ops0))
    ensures (exists op <- ops0 :: !Listed(levels, op)) ==> r == None
  {
    hide Join, LevelTable, Fold;
    var operands, ops := operands0, ops0;
    ghost var table := LevelTable(levels);
    ghost var ts := Leaves(operands0);
    LeafValues(f, operands0);
    for l := 0 to |levels|
      invariant |operands| == |ops| + 1 && Values(f, ts, operands)
      invariant Join(table, ts, ops) == Build(table, operands0, ops0)
      invariant LevelsDone(levels, l, ops0, ops)
    {
      var i := 0;
      while i < |ops|
        invariant i <= |ops| && |operands| == |ops| + 1 && Values(f, ts, operands)
        invariant Join(table, ts, ops) == Build(table, operands0, ops0)
        invariant LevelsDone(levels, l, ops0, ops)
        invariant forall j | 0 <= j < i :: ops[j] !in levels[l]
        decreases |ops| - i
      {
        if ops[i] in levels[l] {
          PeakOfLevel(levels, l, ops, i);
          CollapsePeak(table, ts, ops, i);
          var res := f(ops[i], operands[i], operands[i + 1]);
          CollapsedValues(f, table, ts, operands, ops, i);
          CollapsedLevels(levels, l, ops0, ops, i);
          if res == None {
            return None;
          }
          ts := CollapsedTrees(ts, ops, i);
          operands := operands[..i] + [res.value] + operands[i + 2..];
          ops := ops[..i] + ops[i + 1..];
        } else {
          i := i + 1;
        }
      }
      LevelDone(levels, l, ops0, ops);
    }
    if |operands| != 1 {
      assert ops[0] in ops;
      return None;
    }
    JoinSingle(table, ts);
    return Some(operands[0]);
  }

  lemma LeafValues<V>(f: (string, V, V) -> Option<V>, operands: seq<V>)
    ensures Values(f, Leaves(operands), operands)
  {
  }

  // One application: either the whole chain fails, or the trees and the values
  // stay in step.
  lemma CollapsedValues<V>(f: (string, V, V) -> Option<V>, table: Table,
                           ts: seq<Tree<V>>, operands: seq<V>, ops: seq<string>, i: nat)
    requires i < |ops| && |ts| == |ops| + 1 && Values(f, ts, operands)
    ensures var res, ts' := f(ops[i], operands[i], operands[i + 1]), CollapsedTrees(ts, ops, i);
      if res == None then Fold(f, Join(table, ts', Without(ops, i))) == None
      else Values(f, ts', operands[..i] + [res.value] + operands[i + 2..])
  {
    var res, ts' := f(ops[i], operands[i], operands[i + 1]), CollapsedTrees(ts, ops, i);
    assert Fold(f, ts'[i]) == res;
    if res == None {
      FailurePropagates(f, table, ts', Without(ops, i), i);
    }
  }

  lemma CollapsedLevels(levels: seq<seq<string>>, l: nat, ops0: seq<string>, ops: seq<string>, i: nat)
    requires LevelsDone(levels, l, ops0, ops) && l < |levels| && i < |ops| && ops[i] in levels[l]
    ensures LevelsDone(levels, l, ops0, Without(ops, i))
  {
    assert Listed(levels, ops[i]);
    assert forall op <- Without(ops, i) :: op in ops;
    assert forall op <- ops :: op == ops[i] || op in Without(ops, i) by {
      forall op <- ops ensures op == ops[i] || op in Without(ops, i) {
        var j :| 0 <= j < |ops| && ops[j] == op;
        assert j < i ==> Without(ops, i)[j] == op;
        assert j > i ==> Without(ops, i)[j - 1] == op;
      }
    }
  }

  lemma LevelDone(levels: seq<seq<string>>, l: nat, ops0: seq<string>, ops: seq<string>)
    requires LevelsDone(levels, l, ops0, ops) && l < |levels|
    requires forall j | 0 <= j < |ops| :: ops[j] !in levels[l]
    ensures LevelsDone(levels, l + 1, ops0, ops)
  {
  }

  // The leftmost remaining operator of the tightest remaining level is a peak.
  lemma PeakOfLevel(levels: seq<seq<string>>, l: nat, ops: seq<string>, i: nat)
    requires l < |levels| && i < |ops| && ops[i] in levels[l]
    requires forall op <- ops, k | 0 <= k < l :: op !in levels[k]
    requires forall j | 0 <= j < i :: ops[j] !in levels[l]
    ensures Peak(LevelTable(levels), ops, i)
  {
    assert ops[i] in ops;
    LevelRankBounds(levels, l, ops[i]);
    if i > 0 {
      assert ops[i - 1] in ops;
      LevelRankBounds(levels, l + 1, ops[i - 1]);
    }
    if i + 1 < |ops| {
      assert ops[i + 1] in ops;
      LevelRankBounds(levels, l, ops[i + 1]);
    }
  }
}
