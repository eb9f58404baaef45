// The three operator tables of the front end, and where they agree: the switch
// of FromExpr (ast/convert.go), the levels of inferBinaryType (types/infer.go)
// and the levels and logical split of checkBinaryExpr (types/check_expr.go).
module OperatorTables {
  import opened Options
  import opened Precedence

  datatype Class = Mul | Add | Relational | Equality | And | Or | Coalesce | SetOp | Other

  function ClassOf(op: string): Class {
    if op in ["*", "/", "%"] then Mul
    else if op in ["+", "-"] then Add
    else if op in ["<", "<=", ">", ">="] then Relational
    else if op in ["==", "!=", "in"] then Equality
    else if op == "&&" then And
    else if op == "||" then Or
    else if op == "??" then Coalesce
    else if op in ["union", "union_all", "except", "intersect"] then SetOp
    else Other
  }

  // The closure `prec` of FromExpr. "union_all" and "??" fall to the default.
  function AstRank(op: string): nat {
    if op == "||" then 1
    else if op == "&&" then 2
    else if op in ["==", "!=", "<", "<=", ">", ">=", "in"] then 3
    else if op in ["+", "-", "union", "except", "intersect"] then 4
    else if op in ["*", "/", "%"] then 5
    else 0
  }

  const CHECK_LEVELS: seq<seq<string>> := [
    ["*", "/", "%"],
    ["+", "-"],
    ["<", "<=", ">", ">="],
    ["==", "!=", "in"],
    ["&&"],
    ["||"],
    ["??"],
    ["union", "union_all", "except", "intersect"]
  ]

  const INFER_LEVELS: seq<seq<string>> := [
    ["*", "/", "%"],
    ["+", "-"],
    ["<", "<=", ">", ">="],
    ["==", "!=", "in"],
    ["&&"],
    ["||"],
    ["union", "union_all", "except", "intersect"]
  ]

  function CheckRank(op: string): nat {
    match ClassOf(op)
    case Mul => 8
    case Add => 7
    case Relational => 6
    case Equality => 5
    case And => 4
    case Or => 3
    case Coalesce => 2
    case SetOp => 1
    case Other => 0
  }

  lemma CheckTable(op: string)
    ensures LevelTable(CHECK_LEVELS)(op) == CheckRank(op)
    ensures Listed(CHECK_LEVELS, op) <==> ClassOf(op) != Other
  {
    var l := 8 - CheckRank(op);
    assert forall i | 0 <= i < 8 :: op in CHECK_LEVELS[i] ==> i == l;
    LevelRankBounds(CHECK_LEVELS, l, op);
    if ClassOf(op) != Other {
      assert op in CHECK_LEVELS[l];
    }
  }

  lemma InferTable(op: string)
    ensures LevelTable(INFER_LEVELS)(op) ==
      if CheckRank(op) > 2 then CheckRank(op) - 1 else if CheckRank(op) == 1 then 1 else 0
    ensures Listed(INFER_LEVELS, op) <==> ClassOf(op) != Other && ClassOf(op) != Coalesce
  {
    var l := 7 - (if CheckRank(op) > 2 then CheckRank(op) - 1 else if CheckRank(op) == 1 then 1 else 0);
    assert forall i | 0 <= i < 7 :: op in INFER_LEVELS[i] ==> i == l;
    LevelRankBounds(INFER_LEVELS, l, op);
    if l < 7 {
      assert op in INFER_LEVELS[l];
    }
  }

  // ---- checkBinaryExpr: the logical split ----

  // The index of the last occurrence of op, or |ops| when there is none.
  function LastIndex(ops: seq<string>, op: string): (k: nat)
    ensures k <= |ops|
    ensures k < |ops| ==> ops[k] == op
    ensures forall j | k < j < |ops| :: ops[j] != op
    ensures k == |ops| ==> op !in ops
  {
    if ops == [] then 0
    else
      var n := |ops| - 1;
      if ops[n] == op then n
      else
        var k := LastIndex(ops[..n], op);
        if k == n then n + 1 else k
  }

  // lastLogicalIndex, which returns -1 when there is none.
  method LastLogicalIndex(ops: seq<string>, op: string) returns (k: int)
    ensures k == if op in ops then LastIndex(ops, op) else -1
  {
    k := |ops| - 1;
    while k >= 0
      invariant -1 <= k < |ops|
      invariant forall j | k < j < |ops| :: ops[j] != op
    {
      if ops[k] == op {
        return;
      }
      k := k - 1;
    }
  }

  lemma LogicalClasses(op: string)
    ensures ClassOf(op) == Or <==> op == "||"
    ensures ClassOf(op) == And <==> op == "&&"
  {
  }

  // Where checkBinaryExpr splits: at the last "||", else at the last "&&".
  function SplitPoint(ops: seq<string>): (k: nat)
    ensures k <= |ops|
  {
    if "||" in ops then LastIndex(ops, "||") else LastIndex(ops, "&&")
  }

  ghost predicate HasLogical(ops: seq<string>) {
    exists op <- ops :: ClassOf(op) in {And, Or}
  }

  // Some operator that the table of the checker puts below the logical ones.
  ghost predicate HasLooser(ops: seq<string>) {
    exists op <- ops :: ClassOf(op) in {Coalesce, SetOp}
  }

  // The tree whose types checkBinaryExpr and checkLogicalChain compute.
  function CheckTree<A>(operands: seq<A>, ops: seq<string>): Tree<A>
    requires |operands| == |ops| + 1
    decreases |ops|
  {
    var k := SplitPoint(ops);
    if k < |ops| then
      Node(ops[k], CheckTree(operands[..k + 1], ops[..k]), CheckTree(operands[k + 1..], ops[k + 1..]))
    else Build(LevelTable(CHECK_LEVELS), operands, ops)
  }

  // checkBinaryExpr with the types of the operands given. None is a type error.
  method CheckBinary<V>(f: (string, V, V) -> Option<V>, operands: seq<V>, ops: seq<string>) returns (r: Option<V>)
    requires |operands| == |ops| + 1
    decreases |ops|
    ensures (forall op <- ops :: ClassOf(op) != Other) ==> r == Fold(f, CheckTree(operands, ops))
    ensures (exists op <- ops :: ClassOf(op) == Other) ==> r == None
  {
    hide ClassOf, Build, LevelTable, LastIndex;
    var k := LastLogicalIndex(ops, "||");
    if k < 0 {
      k := LastLogicalIndex(ops, "&&");
    }
    if k >= 0 {
      LogicalClasses(ops[k]);
      SplitMembers(ops, k);
      var l := CheckBinary(f, operands[..k + 1], ops[..k]);
      if l == None {
        return None;
      }
      var r' := CheckBinary(f, operands[k + 1..], ops[k + 1..]);
      if r' == None {
        return None;
      }
      r := f(ops[k], l.value, r'.value);
    } else {
      forall op | op in ops ensures Listed(CHECK_LEVELS, op) <==> ClassOf(op) != Other {
        CheckTable(op);
      }
      r := CollapseByLevel(CHECK_LEVELS, f, operands, ops);
    }
  }

  lemma SplitMembers(ops: seq<string>, k: nat)
    requires k < |ops|
    ensures forall op :: op in ops <==> op in ops[..k] || op == ops[k] || op in ops[k + 1..]
  {
    assert ops == ops[..k] + [ops[k]] + ops[k + 1..];
  }

  // HasLogical, in terms of where the split is.
  lemma SplitPointFound(ops: seq<string>)
    ensures SplitPoint(ops) < |ops| <==> HasLogical(ops)
    ensures SplitPoint(ops) < |ops| ==> ClassOf(ops[SplitPoint(ops)]) == if "||" in ops then Or else And
    ensures forall j | 0 <= j < |ops| :: ClassOf(ops[j]) == Or ==> "||" in ops
    ensures forall j | SplitPoint(ops) < j < |ops| :: ClassOf(ops[j]) != if "||" in ops then Or else And
  {
    hide ClassOf;
    forall op ensures (ClassOf(op) == Or <==> op == "||") && (ClassOf(op) == And <==> op == "&&") {
      LogicalClasses(op);
    }
    if SplitPoint(ops) < |ops| {
      assert ops[SplitPoint(ops)] in ops;
    }
  }

  lemma SplitIsLoosest(ops: seq<string>)
    requires HasLogical(ops) && !HasLooser(ops) && forall op <- ops :: ClassOf(op) != Other
    ensures IsLoosest(LevelTable(CHECK_LEVELS), ops, SplitPoint(ops))
  {
    hide ClassOf, SplitPoint, LevelTable;
    SplitPointFound(ops);
    forall j | 0 <= j < |ops|
      ensures LevelTable(CHECK_LEVELS)(ops[j]) == CheckRank(ops[j]) >= if "||" in ops then 3 else 4
    {
      CheckTable(ops[j]);
      assert ops[j] in ops;
    }
  }

  // The logical split builds the tree of the checker's own table on every chain
  // but those that mix a logical operator with `??` or a set operator.
  lemma {:induction false} LogicalSplitAgreesIff<A>(operands: seq<A>, ops: seq<string>)
    requires |operands| == |ops| + 1 && forall op <- ops :: ClassOf(op) != Other
    ensures CheckTree(operands, ops) == Build(LevelTable(CHECK_LEVELS), operands, ops) <==>
      !(HasLogical(ops) && HasLooser(ops))
    decreases |ops|
  {
    hide ClassOf, SplitPoint, LevelTable, Build;
    var table, k := LevelTable(CHECK_LEVELS), SplitPoint(ops);
    SplitPointFound(ops);
    if HasLogical(ops) {
      if HasLooser(ops) {
        LooserIsRoot(ops);
        BuildSplit(table, operands, ops, Loosest(table, ops));
      } else {
        SplitIsLoosest(ops);
        BuildSplit(table, operands, ops, k);
        LogicalSplitAgreesIff(operands[..k + 1], ops[..k]);
        LogicalSplitAgreesIff(operands[k + 1..], ops[k + 1..]);
      }
    }
  }

  lemma LooserIsRoot(ops: seq<string>)
    requires HasLooser(ops) && forall op <- ops :: ClassOf(op) != Other
    ensures var k := Loosest(LevelTable(CHECK_LEVELS), ops); ClassOf(ops[k]) in {Coalesce, SetOp}
  {
    hide ClassOf, LevelTable, LevelRank, Listed;
    var op :| op in ops && ClassOf(op) in {Coalesce, SetOp};
    var j :| 0 <= j < |ops| && ops[j] == op;
    var k := Loosest(LevelTable(CHECK_LEVELS), ops);
    CheckTable(ops[j]);
    CheckTable(ops[k]);
    assert ops[k] in ops;
  }

  // ---- Tables that agree ----

  // In the tree of the table, operator i is above operator j.
  ghost predicate Above(table: Table, ops: seq<string>, i: int, j: int)
    requires 0 <= i < |ops| && 0 <= j < |ops|
  {
    if i < j then forall m | i < m <= j :: table(ops[i]) < table(ops[m])
    else forall m | j <= m < i :: table(ops[i]) <= table(ops[m])
  }

  // One table puts i above j, and the other one j above i.
  ghost predicate FlippedAt(table: Table, table': Table, ops: seq<string>, i: int, j: int) {
    && 0 <= i < |ops| && 0 <= j < |ops| && i != j
    && Above(table, ops, i, j) && Above(table', ops, j, i)
  }

  ghost predicate Flipped(table: Table, table': Table, ops: seq<string>) {
    exists i, j :: FlippedAt(table, table', ops, i, j)
  }

  // Any two tables build the same tree exactly when they put no two operators of
  // the chain above each other.
  lemma {:induction false} TreesAgreeIff<A>(table: Table, table': Table, operands: seq<A>, ops: seq<string>)
    requires |operands| == |ops| + 1
    ensures Build(table, operands, ops) == Build(table', operands, ops) <==> !Flipped(table, table', ops)
    decreases |ops|
  {
    hide Build, Flipped;
    if ops == [] {
      BuildSingle(table, operands);
      BuildSingle(table', operands);
      NothingFlipped(table, table', ops);
    } else {
      var k, k' := Loosest(table, ops), Loosest(table', ops);
      BuildSplit(table, operands, ops, k);
      BuildSplit(table', operands, ops, k');
      if k == k' {
        FlippedSplits(table, table', ops, k);
        TreesAgreeIff(table, table', operands[..k + 1], ops[..k]);
        TreesAgreeIff(table, table', operands[k + 1..], ops[k + 1..]);
      } else {
        RootsFlipped(table, table', ops, k, k');
      }
    }
  }

  lemma NothingFlipped(table: Table, table': Table, ops: seq<string>)
    requires ops == []
    ensures !Flipped(table, table', ops)
  {
  }

  lemma RootsFlipped(table: Table, table': Table, ops: seq<string>, k: nat, k': nat)
    requires IsLoosest(table, ops, k) && IsLoosest(table', ops, k') && k != k'
    ensures Flipped(table, table', ops) && ops[k] != ops[k']
  {
    assert FlippedAt(table, table', ops, k, k');
  }

  // No flipped pair reaches over a root that both tables have.
  lemma FlippedSplits(table: Table, table': Table, ops: seq<string>, k: nat)
    requires IsLoosest(table, ops, k) && IsLoosest(table', ops, k)
    ensures Flipped(table, table', ops) <==>
      Flipped(table, table', ops[..k]) || Flipped(table, table', ops[k + 1..])
  {
    hide FlippedAt;
    var l, r := ops[..k], ops[k + 1..];
    assert l == ops[0..k] && r == ops[k + 1..|ops|];
    if i, j :| FlippedAt(table, table', ops, i, j) {
      NotAcross(table, table', ops, k, i, j);
      if i < k {
        FlippedWithin(table, table', ops, 0, k, i, j);
      } else {
        FlippedWithin(table, table', ops, k + 1, |ops|, i, j);
      }
    }
    if i, j :| FlippedAt(table, table', l, i, j) {
      FlippedWithin(table, table', ops, 0, k, i, j);
    }
    if i, j :| FlippedAt(table, table', r, i, j) {
      FlippedWithin(table, table', ops, k + 1, |ops|, i + (k + 1), j + (k + 1));
      assert FlippedAt(table, table', ops, i + (k + 1), j + (k + 1));
    }
  }

  lemma NotAcross(table: Table, table': Table, ops: seq<string>, k: nat, i: int, j: int)
    requires IsLoosest(table, ops, k) && IsLoosest(table', ops, k) && FlippedAt(table, table', ops, i, j)
    ensures (0 <= i < k && 0 <= j < k) || (k < i < |ops| && k < j < |ops|)
  {
    hide Above;
    AboveAt(table, ops, i, j, k);
    AboveAt(table', ops, j, i, k);
    assert i < k ==> table(ops[i]) >= table(ops[k]);
    assert j < k ==> table'(ops[j]) >= table'(ops[k]);
  }

  lemma AboveAt(table: Table, ops: seq<string>, i: int, j: int, m: int)
    requires 0 <= i < |ops| && 0 <= j < |ops| && Above(table, ops, i, j)
    ensures i < m <= j ==> table(ops[i]) < table(ops[m])
    ensures j <= m < i ==> table(ops[i]) <= table(ops[m])
  {
  }

  // Whether a pair is flipped depends only on the operators between the two.
  lemma FlippedWithin(table: Table, table': Table, ops: seq<string>, lo: nat, hi: nat, i: int, j: int)
    requires lo <= hi <= |ops|
    ensures FlippedAt(table, table', ops[lo..hi], i - lo, j - lo) <==>
      lo <= i < hi && lo <= j < hi && FlippedAt(table, table', ops, i, j)
  {
    hide Above;
    if lo <= i < hi && lo <= j < hi {
      AboveWithin(table, ops, lo, hi, i, j);
      AboveWithin(table', ops, lo, hi, j, i);
    }
  }

  lemma AboveWithin(table: Table, ops: seq<string>, lo: nat, hi: nat, i: int, j: int)
    requires lo <= hi <= |ops| && lo <= i < hi && lo <= j < hi
    ensures Above(table, ops[lo..hi], i - lo, j - lo) <==> Above(table, ops, i, j)
  {
    var part := ops[lo..hi];
    assert forall m | lo <= m < hi :: ops[m] == part[m - lo];
    assert forall m | 0 <= m < hi - lo :: part[m] == ops[m + lo];
  }

  // Two tables that order the operators of the chain alike build the same tree.
  lemma SameOrderSameTree<A>(table: Table, table': Table, operands: seq<A>, ops: seq<string>)
    requires |operands| == |ops| + 1
    requires forall a <- ops, b <- ops :: table(a) < table(b) <==> table'(a) < table'(b)
    ensures Build(table, operands, ops) == Build(table', operands, ops)
  {
    hide Build, Above;
    TreesAgreeIff(table, table', operands, ops);
    assert forall i | 0 <= i < |ops| :: ops[i] in ops;
    forall i, j ensures !FlippedAt(table, table', ops, i, j) {
      if FlippedAt(table, table', ops, i, j) {
        AboveAt(table, ops, i, j, j);
        AboveAt(table', ops, j, i, i);
      }
    }
  }

  // The inferrer and the checker type the same tree, except on chains that mix
  // a logical operator with a set operator.
  lemma InferAgreesIff<A>(operands: seq<A>, ops: seq<string>)
    requires |operands| == |ops| + 1 && forall op <- ops :: ClassOf(op) != Other && ClassOf(op) != Coalesce
    ensures Build(LevelTable(INFER_LEVELS), operands, ops) == CheckTree(operands, ops) <==>
      !(HasLogical(ops) && HasLooser(ops))
  {
    hide ClassOf, LevelTable, Build, CheckTree;
    forall a, b | a in ops && b in ops
      ensures LevelTable(INFER_LEVELS)(a) < LevelTable(INFER_LEVELS)(b) <==>
        LevelTable(CHECK_LEVELS)(a) < LevelTable(CHECK_LEVELS)(b)
    {
      InferTable(a);
      InferTable(b);
      CheckTable(a);
      CheckTable(b);
    }
    SameOrderSameTree(LevelTable(INFER_LEVELS), LevelTable(CHECK_LEVELS), operands, ops);
    LogicalSplitAgreesIff(operands, ops);
  }

  // ---- Where the printed tree and the checked tree differ ----

  function AstTable(): Table {
    op => AstRank(op)
  }

  // Where the logical split puts an operator: as the table of the checker does,
  // but for the logical ones, which come first.
  function SplitRank(op: string): nat {
    if op == "||" then 0 else if op == "&&" then 1 else CheckRank(op) + 2
  }

  function SplitTable(): Table {
    op => SplitRank(op)
  }

  // The tree with the logical split is the tree of one table.
  lemma {:induction false} CheckTreeIsBuild<A>(operands: seq<A>, ops: seq<string>)
    requires |operands| == |ops| + 1
    ensures CheckTree(operands, ops) == Build(SplitTable(), operands, ops)
    decreases |ops|
  {
    hide SplitPoint, Build, CheckRank, LevelTable;
    var k := SplitPoint(ops);
    SplitRanks(ops);
    if k < |ops| {
      BuildSplit(SplitTable(), operands, ops, k);
      CheckTreeIsBuild(operands[..k + 1], ops[..k]);
      CheckTreeIsBuild(operands[k + 1..], ops[k + 1..]);
    } else {
      forall op | op in ops ensures LevelTable(CHECK_LEVELS)(op) == CheckRank(op) {
        CheckTable(op);
      }
      SameOrderSameTree(SplitTable(), LevelTable(CHECK_LEVELS), operands, ops);
    }
  }

  lemma SplitRanks(ops: seq<string>)
    ensures SplitPoint(ops) < |ops| ==> IsLoosest(SplitTable(), ops, SplitPoint(ops))
    ensures SplitPoint(ops) == |ops| ==> "||" !in ops && "&&" !in ops
  {
    hide CheckRank;
    assert forall j | 0 <= j < |ops| :: ops[j] in ops;
  }

  // FromExpr and checkBinaryExpr read a chain as the same tree exactly when the
  // ranks of FromExpr and of the logical split put no two of its operators
  // above each other.
  lemma AstAgreesIff<A>(operands: seq<A>, ops: seq<string>)
    requires |operands| == |ops| + 1
    ensures Build(AstTable(), operands, ops) == CheckTree(operands, ops) <==>
      !Flipped(AstTable(), SplitTable(), ops)
  {
    hide *;
    CheckTreeIsBuild(operands, ops);
    TreesAgreeIff(AstTable(), SplitTable(), operands, ops);
  }

  // The ranks of FromExpr as a list of levels, tightest first.
  const AST_LEVELS: seq<seq<string>> := [
    ["*", "/", "%"],
    ["+", "-", "union", "except", "intersect"],
    ["==", "!=", "<", "<=", ">", ">=", "in"],
    ["&&"],
    ["||"]
  ]

  lemma AstLevels(op: string)
    ensures AstTable()(op) == LevelTable(AST_LEVELS)(op)
  {
    var l := 5 - AstRank(op);
    assert forall i | 0 <= i < 5 :: op in AST_LEVELS[i] ==> i == l;
    LevelRankBounds(AST_LEVELS, l, op);
    if l < 5 {
      assert op in AST_LEVELS[l];
    }
  }

  // The classes of the listed operators, with `union_all` apart from the other
  // set operators.
  predicate Loose(op: string) {
    op == "??" || op == "union_all"
  }

  predicate Set(op: string) {
    op in ["union", "except", "intersect"]
  }

  // In which cases the trees of x and y, in this order, differ.
  predicate Clash(x: string, y: string) {
    || (ClassOf(x) == Equality && ClassOf(y) == Relational)
    || (Loose(x) && ClassOf(y) in {And, Or}) || (ClassOf(x) in {And, Or} && Loose(y))
    || (Set(x) && ClassOf(y) in {Add, Relational, Equality}) || (ClassOf(x) in {Relational, Equality} && Set(y))
    || (x == "union_all" && (y == "??" || Set(y))) || (x == "??" && Set(y)) || (Set(x) && y == "??")
  }

  // Printed and checked tree of two operators, `??` and the set operators
  // included: a union b + c is (a union b) + c for the one and a union (b + c)
  // for the other.
  lemma PairAgreesIff<A>(a: A, b: A, c: A, x: string, y: string)
    requires ClassOf(x) != Class.Other && ClassOf(y) != Class.Other
    ensures Build(AstTable(), [a, b, c], [x, y]) == CheckTree([a, b, c], [x, y]) <==> !Clash(x, y)
  {
    hide Build, CheckTree, ClassOf, Clash;
    AstAgreesIff([a, b, c], [x, y]);
    PairFlipped(AstTable(), SplitTable(), x, y);
    PairClashes(x, y);
  }

  lemma PairFlipped(table: Table, table': Table, x: string, y: string)
    ensures Flipped(table, table', [x, y]) <==> (table(x) < table(y)) != (table'(x) < table'(y))
  {
    var ops := [x, y];
    if table(x) < table(y) && table'(y) <= table'(x) {
      assert FlippedAt(table, table', ops, 0, 1);
    }
    if table'(x) < table'(y) && table(y) <= table(x) {
      assert FlippedAt(table, table', ops, 1, 0);
    }
  }

  lemma PairClashes(x: string, y: string)
    requires ClassOf(x) != Class.Other && ClassOf(y) != Class.Other
    ensures (AstRank(x) < AstRank(y)) != (SplitRank(x) < SplitRank(y)) <==> Clash(x, y)
  {
    ListedRanks(x);
    ListedRanks(y);
    hide AstRank, SplitRank, ClassOf, Set, Loose;
  }

  // The ranks of the listed operators.
  lemma ListedRanks(op: string)
    requires ClassOf(op) != Class.Other
    ensures ClassOf(op) == SetOp <==> Set(op) || op == "union_all"
    ensures ClassOf(op) == Coalesce <==> op == "??"
    ensures Loose(op) <==> op == "??" || op == "union_all"
    ensures !(Set(op) && op == "union_all")
    ensures AstRank(op) ==
      if Loose(op) then 0
      else match ClassOf(op)
        case Or => 1 case And => 2 case Relational => 3 case Equality => 3 case Mul => 5 case _ => 4
    ensures SplitRank(op) ==
      match ClassOf(op)
      case Or => 0 case And => 1 case SetOp => 3 case Coalesce => 4
      case Equality => 7 case Relational => 8 case Add => 9 case _ => 10
  {
  }

  // The operators whose relative order the two tables agree on, but for the
  // relational and equality operators.
  predicate Core(op: string) {
    ClassOf(op) in {Mul, Add, Relational, Equality, And, Or}
  }

  // An equality operator, later a relational one, and in between nothing that
  // binds as loosely as an equality operator.
  ghost predicate Crossed(ops: seq<string>) {
    exists i, j :: CrossedAt(ops, i, j)
  }

  ghost predicate CrossedAt(ops: seq<string>, i: int, j: int) {
    && 0 <= i < j < |ops|
    && ClassOf(ops[i]) == Equality && ClassOf(ops[j]) == Relational
    && forall k | i < k < j :: ClassOf(ops[k]) !in {Equality, And, Or}
  }

  // On core operators a == b < c is the only difference: (a == b) < c in the
  // printed tree, a == (b < c) in the checked one.
  lemma CoreAgreesIff<A>(operands: seq<A>, ops: seq<string>)
    requires |operands| == |ops| + 1 && forall op <- ops :: Core(op)
    ensures Build(AstTable(), operands, ops) == CheckTree(operands, ops) <==> !Crossed(ops)
  {
    hide Core, Build, CheckTree, FlippedAt, CrossedAt, AstTable, SplitTable;
    AstAgreesIff(operands, ops);
    forall i, j ensures FlippedAt(AstTable(), SplitTable(), ops, j, i) <==> CrossedAt(ops, i, j) {
      CoreFlippedAt(ops, i, j);
    }
  }

  lemma CoreFlippedAt(ops: seq<string>, i: int, j: int)
    requires forall op <- ops :: Core(op)
    ensures FlippedAt(AstTable(), SplitTable(), ops, j, i) <==> CrossedAt(ops, i, j)
  {
    hide ClassOf, AstRank, SplitRank, Core, Above;
    forall m | 0 <= m < |ops|
      ensures ClassOf(ops[m]) in {Mul, Add, Relational, Equality, And, Or}
      ensures AstTable()(ops[m]) == CoreAstRank(ClassOf(ops[m]))
      ensures SplitTable()(ops[m]) == CoreSplitRank(ClassOf(ops[m]))
    {
      assert ops[m] in ops;
      CoreRanks(ops[m]);
    }
    if FlippedAt(AstTable(), SplitTable(), ops, j, i) {
      AboveAt(AstTable(), ops, j, i, i);
      AboveAt(AstTable(), ops, j, i, j);
      AboveAt(SplitTable(), ops, i, j, i);
      AboveAt(SplitTable(), ops, i, j, j);
      assert ClassOf(ops[i]) == Equality && ClassOf(ops[j]) == Relational && i < j;
      forall m | i < m < j ensures ClassOf(ops[m]) !in {Equality, And, Or} {
        AboveAt(SplitTable(), ops, i, j, m);
      }
    }
    if CrossedAt(ops, i, j) {
      CoreCrossedAt(ops, i, j);
    }
  }

  lemma CoreCrossedAt(ops: seq<string>, i: int, j: int)
    requires forall op <- ops :: Core(op)
    requires CrossedAt(ops, i, j)
    ensures Above(AstTable(), ops, j, i) && Above(SplitTable(), ops, i, j)
  {
    hide ClassOf, AstRank, SplitRank, Core;
    forall m | i <= m <= j
      ensures AstTable()(ops[m]) >= 3 == AstTable()(ops[j])
      ensures m > i ==> SplitTable()(ops[m]) > 7 == SplitTable()(ops[i])
    {
      assert ops[i] in ops && ops[j] in ops && ops[m] in ops;
      CoreRanks(ops[i]);
      CoreRanks(ops[j]);
      CoreRanks(ops[m]);
    }
  }

  function CoreAstRank(c: Class): nat {
    match c
    case Mul => 5
    case Add => 4
    case Relational | Equality => 3
    case And => 2
    case _ => 1
  }

  function CoreSplitRank(c: Class): nat {
    match c
    case Mul => 10
    case Add => 9
    case Relational => 8
    case Equality => 7
    case And => 1
    case _ => 0
  }

  lemma CoreRanks(op: string)
    requires Core(op)
    ensures ClassOf(op) in {Mul, Add, Relational, Equality, And, Or}
    ensures AstRank(op) == CoreAstRank(ClassOf(op)) && SplitRank(op) == CoreSplitRank(ClassOf(op))
  {
  }
}
