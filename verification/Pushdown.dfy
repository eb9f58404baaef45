// Predicate pushdown preserves meaning: what the plans of BuildQueryPlan
// (types/query_plan_builder.go) produce, row by row.
module Pushdown {
  import opened Options
  import opened QueryExpr
  import opened QueryPlan

  predicate RowWise(c: Clause) {
    c.join == Inner || c.join == Left
  }

  // ---- Filtering ----

  lemma {:induction false} FilterAppend<V>(I: Interp<V>, cond: Option<Expr>, a: seq<Row<V>>, b: seq<Row<V>>)
    ensures Filter(I, cond, a + b) == Filter(I, cond, a) + Filter(I, cond, b)
    decreases |a|
  {
    hide Holds;
    if a == [] {
      assert a + b == b;
    } else {
      assert (a + b)[1..] == a[1..] + b && (a + b)[0] == a[0];
      FilterAppend(I, cond, a[1..], b);
    }
  }

  lemma {:induction false} FilterSwap<V>(I: Interp<V>, c: Option<Expr>, d: Option<Expr>, rows: seq<Row<V>>)
    ensures Filter(I, c, Filter(I, d, rows)) == Filter(I, d, Filter(I, c, rows))
    decreases |rows|
  {
    if rows != [] {
      FilterSwap(I, c, d, rows[1..]);
      FilterAppend(I, c, if Holds(I, d, rows[0]) then [rows[0]] else [], Filter(I, d, rows[1..]));
      FilterAppend(I, d, if Holds(I, c, rows[0]) then [rows[0]] else [], Filter(I, c, rows[1..]));
    }
  }

  // A condition with one answer on all rows keeps all of them or none.
  lemma {:induction false} FilterUniform<V>(I: Interp<V>, cond: Option<Expr>, rows: seq<Row<V>>, keep: bool)
    requires forall i | 0 <= i < |rows| :: Holds(I, cond, rows[i]) == keep
    ensures Filter(I, cond, rows) == if keep then rows else []
    decreases |rows|
  {
    if rows != [] {
      assert forall i | 0 <= i < |rows[1..]| :: rows[1..][i] == rows[i + 1];
      FilterUniform(I, cond, rows[1..], keep);
      assert rows == [rows[0]] + rows[1..];
    }
  }

  lemma {:induction false} FilterMembers<V>(I: Interp<V>, cond: Option<Expr>, rows: seq<Row<V>>, i: nat)
    requires i < |Filter(I, cond, rows)|
    ensures exists j | 0 <= j < |rows| :: Filter(I, cond, rows)[i] == rows[j] && Holds(I, cond, rows[j])
    decreases |rows|
  {
    var first := Holds(I, cond, rows[0]);
    if first && i == 0 {
    } else {
      FilterMembers(I, cond, rows[1..], if first then i - 1 else i);
      var j :| 0 <= j < |rows[1..]| && Holds(I, cond, rows[1..][j])
        && Filter(I, cond, rows[1..])[if first then i - 1 else i] == rows[1..][j];
      assert rows[1..][j] == rows[j + 1];
    }
  }

  // ---- One clause ----

  lemma {:induction false} ExtendAt<V>(row: Row<V>, name: string, vs: seq<V>, i: nat)
    requires i < |vs|
    ensures |Extend(row, name, vs)| == |vs| && Extend(row, name, vs)[i] == row[name := vs[i]]
    decreases |vs|
  {
    if i > 0 {
      ExtendAt(row, name, vs[1..], i - 1);
    } else if |vs| > 1 {
      ExtendAt(row, name, vs[1..], 0);
    }
  }

  // A condition that does not read the alias of a clause has one answer on all
  // the rows that the clause makes of a row.
  lemma MatchesUniform<V>(I: Interp<V>, cond: Expr, c: Clause, keepAll: bool, row: Row<V>)
    requires c.name !in Reads(cond)
    ensures var ms := Matches(I, Scan(c.src, c.name), c.on, keepAll, row);
      Filter(I, Some(cond), ms) == if Holds(I, Some(cond), row) then ms else []
  {
    var scan := Scan(c.src, c.name);
    var ms := Matches(I, scan, c.on, keepAll, row);
    forall i | 0 <= i < |ms| ensures Holds(I, Some(cond), ms[i]) == Holds(I, Some(cond), row) {
      var vs := I.elems(Eval(I, row, c.src));
      if Filter(I, c.on, Exec(I, scan, row)) != [] {
        FilterMembers(I, c.on, Exec(I, scan, row), i);
        var j :| 0 <= j < |Exec(I, scan, row)| && ms[i] == Exec(I, scan, row)[j];
        if vs != [] {
          ExtendAt(row, c.name, vs, 0);
        }
        ExtendAt(row, c.name, vs, j);
      }
      EvalDependsOnReads(I, ms[i], row, cond);
    }
    FilterUniform(I, Some(cond), ms, Holds(I, Some(cond), row));
  }

  lemma {:induction false} LateralCommutes<V>(I: Interp<V>, cond: Expr, c: Clause, keepAll: bool, rows: seq<Row<V>>)
    requires c.name !in Reads(cond)
    ensures var scan := Scan(c.src, c.name);
      Filter(I, Some(cond), LateralJoin(I, scan, c.on, keepAll, rows)) ==
      LateralJoin(I, scan, c.on, keepAll, Filter(I, Some(cond), rows))
    decreases |rows|
  {
    if rows != [] {
      var scan := Scan(c.src, c.name);
      var ms := Matches(I, scan, c.on, keepAll, rows[0]);
      MatchesUniform(I, cond, c, keepAll, rows[0]);
      LateralCommutes(I, cond, c, keepAll, rows[1..]);
      FilterAppend(I, Some(cond), ms, LateralJoin(I, scan, c.on, keepAll, rows[1..]));
      if Holds(I, Some(cond), rows[0]) {
        var kept := [rows[0]] + Filter(I, Some(cond), rows[1..]);
        assert kept[1..] == Filter(I, Some(cond), rows[1..]);
      } else {
        assert Filter(I, Some(cond), rows) == Filter(I, Some(cond), rows[1..]);
      }
    }
  }

  // Filtering the right side of an inner join filters the join.
  lemma {:induction false} GuardedRight<V>(I: Interp<V>, cond: Expr, scan: Plan, on: Option<Expr>, rows: seq<Row<V>>)
    ensures LateralJoin(I, Where(cond, scan), on, false, rows) ==
      Filter(I, Some(cond), LateralJoin(I, scan, on, false, rows))
    decreases |rows|
  {
    if rows != [] {
      GuardedRight(I, cond, scan, on, rows[1..]);
      FilterSwap(I, on, Some(cond), Exec(I, scan, rows[0]));
      assert Exec(I, Where(cond, scan), rows[0]) == Filter(I, Some(cond), Exec(I, scan, rows[0]));
      assert Matches(I, Where(cond, scan), on, false, rows[0]) ==
        Filter(I, Some(cond), Matches(I, scan, on, false, rows[0]));
      FilterAppend(I, Some(cond), Matches(I, scan, on, false, rows[0]), LateralJoin(I, scan, on, false, rows[1..]));
    }
  }

  // ---- All clauses ----

  // Row-wise clauses that bind other aliases commute with the condition.
  lemma {:induction false} ClausesCommute<V>(I: Interp<V>, cond: Expr, guarded: Plan, root: Plan,
                                                  cs: seq<Clause>, row: Row<V>)
    requires forall c <- cs :: RowWise(c) && c.name !in Reads(cond)
    requires Exec(I, guarded, row) == Filter(I, Some(cond), Exec(I, root, row))
    ensures Exec(I, AddClauses(guarded, cs), row) == Filter(I, Some(cond), Exec(I, AddClauses(root, cs), row))
    decreases |cs|
  {
    if cs != [] {
      var c := cs[0];
      assert c in cs;
      LateralCommutes(I, cond, c, c.join == Left, Exec(I, root, row));
      ClausesCommute(I, cond, AddClause(guarded, c), AddClause(root, c), cs[1..], row);
    }
  }

  // The clauses after the one that takes the condition.
  function Later(q: Query, p: int): seq<Clause>
    requires -1 <= p <= |Clauses(q)|
  {
    if p < |Clauses(q)| then Clauses(q)[p + 1..] else []
  }

  lemma {:induction false} AddClausesAppend(root: Plan, a: seq<Clause>, b: seq<Clause>)
    ensures AddClauses(root, a + b) == AddClauses(AddClauses(root, a), b)
    decreases |a|
  {
    if a == [] {
      assert a + b == b;
    } else {
      assert (a + b)[1..] == a[1..] + b;
      AddClausesAppend(AddClause(root, a[0]), a[1..], b);
    }
  }

  // Pushing the condition to point p keeps rows, order and multiplicity: the
  // clauses after p must be inner or left joins, and must not bind an alias
  // that the condition reads.
  lemma PushdownPreserves<V>(I: Interp<V>, q: Query, p: int, row: Row<V>)
    requires -1 <= p <= |Clauses(q)|
    requires 0 <= p < |Clauses(q)| ==> Clauses(q)[p].join == Inner
    requires forall c <- Later(q, p) :: RowWise(c)
    requires q.cond.Some? ==> forall c <- Later(q, p) :: c.name !in Reads(q.cond.value)
    ensures Exec(I, PushedPlan(q, p), row) == Exec(I, PlainPlan(q), row)
  {
    hide *;
    PlainPlanIs(q);
    if p < |Clauses(q)| {
      PlanSplits(q, p);
      if q.cond.Some? {
        GuardFilters(I, q, p, q.cond.value, row);
        ConditionCommutes(I, q.cond.value, GuardedAt(q, p), PlanAt(q, p), Later(q, p), row);
      }
    }
  }

  lemma ConditionCommutes<V>(I: Interp<V>, cond: Expr, guarded: Plan, root: Plan, cs: seq<Clause>, row: Row<V>)
    requires forall c <- cs :: RowWise(c) && c.name !in Reads(cond)
    requires Exec(I, guarded, row) == Filter(I, Some(cond), Exec(I, root, row))
    ensures Exec(I, AddClauses(guarded, cs), row) == Exec(I, Where(cond, AddClauses(root, cs)), row)
  {
    hide *;
    ClausesCommute(I, cond, guarded, root, cs, row);
    WhereFilters(I, cond, AddClauses(root, cs), row);
  }

  lemma PlainPlanIs(q: Query)
    ensures var root := AddClauses(Scan(q.source, q.name), Clauses(q));
      PlainPlan(q) == if q.cond.Some? then Where(q.cond.value, root) else root
    ensures PushedPlan(q, |Clauses(q)|) == PlainPlan(q)
  {
    hide AddClauses, Clauses;
  }

  // The plan up to clause p, without and with the condition pushed there.
  function PlanAt(q: Query, p: int): Plan
    requires -1 <= p < |Clauses(q)|
  {
    var cs, scan := Clauses(q), Scan(q.source, q.name);
    if p == -1 then scan else AddClause(AddClauses(scan, cs[..p]), cs[p])
  }

  function GuardedAt(q: Query, p: int): Plan
    requires -1 <= p < |Clauses(q)|
  {
    var cs, scan := Clauses(q), Scan(q.source, q.name);
    if p == -1 then Guard(q.cond, scan) else AddGuarded(AddClauses(scan, cs[..p]), cs[p], q.cond)
  }

  lemma PlanSplits(q: Query, p: int)
    requires -1 <= p < |Clauses(q)|
    ensures var cs := Clauses(q);
      && AddClauses(Scan(q.source, q.name), cs) == AddClauses(PlanAt(q, p), cs[p + 1..])
      && PushedPlan(q, p) == AddClauses(GuardedAt(q, p), cs[p + 1..])
      && (q.cond == None ==> GuardedAt(q, p) == PlanAt(q, p))
      && Later(q, p) == cs[p + 1..]
  {
    hide Clauses, AddClauses;
    var cs, scan := Clauses(q), Scan(q.source, q.name);
    if p == -1 {
      assert cs[0..] == cs;
    } else {
      assert cs == (cs[..p] + [cs[p]]) + cs[p + 1..];
      AddClausesAppend(scan, cs[..p] + [cs[p]], cs[p + 1..]);
      AddClausesSnoc(scan, cs[..p], cs[p]);
    }
  }

  lemma WhereFilters<V>(I: Interp<V>, cond: Expr, p: Plan, row: Row<V>)
    ensures Exec(I, Where(cond, p), row) == Filter(I, Some(cond), Exec(I, p, row))
  {
  }

  lemma GuardFilters<V>(I: Interp<V>, q: Query, p: int, cond: Expr, row: Row<V>)
    requires -1 <= p < |Clauses(q)| && q.cond == Some(cond) && (p >= 0 ==> Clauses(q)[p].join == Inner)
    ensures Exec(I, GuardedAt(q, p), row) == Filter(I, Some(cond), Exec(I, PlanAt(q, p), row))
  {
    hide Exec, Filter, AddClauses, Clauses;
    var cs, scan := Clauses(q), Scan(q.source, q.name);
    if p == -1 {
      WhereFilters(I, cond, scan, row);
    } else {
      InnerFilters(I, cond, AddClauses(scan, cs[..p]), cs[p], row);
    }
  }

  lemma InnerFilters<V>(I: Interp<V>, cond: Expr, before: Plan, c: Clause, row: Row<V>)
    requires c.join == Inner
    ensures Exec(I, AddGuarded(before, c, Some(cond)), row) == Filter(I, Some(cond), Exec(I, AddClause(before, c), row))
  {
    hide LateralJoin, Filter;
    GuardedRight(I, cond, Scan(c.src, c.name), c.on, Exec(I, before, row));
  }

  // ---- Nested loops ----

  // One loop per clause, outermost first: the meaning of a query whose joins
  // are inner or left.
  function NestedLoops<V>(I: Interp<V>, cs: seq<Clause>, row: Row<V>): seq<Row<V>>
    decreases |cs|, 1, 0
  {
    if cs == [] then [row]
    else
      var vs := I.elems(Eval(I, row, cs[0].src));
      if cs[0].join == Left && !(exists i | 0 <= i < |vs| :: Holds(I, cs[0].on, row[cs[0].name := vs[i]])) then
        NestedLoops(I, cs[1..], row[cs[0].name := I.nothing])
      else Loop(I, cs, row, vs)
  }

  function Loop<V>(I: Interp<V>, cs: seq<Clause>, row: Row<V>, vs: seq<V>): seq<Row<V>>
    requires cs != []
    decreases |cs|, 0, |vs|
  {
    if vs == [] then []
    else
      var row' := row[cs[0].name := vs[0]];
      (if Holds(I, cs[0].on, row') then NestedLoops(I, cs[1..], row') else []) + Loop(I, cs, row, vs[1..])
  }

  function LoopRows<V>(I: Interp<V>, cs: seq<Clause>, rows: seq<Row<V>>): seq<Row<V>> {
    if rows == [] then [] else NestedLoops(I, cs, rows[0]) + LoopRows(I, cs, rows[1..])
  }

  lemma {:induction false} LoopRowsAppend<V>(I: Interp<V>, cs: seq<Clause>, a: seq<Row<V>>, b: seq<Row<V>>)
    ensures LoopRows(I, cs, a + b) == LoopRows(I, cs, a) + LoopRows(I, cs, b)
    decreases |a|
  {
    if a == [] {
      assert a + b == b;
    } else {
      assert (a + b)[1..] == a[1..] + b;
      LoopRowsAppend(I, cs, a[1..], b);
    }
  }

  lemma {:induction false} LoopRowsDone<V>(I: Interp<V>, rows: seq<Row<V>>)
    ensures LoopRows(I, [], rows) == rows
    decreases |rows|
  {
    if rows != [] {
      LoopRowsDone(I, rows[1..]);
      assert rows == [rows[0]] + rows[1..];
    }
  }

  lemma {:induction false} LoopIsFilter<V>(I: Interp<V>, cs: seq<Clause>, row: Row<V>, vs: seq<V>)
    requires cs != []
    ensures Loop(I, cs, row, vs) == LoopRows(I, cs[1..], Filter(I, cs[0].on, Extend(row, cs[0].name, vs)))
    ensures Filter(I, cs[0].on, Extend(row, cs[0].name, vs)) == [] <==>
      !(exists i | 0 <= i < |vs| :: Holds(I, cs[0].on, row[cs[0].name := vs[i]]))
    decreases |vs|
  {
    if vs != [] {
      LoopIsFilter(I, cs, row, vs[1..]);
      var row' := row[cs[0].name := vs[0]];
      var ext := Extend(row, cs[0].name, vs);
      assert ext[0] == row' && ext[1..] == Extend(row, cs[0].name, vs[1..]);
      LoopRowsAppend(I, cs[1..], if Holds(I, cs[0].on, row') then [row'] else [], Filter(I, cs[0].on, ext[1..]));
      assert (exists i | 0 <= i < |vs| :: Holds(I, cs[0].on, row[cs[0].name := vs[i]])) <==>
        || Holds(I, cs[0].on, row')
        || exists i | 0 <= i < |vs[1..]| :: Holds(I, cs[0].on, row[cs[0].name := vs[1..][i]]) by {
        if i :| 0 < i < |vs| && Holds(I, cs[0].on, row[cs[0].name := vs[i]]) {
          assert vs[1..][i - 1] == vs[i];
        }
      }
    }
  }

  lemma LoopRowsOne<V>(I: Interp<V>, cs: seq<Clause>, row: Row<V>)
    ensures LoopRows(I, cs, [row]) == NestedLoops(I, cs, row)
  {
    assert [row][1..] == [];
  }

  // One row: its loops are the loops over its matches.
  lemma LoopsOfRow<V>(I: Interp<V>, cs: seq<Clause>, row: Row<V>)
    requires cs != [] && RowWise(cs[0])
    ensures NestedLoops(I, cs, row) ==
      LoopRows(I, cs[1..], Matches(I, Scan(cs[0].src, cs[0].name), cs[0].on, cs[0].join == Left, row))
  {
    var c := cs[0];
    LoopIsFilter(I, cs, row, I.elems(Eval(I, row, c.src)));
    LoopRowsOne(I, cs[1..], row[c.name := I.nothing]);
    assert row + Nothings(I, Names(Scan(c.src, c.name))) == row[c.name := I.nothing];
  }

  lemma {:induction false} LateralIsLoop<V>(I: Interp<V>, cs: seq<Clause>, rows: seq<Row<V>>)
    requires cs != [] && RowWise(cs[0])
    ensures LoopRows(I, cs, rows) ==
      LoopRows(I, cs[1..], LateralJoin(I, Scan(cs[0].src, cs[0].name), cs[0].on, cs[0].join == Left, rows))
    decreases |rows|
  {
    if rows != [] {
      var scan, keepAll := Scan(cs[0].src, cs[0].name), cs[0].join == Left;
      LateralIsLoop(I, cs, rows[1..]);
      LoopsOfRow(I, cs, rows[0]);
      LoopRowsAppend(I, cs[1..], Matches(I, scan, cs[0].on, keepAll, rows[0]),
                     LateralJoin(I, scan, cs[0].on, keepAll, rows[1..]));
    }
  }

  lemma {:induction false} ClausesAreLoops<V>(I: Interp<V>, root: Plan, cs: seq<Clause>, row: Row<V>)
    requires forall c <- cs :: RowWise(c)
    ensures Exec(I, AddClauses(root, cs), row) == LoopRows(I, cs, Exec(I, root, row))
    decreases |cs|
  {
    if cs == [] {
      LoopRowsDone(I, Exec(I, root, row));
    } else {
      assert cs[0] in cs;
      ClausesAreLoops(I, AddClause(root, cs[0]), cs[1..], row);
      LateralIsLoop(I, cs, Exec(I, root, row));
    }
  }

  // The meaning of a query: nested loops over all sources, then `where`.
  function Meaning<V>(I: Interp<V>, q: Query, row: Row<V>): seq<Row<V>> {
    Filter(I, q.cond, LoopRows(I, Clauses(q), Extend(row, q.name, I.elems(Eval(I, row, q.source)))))
  }

  lemma {:induction false} FilterNone<V>(I: Interp<V>, rows: seq<Row<V>>)
    ensures Filter(I, None, rows) == rows
    decreases |rows|
  {
    FilterUniform(I, None, rows, true);
  }

  lemma PlainPlanMeaning<V>(I: Interp<V>, q: Query, row: Row<V>)
    requires forall c <- Clauses(q) :: RowWise(c)
    ensures Exec(I, PlainPlan(q), row) == Meaning(I, q, row)
  {
    var scan := Scan(q.source, q.name);
    ClausesAreLoops(I, scan, Clauses(q), row);
    FilterNone(I, Exec(I, AddClauses(scan, Clauses(q)), row));
  }

  // The checker resolves query variables by scope: no variable outside the
  // query has the name of one of its aliases.
  ghost predicate Scoped(q: Query, check: Checker) {
    forall e, scope, x :: check.cond(e, scope) && x in Reads(e) && x in {q.name} + NamesOf(Clauses(q)) ==> x in scope
  }

  lemma LaterNotInScope(q: Query, p: int, i: int)
    requires DistinctNames(q) && -1 <= p < i < |Clauses(q)|
    ensures Clauses(q)[i].name !in ScopeAt(q, p)
    ensures Clauses(q)[i].name in NamesOf(Clauses(q))
  {
    var cs := Clauses(q);
    assert cs[i] in cs;
    assert forall d <- cs[..p + 1] :: d.name != cs[i].name;
  }

  lemma LaterNotRead(q: Query, check: Checker, p: int)
    requires -1 <= p <= |Clauses(q)|
    requires DistinctNames(q) && Scoped(q, check) && CheckedAt(q, check, p)
    ensures q.cond.Some? ==> forall c <- Later(q, p) :: c.name !in Reads(q.cond.value)
  {
    if q.cond.Some? {
      forall c | c in Later(q, p) ensures c.name !in Reads(q.cond.value) {
        var i :| p < i < |Clauses(q)| && Clauses(q)[i] == c;
        LaterNotInScope(q, p, i);
      }
    }
  }

  lemma LaterCovered(q: Query)
    requires DistinctNames(q) && (q.cond.Some? ==> Converted(q.cond.value))
    ensures q.cond.Some? ==> forall c <- Later(q, PushPoint(q)) :: c.name !in Reads(q.cond.value)
  {
    var cs, p := Clauses(q), PushPoint(q);
    if q.cond.Some? && p < |cs| {
      hide PushPoint, PushAlias, UsedAliases, Clauses, Later, DistinctNames, Converted, Reads;
      PushAliasUsed(q);
      UsedAliasesCover(q.cond.value);
      LaterNames(q, p);
    }
  }

  lemma LaterNames(q: Query, p: int)
    requires DistinctNames(q) && -1 <= p < |Clauses(q)|
    ensures forall c <- Later(q, p) :: c.name != if p == -1 then q.name else Clauses(q)[p].name
  {
    hide Clauses;
    var cs := Clauses(q);
    forall c | c in Later(q, p) ensures c.name != if p == -1 then q.name else cs[p].name {
      var i :| p < i < |cs| && cs[i] == c;
      assert c in cs;
    }
  }

  lemma RowWiseLater(q: Query, p: int)
    requires -1 <= p <= |Clauses(q)| && forall c <- Clauses(q) :: RowWise(c)
    ensures forall c <- Later(q, p) :: RowWise(c)
  {
    assert forall c <- Later(q, p) :: c in Clauses(q);
  }

  // What the built plan yields is what the query means, for queries with
  // distinct aliases and only inner or left joins, under a checker that rejects
  // a condition reading a query variable that is not in scope.
  lemma BuiltPlanMeaning<V>(I: Interp<V>, q: Query, check: Checker, row: Row<V>)
    requires DistinctNames(q)
    requires forall c <- Clauses(q) :: RowWise(c)
    requires Scoped(q, check) && CheckedAt(q, check, PushPoint(q))
    ensures Exec(I, PushedPlan(q, PushPoint(q)), row) == Meaning(I, q, row)
  {
    hide *;
    LaterNotRead(q, check, PushPoint(q));
    RowWiseLater(q, PushPoint(q));
    PushdownPreserves(I, q, PushPoint(q), row);
    PlainPlanMeaning(I, q, row);
  }

  // Without parts that the conversion drops, the condition is safe to push
  // whatever the checker says: usedAliases has seen every variable it reads.
  lemma CoveredConditionMeaning<V>(I: Interp<V>, q: Query, row: Row<V>)
    requires DistinctNames(q)
    requires forall c <- Clauses(q) :: RowWise(c)
    requires q.cond.Some? ==> Converted(q.cond.value)
    ensures Exec(I, PushedPlan(q, PushPoint(q)), row) == Meaning(I, q, row)
  {
    hide *;
    LaterCovered(q);
    RowWiseLater(q, PushPoint(q));
    PushdownPreserves(I, q, PushPoint(q), row);
    PlainPlanMeaning(I, q, row);
  }
}
