// BuildQueryPlan of types/query_plan_builder.go: a `where` that uses a single
// alias is pushed down onto the scan of that alias.
//
// Plans get a row-sequence semantics: a row maps aliases to values, and order
// and multiplicity count. A scan is evaluated once per row of its left side,
// because its source may use earlier aliases.
module QueryPlan {
  import opened Options
  import opened QueryExpr

  datatype JoinType = Inner | Left | Right | Outer

  // plan.Node, up to the `where` stage.
  datatype Plan =
    | Scan(src: Expr, name: string)
    | Where(cond: Expr, input: Plan)
    | Join(left: Plan, right: Plan, on: Option<Expr>, join: JoinType)

  // A `from` clause (no condition, inner) or a `join` clause.
  datatype Clause = Clause(name: string, src: Expr, on: Option<Expr>, join: JoinType)

  datatype Query = Query(name: string, source: Expr, froms: seq<Clause>, joins: seq<Clause>, cond: Option<Expr>)

  ghost predicate WellFormed(q: Query) {
    && (forall c <- q.froms :: c.join == Inner && c.on == None)
    && (forall c <- q.joins :: c.on.Some?)
  }

  function Clauses(q: Query): seq<Clause> {
    q.froms + q.joins
  }

  // ---- Semantics ----

  predicate Holds<V>(I: Interp<V>, cond: Option<Expr>, row: Row<V>) {
    match cond
    case None => true
    case Some(c) => I.truth(Eval(I, row, c))
  }

  function Filter<V>(I: Interp<V>, cond: Option<Expr>, rows: seq<Row<V>>): seq<Row<V>> {
    if rows == [] then []
    else (if Holds(I, cond, rows[0]) then [rows[0]] else []) + Filter(I, cond, rows[1..])
  }

  // The extensions of row by one alias.
  function Extend<V>(row: Row<V>, name: string, vs: seq<V>): seq<Row<V>> {
    if vs == [] then [] else [row[name := vs[0]]] + Extend(row, name, vs[1..])
  }

  function Names(p: Plan): set<string> {
    match p
    case Scan(_, name) => {name}
    case Where(_, input) => Names(input)
    case Join(l, r, _, _) => Names(l) + Names(r)
  }

  function Nothings<V>(I: Interp<V>, names: set<string>): Row<V> {
    map x | x in names :: I.nothing
  }

  // The rows of p, evaluated in the scope of row.
  function Exec<V>(I: Interp<V>, p: Plan, row: Row<V>): seq<Row<V>>
    decreases p, 0
  {
    match p
    case Scan(src, name) => Extend(row, name, I.elems(Eval(I, row, src)))
    case Where(c, input) => Filter(I, Some(c), Exec(I, input, row))
    case Join(l, r, on, join) =>
      var rows := Exec(I, l, row);
      var joined := LateralJoin(I, r, on, join in {Left, Outer}, rows);
      if join in {Right, Outer} then
        joined + Unmatched(I, on, rows, row + Nothings(I, Names(l)), Exec(I, r, row))
      else joined
  }

  // The rows of the left side, each with its matches on the right.
  function LateralJoin<V>(I: Interp<V>, r: Plan, on: Option<Expr>, keepAll: bool, rows: seq<Row<V>>): seq<Row<V>>
    decreases r, 1, |rows|
  {
    if rows == [] then []
    else Matches(I, r, on, keepAll, rows[0]) + LateralJoin(I, r, on, keepAll, rows[1..])
  }

  function Matches<V>(I: Interp<V>, r: Plan, on: Option<Expr>, keepAll: bool, row: Row<V>): seq<Row<V>>
    decreases r, 1, 0
  {
    var ms := Filter(I, on, Exec(I, r, row));
    if ms == [] && keepAll then [row + Nothings(I, Names(r))] else ms
  }

  // The rows of the right side that match no row of the left one.
  function Unmatched<V>(I: Interp<V>, on: Option<Expr>, rows: seq<Row<V>>,
                        nothings: Row<V>, rights: seq<Row<V>>): seq<Row<V>> {
    if rights == [] then []
    else
      (if exists i | 0 <= i < |rows| :: Holds(I, on, rows[i] + rights[0]) then [] else [nothings + rights[0]]) +
      Unmatched(I, on, rows, nothings, rights[1..])
  }

  // A right row is kept, beside nothing, exactly if the join condition holds of
  // it with no left row.
  lemma {:induction false} UnmatchedAre<V>(I: Interp<V>, on: Option<Expr>, rows: seq<Row<V>>, nothings: Row<V>,
                                           rights: seq<Row<V>>, out: Row<V>)
    ensures out in Unmatched(I, on, rows, nothings, rights) <==>
      exists r <- rights :: out == nothings + r && forall l <- rows :: !Holds(I, on, l + r)
    decreases |rights|
  {
    hide Holds;
    if rights != [] {
      var first := rights[0];
      UnmatchedAre(I, on, rows, nothings, rights[1..], out);
      assert (exists i | 0 <= i < |rows| :: Holds(I, on, rows[i] + first)) <==>
        !(forall l <- rows :: !Holds(I, on, l + first));
      assert rights == [first] + rights[1..];
    }
  }

  // ---- Plans without and with pushdown ----

  function AddClause(root: Plan, c: Clause): Plan {
    Join(root, Scan(c.src, c.name), c.on, c.join)
  }

  function AddClauses(root: Plan, cs: seq<Clause>): Plan
    decreases |cs|
  {
    if cs == [] then root else AddClauses(AddClause(root, cs[0]), cs[1..])
  }

  function Guard(cond: Option<Expr>, p: Plan): Plan {
    match cond
    case None => p
    case Some(c) => Where(c, p)
  }

  // The plan without pushdown: all clauses, then `where`.
  function PlainPlan(q: Query): Plan {
    Guard(q.cond, AddClauses(Scan(q.source, q.name), Clauses(q)))
  }

  // The alias whose scan the condition is pushed onto, if any.
  function PushAlias(q: Query): Option<string> {
    match q.cond
    case None => None
    case Some(c) => OnlyElement(UsedAliases(c))
  }

  function OnlyElement(xs: set<string>): (r: Option<string>)
    ensures r == None <==> |xs| != 1
    ensures r.Some? ==> xs == {r.value}
  {
    if |xs| == 1 then
      Singleton(xs);
      var x :| x in xs;
      Some(x)
    else None
  }

  lemma Singleton(xs: set<string>)
    requires |xs| == 1
    ensures exists x :: xs == {x}
    ensures forall x, y :: x in xs && y in xs ==> x == y
  {
    var x :| x in xs;
    assert |xs - {x}| == 0;
    assert xs == {x};
  }

  // Where the condition goes: -1 for the primary source, i for clause i, and
  // the number of clauses for the end of the plan. A `from` clause or an inner
  // join takes it, a left, right or outer join does not.
  function PushPoint(q: Query): (p: int)
    ensures -1 <= p <= |Clauses(q)|
    ensures p == -1 ==> PushAlias(q) == Some(q.name)
    ensures 0 <= p < |Clauses(q)| ==> Clauses(q)[p].join == Inner && PushAlias(q) == Some(Clauses(q)[p].name)
  {
    if PushAlias(q) == Some(q.name) then -1 else Taker(PushAlias(q), Clauses(q))
  }

  function Taker(push: Option<string>, cs: seq<Clause>): (i: nat)
    ensures i <= |cs|
    ensures i < |cs| ==> cs[i].join == Inner && push == Some(cs[i].name)
  {
    if cs == [] then 0
    else if cs[0].join == Inner && push == Some(cs[0].name) then 0
    else Taker(push, cs[1..]) + 1
  }

  // The plan with the condition at point p.
  function PushedPlan(q: Query, p: int): Plan
    requires -1 <= p <= |Clauses(q)|
  {
    var cs, scan := Clauses(q), Scan(q.source, q.name);
    if p == -1 then AddClauses(Guard(q.cond, scan), cs)
    else if p == |cs| then PlainPlan(q)
    else AddClauses(AddGuarded(AddClauses(scan, cs[..p]), cs[p], q.cond), cs[p + 1..])
  }

  function AddGuarded(root: Plan, c: Clause, cond: Option<Expr>): Plan {
    Join(root, Guard(cond, Scan(c.src, c.name)), c.on, c.join)
  }

  ghost predicate DistinctNames(q: Query) {
    && (forall c <- Clauses(q) :: c.name != q.name)
    && (forall i, j | 0 <= i < j < |Clauses(q)| :: Clauses(q)[i].name != Clauses(q)[j].name)
  }

  // ---- BuildQueryPlan ----

  // The type checker, as BuildQueryPlan uses it: whether a source has a list
  // or group type, and whether a condition is boolean, given the query
  // variables in scope.
  datatype Checker = Checker(source: (Expr, set<string>) -> bool, cond: (Expr, set<string>) -> bool)

  datatype BuildResult =
    | Plan(plan: Plan)
    | TypeError
    | Crash   // a second clause takes a condition that is gone

  // The query variables in scope where the condition is checked at point p.
  function ScopeAt(q: Query, p: int): set<string>
    requires -1 <= p <= |Clauses(q)|
  {
    {q.name} + NamesOf(if p < |Clauses(q)| then Clauses(q)[..p + 1] else Clauses(q))
  }

  function NamesOf(cs: seq<Clause>): set<string> {
    set c <- cs :: c.name
  }

  ghost predicate CheckedAt(q: Query, check: Checker, p: int)
    requires -1 <= p <= |Clauses(q)|
  {
    q.cond.Some? ==> check.cond(q.cond.value, ScopeAt(q, p))
  }

  // What the checker is asked about clause n: its source in the scope of the
  // clauses before it, its join condition in that scope and its own alias.
  ghost predicate ClauseChecked(q: Query, check: Checker, n: nat)
    requires n < |Clauses(q)|
  {
    var c, scope := Clauses(q)[n], {q.name} + NamesOf(Clauses(q)[..n]);
    check.source(c.src, scope) && (c.on.Some? ==> check.cond(c.on.value, scope + {c.name}))
  }

  // All that the checker is asked about a query.
  ghost predicate Checked(q: Query, check: Checker) {
    && check.source(q.source, {})
    && (forall n: nat | n < |Clauses(q)| :: ClauseChecked(q, check, n))
    && CheckedAt(q, check, PushPoint(q))
  }

  // The condition has gone to the primary source, and an inner clause has the
  // same alias.
  ghost predicate TakenTwice(q: Query, n: nat)
    requires n < |Clauses(q)|
  {
    PushPoint(q) == -1 && Clauses(q)[n].join == Inner && Clauses(q)[n].name == q.name
  }

  ghost predicate Crashes(q: Query) {
    exists n: nat | n < |Clauses(q)| :: TakenTwice(q, n)
  }

  // The first n clauses have passed.
  ghost predicate Passed(q: Query, check: Checker, n: nat)
    requires n <= |Clauses(q)|
  {
    check.source(q.source, {}) && forall m: nat | m < n :: ClauseChecked(q, check, m) && !TakenTwice(q, m)
  }

  // The plan of the first n clauses with the condition at point p < n.
  function PushedPrefix(q: Query, p: int, n: nat): Plan
    requires -1 <= p < n <= |Clauses(q)| || (p == -1 && n == 0)
  {
    var cs, scan := Clauses(q), Scan(q.source, q.name);
    if p == -1 then AddClauses(Guard(q.cond, scan), cs[..n])
    else AddClauses(AddGuarded(AddClauses(scan, cs[..p]), cs[p], q.cond), cs[p + 1..n])
  }

  // The variables of BuildQueryPlan after n clauses.
  ghost predicate BuildState(q: Query, check: Checker, n: nat, v: Vars) {
    var p := PushPoint(q);
    && n <= |Clauses(q)|
    && v.scope == {q.name} + NamesOf(Clauses(q)[..n])
    && if p < n then
         && v.cond == None && v.push == (if p == -1 then Some(q.name) else None)
         && v.root == PushedPrefix(q, p, n) && CheckedAt(q, check, p)
       else
         && v.cond == q.cond && v.push == PushAlias(q)
         && v.root == AddClauses(Scan(q.source, q.name), Clauses(q)[..n])
  }

  lemma {:induction false} AddClausesSnoc(root: Plan, cs: seq<Clause>, c: Clause)
    ensures AddClauses(root, cs + [c]) == AddClause(AddClauses(root, cs), c)
    decreases |cs|
  {
    if cs == [] {
      assert cs + [c] == [c];
    } else {
      assert (cs + [c])[1..] == cs[1..] + [c];
      AddClausesSnoc(AddClause(root, cs[0]), cs[1..], c);
    }
  }

  lemma {:induction false} TakerIsFirst(push: Option<string>, cs: seq<Clause>, j: nat)
    requires j < Taker(push, cs)
    ensures !(cs[j].join == Inner && push == Some(cs[j].name))
    decreases |cs|
  {
    if j > 0 {
      TakerIsFirst(push, cs[1..], j - 1);
    }
  }

  // No clause before the push point takes the condition.
  lemma NotTaken(q: Query, n: nat)
    requires n < PushPoint(q)
    ensures !(Clauses(q)[n].join == Inner && PushAlias(q) == Some(Clauses(q)[n].name))
  {
    TakerIsFirst(PushAlias(q), Clauses(q), n);
  }

  // Nor does the end of the plan.
  lemma TakenAt(q: Query, n: nat)
    requires n < |Clauses(q)| && n <= PushPoint(q)
    requires Clauses(q)[n].join == Inner && PushAlias(q) == Some(Clauses(q)[n].name)
    ensures PushPoint(q) == n && q.cond.Some?
  {
    if n < PushPoint(q) {
      NotTaken(q, n);
    }
  }

  lemma PushAliasUsed(q: Query)
    requires PushAlias(q).Some?
    ensures q.cond.Some? && UsedAliases(q.cond.value) == {PushAlias(q).value}
  {
  }

  lemma NextClause(q: Query, check: Checker, n: nat, v: Vars)
    requires BuildState(q, check, n, v) && n < |Clauses(q)|
    ensures var c, scope := Clauses(q)[n], v.scope + {Clauses(q)[n].name};
      if c.join == Inner && v.push == Some(c.name) then
        if v.cond == None then TakenTwice(q, n) && !DistinctNames(q)
        else
          var rhs := Where(v.cond.value, Scan(c.src, c.name));
          check.cond(v.cond.value, scope) ==>
            BuildState(q, check, n + 1, Vars(Join(v.root, rhs, c.on, c.join), None, None, scope))
      else
        BuildState(q, check, n + 1, v.(root := Join(v.root, Scan(c.src, c.name), c.on, c.join), scope := scope))
    ensures var c, scope := Clauses(q)[n], {q.name} + NamesOf(Clauses(q)[..n]);
      && v.scope == scope
      && (c.join == Inner && v.push == Some(c.name) && v.cond.Some? ==>
        PushPoint(q) == n && v.cond == q.cond && ScopeAt(q, n) == scope + {c.name} && !TakenTwice(q, n))
      && (!(c.join == Inner && v.push == Some(c.name)) ==> !TakenTwice(q, n))
  {
    hide *;
    NextState(q, check, n, v);
    var c := Clauses(q)[n];
    if PushPoint(q) < n {
      NextAfter(q, check, n, v);
    } else if c.join == Inner && PushAlias(q) == Some(c.name) {
      TakenAt(q, n);
      NextTaken(q, check, n, v);
    } else {
      NextBefore(q, check, n, v);
    }
  }

  // Where the condition is, by the state of the loop.
  lemma NextState(q: Query, check: Checker, n: nat, v: Vars)
    requires BuildState(q, check, n, v) && n < |Clauses(q)|
    ensures v.scope == {q.name} + NamesOf(Clauses(q)[..n])
    ensures ScopeAt(q, n) == v.scope + {Clauses(q)[n].name}
    ensures var c, taken := Clauses(q)[n], Clauses(q)[n].join == Inner && v.push == Some(Clauses(q)[n].name);
      && (taken && v.cond == None ==> TakenTwice(q, n))
      && (taken && v.cond.Some? ==> PushPoint(q) == n && v.cond == q.cond && !TakenTwice(q, n))
      && (!taken ==> !TakenTwice(q, n))
  {
    hide PushPoint, PushAlias, Clauses, NamesOf, PushedPrefix, CheckedAt, AddClauses;
    NextScope(q, n);
    var c := Clauses(q)[n];
    if PushPoint(q) >= n && c.join == Inner && PushAlias(q) == Some(c.name) {
      TakenAt(q, n);
    }
  }

  lemma NextScope(q: Query, n: nat)
    requires n < |Clauses(q)|
    ensures NamesOf(Clauses(q)[..n + 1]) == NamesOf(Clauses(q)[..n]) + {Clauses(q)[n].name}
    ensures Clauses(q)[..n + 1] == Clauses(q)[..n] + [Clauses(q)[n]]
    ensures Clauses(q)[n] in Clauses(q)
  {
    assert Clauses(q)[..n + 1] == Clauses(q)[..n] + [Clauses(q)[n]];
  }

  lemma PushedPrefixSnoc(q: Query, p: int, n: nat)
    requires -1 <= p < n < |Clauses(q)| || (p == -1 && n == 0 < |Clauses(q)|)
    ensures PushedPrefix(q, p, n + 1) == AddClause(PushedPrefix(q, p, n), Clauses(q)[n])
  {
    hide AddClauses, AddGuarded, Guard, AddClause;
    var cs, scan := Clauses(q), Scan(q.source, q.name);
    NextScope(q, n);
    if p == -1 {
      AddClausesSnoc(Guard(q.cond, scan), cs[..n], cs[n]);
    } else {
      assert cs[p + 1..n + 1] == cs[p + 1..n] + [cs[n]];
      AddClausesSnoc(AddGuarded(AddClauses(scan, cs[..p]), cs[p], q.cond), cs[p + 1..n], cs[n]);
    }
  }

  // The condition is gone already.
  lemma NextAfter(q: Query, check: Checker, n: nat, v: Vars)
    requires BuildState(q, check, n, v) && PushPoint(q) < n < |Clauses(q)|
    ensures v.cond == None
    ensures var c := Clauses(q)[n];
      && (v.push == Some(c.name) ==> !DistinctNames(q))
      && BuildState(q, check, n + 1,
           v.(root := Join(v.root, Scan(c.src, c.name), c.on, c.join), scope := v.scope + {c.name}))
  {
    hide PushPoint, PushedPrefix, Clauses, NamesOf, CheckedAt;
    NextScope(q, n);
    PushedPrefixSnoc(q, PushPoint(q), n);
  }

  // The condition is taken here.
  lemma NextTaken(q: Query, check: Checker, n: nat, v: Vars)
    requires BuildState(q, check, n, v) && PushPoint(q) == n < |Clauses(q)| && q.cond.Some?
    ensures v.cond == q.cond && v.push == PushAlias(q)
    ensures var c := Clauses(q)[n];
      var rhs := Where(q.cond.value, Scan(c.src, c.name));
      check.cond(q.cond.value, v.scope + {c.name}) ==>
        BuildState(q, check, n + 1, Vars(Join(v.root, rhs, c.on, c.join), None, None, v.scope + {c.name}))
  {
    hide PushPoint, PushAlias, AddClauses, Clauses, NamesOf;
    var c := Clauses(q)[n];
    NextScope(q, n);
    assert ScopeAt(q, n) == v.scope + {c.name};
    AddNoClauses(AddGuarded(v.root, c, q.cond));
    assert Clauses(q)[n + 1..n + 1] == [];
  }

  // The condition is still to come.
  lemma NextBefore(q: Query, check: Checker, n: nat, v: Vars)
    requires BuildState(q, check, n, v) && n <= PushPoint(q) && n < |Clauses(q)|
    requires var c := Clauses(q)[n]; !(c.join == Inner && PushAlias(q) == Some(c.name))
    ensures v.push == PushAlias(q)
    ensures var c := Clauses(q)[n];
      BuildState(q, check, n + 1,
        v.(root := Join(v.root, Scan(c.src, c.name), c.on, c.join), scope := v.scope + {c.name}))
  {
    hide AddClauses, Clauses, NamesOf, PushPoint, PushAlias, PushedPrefix, CheckedAt;
    NextScope(q, n);
    AddClausesSnoc(Scan(q.source, q.name), Clauses(q)[..n], Clauses(q)[n]);
  }

  lemma AddNoClauses(root: Plan)
    ensures AddClauses(root, []) == root
  {
  }

  // The variables that the loops of BuildQueryPlan reassign.
  datatype Vars = Vars(root: Plan, cond: Option<Expr>, push: Option<string>, scope: set<string>)

  datatype Step = Next(vars: Vars) | Stop(result: BuildResult)

  // One round of either loop: check the source and the join condition, and take
  // the `where` condition if its alias has come up.
  method AddNext(q: Query, check: Checker, c: Clause, v: Vars, ghost n: nat) returns (r: Step)
    requires n < |Clauses(q)| && c == Clauses(q)[n]
    requires BuildState(q, check, n, v) && Passed(q, check, n)
    ensures r.Next? ==> BuildState(q, check, n + 1, r.vars) && Passed(q, check, n + 1)
    ensures r.Stop? ==> !r.result.Plan?
    ensures r.Stop? && r.result.TypeError? ==>
      !ClauseChecked(q, check, n) || (PushPoint(q) == n && !CheckedAt(q, check, n))
    ensures r.Stop? && r.result.Crash? ==> TakenTwice(q, n) && !DistinctNames(q)
  {
    hide *;
    NextClause(q, check, n, v);
    PassedNext(q, check, n);
    CheckedAtIs(q, check, n);
    if !check.source(c.src, v.scope) {
      return Stop(TypeError);
    }
    var scope := v.scope + {c.name};
    if c.on.Some? && !check.cond(c.on.value, scope) {
      return Stop(TypeError);
    }
    var rhs := Scan(c.src, c.name);
    if c.join == Inner && v.push == Some(c.name) {
      if v.cond == None {
        return Stop(Crash);
      }
      if !check.cond(v.cond.value, scope) {
        return Stop(TypeError);
      }
      rhs := Where(v.cond.value, rhs);
      return Next(Vars(Join(v.root, rhs, c.on, c.join), None, None, scope));
    }
    return Next(v.(root := Join(v.root, rhs, c.on, c.join), scope := scope));
  }

  lemma PassedNext(q: Query, check: Checker, n: nat)
    requires n < |Clauses(q)| && Passed(q, check, n)
    ensures Passed(q, check, n + 1) <==> ClauseChecked(q, check, n) && !TakenTwice(q, n)
    ensures var c, scope := Clauses(q)[n], {q.name} + NamesOf(Clauses(q)[..n]);
      ClauseChecked(q, check, n) <==>
        check.source(c.src, scope) && (c.on.Some? ==> check.cond(c.on.value, scope + {c.name}))
  {
    hide TakenTwice, Clauses, NamesOf;
  }

  lemma CheckedAtIs(q: Query, check: Checker, p: int)
    requires -1 <= p <= |Clauses(q)|
    ensures CheckedAt(q, check, p) <==> (q.cond.Some? ==> check.cond(q.cond.value, ScopeAt(q, p)))
  {
  }

  // A plan is built exactly if everything is checked and nothing is taken twice;
  // a type error is the answer to a failed check only.
  method BuildQueryPlan(q: Query, check: Checker) returns (r: BuildResult)
    requires WellFormed(q)
    ensures r.Plan? ==> r.plan == PushedPlan(q, PushPoint(q))
    ensures r.Plan? <==> Checked(q, check) && !Crashes(q)
    ensures r.TypeError? ==> !Checked(q, check)
    ensures r.Crash? ==> Crashes(q) && !DistinctNames(q)
  {
    hide *;
    PassedStart(q, check);
    BuildStart(q, check);
    if !check.source(q.source, {}) {
      return TypeError;
    }
    var v := Vars(Scan(q.source, q.name), q.cond, PushAlias(q), {q.name});
    if v.push == Some(q.name) {
      if !check.cond(q.cond.value, v.scope) {
        return TypeError;
      }
      v := v.(root := Where(q.cond.value, v.root), cond := None);
    }
    for i := 0 to |q.froms|
      invariant BuildState(q, check, i, v) && Passed(q, check, i)
    {
      ClauseAt(q, i);
      var step := AddNext(q, check, q.froms[i], v, i);
      if step.Stop? {
        StoppedAt(q, check, i, step.result);
        return step.result;
      }
      v := step.vars;
    }
    for i := 0 to |q.joins|
      invariant BuildState(q, check, |q.froms| + i, v) && Passed(q, check, |q.froms| + i)
    {
      ClauseAt(q, |q.froms| + i);
      var step := AddNext(q, check, q.joins[i], v, |q.froms| + i);
      if step.Stop? {
        StoppedAt(q, check, |q.froms| + i, step.result);
        return step.result;
      }
      v := step.vars;
    }
    BuildEnd(q, check, v);
    PassedAll(q, check);
    if v.cond == None {
      return Plan(v.root);
    }
    if !check.cond(v.cond.value, v.scope) {
      return TypeError;
    }
    return Plan(Where(v.cond.value, v.root));
  }

  lemma PassedStart(q: Query, check: Checker)
    ensures Checked(q, check) ==> check.source(q.source, {}) && CheckedAt(q, check, PushPoint(q))
    ensures check.source(q.source, {}) ==> Passed(q, check, 0)
    ensures |Clauses(q)| == |q.froms| + |q.joins|
    ensures PushPoint(q) == -1 <==> PushAlias(q) == Some(q.name)
    ensures CheckedAt(q, check, -1) <==> (q.cond.Some? ==> check.cond(q.cond.value, {q.name}))
  {
    hide PushAlias, Taker;
    assert ScopeAt(q, -1) == {q.name};
  }

  lemma StoppedAt(q: Query, check: Checker, n: nat, r: BuildResult)
    requires n < |Clauses(q)|
    ensures !ClauseChecked(q, check, n) || (PushPoint(q) == n && !CheckedAt(q, check, n)) ==> !Checked(q, check)
    ensures TakenTwice(q, n) ==> Crashes(q)
  {
    hide ClauseChecked, TakenTwice, PushPoint, CheckedAt, Clauses;
  }

  lemma PassedAll(q: Query, check: Checker)
    requires Passed(q, check, |Clauses(q)|)
    ensures Checked(q, check) <==> CheckedAt(q, check, PushPoint(q))
    ensures !Crashes(q)
  {
    hide ClauseChecked, TakenTwice, PushPoint, CheckedAt, Clauses;
  }

  // The clauses are the `from` clauses, then the joins.
  lemma ClauseAt(q: Query, n: nat)
    requires WellFormed(q) && n < |q.froms| + |q.joins|
    ensures n < |Clauses(q)|
    ensures n < |q.froms| ==> Clauses(q)[n] == q.froms[n] && q.froms[n].join == Inner && q.froms[n].on == None
    ensures n >= |q.froms| ==> Clauses(q)[n] == q.joins[n - |q.froms|] && q.joins[n - |q.froms|].on.Some?
  {
    if n < |q.froms| {
      assert q.froms[n] in q.froms;
    } else {
      assert q.joins[n - |q.froms|] in q.joins;
    }
  }

  lemma BuildStart(q: Query, check: Checker)
    ensures var scan, push := Scan(q.source, q.name), PushAlias(q);
      if push == Some(q.name) then
        q.cond.Some? && (check.cond(q.cond.value, {q.name}) ==>
           BuildState(q, check, 0, Vars(Where(q.cond.value, scan), None, push, {q.name})))
      else BuildState(q, check, 0, Vars(scan, q.cond, push, {q.name}))
  {
    assert Clauses(q)[..0] == [];
  }

  lemma BuildEnd(q: Query, check: Checker, v: Vars)
    requires BuildState(q, check, |q.froms| + |q.joins|, v)
    ensures v.cond == None ==> v.root == PushedPlan(q, PushPoint(q)) && CheckedAt(q, check, PushPoint(q))
    ensures v.cond.Some? ==> Where(v.cond.value, v.root) == PushedPlan(q, PushPoint(q))
    ensures v.cond.Some? ==> (check.cond(v.cond.value, v.scope) <==> CheckedAt(q, check, PushPoint(q)))
    ensures |Clauses(q)| == |q.froms| + |q.joins|
  {
    var cs := Clauses(q);
    assert cs[..|cs|] == cs;
  }
}
