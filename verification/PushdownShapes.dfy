// For which shapes of queries the pushdown of BuildQueryPlan
// (types/query_plan_builder.go) is sound.
module PushdownShapes {
  import opened Options
  import opened QueryExpr
  import opened QueryPlan
  import opened Pushdown

  // ---- Where pushdown changes the meaning ----

  // Same aliases and join types, any expressions.
  ghost predicate SameShape(q: Query, q': Query) {
    && WellFormed(q') && q'.name == q.name && |q'.froms| == |q.froms|
    && |Clauses(q')| == |Clauses(q)|
    && forall i | 0 <= i < |Clauses(q)| ::
         Clauses(q')[i].name == Clauses(q)[i].name && Clauses(q')[i].join == Clauses(q)[i].join
  }

  function AliasAt(q: Query, p: int): string
    requires -1 <= p < |Clauses(q)|
  {
    if p == -1 then q.name else Clauses(q)[p].name
  }

  // ---- Two worlds in which every source has one element ----

  // Every join condition holds, the `where` condition never does.
  const TINY: Interp<int> := Interp(_ => 1, _ => 0, (v, _) => v, (_, _) => 0, v => v == 1, _ => [0], 0)

  // Every join condition holds, and the `where` condition does where all that it
  // reads is bound.
  const ONES: Interp<int> :=
    Interp(_ => 1, _ => 0, (v, _) => v, (_, vs) => if 0 in vs then 0 else 1, v => v == 1, _ => [1], 0)

  function TinyClause(c: Clause): Clause {
    Clause(c.name, Lit(""), if c.on.Some? then Some(Lit("")) else None, c.join)
  }

  function TinyClauses(cs: seq<Clause>): (tiny: seq<Clause>)
    ensures |tiny| == |cs| && forall i | 0 <= i < |cs| :: tiny[i].join == cs[i].join
  {
    seq(|cs|, i requires 0 <= i < |cs| => TinyClause(cs[i]))
  }

  // f(name, {xs}): the set literal hides the xs from usedAliases.
  function TinyCond(name: string, xs: seq<string>): Expr {
    Compound(Form, "", [Selector(name, []), Compound(Unconverted, "", Selectors(xs))])
  }

  function Selectors(xs: seq<string>): seq<Expr> {
    seq(|xs|, i requires 0 <= i < |xs| => Selector(xs[i], []))
  }

  function TinyQuery(q: Query, p: int, xs: seq<string>): Query
    requires -1 <= p < |Clauses(q)|
  {
    Query(q.name, Lit(""), TinyClauses(q.froms), TinyClauses(q.joins), Some(TinyCond(AliasAt(q, p), xs)))
  }

  lemma TinyCondReads(name: string, xs: seq<string>)
    ensures Reads(TinyCond(name, xs)) == {name} + set x | x in xs
    ensures UsedAliases(TinyCond(name, xs)) == {name}
  {
    hide UsedAliases, Walk, FromExpr;
    var cond := TinyCond(name, xs);
    var parts := cond.parts;
    UsedAliasesExactly(cond);
    assert SeenReads(parts[0]) == {name} && SeenReads(parts[1]) == {};
    assert StrayFields(parts[0]) == {} && StrayFields(parts[1]) == {};
    SelectorsRead(xs);
    assert Reads(parts[0]) == {name} && Reads(parts[1]) == set x | x in xs;
  }

  lemma SelectorsRead(xs: seq<string>)
    ensures Reads(Compound(Unconverted, "", Selectors(xs))) == set x | x in xs
  {
    var parts := Selectors(xs);
    assert forall i | 0 <= i < |xs| :: Reads(parts[i]) == {xs[i]};
  }

  lemma TinyShape(q: Query, p: int, xs: seq<string>)
    requires WellFormed(q) && -1 <= p < |Clauses(q)|
    ensures SameShape(q, TinyQuery(q, p, xs))
    ensures Clauses(TinyQuery(q, p, xs)) == TinyClauses(Clauses(q))
  {
    hide TinyCond;
    var q', cs := TinyQuery(q, p, xs), Clauses(q);
    assert Clauses(q') == TinyClauses(cs);
    forall c | c in q'.froms ensures c.join == Inner && c.on == None {
      var i :| 0 <= i < |q'.froms| && q'.froms[i] == c;
      assert q.froms[i] in q.froms;
    }
    forall c | c in q'.joins ensures c.on.Some? {
      var i :| 0 <= i < |q'.joins| && q'.joins[i] == c;
      assert q.joins[i] in q.joins;
    }
  }

  // The builder picks point p for the tiny query.
  lemma TinyPushPoint(q: Query, p: int, xs: seq<string>)
    requires WellFormed(q) && DistinctNames(q) && -1 <= p < |Clauses(q)|
    requires 0 <= p ==> Clauses(q)[p].join == Inner
    ensures PushPoint(TinyQuery(q, p, xs)) == p
  {
    hide UsedAliases, Reads, Clauses, WellFormed, SameShape;
    var q', alias := TinyQuery(q, p, xs), AliasAt(q, p);
    TinyShape(q, p, xs);
    TinyCondReads(alias, xs);
    assert PushAlias(q') == Some(alias);
    if p >= 0 {
      var cs := Clauses(q');
      assert Clauses(q)[p] in Clauses(q);
      assert cs[p].name == alias && cs[p].join == Inner;
      TakerIs(alias, cs, p);
    }
  }

  lemma {:induction false} TakerIs(alias: string, cs: seq<Clause>, p: nat)
    requires p < |cs| && cs[p].join == Inner && cs[p].name == alias
    requires forall i | 0 <= i < p :: cs[i].name != alias
    ensures Taker(Some(alias), cs) == p
  {
    if p > 0 {
      TakerIs(alias, cs[1..], p - 1);
    }
  }

  // ---- Joins that make rows ----

  lemma TinyScan(c: Clause, row: Row<int>)
    ensures Exec(TINY, Scan(Lit(""), c.name), row) == [row[c.name := 0]]
    ensures Filter(TINY, TinyClause(c).on, [row[c.name := 0]]) == [row[c.name := 0]]
  {
    assert Extend(row, c.name, [0]) == [row[c.name := 0]] + Extend(row, c.name, []);
    assert Filter(TINY, TinyClause(c).on, [row[c.name := 0]][1..]) == [];
  }

  lemma TinyFilter(name: string, xs: seq<string>, rows: seq<Row<int>>)
    ensures Filter(TINY, Some(TinyCond(name, xs)), rows) == []
  {
    FilterUniform(TINY, Some(TinyCond(name, xs)), rows, false);
  }

  lemma {:induction false} EmptyStaysEmpty<V>(I: Interp<V>, root: Plan, cs: seq<Clause>, row: Row<V>)
    requires Exec(I, root, row) == [] && forall c <- cs :: RowWise(c)
    ensures Exec(I, AddClauses(root, cs), row) == []
    decreases |cs|
  {
    if cs != [] {
      assert cs[0] in cs;
      EmptyStaysEmpty(I, AddClause(root, cs[0]), cs[1..], row);
    }
  }

  lemma {:induction false} RowsStayRows(root: Plan, cs: seq<Clause>, row: Row<int>)
    requires Exec(TINY, root, row) != []
    ensures Exec(TINY, AddClauses(root, TinyClauses(cs)), row) != []
    decreases |cs|
  {
    if cs != [] {
      TinyScan(cs[0], Exec(TINY, root, row)[0]);
      var scan, on, first := Scan(Lit(""), cs[0].name), TinyClause(cs[0]).on, Exec(TINY, root, row)[0];
      assert Matches(TINY, scan, on, cs[0].join in {Left, Outer}, first) != [];
      assert TinyClauses(cs)[1..] == TinyClauses(cs[1..]);
      RowsStayRows(AddClause(root, TinyClause(cs[0])), cs[1..], row);
    }
  }

  // A right or outer join makes rows out of nothing.
  lemma RowsFromNothing(root: Plan, c: Clause, row: Row<int>)
    requires Exec(TINY, root, row) == [] && !RowWise(c)
    ensures Exec(TINY, AddClause(root, TinyClause(c)), row) != []
  {
    TinyScan(c, row);
    assert Unmatched(TINY, TinyClause(c).on, [], row + Nothings(TINY, Names(root)), [row[c.name := 0]]) != [];
  }

  lemma {:induction false} FirstNotRowWise(cs: seq<Clause>) returns (k: nat)
    requires !(forall c <- cs :: RowWise(c))
    ensures k < |cs| && !RowWise(cs[k]) && forall c <- cs[..k] :: RowWise(c)
    decreases |cs|
  {
    if !RowWise(cs[0]) {
      k := 0;
    } else {
      var k' := FirstNotRowWise(cs[1..]);
      k := k' + 1;
      assert cs[..k] == [cs[0]] + cs[1..][..k'];
    }
  }

  lemma EmptyThenRows(root: Plan, cs: seq<Clause>, row: Row<int>)
    requires Exec(TINY, root, row) == [] && !(forall c <- cs :: RowWise(c))
    ensures Exec(TINY, AddClauses(root, TinyClauses(cs)), row) != []
  {
    var k := FirstNotRowWise(cs);
    var a, c, b := TinyClauses(cs[..k]), TinyClause(cs[k]), TinyClauses(cs[k + 1..]);
    assert TinyClauses(cs) == (a + [c]) + b;
    AddClausesAppend(root, a + [c], b);
    AddClausesSnoc(root, a, c);
    forall d | d in a ensures RowWise(d) {
      var i :| 0 <= i < |a| && a[i] == d;
      assert cs[..k][i] in cs[..k];
    }
    EmptyStaysEmpty(TINY, root, a, row);
    RowsFromNothing(AddClauses(root, a), cs[k], row);
    RowsStayRows(AddClause(AddClauses(root, a), c), cs[k + 1..], row);
  }

  // A right or outer join comes after the push point.
  ghost predicate MakesRows(q: Query, p: int) {
    && WellFormed(q) && -1 <= p < |Clauses(q)| && (0 <= p ==> Clauses(q)[p].join == Inner)
    && exists i :: p < i < |Clauses(q)| && !RowWise(Clauses(q)[i])
  }

  lemma MakesRowsIff(q: Query, p: int)
    requires -1 <= p < |Clauses(q)|
    ensures MakesRows(q, p) <==>
      WellFormed(q) && (0 <= p ==> Clauses(q)[p].join == Inner) && !(forall c <- Later(q, p) :: RowWise(c))
  {
    hide RowWise, WellFormed, Clauses;
    SuffixRowWise(Clauses(q), p);
  }

  lemma SuffixRowWise(cs: seq<Clause>, p: int)
    requires -1 <= p < |cs|
    ensures (exists i :: p < i < |cs| && !RowWise(cs[i])) <==> !(forall c <- cs[p + 1..] :: RowWise(c))
  {
    hide RowWise;
    if i :| p < i < |cs| && !RowWise(cs[i]) {
      assert cs[p + 1..][i - p - 1] == cs[i];
    }
    if c :| c in cs[p + 1..] && !RowWise(c) {
      var j :| 0 <= j < |cs[p + 1..]| && cs[p + 1..][j] == c;
      assert cs[p + 1 + j] == c;
    }
  }

  // A right or outer join after the push point: the tiny query has no result,
  // and its pushed plan has rows.
  lemma PushedPlanMakesRows(q: Query, p: int, xs: seq<string>)
    requires MakesRows(q, p)
    ensures var q' := TinyQuery(q, p, xs);
      Exec(TINY, PlainPlan(q'), map[]) == [] != Exec(TINY, PushedPlan(q', p), map[])
  {
    hide *;
    MakesRowsParts(q, p);
    TinyParts(q, p, xs);
    var q', cond := TinyQuery(q, p, xs), TinyCond(AliasAt(q, p), xs);
    WhereFilters(TINY, cond, AddClauses(Scan(q'.source, q'.name), Clauses(q')), map[]);
    TinyFilter(AliasAt(q, p), xs, Exec(TINY, AddClauses(Scan(q'.source, q'.name), Clauses(q')), map[]));
    GuardFilters(TINY, q', p, cond, map[]);
    TinyFilter(AliasAt(q, p), xs, Exec(TINY, PlanAt(q', p), map[]));
    EmptyThenRows(GuardedAt(q', p), Later(q, p), map[]);
  }

  lemma MakesRowsParts(q: Query, p: int)
    requires MakesRows(q, p)
    ensures WellFormed(q) && -1 <= p < |Clauses(q)| && (0 <= p ==> Clauses(q)[p].join == Inner)
    ensures !(forall c <- Later(q, p) :: RowWise(c))
  {
    MakesRowsIff(q, p);
  }

  // The clauses up to the push point.
  function Front(q: Query, p: int): seq<Clause>
    requires -1 <= p < |Clauses(q)|
  {
    Clauses(q)[..p + 1]
  }

  // The tiny query and its plans.
  lemma TinyParts(q: Query, p: int, xs: seq<string>)
    requires WellFormed(q) && -1 <= p < |Clauses(q)| && (0 <= p ==> Clauses(q)[p].join == Inner)
    ensures var q', cond := TinyQuery(q, p, xs), TinyCond(AliasAt(q, p), xs);
      && q'.cond == Some(cond) && q'.source == Lit("") && q'.name == q.name && Clauses(q') == TinyClauses(Clauses(q))
      && (0 <= p ==> Clauses(q')[p].join == Inner)
      && PlainPlan(q') == Where(cond, AddClauses(Scan(q'.source, q'.name), Clauses(q')))
      && PushedPlan(q', p) == AddClauses(GuardedAt(q', p), TinyClauses(Later(q, p)))
      && PlanAt(q', p) == AddClauses(Scan(Lit(""), q.name), TinyClauses(Front(q, p)))
  {
    hide *;
    hide AddClause, AddGuarded, Guard;
    TinyShape(q, p, xs);
    TinyIs(q, p, xs);
    var q' := TinyQuery(q, p, xs);
    PlainPlanIs(q');
    PlanSplits(q', p);
    TinyLater(q, q', p);
    TinyFront(q, q', p);
  }

  lemma TinyIs(q: Query, p: int, xs: seq<string>)
    requires -1 <= p < |Clauses(q)|
    ensures var q' := TinyQuery(q, p, xs);
      q'.cond == Some(TinyCond(AliasAt(q, p), xs)) && q'.source == Lit("") && q'.name == q.name
  {
    hide Clauses, TinyCond, AliasAt;
  }

  lemma TinyLater(q: Query, q': Query, p: int)
    requires -1 <= p < |Clauses(q)| && Clauses(q') == TinyClauses(Clauses(q))
    ensures Clauses(q')[p + 1..] == TinyClauses(Later(q, p))
  {
    hide Clauses;
  }

  lemma TinyFront(q: Query, q': Query, p: int)
    requires -1 <= p < |Clauses(q)| && Clauses(q') == TinyClauses(Clauses(q))
    requires q'.source == Lit("") && q'.name == q.name
    ensures PlanAt(q', p) == AddClauses(Scan(Lit(""), q.name), TinyClauses(Front(q, p)))
  {
    hide Clauses, AddClauses;
    var tiny, scan := Clauses(q'), Scan(Lit(""), q.name);
    if p == -1 {
      NoClauses(scan);
      assert TinyClauses(Front(q, p)) == [];
    } else {
      AddClausesSnoc(scan, tiny[..p], tiny[p]);
      assert TinyClauses(Front(q, p)) == tiny[..p] + [tiny[p]];
    }
  }

  lemma NoClauses(root: Plan)
    ensures AddClauses(root, []) == root
  {
  }

  // ---- Reads that usedAliases does not see ----

  lemma OnesScan(c: Clause, row: Row<int>)
    ensures Exec(ONES, Scan(Lit(""), c.name), row) == [row[c.name := 1]]
    ensures forall r :: Holds(ONES, TinyClause(c).on, r)
  {
    assert Extend(row, c.name, [1]) == [row[c.name := 1]] + Extend(row, c.name, []);
  }

  // A clause extends the one row, whatever its join.
  lemma OnesClause(root: Plan, c: Clause, row: Row<int>, out: Row<int>)
    requires Exec(ONES, root, row) == [out]
    ensures Exec(ONES, AddClause(root, TinyClause(c)), row) == [out[c.name := 1]]
  {
    hide Holds;
    var scan, on := Scan(Lit(""), c.name), TinyClause(c).on;
    OnesScan(c, out);
    OnesScan(c, row);
    FilterUniform(ONES, on, [out[c.name := 1]], true);
    assert [out][1..] == [];
    assert Matches(ONES, scan, on, c.join in {Left, Outer}, out) == [out[c.name := 1]];
    var joined := LateralJoin(ONES, scan, on, c.join in {Left, Outer}, [out]);
    assert joined == [out[c.name := 1]] + LateralJoin(ONES, scan, on, c.join in {Left, Outer}, []);
    NoneUnmatched(on, out, row + Nothings(ONES, Names(root)), row[c.name := 1]);
  }

  lemma NoneUnmatched(on: Option<Expr>, out: Row<int>, nothings: Row<int>, right: Row<int>)
    requires forall r :: Holds(ONES, on, r)
    ensures Unmatched(ONES, on, [out], nothings, [right]) == []
  {
    hide Holds;
    var rows, rights := [out], [right];
    assert Holds(ONES, on, rows[0] + rights[0]);
    assert Unmatched(ONES, on, rows, nothings, rights[1..]) == [];
  }

  function Bound(row: Row<int>, cs: seq<Clause>): Row<int>
    decreases |cs|
  {
    if cs == [] then row else Bound(row[cs[0].name := 1], cs[1..])
  }

  lemma {:induction false} BoundIs(row: Row<int>, cs: seq<Clause>, x: string)
    ensures x in Bound(row, cs) <==> x in row || x in NamesOf(cs)
    ensures x in Bound(row, cs) ==> Bound(row, cs)[x] == if x in NamesOf(cs) then 1 else row[x]
    decreases |cs|
  {
    if cs != [] {
      BoundIs(row[cs[0].name := 1], cs[1..], x);
      assert cs == [cs[0]] + cs[1..];
    }
  }

  lemma {:induction false} OnesClauses(root: Plan, cs: seq<Clause>, row: Row<int>, out: Row<int>)
    requires Exec(ONES, root, row) == [out]
    ensures Exec(ONES, AddClauses(root, TinyClauses(cs)), row) == [Bound(out, cs)]
    decreases |cs|
  {
    hide Exec;
    if cs != [] {
      OnesClause(root, cs[0], row, out);
      assert TinyClauses(cs)[1..] == TinyClauses(cs[1..]) && TinyClauses(cs)[0] == TinyClause(cs[0]);
      OnesClauses(AddClause(root, TinyClause(cs[0])), cs[1..], row, out[cs[0].name := 1]);
    }
  }

  // The condition holds where the alias and all of xs are 1, and does not where
  // one of xs is unbound.
  lemma OnesCond(row: Row<int>, name: string, xs: seq<string>)
    ensures name in row && row[name] == 1 && (forall x <- xs :: x in row && row[x] == 1) ==>
      Holds(ONES, Some(TinyCond(name, xs)), row)
    ensures (exists x <- xs :: x !in row) ==> !Holds(ONES, Some(TinyCond(name, xs)), row)
  {
    var parts := TinyCond(name, xs).parts;
    var inner := Selectors(xs);
    AllOnes(row, Form, parts);
    AllOnes(row, Unconverted, inner);
    assert Eval(ONES, row, parts[0]) == if name in row then row[name] else 0;
    assert forall i | 0 <= i < |xs| :: Eval(ONES, row, inner[i]) == if xs[i] in row then row[xs[i]] else 0;
    if x :| x in xs && x !in row {
      var i :| 0 <= i < |xs| && xs[i] == x;
      assert Eval(ONES, row, inner[i]) == 0;
      assert Eval(ONES, row, parts[1]) == 0;
    }
  }

  lemma AllOnes(row: Row<int>, kind: Kind, parts: seq<Expr>)
    ensures Eval(ONES, row, Compound(kind, "", parts)) ==
      if exists i | 0 <= i < |parts| :: Eval(ONES, row, parts[i]) == 0 then 0 else 1
  {
    var vs := EvalParts(ONES, row, Compound(kind, "", parts));
    if i :| 0 <= i < |parts| && Eval(ONES, row, parts[i]) == 0 {
      assert vs[i] == 0;
    }
  }

  lemma EvalParts<V>(I: Interp<V>, row: Row<V>, e: Expr) returns (vs: seq<V>)
    requires e.Compound?
    ensures |vs| == |e.parts| && forall i | 0 <= i < |vs| :: vs[i] == Eval(I, row, e.parts[i])
    ensures Eval(I, row, e) == I.op(e.name, vs)
  {
    match e
    case Compound(_, name, parts) =>
      vs := seq(|parts|, i requires 0 <= i < |parts| => Eval(I, row, parts[i]));
  }

  // All of xs but b, bound outside the query.
  function Outside(xs: seq<string>, b: string): Row<int> {
    map x | x in xs && x != b :: 1
  }

  // Clause k, after the push point, binds the name b that the condition reads:
  // the query has a row, and its pushed plan has none.
  lemma PushedPlanLosesRows(q: Query, p: int, k: int, xs: seq<string>)
    requires WellFormed(q) && DistinctNames(q) && -1 <= p < k < |Clauses(q)|
    requires 0 <= p ==> Clauses(q)[p].join == Inner
    requires (forall c <- Later(q, p) :: RowWise(c)) && Clauses(q)[k].name in xs
    ensures var q', row := TinyQuery(q, p, xs), Outside(xs, Clauses(q)[k].name);
      Exec(ONES, PlainPlan(q'), row) != [] == Exec(ONES, PushedPlan(q', p), row)
  {
    hide *;
    var b, alias := Clauses(q)[k].name, AliasAt(q, p);
    TinyParts(q, p, xs);
    AllBound(q, p, k, xs);
    var q', row := TinyQuery(q, p, xs), Outside(xs, b);
    PlainHolds(q', Clauses(q), alias, xs, row);
    PushedHoldsNot(q, p, alias, xs, row, b);
  }

  lemma PlainHolds(q': Query, cs: seq<Clause>, alias: string, xs: seq<string>, row: Row<int>)
    requires var root := AddClauses(Scan(Lit(""), q'.name), TinyClauses(cs));
      PlainPlan(q') == Where(TinyCond(alias, xs), root)
    requires var end := Bound(row[q'.name := 1], cs);
      alias in end && end[alias] == 1 && forall x <- xs :: x in end && end[x] == 1
    ensures Exec(ONES, PlainPlan(q'), row) != []
  {
    hide *;
    var cond, scan, out := TinyCond(alias, xs), Scan(Lit(""), q'.name), row[q'.name := 1];
    OnesSource(q'.name, row);
    OnesClauses(scan, cs, row, out);
    OnesCond(Bound(out, cs), alias, xs);
    WhereFilters(ONES, cond, AddClauses(scan, TinyClauses(cs)), row);
    FilterOne(ONES, Some(cond), Bound(out, cs));
  }

  lemma PushedHoldsNot(q: Query, p: int, alias: string, xs: seq<string>, row: Row<int>, b: string)
    requires WellFormed(q) && -1 <= p < |Clauses(q)| && (0 <= p ==> Clauses(q)[p].join == Inner)
    requires (forall c <- Later(q, p) :: RowWise(c)) && alias == AliasAt(q, p)
    requires b in xs && b !in Bound(row[q.name := 1], Front(q, p))
    ensures Exec(ONES, PushedPlan(TinyQuery(q, p, xs), p), row) == []
  {
    hide *;
    TinyParts(q, p, xs);
    var q', cond, scan, out := TinyQuery(q, p, xs), TinyCond(alias, xs), Scan(Lit(""), q.name), row[q.name := 1];
    OnesSource(q.name, row);
    OnesClauses(scan, Front(q, p), row, out);
    OnesCond(Bound(out, Front(q, p)), alias, xs);
    GuardFilters(ONES, q', p, cond, row);
    FilterOne(ONES, Some(cond), Bound(out, Front(q, p)));
    TinyRowWise(Later(q, p));
    EmptyStaysEmpty(ONES, GuardedAt(q', p), TinyClauses(Later(q, p)), row);
  }

  lemma OnesSource(name: string, row: Row<int>)
    ensures Exec(ONES, Scan(Lit(""), name), row) == [row[name := 1]]
  {
    OnesScan(Clause(name, Lit(""), None, Inner), row);
  }

  lemma FilterOne<V>(I: Interp<V>, cond: Option<Expr>, row: Row<V>)
    ensures Filter(I, cond, [row]) == if Holds(I, cond, row) then [row] else []
  {
    FilterUniform(I, cond, [row], Holds(I, cond, row));
  }

  lemma TinyRowWise(cs: seq<Clause>)
    requires forall c <- cs :: RowWise(c)
    ensures forall c <- TinyClauses(cs) :: RowWise(c)
  {
    var tiny := TinyClauses(cs);
    forall c | c in tiny ensures RowWise(c) {
      var i :| 0 <= i < |tiny| && tiny[i] == c;
      assert cs[i] in cs;
    }
  }

  // At the end of the plan all that the condition reads is 1, at the push point
  // b is unbound.
  lemma AllBound(q: Query, p: int, k: int, xs: seq<string>)
    requires DistinctNames(q) && -1 <= p < k < |Clauses(q)| && Clauses(q)[k].name in xs
    ensures var cs, b, alias := Clauses(q), Clauses(q)[k].name, AliasAt(q, p);
      var out := Outside(xs, b)[q.name := 1];
      var end := Bound(out, cs);
      && alias in end && end[alias] == 1 && (forall x <- xs :: x in end && end[x] == 1)
      && b !in Bound(out, Front(q, p))
  {
    hide Clauses;
    var cs, b, alias := Clauses(q), Clauses(q)[k].name, AliasAt(q, p);
    var out := Outside(xs, b)[q.name := 1];
    assert cs[k] in cs && (p >= 0 ==> cs[p] in cs);
    forall x | x in xs || x == alias ensures x in Bound(out, cs) && Bound(out, cs)[x] == 1 {
      BoundIs(out, cs, x);
    }
    BoundIs(out, Front(q, p), b);
    assert forall d <- Front(q, p) :: d.name != b;
  }

  // ---- Exactly which shapes are sound ----

  // The pushdown is right for all queries of the shape that the builder pushes
  // to p, and whose condition reads the xs beside the alias of p.
  ghost predicate PreservedForShape(q: Query, p: int, xs: set<string>)
    requires -1 <= p < |Clauses(q)|
  {
    forall q', I: Interp<int>, row |
      && SameShape(q, q') && PushPoint(q') == p
      && q'.cond.Some? && Reads(q'.cond.value) == {AliasAt(q, p)} + xs ::
      Exec(I, PushedPlan(q', p), row) == Exec(I, PlainPlan(q'), row)
  }

  // Exactly when every clause after p is an inner or left join and binds none of
  // the xs. BuildQueryPlan does not look at the joins after p, and usedAliases
  // does not see all that the condition reads.
  lemma PushdownSoundIff(q: Query, p: int, xs: set<string>)
    requires WellFormed(q) && DistinctNames(q) && -1 <= p < |Clauses(q)|
    requires 0 <= p ==> Clauses(q)[p].join == Inner
    ensures PreservedForShape(q, p, xs) <==> forall c <- Later(q, p) :: RowWise(c) && c.name !in xs
  {
    hide *;
    if forall c <- Later(q, p) :: RowWise(c) && c.name !in xs {
      SoundForShape(q, p, xs);
    } else {
      UnsoundForShape(q, p, xs);
    }
  }

  lemma SoundForShape(q: Query, p: int, xs: set<string>)
    requires WellFormed(q) && DistinctNames(q) && -1 <= p < |Clauses(q)|
    requires 0 <= p ==> Clauses(q)[p].join == Inner
    requires forall c <- Later(q, p) :: RowWise(c) && c.name !in xs
    ensures PreservedForShape(q, p, xs)
  {
    hide Exec, PushedPlan, PlainPlan, RowWise, DistinctNames, Clauses, Reads;
    forall q', I: Interp<int>, row |
      && SameShape(q, q') && PushPoint(q') == p
      && q'.cond.Some? && Reads(q'.cond.value) == {AliasAt(q, p)} + xs
      ensures Exec(I, PushedPlan(q', p), row) == Exec(I, PlainPlan(q'), row)
    {
      LaterOfShape(q, q', p, xs);
      PushdownPreserves(I, q', p, row);
    }
  }

  lemma LaterOfShape(q: Query, q': Query, p: int, xs: set<string>)
    requires DistinctNames(q) && SameShape(q, q') && -1 <= p < |Clauses(q)|
    requires forall c <- Later(q, p) :: RowWise(c) && c.name !in xs
    ensures forall c <- Later(q', p) :: RowWise(c) && c.name !in {AliasAt(q, p)} + xs
  {
    forall c | c in Later(q', p) ensures RowWise(c) && c.name !in {AliasAt(q, p)} + xs {
      var i :| 0 <= i < |Later(q', p)| && Later(q', p)[i] == c;
      assert Later(q, p)[i] in Later(q, p);
      assert Clauses(q)[p + 1 + i] in Clauses(q);
    }
  }

  ghost function Listed(xs: set<string>): (s: seq<string>)
    ensures forall x :: x in s <==> x in xs
  {
    if xs == {} then []
    else
      var x :| x in xs;
      [x] + Listed(xs - {x})
  }

  lemma UnsoundForShape(q: Query, p: int, xs: set<string>)
    requires WellFormed(q) && DistinctNames(q) && -1 <= p < |Clauses(q)|
    requires 0 <= p ==> Clauses(q)[p].join == Inner
    requires !(forall c <- Later(q, p) :: RowWise(c) && c.name !in xs)
    ensures !PreservedForShape(q, p, xs)
  {
    hide *;
    var ys := Listed(xs);
    TinyOfShape(q, p, xs, ys);
    var q' := TinyQuery(q, p, ys);
    if forall c <- Later(q, p) :: RowWise(c) {
      var k := BindsOneOf(q, p, xs);
      PushedPlanLosesRows(q, p, k, ys);
      NotPreserved(q, p, xs, q', ONES, Outside(ys, Clauses(q)[k].name));
    } else {
      MakesRowsIff(q, p);
      PushedPlanMakesRows(q, p, ys);
      NotPreserved(q, p, xs, q', TINY, map[]);
    }
  }

  lemma TinyOfShape(q: Query, p: int, xs: set<string>, ys: seq<string>)
    requires WellFormed(q) && DistinctNames(q) && -1 <= p < |Clauses(q)|
    requires (0 <= p ==> Clauses(q)[p].join == Inner) && forall x :: x in ys <==> x in xs
    ensures var q' := TinyQuery(q, p, ys);
      && SameShape(q, q') && PushPoint(q') == p
      && q'.cond.Some? && Reads(q'.cond.value) == {AliasAt(q, p)} + xs
  {
    hide SameShape, PushPoint, Reads, Clauses, WellFormed, DistinctNames, TinyCond;
    TinyShape(q, p, ys);
    TinyPushPoint(q, p, ys);
    TinyCondReads(AliasAt(q, p), ys);
    assert (set x | x in ys) == xs;
  }

  lemma NotPreserved(q: Query, p: int, xs: set<string>, q': Query, I: Interp<int>, row: Row<int>)
    requires -1 <= p < |Clauses(q)| && SameShape(q, q') && PushPoint(q') == p
    requires q'.cond.Some? && Reads(q'.cond.value) == {AliasAt(q, p)} + xs
    requires Exec(I, PushedPlan(q', p), row) != Exec(I, PlainPlan(q'), row)
    ensures !PreservedForShape(q, p, xs)
  {
    hide Exec, PushedPlan, PlainPlan, Reads, SameShape, PushPoint;
  }

  lemma BindsOneOf(q: Query, p: int, xs: set<string>) returns (k: int)
    requires -1 <= p < |Clauses(q)| && !(forall c <- Later(q, p) :: c.name !in xs)
    ensures p < k < |Clauses(q)| && Clauses(q)[k].name in xs
  {
    var c :| c in Later(q, p) && c.name in xs;
    var i :| 0 <= i < |Later(q, p)| && Later(q, p)[i] == c;
    k := p + 1 + i;
  }

  // ---- What the conversion drops ----

  // from a in A from b in B where f(a, {b}): the set literal hides b, so the
  // condition goes onto the scan of a, where b means whatever it means outside
  // the query.
  lemma HiddenReadExample()
    ensures WellFormed(HIDDEN_QUERY) && DistinctNames(HIDDEN_QUERY) && PushPoint(HIDDEN_QUERY) == -1
    ensures exists I: Interp<int> ::
      Exec(I, PushedPlan(HIDDEN_QUERY, -1), map[]) == [] != Meaning(I, HIDDEN_QUERY, map[])
  {
    HiddenAliases();
    hide *;
    HiddenPushed();
    HiddenMeaning();
  }

  const HIDDEN := Compound(Unconverted, "set", [Selector("b", [])])
  const HIDDEN_COND := Compound(Call, "f", [Selector("a", []), HIDDEN])
  const HIDDEN_CLAUSE := Clause("b", Lit("B"), None, Inner)
  const HIDDEN_QUERY := Query("a", Lit("A"), [HIDDEN_CLAUSE], [], Some(HIDDEN_COND))

  // b is 1 in the query and 0 outside it; a form has the value of its last part.
  const OUTSIDE_ZERO: Interp<int> :=
    Interp(_ => 0, _ => 0, (v, _) => v, (_, vs) => if vs == [] then 0 else vs[|vs| - 1], v => v == 1, _ => [1], 0)

  lemma HiddenAliases()
    ensures WellFormed(HIDDEN_QUERY) && DistinctNames(HIDDEN_QUERY) && PushPoint(HIDDEN_QUERY) == -1
  {
    hide UsedAliases, Walk, FromExpr;
    HiddenUsed();
    assert PushAlias(HIDDEN_QUERY) == Some("a");
  }

  lemma HiddenUsed()
    ensures UsedAliases(HIDDEN_COND) == {"a"}
  {
    hide UsedAliases, Walk, FromExpr;
    UsedAliasesExactly(HIDDEN_COND);
    var parts := HIDDEN_COND.parts;
    assert SeenReads(parts[0]) == {"a"} && SeenReads(parts[1]) == {};
    assert StrayFields(parts[0]) == {} && StrayFields(parts[1]) == {};
    assert UsedAliases(HIDDEN_COND) == {"a"};
  }

  lemma HiddenPushed()
    ensures Exec(OUTSIDE_ZERO, PushedPlan(HIDDEN_QUERY, -1), map[]) == []
  {
    var I, scan, row := OUTSIDE_ZERO, Scan(Lit("A"), "a"), map["a" := 1];
    assert Exec(I, scan, map[]) == [row] by {
      assert Extend(map[], "a", [1]) == [row] + Extend(map[], "a", []);
    }
    assert Eval(I, row, HIDDEN) == 0 && Eval(I, row, HIDDEN_COND) == 0;
    assert Filter(I, Some(HIDDEN_COND), [row]) == [] + Filter(I, Some(HIDDEN_COND), []);
    assert [HIDDEN_CLAUSE][1..] == [];
    assert AddClauses(Where(HIDDEN_COND, scan), [HIDDEN_CLAUSE]) == AddClause(Where(HIDDEN_COND, scan), HIDDEN_CLAUSE);
  }

  lemma HiddenMeaning()
    ensures Meaning(OUTSIDE_ZERO, HIDDEN_QUERY, map[]) != []
  {
    var I, row := OUTSIDE_ZERO, map["a" := 1];
    var row' := row["b" := 1];
    assert Eval(I, row', HIDDEN) == 1 && Eval(I, row', HIDDEN_COND) == 1;
    LoopRowsOne(I, [HIDDEN_CLAUSE], row);
    assert NestedLoops(I, [HIDDEN_CLAUSE], row) == [row'] by {
      assert Loop(I, [HIDDEN_CLAUSE], row, [1]) == NestedLoops(I, [], row') + Loop(I, [HIDDEN_CLAUSE], row, []);
    }
    assert Extend(map[], "a", [1]) == [row] by {
      assert Extend(map[], "a", [1]) == [row] + Extend(map[], "a", []);
    }
    assert Filter(I, Some(HIDDEN_COND), [row']) == [row'] + Filter(I, Some(HIDDEN_COND), []);
    assert Clauses(HIDDEN_QUERY) == [HIDDEN_CLAUSE];
  }
}
