// Option narrowing of types/narrow.go, against an evaluator of conditions in
// which options are flat: a present value is its own payload.
module Narrowing {
  import opened Options
  import Types
  import opened Precedence
  import opened OperatorTables
  import opened Environments

  type Type = Types.Type
  type Narrowings = map<string, Type>

  // An operand of a chain, as far as identFromUnary and isNoneLiteralUnary see.
  datatype Operand = Ident(name: string) | NoneLiteral | Form(id: nat)

  function IsOption(t: Type): bool {
    t.Comp? && t.head == Types.Option && |t.args| == 1
  }

  // Only an option of one element is narrowed.
  lemma OptionIs(t: Type)
    ensures IsOption(t) <==> exists elem :: t == Types.Comp(Types.Option, [elem])
  {
    if IsOption(t) {
      assert t == Types.Comp(Types.Option, [t.args[0]]);
    }
  }

  // t without its n outermost option layers, or without all it has.
  function Strip(t: Type, n: nat): Type {
    if n > 0 && IsOption(t) then Strip(t.args[0], n - 1) else t
  }

  lemma {:induction false} StripAdds(t: Type, m: nat, n: nat)
    ensures Strip(Strip(t, m), n) == Strip(t, m + n)
  {
    if m > 0 && IsOption(t) {
      StripAdds(t.args[0], m - 1, n);
    }
  }

  // ---- optionNarrowingBinary ----

  // The right map wins.
  function Merge(a: Narrowings, b: Narrowings): (r: Narrowings)
    ensures r == a + b
  {
    if a == map[] then b else if b == map[] then a else a + b
  }

  // The name that a comparison with `none` is about.
  function ComparedName(left: Operand, right: Operand): Option<string> {
    if left.Ident? && right.NoneLiteral? then Some(left.name)
    else if right.Ident? && left.NoneLiteral? then Some(right.name)
    else None
  }

  // What one comparison tells, when its outcome is `outcome`.
  function Comparison(op: string, left: Operand, right: Operand, s: seq<Scope>, outcome: bool): Narrowings {
    match ComparedName(left, right)
    case None => map[]
    case Some(x) =>
      if op != (if outcome then "!=" else "==") then map[]
      else match Visible(s, x)
        case None => map[]
        case Some(t) => if IsOption(t) then map[x := t.args[0]] else map[]
  }

  // The narrowings of a chain when it comes out as `outcome`.
  function Narrow(operands: seq<Operand>, ops: seq<string>, s: seq<Scope>, outcome: bool): Narrowings
    requires |operands| == |ops| + 1
    decreases |ops|
  {
    if "||" in ops then
      var k := LastIndex(ops, "||");
      if outcome then map[]
      else
        var l := Narrow(operands[..k + 1], ops[..k], s, false);
        Merge(l, Narrow(operands[k + 1..], ops[k + 1..], Narrowed(s, l), false))
    else if "&&" in ops then
      var k := LastIndex(ops, "&&");
      if !outcome then map[]
      else
        var l := Narrow(operands[..k + 1], ops[..k], s, true);
        Merge(l, Narrow(operands[k + 1..], ops[k + 1..], Narrowed(s, l), true))
    else if |ops| != 1 then map[]
    else Comparison(ops[0], operands[0], operands[1], s, outcome)
  }

  // ---- narrowedEnv, closureBoundaryEnv, dropMutableNarrowings ----

  // The scope that binds the names in done as m does.
  function Partial(s: seq<Scope>, m: Narrowings, done: set<string>, marks: bool): Scope {
    Scope(map x | x in m && x in done :: m[x], map x | x in m && x in done :: IsVar(s, x), if marks then done else {})
  }

  lemma PartialStart(s: seq<Scope>, m: Narrowings, marks: bool)
    ensures Partial(s, m, {}, marks) == EMPTY
  {
  }

  lemma PartialStep(s: seq<Scope>, m: Narrowings, done: set<string>, x: string, marks: bool)
    requires x in m
    ensures var p := Partial(s, m, done, marks);
      Partial(s, m, done + {x}, marks) ==
        Scope(p.types[x := m[x]], p.mut[x := IsVar(s, x)], if marks then p.narrowed + {x} else {})
  {
  }

  lemma PartialDone(s: seq<Scope>, m: Narrowings, marks: bool)
    ensures Partial(s, m, m.Keys, marks) == Over(s, m, marks)
  {
  }

  lemma IsVarIs(env: Env, x: string)
    requires env.Valid()
    ensures IsVar(env.Chain(), x) == (env.IsMutable(x) == Some(true))
  {
  }

  // A child of env that binds what m binds, as narrowed shadows if marks.
  method Overlay(env: Env, m: Narrowings, marks: bool) returns (r: Env)
    requires env.Valid()
    ensures r.Valid() && r.repr == {r} + env.repr && fresh(r)
    ensures r.Chain() == [Over(env.Chain(), m, marks)] + env.Chain()
  {
    hide Partial, IsVar, Over, Visible, Declared;
    ghost var s := env.Chain();
    ghost var done := {};
    r := new Env(env);
    PartialStart(s, m, marks);
    var todo := m.Keys;
    while todo != {}
      invariant r.parent == env && r.repr == {r} + env.repr && r.Valid()
      invariant env.Chain() == s && fresh(r)
      invariant m.Keys == todo + done && todo !! done
      invariant Scope(r.types, r.mut, r.narrowed) == Partial(s, m, done, marks)
      invariant !marks ==> r.narrowed == {}
    {
      var x :| x in todo;
      PartialStep(s, m, done, x, marks);
      OverlayOne(r, env, x, m[x], marks);
      todo, done := todo - {x}, done + {x};
    }
    PartialDone(s, m, marks);
  }

  // One round of that loop.
  method OverlayOne(child: Env, env: Env, x: string, t: Type, mark: bool)
    requires child.Valid() && child.parent == env
    modifies child
    ensures child.Valid() && env.Valid() && env.Chain() == old(env.Chain())
    ensures child.types == old(child.types)[x := t] && child.mut == old(child.mut)[x := IsVar(env.Chain(), x)]
    ensures child.narrowed == old(child.narrowed) + if mark then {x} else {}
  {
    hide IsVar;
    child.Up();
    IsVarIs(env, x);
    child.SetVar(x, t, env.IsMutable(x) == Some(true));
    if mark {
      child.narrowed := child.narrowed + {x};
    }
  }

  method NarrowedEnv(env: Env, m: Narrowings) returns (r: Env)
    requires env.Valid()
    ensures r.Valid() && env.repr <= r.repr && fresh(r.repr - env.repr)
    ensures r.Chain() == Narrowed(env.Chain(), m)
  {
    if m == map[] {
      return env;
    }
    r := Overlay(env, m, true);
  }

  // The rest of the chain s that starts at env: e is its scope number i.
  ghost predicate Above(env: Env, s: Chain, e: Env?, i: nat)
    reads if e == null then {} else e.repr
  {
    if e == null then i == |s|
    else i < |s| && env !in e.repr && e.Valid() && e.Chain() == s[i..]
  }

  // A walk up the chain has come to scope number i.
  ghost predicate At(env: Env, s: Chain, e: Env?, i: nat)
    reads e, if e == null || e.parent == null then {} else e.parent.repr
  {
    if e == null then i == |s|
    else i < |s| && e.narrowed == s[i].narrowed && Above(env, s, e.parent, i + 1)
  }

  lemma AtStart(env: Env)
    requires env.Valid()
    ensures At(env, env.Chain(), env, 0)
  {
  }

  lemma AtStep(env: Env, s: Chain, e: Env?, i: nat)
    requires At(env, s, e, i)
    ensures e == null ==> i == |s|
    ensures e != null ==> i < |s| && Above(env, s, e.parent, i + 1) && (e.parent != null ==> env !in e.parent.repr)
    ensures e != null ==> MarkedNames(s[i..]) == e.narrowed + MarkedNames(s[i + 1..])
  {
    if e != null {
      assert s[i..][1..] == s[i + 1..];
    }
  }

  lemma AboveIsAt(env: Env, s: Chain, e: Env?, i: nat)
    requires Above(env, s, e, i)
    ensures At(env, s, e, i)
  {
    if e != null {
      e.Up();
      assert s[i..][1..] == s[i + 1..];
    }
  }

  lemma DeclaredOfStep(s: Chain, done: set<string>, x: string)
    ensures DeclaredOf(s, done + {x}) ==
      if Declared(s, x).Some? then DeclaredOf(s, done)[x := Declared(s, x).value] else DeclaredOf(s, done)
    ensures x in DeclaredOf(s, done) ==> DeclaredOf(s, done + {x}) == DeclaredOf(s, done)
  {
  }

  method ClosureBoundaryEnv(env: Env) returns (r: Env)
    requires env.Valid()
    ensures r.Valid() && env.repr <= r.repr && fresh(r.repr - env.repr)
    ensures r.Chain() == BoundaryChain(env.Chain())
  {
    hide *;
    ghost var s := env.Chain();
    var collected: Narrowings := map[];
    var e: Env? := env;
    ghost var i, done := 0, {};
    AtStart(env);
    DeclaredOfStart(s);
    AtStep(env, s, e, i);
    while e != null
      invariant At(env, s, e, i) && i <= |s| && env.Chain() == s
      invariant MarkedNames(s) == done + MarkedNames(s[i..])
      invariant collected == DeclaredOf(s, done)
      decreases |s| - i
    {
      AtStep(env, s, e, i);
      var todo := e.narrowed;
      ghost var before, names := done, todo;
      while todo != {}
        invariant done + todo == before + names && Above(env, s, e.parent, i + 1)
        invariant collected == DeclaredOf(s, done)
      {
        var x :| x in todo;
        todo := todo - {x};
        DeclaredOfStep(s, done, x);
        if x !in collected {
          var declared := env.DeclaredVarType(x);
          if declared.Some? {
            collected := collected[x := declared.value];
          }
        }
        done := done + {x};
      }
      assert before + (names + MarkedNames(s[i + 1..])) == done + MarkedNames(s[i + 1..]);
      AboveIsAt(env, s, e.parent, i + 1);
      e, i := e.parent, i + 1;
    }
    AtStep(env, s, e, i);
    BoundaryIs(s);
    assert done + {} == done;
    if collected == map[] {
      return env;
    }
    r := Overlay(env, collected, false);
  }

  lemma DeclaredOfStart(s: Chain)
    ensures DeclaredOf(s, {}) == map[]
    ensures s[0..] == s
  {
  }

  lemma BoundaryIs(s: Chain)
    ensures MarkedNames(s[|s|..]) == {}
    ensures Boundary(s) == DeclaredOf(s, MarkedNames(s))
    ensures BoundaryChain(s) == if Boundary(s) == map[] then s else [Over(s, Boundary(s), false)] + s
  {
  }

  method DropMutableNarrowings(env: Env)
    requires env.Valid()
    modifies env
    ensures env.Valid() && env.narrowed == old(env.narrowed)
    ensures env.Chain() == Dropped(old(env.Chain()), MarkedNames(old(env.Chain())))
  {
    hide *;
    ghost var s := env.Chain();
    var e: Env? := env;
    var seen := {};
    ghost var i := 0;
    AtStart(env);
    DroppedStart(s);
    AtStep(env, s, e, i);
    while e != null
      invariant env.Valid() && At(env, s, e, i) && i <= |s| && env.narrowed == old(env.narrowed)
      invariant MarkedNames(s) == seen + MarkedNames(s[i..])
      invariant env.Chain() == Dropped(s, seen)
      decreases |s| - i
    {
      AtStep(env, s, e, i);
      var todo := e.narrowed;
      ghost var before, names := seen, todo;
      while todo != {}
        invariant seen + todo == before + names
        invariant env.Valid() && Above(env, s, e.parent, i + 1) && env.narrowed == old(env.narrowed)
        invariant env.Chain() == Dropped(s, seen)
      {
        var x :| x in todo;
        todo := todo - {x};
        if x !in seen {
          assert x in before + names;
          DroppedStep(s, seen, x);
          IsVarIs(env, x);
          TopIs(env);
          seen := seen + {x};
          if env.IsMutable(x) == Some(true) && x !in env.types {
            var declared := env.DeclaredVarType(x);
            if declared.Some? {
              env.SetVar(x, declared.value, true);
            }
          }
        }
      }
      assert before + (names + MarkedNames(s[i + 1..])) == seen + MarkedNames(s[i + 1..]);
      AboveIsAt(env, s, e.parent, i + 1);
      e, i := e.parent, i + 1;
    }
    AtStep(env, s, e, i);
    BoundaryIs(s);
    assert seen + {} == seen;
  }

  lemma TopIs(env: Env)
    requires env.Valid()
    ensures env.Chain()[0].types == env.types
  {
  }

  lemma DroppedStart(s: Chain)
    ensures Dropped(s, {}) == s && s[0..] == s
  {
    assert ResetNames(s, {}) == {};
    assert s[0].types + map[] == s[0].types && s[0].mut + map[] == s[0].mut;
  }

  // One name of the loop, in terms of the chain as it is by then.
  lemma DroppedStep(s: Chain, done: set<string>, x: string)
    requires x in MarkedNames(s) && x !in done
    ensures var t := Dropped(s, done);
      Dropped(s, done + {x}) ==
        if IsVar(t, x) && x !in t[0].types && Declared(t, x).Some? then WithVar(t, x, Declared(t, x).value, true) else t
  {
    hide IsVar, Declared, DeclaredOf, AllVar, ResetNames, MarkedNames;
    var t := Dropped(s, done);
    DroppedSame(s, done, x);
    assert Reset(s, x) <==> IsVar(t, x) && x !in t[0].types && Declared(t, x).Some?;
    ResetNamesStep(s, done, x);
    if Reset(s, x) {
      var xs := ResetNames(s, done);
      DeclaredOfStep(s, xs, x);
      AllVarStep(xs, x);
      PlusUpdate(s[0].types, DeclaredOf(s, xs), x, Declared(s, x).value);
      PlusUpdate(s[0].mut, AllVar(xs), x, true);
    }
  }

  lemma DroppedSame(s: Chain, done: set<string>, x: string)
    requires x !in done
    ensures var t := Dropped(s, done);
      IsVar(t, x) == IsVar(s, x) && (x in t[0].types <==> x in s[0].types) && Declared(t, x) == Declared(s, x)
  {
    SameAt(s, Dropped(s, done), x);
  }

  lemma AllVarStep(xs: set<string>, x: string)
    ensures AllVar(xs + {x}) == AllVar(xs)[x := true]
  {
  }

  lemma PlusUpdate<V>(a: map<string, V>, b: map<string, V>, x: string, v: V)
    ensures a + b[x := v] == (a + b)[x := v]
  {
  }

  lemma ResetNamesStep(s: Chain, done: set<string>, x: string)
    ensures ResetNames(s, done + {x}) == if Reset(s, x) then ResetNames(s, done) + {x} else ResetNames(s, done)
  {
    hide Reset;
  }

  // Both sides of the split of a chain, the right one as narrowed by the left.
  function Both(operands: seq<Operand>, ops: seq<string>, k: nat, s: seq<Scope>, outcome: bool): Narrowings
    requires |operands| == |ops| + 1 && k < |ops|
  {
    var l := Narrow(operands[..k + 1], ops[..k], s, outcome);
    Merge(l, Narrow(operands[k + 1..], ops[k + 1..], Narrowed(s, l), outcome))
  }

  lemma NarrowIs(operands: seq<Operand>, ops: seq<string>, s: seq<Scope>, outcome: bool)
    requires |operands| == |ops| + 1
    ensures Narrow(operands, ops, s, outcome) ==
      if "||" in ops then (if outcome then map[] else Both(operands, ops, LastIndex(ops, "||"), s, false))
      else if "&&" in ops then (if outcome then Both(operands, ops, LastIndex(ops, "&&"), s, true) else map[])
      else if |ops| != 1 then map[]
      else Comparison(ops[0], operands[0], operands[1], s, outcome)
  {
    hide LastIndex, Narrowed, Merge, Comparison;
  }

  // optionNarrowing.
  method OptionNarrowing(operands: seq<Operand>, ops: seq<string>, env: Env)
    returns (truthy: Narrowings, falsy: Narrowings)
    requires env.Valid() && |operands| == |ops| + 1
    ensures truthy == Narrow(operands, ops, env.Chain(), true)
    ensures falsy == Narrow(operands, ops, env.Chain(), false)
    decreases |ops|, 1
  {
    hide *;
    NarrowIs(operands, ops, env.Chain(), true);
    NarrowIs(operands, ops, env.Chain(), false);
    var k := LastLogicalIndex(ops, "||");
    if k >= 0 {
      falsy := NarrowBoth(operands, ops, k, env, false);
      return map[], falsy;
    }
    k := LastLogicalIndex(ops, "&&");
    if k >= 0 {
      truthy := NarrowBoth(operands, ops, k, env, true);
      return truthy, map[];
    }
    if |ops| != 1 {
      return map[], map[];
    }
    truthy, falsy := NarrowComparison(ops[0], operands[0], operands[1], env);
  }

  method NarrowBoth(operands: seq<Operand>, ops: seq<string>, k: nat, env: Env, outcome: bool) returns (r: Narrowings)
    requires env.Valid() && |operands| == |ops| + 1 && k < |ops|
    ensures r == Both(operands, ops, k, env.Chain(), outcome)
    decreases |ops|, 0
  {
    hide Narrow, Merge, Narrowed, Env.Chain, Env.Valid;
    var lt, lf := OptionNarrowing(operands[..k + 1], ops[..k], env);
    var inner := NarrowedEnv(env, if outcome then lt else lf);
    var rt, rf := OptionNarrowing(operands[k + 1..], ops[k + 1..], inner);
    return if outcome then Merge(lt, rt) else Merge(lf, rf);
  }

  // The last step of optionNarrowingBinary: a chain of one operator.
  method NarrowComparison(op: string, left: Operand, right: Operand, env: Env)
    returns (truthy: Narrowings, falsy: Narrowings)
    requires env.Valid()
    ensures truthy == Comparison(op, left, right, env.Chain(), true)
    ensures falsy == Comparison(op, left, right, env.Chain(), false)
  {
    if op != "==" && op != "!=" {
      return map[], map[];
    }
    var x;
    if left.Ident? && right.NoneLiteral? {
      x := left.name;
    } else if right.Ident? && left.NoneLiteral? {
      x := right.name;
    } else {
      return map[], map[];
    }
    var t := env.GetVar(x);
    if t.None? || !IsOption(t.value) {
      return map[], map[];
    }
    var inner := map[x := t.value.args[0]];
    if op == "!=" {
      return inner, map[];
    }
    return map[], inner;
  }
}
