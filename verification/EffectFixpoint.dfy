// The effect fixpoint of Check (types/check.go): sweeps over the top-level
// functions until no inferred set changes, then the T065 check.
module EffectFixpoint {
  import opened Options
  import opened Effects

  // declared is the parsed `!` annotation.
  datatype FunDecl = FunDecl(name: string, params: seq<Param>, body: seq<Stmt>, declared: Option<set<Label>>)

  // The scope object of types/env.go, as the effect loop uses it.
  class Scope {
    var types: Env

    constructor (types: Env)
      ensures this.types == types
    {
      this.types := types;
    }

    method SetVar(name: string, b: Binding)
      modifies this
      ensures types == old(types)[name := b]
    {
      types := types[name := b];
    }
  }

  // inferFunctionEffects.
  function Infer(f: FunDecl, env: Env): set<Label> {
    StmtsEffects(f.body, Bind(env, f.params))
  }

  function BodyUses(f: FunDecl): set<Use> {
    StmtsUses(f.body, Bind(map[], f.params))
  }

  // Inference is a function of what the body uses.
  lemma InferIsTotal(f: FunDecl, env: Env)
    ensures Infer(f, env) == Total(BodyUses(f), env)
  {
    assert env + map[] == env;
    BindOverlay(env, map[], f.params);
    StmtsTotal(f.body, env, Bind(map[], f.params));
  }

  ghost predicate Below(env: Env, env': Env) {
    forall x :: Lookup(env, x) <= Lookup(env', x)
  }

  lemma InferMonotone(f: FunDecl, env: Env, env': Env)
    requires Below(env, env')
    ensures Infer(f, env) <= Infer(f, env')
  {
    InferIsTotal(f, env);
    InferIsTotal(f, env');
    forall l | l in Total(BodyUses(f), env) ensures l in Total(BodyUses(f), env') {
      var u :| u in BodyUses(f) && l in UseEffects(u, env);
      assert l in UseEffects(u, env');
    }
  }

  ghost predicate IsProgramName(fs: seq<FunDecl>, x: string) {
    exists f <- fs :: f.name == x
  }

  // The map `declared` of Check: for each annotated name, the last annotation.
  function Declarations(fs: seq<FunDecl>): map<string, set<Label>> {
    if fs == [] then map[]
    else
      var f, ds := fs[|fs| - 1], Declarations(fs[..|fs| - 1]);
      if f.declared.Some? then ds[f.name := f.declared.value] else ds
  }

  lemma {:induction false} DeclarationsAre(fs: seq<FunDecl>)
    ensures forall x :: x in Declarations(fs) <==> exists f <- fs :: f.name == x && f.declared.Some?
    ensures forall x <- Declarations(fs) :: exists f <- fs :: f.name == x && f.declared == Some(Declarations(fs)[x])
  {
    if fs != [] {
      var rest, f := fs[..|fs| - 1], fs[|fs| - 1];
      DeclarationsAre(rest);
      assert fs == rest + [f];
    }
  }

  // The function whose annotation counts for a name.
  lemma {:induction false} DeclarationOf(fs: seq<FunDecl>, x: string) returns (i: nat)
    requires x in Declarations(fs)
    ensures i < |fs| && fs[i].name == x && fs[i].declared == Some(Declarations(fs)[x])
    ensures forall j | i < j < |fs| && fs[j].name == x :: fs[j].declared.None?
  {
    var n := |fs| - 1;
    if fs[n].name == x && fs[n].declared.Some? {
      i := n;
    } else {
      i := DeclarationOf(fs[..n], x);
      assert forall j | i < j < n :: fs[j] == fs[..n][j];
    }
  }

  // Every name that occurs twice is annotated somewhere, and so left alone.
  ghost predicate SettledNames(fs: seq<FunDecl>) {
    forall i, j | 0 <= i < j < |fs| :: fs[i].name == fs[j].name ==> fs[i].name in Declarations(fs)
  }

  // The signatures that the first pass enters: of one name, the last counts.
  function SeedEnv(fs: seq<FunDecl>, base: Env): Env {
    if fs == [] then base
    else SeedEnv(fs[..|fs| - 1], base)[fs[|fs| - 1].name := Fun(Seed(fs[|fs| - 1]))]
  }

  function Seed(f: FunDecl): set<Label> {
    if f.declared.Some? then f.declared.value else {}
  }

  // The function whose signature counts for a name of the program: the last.
  lemma {:induction false} SeedOf(fs: seq<FunDecl>, base: Env, x: string) returns (i: nat)
    requires exists i :: 0 <= i < |fs| && fs[i].name == x
    ensures i < |fs| && fs[i].name == x && forall j | i < j < |fs| :: fs[j].name != x
    ensures x in SeedEnv(fs, base) && SeedEnv(fs, base)[x] == Fun(Seed(fs[i]))
  {
    var n := |fs| - 1;
    i := n;
    if fs[n].name != x {
      var j :| 0 <= j < |fs| && fs[j].name == x;
      assert fs[..n][j] == fs[j];
      i := SeedOf(fs[..n], base, x);
      assert forall k | i < k < n :: fs[k] == fs[..n][k];
    }
  }

  lemma {:induction false} SeedElse(fs: seq<FunDecl>, base: Env, x: string)
    requires forall i | 0 <= i < |fs| :: fs[i].name != x
    ensures Lookup(SeedEnv(fs, base), x) == Lookup(base, x)
  {
    if fs != [] {
      SeedElse(fs[..|fs| - 1], base, x);
    }
  }

  ghost predicate Bound(fs: seq<FunDecl>, env: Env) {
    forall f <- fs :: f.name in env && env[f.name].Fun?
  }

  // env binds the functions of the program, leaves the annotated names as they
  // were entered, and is base elsewhere.
  ghost predicate Binds(fs: seq<FunDecl>, base: Env, env: Env) {
    && Bound(fs, env)
    && (forall x | x in Declarations(fs) || !IsProgramName(fs, x) :: Lookup(env, x) == Lookup(SeedEnv(fs, base), x))
  }

  // No unannotated function is short of an effect that its body shows.
  ghost predicate Closed(fs: seq<FunDecl>, base: Env, env: Env) {
    Binds(fs, base, env) && forall f <- fs :: f.name !in Declarations(fs) ==> Infer(f, env) <= Lookup(env, f.name)
  }

  // A sweep changes nothing.
  ghost predicate Stable(fs: seq<FunDecl>, env: Env) {
    forall f <- fs :: f.name !in Declarations(fs) ==> Lookup(env, f.name) == Infer(f, env)
  }

  // ---- Call chains ----

  ghost predicate Calls(fs: seq<FunDecl>, x: string, y: string) {
    exists f <- fs :: f.name == x && Callee(y) in BodyUses(f)
  }

  ghost predicate CallChain(fs: seq<FunDecl>, path: seq<string>) {
    path != [] && forall i | 0 <= i < |path| - 1 :: Calls(fs, path[i], path[i + 1])
  }

  // The effect that a chain ends in: one on the spot, one of a builtin, or one
  // that an annotation declares.
  ghost predicate Emits(fs: seq<FunDecl>, base: Env, x: string, l: Label) {
    if IsProgramName(fs, x) then
      exists f <- fs :: f.name == x && (Direct(l) in BodyUses(f) || (f.declared.Some? && l in f.declared.value))
    else l in Lookup(base, x)
  }

  // The same without the annotations.
  ghost predicate Shows(fs: seq<FunDecl>, base: Env, x: string, l: Label) {
    if IsProgramName(fs, x) then exists f <- fs :: f.name == x && Direct(l) in BodyUses(f)
    else l in Lookup(base, x)
  }

  ghost predicate Reaches(fs: seq<FunDecl>, base: Env, x: string, l: Label) {
    exists path :: CallChain(fs, path) && path[0] == x && Emits(fs, base, path[|path| - 1], l)
  }

  lemma ReachesStep(fs: seq<FunDecl>, base: Env, x: string, y: string, l: Label)
    requires Calls(fs, x, y) && Reaches(fs, base, y, l)
    ensures Reaches(fs, base, x, l)
  {
    var path :| CallChain(fs, path) && path[0] == y && Emits(fs, base, path[|path| - 1], l);
    var path' := [x] + path;
    assert forall i | 0 < i < |path'| - 1 :: path'[i] == path[i - 1] && path'[i + 1] == path[i];
    assert CallChain(fs, path');
  }

  // No function of an annotated name shows more than the annotation: what T065
  // checks.
  ghost predicate NoT065(fs: seq<FunDecl>, env: Env) {
    forall f <- fs :: f.name in Declarations(fs) ==> Infer(f, env) <= Declarations(fs)[f.name]
  }

  lemma CallAddsEffects(f: FunDecl, env: Env, y: string)
    requires Callee(y) in BodyUses(f)
    ensures Lookup(env, y) <= Infer(f, env)
  {
    InferIsTotal(f, env);
    assert UseEffects(Callee(y), env) == Lookup(env, y);
  }

  // Every effect is witnessed by a chain.
  ghost predicate Witnessed(fs: seq<FunDecl>, base: Env, env: Env) {
    forall x, l :: l in Lookup(env, x) ==> Reaches(fs, base, x, l)
  }

  lemma InferWitnessed(fs: seq<FunDecl>, base: Env, env: Env, f: FunDecl, l: Label)
    requires f in fs && Witnessed(fs, base, env) && l in Infer(f, env)
    ensures Reaches(fs, base, f.name, l)
  {
    InferIsTotal(f, env);
    var u :| u in BodyUses(f) && l in UseEffects(u, env);
    match u
    case Direct(_) =>
      assert IsProgramName(fs, f.name);
      assert CallChain(fs, [f.name]) && Emits(fs, base, [f.name][0], l);
    case Callee(y) =>
      assert Calls(fs, f.name, y);
      ReachesStep(fs, base, f.name, y, l);
  }

  // ---- The loop ----

  // How many labels are still missing from the published sets.
  ghost function Missing(fs: seq<FunDecl>, env: Env): nat {
    if fs == [] then 0 else LabelsMissing(Lookup(env, fs[0].name)) + Missing(fs[1..], env)
  }

  ghost function LabelsMissing(s: set<Label>): nat {
    |{IO, FS, Net, Time, Meta} - s|
  }

  lemma LabelsShrink(s: set<Label>, t: set<Label>)
    requires s < t
    ensures LabelsMissing(t) < LabelsMissing(s)
  {
    var all := {IO, FS, Net, Time, Meta};
    forall l: Label ensures l in all {
      match l case IO => case FS => case Net => case Time => case Meta =>
    }
    assert all - t < all - s;
    Smaller(all - t, all - s);
  }

  lemma Smaller<T>(a: set<T>, b: set<T>)
    requires a < b
    ensures |a| < |b|
  {
    assert b == a + (b - a);
    assert b - a != {};
  }

  lemma {:induction false} MissingBound(fs: seq<FunDecl>, env: Env)
    ensures Missing(fs, env) <= 5 * |fs|
  {
    if fs != [] {
      MissingBound(fs[1..], env);
      var s := Lookup(env, fs[0].name);
      var all := {IO, FS, Net, Time, Meta};
      assert |all| == 5;
      if all - s != all {
        Smaller(all - s, all);
      }
    }
  }

  // Where published sets grow, labels are used up.
  lemma {:induction false} MissingLess(fs: seq<FunDecl>, env: Env, env': Env, i: nat)
    requires i <= |fs| && Below(env, env')
    requires i < |fs| ==> Lookup(env, fs[i].name) < Lookup(env', fs[i].name)
    ensures Missing(fs, env') <= Missing(fs, env)
    ensures i < |fs| ==> Missing(fs, env') < Missing(fs, env)
    decreases |fs|
  {
    hide Lookup, LabelsMissing;
    if fs != [] {
      var s, t := Lookup(env, fs[0].name), Lookup(env', fs[0].name);
      if s != t {
        LabelsShrink(s, t);
      }
      MissingLess(fs[1..], env, env', if i == 0 then |fs| - 1 else i - 1);
    }
  }

  // The sets published so far are part of every closed environment.
  ghost predicate Minimal(fs: seq<FunDecl>, base: Env, env: Env) {
    forall env' :: Closed(fs, base, env') ==> Below(env, env')
  }

  // What every point of the loop keeps: the sets stay below every closed
  // environment, and are witnessed by call chains.
  ghost predicate Growing(fs: seq<FunDecl>, base: Env, env: Env) {
    Binds(fs, base, env) && Minimal(fs, base, env) && Witnessed(fs, base, env)
  }

  function Updated(f: FunDecl, env: Env): Env {
    env[f.name := Fun(Infer(f, env))]
  }

  lemma UpdatedLookup(f: FunDecl, env: Env, x: string)
    ensures Lookup(Updated(f, env), x) == if x == f.name then Infer(f, env) else Lookup(env, x)
  {
    hide Infer;
  }

  lemma UpdateBinds(fs: seq<FunDecl>, base: Env, env: Env, f: FunDecl)
    requires f in fs && f.name !in Declarations(fs) && Binds(fs, base, env)
    ensures Binds(fs, base, Updated(f, env))
  {
    hide Infer, Declarations, SeedEnv;
    assert IsProgramName(fs, f.name);
  }

  lemma UpdateMinimal(fs: seq<FunDecl>, base: Env, env: Env, f: FunDecl)
    requires f in fs && f.name !in Declarations(fs) && Minimal(fs, base, env)
    ensures Minimal(fs, base, Updated(f, env))
  {
    hide Infer, Lookup, Updated, Binds, Declarations;
    forall closed | Closed(fs, base, closed) ensures Below(Updated(f, env), closed) {
      InferMonotone(f, env, closed);
      forall x ensures Lookup(Updated(f, env), x) <= Lookup(closed, x) {
        UpdatedLookup(f, env, x);
      }
    }
  }

  lemma UpdateWitnessed(fs: seq<FunDecl>, base: Env, env: Env, f: FunDecl)
    requires f in fs && Witnessed(fs, base, env)
    ensures Witnessed(fs, base, Updated(f, env))
  {
    hide Infer, Lookup, Updated, Reaches;
    forall x, l | l in Lookup(Updated(f, env), x) ensures Reaches(fs, base, x, l) {
      UpdatedLookup(f, env, x);
      if x == f.name {
        InferWitnessed(fs, base, env, f, l);
      }
    }
  }

  // One changing step of a sweep.
  lemma UpdateGrows(fs: seq<FunDecl>, base: Env, env: Env, f: FunDecl)
    requires Growing(fs, base, env) && f in fs && f.name !in Declarations(fs)
    ensures Growing(fs, base, Updated(f, env))
  {
    hide Binds, Witnessed, Minimal, Updated, Declarations;
    UpdateBinds(fs, base, env, f);
    UpdateMinimal(fs, base, env, f);
    UpdateWitnessed(fs, base, env, f);
  }

  lemma SeedsGrow(fs: seq<FunDecl>, base: Env)
    ensures Growing(fs, base, SeedEnv(fs, base))
  {
    hide Infer, SeedEnv, Declarations, Reaches;
    var env := SeedEnv(fs, base);
    forall f | f in fs
      ensures f.name in env && env[f.name].Fun?
      ensures f.name !in Declarations(fs) ==> Lookup(env, f.name) == {}
    {
      SeedPure(fs, base, f);
    }
    forall closed | Closed(fs, base, closed) ensures Below(env, closed) {
      forall x ensures Lookup(env, x) <= Lookup(closed, x) {
        if IsProgramName(fs, x) && x !in Declarations(fs) {
          var f :| f in fs && f.name == x;
        }
      }
    }
    forall x, l | l in Lookup(env, x) ensures Reaches(fs, base, x, l) {
      SeedReached(fs, base, x, l);
    }
  }

  // A name that nobody annotates starts pure.
  lemma SeedPure(fs: seq<FunDecl>, base: Env, f: FunDecl)
    requires f in fs
    ensures f.name in SeedEnv(fs, base) && SeedEnv(fs, base)[f.name].Fun?
    ensures f.name !in Declarations(fs) ==> Lookup(SeedEnv(fs, base), f.name) == {}
  {
    hide Declarations, SeedEnv;
    var i :| 0 <= i < |fs| && fs[i] == f;
    var j := SeedOf(fs, base, f.name);
    DeclarationsAre(fs);
  }

  lemma SeedReached(fs: seq<FunDecl>, base: Env, x: string, l: Label)
    requires l in Lookup(SeedEnv(fs, base), x)
    ensures Reaches(fs, base, x, l)
  {
    hide SeedEnv;
    if IsProgramName(fs, x) {
      var f :| f in fs && f.name == x;
      var i :| 0 <= i < |fs| && fs[i] == f;
      var j := SeedOf(fs, base, x);
    } else {
      SeedElse(fs, base, x);
    }
    assert CallChain(fs, [x]) && Emits(fs, base, [x][0], l);
  }

  // The first pass: every signature is entered, annotated ones with their
  // declared effects, the others pure.
  method SeedSignatures(fs: seq<FunDecl>, scope: Scope) returns (declared: map<string, set<Label>>)
    modifies scope
    ensures declared == Declarations(fs) && scope.types == SeedEnv(fs, old(scope.types))
  {
    ghost var base := scope.types;
    declared := map[];
    for i := 0 to |fs|
      invariant declared == Declarations(fs[..i]) && scope.types == SeedEnv(fs[..i], base)
    {
      assert fs[..i + 1][..i] == fs[..i];
      if fs[i].declared.Some? {
        declared := declared[fs[i].name := fs[i].declared.value];
      }
      scope.SetVar(fs[i].name, Fun(Seed(fs[i])));
    }
    assert fs[..|fs|] == fs;
  }

  // ---- A sweep ----

  // The body of f shows other effects than env publishes, and its name is not
  // annotated.
  predicate Moves(f: FunDecl, declared: map<string, set<Label>>, env: Env) {
    f.name !in declared && f.name in env && env[f.name].Fun? && env[f.name].effects != Infer(f, env)
  }

  // What a sweep over fs makes of env.
  function Swept(fs: seq<FunDecl>, declared: map<string, set<Label>>, env: Env): Env {
    if fs == [] then env
    else
      var f, before := fs[|fs| - 1], Swept(fs[..|fs| - 1], declared, env);
      if Moves(f, declared, before) then Updated(f, before) else before
  }

  // One sweep, whatever the names.
  method Sweep(fs: seq<FunDecl>, declared: map<string, set<Label>>, scope: Scope) returns (changed: bool)
    modifies scope
    ensures scope.types == Swept(fs, declared, old(scope.types))
    ensures changed <==> exists f <- fs :: Moves(f, declared, old(scope.types))
  {
    hide Moves, Infer;
    ghost var env := scope.types;
    changed := false;
    for i := 0 to |fs|
      invariant scope.types == Swept(fs[..i], declared, env)
      invariant if changed then exists f <- fs :: Moves(f, declared, env)
        else scope.types == env && forall j | 0 <= j < i :: !Moves(fs[j], declared, env)
    {
      var f := fs[i];
      assert f in fs && fs[..i + 1][..i] == fs[..i];
      MovesIs(f, declared, scope.types);
      if f.name !in declared && f.name in scope.types && scope.types[f.name].Fun? {
        var effects := Infer(f, scope.types);
        if effects != scope.types[f.name].effects {
          scope.SetVar(f.name, Fun(effects));
          changed := true;
        }
      }
    }
    assert fs[..|fs|] == fs;
  }

  lemma MovesIs(f: FunDecl, declared: map<string, set<Label>>, env: Env)
    ensures Moves(f, declared, env) <==>
      f.name !in declared && f.name in env && env[f.name].Fun? && Infer(f, env) != env[f.name].effects
    ensures Updated(f, env) == env[f.name := Fun(Infer(f, env))]
  {
  }

  // What one step of a sweep makes of the published sets.
  lemma StepLookup(f: FunDecl, declared: map<string, set<Label>>, env: Env, x: string)
    requires f.name in env && env[f.name].Fun?
    ensures Lookup(if Moves(f, declared, env) then Updated(f, env) else env, x) ==
      if x == f.name && x !in declared then Infer(f, env) else Lookup(env, x)
  {
    hide Infer;
  }

  // What the first n functions of a sweep make of env.
  ghost function SweptTo(fs: seq<FunDecl>, env: Env, n: nat): Env
    requires n <= |fs|
  {
    Swept(fs[..n], Declarations(fs), env)
  }

  lemma SweptNone(fs: seq<FunDecl>, env: Env)
    ensures SweptTo(fs, env, 0) == env
  {
  }

  lemma SweptStep(fs: seq<FunDecl>, env: Env, n: nat)
    requires n < |fs|
    ensures var before, f := SweptTo(fs, env, n), fs[n];
      SweptTo(fs, env, n + 1) == if Moves(f, Declarations(fs), before) then Updated(f, before) else before
  {
    hide Declarations, Moves, Updated;
    assert fs[..n + 1][..n] == fs[..n] && fs[..n + 1] != [];
  }

  lemma {:induction false} SweptBound(fs: seq<FunDecl>, env: Env, n: nat)
    requires n <= |fs| && Bound(fs, env)
    ensures Bound(fs, SweptTo(fs, env, n))
  {
    hide SweptTo, Moves, Infer, Declarations;
    if n == 0 {
      SweptNone(fs, env);
    } else {
      SweptStep(fs, env, n - 1);
      SweptBound(fs, env, n - 1);
    }
  }

  lemma SweptLookup(fs: seq<FunDecl>, env: Env, n: nat, x: string)
    requires n < |fs| && Bound(fs, env)
    ensures var before, f := SweptTo(fs, env, n), fs[n];
      Lookup(SweptTo(fs, env, n + 1), x) ==
        if x == f.name && x !in Declarations(fs) then Infer(f, before) else Lookup(before, x)
  {
    hide SweptTo, Moves, Infer, Declarations, Updated, Lookup;
    SweptStep(fs, env, n);
    SweptBound(fs, env, n);
    assert fs[n] in fs;
    StepLookup(fs[n], Declarations(fs), SweptTo(fs, env, n), x);
  }

  // A sweep is monotone in the sets it starts from.
  lemma {:induction false} SweptMonotone(fs: seq<FunDecl>, env: Env, env': Env, n: nat)
    requires n <= |fs| && Bound(fs, env) && Bound(fs, env') && Below(env, env')
    ensures Below(SweptTo(fs, env, n), SweptTo(fs, env', n))
  {
    hide SweptTo, Bound, Infer, Declarations, Lookup;
    if n == 0 {
      SweptNone(fs, env);
      SweptNone(fs, env');
    } else {
      SweptMonotone(fs, env, env', n - 1);
      InferMonotone(fs[n - 1], SweptTo(fs, env, n - 1), SweptTo(fs, env', n - 1));
      forall x ensures Lookup(SweptTo(fs, env, n), x) <= Lookup(SweptTo(fs, env', n), x) {
        SweptLookup(fs, env, n - 1, x);
        SweptLookup(fs, env', n - 1, x);
      }
    }
  }

  // Names that are annotated, or that no function of the range has, keep their
  // sets.
  lemma {:induction false} SweptKeeps(fs: seq<FunDecl>, env: Env, m: nat, n: nat, x: string)
    requires m <= n <= |fs| && Bound(fs, env)
    requires x in Declarations(fs) || forall i | m <= i < n :: fs[i].name != x
    ensures Lookup(SweptTo(fs, env, m), x) == Lookup(SweptTo(fs, env, n), x)
    decreases n
  {
    hide SweptTo, Bound, Infer, Declarations, Lookup;
    if m < n {
      SweptKeeps(fs, env, m, n - 1, x);
      SweptLookup(fs, env, n - 1, x);
    }
  }

  lemma {:induction false} SweptGrows(fs: seq<FunDecl>, base: Env, env: Env, n: nat)
    requires n <= |fs| && Growing(fs, base, env)
    ensures Growing(fs, base, SweptTo(fs, env, n))
  {
    hide SweptTo, Growing, Declarations, Updated, Infer;
    if n == 0 {
      SweptNone(fs, env);
    } else {
      SweptGrows(fs, base, env, n - 1);
      SweptStep(fs, env, n - 1);
      assert fs[n - 1] in fs;
      if Moves(fs[n - 1], Declarations(fs), SweptTo(fs, env, n - 1)) {
        UpdateGrows(fs, base, SweptTo(fs, env, n - 1), fs[n - 1]);
      }
    }
  }

  // ---- Where the loop ends ----

  ghost predicate Same(env: Env, env': Env) {
    forall x :: Lookup(env, x) == Lookup(env', x)
  }

  lemma SameIff(env: Env, env': Env)
    ensures Same(env, env') <==> Below(env, env') && Below(env', env)
  {
    hide Lookup;
  }

  lemma SameInfers(fs: seq<FunDecl>, env: Env, env': Env)
    requires Same(env, env')
    ensures forall f :: Infer(f, env) == Infer(f, env')
    ensures Stable(fs, env) <==> Stable(fs, env')
  {
    hide Infer, Declarations, Below;
    SameIff(env, env');
    forall f ensures Infer(f, env) == Infer(f, env') {
      InferMonotone(f, env, env');
      InferMonotone(f, env', env);
    }
  }

  // The environment after n sweeps of the loop.
  ghost function Sweeps(fs: seq<FunDecl>, base: Env, n: nat): Env {
    if n == 0 then SeedEnv(fs, base) else SweptTo(fs, Sweeps(fs, base, n - 1), |fs|)
  }

  // Some sweep of the loop changes nothing.
  ghost predicate LoopEnds(fs: seq<FunDecl>, base: Env) {
    exists n: nat :: Stable(fs, Sweeps(fs, base, n))
  }

  lemma {:induction false} SweepsGrow(fs: seq<FunDecl>, base: Env, n: nat)
    ensures Growing(fs, base, Sweeps(fs, base, n)) && Bound(fs, Sweeps(fs, base, n))
  {
    hide SeedEnv, SweptTo, Minimal, Witnessed, Declarations, Bound;
    if n == 0 {
      SeedsGrow(fs, base);
    } else {
      SweepsGrow(fs, base, n - 1);
      SweptGrows(fs, base, Sweeps(fs, base, n - 1), |fs|);
    }
  }

  lemma {:induction false} SweepsRise(fs: seq<FunDecl>, base: Env, n: nat)
    ensures Below(Sweeps(fs, base, n), Sweeps(fs, base, n + 1))
  {
    hide SeedEnv, SweptTo, Growing, Declarations, Bound, Lookup;
    SweepsGrow(fs, base, n);
    if n == 0 {
      FirstSweepRises(fs, base);
    } else {
      SweepsGrow(fs, base, n - 1);
      SweepsRise(fs, base, n - 1);
      SweptMonotone(fs, Sweeps(fs, base, n - 1), Sweeps(fs, base, n), |fs|);
    }
  }

  lemma FirstSweepRises(fs: seq<FunDecl>, base: Env)
    requires Bound(fs, SeedEnv(fs, base))
    ensures Below(SeedEnv(fs, base), SweptTo(fs, SeedEnv(fs, base), |fs|))
  {
    hide SeedEnv, SweptTo, Declarations, Bound, Lookup;
    var env := SeedEnv(fs, base);
    SweptNone(fs, env);
    forall x ensures Lookup(env, x) <= Lookup(SweptTo(fs, env, |fs|), x) {
      if f :| f in fs && f.name == x && x !in Declarations(fs) {
        SeedPure(fs, base, f);
      } else {
        assert forall i | 0 <= i < |fs| :: fs[i] in fs;
        SweptKeeps(fs, env, 0, |fs|, x);
      }
    }
  }

  // Every sweep that raises a set uses up a label.
  lemma {:induction false} SweepsUseLabels(fs: seq<FunDecl>, base: Env, n: nat)
    requires forall m: nat | m < n :: !Same(Sweeps(fs, base, m), Sweeps(fs, base, m + 1))
    ensures Missing(fs, Sweeps(fs, base, n)) + n <= 5 * |fs|
  {
    hide Sweeps, Same, Missing, Bound, Growing;
    if n == 0 {
      MissingBound(fs, Sweeps(fs, base, 0));
    } else {
      SweepsUseLabels(fs, base, n - 1);
      RaisingSweep(fs, base, n - 1);
    }
  }

  lemma RaisingSweep(fs: seq<FunDecl>, base: Env, n: nat)
    requires !Same(Sweeps(fs, base, n), Sweeps(fs, base, n + 1))
    ensures Missing(fs, Sweeps(fs, base, n + 1)) < Missing(fs, Sweeps(fs, base, n))
  {
    hide SweptTo, Missing, Bound, Growing, Lookup, Declarations;
    var env, env' := Sweeps(fs, base, n), Sweeps(fs, base, n + 1);
    SweepsRise(fs, base, n);
    SweepsGrow(fs, base, n);
    var x :| Lookup(env, x) != Lookup(env', x);
    SweptNone(fs, env);
    if forall i | 0 <= i < |fs| :: fs[i].name != x {
      SweptKeeps(fs, env, 0, |fs|, x);
    }
    var i :| 0 <= i < |fs| && fs[i].name == x;
    MissingLess(fs, env, env', i);
  }

  lemma SettlingSweep(fs: seq<FunDecl>, base: Env) returns (m: nat)
    ensures m <= 5 * |fs| && Same(Sweeps(fs, base, m), Sweeps(fs, base, m + 1))
  {
    hide Sweeps, Same, Missing;
    if forall k: nat | k < 5 * |fs| + 1 :: !Same(Sweeps(fs, base, k), Sweeps(fs, base, k + 1)) {
      SweepsUseLabels(fs, base, 5 * |fs| + 1);
    }
    m :| m < 5 * |fs| + 1 && Same(Sweeps(fs, base, m), Sweeps(fs, base, m + 1));
  }

  // After two equal sweeps all are equal.
  lemma {:induction false} StaysSettled(fs: seq<FunDecl>, base: Env, m: nat, n: nat)
    requires m <= n && Same(Sweeps(fs, base, m), Sweeps(fs, base, m + 1))
    ensures Same(Sweeps(fs, base, m), Sweeps(fs, base, n))
    decreases n
  {
    hide SweptTo, Growing, Bound, Below, Lookup;
    if m < n {
      StaysSettled(fs, base, m, n - 1);
      var env, env' := Sweeps(fs, base, m), Sweeps(fs, base, n - 1);
      SweepsGrow(fs, base, m);
      SweepsGrow(fs, base, n - 1);
      SameIff(env, env');
      SweptMonotone(fs, env, env', |fs|);
      SweptMonotone(fs, env', env, |fs|);
      SameIff(SweptTo(fs, env, |fs|), SweptTo(fs, env', |fs|));
    }
  }

  // A sweep over a stable environment changes nothing.
  lemma {:induction false} StableKeeps(fs: seq<FunDecl>, env: Env, n: nat)
    requires n <= |fs| && Bound(fs, env) && Stable(fs, env)
    ensures Same(SweptTo(fs, env, n), env)
  {
    hide SweptTo, Bound, Infer, Declarations, Lookup;
    if n == 0 {
      SweptNone(fs, env);
    } else {
      StableKeeps(fs, env, n - 1);
      SameInfers(fs, SweptTo(fs, env, n - 1), env);
      assert fs[n - 1] in fs;
      forall x ensures Lookup(SweptTo(fs, env, n), x) == Lookup(env, x) {
        SweptLookup(fs, env, n - 1, x);
      }
    }
  }

  // The loop ends at all exactly when it ends within 5 sweeps per function.
  lemma LoopEndsIff(fs: seq<FunDecl>, base: Env)
    ensures LoopEnds(fs, base) <==> Stable(fs, Sweeps(fs, base, 5 * |fs|))
  {
    hide Same, Stable, Growing, Bound, SweptTo;
    if LoopEnds(fs, base) {
      var n: nat :| Stable(fs, Sweeps(fs, base, n));
      var m := SettlingSweep(fs, base);
      var last := 5 * |fs|;
      if n <= last {
        SweepsGrow(fs, base, n);
        StableKeeps(fs, Sweeps(fs, base, n), |fs|);
        SameSymmetric(Sweeps(fs, base, n + 1), Sweeps(fs, base, n));
        StaysSettled(fs, base, n, last);
        SameInfers(fs, Sweeps(fs, base, n), Sweeps(fs, base, last));
      } else {
        StaysSettled(fs, base, m, n);
        StaysSettled(fs, base, m, last);
        SameInfers(fs, Sweeps(fs, base, m), Sweeps(fs, base, n));
        SameInfers(fs, Sweeps(fs, base, m), Sweeps(fs, base, last));
      }
    }
  }

  lemma SameSymmetric(env: Env, env': Env)
    ensures Same(env, env') ==> Same(env', env)
  {
    hide Lookup;
  }

  // Where every repeated name is annotated, the loop ends.
  lemma SettledEnds(fs: seq<FunDecl>, base: Env)
    requires SettledNames(fs)
    ensures LoopEnds(fs, base)
  {
    hide SweptTo, Growing, Bound, Infer, Declarations, SettledNames, Lookup;
    var m := SettlingSweep(fs, base);
    var env := Sweeps(fs, base, m);
    SweepsGrow(fs, base, m);
    forall f | f in fs && f.name !in Declarations(fs) ensures Lookup(env, f.name) == Infer(f, env) {
      var i :| 0 <= i < |fs| && fs[i] == f;
      SettledSteps(fs, env, i);
      SettledSteps(fs, env, i + 1);
      SameInfers(fs, SweptTo(fs, env, i), env);
      SweptLookup(fs, env, i, f.name);
    }
    assert Stable(fs, env);
  }

  // With settled names each set is written once in a sweep, so that a sweep that
  // ends where it began has not moved in between.
  lemma {:induction false} SettledSteps(fs: seq<FunDecl>, env: Env, n: nat)
    requires SettledNames(fs) && Bound(fs, env) && Same(env, SweptTo(fs, env, |fs|)) && n <= |fs|
    ensures Same(SweptTo(fs, env, n), env)
  {
    hide SweptTo, Bound, Infer, Declarations, Lookup;
    if n == 0 {
      SweptNone(fs, env);
    } else {
      SettledSteps(fs, env, n - 1);
      forall x ensures Lookup(SweptTo(fs, env, n), x) == Lookup(env, x) {
        SweptLookup(fs, env, n - 1, x);
        if x == fs[n - 1].name {
          SweptKeeps(fs, env, n, |fs|, x);
        }
      }
    }
  }

  lemma StableIff(fs: seq<FunDecl>, env: Env)
    requires Bound(fs, env)
    ensures Stable(fs, env) <==> !(exists f <- fs :: Moves(f, Declarations(fs), env))
  {
    hide Infer, Declarations;
  }

  // The effect loop, on all programs on which it ends: it does so after at most
  // 5 changing sweeps per function, and what it leaves is the least environment
  // that closes the program.
  method InferEffects(fs: seq<FunDecl>, scope: Scope) returns (changing: nat)
    requires LoopEnds(fs, scope.types)
    modifies scope
    ensures Closed(fs, old(scope.types), scope.types) && Stable(fs, scope.types)
    ensures forall env :: Closed(fs, old(scope.types), env) ==> Below(scope.types, env)
    ensures Witnessed(fs, old(scope.types), scope.types)
    ensures changing <= 5 * |fs|
  {
    hide Growing, Closed, Stable, Moves, Declarations, Below, Witnessed, SeedEnv, LoopEnds, Bound;
    ghost var base := scope.types;
    var declared := SeedSignatures(fs, scope);
    LoopEndsIff(fs, base);
    assert fs[..|fs|] == fs;
    changing := 0;
    var changed := true;
    while changed
      invariant scope.types == Sweeps(fs, base, changing)
      invariant if changed then forall m: nat | m < changing :: !Stable(fs, Sweeps(fs, base, m))
        else Stable(fs, scope.types)
      invariant changing <= 5 * |fs|
      decreases 5 * |fs| - changing, changed
    {
      SweepsGrow(fs, base, changing);
      StableIff(fs, scope.types);
      SweptUnmoved(fs, scope.types, |fs|);
      changed := Sweep(fs, declared, scope);
      if changed {
        changing := changing + 1;
      }
    }
    SweepsGrow(fs, base, changing);
    GrownIsLeast(fs, base, scope.types);
  }

  lemma {:induction false} SweptUnmoved(fs: seq<FunDecl>, env: Env, n: nat)
    requires n <= |fs|
    ensures (forall f <- fs :: !Moves(f, Declarations(fs), env)) ==> SweptTo(fs, env, n) == env
  {
    hide SweptTo, Moves, Declarations;
    if n == 0 {
      SweptNone(fs, env);
    } else {
      SweptUnmoved(fs, env, n - 1);
      SweptStep(fs, env, n - 1);
      assert fs[n - 1] in fs;
    }
  }

  lemma GrownIsLeast(fs: seq<FunDecl>, base: Env, env: Env)
    requires Growing(fs, base, env) && Stable(fs, env)
    ensures Closed(fs, base, env) && Witnessed(fs, base, env)
    ensures forall env' :: Closed(fs, base, env') ==> Below(env, env')
  {
    hide Infer, Declarations, Binds, Witnessed, Below;
  }

  // The T065 check: the functions of annotated names that show more than the
  // annotation.
  method ReportT065(fs: seq<FunDecl>, declared: map<string, set<Label>>, scope: Scope) returns (reported: seq<FunDecl>)
    ensures forall f :: f in reported <==> f in fs && f.name in declared && !(Infer(f, scope.types) <= declared[f.name])
    ensures declared == Declarations(fs) ==> (reported == [] <==> NoT065(fs, scope.types))
  {
    reported := [];
    for i := 0 to |fs|
      invariant forall f :: f in reported <==>
        f in fs[..i] && f.name in declared && !(Infer(f, scope.types) <= declared[f.name])
    {
      var f := fs[i];
      assert fs[..i + 1] == fs[..i] + [f];
      if f.name in declared && !(Infer(f, scope.types) <= declared[f.name]) {
        reported := reported + [f];
      }
    }
    assert fs[..|fs|] == fs;
    if reported != [] {
      assert reported[0] in reported;
    }
  }
}
