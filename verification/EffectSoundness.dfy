// What the published effects are worth (types/check.go), and for which programs:
// by the names of the functions and by which of them are annotated.
module EffectSoundness {
  import opened Options
  import opened Effects
  import opened EffectFixpoint

  // ---- With any bodies and annotations ----

  // The last function of an annotated name is annotated.
  ghost predicate LastAnnotated(fs: seq<FunDecl>) {
    forall i, j | 0 <= i < j < |fs| && fs[i].name == fs[j].name && fs[i].declared.Some? && fs[j].declared.None? ::
      exists k :: j < k < |fs| && fs[k].name == fs[j].name && fs[k].declared.Some?
  }

  // No annotated function is followed by another of its name.
  ghost predicate Unhidden(fs: seq<FunDecl>) {
    forall i, j | 0 <= i < j < |fs| && fs[i].name == fs[j].name :: fs[i].declared.None?
  }

  // What is published of an annotated name is its annotation, and without a
  // T065 report what is published of a function covers its body.
  lemma DeclaredIsPublished(fs: seq<FunDecl>, base: Env, env: Env, f: FunDecl)
    requires LastAnnotated(fs) && Closed(fs, base, env) && f in fs
    ensures f.name in Declarations(fs) ==> Declarations(fs)[f.name] == Lookup(env, f.name)
    ensures NoT065(fs, env) ==> Infer(f, env) <= Lookup(env, f.name)
  {
    hide Infer, Declarations, SeedEnv;
    var i :| 0 <= i < |fs| && fs[i] == f;
    if f.name in Declarations(fs) {
      var j := DeclarationOf(fs, f.name);
      var k := SeedOf(fs, base, f.name);
      assert j == k;
    }
  }

  // What is published at the end of a call chain is published at its start.
  lemma {:induction false} ChainPublishes(fs: seq<FunDecl>, base: Env, env: Env, path: seq<string>, l: Label)
    requires LastAnnotated(fs) && Closed(fs, base, env) && NoT065(fs, env)
    requires CallChain(fs, path) && l in Lookup(env, path[|path| - 1])
    ensures l in Lookup(env, path[0])
    decreases |path|
  {
    hide Infer, Closed, NoT065, LastAnnotated;
    if |path| > 1 {
      assert Calls(fs, path[0], path[1]);
      forall i | 0 <= i < |path[1..]| - 1 ensures Calls(fs, path[1..][i], path[1..][i + 1]) {
        var k := i + 1;
        assert Calls(fs, path[k], path[k + 1]);
      }
      ChainPublishes(fs, base, env, path[1..], l);
      var f :| f in fs && f.name == path[0] && Callee(path[1]) in BodyUses(f);
      CallAddsEffects(f, env, path[1]);
      DeclaredIsPublished(fs, base, env, f);
    }
  }

  lemma ShownIsPublished(fs: seq<FunDecl>, base: Env, env: Env, x: string, l: Label)
    requires LastAnnotated(fs) && Closed(fs, base, env) && NoT065(fs, env) && Shows(fs, base, x, l)
    ensures l in Lookup(env, x)
  {
    hide Infer, NoT065, LastAnnotated, SeedEnv;
    if IsProgramName(fs, x) {
      var f :| f in fs && f.name == x && Direct(l) in BodyUses(f);
      DeclaredIsPublished(fs, base, env, f);
      InferIsTotal(f, env);
      assert l in UseEffects(Direct(l), env);
    } else {
      SeedElse(fs, base, x);
    }
  }

  lemma EmittedIsPublished(fs: seq<FunDecl>, base: Env, env: Env, x: string, l: Label)
    requires Unhidden(fs) && Closed(fs, base, env) && NoT065(fs, env) && Emits(fs, base, x, l)
    ensures l in Lookup(env, x)
  {
    hide Infer, Closed, NoT065, SeedEnv, Declarations;
    if Shows(fs, base, x, l) {
      ShownIsPublished(fs, base, env, x, l);
    } else {
      var f :| f in fs && f.name == x && f.declared.Some? && l in f.declared.value;
      DeclarationsAre(fs);
      DeclaredIsPublished(fs, base, env, f);
      var i :| 0 <= i < |fs| && fs[i] == f;
      var j := DeclarationOf(fs, x);
      assert i == j;
    }
  }

  // Whole-program soundness: with no T065 report, whatever the bodies on a
  // finite chain of named calls do is in the published set of the function it
  // starts from.
  lemma ChainBodiesPublished(fs: seq<FunDecl>, base: Env, env: Env, path: seq<string>, l: Label)
    requires LastAnnotated(fs) && Closed(fs, base, env) && NoT065(fs, env)
    requires CallChain(fs, path) && Shows(fs, base, path[|path| - 1], l)
    ensures l in Lookup(env, path[0])
  {
    hide Infer, Closed, NoT065, LastAnnotated, Shows;
    ShownIsPublished(fs, base, env, path[|path| - 1], l);
    ChainPublishes(fs, base, env, path, l);
  }

  // The same with what their annotations declare.
  lemma ChainEffectsPublished(fs: seq<FunDecl>, base: Env, env: Env, path: seq<string>, l: Label)
    requires Unhidden(fs) && Closed(fs, base, env) && NoT065(fs, env)
    requires CallChain(fs, path) && Emits(fs, base, path[|path| - 1], l)
    ensures l in Lookup(env, path[0])
  {
    hide Infer, Closed, NoT065, Unhidden, LastAnnotated, Emits;
    UnhiddenIsLast(fs);
    EmittedIsPublished(fs, base, env, path[|path| - 1], l);
    ChainPublishes(fs, base, env, path, l);
  }

  lemma UnhiddenIsLast(fs: seq<FunDecl>)
    requires Unhidden(fs)
    ensures LastAnnotated(fs)
  {
  }

  // With no T065 report, the published effects of a function are exactly those
  // that its call chains can produce.
  lemma PublishedIffReached(fs: seq<FunDecl>, base: Env, env: Env, x: string, l: Label)
    requires Unhidden(fs) && Closed(fs, base, env) && NoT065(fs, env) && Witnessed(fs, base, env)
    ensures l in Lookup(env, x) <==> Reaches(fs, base, x, l)
  {
    if Reaches(fs, base, x, l) {
      var path :| CallChain(fs, path) && path[0] == x && Emits(fs, base, path[|path| - 1], l);
      ChainEffectsPublished(fs, base, env, path, l);
    }
  }

  // ---- By names and annotations ----

  // Names, each with or without an annotation.
  type Heads = seq<(string, bool)>

  ghost predicate Headed(fs: seq<FunDecl>, heads: Heads) {
    |fs| == |heads| && forall i | 0 <= i < |fs| :: fs[i].name == heads[i].0 && (fs[i].declared.Some? <==> heads[i].1)
  }

  // Every repeated name is annotated at least once.
  ghost predicate SettledHeads(heads: Heads) {
    forall i, j | 0 <= i < j < |heads| && heads[i].0 == heads[j].0 :: (heads[i].0, true) in heads
  }

  lemma SettledIff(fs: seq<FunDecl>, heads: Heads)
    requires Headed(fs, heads)
    ensures forall x :: x in Declarations(fs) <==> (x, true) in heads
    ensures SettledNames(fs) <==> SettledHeads(heads)
  {
    hide Declarations;
    DeclarationsAre(fs);
    forall x ensures x in Declarations(fs) <==> (x, true) in heads {
      if x in Declarations(fs) {
        var f :| f in fs && f.name == x && f.declared.Some?;
        var i :| 0 <= i < |fs| && fs[i] == f;
        assert heads[i] == (x, true);
      }
      if (x, true) in heads {
        var i :| 0 <= i < |heads| && heads[i] == (x, true);
        assert fs[i] in fs;
      }
    }
  }

  // The last function of an annotated name is annotated.
  ghost predicate LastAnnotatedHeads(heads: Heads) {
    forall i, j | 0 <= i < j < |heads| && heads[i].0 == heads[j].0 && heads[i].1 && !heads[j].1 ::
      exists k :: j < k < |heads| && heads[k].0 == heads[j].0 && heads[k].1
  }

  // No annotated function is followed by another of its name.
  ghost predicate UnhiddenHeads(heads: Heads) {
    forall i, j | 0 <= i < j < |heads| && heads[i].0 == heads[j].0 :: !heads[i].1
  }

  lemma LastAnnotatedIff(fs: seq<FunDecl>, heads: Heads)
    requires Headed(fs, heads)
    ensures LastAnnotated(fs) <==> LastAnnotatedHeads(heads)
    ensures Unhidden(fs) <==> UnhiddenHeads(heads)
  {
    if LastAnnotated(fs) {
      forall i, j | 0 <= i < j < |heads| && heads[i].0 == heads[j].0 && heads[i].1 && !heads[j].1
        ensures exists k :: j < k < |heads| && heads[k].0 == heads[j].0 && heads[k].1
      {
        assert fs[i].name == fs[j].name && fs[i].declared.Some? && fs[j].declared.None?;
        var k :| j < k < |fs| && fs[k].name == fs[j].name && fs[k].declared.Some?;
        assert heads[k].0 == heads[j].0 && heads[k].1;
      }
    }
    if LastAnnotatedHeads(heads) {
      forall i, j | 0 <= i < j < |fs| && fs[i].name == fs[j].name && fs[i].declared.Some? && fs[j].declared.None?
        ensures exists k :: j < k < |fs| && fs[k].name == fs[j].name && fs[k].declared.Some?
      {
        assert heads[i].0 == heads[j].0 && heads[i].1 && !heads[j].1;
        var k :| j < k < |heads| && heads[k].0 == heads[j].0 && heads[k].1;
        assert fs[k].name == fs[j].name && fs[k].declared.Some?;
      }
    }
    forall i, j | 0 <= i < j < |heads| ensures fs[i].name == fs[j].name <==> heads[i].0 == heads[j].0 {
    }
  }

  // ---- Programs that tell the heads apart ----

  // Empty bodies but for a function that fetches if it stands at position k.
  function Probe(heads: Heads, k: nat, note: nat -> set<Label>): seq<FunDecl> {
    seq(|heads|, i requires 0 <= i < |heads| =>
      FunDecl(heads[i].0, [], if i == k then [FetchInto([])] else [], if heads[i].1 then Some(note(i)) else None))
  }

  // Annotations for the functions of a probe.
  function Silent(i: nat): set<Label> {
    {}
  }

  function Open(i: nat): set<Label> {
    {Net}
  }

  function OnlyAt(i: nat): nat -> set<Label> {
    m => if m == i then {Net} else {}
  }

  lemma ProbeUses(heads: Heads, k: nat, note: nat -> set<Label>, i: nat, env: Env)
    requires i < |heads|
    ensures Infer(Probe(heads, k, note)[i], env) == if i == k then {Net} else {}
    ensures Direct(Net) in BodyUses(Probe(heads, k, note)[i]) <==> i == k
  {
    assert Bind(env, []) == env && Bind(map[], []) == map[];
    FetchShows(env);
    FetchShows(map[]);
  }

  lemma FetchShows(env: Env)
    ensures StmtsEffects([], env) == {} && StmtsUses([], env) == {}
    ensures StmtsEffects([FetchInto([])], env) == {Net} && StmtsUses([FetchInto([])], env) == {Direct(Net)}
  {
    var xs := [FetchInto([])];
    assert ExprsEffects([], env) == {} && ExprsUses([], env) == {};
    var es := seq(1, j requires 0 <= j < 1 => StmtEffects(xs[j], env));
    assert es[0] == {Net};
    assert StmtsEffects(xs, env) == Union(es) == {Net};
    var us := seq(1, j requires 0 <= j < 1 => StmtUses(xs[j], env));
    assert us[0] == {Direct(Net)};
    assert StmtsUses(xs, env) == Union(us) == {Direct(Net)};
  }

  // What the loop leaves: see InferEffects.
  ghost predicate LoopResult(fs: seq<FunDecl>, base: Env, env: Env) {
    && Closed(fs, base, env) && Stable(fs, env) && Witnessed(fs, base, env)
    && forall env' :: Closed(fs, base, env') ==> Below(env, env')
  }

  // On a probe whose one body is annotated well enough, the loop changes nothing.
  lemma ProbeResult(heads: Heads, k: nat, note: nat -> set<Label>)
    requires k < |heads| ==> heads[k].1
    requires forall i | 0 <= i < |heads| && k < |heads| && heads[i].0 == heads[k].0 && heads[i].1 :: Net in note(i)
    ensures var fs := Probe(heads, k, note);
      Headed(fs, heads) && LoopResult(fs, map[], SeedEnv(fs, map[])) && NoT065(fs, SeedEnv(fs, map[]))
  {
    hide Infer, Declarations, SeedEnv, Closed, Growing, Witnessed;
    var fs, env := Probe(heads, k, note), SeedEnv(Probe(heads, k, note), map[]);
    SeedsGrow(fs, map[]);
    DeclarationsAre(fs);
    forall f | f in fs
      ensures f.name !in Declarations(fs) ==> Lookup(env, f.name) == Infer(f, env)
      ensures f.name in Declarations(fs) ==> Infer(f, env) <= Declarations(fs)[f.name]
    {
      var i :| 0 <= i < |fs| && fs[i] == f;
      ProbeUses(heads, k, note, i, env);
      if f.name in Declarations(fs) {
        var j := DeclarationOf(fs, f.name);
      } else {
        SeedPure(fs, map[], f);
        assert i != k;
      }
    }
    GrownIsLeast(fs, map[], env);
  }

  // An annotated function that another of its name follows.
  lemma HiddenAnnotation(heads: Heads, i: nat, j: nat)
    requires i < j < |heads| && heads[i].0 == heads[j].0 && heads[i].1
    ensures var fs := Probe(heads, |heads|, OnlyAt(i));
      var env := SeedEnv(fs, map[]);
      && Headed(fs, heads) && LoopResult(fs, map[], env) && NoT065(fs, env)
      && Emits(fs, map[], heads[i].0, Net) && Net !in Lookup(env, heads[i].0)
  {
    hide Infer, Declarations, SeedEnv, LoopResult, NoT065;
    var note := OnlyAt(i);
    var fs := Probe(heads, |heads|, note);
    ProbeResult(heads, |heads|, note);
    assert fs[i] in fs && fs[j].name == heads[i].0;
    var last := SeedOf(fs, map[], heads[i].0);
  }

  // A body whose annotation is hidden by a later function without one.
  lemma HiddenBody(heads: Heads, i: nat, j: nat)
    requires i < j < |heads| && heads[i].0 == heads[j].0 && heads[i].1 && !heads[j].1
    requires forall k | j < k < |heads| && heads[k].0 == heads[j].0 :: !heads[k].1
    ensures var fs := Probe(heads, i, Open);
      var env := SeedEnv(fs, map[]);
      && Headed(fs, heads) && LoopResult(fs, map[], env) && NoT065(fs, env)
      && Shows(fs, map[], heads[i].0, Net) && Net !in Lookup(env, heads[i].0)
  {
    hide Infer, Declarations, SeedEnv, LoopResult, NoT065;
    var fs := Probe(heads, i, Open);
    ProbeResult(heads, i, Open);
    ProbeUses(heads, i, Open, i, map[]);
    assert fs[i] in fs && fs[j].name == heads[i].0;
    var last := SeedOf(fs, map[], heads[i].0);
  }

  // ---- Exactly which heads are sound ----

  // Whatever the bodies and annotations are: if nothing is reported, the loop
  // publishes what call chains can emit.
  ghost predicate SoundForHeads(heads: Heads) {
    forall fs, base, env, path, l |
      && Headed(fs, heads) && LoopResult(fs, base, env) && NoT065(fs, env)
      && CallChain(fs, path) && Emits(fs, base, path[|path| - 1], l) :: l in Lookup(env, path[0])
  }

  // The same for what their bodies show.
  ghost predicate BodiesSoundForHeads(heads: Heads) {
    forall fs, base, env, path, l |
      && Headed(fs, heads) && LoopResult(fs, base, env) && NoT065(fs, env)
      && CallChain(fs, path) && Shows(fs, base, path[|path| - 1], l) :: l in Lookup(env, path[0])
  }

  // The published effects can be relied on exactly when no annotated function is
  // followed by another of its name.
  lemma SoundIff(heads: Heads)
    ensures SoundForHeads(heads) <==> UnhiddenHeads(heads)
  {
    hide LoopResult, NoT065, Emits, Unhidden, Headed, Probe, SeedEnv;
    if UnhiddenHeads(heads) {
      forall fs, base, env, path, l |
        && Headed(fs, heads) && LoopResult(fs, base, env) && NoT065(fs, env)
        && CallChain(fs, path) && Emits(fs, base, path[|path| - 1], l)
        ensures l in Lookup(env, path[0])
      {
        LastAnnotatedIff(fs, heads);
        ResultIsClosed(fs, base, env);
        ChainEffectsPublished(fs, base, env, path, l);
      }
    } else {
      var i, j :| 0 <= i < j < |heads| && heads[i].0 == heads[j].0 && heads[i].1;
      HiddenAnnotation(heads, i, j);
      OneFunctionChain(Probe(heads, |heads|, OnlyAt(i)), heads[i].0);
    }
  }

  // And with what the bodies show exactly when the last function of every
  // annotated name is annotated.
  lemma BodiesSoundIff(heads: Heads)
    ensures BodiesSoundForHeads(heads) <==> LastAnnotatedHeads(heads)
  {
    hide LoopResult, NoT065, Shows, LastAnnotated, Headed, Probe, SeedEnv;
    if LastAnnotatedHeads(heads) {
      forall fs, base, env, path, l |
        && Headed(fs, heads) && LoopResult(fs, base, env) && NoT065(fs, env)
        && CallChain(fs, path) && Shows(fs, base, path[|path| - 1], l)
        ensures l in Lookup(env, path[0])
      {
        LastAnnotatedIff(fs, heads);
        ResultIsClosed(fs, base, env);
        ChainBodiesPublished(fs, base, env, path, l);
      }
    } else {
      var i, j :| 0 <= i < j < |heads| && heads[i].0 == heads[j].0 && heads[i].1 && !heads[j].1
        && forall k | j < k < |heads| && heads[k].0 == heads[j].0 :: !heads[k].1;
      HiddenBody(heads, i, j);
      OneFunctionChain(Probe(heads, i, Open), heads[i].0);
    }
  }

  lemma ResultIsClosed(fs: seq<FunDecl>, base: Env, env: Env)
    requires LoopResult(fs, base, env)
    ensures Closed(fs, base, env)
  {
  }

  lemma OneFunctionChain(fs: seq<FunDecl>, x: string)
    ensures CallChain(fs, [x]) && [x][|[x]| - 1] == x
  {
  }

  // f with the annotation {Net}, then f without: the second makes the first
  // count as pure, and nothing is reported.
  lemma HiddenAnnotationExample()
    ensures exists fs, env ::
      && SettledNames(fs) && Closed(fs, map[], env) && Stable(fs, env) && NoT065(fs, env)
      && Shows(fs, map[], "f", Net) && Net !in Lookup(env, "f")
  {
    hide NoT065, Shows, Probe, SeedEnv, SettledNames, Closed, Stable;
    var heads := [("f", true), ("f", false)];
    HiddenBody(heads, 0, 1);
    var fs := Probe(heads, 0, Open);
    assert heads[0] == ("f", true);
    SettledIff(fs, heads);
    assert Closed(fs, map[], SeedEnv(fs, map[]));
  }

  // ---- Exactly for which heads the loop ends ----

  // The loop ends whatever the bodies and annotations are exactly when every
  // repeated name is annotated at least once: of two functions of one name that
  // nobody annotates, each sweep overwrites the set of the other.
  lemma EndsForHeadsIff(heads: Heads)
    ensures (forall fs, base :: Headed(fs, heads) ==> LoopEnds(fs, base)) <==> SettledHeads(heads)
    ensures (forall fs :: Headed(fs, heads) ==> exists env :: Stable(fs, env)) <==> SettledHeads(heads)
  {
    hide Sweeps, Stable, Probe, Headed, SettledNames;
    if SettledHeads(heads) {
      forall fs, base | Headed(fs, heads) ensures LoopEnds(fs, base) {
        SettledIff(fs, heads);
        SettledEnds(fs, base);
      }
      forall fs | Headed(fs, heads) ensures exists env :: Stable(fs, env) {
        assert LoopEnds(fs, map[]);
      }
    } else {
      var i, j :| 0 <= i < j < |heads| && heads[i].0 == heads[j].0 && (heads[i].0, true) !in heads;
      ProbeUnstable(heads, i, j);
      assert !LoopEnds(Probe(heads, i, Silent), map[]);
    }
  }

  lemma ProbeUnstable(heads: Heads, i: nat, j: nat)
    requires i < j < |heads| && heads[i].0 == heads[j].0 && (heads[i].0, true) !in heads
    ensures Headed(Probe(heads, i, Silent), heads) && forall env :: !Stable(Probe(heads, i, Silent), env)
  {
    hide Infer, Declarations;
    var fs := Probe(heads, i, Silent);
    SettledIff(fs, heads);
    forall env ensures !Stable(fs, env) {
      ProbeUses(heads, i, Silent, i, env);
      ProbeUses(heads, i, Silent, j, env);
      assert fs[i] in fs && fs[j] in fs;
    }
  }
}
