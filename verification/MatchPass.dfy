// The pass of transpiler3/c/lower/match.go over whole blocks: what it rejects,
// and when the meaning of a program survives it.
module MatchPass {
  import opened Options
  import opened Sequences
  import opened StableSort
  import opened MatchArms

  // ---- The arms of one tag ----

  function OfTag(xs: seq<Arm>, tag: nat): seq<Arm> {
    if xs == [] then [] else (if xs[0].tag == tag then [xs[0]] else []) + OfTag(xs[1..], tag)
  }

  // The arms of one tag with a guard, or those without.
  function Keep(xs: seq<Arm>, tag: nat, guarded: bool): seq<Arm> {
    if xs == [] then []
    else (if xs[0].tag == tag && xs[0].guard.Some? == guarded then [xs[0]] else []) + Keep(xs[1..], tag, guarded)
  }

  lemma {:induction false} KeepConcat(xs: seq<Arm>, ys: seq<Arm>, tag: nat, guarded: bool)
    ensures Keep(xs + ys, tag, guarded) == Keep(xs, tag, guarded) + Keep(ys, tag, guarded)
  {
    if xs == [] {
      assert xs + ys == ys;
    } else {
      assert (xs + ys)[1..] == xs[1..] + ys;
      KeepConcat(xs[1..], ys, tag, guarded);
    }
  }

  lemma {:induction false} InsertKeeps(ys: seq<Arm>, x: Arm, tag: nat, guarded: bool)
    ensures Keep(Insert(Less, ys, x), tag, guarded) == Keep(ys, tag, guarded) + Keep([x], tag, guarded)
  {
    if ys == [] || !Less(x, ys[|ys| - 1]) {
      KeepConcat(ys, [x], tag, guarded);
    } else {
      var front, last := ys[..|ys| - 1], ys[|ys| - 1];
      InsertKeeps(front, x, tag, guarded);
      assert ys == front + [last];
      KeepConcat(front, [last], tag, guarded);
      KeepConcat(Insert(Less, front, x), [last], tag, guarded);
    }
  }

  // The sort is stable: it keeps the order among the guarded arms of a tag, and
  // among the others.
  lemma {:induction false} SortKeeps(xs: seq<Arm>, tag: nat, guarded: bool)
    ensures Keep(Sort(Less, xs), tag, guarded) == Keep(xs, tag, guarded)
  {
    if xs != [] {
      var front, last := xs[..|xs| - 1], xs[|xs| - 1];
      SortKeeps(front, tag, guarded);
      InsertKeeps(Sort(Less, front), last, tag, guarded);
      assert xs == front + [last];
      KeepConcat(front, [last], tag, guarded);
    }
  }

  // In the arms of every tag, no guarded one comes after one without a guard.
  ghost predicate GuardsFirst(xs: seq<Arm>) {
    forall i, j | 0 <= i < j < |xs| :: xs[i].tag == xs[j].tag && xs[j].guard.Some? ==> xs[i].guard.Some?
  }

  lemma SortedHasGuardsFirst(xs: seq<Arm>)
    ensures GuardsFirst(Sort(Less, xs))
  {
    SortSorts(Less, xs);
    forall i, j | 0 <= i < j < |xs| ensures !Less(Sort(Less, xs)[j], Sort(Less, xs)[i]) {
    }
  }

  lemma {:induction false} NoneKept(xs: seq<Arm>, tag: nat)
    requires forall i | 0 <= i < |xs| && xs[i].tag == tag :: xs[i].guard.None?
    ensures Keep(xs, tag, true) == []
  {
    if xs != [] {
      NoneKept(xs[1..], tag);
    }
  }

  lemma {:induction false} GuardsFirstSplits(xs: seq<Arm>, tag: nat)
    requires GuardsFirst(xs)
    ensures OfTag(xs, tag) == Keep(xs, tag, true) + Keep(xs, tag, false)
  {
    if xs != [] {
      RestHasGuardsFirst(xs, tag);
      GuardsFirstSplits(xs[1..], tag);
      var x, a, b := xs[0], Keep(xs[1..], tag, true), Keep(xs[1..], tag, false);
      if x.tag == tag && x.guard.None? {
        NoneKept(xs[1..], tag);
        assert a == [] && [] + ([x] + b) == [x] + ([] + b);
      } else if x.tag == tag {
        assert [x] + a + ([] + b) == [x] + (a + b);
      } else {
        assert [] + a + ([] + b) == [] + (a + b);
      }
    }
  }

  lemma RestHasGuardsFirst(xs: seq<Arm>, tag: nat)
    requires xs != [] && GuardsFirst(xs)
    ensures GuardsFirst(xs[1..])
    ensures xs[0].tag == tag && xs[0].guard.None? ==>
      forall i | 0 <= i < |xs[1..]| && xs[1..][i].tag == tag :: xs[1..][i].guard.None?
  {
    var rest := xs[1..];
    assert forall i | 0 <= i < |rest| :: rest[i] == xs[i + 1];
  }

  // ---- Which arm is chosen ----

  // The first arm with the tag whose guard, if any, is true.
  function Chosen(xs: seq<Arm>, tag: nat, truth: nat -> bool): Option<Arm> {
    if xs == [] then None
    else if xs[0].tag == tag && (xs[0].guard.None? || truth(xs[0].guard.value)) then Some(xs[0])
    else Chosen(xs[1..], tag, truth)
  }

  lemma {:induction false} ChosenOfTag(xs: seq<Arm>, tag: nat, truth: nat -> bool)
    ensures Chosen(xs, tag, truth) == Chosen(OfTag(xs, tag), tag, truth)
  {
    if xs != [] {
      ChosenOfTag(xs[1..], tag, truth);
      if xs[0].tag == tag {
        assert OfTag(xs, tag)[1..] == OfTag(xs[1..], tag);
      } else {
        assert OfTag(xs, tag) == OfTag(xs[1..], tag);
      }
    }
  }

  lemma {:induction false} ChosenConcat(xs: seq<Arm>, ys: seq<Arm>, tag: nat, truth: nat -> bool)
    ensures Chosen(xs + ys, tag, truth) ==
      if Chosen(xs, tag, truth).Some? then Chosen(xs, tag, truth) else Chosen(ys, tag, truth)
  {
    if xs == [] {
      assert xs + ys == ys;
    } else {
      assert (xs + ys)[1..] == xs[1..] + ys;
      ChosenConcat(xs[1..], ys, tag, truth);
    }
  }

  // After the pass the first true guarded arm of the tag is chosen, whatever
  // stood before it, and without one the arm that has no guard.
  lemma ChosenAfterSort(xs: seq<Arm>, tag: nat, truth: nat -> bool)
    ensures Chosen(Sort(Less, xs), tag, truth) ==
      var g := Chosen(Keep(xs, tag, true), tag, truth);
      if g.Some? then g else Chosen(Keep(xs, tag, false), tag, truth)
  {
    SortedHasGuardsFirst(xs);
    ChosenOfTag(Sort(Less, xs), tag, truth);
    GuardsFirstSplits(Sort(Less, xs), tag);
    SortKeeps(xs, tag, true);
    SortKeeps(xs, tag, false);
    ChosenConcat(Keep(xs, tag, true), Keep(xs, tag, false), tag, truth);
  }

  // Every guard is an expression of its own.
  ghost predicate OwnGuards(xs: seq<Arm>) {
    forall i, j | 0 <= i < j < |xs| :: xs[i].guard.Some? ==> xs[i].guard != xs[j].guard
  }

  // The pass keeps the choice, for every tag and every outcome of the guards,
  // exactly when the guarded arms of each tag stand before the one without.
  lemma SortKeepsChoiceIff(xs: seq<Arm>)
    requires OwnGuards(xs)
    ensures (forall tag, truth :: Chosen(Sort(Less, xs), tag, truth) == Chosen(xs, tag, truth)) <==> GuardsFirst(xs)
  {
    if GuardsFirst(xs) {
      forall tag, truth ensures Chosen(Sort(Less, xs), tag, truth) == Chosen(xs, tag, truth) {
        ChosenAfterSort(xs, tag, truth);
        ChosenOfTag(xs, tag, truth);
        GuardsFirstSplits(xs, tag);
        ChosenConcat(Keep(xs, tag, true), Keep(xs, tag, false), tag, truth);
      }
    } else {
      var i, j :| 0 <= i < j < |xs| && xs[i].tag == xs[j].tag && xs[j].guard.Some? && xs[i].guard.None?;
      var tag, truth := xs[i].tag, g => g == xs[j].guard.value;
      ChosenAfterSort(xs, tag, truth);
      KeepHas(xs, tag, j);
      KeptGuards(xs, tag, true);
      SomeChosen(Keep(xs, tag, true), tag, truth, xs[j]);
      ChosenBefore(xs, tag, truth, i);
      assert Chosen(Sort(Less, xs), tag, truth) != Chosen(xs, tag, truth);
    }
  }

  lemma {:induction false} KeptGuards(xs: seq<Arm>, tag: nat, guarded: bool)
    ensures forall y <- Keep(xs, tag, guarded) :: y.guard.Some? == guarded
  {
    if xs != [] {
      KeptGuards(xs[1..], tag, guarded);
    }
  }

  lemma {:induction false} KeepHas(xs: seq<Arm>, tag: nat, j: nat)
    requires j < |xs| && xs[j].tag == tag
    ensures xs[j] in Keep(xs, tag, xs[j].guard.Some?)
  {
    if j > 0 {
      KeepHas(xs[1..], tag, j - 1);
    }
  }

  lemma {:induction false} SomeChosen(xs: seq<Arm>, tag: nat, truth: nat -> bool, x: Arm)
    requires x in xs && x.tag == tag && (x.guard.Some? ==> truth(x.guard.value))
    requires forall y <- xs :: y.guard.Some? == x.guard.Some?
    ensures Chosen(xs, tag, truth).Some? && Chosen(xs, tag, truth).value.guard.Some? == x.guard.Some?
  {
    if xs[0] != x {
      if !(xs[0].tag == tag && (xs[0].guard.None? || truth(xs[0].guard.value))) {
        SomeChosen(xs[1..], tag, truth, x);
      }
    }
  }

  // With only a later guard true, the arm without guard is chosen first.
  lemma {:induction false} ChosenBefore(xs: seq<Arm>, tag: nat, truth: nat -> bool, i: nat)
    requires i < |xs| && xs[i].tag == tag && xs[i].guard.None?
    requires forall k | 0 <= k < i && xs[k].guard.Some? :: !truth(xs[k].guard.value)
    ensures Chosen(xs, tag, truth).Some? && Chosen(xs, tag, truth).value.guard.None?
  {
    if i > 0 && !(xs[0].tag == tag && xs[0].guard.None?) {
      ChosenBefore(xs[1..], tag, truth, i - 1);
    }
  }

  // ---- The pass over blocks ----

  // matchPassBlock and matchPassStmt; None is the error. The source sorts before
  // it goes into the bodies, which SortThenPass shows to be the same.
  function PassBlock(b: seq<Stmt>): Option<seq<Stmt>> {
    if b == [] then Some([])
    else match (PassStmt(b[0]), PassBlock(b[1..]))
      case (Some(t), Some(rest)) => Some([t] + rest)
      case _ => None
  }

  function PassStmt(t: Stmt): Option<Stmt> {
    match t
    case Match(target, arms, wildcard) =>
      if Duplicate(arms) then None
      else (match (PassArms(arms), PassWildcard(wildcard))
        case (Some(ys), Some(w)) => Some(Match(target, Sort(Less, ys), w))
        case _ => None)
    case If(c, thens, elses) =>
      (match (PassBlock(thens), PassBlock(elses))
       case (Some(x), Some(y)) => Some(If(c, x, y))
       case _ => None)
    case Loop(h, body) =>
      (match PassBlock(body) case Some(x) => Some(Loop(h, x)) case None => None)
    case Other(_) => Some(t)
  }

  function PassArms(xs: seq<Arm>): Option<seq<Arm>> {
    if xs == [] then Some([])
    else match (PassBlock(xs[0].body), PassArms(xs[1..]))
      case (Some(b), Some(rest)) => Some([xs[0].(body := b)] + rest)
      case _ => None
  }

  function PassWildcard(w: Option<Arm>): Option<Option<Arm>> {
    match w
    case None => Some(None)
    case Some(d) => (match PassBlock(d.body) case Some(b) => Some(Some(d.(body := b))) case None => None)
  }

  // ---- What a program does ----

  datatype Flow = Normal | Break | Continue | Return

  // A run of a block ends with a state and a way to go on, or is out of fuel.
  type Run<S> = Option<(S, Flow)>

  datatype Semantics<!S> = Semantics(
    step: (nat, S) -> (S, Flow), test: (nat, S) -> (S, bool), target: (nat, S) -> (S, nat), bind: (string, S) -> S)

  datatype Tried<S> = Ran(run: Run<S>) | Unmatched(s: S)

  function ExecBlock<S>(sem: Semantics<S>, b: seq<Stmt>, s: S, fuel: nat): Run<S>
    decreases fuel, b
  {
    if b == [] then Some((s, Normal))
    else match ExecStmt(sem, b[0], s, fuel)
      case Some((s', Normal)) => ExecBlock(sem, b[1..], s', fuel)
      case r => r
  }

  function ExecStmt<S>(sem: Semantics<S>, t: Stmt, s: S, fuel: nat): Run<S>
    decreases fuel, t
  {
    match t
    case Match(target, arms, wildcard) =>
      var (s', tag) := sem.target(target, s);
      (match ExecArms(sem, arms, tag, s', fuel)
       case Ran(r) => r
       case Unmatched(s'') => ExecWildcard(sem, wildcard, s'', fuel))
    case If(c, thens, elses) =>
      var (s', yes) := sem.test(c, s);
      ExecBlock(sem, if yes then thens else elses, s', fuel)
    case Loop(h, body) =>
      if fuel == 0 then None else
      var (s', yes) := sem.test(h, s);
      if !yes then Some((s', Normal))
      else (match ExecBlock(sem, body, s', fuel - 1)
        case None => None
        case Some((s'', Break)) => Some((s'', Normal))
        case Some((s'', Return)) => Some((s'', Return))
        case Some((s'', _)) => ExecStmt(sem, t, s'', fuel - 1))
    case Other(id) => Some(sem.step(id, s))
  }

  // The arms are tried in order; the variables of a pattern are bound before its
  // guard is evaluated.
  function ExecArms<S>(sem: Semantics<S>, xs: seq<Arm>, tag: nat, s: S, fuel: nat): Tried<S>
    decreases fuel, xs
  {
    if xs == [] then Unmatched(s)
    else if xs[0].tag != tag then ExecArms(sem, xs[1..], tag, s, fuel)
    else
      var bound := sem.bind(xs[0].variant, s);
      match xs[0].guard
      case None => Ran(ExecBlock(sem, xs[0].body, bound, fuel))
      case Some(g) =>
        var (s', yes) := sem.test(g, bound);
        if yes then Ran(ExecBlock(sem, xs[0].body, s', fuel)) else ExecArms(sem, xs[1..], tag, s', fuel)
  }

  function ExecWildcard<S>(sem: Semantics<S>, w: Option<Arm>, s: S, fuel: nat): Run<S>
    decreases fuel, w
  {
    match w
    case None => Some((s, Normal))
    case Some(d) =>
      (match d.guard
       case None => ExecBlock(sem, d.body, s, fuel)
       case Some(g) =>
         var (s', yes) := sem.test(g, s);
         if yes then ExecBlock(sem, d.body, s', fuel) else Some((s', Normal)))
  }

  // ---- The pass preserves meaning ----

  // In every match that the pass visits, guarded arms stand before unguarded.
  ghost predicate TidyBlock(b: seq<Stmt>) {
    b == [] || (TidyStmt(b[0]) && TidyBlock(b[1..]))
  }

  ghost predicate TidyStmt(t: Stmt) {
    match t
    case Match(_, arms, w) =>
      GuardsFirst(arms) && TidyArms(arms) && (match w case None => true case Some(d) => TidyBlock(d.body))
    case If(_, thens, elses) => TidyBlock(thens) && TidyBlock(elses)
    case Loop(_, body) => TidyBlock(body)
    case Other(_) => true
  }

  ghost predicate TidyArms(xs: seq<Arm>) {
    xs == [] || (TidyBlock(xs[0].body) && TidyArms(xs[1..]))
  }

  lemma {:induction false} ExecOfTag<S>(sem: Semantics<S>, xs: seq<Arm>, tag: nat, s: S, fuel: nat)
    ensures ExecArms(sem, xs, tag, s, fuel) == ExecArms(sem, OfTag(xs, tag), tag, s, fuel)
    decreases |xs|
  {
    if xs != [] {
      var ys := OfTag(xs, tag);
      if xs[0].tag == tag {
        assert ys[1..] == OfTag(xs[1..], tag);
        var bound := sem.bind(xs[0].variant, s);
        if xs[0].guard.Some? {
          ExecOfTag(sem, xs[1..], tag, sem.test(xs[0].guard.value, bound).0, fuel);
        }
      } else {
        assert ys == OfTag(xs[1..], tag);
        ExecOfTag(sem, xs[1..], tag, s, fuel);
      }
    }
  }

  lemma ExecSorted<S>(sem: Semantics<S>, xs: seq<Arm>, tag: nat, s: S, fuel: nat)
    requires GuardsFirst(xs)
    ensures ExecArms(sem, Sort(Less, xs), tag, s, fuel) == ExecArms(sem, xs, tag, s, fuel)
  {
    ExecOfTag(sem, xs, tag, s, fuel);
    ExecOfTag(sem, Sort(Less, xs), tag, s, fuel);
    SortedHasGuardsFirst(xs);
    GuardsFirstSplits(xs, tag);
    GuardsFirstSplits(Sort(Less, xs), tag);
    SortKeeps(xs, tag, true);
    SortKeeps(xs, tag, false);
  }

  // The pass changes nothing about an arm but its body.
  lemma {:induction false} PassedArms(xs: seq<Arm>)
    requires PassArms(xs).Some?
    ensures |PassArms(xs).value| == |xs|
    ensures forall i | 0 <= i < |xs| :: PassArms(xs).value[i] == xs[i].(body := PassArms(xs).value[i].body)
    ensures GuardsFirst(PassArms(xs).value) <==> GuardsFirst(xs)
    ensures Duplicate(PassArms(xs).value) <==> Duplicate(xs)
  {
    PassedArm(xs);
    var ys := PassArms(xs).value;
    assert forall i | 0 <= i < |xs| :: ys[i].tag == xs[i].tag && ys[i].guard == xs[i].guard;
  }

  lemma {:induction false} PassedArm(xs: seq<Arm>)
    requires PassArms(xs).Some?
    ensures |PassArms(xs).value| == |xs|
    ensures forall i | 0 <= i < |xs| :: PassArms(xs).value[i] == xs[i].(body := PassArms(xs).value[i].body)
  {
    if xs != [] {
      PassedArm(xs[1..]);
    }
  }

  // Whatever the statements, conditions, guards and patterns do: the program
  // does the same after the pass, for as long as it runs.
  lemma {:induction false} PassPreserves<S>(sem: Semantics<S>, b: seq<Stmt>, s: S, fuel: nat)
    requires PassBlock(b).Some? && TidyBlock(b)
    ensures ExecBlock(sem, PassBlock(b).value, s, fuel) == ExecBlock(sem, b, s, fuel)
    decreases fuel, b
  {
    if b != [] {
      var b' := PassBlock(b).value;
      assert b'[0] == PassStmt(b[0]).value && b'[1..] == PassBlock(b[1..]).value;
      StmtPreserved(sem, b[0], s, fuel);
      match ExecStmt(sem, b[0], s, fuel)
      case Some((s', Normal)) => PassPreserves(sem, b[1..], s', fuel);
      case _ =>
    }
  }

  lemma {:induction false} StmtPreserved<S>(sem: Semantics<S>, t: Stmt, s: S, fuel: nat)
    requires PassStmt(t).Some? && TidyStmt(t)
    ensures ExecStmt(sem, PassStmt(t).value, s, fuel) == ExecStmt(sem, t, s, fuel)
    decreases fuel, t
  {
    match t
    case Match(target, arms, wildcard) =>
      var (s', tag) := sem.target(target, s);
      PassedArms(arms);
      ExecSorted(sem, PassArms(arms).value, tag, s', fuel);
      ArmsPreserved(sem, arms, tag, s', fuel);
      if wildcard.Some? && ExecArms(sem, arms, tag, s', fuel).Unmatched? {
        WildcardPreserved(sem, wildcard, ExecArms(sem, arms, tag, s', fuel).s, fuel);
      }
    case If(c, thens, elses) =>
      var (s', yes) := sem.test(c, s);
      if yes {
        PassPreserves(sem, thens, s', fuel);
      } else {
        PassPreserves(sem, elses, s', fuel);
      }
    case Loop(h, body) =>
      if fuel > 0 {
        var (s', yes) := sem.test(h, s);
        PassPreserves(sem, body, s', fuel - 1);
        match ExecBlock(sem, body, s', fuel - 1)
        case Some((s'', Normal)) => StmtPreserved(sem, t, s'', fuel - 1);
        case Some((s'', Continue)) => StmtPreserved(sem, t, s'', fuel - 1);
        case _ =>
      }
    case Other(_) =>
  }

  lemma {:induction false} ArmsPreserved<S>(sem: Semantics<S>, xs: seq<Arm>, tag: nat, s: S, fuel: nat)
    requires PassArms(xs).Some? && TidyArms(xs)
    ensures ExecArms(sem, PassArms(xs).value, tag, s, fuel) == ExecArms(sem, xs, tag, s, fuel)
    decreases fuel, xs
  {
    if xs != [] {
      var ys := PassArms(xs).value;
      assert ys[1..] == PassArms(xs[1..]).value;
      var bound := sem.bind(xs[0].variant, s);
      if xs[0].tag != tag {
        ArmsPreserved(sem, xs[1..], tag, s, fuel);
      } else if xs[0].guard.None? {
        PassPreserves(sem, xs[0].body, bound, fuel);
      } else {
        var (s', yes) := sem.test(xs[0].guard.value, bound);
        if yes {
          PassPreserves(sem, xs[0].body, s', fuel);
        } else {
          ArmsPreserved(sem, xs[1..], tag, s', fuel);
        }
      }
    }
  }

  lemma {:induction false} WildcardPreserved<S>(sem: Semantics<S>, w: Option<Arm>, s: S, fuel: nat)
    requires w.Some? && PassWildcard(w).Some? && TidyBlock(w.value.body)
    ensures ExecWildcard(sem, PassWildcard(w).value, s, fuel) == ExecWildcard(sem, w, s, fuel)
    decreases fuel, w
  {
    var d := w.value;
    match d.guard
    case None => PassPreserves(sem, d.body, s, fuel);
    case Some(g) =>
      var (s', yes) := sem.test(g, s);
      if yes {
        PassPreserves(sem, d.body, s', fuel);
      }
  }

  // ---- The order of sorting and descending, and passing twice ----

  lemma PassArmsCons(x: Arm, rest: seq<Arm>)
    ensures PassArms([]) == Some([])
    ensures PassArms([x] + rest).Some? <==> PassBlock(x.body).Some? && PassArms(rest).Some?
    ensures PassArms([x] + rest).Some? ==>
      PassArms([x] + rest).value == [x.(body := PassBlock(x.body).value)] + PassArms(rest).value
  {
    assert ([x] + rest)[1..] == rest;
  }

  lemma {:induction false} PassArmsConcat(xs: seq<Arm>, ys: seq<Arm>)
    requires PassArms(xs).Some? && PassArms(ys).Some?
    ensures PassArms(xs + ys) == Some(PassArms(xs).value + PassArms(ys).value)
  {
    hide PassArms, PassBlock;
    if xs == [] {
      assert xs + ys == ys;
      PassArmsCons(Arm(0, "", None, []), ys);
      assert [] + PassArms(ys).value == PassArms(ys).value;
    } else {
      assert xs == [xs[0]] + xs[1..] && xs + ys == [xs[0]] + (xs[1..] + ys);
      PassArmsCons(xs[0], xs[1..]);
      PassArmsConcat(xs[1..], ys);
      PassArmsCons(xs[0], xs[1..] + ys);
      var first := xs[0].(body := PassBlock(xs[0].body).value);
      assert [first] + (PassArms(xs[1..]).value + PassArms(ys).value) == PassArms(xs).value + PassArms(ys).value;
    }
  }

  lemma {:induction false} PassArmsFront(xs: seq<Arm>)
    requires xs != [] && PassArms(xs).Some?
    ensures PassArms(xs[..|xs| - 1]).Some? && PassArms([xs[|xs| - 1]]).Some?
    ensures PassArms(xs).value == PassArms(xs[..|xs| - 1]).value + PassArms([xs[|xs| - 1]]).value
  {
    if |xs| == 1 {
      assert xs == [xs[0]];
    } else {
      PassArmsFront(xs[1..]);
      FrontOfRest(xs, |xs| - 2);
    }
  }

  lemma {:induction false} InsertThenPass(ys: seq<Arm>, x: Arm)
    requires PassArms(ys).Some? && PassArms([x]).Some?
    ensures PassArms(Insert(Less, ys, x)) == Some(Insert(Less, PassArms(ys).value, PassArms([x]).value[0]))
  {
    hide PassArms, Less;
    PassedArms(ys);
    PassedArms([x]);
    var x', ys' := PassArms([x]).value[0], PassArms(ys).value;
    assert PassArms([x]).value == [x'];
    if ys == [] {
      PassArmsConcat(ys, [x]);
    } else {
      var front, last := ys[..|ys| - 1], ys[|ys| - 1];
      SameLess(x, last, x', ys'[|ys| - 1]);
      if Less(x, last) {
        PassArmsFront(ys);
        PassedArms(front);
        PassedArms([last]);
        InsertThenPass(front, x);
        PassArmsConcat(Insert(Less, front, x), [last]);
        assert ys'[..|ys| - 1] == PassArms(front).value && [ys'[|ys| - 1]] == PassArms([last]).value;
      } else {
        PassArmsConcat(ys, [x]);
      }
    }
  }

  lemma SameLess(a: Arm, b: Arm, a': Arm, b': Arm)
    requires a' == a.(body := a'.body) && b' == b.(body := b'.body)
    ensures Less(a', b') <==> Less(a, b)
  {
  }

  // Sorting first and descending into the bodies then, as the source does, is
  // descending first and sorting then.
  lemma {:induction false} SortThenPass(xs: seq<Arm>)
    requires PassArms(xs).Some?
    ensures PassArms(Sort(Less, xs)) == Some(Sort(Less, PassArms(xs).value))
  {
    if xs != [] {
      var front, last := xs[..|xs| - 1], xs[|xs| - 1];
      PassArmsFront(xs);
      PassedArms(xs);
      PassedArms(front);
      SortThenPass(front);
      InsertThenPass(Sort(Less, front), last);
      assert PassArms(xs).value[..|xs| - 1] == PassArms(front).value;
    }
  }

  // What the pass returns, it returns unchanged.
  lemma {:induction false} PassIsIdempotent(b: seq<Stmt>)
    requires PassBlock(b).Some?
    ensures PassBlock(PassBlock(b).value) == PassBlock(b)
    decreases b
  {
    if b != [] {
      var b' := PassBlock(b).value;
      assert b'[0] == PassStmt(b[0]).value && b'[1..] == PassBlock(b[1..]).value;
      StmtIdempotent(b[0]);
      PassIsIdempotent(b[1..]);
    }
  }

  lemma {:induction false} StmtIdempotent(t: Stmt)
    requires PassStmt(t).Some?
    ensures PassStmt(PassStmt(t).value) == PassStmt(t)
    decreases t
  {
    match t
    case Match(target, arms, wildcard) =>
      ArmsIdempotent(arms);
      SortedTwice(arms);
      if wildcard.Some? {
        PassIsIdempotent(wildcard.value.body);
      }
    case If(_, thens, elses) =>
      PassIsIdempotent(thens);
      PassIsIdempotent(elses);
    case Loop(_, body) =>
      PassIsIdempotent(body);
    case Other(_) =>
  }

  lemma SortedTwice(arms: seq<Arm>)
    requires PassArms(arms).Some? && !Duplicate(arms) && PassArms(PassArms(arms).value) == PassArms(arms)
    ensures var ys := Sort(Less, PassArms(arms).value);
      PassArms(ys) == Some(ys) && !Duplicate(ys) && Sort(Less, ys) == ys
  {
    hide PassArms, Sort, Less, Duplicate;
    var ys := PassArms(arms).value;
    PassedArms(arms);
    SortThenPass(ys);
    LessIsWeak();
    SortSorts(Less, ys);
    SortOfSorted(Less, Sort(Less, ys));
    SortHasNoDuplicate(ys);
  }

  lemma LessIsWeak()
    ensures Weak(Less)
  {
  }

  lemma {:induction false} ArmsIdempotent(xs: seq<Arm>)
    requires PassArms(xs).Some?
    ensures PassArms(PassArms(xs).value) == PassArms(xs)
    decreases xs
  {
    if xs != [] {
      assert PassArms(xs).value[1..] == PassArms(xs[1..]).value;
      PassIsIdempotent(xs[0].body);
      ArmsIdempotent(xs[1..]);
    }
  }

  lemma SortHasNoDuplicate(xs: seq<Arm>)
    ensures Duplicate(Sort(Less, xs)) <==> Duplicate(xs)
  {
    DuplicateIff(xs);
    DuplicateIff(Sort(Less, xs));
    if Duplicate(xs) {
      var tag :| |Keep(xs, tag, false)| >= 2;
      SortKeeps(xs, tag, false);
    }
    if Duplicate(Sort(Less, xs)) {
      var tag :| |Keep(Sort(Less, xs), tag, false)| >= 2;
      SortKeeps(xs, tag, false);
    }
  }

  lemma {:induction false} DuplicateIff(xs: seq<Arm>)
    ensures Duplicate(xs) <==> exists tag :: |Keep(xs, tag, false)| >= 2
  {
    if i, j :| 0 <= i < j < |xs| && xs[i].guard.None? && xs[j].guard.None? && xs[i].tag == xs[j].tag {
      KeepsTwo(xs, i, j);
    }
    forall tag | |Keep(xs, tag, false)| >= 2 ensures Duplicate(xs) {
      FindsTwo(xs, tag);
    }
  }

  lemma {:induction false} KeepsTwo(xs: seq<Arm>, i: nat, j: nat)
    requires i < j < |xs| && xs[i].guard.None? && xs[j].guard.None? && xs[i].tag == xs[j].tag
    ensures |Keep(xs, xs[i].tag, false)| >= 2
  {
    if i > 0 {
      KeepsTwo(xs[1..], i - 1, j - 1);
    } else {
      KeepHas(xs[1..], xs[0].tag, j - 1);
    }
  }

  lemma {:induction false} FindsTwo(xs: seq<Arm>, tag: nat)
    requires |Keep(xs, tag, false)| >= 2
    ensures Duplicate(xs)
  {
    if xs[0].tag == tag && xs[0].guard.None? {
      var j := FindsOne(xs[1..], tag);
      assert xs[j + 1] == xs[1..][j];
    } else {
      FindsTwo(xs[1..], tag);
      var i, j :| 0 <= i < j < |xs| - 1 && xs[1..][i].guard.None? && xs[1..][j].guard.None?
        && xs[1..][i].tag == xs[1..][j].tag;
      assert xs[i + 1] == xs[1..][i] && xs[j + 1] == xs[1..][j];
    }
  }

  lemma {:induction false} FindsOne(xs: seq<Arm>, tag: nat) returns (j: nat)
    requires Keep(xs, tag, false) != []
    ensures j < |xs| && xs[j].tag == tag && xs[j].guard.None?
  {
    if xs[0].tag == tag && xs[0].guard.None? {
      j := 0;
    } else {
      j := FindsOne(xs[1..], tag);
      j := j + 1;
    }
  }
}
