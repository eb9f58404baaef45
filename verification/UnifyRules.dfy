// The rules of unifyInto (types/subst.go), as a relation.
module UnifyRules {
  import opened Types
  import opened Substitution
  import opened Sequences

  datatype Outcome =
    | Ok
    | Mismatch            // the error of mismatch(a, b), or of the occurs check
    | Knot                // a binding was stored that makes the substitution cyclic

  // What of a kind counts: of a function whether it is variadic, of a struct its
  // name.
  function Kind(h: Head): Head {
    match h
    case Func(variadic, _, _) => Func(variadic, 0, [])
    case Struct(name, _) => Struct(name, [])
    case _ => h
  }

  // Unifying a0 and b0 under `before` ends with r and leaves `after`. The bindings
  // are applied first; then variables come before `any`, and `any` before kinds.
  ghost predicate Derives(before: Subst, a0: Type, b0: Type, r: Outcome, after: Subst) {
    exists depth: nat :: DerivesIn(depth, before, a0, b0, r, after)
  }

  ghost predicate DerivesIn(depth: nat, before: Subst, a0: Type, b0: Type, r: Outcome, after: Subst)
    decreases depth, 0
  {
    depth > 0 && Acyclic(before) &&
    var a, b := Apply(before, a0), Apply(before, b0);
    if a.TypeVar? then Binds(before, a.id, b, r, after)
    else if b.TypeVar? then Binds(before, b.id, a, r, after)
    else if a.Any? || b.Any? then r == Ok && after == before
    else if SameParts(a, b) then DerivesAll(depth - 1, before, a.args, b.args, r, after)
    else after == before && r == if SameName(a, b) then Ok else Mismatch
  }

  // From the left, up to the first failure, each under the bindings that the one
  // before has left.
  ghost predicate DerivesAll(depth: nat, before: Subst, xs: seq<Type>, ys: seq<Type>, r: Outcome, after: Subst)
    requires |xs| == |ys|
    decreases depth, 1 + |xs|
  {
    if xs == [] then r == Ok && after == before
    else
      exists r', mid ::
        && DerivesFirst(depth, before, xs, ys, r', mid)
        && if r' == Ok then DerivesAll(depth, mid, xs[1..], ys[1..], r, after) else r == r' && after == mid
  }

  ghost predicate DerivesFirst(depth: nat, before: Subst, xs: seq<Type>, ys: seq<Type>, r: Outcome, after: Subst)
    requires xs != [] && ys != []
    decreases depth, 1
  {
    DerivesIn(depth, before, xs[0], ys[0], r, after)
  }

  // Two types of one kind with children.
  predicate SameParts(a: Type, b: Type) {
    a.Comp? && b.Comp? && Kind(a.head) == Kind(b.head) && !a.head.Struct? && |a.args| == |b.args|
  }

  // Structs and unions of one name, and one atom other than `value`.
  predicate SameName(a: Type, b: Type) {
    || (a.Comp? && b.Comp? && a.head.Struct? && b.head.Struct? && a.head.name == b.head.name)
    || (a.Union? && b.Union? && a.unionName == b.unionName)
    || (a.Atomic? && a == b && a.atom != Value)
  }

  // The variable x is bound to t, unless t is x itself or shows it; where x hides
  // in t the bindings become cyclic.
  predicate Binds(before: Subst, x: string, t: Type, r: Outcome, after: Subst) {
    if t == TypeVar(x) then r == Ok && after == before
    else if Visible(x, t) then r == Mismatch && after == before
    else after == before[x := t] && r == if x in Vars(t) then Knot else Ok
  }

  // The rules allow one end only.
  lemma DerivesOnce(before: Subst, a: Type, b: Type, r: Outcome, after: Subst, r': Outcome, after': Subst)
    requires Derives(before, a, b, r, after) && Derives(before, a, b, r', after')
    ensures r == r' && after == after'
  {
    var m: nat :| DerivesIn(m, before, a, b, r, after);
    var n: nat :| DerivesIn(n, before, a, b, r', after');
    DerivesInOnce(m, n, before, a, b, r, after, r', after');
  }

  lemma {:induction false} DerivesInOnce(m: nat, n: nat, before: Subst, a: Type, b: Type,
                                         r: Outcome, after: Subst, r': Outcome, after': Subst)
    requires DerivesIn(m, before, a, b, r, after) && DerivesIn(n, before, a, b, r', after')
    ensures r == r' && after == after'
    decreases m, 0
  {
    hide Apply, Acyclic, SameName, Visible, DerivesAll;
    var u, v := Apply(before, a), Apply(before, b);
    if !u.TypeVar? && !v.TypeVar? && !u.Any? && !v.Any? && SameParts(u, v) {
      DerivesAllOnce(m - 1, n - 1, before, u.args, v.args, r, after, r', after');
    }
  }

  lemma {:induction false} DerivesAllOnce(m: nat, n: nat, before: Subst, xs: seq<Type>, ys: seq<Type>,
                                          r: Outcome, after: Subst, r': Outcome, after': Subst)
    requires |xs| == |ys|
    requires DerivesAll(m, before, xs, ys, r, after) && DerivesAll(n, before, xs, ys, r', after')
    ensures r == r' && after == after'
    decreases m, 1 + |xs|
  {
    hide DerivesIn;
    if xs != [] {
      var r1, mid1 :| DerivesFirst(m, before, xs, ys, r1, mid1) &&
        if r1 == Ok then DerivesAll(m, mid1, xs[1..], ys[1..], r, after) else r == r1 && after == mid1;
      var r2, mid2 :| DerivesFirst(n, before, xs, ys, r2, mid2) &&
        if r2 == Ok then DerivesAll(n, mid2, xs[1..], ys[1..], r', after') else r' == r2 && after' == mid2;
      DerivesInOnce(m, n, before, xs[0], ys[0], r1, mid1, r2, mid2);
      if r1 == Ok {
        DerivesAllOnce(m, n, mid1, xs[1..], ys[1..], r, after, r', after');
      }
    }
  }

  lemma {:induction false} DeeperDerives(m: nat, n: nat, before: Subst, a: Type, b: Type, r: Outcome, after: Subst)
    requires m <= n && DerivesIn(m, before, a, b, r, after)
    ensures DerivesIn(n, before, a, b, r, after)
    decreases m, 0
  {
    hide Apply, Acyclic, SameName, Visible, DerivesAll, Binds;
    var u, v := Apply(before, a), Apply(before, b);
    if !u.TypeVar? && !v.TypeVar? && !u.Any? && !v.Any? && SameParts(u, v) {
      DeeperDerivesAll(m - 1, n - 1, before, u.args, v.args, r, after);
    }
  }

  lemma {:induction false} DeeperDerivesAll(m: nat, n: nat, before: Subst, xs: seq<Type>, ys: seq<Type>,
                                            r: Outcome, after: Subst)
    requires m <= n && |xs| == |ys| && DerivesAll(m, before, xs, ys, r, after)
    ensures DerivesAll(n, before, xs, ys, r, after)
    decreases m, 1 + |xs|
  {
    hide DerivesIn;
    if xs != [] {
      var r', mid :| DerivesFirst(m, before, xs, ys, r', mid) &&
        if r' == Ok then DerivesAll(m, mid, xs[1..], ys[1..], r, after) else r == r' && after == mid;
      DeeperDerives(m, n, before, xs[0], ys[0], r', mid);
      assert DerivesFirst(n, before, xs, ys, r', mid);
      if r' == Ok {
        DeeperDerivesAll(m, n, mid, xs[1..], ys[1..], r, after);
      }
    }
  }

  // The arguments up to i, and then the rest.
  lemma {:induction false} DerivesJoin(n: nat, before: Subst, xs: seq<Type>, ys: seq<Type>, i: nat,
                                       mid: Subst, r: Outcome, after: Subst)
    requires i <= |xs| == |ys| && DerivesAll(n, before, xs[..i], ys[..i], Ok, mid)
    requires DerivesAll(n, mid, xs[i..], ys[i..], r, after)
    ensures DerivesAll(n, before, xs, ys, r, after)
    decreases i
  {
    hide DerivesIn;
    if i == 0 {
      assert xs[0..] == xs && ys[0..] == ys;
    } else {
      var fx, fy := xs[..i], ys[..i];
      var r', next :| DerivesFirst(n, before, fx, fy, r', next) &&
        if r' == Ok then DerivesAll(n, next, fx[1..], fy[1..], Ok, mid) else Ok == r' && mid == next;
      FrontOfRest(xs, i - 1);
      FrontOfRest(ys, i - 1);
      assert xs[1..][i - 1..] == xs[i..] && ys[1..][i - 1..] == ys[i..];
      DerivesJoin(n, next, xs[1..], ys[1..], i - 1, mid, r, after);
      assert DerivesFirst(n, before, xs, ys, Ok, next);
    }
  }

  // The first k arguments of a and b.
  ghost predicate DerivesFront(before: Subst, a: Type, b: Type, k: nat, r: Outcome, after: Subst)
    requires a.Comp? && b.Comp? && k <= |a.args| == |b.args|
  {
    exists n: nat :: DerivesAll(n, before, a.args[..k], b.args[..k], r, after)
  }

  lemma DerivesNone(before: Subst, a: Type, b: Type)
    requires a.Comp? && b.Comp? && |a.args| == |b.args|
    ensures DerivesFront(before, a, b, 0, Ok, before)
  {
    assert DerivesAll(0, before, a.args[..0], b.args[..0], Ok, before);
  }

  // One argument more, or the failure that ends them all.
  lemma DerivesNext(before: Subst, a: Type, b: Type, i: nat, mid: Subst, r: Outcome, after: Subst)
    requires a.Comp? && b.Comp? && i < |a.args| == |b.args|
    requires DerivesFront(before, a, b, i, Ok, mid) && Derives(mid, a.args[i], b.args[i], r, after)
    ensures DerivesFront(before, a, b, if r == Ok then i + 1 else |a.args|, r, after)
  {
    hide DerivesIn;
    var m: nat :| DerivesAll(m, before, a.args[..i], b.args[..i], Ok, mid);
    var n: nat :| DerivesIn(n, mid, a.args[i], b.args[i], r, after);
    var d, k := if m < n then n else m, if r == Ok then i + 1 else |a.args|;
    var xs, ys := a.args[..k], b.args[..k];
    DeeperDerivesAll(m, d, before, a.args[..i], b.args[..i], Ok, mid);
    DeeperDerives(n, d, mid, a.args[i], b.args[i], r, after);
    assert xs[..i] == a.args[..i] && ys[..i] == b.args[..i];
    assert xs[i..][0] == a.args[i] && ys[i..][0] == b.args[i];
    assert DerivesFirst(d, mid, xs[i..], ys[i..], r, after);
    if r == Ok {
      assert xs[i..][1..] == [] && ys[i..][1..] == [];
    }
    assert DerivesAll(d, mid, xs[i..], ys[i..], r, after);
    DerivesJoin(d, before, xs, ys, i, mid, r, after);
  }

  lemma DerivesWhole(before: Subst, a: Type, b: Type, r: Outcome, after: Subst)
    requires Acyclic(before) && Apply(before, a) == a && Apply(before, b) == b && SameParts(a, b)
    requires DerivesFront(before, a, b, |a.args|, r, after)
    ensures Derives(before, a, b, r, after)
  {
    hide DerivesAll;
    var n: nat :| DerivesAll(n, before, a.args[..|a.args|], b.args[..|a.args|], r, after);
    assert a.args[..|a.args|] == a.args && b.args[..|a.args|] == b.args;
    assert DerivesIn(n + 1, before, a, b, r, after);
  }

  // The rules that do not descend.
  lemma DerivesAtOnce(before: Subst, a0: Type, b0: Type, r: Outcome, after: Subst)
    requires Acyclic(before)
    requires var a, b := Apply(before, a0), Apply(before, b0);
      if a.TypeVar? then Binds(before, a.id, b, r, after)
      else if b.TypeVar? then Binds(before, b.id, a, r, after)
      else
        && after == before
        && if a.Any? || b.Any? then r == Ok
           else !SameParts(a, b) && r == if SameName(a, b) then Ok else Mismatch
    ensures Derives(before, a0, b0, r, after)
  {
    assert DerivesIn(1, before, a0, b0, r, after);
  }

  // It is the applied types that count.
  lemma DerivesOfApplied(before: Subst, a0: Type, b0: Type, r: Outcome, after: Subst)
    requires Acyclic(before)
    requires var a, b := Apply(before, a0), Apply(before, b0);
      Apply(before, a) == a && Apply(before, b) == b && Derives(before, a, b, r, after)
    ensures Derives(before, a0, b0, r, after)
  {
    hide DerivesAll;
    var n: nat :| DerivesIn(n, before, Apply(before, a0), Apply(before, b0), r, after);
    assert DerivesIn(n, before, a0, b0, r, after);
  }
}
