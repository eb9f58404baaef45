// Fresh type variables, instantiation and free variables of types/poly.go, and
// Compose of types/subst.go.
module Polymorphism {
  import opened Types
  import opened Substitution
  import Numerals

  // ---- Fresh names ----

  // A name that a program can write.
  predicate Written(x: string) {
    '#' !in x
  }

  function FreshName(base: string, n: nat): string {
    (if base == "" then "T" else base) + "#" + Numerals.Digits(n)
  }

  // No two calls of FreshTypeVar return one name, and none returns a name that
  // a program can write.
  lemma FreshNamesDiffer(a: string, m: nat, b: string, n: nat)
    requires Written(a) && Written(b)
    ensures FreshName(a, m) == FreshName(b, n) ==> m == n
    ensures !Written(FreshName(a, m))
  {
    var x, y := (if a == "" then "T" else a), if b == "" then "T" else b;
    var s, t := FreshName(a, m), FreshName(b, n);
    assert s[|x|] == '#';
    if s == t {
      Numerals.IndexOfIs(x, '#', Numerals.Digits(m));
      Numerals.IndexOfIs(y, '#', Numerals.Digits(n));
      assert s == x + ['#'] + Numerals.Digits(m) && t == y + ['#'] + Numerals.Digits(n);
      assert s[|x| + 1..] == Numerals.Digits(m) && t[|y| + 1..] == Numerals.Digits(n);
      Numerals.ValueOfDigits(m);
      Numerals.ValueOfDigits(n);
    }
  }

  // The counter behind FreshTypeVar; it does not wrap around here.
  class Counter {
    var last: nat

    constructor ()
      ensures last == 0
    {
      last := 0;
    }

    method FreshTypeVar(base: string) returns (t: Type)
      modifies this
      ensures last == old(last) + 1 && t == TypeVar(FreshName(base, last))
    {
      last := last + 1;
      t := TypeVar(FreshName(base, last));
    }
  }

  // ---- Instantiate ----

  // Each parameter goes to a fresh variable, numbered between lo and hi.
  ghost predicate Renames(sub: Subst, params: seq<string>, lo: nat, hi: nat) {
    && (forall x :: x in sub <==> x in params)
    && (forall x <- sub :: exists n :: lo < n <= hi && sub[x] == TypeVar(FreshName(x, n)))
    && (forall x, y | x in sub && y in sub && x != y :: sub[x] != sub[y])
  }

  method Instantiate(t: Type, params: seq<string>, counter: Counter) returns (u: Type, sub: Subst)
    requires forall x <- params :: Written(x)
    modifies counter
    ensures Renames(sub, params, old(counter.last), counter.last)
    ensures Acyclic(sub) && u == Apply(sub, t) == Inst(sub, t)
  {
    sub := map[];
    ghost var start := counter.last;
    for i := 0 to |params|
      invariant start <= counter.last && Renames(sub, params[..i], start, counter.last)
    {
      assert params[i] in params && params[..i + 1] == params[..i] + [params[i]];
      ghost var before := counter.last;
      var v := counter.FreshTypeVar(params[i]);
      RenamesOneMore(sub, params[..i], start, before, params[i]);
      sub := sub[params[i] := v];
    }
    assert params[..|params|] == params;
    RenamingIsAcyclic(sub, params, start, counter.last);
    RenamingIsOnePass(sub, params, start, counter.last, t);
    u := Apply(sub, t);
  }

  lemma RenamesOneMore(sub: Subst, params: seq<string>, lo: nat, hi: nat, x: string)
    requires Renames(sub, params, lo, hi) && lo <= hi && Written(x) && forall y <- params :: Written(y)
    ensures Renames(sub[x := TypeVar(FreshName(x, hi + 1))], params + [x], lo, hi + 1)
  {
    hide FreshName, Written;
    var sub' := sub[x := TypeVar(FreshName(x, hi + 1))];
    assert forall y :: y in params + [x] <==> y in params || y == x;
    forall y | y in sub' ensures exists n :: lo < n <= hi + 1 && sub'[y] == TypeVar(FreshName(y, n)) {
      if y != x {
        var n :| lo < n <= hi && sub[y] == TypeVar(FreshName(y, n));
        assert sub'[y] == TypeVar(FreshName(y, n));
      }
    }
    forall y | y in sub && y != x ensures sub'[y] != sub'[x] {
      var n :| lo < n <= hi && sub[y] == TypeVar(FreshName(y, n));
      FreshNamesDiffer(y, n, x, hi + 1);
    }
  }

  // The images are no parameters, so that nothing is chased.
  lemma ImagesAreFree(sub: Subst, params: seq<string>, lo: nat, hi: nat, x: string)
    requires Renames(sub, params, lo, hi) && x in sub && forall y <- params :: Written(y)
    ensures sub[x].TypeVar? && !Written(sub[x].id) && sub[x].id !in sub
  {
    var n :| lo < n <= hi && sub[x] == TypeVar(FreshName(x, n));
    FreshNamesDiffer(x, n, x, n);
  }

  lemma RenamingIsAcyclic(sub: Subst, params: seq<string>, lo: nat, hi: nat)
    requires Renames(sub, params, lo, hi) && forall y <- params :: Written(y)
    ensures Acyclic(sub)
  {
    var rank: map<string, nat> := map x | x in sub :: 0;
    forall x | x in sub ensures Height(rank, sub[x]) <= rank[x] {
      ImagesAreFree(sub, params, lo, hi, x);
    }
    assert Ranked(sub, rank);
  }

  lemma {:induction false} RenamingIsOnePass(sub: Subst, params: seq<string>, lo: nat, hi: nat, t: Type)
    requires Renames(sub, params, lo, hi) && (forall y <- params :: Written(y)) && Acyclic(sub)
    ensures Apply(sub, t) == Inst(sub, t)
    decreases t
  {
    match t
    case TypeVar(x) =>
      if x in sub {
        ImagesAreFree(sub, params, lo, hi, x);
      }
    case Comp(h, args) =>
      forall i | 0 <= i < |args| ensures Apply(sub, args[i]) == Inst(sub, args[i]) {
        RenamingIsOnePass(sub, params, lo, hi, args[i]);
      }
    case _ =>
  }

  // The renaming back.
  ghost function Back(sub: Subst, names: set<string>): Subst
    requires forall x <- sub :: sub[x].TypeVar?
  {
    map z | z in names && (exists x :: x in sub && sub[x] == TypeVar(z)) :: TypeVar(Origin(sub, z))
  }

  ghost function Origin(sub: Subst, z: string): (x: string)
    requires exists x :: x in sub && sub[x] == TypeVar(z)
    ensures x in sub && sub[x] == TypeVar(z)
  {
    var x :| x in sub && sub[x] == TypeVar(z);
    x
  }

  // An instance differs from a written type in the names of its parameters and
  // in nothing else: renaming them back gives the type again.
  lemma {:induction false} InstanceIsRenaming(t: Type, params: seq<string>, sub: Subst, lo: nat, hi: nat)
    requires Renames(sub, params, lo, hi) && forall y <- params :: Written(y)
    requires forall x <- Vars(t) :: Written(x)
    ensures forall x <- sub :: sub[x].TypeVar?
    ensures Inst(Back(sub, Vars(Inst(sub, t))), Inst(sub, t)) == t
  {
    forall x | x in sub ensures sub[x].TypeVar? {
      ImagesAreFree(sub, params, lo, hi, x);
    }
    BackUndoes(t, params, sub, lo, hi, Vars(Inst(sub, t)));
  }

  lemma {:induction false} BackUndoes(t: Type, params: seq<string>, sub: Subst, lo: nat, hi: nat, names: set<string>)
    requires Renames(sub, params, lo, hi) && forall y <- params :: Written(y)
    requires forall x <- Vars(t) :: Written(x)
    requires (forall x <- sub :: sub[x].TypeVar?) && Vars(Inst(sub, t)) <= names
    ensures Inst(Back(sub, names), Inst(sub, t)) == t
    decreases t
  {
    match t
    case TypeVar(x) =>
      if x in sub {
        assert sub[x] == TypeVar(sub[x].id);
        var y := Origin(sub, sub[x].id);
        assert y == x;
      } else {
        forall y | y in sub ensures sub[y] != TypeVar(x) {
          ImagesAreFree(sub, params, lo, hi, y);
        }
      }
    case Comp(h, args) =>
      var u := Inst(sub, t);
      forall i | 0 <= i < |args| ensures Inst(Back(sub, names), u.args[i]) == args[i] {
        VarsAllContains(u.args, i);
        VarsAllContains(args, i);
        BackUndoes(args[i], params, sub, lo, hi, names);
      }
    case _ =>
  }

  // Two call sites share no fresh variable.
  lemma InstancesAreApart(params: seq<string>, sub: Subst, lo: nat, mid: nat,
                          params': seq<string>, sub': Subst, hi: nat)
    requires Renames(sub, params, lo, mid) && Renames(sub', params', mid, hi)
    requires (forall y <- params :: Written(y)) && forall y <- params' :: Written(y)
    ensures forall x, y | x in sub && y in sub' :: sub[x] != sub'[y]
  {
    forall x, y | x in sub && y in sub' ensures sub[x] != sub'[y] {
      var m :| lo < m <= mid && sub[x] == TypeVar(FreshName(x, m));
      var n :| mid < n <= hi && sub'[y] == TypeVar(FreshName(y, n));
      FreshNamesDiffer(x, m, y, n);
    }
  }

  // With a parameter that could itself be a fresh name, one parameter is chased
  // into the image of the other.
  lemma CapturedExample()
    ensures var sub := map["T" := TypeVar("T#1"), "T#1" := TypeVar("T#1#2")];
      sub["T"] == TypeVar(FreshName("T", 1)) && sub["T#1"] == TypeVar(FreshName("T#1", 2)) &&
      Acyclic(sub) && Apply(sub, TypeVar("T")) == Apply(sub, TypeVar("T#1"))
  {
    var sub := map["T" := TypeVar("T#1"), "T#1" := TypeVar("T#1#2")];
    assert Numerals.Digits(1) == "1" && Numerals.Digits(2) == "2";
    assert "T" + "#" + "1" == "T#1" && "T#1" + "#" + "2" == "T#1#2";
    var rank: map<string, nat> := map["T" := 1, "T#1" := 0];
    assert "T#1#2" != "T" && "T#1#2" != "T#1";
    assert Ranked(sub, rank);
    assert Apply(sub, TypeVar("T")) == Apply(sub, sub["T"]);
  }

  // ---- FreeTypeVars ----

  // collectFreeVars: the names that it adds.
  ghost function FreeVars(sub: Subst, t: Type): set<string>
    requires Acyclic(sub)
    decreases Height(Rank(sub), t), t, if t.Comp? then |t.args| + 1 else 0
  {
    match t
    case TypeVar(x) => if x in sub then FreeVars(sub, sub[x]) else {x}
    case Comp(_, args) => FreeVarsAll(sub, t, |args|)
    case _ => {}
  }

  ghost function FreeVarsAll(sub: Subst, t: Type, n: nat): set<string>
    requires Acyclic(sub) && t.Comp? && n <= |t.args|
    decreases Height(Rank(sub), t), t, n
  {
    if n == 0 then {}
    else
      HeightAllContains(Rank(sub), t.args, n - 1);
      FreeVarsAll(sub, t, n - 1) + FreeVars(sub, t.args[n - 1])
  }

  // The free variables under a substitution are those of the applied type.
  lemma {:induction false} FreeVarsAreApplied(sub: Subst, t: Type)
    requires Acyclic(sub)
    ensures FreeVars(sub, t) == Vars(Apply(sub, t))
    decreases Height(Rank(sub), t), t, if t.Comp? then |t.args| + 1 else 0
  {
    match t
    case TypeVar(x) =>
      if x in sub {
        FreeVarsAreApplied(sub, sub[x]);
      }
    case Comp(h, args) =>
      var us := Apply(sub, t).args;
      FreeVarsUpTo(sub, t, |args|);
      assert us[..|args|] == us;
    case _ =>
  }

  lemma {:induction false} FreeVarsUpTo(sub: Subst, t: Type, n: nat)
    requires Acyclic(sub) && t.Comp? && n <= |t.args|
    ensures FreeVarsAll(sub, t, n) == VarsAll(Apply(sub, t).args[..n])
    decreases Height(Rank(sub), t), t, n
  {
    if n > 0 {
      var us := Apply(sub, t).args;
      HeightAllContains(Rank(sub), t.args, n - 1);
      FreeVarsUpTo(sub, t, n - 1);
      FreeVarsAreApplied(sub, t.args[n - 1]);
      assert us[..n] == us[..n - 1] + [us[n - 1]];
      VarsAllAppend(us[..n - 1], us[n - 1]);
    }
  }

  lemma {:induction false} VarsAllAppend(ts: seq<Type>, t: Type)
    ensures VarsAll(ts + [t]) == VarsAll(ts) + Vars(t)
  {
    if ts == [] {
      assert [t][1..] == [];
    } else {
      assert (ts + [t])[1..] == ts[1..] + [t];
      VarsAllAppend(ts[1..], t);
    }
  }

  // ---- Compose ----

  function Images(sub: Subst, other: Subst): Subst
    requires Acyclic(sub)
  {
    map x | x in other :: Apply(sub, other[x])
  }

  function Composed(sub: Subst, other: Subst): Subst
    requires Acyclic(sub)
  {
    Images(sub, other) + sub
  }

  method Compose(sub: Subst, other: Subst) returns (out: Subst)
    requires Acyclic(sub)
    ensures out == Composed(sub, other)
  {
    out := ApplyToImages(sub, other);
    ghost var images := out;
    var todo := sub.Keys;
    while todo != {}
      invariant todo <= sub.Keys
      invariant out.Keys == images.Keys + (sub.Keys - todo)
      invariant forall x <- out :: out[x] == if x in sub && x !in todo then sub[x] else images[x]
    {
      var x :| x in todo;
      out := out[x := sub[x]];
      todo := todo - {x};
    }
  }

  method ApplyToImages(sub: Subst, other: Subst) returns (out: Subst)
    requires Acyclic(sub)
    ensures out == Images(sub, other)
  {
    out := map[];
    var todo := other.Keys;
    while todo != {}
      invariant todo <= other.Keys && out.Keys == other.Keys - todo
      invariant forall x <- out :: out[x] == Apply(sub, other[x])
    {
      var x :| x in todo;
      out := out[x := Apply(sub, other[x])];
      todo := todo - {x};
    }
  }

  // The composition asks of its solutions what sub asks, and what other asks of
  // the variables that sub leaves alone: what other asks of the rest is lost.
  lemma ComposeSolves(s: Subst, sub: Subst, other: Subst)
    requires Acyclic(sub)
    ensures Solves(s, Composed(sub, other)) <==>
      Solves(s, sub) && forall x | x in other && x !in sub :: Inst(s, TypeVar(x)) == Inst(s, other[x])
  {
    var out := Composed(sub, other);
    if Solves(s, sub) {
      forall x | x in other && x !in sub ensures Inst(s, out[x]) == Inst(s, other[x]) {
        SolutionAbsorbsApply(s, sub, other[x]);
      }
    }
    if Solves(s, out) {
      forall x | x in sub ensures Inst(s, TypeVar(x)) == Inst(s, sub[x]) {
        assert out[x] == sub[x] && x in out;
      }
    }
  }
}
