// The rules of Subtype and equalKinds (types/subtype.go), kind by kind.
module SubtypeRules {
  import opened Types
  import opened Subtyping

  // ---- equalKinds ----

  // What equalKinds does not look at, removed: effects and type parameters of
  // functions, fields of named structs, variants of unions.
  function Bare(t: Type): Type {
    match t
    case Union(n, _) => Union(n, {})
    case Comp(h, args) =>
      if Named(t) then Comp(Struct(h.name, []), [])
      else Comp(if h.Func? then Func(h.variadic, 0, []) else h, BareAll(args))
    case _ => t
  }

  function BareAll(ts: seq<Type>): (r: seq<Type>)
    ensures |r| == |ts| && forall i | 0 <= i < |r| :: r[i] == Bare(ts[i])
  {
    if ts == [] then [] else [Bare(ts[0])] + BareAll(ts[1..])
  }

  // Two types are equal for equalKinds exactly when the rest of them is the
  // same, and shows no future.
  lemma {:induction false} EqualKindsIff(a: Type, b: Type)
    ensures EqualKinds(a, b) <==> Bare(a) == Bare(b) && !Exposed(a)
    decreases a
  {
    if a.Comp? && b.Comp? && Bare(a) == Bare(b) {
      BareShape(a, b);
    }
    if a.Comp? && b.Comp? && !Named(a) && !Named(b) && |a.args| == |b.args| {
      forall i | 0 <= i < |a.args|
        ensures EqualKinds(a.args[i], b.args[i]) <==> Bare(a.args[i]) == Bare(b.args[i]) && !Exposed(a.args[i])
      {
        EqualKindsIff(a.args[i], b.args[i]);
      }
      if Bare(a) == Bare(b) {
        forall i | 0 <= i < |a.args| ensures Bare(a.args[i]) == Bare(b.args[i]) {
          assert BareAll(a.args)[i] == BareAll(b.args)[i];
        }
      }
      if forall i | 0 <= i < |a.args| :: Bare(a.args[i]) == Bare(b.args[i]) {
        assert BareAll(a.args) == BareAll(b.args);
      }
    }
  }

  lemma BareShape(a: Type, b: Type)
    requires a.Comp? && b.Comp? && Bare(a) == Bare(b)
    ensures Named(a) <==> Named(b)
    ensures !Named(a) ==> |a.args| == |b.args|
  {
  }

  // ---- Subtype ----

  // int <: int64 <: bigint <: bigrat and float <: bigrat, with what follows from
  // these, and nothing else; and every type is a subtype of `any`.
  lemma AtomRule(a: Atom, t: Type)
    ensures Subtype(Atomic(a), t) <==>
      || t.Any? || t == Atomic(a)
      || (t.Atomic? && (a, t.atom) in {
            (Int, Int64), (Int, BigInt), (Int, BigRat), (Int64, BigInt), (Int64, BigRat),
            (BigInt, BigRat), (Float, BigRat)})
  {
  }

  lemma AnyRule(t: Type)
    ensures Subtype(t, Any)
    ensures Subtype(Any, t) <==> t.Any?
  {
  }

  lemma VarRule(x: string, t: Type)
    ensures Subtype(TypeVar(x), t) <==> t.Any? || t == TypeVar(x)
  {
  }

  lemma UnionRule(n: string, vs: set<string>, t: Type)
    ensures Subtype(Union(n, vs), t) <==> t.Any? || (t.Union? && t.unionName == n)
  {
  }

  // A named struct goes into structs of its name and unions that have it as a
  // variant.
  lemma StructRule(n: string, fields: seq<string>, args: seq<Type>, t: Type)
    requires n != ""
    ensures Subtype(Comp(Struct(n, fields), args), t) <==>
      || t.Any? || (t.Comp? && t.head.Struct? && t.head.name == n) || (t.Union? && n in t.variants)
  {
  }

  // Functions: contravariant in every parameter, the variadic one included, and
  // covariant in the result; effects and type parameters do not count.
  lemma FunctionRule(f: Head, ps: seq<Type>, r: Type, g: Head, qs: seq<Type>, s: Type)
    requires f.Func? && g.Func?
    ensures Subtype(Comp(f, ps + [r]), Comp(g, qs + [s])) <==>
      && f.variadic == g.variadic && |ps| == |qs|
      && (forall i | 0 <= i < |ps| :: Subtype(qs[i], ps[i]))
      && Subtype(r, s)
  {
    hide Subtype, ArgsFit;
    SubtypeOfComps(Comp(f, ps + [r]), Comp(g, qs + [s]));
    if |ps| == |qs| {
      ParametersFit(f, ps, r, qs, s);
    }
  }

  lemma ParametersFit(f: Head, ps: seq<Type>, r: Type, qs: seq<Type>, s: Type)
    requires f.Func? && |ps| == |qs|
    ensures ArgsFit(f, ps + [r], qs + [s]) <==>
      (forall i | 0 <= i < |ps| :: Subtype(qs[i], ps[i])) && Subtype(r, s)
  {
    hide Subtype, Fits, VarianceOf;
    var xs, ys, n := ps + [r], qs + [s], |ps|;
    assert xs[n] == r && ys[n] == s;
    forall i | 0 <= i < n ensures Fits(VarianceOf(f, i, n + 1), xs[i], ys[i]) <==> Subtype(qs[i], ps[i]) {
      assert xs[i] == ps[i] && ys[i] == qs[i];
      OneFits(f, i, n, xs[i], ys[i]);
    }
    OneFits(f, n, n, xs[n], ys[n]);
    if forall i | 0 <= i < n :: Subtype(qs[i], ps[i]) {
      assert forall i | 0 <= i < n :: Fits(VarianceOf(f, i, n + 1), xs[i], ys[i]);
    }
    if ArgsFit(f, xs, ys) {
      forall i | 0 <= i < n ensures Subtype(qs[i], ps[i]) {
        assert Fits(VarianceOf(f, i, n + 1), xs[i], ys[i]);
      }
    }
  }

  lemma OneFits(f: Head, i: nat, n: nat, x: Type, y: Type)
    requires f.Func? && i <= n
    ensures Fits(VarianceOf(f, i, n + 1), x, y) <==> if i == n then Subtype(x, y) else Subtype(y, x)
  {
    hide Subtype;
  }

  // Sets, lists and options are covariant.
  lemma CovariantRule(h: Head, a: Type, b: Type)
    requires h in {Set, List, Option}
    ensures Subtype(Comp(h, [a]), Comp(h, [b])) <==> Subtype(a, b)
  {
    SubtypeOfComps(Comp(h, [a]), Comp(h, [b]));
    assert ArgsFit(h, [a], [b]) <==> Fits(VarianceOf(h, 0, 1), [a][0], [b][0]);
  }

  // Maps, ordered maps, channels, streams, subscriptions and groups are
  // invariant.
  lemma InvariantRule(h: Head, xs: seq<Type>, ys: seq<Type>)
    requires h in {Map, OMap, Chan, Stream, Sub, Group}
    ensures Subtype(Comp(h, xs), Comp(h, ys)) <==>
      |xs| == |ys| && forall i | 0 <= i < |xs| :: EqualKinds(xs[i], ys[i])
  {
    SubtypeOfComps(Comp(h, xs), Comp(h, ys));
    if |xs| == |ys| {
      forall i | 0 <= i < |xs| ensures Fits(VarianceOf(h, i, |xs|), xs[i], ys[i]) <==> EqualKinds(xs[i], ys[i]) {
      }
    }
  }

  // Kinds do not mix, and futures are subtypes of `any` alone.
  lemma KindRule(h: Head, xs: seq<Type>, t: Type)
    requires !h.Struct? && (h == Future || !t.Comp? || (t.head != h && !(h.Func? && t.head.Func?)))
    ensures Subtype(Comp(h, xs), t) <==> t.Any?
  {
  }

  // A struct without a name goes into its equals, and into unions with a variant
  // that has none.
  lemma UnnamedStructRule(fields: seq<string>, args: seq<Type>, t: Type)
    ensures Subtype(Comp(Struct("", fields), args), t) <==>
      t.Any? || EqualKinds(Comp(Struct("", fields), args), t) || (t.Union? && "" in t.variants)
  {
  }

  // ---- Assignable ----

  // Everything goes into `any`; `any` itself, as an element, into everything.
  lemma AnyAssignable(t: Type, inElement: bool)
    ensures AssignableAt(t, Any, inElement)
    ensures AssignableAt(Any, t, true)
  {
  }

  // The elements of lists, maps, ordered maps, channels, streams, subscriptions
  // and options are compared as elements, all covariantly.
  lemma ElementsAssignable(h: Head, xs: seq<Type>, ys: seq<Type>, inElement: bool)
    requires h in {List, Map, OMap, Chan, Stream, Sub, Option} && |xs| == |ys|
    ensures AssignableAt(Comp(h, xs), Comp(h, ys), inElement) <==>
      forall i | 0 <= i < |xs| :: AssignableAt(xs[i], ys[i], true)
  {
  }

  // A value goes into an option of what it goes into.
  lemma OptionAssignable(src: Type, elem: Type, inElement: bool)
    requires !(src.Comp? && src.head == Option)
    ensures AssignableAt(src, Comp(Option, [elem]), inElement) <==>
      AssignableAt(src, elem, inElement) || (inElement && src.Any?)
  {
  }

  // All else is left to Subtype: other kinds on either side, and sets, groups
  // and functions.
  lemma OtherAssignable(src: Type, dst: Type, inElement: bool)
    requires !dst.Any? && !(inElement && src.Any?) && !(dst.Comp? && dst.head == Option)
    requires !(src.Comp? && dst.Comp? && src.head == dst.head && src.head in {List, Map, OMap, Chan, Stream, Sub})
    ensures AssignableAt(src, dst, inElement) <==> Subtype(src, dst)
  {
  }
}
