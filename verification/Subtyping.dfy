// The order theory of types/subtype.go.
module Subtyping {
  import opened Types

  datatype Variance = Co | Contra | Inv

  // How argument i of n counts. The arguments of a function are its parameters,
  // its variadic element if it has one, and its result.
  function VarianceOf(h: Head, i: nat, n: nat): Variance {
    match h
    case Set | List | Option => Co
    case Func(_, _, _) => if i == n - 1 then Co else Contra
    case _ => Inv
  }

  // Neither equalKinds nor Subtype has a case for futures, and functions are
  // compared without their effects and type parameters.
  predicate SameKind(h: Head, g: Head) {
    if h.Func? && g.Func? then h.variadic == g.variadic else h == g && h != Future
  }

  function EqualKinds(a: Type, b: Type): bool {
    match a
    case TypeVar(x) => b == TypeVar(x)
    case Any => b.Any?
    case Atomic(k) => b == Atomic(k)
    case Union(n, _) => b.Union? && b.unionName == n
    case Comp(h, xs) =>
      b.Comp? &&
      if h.Struct? && b.head.Struct? && (h.name != "" || b.head.name != "") then h.name == b.head.name
      else SameKind(h, b.head) && |xs| == |b.args| && forall i | 0 <= i < |xs| :: EqualKinds(xs[i], b.args[i])
  }

  // int <: int64 <: bigint <: bigrat, and float <: bigrat.
  predicate Widens(a: Atom, b: Atom) {
    match a
    case Int => b in {Int64, BigInt, BigRat}
    case Int64 => b in {BigInt, BigRat}
    case BigInt => b == BigRat
    case Float => b == BigRat
    case _ => false
  }

  function Subtype(s: Type, t: Type): bool
    decreases Size(s) + Size(t), 1
  {
    EqualKinds(s, t) || t.Any? ||
    match s
    case Atomic(a) => t.Atomic? && Widens(a, t.atom)
    case Union(n, _) => t.Union? && n != "" && n == t.unionName
    case Comp(h, xs) =>
      if h.Struct? then
        (t.Comp? && t.head.Struct? && h.name != "" && h.name == t.head.name) || (t.Union? && h.name in t.variants)
      else t.Comp? && SameKind(h, t.head) && |xs| == |t.args| && ArgsFit(h, xs, t.args)
    case _ => false
  }

  function ArgsFit(h: Head, xs: seq<Type>, ys: seq<Type>): bool
    requires |xs| == |ys|
    decreases SizeAll(xs) + SizeAll(ys), 3
  {
    SizeEach(xs);
    SizeEach(ys);
    forall i | 0 <= i < |xs| :: Fits(VarianceOf(h, i, |xs|), xs[i], ys[i])
  }

  function Fits(v: Variance, x: Type, y: Type): bool
    decreases Size(x) + Size(y), 2
  {
    match v
    case Co => Subtype(x, y)
    case Contra => Subtype(y, x)
    case Inv => EqualKinds(x, y)
  }

  lemma SizeEach(ts: seq<Type>)
    ensures forall i | 0 <= i < |ts| :: Size(ts[i]) <= SizeAll(ts)
  {
    forall i | 0 <= i < |ts| ensures Size(ts[i]) <= SizeAll(ts) {
      SizeAllContains(ts, i);
    }
  }

  // ---- Structural equality ----

  // A future occurs where the comparison looks: not inside a named struct.
  predicate Exposed(t: Type) {
    t.Comp? && (t.head == Future || (!Named(t) && exists i | 0 <= i < |t.args| :: Exposed(t.args[i])))
  }

  predicate Named(t: Type) {
    t.Comp? && t.head.Struct? && t.head.name != ""
  }

  // Without an exposed future, and only then, a type is equal to itself.
  lemma {:induction false} EqualKindsReflexiveIff(t: Type)
    ensures EqualKinds(t, t) <==> !Exposed(t)
  {
    if t.Comp? && !Named(t) {
      forall i | 0 <= i < |t.args| ensures EqualKinds(t.args[i], t.args[i]) <==> !Exposed(t.args[i]) {
        EqualKindsReflexiveIff(t.args[i]);
      }
    }
  }

  lemma {:induction false} EqualKindsSymmetric(a: Type, b: Type)
    requires EqualKinds(a, b)
    ensures EqualKinds(b, a)
  {
    if a.Comp? && !Named(a) {
      forall i | 0 <= i < |a.args| ensures EqualKinds(b.args[i], a.args[i]) {
        EqualKindsSymmetric(a.args[i], b.args[i]);
      }
    }
  }

  lemma {:induction false} EqualKindsTransitive(a: Type, b: Type, c: Type)
    requires EqualKinds(a, b) && EqualKinds(b, c)
    ensures EqualKinds(a, c)
  {
    if a.Comp? && !Named(a) {
      forall i | 0 <= i < |a.args| ensures EqualKinds(a.args[i], c.args[i]) {
        EqualKindsTransitive(a.args[i], b.args[i], c.args[i]);
      }
    }
  }

  // ---- Subtyping, with its fast path folded in ----

  // What Subtype comes to between two types with arguments.
  lemma SubtypeOfComps(s: Type, t: Type)
    requires s.Comp? && t.Comp? && !s.head.Struct?
    ensures Subtype(s, t) <==> SameKind(s.head, t.head) && |s.args| == |t.args| && ArgsFit(s.head, s.args, t.args)
  {
    if EqualKinds(s, t) {
      forall i | 0 <= i < |s.args| ensures Fits(VarianceOf(s.head, i, |s.args|), s.args[i], t.args[i]) {
        EqualKindsSymmetric(s.args[i], t.args[i]);
      }
    }
  }

  // Two types with the same kind give their arguments the same variance.
  lemma SameVariance(h: Head, g: Head, i: nat, n: nat)
    requires SameKind(h, g)
    ensures VarianceOf(h, i, n) == VarianceOf(g, i, n)
  {
  }

  lemma {:induction false} SubtypeReflexiveIff(t: Type)
    ensures Subtype(t, t) <==> !Exposed(t)
  {
    EqualKindsReflexiveIff(t);
    if Exposed(t) && t.head != Future && !t.head.Struct? {
      var i :| 0 <= i < |t.args| && Exposed(t.args[i]);
      SubtypeOfComps(t, t);
      SubtypeReflexiveIff(t.args[i]);
      EqualKindsReflexiveIff(t.args[i]);
      assert !Fits(VarianceOf(t.head, i, |t.args|), t.args[i], t.args[i]);
    }
  }

  lemma {:induction false} SubtypeAntisymmetric(s: Type, t: Type)
    requires Subtype(s, t) && Subtype(t, s)
    ensures EqualKinds(s, t)
    decreases Size(s) + Size(t)
  {
    if s.Comp? && t.Comp? && !s.head.Struct? {
      SubtypeOfComps(s, t);
      SubtypeOfComps(t, s);
      SizeEach(s.args);
      SizeEach(t.args);
      forall i | 0 <= i < |s.args| ensures EqualKinds(s.args[i], t.args[i]) {
        SameVariance(s.head, t.head, i, |s.args|);
        assert Fits(VarianceOf(s.head, i, |s.args|), s.args[i], t.args[i]);
        assert Fits(VarianceOf(t.head, i, |s.args|), t.args[i], s.args[i]);
        if VarianceOf(s.head, i, |s.args|) != Inv {
          SubtypeAntisymmetric(s.args[i], t.args[i]);
        }
      }
    }
  }

  // The unions of a program: names with their variants.
  type Unions = (string, set<string>) -> bool

  // Every union of t is one of them.
  predicate Conforms(t: Type, unions: Unions) {
    match t
    case Union(n, vs) => unions(n, vs)
    case Comp(_, xs) => Named(t) || forall i | 0 <= i < |xs| :: Conforms(xs[i], unions)
    case _ => true
  }

  // No name has two variant sets.
  ghost predicate OneSetPerName(unions: Unions) {
    forall n, v, w :: unions(n, v) && unions(n, w) ==> v == w
  }

  lemma {:induction false} SubtypeTransitive(a: Type, b: Type, c: Type, unions: Unions)
    requires OneSetPerName(unions)
    requires Conforms(a, unions) && Conforms(b, unions) && Conforms(c, unions)
    requires Subtype(a, b) && Subtype(b, c)
    ensures Subtype(a, c)
    decreases Size(a) + Size(b) + Size(c)
  {
    if a.Comp? && b.Comp? && c.Comp? && !a.head.Struct? {
      SubtypeOfComps(a, b);
      SubtypeOfComps(b, c);
      SubtypeOfComps(a, c);
      SizeEach(a.args);
      SizeEach(b.args);
      SizeEach(c.args);
      forall i | 0 <= i < |a.args| ensures Fits(VarianceOf(a.head, i, |a.args|), a.args[i], c.args[i]) {
        SameVariance(a.head, b.head, i, |a.args|);
        assert Fits(VarianceOf(a.head, i, |a.args|), a.args[i], b.args[i]);
        assert Fits(VarianceOf(b.head, i, |a.args|), b.args[i], c.args[i]);
        match VarianceOf(a.head, i, |a.args|)
        case Co => SubtypeTransitive(a.args[i], b.args[i], c.args[i], unions);
        case Contra => SubtypeTransitive(c.args[i], b.args[i], a.args[i], unions);
        case Inv => EqualKindsTransitive(a.args[i], b.args[i], c.args[i]);
      }
    } else if a.Comp? && b.Comp? && c.Comp? && !Named(a) {
      EqualKindsTransitive(a, b, c);
    }
  }

  ghost predicate TransitiveAt(unions: Unions, a: Type, b: Type, c: Type) {
    Conforms(a, unions) && Conforms(b, unions) && Conforms(c, unions) && Subtype(a, b) && Subtype(b, c) ==>
      Subtype(a, c)
  }

  // Subtyping is transitive on the types over some unions exactly when no name
  // has two variant sets.
  lemma SubtypeTransitiveIff(unions: Unions)
    ensures (forall a, b, c :: TransitiveAt(unions, a, b, c)) <==> OneSetPerName(unions)
  {
    hide Subtype, Conforms;
    if OneSetPerName(unions) {
      forall a, b, c ensures TransitiveAt(unions, a, b, c) {
        if !TransitiveAt(unions, a, b, c) {
          SubtypeTransitive(a, b, c, unions);
        }
      }
    } else {
      var n, v, w :| unions(n, v) && unions(n, w) && v != w;
      var x :| (x in v) != (x in w);
      var v', w' := if x in v then v else w, if x in v then w else v;
      TwoSets(unions, n, x, v', w');
      assert !TransitiveAt(unions, Comp(Struct(x, []), []), Union(n, v'), Union(n, w'));
    }
  }

  // A struct, a union that it is a variant of, and a union of the same name that
  // it is no variant of.
  lemma TwoSets(unions: Unions, n: string, x: string, v: set<string>, w: set<string>)
    requires unions(n, v) && unions(n, w) && x in v && x !in w
    ensures var s, u, u' := Comp(Struct(x, []), []), Union(n, v), Union(n, w);
      && Conforms(s, unions) && Conforms(u, unions) && Conforms(u', unions)
      && Subtype(s, u) && Subtype(u, u') && !Subtype(s, u')
  {
  }

  // With two variant sets under one name there is no transitivity.
  lemma OneNameTwoUnions()
    ensures var s, u, u' := Comp(Struct("S", []), []), Union("U", {"S"}), Union("U", {});
      Subtype(s, u) && Subtype(u, u') && !Subtype(s, u')
  {
  }

  // ---- Assignable ----

  // Where assignableAt goes into the arguments. Sets, groups and functions are
  // left to Subtype.
  predicate Descends(h: Head) {
    h in {List, Map, OMap, Chan, Stream, Sub, Option}
  }

  function AssignableAt(src: Type, dst: Type, inElement: bool): bool
    decreases Size(src) + Size(dst)
  {
    if dst.Any? || (inElement && src.Any?) then true
    else if src.Comp? && dst.Comp? && Descends(src.head) && src.head == dst.head && |src.args| == |dst.args| then
      SizeEach(src.args);
      SizeEach(dst.args);
      forall i | 0 <= i < |src.args| :: AssignableAt(src.args[i], dst.args[i], true)
    else if dst.Comp? && dst.head == Option && |dst.args| == 1 && !(src.Comp? && src.head == Option) then
      SizeEach(dst.args);
      AssignableAt(src, dst.args[0], inElement)
    else Subtype(src, dst)
  }

  function Assignable(src: Type, dst: Type): bool {
    AssignableAt(src, dst, false)
  }

  lemma {:induction false} SubtypeIsAssignable(s: Type, t: Type, inElement: bool)
    requires Subtype(s, t)
    ensures AssignableAt(s, t, inElement)
    decreases Size(s) + Size(t)
  {
    if s.Comp? && t.Comp? && !s.head.Struct? {
      SubtypeOfComps(s, t);
      if Descends(s.head) {
        SizeEach(s.args);
        SizeEach(t.args);
        forall i | 0 <= i < |s.args| ensures AssignableAt(s.args[i], t.args[i], true) {
          assert Fits(VarianceOf(s.head, i, |s.args|), s.args[i], t.args[i]);
          SubtypeIsAssignable(s.args[i], t.args[i], true);
        }
      }
    }
  }

  // No `any` in the source, and no option, map, channel, stream or subscription
  // in the target.
  predicate NoAny(t: Type) {
    !t.Any? && (t.Comp? ==> forall i | 0 <= i < |t.args| :: NoAny(t.args[i]))
  }

  predicate NoLoose(t: Type) {
    t.Comp? ==> (Descends(t.head) ==> t.head == List) && forall i | 0 <= i < |t.args| :: NoLoose(t.args[i])
  }

  // The three allowances of Assignable are its only difference from Subtype:
  // `any` inside a collection, a value into an option, and covariance of the
  // kinds that Subtype holds invariant.
  lemma {:induction false} AssignableIsSubtype(s: Type, t: Type, inElement: bool)
    requires NoAny(s) && NoLoose(t)
    ensures AssignableAt(s, t, inElement) <==> Subtype(s, t)
    decreases Size(s) + Size(t)
  {
    if s.Comp? && t.Comp? && s.head == List && t.head == List && |s.args| == |t.args| {
      SubtypeOfComps(s, t);
      SizeEach(s.args);
      SizeEach(t.args);
      forall i | 0 <= i < |s.args|
        ensures AssignableAt(s.args[i], t.args[i], true) <==> Fits(VarianceOf(List, i, |s.args|), s.args[i], t.args[i])
      {
        AssignableIsSubtype(s.args[i], t.args[i], true);
      }
    }
  }

  // Assignable is not an order.
  lemma AssignableNotTransitive()
    ensures var ints, anys, strs := Comp(List, [Atomic(Int)]), Comp(List, [Any]), Comp(List, [Atomic(Str)]);
      Assignable(ints, anys) && Assignable(anys, strs) && !Assignable(ints, strs)
  {
    var ints, strs := Comp(List, [Atomic(Int)]), Comp(List, [Atomic(Str)]);
    assert !AssignableAt(ints.args[0], strs.args[0], true);
  }

  // ---- Where assignments compose ----

  // An `any` stands where Assignable compares elements.
  predicate AnyElement(t: Type) {
    t.Comp? && Descends(t.head) && exists i | 0 <= i < |t.args| :: t.args[i].Any? || AnyElement(t.args[i])
  }

  // Options have one element.
  predicate Formed(t: Type) {
    t.Comp? ==> (t.head == Option ==> |t.args| == 1) && forall i | 0 <= i < |t.args| :: Formed(t.args[i])
  }

  // But for `any` itself, being an element makes no difference to the source.
  lemma {:induction false} ElementOrNot(s: Type, t: Type)
    requires !s.Any?
    ensures AssignableAt(s, t, true) <==> AssignableAt(s, t, false)
    decreases Size(t)
  {
    if t.Comp? && t.head == Option && |t.args| == 1 {
      SizeEach(t.args);
      ElementOrNot(s, t.args[0]);
    }
  }

  // What `any` may be assigned to takes everything.
  lemma {:induction false} AnyFits(s: Type, t: Type, inElement: bool)
    requires Formed(s) && AssignableAt(Any, t, false)
    ensures AssignableAt(s, t, inElement)
    decreases Size(t)
  {
    if t.Comp? && t.head == Option && |t.args| == 1 {
      SizeEach(t.args);
      if s.Comp? && s.head == Option {
        AnyFits(s.args[0], t.args[0], true);
      } else {
        AnyFits(s, t.args[0], inElement);
      }
    }
  }

  lemma {:induction false} AssignmentsCompose(a: Type, b: Type, c: Type, unions: Unions, inElement: bool)
    requires OneSetPerName(unions)
    requires Conforms(a, unions) && Conforms(b, unions) && Conforms(c, unions)
    requires Formed(a) && !AnyElement(b) && (inElement ==> !b.Any?)
    requires AssignableAt(a, b, inElement) && AssignableAt(b, c, inElement)
    ensures AssignableAt(a, c, inElement)
    decreases Size(a) + Size(b) + Size(c)
  {
    SizesEach(a, b, c);
    if c.Any? || (inElement && a.Any?) {
    } else if b.Any? {
      AnyFits(a, c, inElement);
    } else if IntoElements(b, c) {
      if IntoElements(a, b) {
        forall i | 0 <= i < |a.args| ensures AssignableAt(a.args[i], c.args[i], true) {
          AssignmentsCompose(a.args[i], b.args[i], c.args[i], unions, true);
        }
      } else {
        SubtypeIntoElements(a, b);
        ElementOrNot(b.args[0], c.args[0]);
        AssignmentsCompose(a, b.args[0], c.args[0], unions, inElement);
      }
    } else if IntoOption(b, c) {
      SubtypeIntoElements(a, b);
      AssignmentsCompose(a, b, c.args[0], unions, inElement);
    } else {
      SubtypeIntoElements(b, c);
      SubtypeTransitive(a, b, c, unions);
      SubtypeIsAssignable(a, c, inElement);
    }
  }

  // The two cases in which assignableAt goes on to parts.
  predicate IntoElements(src: Type, dst: Type) {
    src.Comp? && dst.Comp? && Descends(src.head) && src.head == dst.head && |src.args| == |dst.args|
  }

  predicate IntoOption(src: Type, dst: Type) {
    dst.Comp? && dst.head == Option && |dst.args| == 1 && !(src.Comp? && src.head == Option)
  }

  // Subtypes of a list, map, .. and the types they are subtypes of have its shape.
  lemma SubtypeIntoElements(s: Type, t: Type)
    ensures Subtype(s, t) && t.Comp? && Descends(t.head) ==> IntoElements(s, t)
    ensures Subtype(s, t) && s.Comp? && Descends(s.head) ==> t.Any? || IntoElements(s, t)
  {
  }

  lemma SizesEach(a: Type, b: Type, c: Type)
    ensures a.Comp? ==> forall i | 0 <= i < |a.args| :: Size(a.args[i]) < Size(a)
    ensures b.Comp? ==> forall i | 0 <= i < |b.args| :: Size(b.args[i]) < Size(b)
    ensures c.Comp? ==> forall i | 0 <= i < |c.args| :: Size(c.args[i]) < Size(c)
  {
    if a.Comp? {
      SizeEach(a.args);
    }
    if b.Comp? {
      SizeEach(b.args);
    }
    if c.Comp? {
      SizeEach(c.args);
    }
  }

  // Types that assignments do not compose over, from the first `any` down.
  lemma {:induction false} NotOver(b: Type, unions: Unions) returns (a: Type, c: Type)
    requires AnyElement(b) && Conforms(b, unions) && Formed(b)
    ensures Conforms(a, unions) && Conforms(c, unions) && Formed(a) && Formed(c)
    ensures forall e :: AssignableAt(a, b, e) && AssignableAt(b, c, e) && !AssignableAt(a, c, e)
    decreases b
  {
    var i :| 0 <= i < |b.args| && (b.args[i].Any? || AnyElement(b.args[i]));
    var x, y := Atomic(Int), Atomic(Str);
    if !b.args[i].Any? {
      x, y := NotOver(b.args[i], unions);
    }
    a, c := OnlyAt(b, i, x), OnlyAt(b, i, y);
    OnlyAtPosition(b, i, x, y);
  }

  // A type of b's shape that is t at position i, and `any` elsewhere.
  function OnlyAt(b: Type, i: nat, t: Type): Type
    requires b.Comp?
  {
    Comp(b.head, seq(|b.args|, j requires 0 <= j < |b.args| => if j == i then t else Any))
  }

  lemma OnlyAtPosition(b: Type, i: nat, x: Type, y: Type)
    requires b.Comp? && Descends(b.head) && i < |b.args|
    ensures forall e :: AssignableAt(OnlyAt(b, i, x), b, e) <==> AssignableAt(x, b.args[i], true)
    ensures forall e :: AssignableAt(b, OnlyAt(b, i, y), e) <==> AssignableAt(b.args[i], y, true)
    ensures forall e :: AssignableAt(OnlyAt(b, i, x), OnlyAt(b, i, y), e) <==> AssignableAt(x, y, true)
  {
    var a, c := OnlyAt(b, i, x), OnlyAt(b, i, y);
    assert a.args[i] == x && c.args[i] == y;
    forall j | 0 <= j < |b.args| && j != i
      ensures AssignableAt(a.args[j], b.args[j], true) && AssignableAt(b.args[j], c.args[j], true)
      ensures AssignableAt(a.args[j], c.args[j], true)
    {
    }
  }

  // Assignments compose over a type exactly when it has no `any` among the
  // elements that Assignable compares.
  lemma AssignmentsComposeIff(b: Type, unions: Unions)
    requires OneSetPerName(unions) && Conforms(b, unions) && Formed(b)
    ensures (forall a, c | Conforms(a, unions) && Conforms(c, unions) && Formed(a) && Formed(c) ::
        Assignable(a, b) && Assignable(b, c) ==> Assignable(a, c)) <==> !AnyElement(b)
  {
    hide AssignableAt, Conforms, Formed, AnyElement, OneSetPerName;
    if AnyElement(b) {
      var a, c := NotOver(b, unions);
      assert Assignable(a, b) && Assignable(b, c) && !Assignable(a, c);
    } else {
      forall a, c | Conforms(a, unions) && Conforms(c, unions) && Formed(a) && Formed(c)
        ensures Assignable(a, b) && Assignable(b, c) ==> Assignable(a, c)
      {
        if Assignable(a, b) && Assignable(b, c) {
          AssignmentsCompose(a, b, c, unions, false);
        }
      }
    }
  }
}
