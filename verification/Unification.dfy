// Unify and unifyInto of types/subst.go.
module Unification {
  import opened Types
  import opened Substitution
  import opened UnifyRules

  // What unification promises about two types when `any`, structs and unions
  // are about: same shape, with `any` standing for every type but an unbound
  // variable, structs and unions compared by name, and function effects and type
  // parameters ignored.
  ghost predicate Consistent(a: Type, b: Type)
    decreases a
  {
    || (a.Any? && !b.TypeVar?) || (b.Any? && !a.TypeVar?)
    || (a.TypeVar? && a == b)
    || (a.Atomic? && a == b)
    || (a.Union? && b.Union? && a.unionName == b.unionName)
    || (a.Comp? && b.Comp? && Kind(a.head) == Kind(b.head) &&
        (a.head.Struct? || (|a.args| == |b.args| && forall i | 0 <= i < |a.args| :: Consistent(a.args[i], b.args[i]))))
  }

  // The checks unifyInto makes before it descends into two types with children.
  predicate SameKind(a: Type, b: Type)
    requires a.Comp? && b.Comp?
  {
    match (a.head, b.head)
    case (Func(va, _, _), Func(vb, _, _)) => va == vb && |a.args| == |b.args|
    case (Struct(n, _), Struct(m, _)) => n == m
    case (g, h) => g == h && |a.args| == |b.args|
  }

  // sameAtomic, which has no case for the opaque `value` type.
  predicate SameAtomic(a: Type, b: Type) {
    a.Atomic? && a == b && a.atom != Value
  }

  // Which parts a type is required to be without.
  datatype Care = Care(
    noValue: bool,   // the `value` type, which sameAtomic forgets
    rigid: bool,     // whatever Consistent treats loosely
    searched: bool)  // the kinds that occurs does not look into

  predicate Clean(care: Care, t: Type)
    decreases t
  {
    match t
    case TypeVar(_) => true
    case Any => !care.rigid
    case Atomic(k) => care.noValue ==> k != Value
    case Union(_, _) => !care.rigid
    case Comp(h, args) =>
      && (care.rigid ==> !h.Struct? && (h.Func? ==> h.effects == 0 && h.typeParams == []))
      && (care.searched ==> !Unsearched(h))
      && forall i | 0 <= i < |args| :: Clean(care, args[i])
  }

  // Unification of t with itself reaches a `value`: it does not look into structs.
  predicate MeetsValue(t: Type)
    decreases t
  {
    t == Atomic(Value) || (t.Comp? && !t.head.Struct? && exists i | 0 <= i < |t.args| :: MeetsValue(t.args[i]))
  }

  lemma {:induction false} ConsistentReflexive(t: Type)
    ensures Consistent(t, t)
    decreases t
  {
    if t.Comp? {
      forall i | 0 <= i < |t.args| ensures Consistent(t.args[i], t.args[i]) {
        ConsistentReflexive(t.args[i]);
      }
    }
  }

  lemma {:induction false} ConsistentSymmetric(a: Type, b: Type)
    requires Consistent(a, b)
    ensures Consistent(b, a)
    decreases a
  {
    if a.Comp? && b.Comp? && !a.head.Struct? {
      forall i | 0 <= i < |a.args| ensures Consistent(b.args[i], a.args[i]) {
        ConsistentSymmetric(a.args[i], b.args[i]);
      }
    }
  }

  // On types without any, structs, unions, effects and type parameters,
  // consistency is equality.
  lemma {:induction false} ConsistentRigidIsEqual(care: Care, a: Type, b: Type)
    requires Consistent(a, b) && care.rigid && Clean(care, a) && Clean(care, b)
    ensures a == b
    decreases a
  {
    if a.Comp? {
      forall i | 0 <= i < |a.args| ensures a.args[i] == b.args[i] {
        ConsistentRigidIsEqual(care, a.args[i], b.args[i]);
      }
      assert a.args == b.args;
    }
  }

  // Consistency survives Apply.
  lemma {:induction false} ApplyKeepsConsistent(sub: Subst, a: Type, b: Type)
    requires Acyclic(sub) && Consistent(a, b)
    ensures Consistent(Apply(sub, a), Apply(sub, b))
    decreases a
  {
    if a.TypeVar? && a == b {
      ConsistentReflexive(Apply(sub, a));
    } else if a.Comp? && b.Comp? && !a.head.Struct? {
      var ra, rb := Apply(sub, a).args, Apply(sub, b).args;
      forall i | 0 <= i < |a.args| ensures Consistent(ra[i], rb[i]) {
        ApplyKeepsConsistent(sub, a.args[i], b.args[i]);
      }
    }
  }

  ghost predicate Extends(ext: Subst, sub: Subst) {
    forall x <- sub :: x in ext && ext[x] == sub[x]
  }

  // Two types that are consistent under sub stay so under every acyclic
  // extension of sub.
  lemma ConsistentSurvivesExtension(sub: Subst, ext: Subst, a: Type, b: Type)
    requires Acyclic(sub) && Acyclic(ext) && Extends(ext, sub)
    requires Consistent(Apply(sub, a), Apply(sub, b))
    ensures Consistent(Apply(ext, a), Apply(ext, b))
  {
    ApplyKeepsConsistent(ext, Apply(sub, a), Apply(sub, b));
    ExtensionAbsorbsApply(sub, ext, a);
    ExtensionAbsorbsApply(sub, ext, b);
  }

  lemma {:induction false} ApplyKeepsClean(care: Care, sub: Subst, t: Type)
    requires Acyclic(sub) && Clean(care, t) && forall x <- sub :: Clean(care, sub[x])
    ensures Clean(care, Apply(sub, t))
    decreases Height(Rank(sub), t), t
  {
    match t
    case TypeVar(x) =>
      if x in sub {
        ApplyKeepsClean(care, sub, sub[x]);
      }
    case Comp(h, args) =>
      forall i | 0 <= i < |args| ensures Clean(care, Apply(sub, t).args[i]) {
        HeightAllContains(Rank(sub), args, i);
        ApplyKeepsClean(care, sub, args[i]);
      }
    case _ =>
  }

  // All variables of sub, bound or in an image, belong to scope.
  ghost predicate Within(sub: Subst, scope: set<string>) {
    sub.Keys <= scope && forall x <- sub :: Vars(sub[x]) <= scope
  }

  lemma {:induction false} ApplyWithin(sub: Subst, scope: set<string>, t: Type)
    requires Acyclic(sub) && Within(sub, scope) && Vars(t) <= scope
    ensures Vars(Apply(sub, t)) <= scope
    decreases Height(Rank(sub), t), t
  {
    match t
    case TypeVar(x) =>
      if x in sub {
        ApplyWithin(sub, scope, sub[x]);
      }
    case Comp(h, args) =>
      forall x | x in Vars(Apply(sub, t)) ensures x in scope {
        var i := VarsAllFind(Apply(sub, t).args, x);
        VarsAllContains(args, i);
        HeightAllContains(Rank(sub), args, i);
        ApplyWithin(sub, scope, args[i]);
      }
    case _ =>
  }

  // s makes a and b agree: the same type, but that `any` agrees with every part
  // that is no variable, and structs and unions of one name agree.
  ghost predicate Agrees(s: Subst, a: Type, b: Type)
    decreases a
  {
    || Inst(s, a) == Inst(s, b)
    || (a.Any? && !b.TypeVar?) || (b.Any? && !a.TypeVar?)
    || (a.Union? && b.Union? && a.unionName == b.unionName)
    || (a.Comp? && b.Comp? && Kind(a.head) == Kind(b.head) &&
        (a.head.Struct? || (|a.args| == |b.args| && forall i | 0 <= i < |a.args| :: Agrees(s, a.args[i], b.args[i]))))
  }

  lemma {:induction false} AgreesSymmetric(s: Subst, a: Type, b: Type)
    requires Agrees(s, a, b)
    ensures Agrees(s, b, a)
    decreases a
  {
    if a.Comp? && b.Comp? && Inst(s, a) != Inst(s, b) && !a.head.Struct? {
      forall i | 0 <= i < |a.args| ensures Agrees(s, b.args[i], a.args[i]) {
        AgreesSymmetric(s, a.args[i], b.args[i]);
      }
    }
  }

  // A solution of the bindings makes the applied types agree too.
  lemma {:induction false} AgreesApplied(s: Subst, sub: Subst, a: Type, b: Type)
    requires Acyclic(sub) && Solves(s, sub) && Agrees(s, a, b)
    ensures Agrees(s, Apply(sub, a), Apply(sub, b))
    decreases a
  {
    SolutionAbsorbsApply(s, sub, a);
    SolutionAbsorbsApply(s, sub, b);
    if a.Comp? && b.Comp? && Inst(s, a) != Inst(s, b) && !a.head.Struct? {
      var ra, rb := Apply(sub, a).args, Apply(sub, b).args;
      forall i | 0 <= i < |a.args| ensures Agrees(s, ra[i], rb[i]) {
        AgreesApplied(s, sub, a.args[i], b.args[i]);
      }
    }
  }

  lemma AgreesOnParts(s: Subst, a: Type, b: Type, i: nat)
    requires Agrees(s, a, b) && a.Comp? && b.Comp? && !a.head.Struct? && i < |a.args| == |b.args|
    ensures Agrees(s, a.args[i], b.args[i])
  {
    if Inst(s, a) == Inst(s, b) {
      assert Inst(s, a).args[i] == Inst(s, b).args[i];
    }
  }

  // s solves the bindings of sub and makes a and b, with these applied, agree.
  ghost predicate Fits(s: Subst, sub: Subst, a: Type, b: Type) {
    Acyclic(sub) && Solves(s, sub) && Agrees(s, Apply(sub, a), Apply(sub, b))
  }

  ghost predicate NothingFits(sub: Subst, a: Type, b: Type) {
    forall s :: !Fits(s, sub, a, b)
  }

  // What makes the two the same type makes them agree.
  lemma UnifierFits(sub: Subst, a: Type, b: Type)
    requires Acyclic(sub)
    ensures forall s :: Unifies(s, sub, a, b) ==> Fits(s, sub, a, b)
    ensures NothingFits(sub, a, b) ==> NoUnifier(sub, a, b)
  {
    hide Agrees;
    forall s | Unifies(s, sub, a, b) ensures Fits(s, sub, a, b) {
      EqualAgrees(s, a, b);
      AgreesApplied(s, sub, a, b);
    }
  }

  lemma EqualAgrees(s: Subst, a: Type, b: Type)
    requires Inst(s, a) == Inst(s, b)
    ensures Agrees(s, a, b)
  {
  }

  // s solves the bindings of sub and makes a and b the same type.
  ghost predicate Unifies(s: Subst, sub: Subst, a: Type, b: Type) {
    Solves(s, sub) && Inst(s, a) == Inst(s, b)
  }

  ghost predicate NoUnifier(sub: Subst, a: Type, b: Type) {
    forall s :: !Unifies(s, sub, a, b)
  }

  // Whatever makes a and b agree makes them types in which `value` shows.
  ghost predicate OnlyWithValue(sub: Subst, a: Type, b: Type) {
    forall s :: Fits(s, sub, a, b) ==> MeetsValue(Inst(s, a)) && MeetsValue(Inst(s, b))
  }

  // Whatever makes a and b agree under the old bindings solves the new ones too.
  ghost predicate MostGeneral(before: Subst, after: Subst, a: Type, b: Type) {
    forall s :: Fits(s, before, a, b) ==> Solves(s, after)
  }

  ghost predicate CleanProblem(care: Care, sub: Subst, a: Type, b: Type) {
    Clean(care, a) && Clean(care, b) && forall x <- sub :: Clean(care, sub[x])
  }

  ghost predicate ConsistentUpTo(sub: Subst, a: Type, b: Type, n: nat)
    requires Acyclic(sub)
    requires a.Comp? && b.Comp? && n <= |a.args| == |b.args|
  {
    forall j | 0 <= j < n :: Consistent(Apply(sub, a.args[j]), Apply(sub, b.args[j]))
  }

  // What unifying a and b under the bindings `before` promises about its outcome
  // r and the bindings `after` that it leaves.
  ghost predicate Answer(care: Care, scope: set<string>, before: Subst, after: Subst, a: Type, b: Type, r: Outcome) {
    Grown(care, scope, before, after, a, b, r) &&
    match r
    case Ok => Consistent(Apply(after, a), Apply(after, b))
    case Mismatch => Incompatible(care, before, a, b)
    case Knot => NothingFits(before, a, b)
  }

  // What a mismatch means.
  ghost predicate Incompatible(care: Care, before: Subst, a: Type, b: Type) {
    OnlyWithValue(before, a, b) && (CleanProblem(care, before, a, b) && care.noValue ==> NothingFits(before, a, b))
  }

  // How the bindings have grown so far.
  ghost predicate Grown(care: Care, scope: set<string>, before: Subst, after: Subst, a: Type, b: Type, r: Outcome) {
    && Within(after, scope) && Extends(after, before)
    && (Acyclic(after) <==> r != Knot)
    && MostGeneral(before, after, a, b)
    && (CleanProblem(care, before, a, b) ==> CleanProblem(care, after, a, b) && (care.searched ==> r != Knot))
  }

  // What unifying two types that already apply to the same t comes to.
  ghost predicate SelfAnswer(before: Subst, after: Subst, t: Type, r: Outcome) {
    after == before && r == if MeetsValue(t) then Mismatch else Ok
  }

  // One unification in progress: the map that Bind and unifyInto write into.
  class Solver {
    var sub: Subst

    constructor (sub: Subst)
      ensures this.sub == sub
    {
      this.sub := sub;
    }

    // Subst.Bind. The map is written exactly when the occurs check passes, and
    // it turns cyclic exactly when name hides in t under a channel, stream,
    // subscription or future.
    method Bind(name: string, t: Type) returns (ok: bool)
      requires Acyclic(sub)
      modifies this
      ensures ok <==> t == TypeVar(name) || !Occurs(name, t, old(sub))
      ensures sub == if ok && t != TypeVar(name) then old(sub)[name := t] else old(sub)
      ensures Acyclic(old(sub) - {name})
      ensures var seen := Apply(old(sub) - {name}, t);
        Acyclic(sub) <==> t == TypeVar(name) || (name in Vars(seen) ==> Visible(name, seen))
    {
      AcyclicRestrict(sub, name);
      OccursSeesVisible(name, t, sub);
      BindKeepsAcyclicIff(sub, name, t);
      VisibleIsVar(name, Apply(sub - {name}, t));
      if t == TypeVar(name) {
        return true;
      }
      if Occurs(name, t, sub) {
        return false;
      }
      sub := sub[name := t];
      return true;
    }

    // unifyInto. It stops at the first binding that makes the map cyclic: what
    // the source does from there on need not end.
    method UnifyInto(a0: Type, b0: Type, ghost scope: set<string>, ghost care: Care) returns (r: Outcome)
      requires Acyclic(sub) && Within(sub, scope)
      requires Vars(a0) <= scope && Vars(b0) <= scope
      modifies this
      decreases |scope - sub.Keys|, Size(Apply(sub, a0)) + Size(Apply(sub, b0)), 3
      ensures Answer(care, scope, old(sub), sub, a0, b0, r) && Derives(old(sub), a0, b0, r, sub)
      ensures Apply(old(sub), a0) == Apply(old(sub), b0) ==>
        SelfAnswer(old(sub), sub, Apply(old(sub), a0), r)
      ensures var a, b := Apply(old(sub), a0), Apply(old(sub), b0);
        && (a.TypeVar? && a != b && r == Ok ==> sub == old(sub)[a.id := b])
        && (b.TypeVar? && !a.TypeVar? && r == Ok ==> sub == old(sub)[b.id := a])
    {
      hide Answer, Derives;
      var a, b := Apply(sub, a0), Apply(sub, b0);
      AppliedPair(care, sub, scope, a0, b0);
      if a.TypeVar? {
        r := BindVar(a.id, b, scope, care, a0, b0);
        DerivesAtOnce(old(sub), a0, b0, r, sub);
      } else if b.TypeVar? {
        r := BindVar(b.id, a, scope, care, b0, a0);
        AnswerSymmetric(care, scope, old(sub), sub, b0, a0, r);
        DerivesAtOnce(old(sub), a0, b0, r, sub);
      } else {
        r := UnifyApplied(a, b, scope, care);
        AppliedAnswer(care, scope, old(sub), sub, a0, b0, r);
        DerivesOfApplied(old(sub), a0, b0, r, sub);
      }
    }

    // The rest of unifyInto: two applied types, neither of them a variable.
    method UnifyApplied(a: Type, b: Type, ghost scope: set<string>, ghost care: Care) returns (r: Outcome)
      requires Acyclic(sub) && Within(sub, scope)
      requires Vars(a) <= scope && Vars(b) <= scope
      requires !a.TypeVar? && !b.TypeVar?
      requires Apply(sub, a) == a && Apply(sub, b) == b
      modifies this
      decreases |scope - sub.Keys|, Size(a) + Size(b), 2
      ensures Answer(care, scope, old(sub), sub, a, b, r) && Derives(old(sub), a, b, r, sub)
      ensures a == b ==> SelfAnswer(old(sub), sub, a, r)
    {
      if a.Comp? && b.Comp? && SameKind(a, b) && !a.head.Struct? {
        r := UnifyArgs(a, b, scope, care);
        return;
      }
      var same :=
        || a.Any? || b.Any?
        || (a.Comp? && b.Comp? && SameKind(a, b))
        || (a.Union? && b.Union? && a.unionName == b.unionName)
        || SameAtomic(a, b);
      r := if same then Ok else Mismatch;
      ShallowAnswer(care, scope, sub, a, b, r);
      DerivesAtOnce(sub, a, b, r, sub);
    }

    // The argument loop of unifyInto, on two applied types of the same kind.
    method UnifyArgs(a: Type, b: Type, ghost scope: set<string>, ghost care: Care) returns (r: Outcome)
      requires Acyclic(sub) && Within(sub, scope)
      requires Vars(a) <= scope && Vars(b) <= scope
      requires a.Comp? && b.Comp? && SameKind(a, b) && !a.head.Struct?
      requires Apply(sub, a) == a && Apply(sub, b) == b
      modifies this
      decreases |scope - sub.Keys|, Size(a) + Size(b), 1
      ensures Answer(care, scope, old(sub), sub, a, b, r) && Derives(old(sub), a, b, r, sub)
      ensures a == b ==> SelfAnswer(old(sub), sub, a, r)
    {
      hide *;
      var i := 0;
      r := Ok;
      ArgumentsStart(care, scope, sub, a, b);
      DerivesNone(sub, a, b);
      while r == Ok && i < |a.args|
        invariant i <= |a.args|
        invariant ArgsAnswer(care, scope, old(sub), sub, a, b, i, r) && |a.args| == |b.args|
        invariant DerivesFront(old(sub), a, b, if r == Ok then i else |a.args|, r, sub)
        decreases |a.args| - i, r == Ok
      {
        r := UnifyArg(a, b, i, scope, care, old(sub));
        if r == Ok {
          i := i + 1;
        }
      }
      AllArgumentsAnswer(care, scope, old(sub), sub, a, b, i, r);
      DerivesWhole(old(sub), a, b, r, sub);
    }

    // One round of that loop.
    method UnifyArg(a: Type, b: Type, i: nat, ghost scope: set<string>, ghost care: Care, ghost start: Subst)
      returns (r: Outcome)
      requires Acyclic(start) && Apply(start, a) == a && Apply(start, b) == b
      requires Vars(a) <= scope && Vars(b) <= scope
      requires ArgsAnswer(care, scope, start, sub, a, b, i, Ok) && i < |a.args|
      requires DerivesFront(start, a, b, i, Ok, sub)
      modifies this
      decreases |scope - start.Keys|, Size(a) + Size(b), 0
      ensures ArgsAnswer(care, scope, start, sub, a, b, if r == Ok then i + 1 else i, r)
      ensures DerivesFront(start, a, b, if r == Ok then i + 1 else |a.args|, r, sub)
    {
      ArgumentsOfPair(care, scope, start, sub, a, b, i);
      r := UnifyInto(a.args[i], b.args[i], scope, care);
      DerivesNext(start, a, b, i, old(sub), r, sub);
      ArgumentAnswer(care, scope, start, old(sub), sub, a, b, i, r);
    }

    // The variable case of unifyInto: a0 applies to the unbound variable x and
    // b0 applies to t. The variable of the first type is the one that gets bound.
    method BindVar(x: string, t: Type, ghost scope: set<string>, ghost care: Care, ghost a0: Type, ghost b0: Type)
      returns (r: Outcome)
      requires Acyclic(sub) && Within(sub, scope)
      requires Vars(a0) <= scope && Vars(b0) <= scope
      requires Apply(sub, a0) == TypeVar(x) && Apply(sub, b0) == t
      modifies this
      ensures Answer(care, scope, old(sub), sub, a0, b0, r)
      ensures sub == if r == Mismatch || t == TypeVar(x) then old(sub) else old(sub)[x := t]
      ensures t == TypeVar(x) ==> r == Ok
      ensures Binds(old(sub), x, t, r, sub)
    {
      ghost var sub0 := sub;
      VariableAnswer(sub, scope, x, t, a0, b0);
      AppliedPair(care, sub, scope, a0, b0);
      var ok := Bind(x, t);
      r := if !ok then Mismatch else if t != TypeVar(x) && Hidden(x, t) then Knot else Ok;
      VariableKeepsClean(care, sub0, sub, x, t, a0, b0);
      if r == Ok {
        ConsistentReflexive(Apply(sub, t));
        ExtensionAbsorbsApply(sub0, sub, a0);
        ExtensionAbsorbsApply(sub0, sub, b0);
      }
    }
  }

  // x appears in t, but only where the occurs check does not look.
  predicate Hidden(x: string, t: Type) {
    x in Vars(t) && !Visible(x, t)
  }

  lemma {:induction false} VisibleIsVar(x: string, t: Type)
    ensures Visible(x, t) ==> x in Vars(t)
    decreases t
  {
    if t.Comp? && Visible(x, t) {
      var i :| 0 <= i < |t.args| && Visible(x, t.args[i]);
      VisibleIsVar(x, t.args[i]);
      VarsAllContains(t.args, i);
    }
  }

  // Nothing hides in a type whose kinds are all searched.
  lemma {:induction false} SearchedSeesAll(care: Care, x: string, t: Type)
    requires Clean(care, t) && care.searched
    ensures !Hidden(x, t)
    decreases t
  {
    if t.Comp? && x in Vars(t) {
      var i := VarsAllFind(t.args, x);
      SearchedSeesAll(care, x, t.args[i]);
    }
  }

  // The variable case of unifyInto keeps a clean problem clean.
  lemma VariableKeepsClean(care: Care, before: Subst, after: Subst, x: string, t: Type, a0: Type, b0: Type)
    requires after == before || after == before[x := t]
    requires CleanProblem(care, before, a0, b0) ==> Clean(care, t)
    ensures CleanProblem(care, before, a0, b0) ==> CleanProblem(care, after, a0, b0)
    ensures CleanProblem(care, before, a0, b0) && care.searched ==> !Hidden(x, t)
  {
    if CleanProblem(care, before, a0, b0) && care.searched {
      SearchedSeesAll(care, x, t);
    }
  }

  // What holds of the two applied types on entry to unifyInto.
  lemma AppliedPair(care: Care, sub: Subst, scope: set<string>, a0: Type, b0: Type)
    requires Acyclic(sub) && Within(sub, scope)
    requires Vars(a0) <= scope && Vars(b0) <= scope
    ensures var a, b := Apply(sub, a0), Apply(sub, b0);
      && Vars(a) <= scope && Vars(b) <= scope
      && Apply(sub, a) == a && Apply(sub, b) == b
      && (forall s :: Fits(s, sub, a0, b0) <==> Fits(s, sub, a, b))
      && (forall s :: Fits(s, sub, a0, b0) ==> Inst(s, a0) == Inst(s, a) && Inst(s, b0) == Inst(s, b))
      && (CleanProblem(care, sub, a0, b0) ==> CleanProblem(care, sub, a, b))
  {
    ApplyWithin(sub, scope, a0);
    ApplyWithin(sub, scope, b0);
    ApplyIdempotent(sub, a0);
    ApplyIdempotent(sub, b0);
    forall s | Fits(s, sub, a0, b0)
      ensures Inst(s, a0) == Inst(s, Apply(sub, a0)) && Inst(s, b0) == Inst(s, Apply(sub, b0))
    {
      if Solves(s, sub) {
        SolutionAbsorbsApply(s, sub, a0);
        SolutionAbsorbsApply(s, sub, b0);
      }
    }
    if CleanProblem(care, sub, a0, b0) {
      ApplyKeepsClean(care, sub, a0);
      ApplyKeepsClean(care, sub, b0);
    }
  }

  lemma FitSymmetric(before: Subst, after: Subst, a: Type, b: Type)
    ensures NothingFits(before, a, b) ==> NothingFits(before, b, a)
    ensures OnlyWithValue(before, a, b) ==> OnlyWithValue(before, b, a)
    ensures MostGeneral(before, after, a, b) ==> MostGeneral(before, after, b, a)
  {
    hide Fits, Inst, MeetsValue, Solves;
    forall s ensures Fits(s, before, b, a) <==> Fits(s, before, a, b) {
      OneFitSymmetric(s, before, a, b);
    }
  }

  lemma OneFitSymmetric(s: Subst, sub: Subst, a: Type, b: Type)
    ensures Fits(s, sub, b, a) <==> Fits(s, sub, a, b)
  {
    hide Agrees, Solves;
    if Fits(s, sub, a, b) {
      AgreesSymmetric(s, Apply(sub, a), Apply(sub, b));
    }
    if Fits(s, sub, b, a) {
      AgreesSymmetric(s, Apply(sub, b), Apply(sub, a));
    }
  }

  lemma AnswerSymmetric(care: Care, scope: set<string>, before: Subst, after: Subst, a: Type, b: Type, r: Outcome)
    requires Answer(care, scope, before, after, a, b, r)
    ensures Answer(care, scope, before, after, b, a, r)
  {
    hide MostGeneral, NothingFits, OnlyWithValue, Within, Extends, Consistent;
    FitSymmetric(before, after, a, b);
    if r == Ok {
      ConsistentSymmetric(Apply(after, a), Apply(after, b));
    }
  }

  // The answer for the applied types is an answer for the types themselves.
  lemma AppliedAnswer(care: Care, scope: set<string>, before: Subst, after: Subst, a0: Type, b0: Type, r: Outcome)
    requires Acyclic(before) && Within(before, scope) && Vars(a0) <= scope && Vars(b0) <= scope
    requires Answer(care, scope, before, after, Apply(before, a0), Apply(before, b0), r)
    ensures Answer(care, scope, before, after, a0, b0, r)
  {
    AppliedPair(care, before, scope, a0, b0);
    if r == Ok {
      ExtensionAbsorbsApply(before, after, a0);
      ExtensionAbsorbsApply(before, after, b0);
    }
  }

  // Nothing makes two applied types agree that unifyInto rejects on sight.
  lemma ClashFitsNothing(care: Care, sub: Subst, a: Type, b: Type)
    requires Acyclic(sub) && Apply(sub, a) == a && Apply(sub, b) == b
    requires !a.TypeVar? && !b.TypeVar? && !a.Any? && !b.Any?
    requires !(a.Comp? && b.Comp? && SameKind(a, b))
    requires !(a.Union? && b.Union? && a.unionName == b.unionName)
    requires !SameAtomic(a, b)
    ensures Incompatible(care, sub, a, b)
  {
    forall s ensures Agrees(s, a, b) ==> a == b == Atomic(Value) {
      assert a.Comp? ==> |Inst(s, a).args| == |a.args|;
      assert b.Comp? ==> |Inst(s, b).args| == |b.args|;
    }
  }

  // The answer where unifyInto does not descend.
  lemma ShallowAnswer(care: Care, scope: set<string>, sub: Subst, a: Type, b: Type, r: Outcome)
    requires Acyclic(sub) && Within(sub, scope)
    requires !a.TypeVar? && !b.TypeVar? && Apply(sub, a) == a && Apply(sub, b) == b
    requires a.Comp? && b.Comp? && SameKind(a, b) ==> a.head.Struct?
    requires r ==
      if || a.Any? || b.Any? || (a.Comp? && b.Comp? && SameKind(a, b))
         || (a.Union? && b.Union? && a.unionName == b.unionName) || SameAtomic(a, b)
      then Ok else Mismatch
    ensures Answer(care, scope, sub, sub, a, b, r)
    ensures a == b ==> SelfAnswer(sub, sub, a, r)
  {
    if r == Mismatch {
      ClashFitsNothing(care, sub, a, b);
    }
  }

  // What the loop over the arguments has come to after i of them.
  ghost predicate ArgsEnd(care: Care, before: Subst, after: Subst, a: Type, b: Type, i: nat, r: Outcome)
    requires a.Comp? && b.Comp? && i <= |a.args| == |b.args| && (r != Knot ==> Acyclic(after))
  {
    match r
    case Ok => ConsistentUpTo(after, a, b, i)
    case Mismatch => Incompatible(care, before, a, b)
    case Knot => NothingFits(before, a, b)
  }

  ghost predicate ArgsSame(before: Subst, after: Subst, a: Type, b: Type, i: nat, r: Outcome)
    requires a.Comp? && i <= |a.args| && (r != Ok ==> i < |a.args|)
  {
    a == b ==>
      && after == before
      && (r == Ok ==> forall j | 0 <= j < i :: !MeetsValue(a.args[j]))
      && (r != Ok ==> r == Mismatch && MeetsValue(a.args[i]))
  }

  // The answer for the first i arguments; if it is not Ok, argument i ended the loop.
  ghost predicate ArgsAnswer(care: Care, scope: set<string>, before: Subst, after: Subst,
                             a: Type, b: Type, i: nat, r: Outcome)
  {
    && a.Comp? && b.Comp? && !a.head.Struct? && Kind(a.head) == Kind(b.head)
    && i <= |a.args| == |b.args| && (r != Ok ==> i < |a.args|)
    && Grown(care, scope, before, after, a, b, r)
    && ArgsSame(before, after, a, b, i, r) && ArgsEnd(care, before, after, a, b, i, r)
  }

  lemma ArgumentsStart(care: Care, scope: set<string>, sub: Subst, a: Type, b: Type)
    requires a.Comp? && b.Comp? && SameKind(a, b) && !a.head.Struct?
    requires Acyclic(sub) && Within(sub, scope)
    ensures ArgsAnswer(care, scope, sub, sub, a, b, 0, Ok)
    ensures |a.args| == |b.args| && SameParts(a, b)
  {
  }

  // The i-th arguments stay in scope and are smaller than the whole pair.
  lemma ArgumentsOfPair(care: Care, scope: set<string>, start: Subst, before: Subst, a: Type, b: Type, i: nat)
    requires Acyclic(start) && Apply(start, a) == a && Apply(start, b) == b
    requires Vars(a) <= scope && Vars(b) <= scope
    requires ArgsAnswer(care, scope, start, before, a, b, i, Ok) && i < |a.args|
    ensures Vars(a.args[i]) <= scope && Vars(b.args[i]) <= scope
    ensures before == start || |scope - before.Keys| < |scope - start.Keys|
    ensures before == start ==> Size(Apply(before, a.args[i])) + Size(Apply(before, b.args[i])) < Size(a) + Size(b)
    ensures before == start ==> Apply(before, a.args[i]) == a.args[i] && Apply(before, b.args[i]) == b.args[i]
  {
    VarsAllContains(a.args, i);
    VarsAllContains(b.args, i);
    SizeAllContains(a.args, i);
    SizeAllContains(b.args, i);
    assert Apply(start, a).args[i] == a.args[i];
    assert Apply(start, b).args[i] == b.args[i];
    ScopeShrinks(scope, start, before);
  }

  // What one argument adds to the answer for the arguments before it.
  lemma ArgumentAnswer(care: Care, scope: set<string>, start: Subst, before: Subst, after: Subst,
                       a: Type, b: Type, i: nat, r: Outcome)
    requires Acyclic(start) && Apply(start, a) == a && Apply(start, b) == b
    requires ArgsAnswer(care, scope, start, before, a, b, i, Ok) && i < |a.args|
    requires Answer(care, scope, before, after, a.args[i], b.args[i], r)
    requires before == start && a == b ==> SelfAnswer(before, after, a.args[i], r)
    ensures ArgsAnswer(care, scope, start, after, a, b, if r == Ok then i + 1 else i, r)
    ensures r == Ok ==> Acyclic(after) && Within(after, scope)
  {
    hide *;
    ArgsAnswerParts(care, scope, start, before, a, b, i);
    PartsFit(start, before, a, b, i);
    ArgumentGrown(care, scope, start, before, after, a, b, i, r);
    ArgumentEnds(care, scope, start, before, after, a, b, i, r);
    ArgumentSame(care, scope, start, before, after, a, b, i, r);
    ArgsAnswerWhole(care, scope, start, after, a, b, if r == Ok then i + 1 else i, r);
  }

  lemma ArgsAnswerParts(care: Care, scope: set<string>, start: Subst, before: Subst, a: Type, b: Type, i: nat)
    requires ArgsAnswer(care, scope, start, before, a, b, i, Ok) && i < |a.args|
    ensures a.Comp? && b.Comp? && !a.head.Struct? && !b.head.Struct?
    ensures Kind(a.head) == Kind(b.head) && |a.args| == |b.args|
    ensures Grown(care, scope, start, before, a, b, Ok) && Acyclic(before) && MostGeneral(start, before, a, b)
    ensures ArgsSame(start, before, a, b, i, Ok) && ConsistentUpTo(before, a, b, i)
  {
    hide ArgsSame, MostGeneral, ConsistentUpTo, CleanProblem, Extends, Within;
  }

  lemma ArgsAnswerWhole(care: Care, scope: set<string>, start: Subst, after: Subst,
                        a: Type, b: Type, i: nat, r: Outcome)
    requires a.Comp? && b.Comp? && !a.head.Struct? && Kind(a.head) == Kind(b.head)
    requires i <= |a.args| == |b.args| && (r != Ok ==> i < |a.args|)
    requires Grown(care, scope, start, after, a, b, r) && (r != Knot ==> Acyclic(after))
    requires ArgsSame(start, after, a, b, i, r) && ArgsEnd(care, start, after, a, b, i, r)
    ensures ArgsAnswer(care, scope, start, after, a, b, i, r)
    ensures r == Ok ==> Acyclic(after) && Within(after, scope)
  {
    hide ArgsSame, ArgsEnd, MostGeneral, CleanProblem, Extends, Within;
  }

  // What makes the whole types agree makes their i-th arguments agree.
  lemma PartsFit(start: Subst, before: Subst, a: Type, b: Type, i: nat)
    requires a.Comp? && b.Comp? && !a.head.Struct? && i < |a.args| == |b.args|
    requires Acyclic(start) && Apply(start, a) == a && Apply(start, b) == b && Acyclic(before)
    requires MostGeneral(start, before, a, b)
    ensures forall s :: Fits(s, start, a, b) ==> Fits(s, before, a.args[i], b.args[i])
  {
    hide Fits, Solves;
    forall s | Fits(s, start, a, b) ensures Fits(s, before, a.args[i], b.args[i]) {
      ArgumentFits(s, start, before, a, b, i);
    }
  }

  lemma ArgumentGrown(care: Care, scope: set<string>, start: Subst, before: Subst, after: Subst,
                      a: Type, b: Type, i: nat, r: Outcome)
    requires a.Comp? && b.Comp? && i < |a.args| == |b.args|
    requires Grown(care, scope, start, before, a, b, Ok)
    requires Answer(care, scope, before, after, a.args[i], b.args[i], r)
    requires forall s :: Fits(s, start, a, b) ==> Fits(s, before, a.args[i], b.args[i])
    ensures Grown(care, scope, start, after, a, b, r) && (r != Knot ==> Acyclic(after))
  {
    hide Fits, Solves, Within, Consistent, Acyclic, Incompatible, NothingFits, Clean;
    CleanParts(care, before, a, b, i);
  }

  lemma ArgumentEnds(care: Care, scope: set<string>, start: Subst, before: Subst, after: Subst,
                     a: Type, b: Type, i: nat, r: Outcome)
    requires a.Comp? && b.Comp? && !a.head.Struct? && !b.head.Struct? && i < |a.args| == |b.args|
    requires Grown(care, scope, start, before, a, b, Ok) && Acyclic(before) && ConsistentUpTo(before, a, b, i)
    requires Answer(care, scope, before, after, a.args[i], b.args[i], r) && (r != Knot ==> Acyclic(after))
    requires forall s :: Fits(s, start, a, b) ==> Fits(s, before, a.args[i], b.args[i])
    ensures ArgsEnd(care, start, after, a, b, if r == Ok then i + 1 else i, r)
  {
    hide Fits, MostGeneral, Within, Consistent, Acyclic, Clean, MeetsValue;
    match r
    case Ok =>
      forall j | 0 <= j < i ensures Consistent(Apply(after, a.args[j]), Apply(after, b.args[j])) {
        ConsistentSurvivesExtension(before, after, a.args[j], b.args[j]);
      }
    case Mismatch =>
      forall s | Fits(s, start, a, b) ensures MeetsValue(Inst(s, a)) && MeetsValue(Inst(s, b)) {
        ShownInside(s, a, i);
        ShownInside(s, b, i);
      }
      CleanParts(care, before, a, b, i);
    case Knot =>
  }

  lemma CleanParts(care: Care, sub: Subst, a: Type, b: Type, i: nat)
    requires a.Comp? && b.Comp? && i < |a.args| == |b.args|
    ensures CleanProblem(care, sub, a, b) ==> CleanProblem(care, sub, a.args[i], b.args[i])
  {
  }

  lemma ArgumentSame(care: Care, scope: set<string>, start: Subst, before: Subst, after: Subst,
                     a: Type, b: Type, i: nat, r: Outcome)
    requires a.Comp? && i < |a.args| && ArgsSame(start, before, a, b, i, Ok)
    requires before == start && a == b ==> SelfAnswer(before, after, a.args[i], r)
    ensures ArgsSame(start, after, a, b, if r == Ok then i + 1 else i, r)
  {
    hide MeetsValue;
  }

  lemma ArgumentFits(s: Subst, start: Subst, before: Subst, a: Type, b: Type, i: nat)
    requires a.Comp? && b.Comp? && !a.head.Struct? && i < |a.args| == |b.args|
    requires Acyclic(start) && Acyclic(before) && Apply(start, a) == a && Apply(start, b) == b
    requires Fits(s, start, a, b) && Solves(s, before)
    ensures Fits(s, before, a.args[i], b.args[i])
  {
    AgreesOnParts(s, a, b, i);
    AgreesApplied(s, before, a.args[i], b.args[i]);
  }

  lemma ShownInside(s: Subst, t: Type, i: nat)
    requires t.Comp? && !t.head.Struct? && i < |t.args|
    ensures MeetsValue(Inst(s, t.args[i])) ==> MeetsValue(Inst(s, t))
  {
    assert Inst(s, t).args[i] == Inst(s, t.args[i]);
  }

  lemma AllArgumentsAnswer(care: Care, scope: set<string>, before: Subst, after: Subst,
                           a: Type, b: Type, i: nat, r: Outcome)
    requires ArgsAnswer(care, scope, before, after, a, b, i, r) && (r == Ok ==> i == |a.args|)
    requires SameKind(a, b) && !a.head.Struct?
    ensures Answer(care, scope, before, after, a, b, r)
    ensures a == b ==> SelfAnswer(before, after, a, r)
  {
  }

  // The variable case: the occurs check sees the applied type, and a variable
  // that occurs in it at all, seen or hidden, rules out every unifier.
  lemma VariableAnswer(sub: Subst, scope: set<string>, x: string, t: Type, a0: Type, b0: Type)
    requires Acyclic(sub) && Within(sub, scope)
    requires Vars(a0) <= scope && Vars(b0) <= scope
    requires Apply(sub, a0) == TypeVar(x) && Apply(sub, b0) == t
    ensures x !in sub && x in scope && Vars(t) <= scope
    ensures sub - {x} == sub && Apply(sub, t) == t
    ensures Occurs(x, t, sub) <==> Visible(x, t)
    ensures Visible(x, t) ==> x in Vars(t)
    ensures t != TypeVar(x) && x in Vars(t) ==> NothingFits(sub, a0, b0)
    ensures MostGeneral(sub, sub[x := t], a0, b0)
  {
    ApplyUnbound(sub, a0);
    ApplyWithin(sub, scope, a0);
    ApplyWithin(sub, scope, b0);
    ApplyIdempotent(sub, b0);
    assert sub - {x} == sub;
    OccursSeesVisible(x, t, sub);
    VisibleIsVar(x, t);
    hide Fits, Inst, Apply, Acyclic, Within, Occurs, Visible;
    forall s | Fits(s, sub, a0, b0)
      ensures (x in Vars(t) ==> t == TypeVar(x)) && Solves(s, sub[x := t])
    {
      VariableFits(s, sub, x, t, a0, b0);
    }
  }

  lemma VariableFits(s: Subst, sub: Subst, x: string, t: Type, a0: Type, b0: Type)
    requires Acyclic(sub) && Apply(sub, a0) == TypeVar(x) && Apply(sub, b0) == t && Fits(s, sub, a0, b0)
    ensures (x in Vars(t) ==> t == TypeVar(x)) && Solves(s, sub[x := t])
  {
    hide Acyclic, Apply;
    assert Inst(s, TypeVar(x)) == Inst(s, t);
    if x in Vars(t) {
      OccurrenceIsSmaller(s, x, t);
    }
  }

  // Writing into the map uses up variables of the scope.
  ghost predicate Progress(scope: set<string>, before: Subst, after: Subst) {
    after == before || |scope - after.Keys| < |scope - before.Keys|
  }

  lemma ScopeShrinks(scope: set<string>, before: Subst, after: Subst)
    requires Extends(after, before) && after.Keys <= scope
    ensures Progress(scope, before, after)
  {
    if after.Keys <= before.Keys {
      assert after == before;
    } else {
      CardinalityMonotone(scope - after.Keys, scope - before.Keys);
    }
  }

  lemma CardinalityMonotone<T>(a: set<T>, b: set<T>)
    requires a < b
    ensures |a| < |b|
  {
    assert b == a + (b - a);
    assert b - a != {};
  }

  // ---- Unify ----

  // The substitution with every chain of bindings collapsed.
  ghost function Flatten(sub: Subst): Subst
    requires Acyclic(sub)
  {
    map x | x in sub :: Apply(sub, TypeVar(x))
  }

  lemma {:induction false} FlattenIsApply(sub: Subst, t: Type)
    requires Acyclic(sub)
    ensures Inst(Flatten(sub), t) == Apply(sub, t)
    decreases t
  {
    match t
    case Comp(h, args) =>
      forall i | 0 <= i < |args| ensures Inst(Flatten(sub), args[i]) == Apply(sub, args[i]) {
        FlattenIsApply(sub, args[i]);
      }
      assert Inst(Flatten(sub), t).args == Apply(sub, t).args;
    case _ =>
  }

  // A substitution that makes a and b apply to the same type is, collapsed, a
  // unifier of a and b.
  lemma FlattenUnifies(sub: Subst, ext: Subst, a: Type, b: Type)
    requires Acyclic(ext) && Extends(ext, sub) && Apply(ext, a) == Apply(ext, b)
    ensures Unifies(Flatten(ext), sub, a, b)
  {
    FlattenIsApply(ext, a);
    FlattenIsApply(ext, b);
    forall x | x in sub ensures Inst(Flatten(ext), TypeVar(x)) == Inst(Flatten(ext), sub[x]) {
      FlattenIsApply(ext, sub[x]);
    }
  }

  const NO_VALUE := Care(true, false, false)
  const RIGID := Care(false, true, false)
  const SEARCHED := Care(false, false, true)

  lemma {:induction false} CleanJoin(care: Care, t: Type)
    requires care.noValue ==> Clean(NO_VALUE, t)
    requires care.rigid ==> Clean(RIGID, t)
    requires care.searched ==> Clean(SEARCHED, t)
    ensures Clean(care, t)
    decreases t
  {
    if t.Comp? {
      forall i | 0 <= i < |t.args| ensures Clean(care, t.args[i]) {
        CleanJoin(care, t.args[i]);
      }
    }
  }

  ghost function CareOf(sub: Subst, a: Type, b: Type): (care: Care)
    ensures CleanProblem(care, sub, a, b)
    ensures care.noValue == CleanProblem(NO_VALUE, sub, a, b)
    ensures care.rigid == CleanProblem(RIGID, sub, a, b)
    ensures care.searched == CleanProblem(SEARCHED, sub, a, b)
  {
    var care := Care(
      CleanProblem(NO_VALUE, sub, a, b), CleanProblem(RIGID, sub, a, b), CleanProblem(SEARCHED, sub, a, b));
    CleanJoin(care, a);
    CleanJoin(care, b);
    assert forall x <- sub :: Clean(care, sub[x]) by {
      forall x | x in sub ensures Clean(care, sub[x]) {
        CleanJoin(care, sub[x]);
      }
    }
    care
  }

  datatype UnifyResult =
    | Unified(sub: Subst)
    | Rejected
    | Tangled   // the source goes on with a cyclic substitution

  // Unify: the caller's substitution is copied, not written.
  method Unify(a: Type, b: Type, sub: Subst) returns (r: UnifyResult)
    requires Acyclic(sub)
    // The rules of unifyInto, and what they come to.
    ensures r.Unified? ==> Derives(sub, a, b, Ok, r.sub)
    ensures r.Rejected? ==> exists after :: Derives(sub, a, b, Mismatch, after)
    ensures r.Tangled? ==> exists after :: Derives(sub, a, b, Knot, after)
    // Soundness: the result extends sub, binds variables of the problem only, and
    // makes the two types consistent.
    ensures r.Unified? ==> Acyclic(r.sub) && Extends(r.sub, sub) && Within(r.sub, ScopeOf(sub, a, b))
    ensures r.Unified? ==> Consistent(Apply(r.sub, a), Apply(r.sub, b))
    // Most general: whatever makes a and b agree, every unifier above all,
    // factors through the result.
    ensures r.Unified? ==> forall s, t :: Fits(s, sub, a, b) ==> Inst(s, Apply(r.sub, t)) == Inst(s, t)
    // Complete: after a failure, `value` shows in all types that a and b can be
    // made to be, and if the problem does not mention `value` there are none.
    ensures r.Rejected? ==> OnlyWithValue(sub, a, b)
    ensures CleanProblem(NO_VALUE, sub, a, b) && r.Rejected? ==> NothingFits(sub, a, b)
    // On rigid types the result itself unifies; so without `value` Unify decides
    // whether there is a unifier.
    ensures CleanProblem(RIGID, sub, a, b) && r.Unified? ==>
      Apply(r.sub, a) == Apply(r.sub, b) && Unifies(Flatten(r.sub), sub, a, b)
    ensures CleanProblem(NO_VALUE, sub, a, b) && CleanProblem(RIGID, sub, a, b) ==>
      (r.Unified? <==> !NoUnifier(sub, a, b))
    // The gap of the occurs check: never on kinds it searches, and never on
    // types that have a unifier.
    ensures r.Tangled? ==> NothingFits(sub, a, b) && !CleanProblem(SEARCHED, sub, a, b)
    // The gap of sameAtomic, exactly: a type unifies with itself unless `value`
    // shows in it.
    ensures Apply(sub, a) == Apply(sub, b) ==>
      r == if MeetsValue(Apply(sub, a)) then Rejected else Unified(sub)
    // A variable is bound to whatever stands opposite it, `any` included; of two
    // variables the first is bound, so the second survives.
    ensures var a', b' := Apply(sub, a), Apply(sub, b);
      && (a'.TypeVar? && a' != b' && r.Unified? ==> r.sub == sub[a'.id := b'])
      && (b'.TypeVar? && !a'.TypeVar? && r.Unified? ==> r.sub == sub[b'.id := a'])
  {
    hide Answer, Derives, Unifies, Fits, NoUnifier, NothingFits, OnlyWithValue, Within;
    hide CleanProblem, CareOf, Consistent, Extends, MeetsValue, Apply;
    var solver := new Solver(sub);
    ghost var scope := ScopeOf(sub, a, b);
    ghost var care := CareOf(sub, a, b);
    var outcome := solver.UnifyInto(a, b, scope, care);
    var out := solver.sub;
    OutcomeMeans(scope, sub, out, a, b, outcome);
    r := match outcome case Ok => Unified(out) case Mismatch => Rejected case Knot => Tangled;
  }

  ghost function ScopeOf(sub: Subst, a: Type, b: Type): (scope: set<string>)
    ensures Within(sub, scope) && Vars(a) <= scope && Vars(b) <= scope
  {
    sub.Keys + (set x, y | x in sub && y in Vars(sub[x]) :: y) + Vars(a) + Vars(b)
  }

  // What the outcome of unifyInto says to the caller of Unify.
  lemma OutcomeMeans(scope: set<string>, sub: Subst, out: Subst, a: Type, b: Type, outcome: Outcome)
    requires Acyclic(sub) && Answer(CareOf(sub, a, b), scope, sub, out, a, b, outcome)
    ensures outcome == Ok ==> Acyclic(out) && Extends(out, sub) && Within(out, scope)
    ensures outcome == Ok ==> Consistent(Apply(out, a), Apply(out, b))
    ensures outcome == Ok ==> forall s, t :: Fits(s, sub, a, b) ==> Inst(s, Apply(out, t)) == Inst(s, t)
    ensures outcome == Ok && CleanProblem(RIGID, sub, a, b) ==>
      Apply(out, a) == Apply(out, b) && Unifies(Flatten(out), sub, a, b)
    ensures outcome == Mismatch ==> OnlyWithValue(sub, a, b)
    ensures outcome == Mismatch && CleanProblem(NO_VALUE, sub, a, b) ==> NothingFits(sub, a, b)
    ensures outcome == Knot ==> NothingFits(sub, a, b) && !CleanProblem(SEARCHED, sub, a, b)
    ensures CleanProblem(NO_VALUE, sub, a, b) && CleanProblem(RIGID, sub, a, b) ==>
      (outcome == Ok <==> !NoUnifier(sub, a, b))
  {
    hide CleanProblem, CareOf, Consistent, OnlyWithValue, MostGeneral, Unifies, Fits, NothingFits, Within;
    var care := CareOf(sub, a, b);
    UnifierFits(sub, a, b);
    if outcome == Ok {
      ResultFactors(sub, out, a, b);
      RigidResultUnifies(care, sub, out, a, b);
    }
  }

  lemma RigidResultUnifies(care: Care, sub: Subst, out: Subst, a: Type, b: Type)
    requires Acyclic(out) && Extends(out, sub) && CleanProblem(care, out, a, b)
    requires Consistent(Apply(out, a), Apply(out, b))
    ensures care.rigid ==> Apply(out, a) == Apply(out, b) && Unifies(Flatten(out), sub, a, b)
  {
    if care.rigid {
      ApplyKeepsClean(care, out, a);
      ApplyKeepsClean(care, out, b);
      ConsistentRigidIsEqual(care, Apply(out, a), Apply(out, b));
      FlattenUnifies(sub, out, a, b);
    }
  }

  lemma ResultFactors(sub: Subst, out: Subst, a: Type, b: Type)
    requires Acyclic(out) && MostGeneral(sub, out, a, b)
    ensures forall s, t :: Fits(s, sub, a, b) ==> Inst(s, Apply(out, t)) == Inst(s, t)
  {
    hide Fits;
    forall s, t | Fits(s, sub, a, b) ensures Inst(s, Apply(out, t)) == Inst(s, t) {
      SolutionAbsorbsApply(s, out, t);
    }
  }

  // The occurs check is right about a new binding exactly when the variable
  // does not hide: it then rejects the bindings that would be cyclic, and no
  // others.
  lemma OccursCheckRightIff(name: string, t: Type, sub: Subst)
    requires Acyclic(sub) && Acyclic(sub - {name})
    ensures (Occurs(name, t, sub) <==> !Acyclic(sub[name := t])) <==> !Hidden(name, Apply(sub - {name}, t))
  {
    OccursSeesVisible(name, t, sub);
    BindKeepsAcyclicIff(sub, name, t);
    VisibleIsVar(name, Apply(sub - {name}, t));
  }

  // T bound to chan<T>: the occurs check passes, and Apply then never returns.
  lemma HiddenBindingExample()
    ensures var t := Comp(Chan, [TypeVar("T")]);
      && Acyclic(map[]) && !Occurs("T", t, map[])
      && !Acyclic(map["T" := t]) && !Terminates(map["T" := t], TypeVar("T"))
  {
    var t := Comp(Chan, [TypeVar("T")]);
    assert Ranked(map[], map[]);
    forall d: nat ensures !Ends(d, map["T" := t], TypeVar("T")) {
      NeverEnds(d);
    }
    assert !Terminates(map["T" := t], TypeVar("T"));
    ApplyTerminatesIffAcyclic(map["T" := t]);
  }

  lemma {:induction false} NeverEnds(depth: nat)
    ensures !Ends(depth, map["T" := Comp(Chan, [TypeVar("T")])], TypeVar("T"))
  {
    var sub := map["T" := Comp(Chan, [TypeVar("T")])];
    if depth >= 2 {
      NeverEnds(depth - 2);
      assert sub["T"].args[0] == TypeVar("T");
      assert !Ends(depth - 1, sub, sub["T"]);
    }
  }
}
