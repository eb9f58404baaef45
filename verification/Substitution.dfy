// The substitution algebra of types/subst.go: Apply, occurs and the effect of
// adding a binding.
//
// A substitution is a map whose images may mention other bound variables;
// Apply chases them. The chase ends exactly on acyclic substitutions, those
// that have a rank: a number per bound variable that strictly decreases from a
// variable to the bound variables of its image.
module Substitution {
  import opened Types

  type Subst = map<string, Type>

  // One more than the largest rank of a bound variable of t, or 0.
  ghost function Height(rank: map<string, nat>, t: Type): nat {
    match t
    case TypeVar(x) => if x in rank then rank[x] + 1 else 0
    case Comp(_, args) => HeightAll(rank, args)
    case _ => 0
  }

  ghost function HeightAll(rank: map<string, nat>, ts: seq<Type>): nat {
    if ts == [] then 0
    else
      var h, r := Height(rank, ts[0]), HeightAll(rank, ts[1..]);
      if h > r then h else r
  }

  ghost predicate Ranked(sub: Subst, rank: map<string, nat>) {
    rank.Keys == sub.Keys && forall x <- sub :: Height(rank, sub[x]) <= rank[x]
  }

  ghost predicate Acyclic(sub: Subst) {
    exists rank :: Ranked(sub, rank)
  }

  ghost function Rank(sub: Subst): (rank: map<string, nat>)
    requires Acyclic(sub)
    ensures Ranked(sub, rank)
  {
    var rank :| Ranked(sub, rank);
    rank
  }

  lemma HeightAllContains(rank: map<string, nat>, ts: seq<Type>, i: nat)
    requires i < |ts|
    ensures Height(rank, ts[i]) <= HeightAll(rank, ts)
  {
    if i > 0 {
      HeightAllContains(rank, ts[1..], i - 1);
    }
  }

  lemma HeightAllFind(rank: map<string, nat>, ts: seq<Type>) returns (i: nat)
    requires HeightAll(rank, ts) > 0
    ensures i < |ts| && Height(rank, ts[i]) == HeightAll(rank, ts)
  {
    if Height(rank, ts[0]) == HeightAll(rank, ts) {
      i := 0;
    } else {
      var j := HeightAllFind(rank, ts[1..]);
      i := j + 1;
    }
  }

  // Subst.Apply: walks t and replaces every bound variable by the applied image.
  function Apply(sub: Subst, t: Type): Type
    requires Acyclic(sub)
    decreases Height(Rank(sub), t), t
  {
    match t
    case TypeVar(x) => if x in sub then Apply(sub, sub[x]) else t
    case Comp(h, args) =>
      Comp(h, seq(|args|, i requires 0 <= i < |args| =>
        (HeightAllContains(Rank(sub), args, i); Apply(sub, args[i]))))
    case _ => t
  }

  // The image of t under a one-pass assignment of types to variables.
  function Inst(s: Subst, t: Type): Type
    decreases t
  {
    match t
    case TypeVar(x) => if x in s then s[x] else t
    case Comp(h, args) => Comp(h, seq(|args|, i requires 0 <= i < |args| => Inst(s, args[i])))
    case _ => t
  }

  // s makes both sides of every binding of sub the same type.
  ghost predicate Solves(s: Subst, sub: Subst) {
    forall x <- sub :: Inst(s, TypeVar(x)) == Inst(s, sub[x])
  }

  // Apply leaves no bound variable behind.
  lemma {:induction false} ApplyUnbound(sub: Subst, t: Type)
    requires Acyclic(sub)
    ensures Vars(Apply(sub, t)) !! sub.Keys
    decreases Height(Rank(sub), t), t
  {
    match t
    case TypeVar(x) =>
      if x in sub {
        ApplyUnbound(sub, sub[x]);
      }
    case Comp(h, args) =>
      var rs := Apply(sub, t).args;
      forall x | x in VarsAll(rs) ensures x !in sub {
        var i := VarsAllFind(rs, x);
        HeightAllContains(Rank(sub), args, i);
        ApplyUnbound(sub, args[i]);
      }
    case _ =>
  }

  // Apply does nothing to a type without bound variables.
  lemma {:induction false} ApplyFixed(sub: Subst, t: Type)
    requires Acyclic(sub)
    requires Vars(t) !! sub.Keys
    ensures Apply(sub, t) == t
    decreases t
  {
    match t
    case Comp(h, args) =>
      forall i | 0 <= i < |args| ensures Apply(sub, args[i]) == args[i] {
        VarsAllContains(args, i);
        ApplyFixed(sub, args[i]);
      }
      assert Apply(sub, t).args == args;
    case _ =>
  }

  lemma ApplyIdempotent(sub: Subst, t: Type)
    requires Acyclic(sub)
    ensures Apply(sub, Apply(sub, t)) == Apply(sub, t)
  {
    ApplyUnbound(sub, t);
    ApplyFixed(sub, Apply(sub, t));
  }

  // A solution of the bindings does not see the difference Apply makes.
  lemma {:induction false} SolutionAbsorbsApply(s: Subst, sub: Subst, t: Type)
    requires Acyclic(sub) && Solves(s, sub)
    ensures Inst(s, Apply(sub, t)) == Inst(s, t)
    decreases Height(Rank(sub), t), t
  {
    match t
    case TypeVar(x) =>
      if x in sub {
        SolutionAbsorbsApply(s, sub, sub[x]);
      }
    case Comp(h, args) =>
      forall i | 0 <= i < |args| ensures Inst(s, Apply(sub, args[i])) == Inst(s, args[i]) {
        HeightAllContains(Rank(sub), args, i);
        SolutionAbsorbsApply(s, sub, args[i]);
      }
      assert Inst(s, Apply(sub, t)).args == Inst(s, t).args;
    case _ =>
  }

  // A later substitution that extends sub absorbs it as well.
  lemma {:induction false} ExtensionAbsorbsApply(sub: Subst, ext: Subst, t: Type)
    requires Acyclic(sub) && Acyclic(ext)
    requires forall x <- sub :: x in ext && ext[x] == sub[x]
    ensures Apply(ext, Apply(sub, t)) == Apply(ext, t)
    decreases Height(Rank(sub), t), t
  {
    match t
    case TypeVar(x) =>
      if x in sub {
        ExtensionAbsorbsApply(sub, ext, sub[x]);
      }
    case Comp(h, args) =>
      forall i | 0 <= i < |args| ensures Apply(ext, Apply(sub, args[i])) == Apply(ext, args[i]) {
        HeightAllContains(Rank(sub), args, i);
        ExtensionAbsorbsApply(sub, ext, args[i]);
      }
      assert Apply(ext, Apply(sub, t)).args == Apply(ext, t).args;
    case _ =>
  }

  // ---- When does the chase end? ----

  // The recursion of Apply on t returns within the given depth.
  ghost predicate Ends(depth: nat, sub: Subst, t: Type) {
    depth > 0 &&
    match t
    case TypeVar(x) => x in sub ==> Ends(depth - 1, sub, sub[x])
    case Comp(_, args) => forall i | 0 <= i < |args| :: Ends(depth - 1, sub, args[i])
    case _ => true
  }

  ghost predicate Terminates(sub: Subst, t: Type) {
    exists depth :: Ends(depth, sub, t)
  }

  lemma {:induction false} EndsDeeper(depth: nat, deeper: nat, sub: Subst, t: Type)
    requires Ends(depth, sub, t) && depth <= deeper
    ensures Ends(deeper, sub, t)
    decreases depth
  {
    match t
    case TypeVar(x) =>
      if x in sub {
        EndsDeeper(depth - 1, deeper - 1, sub, sub[x]);
      }
    case Comp(_, args) =>
      forall i | 0 <= i < |args| ensures Ends(deeper - 1, sub, args[i]) {
        EndsDeeper(depth - 1, deeper - 1, sub, args[i]);
      }
    case _ =>
  }

  lemma {:induction false} AcyclicEnds(sub: Subst, t: Type) returns (depth: nat)
    requires Acyclic(sub)
    ensures Ends(depth, sub, t)
    decreases Height(Rank(sub), t), t, 0
  {
    match t
    case TypeVar(x) =>
      if x in sub {
        var d := AcyclicEnds(sub, sub[x]);
        depth := d + 1;
      } else {
        depth := 1;
      }
    case Comp(_, args) =>
      var d := AcyclicEndsAll(sub, t, |args|);
      depth := d + 1;
    case _ =>
      depth := 1;
  }

  lemma {:induction false} AcyclicEndsAll(sub: Subst, t: Type, n: nat) returns (depth: nat)
    requires Acyclic(sub) && t.Comp? && n <= |t.args|
    ensures forall i | 0 <= i < n :: Ends(depth, sub, t.args[i])
    decreases Height(Rank(sub), t), t.args, n
  {
    if n == 0 {
      depth := 0;
    } else {
      HeightAllContains(Rank(sub), t.args, n - 1);
      var d0 := AcyclicEndsAll(sub, t, n - 1);
      var d1 := AcyclicEnds(sub, t.args[n - 1]);
      depth := if d0 < d1 then d1 else d0;
      forall i | 0 <= i < n ensures Ends(depth, sub, t.args[i]) {
        EndsDeeper(if i < n - 1 then d0 else d1, depth, sub, t.args[i]);
      }
    }
  }

  // The smallest depth at which the chase of t returns.
  ghost function Depth(sub: Subst, t: Type): (depth: nat)
    requires Terminates(sub, t)
    ensures Ends(depth, sub, t)
    ensures forall d: nat :: Ends(d, sub, t) ==> depth <= d
  {
    var d :| Ends(d, sub, t);
    LeastDepth(d, sub, t)
  }

  ghost function LeastDepth(bound: nat, sub: Subst, t: Type): (depth: nat)
    requires Ends(bound, sub, t)
    ensures Ends(depth, sub, t)
    ensures forall d: nat :: Ends(d, sub, t) ==> depth <= d
  {
    if Ends(bound - 1, sub, t) then LeastDepth(bound - 1, sub, t)
    else
      assert forall d: nat :: Ends(d, sub, t) && d < bound ==> false by {
        forall d: nat | Ends(d, sub, t) && d < bound ensures false {
          EndsDeeper(d, bound - 1, sub, t);
        }
      }
      bound
  }

  // If the chase of t returns within depth, every bound variable of t has a
  // smaller depth.
  lemma {:induction false} DepthBoundsHeight(depth: nat, sub: Subst, rank: map<string, nat>, t: Type)
    requires Ends(depth, sub, t)
    requires rank.Keys == sub.Keys
    requires forall x <- sub :: Terminates(sub, TypeVar(x)) && rank[x] == Depth(sub, TypeVar(x))
    ensures Height(rank, t) <= depth + 1
    decreases t
  {
    match t
    case TypeVar(x) =>
    case Comp(_, args) =>
      if HeightAll(rank, args) > 0 {
        var i := HeightAllFind(rank, args);
        EndsDeeper(depth - 1, depth, sub, args[i]);
        DepthBoundsHeight(depth, sub, rank, args[i]);
      }
    case _ =>
  }

  // Apply returns on every type exactly when the substitution is acyclic.
  lemma ApplyTerminatesIffAcyclic(sub: Subst)
    ensures (forall t :: Terminates(sub, t)) <==> Acyclic(sub)
  {
    if forall t :: Terminates(sub, t) {
      var rank := map x | x in sub :: Depth(sub, TypeVar(x));
      forall x | x in sub ensures Height(rank, sub[x]) <= rank[x] {
        DepthBoundsHeight(rank[x] - 1, sub, rank, sub[x]);
      }
      assert Ranked(sub, rank);
    }
    if Acyclic(sub) {
      forall t ensures Terminates(sub, t) {
        var d := AcyclicEnds(sub, t);
      }
    }
  }

  // ---- The occurs check ----

  // The kinds that occurs does not look into, although Apply does.
  predicate Unsearched(h: Head) {
    h in {Chan, Stream, Sub, Future}
  }

  // occurs: does name appear in t, following the bindings of sub?
  predicate Occurs(name: string, t: Type, sub: Subst)
    requires Acyclic(sub)
    decreases Height(Rank(sub), t), t
  {
    match t
    case TypeVar(x) => x == name || (x in sub && Occurs(name, sub[x], sub))
    case Comp(h, args) =>
      !Unsearched(h) &&
      exists i | 0 <= i < |args| :: (HeightAllContains(Rank(sub), args, i); Occurs(name, args[i], sub))
    case _ => false
  }

  // x appears in t outside every channel, stream, subscription and future.
  predicate Visible(x: string, t: Type)
    decreases t
  {
    match t
    case TypeVar(y) => x == y
    case Comp(h, args) => !Unsearched(h) && exists i | 0 <= i < |args| :: Visible(x, args[i])
    case _ => false
  }

  lemma {:induction false} HeightRestrict(rank: map<string, nat>, name: string, t: Type)
    ensures Height(rank - {name}, t) <= Height(rank, t)
    decreases t
  {
    match t
    case Comp(_, args) =>
      if HeightAll(rank - {name}, args) > 0 {
        var i := HeightAllFind(rank - {name}, args);
        HeightRestrict(rank, name, args[i]);
        HeightAllContains(rank, args, i);
      }
    case _ =>
  }

  // Forgetting a binding keeps a substitution acyclic.
  lemma AcyclicRestrict(sub: Subst, name: string)
    requires Acyclic(sub)
    ensures Acyclic(sub - {name})
  {
    var rank := Rank(sub);
    forall x | x in sub - {name} ensures Height(rank - {name}, sub[x]) <= rank[x] {
      HeightRestrict(rank, name, sub[x]);
    }
    assert Ranked(sub - {name}, rank - {name});
  }

  // What the occurs check sees: the applied type, outside channels. (Looking
  // for name, it never follows a binding of name itself.)
  lemma {:induction false} OccursSeesVisible(name: string, t: Type, sub: Subst)
    requires Acyclic(sub) && Acyclic(sub - {name})
    ensures Occurs(name, t, sub) <==> Visible(name, Apply(sub - {name}, t))
    decreases Height(Rank(sub), t), t
  {
    match t
    case TypeVar(x) =>
      if x != name && x in sub {
        OccursSeesVisible(name, sub[x], sub);
      }
    case Comp(h, args) =>
      var rs := Apply(sub - {name}, t).args;
      forall i | 0 <= i < |args|
        ensures Occurs(name, args[i], sub) <==> Visible(name, rs[i])
      {
        HeightAllContains(Rank(sub), args, i);
        OccursSeesVisible(name, args[i], sub);
      }
    case _ =>
  }

  // ---- Adding one binding ----

  // Every bound variable that Apply can leave behind is ranked below t.
  lemma {:induction false} LeftoverBelow(sub: Subst, ext: Subst, rank: map<string, nat>, t: Type, y: string)
    requires Acyclic(sub) && Ranked(ext, rank)
    requires forall x <- sub :: x in ext && ext[x] == sub[x]
    requires y in Vars(Apply(sub, t)) && y in ext
    ensures rank[y] < Height(rank, t)
    decreases Height(Rank(sub), t), t
  {
    match t
    case TypeVar(x) =>
      if x in sub {
        LeftoverBelow(sub, ext, rank, sub[x], y);
      }
    case Comp(h, args) =>
      var i := VarsAllFind(Apply(sub, t).args, y);
      HeightAllContains(Rank(sub), args, i);
      LeftoverBelow(sub, ext, rank, args[i], y);
      HeightAllContains(rank, args, i);
    case _ =>
  }

  ghost predicate Reaches(sub: Subst, t: Type, name: string)
    requires Acyclic(sub)
  {
    name in Vars(Apply(sub, t))
  }

  // The rank that binding name to t needs: variables that reach name move up.
  ghost function LiftedRank(sub: Subst, name: string, t: Type): map<string, nat>
    requires Acyclic(sub)
  {
    var h := Height(Rank(sub), t);
    map x | x in sub.Keys + {name} ::
      if x !in sub then h
      else if Reaches(sub, TypeVar(x), name) then Rank(sub)[x] + h + 1
      else Rank(sub)[x]
  }

  lemma {:induction false} LiftedHeight(sub: Subst, name: string, t: Type, u: Type)
    requires Acyclic(sub) && name !in sub
    ensures var h := Height(LiftedRank(sub, name, t), u);
      if Reaches(sub, u, name) then h <= Height(Rank(sub), u) + Height(Rank(sub), t) + 1
      else h == Height(Rank(sub), u)
    decreases u
  {
    var lifted, rank := LiftedRank(sub, name, t), Rank(sub);
    match u
    case TypeVar(x) =>
    case Comp(h, args) =>
      forall i | 0 <= i < |args|
        ensures Height(lifted, args[i]) <= Height(rank, u) + Height(rank, t) + 1
        ensures !Reaches(sub, u, name) ==> Height(lifted, args[i]) == Height(rank, args[i])
      {
        LiftedHeight(sub, name, t, args[i]);
        HeightAllContains(rank, args, i);
        VarsAllContains(Apply(sub, u).args, i);
      }
      if HeightAll(lifted, args) > 0 {
        var i := HeightAllFind(lifted, args);
        HeightAllContains(rank, args, i);
      }
      if HeightAll(rank, args) > 0 {
        var i := HeightAllFind(rank, args);
        HeightAllContains(lifted, args, i);
      }
    case _ =>
  }

  // Binding name to t keeps the substitution acyclic exactly when name does not
  // appear in the applied t, channels included. The old binding of name, if
  // any, plays no part: it is overwritten.
  lemma BindKeepsAcyclicIff(sub: Subst, name: string, t: Type)
    requires Acyclic(sub) && Acyclic(sub - {name})
    ensures Acyclic(sub[name := t]) <==> name !in Vars(Apply(sub - {name}, t))
  {
    var rest, ext := sub - {name}, sub[name := t];
    if Acyclic(ext) && name in Vars(Apply(rest, t)) {
      LeftoverBelow(rest, ext, Rank(ext), t, name);
      assert false;
    }
    if name !in Vars(Apply(rest, t)) {
      var rank := LiftedRank(rest, name, t);
      forall x | x in ext ensures Height(rank, ext[x]) <= rank[x] {
        LiftedHeight(rest, name, t, ext[x]);
      }
      assert Ranked(ext, rank);
    }
  }

  // A variable that properly occurs in a type is smaller than the type under
  // every assignment, so no assignment makes the two equal.
  lemma {:induction false} OccurrenceIsSmaller(s: Subst, x: string, t: Type)
    requires x in Vars(t)
    ensures Size(Inst(s, TypeVar(x))) <= Size(Inst(s, t))
    ensures t != TypeVar(x) ==> Size(Inst(s, TypeVar(x))) < Size(Inst(s, t))
    decreases t
  {
    match t
    case TypeVar(y) =>
    case Comp(h, args) =>
      var i := VarsAllFind(args, x);
      OccurrenceIsSmaller(s, x, args[i]);
      SizeAllContains(Inst(s, t).args, i);
    case _ =>
  }
}
