// The scope chain of types/env.go, and the three operations of types/narrow.go
// that build on it.
module Environments {
  import opened Options
  import opened Types

  // One scope: the types bound in it, their mutability, and which of them are
  // flow-narrowed shadows.
  datatype Scope = Scope(types: map<string, Type>, mut: map<string, bool>, narrowed: set<string>)

  const EMPTY := Scope(map[], map[], {})

  // A chain of scopes, innermost first.
  type Chain = s: seq<Scope> | |s| > 0 witness [EMPTY]

  // ---- Lookups, on the chain as a value ----

  function Visible(s: seq<Scope>, x: string): Options.Option<Type> {
    if s == [] then None
    else if x in s[0].types then Some(s[0].types[x])
    else Visible(s[1..], x)
  }

  // The innermost binding that is not a narrowed shadow.
  function Unshadowed(s: seq<Scope>, x: string): Options.Option<Type> {
    if s == [] then None
    else if x in s[0].types && x !in s[0].narrowed then Some(s[0].types[x])
    else Unshadowed(s[1..], x)
  }

  // Without such a binding, what the outermost scope binds.
  function Declared(s: Chain, x: string): Options.Option<Type> {
    if Unshadowed(s, x).Some? then Unshadowed(s, x) else Visible(s[|s| - 1..], x)
  }

  function Mutability(s: seq<Scope>, x: string): Options.Option<bool> {
    if s == [] then None
    else if x in s[0].mut then Some(s[0].mut[x])
    else Mutability(s[1..], x)
  }

  function IsVar(s: seq<Scope>, x: string): bool {
    Mutability(s, x) == Some(true)
  }

  // Some scope of the chain holds a narrowed shadow of x.
  function Marked(s: seq<Scope>, x: string): bool {
    s != [] && (x in s[0].narrowed || Marked(s[1..], x))
  }

  function MarkedNames(s: seq<Scope>): (r: set<string>)
    ensures forall x :: x in r <==> Marked(s, x)
  {
    if s == [] then {} else s[0].narrowed + MarkedNames(s[1..])
  }

  // Every narrowed shadow has a declaration further out.
  ghost predicate Grounded(s: seq<Scope>) {
    s == [] || (Grounded(s[1..]) && forall x <- s[0].narrowed :: Unshadowed(s[1..], x).Some?)
  }

  lemma {:induction false} GroundedHasDeclaration(s: seq<Scope>, x: string)
    requires Grounded(s)
    ensures Visible(s, x).Some? ==> Unshadowed(s, x).Some?
    ensures Marked(s, x) ==> Visible(s, x).Some? && Unshadowed(s, x).Some?
  {
    if s != [] {
      GroundedHasDeclaration(s[1..], x);
      UnshadowedIsVisible(s[1..], x);
    }
  }

  lemma {:induction false} UnshadowedIsVisible(s: seq<Scope>, x: string)
    ensures Unshadowed(s, x).Some? ==> Visible(s, x).Some?
    ensures !Marked(s, x) ==> Unshadowed(s, x) == Visible(s, x)
  {
    if s != [] {
      UnshadowedIsVisible(s[1..], x);
    }
  }

  lemma {:induction false} DeclaredUnmarked(s: Chain, x: string)
    requires !Marked(s, x)
    ensures Declared(s, x) == Visible(s, x)
  {
    UnshadowedIsVisible(s, x);
    if Visible(s, x).None? {
      InvisibleEverywhere(s, x, |s| - 1);
    }
  }

  lemma {:induction false} InvisibleEverywhere(s: seq<Scope>, x: string, n: nat)
    requires n <= |s| && Visible(s, x).None?
    ensures Visible(s[n..], x).None?
  {
    if n > 0 {
      InvisibleEverywhere(s[1..], x, n - 1);
      assert s[1..][n - 1..] == s[n..];
    }
  }

  lemma DeclaredStep(s: Chain, x: string)
    requires |s| > 1
    ensures Declared(s, x) ==
      if x in s[0].types && x !in s[0].narrowed then Some(s[0].types[x]) else Declared(s[1..], x)
  {
    assert s[1..][|s| - 2..] == s[|s| - 1..];
  }

  lemma DeclaredLast(s: Chain, x: string)
    requires |s| == 1
    ensures Declared(s, x) == if x in s[0].types then Some(s[0].types[x]) else None
  {
    assert s[1..] == [] && s[|s| - 1..] == s;
    assert Unshadowed([], x).None? && Visible([], x).None?;
  }

  // Two chains that differ only in what their innermost scopes say about other
  // names answer every question about x alike.
  lemma SameAt(s: Chain, t: Chain, x: string)
    requires s[1..] == t[1..]
    requires x in s[0].types <==> x in t[0].types
    requires x in s[0].types ==> s[0].types[x] == t[0].types[x]
    requires x in s[0].mut <==> x in t[0].mut
    requires x in s[0].mut ==> s[0].mut[x] == t[0].mut[x]
    requires x in s[0].narrowed <==> x in t[0].narrowed
    ensures Visible(s, x) == Visible(t, x) && Declared(s, x) == Declared(t, x)
    ensures Mutability(s, x) == Mutability(t, x) && Marked(s, x) == Marked(t, x)
  {
    if |s| > 1 {
      DeclaredStep(s, x);
      DeclaredStep(t, x);
    } else {
      assert s[|s| - 1..] == s && t[|t| - 1..] == t;
    }
  }

  // ---- narrowedEnv ----

  // A scope that binds what m binds, each name as mutable as it is in s.
  function Over(s: seq<Scope>, m: map<string, Type>, marks: bool): Scope {
    Scope(m, map x | x in m :: IsVar(s, x), if marks then m.Keys else {})
  }

  function Narrowed(s: seq<Scope>, m: map<string, Type>): (r: seq<Scope>)
    ensures |r| >= |s|
  {
    if m == map[] then s else [Over(s, m, true)] + s
  }

  // A narrowing shows where it is made, changes nobody's mutability or declared
  // type, and is undone by the declared type.
  lemma NarrowedLookups(s: Chain, m: map<string, Type>, x: string)
    ensures Visible(Narrowed(s, m), x) == if x in m then Some(m[x]) else Visible(s, x)
    ensures IsVar(Narrowed(s, m), x) == IsVar(s, x)
    ensures Unshadowed(Narrowed(s, m), x) == Unshadowed(s, x)
    ensures Declared(Narrowed(s, m), x) == Declared(s, x)
  {
    if m != map[] {
      var t := [Over(s, m, true)] + s;
      assert t[1..] == s;
      DeclaredStep(t, x);
    }
  }

  lemma NarrowedGrounded(s: Chain, m: map<string, Type>)
    requires Grounded(s) && forall x <- m :: Visible(s, x).Some?
    ensures Grounded(Narrowed(s, m))
  {
    if m != map[] {
      assert ([Over(s, m, true)] + s)[1..] == s;
      forall x | x in m ensures Unshadowed(s, x).Some? {
        GroundedHasDeclaration(s, x);
      }
    }
  }

  // ---- SetVar ----

  function WithVar(s: Chain, x: string, t: Type, mutable: bool): Chain {
    [s[0].(types := s[0].types[x := t], mut := s[0].mut[x := mutable])] + s[1..]
  }

  // A declaration is the declared type of its name exactly when the scope holds
  // no narrowed shadow of the name already.
  lemma SetVarDeclaresIff(s: Chain, x: string, t: Type, mutable: bool)
    requires Grounded(s)
    ensures Declared(WithVar(s, x, t, mutable), x) == Some(t) <==>
      x !in s[0].narrowed || Declared(s, x) == Some(t)
    ensures Visible(WithVar(s, x, t, mutable), x) == Some(t) && IsVar(WithVar(s, x, t, mutable), x) == mutable
    ensures Grounded(WithVar(s, x, t, mutable))
  {
    var s' := WithVar(s, x, t, mutable);
    assert s'[1..] == s[1..];
    if x in s[0].narrowed {
      assert Unshadowed(s, x) == Unshadowed(s[1..], x) == Unshadowed(s', x);
      assert Unshadowed(s[1..], x).Some?;
    }
  }

  // ---- closureBoundaryEnv ----

  // The declared types that the boundary puts over the marked names.
  function Boundary(s: Chain): map<string, Type> {
    DeclaredOf(s, MarkedNames(s))
  }

  // The declared types of the names in xs.
  function DeclaredOf(s: Chain, xs: set<string>): map<string, Type> {
    map x | x in xs && Declared(s, x).Some? :: Declared(s, x).value
  }

  function BoundaryChain(s: Chain): Chain {
    if Boundary(s) == map[] then s
    else [Over(s, Boundary(s), false)] + s
  }

  // Behind a closure boundary a name shows its declared type whenever it has
  // one, and then everything narrowed is gone.
  lemma BoundaryShowsDeclaredIff(s: Chain, x: string)
    ensures Visible(BoundaryChain(s), x) == Declared(s, x) <==> Declared(s, x).Some? || Visible(s, x).None?
    ensures Grounded(s) ==> Visible(BoundaryChain(s), x) == Declared(s, x)
    ensures Grounded(s) ==> Declared(BoundaryChain(s), x) == Declared(s, x)
    ensures IsVar(BoundaryChain(s), x) == IsVar(s, x)
  {
    var b := Boundary(s);
    var t := BoundaryChain(s);
    assert x in b <==> Marked(s, x) && Declared(s, x).Some?;
    if b != map[] {
      assert t[1..] == s;
      DeclaredStep(t, x);
    }
    if !Marked(s, x) {
      DeclaredUnmarked(s, x);
    }
    if Grounded(s) {
      GroundedHasDeclaration(s, x);
    }
  }

  // ---- dropMutableNarrowings ----

  // A name that dropMutableNarrowings resets: a `var` that some scope narrows
  // and that the innermost scope does not bind.
  function Reset(s: Chain, x: string): bool {
    Marked(s, x) && IsVar(s, x) && x !in s[0].types && Declared(s, x).Some?
  }

  function ResetNames(s: Chain, done: set<string>): set<string> {
    set x | x in done && Reset(s, x)
  }

  function AllVar(xs: set<string>): map<string, bool> {
    map x | x in xs :: true
  }

  // The chain after the names in done have been looked at.
  function Dropped(s: Chain, done: set<string>): Chain {
    var xs := ResetNames(s, done);
    [s[0].(types := s[0].types + DeclaredOf(s, xs), mut := s[0].mut + AllVar(xs))] + s[1..]
  }

  // After dropMutableNarrowings the names that it resets show their declared
  // types, and every other name what it showed before.
  lemma DropShowsDeclared(s: Chain, x: string)
    requires Grounded(s)
    ensures var s' := Dropped(s, MarkedNames(s));
      Visible(s', x) == if Reset(s, x) then Declared(s, x) else Visible(s, x)
    ensures var s' := Dropped(s, MarkedNames(s));
      IsVar(s', x) == IsVar(s, x)
  {
    var s' := Dropped(s, MarkedNames(s));
    assert s'[1..] == s[1..];
    if !Reset(s, x) {
      SameAt(s, s', x);
    }
  }

  // Every `var` shows its declared type then exactly when the innermost scope
  // itself narrows no `var` away from it.
  lemma DropCompleteIff(s: Chain)
    requires Grounded(s)
    ensures (forall x | IsVar(s, x) :: Visible(Dropped(s, MarkedNames(s)), x) == Declared(s, x)) <==>
      (forall x <- s[0].narrowed :: x in s[0].types && IsVar(s, x) ==> s[0].types[x] == Declared(s, x).value)
  {
    forall x | IsVar(s, x)
      ensures Visible(Dropped(s, MarkedNames(s)), x) == Declared(s, x) <==>
        (x in s[0].narrowed && x in s[0].types ==> s[0].types[x] == Declared(s, x).value)
    {
      DropShowsDeclared(s, x);
      GroundedHasDeclaration(s, x);
      if !Marked(s, x) {
        DeclaredUnmarked(s, x);
      }
    }
  }

  // ---- The scope chain in memory ----

  class Env {
    const parent: Env?
    var types: map<string, Type>
    var mut: map<string, bool>
    var narrowed: set<string>
    // The scopes of the chain.
    ghost const repr: set<Env>

    ghost predicate Valid()
      reads repr
      decreases repr
    {
      && this in repr
      && (parent == null ==> repr == {this})
      && (parent != null ==>
        && parent in repr && this !in parent.repr && repr == {this} + parent.repr
        && parent.Valid())
    }

    ghost function Chain(): (s: Chain)
      requires Valid()
      reads repr
      decreases repr
    {
      [Scope(types, mut, narrowed)] + if parent == null then [] else parent.Chain()
    }

    // NewEnv.
    constructor (parent: Env?)
      requires parent != null ==> parent.Valid()
      ensures Valid() && this.parent == parent && Scope(types, mut, narrowed) == EMPTY
      ensures repr == {this} + if parent == null then {} else parent.repr
      ensures Chain() == [EMPTY] + if parent == null then [] else parent.Chain()
    {
      this.parent := parent;
      types, mut, narrowed := map[], map[], {};
      repr := {this} + if parent == null then {} else parent.repr;
    }

    method SetVar(x: string, t: Type, mutable: bool)
      requires Valid()
      modifies this
      ensures Valid() && narrowed == old(narrowed)
      ensures types == old(types)[x := t] && mut == old(mut)[x := mutable]
      ensures Chain() == WithVar(old(Chain()), x, t, mutable)
    {
      types := types[x := t];
      mut := mut[x := mutable];
    }

    lemma Up()
      requires Valid()
      ensures parent != null ==> parent.Valid() && Chain()[1..] == parent.Chain() && this !in parent.repr
    {
    }

    function GetVar(x: string): (r: Options.Option<Type>)
      requires Valid()
      reads repr
      decreases repr
      ensures r == Visible(Chain(), x)
    {
      if x in types then Some(types[x])
      else if parent != null then parent.GetVar(x)
      else None
    }

    // What DeclaredVarType falls back to.
    lemma LookPast(x: string)
      requires Valid()
      ensures parent != null ==> Chain()[1..] == parent.Chain()
      ensures Declared(Chain(), x) ==
        if x in types && x !in narrowed then Some(types[x])
        else if parent != null then Declared(parent.Chain(), x)
        else if x in types then Some(types[x])
        else None
    {
      if parent != null {
        DeclaredStep(Chain(), x);
      } else {
        DeclaredLast(Chain(), x);
      }
    }

    function DeclaredVarType(x: string): (r: Options.Option<Type>)
      requires Valid()
      reads repr
      decreases repr
      ensures r == Declared(Chain(), x)
    {
      LookPast(x);
      if x in types && x !in narrowed then Some(types[x])
      else if parent != null then parent.DeclaredVarType(x)
      else if x in types then Some(types[x])
      else None
    }

    // isMutable: unknown names count as immutable where it is called.
    function IsMutable(x: string): (r: Options.Option<bool>)
      requires Valid()
      reads repr
      decreases repr
      ensures r == Mutability(Chain(), x)
    {
      if x in mut then Some(mut[x])
      else if parent != null then parent.IsMutable(x)
      else None
    }
  }
}
