// The type language of types/kinds.go.
//
// Every kind with children is written Comp(head, args): the head is the kind,
// and the arguments come in the order in which the source visits them. A
// function lists its parameters, then its variadic element type if it has one,
// then its return type. A struct lists the types of its fields.
module Types {

  datatype Atom = Int | Int64 | BigInt | BigRat | Float | Str | Bool | Unit | Value

  datatype Head =
    | Set | List | Map | OMap | Chan | Stream | Sub | Future | Option | Group
    | Func(variadic: bool, effects: nat, typeParams: seq<string>)
    | Struct(name: string, fields: seq<string>)

  datatype Type =
    | TypeVar(id: string)
    | Any
    | Atomic(atom: Atom)
    | Union(unionName: string, variants: set<string>)
    | Comp(head: Head, args: seq<Type>)

  // The type variables written in t.
  function Vars(t: Type): set<string> {
    match t
    case TypeVar(x) => {x}
    case Comp(_, args) => VarsAll(args)
    case _ => {}
  }

  function VarsAll(ts: seq<Type>): set<string> {
    if ts == [] then {} else Vars(ts[0]) + VarsAll(ts[1..])
  }

  // The number of nodes of t.
  function Size(t: Type): nat {
    match t
    case Comp(_, args) => 1 + SizeAll(args)
    case _ => 1
  }

  function SizeAll(ts: seq<Type>): nat {
    if ts == [] then 0 else Size(ts[0]) + SizeAll(ts[1..])
  }

  lemma VarsAllContains(ts: seq<Type>, i: nat)
    requires i < |ts|
    ensures Vars(ts[i]) <= VarsAll(ts)
  {
    if i > 0 {
      VarsAllContains(ts[1..], i - 1);
    }
  }

  lemma VarsAllFind(ts: seq<Type>, x: string) returns (i: nat)
    requires x in VarsAll(ts)
    ensures i < |ts| && x in Vars(ts[i])
  {
    if x in Vars(ts[0]) {
      i := 0;
    } else {
      var j := VarsAllFind(ts[1..], x);
      i := j + 1;
    }
  }

  lemma SizeAllContains(ts: seq<Type>, i: nat)
    requires i < |ts|
    ensures Size(ts[i]) <= SizeAll(ts)
  {
    if i > 0 {
      SizeAllContains(ts[1..], i - 1);
    }
  }
}
