// What the parser can return, and what printing loses of it.
module PyTypeFlatten {
  import opened Options
  import opened Scanning
  import opened Sequences
  import opened PyTypes
  import opened PyTypeRoundTrip
  import opened PyTypeStuck

  // ---- Every result of the parser is well formed ----

  lemma {:induction false} StringLengthCut(s: string, q: char)
    requires StringLength(s, q).Some?
    ensures StringLength(s[..StringLength(s, q).value], q) == StringLength(s, q)
    decreases |s|
  {
    var n := StringLength(s, q).value;
    if s[0] == '\\' && |s| > 1 {
      StringLengthCut(s[2..], q);
      assert s[..n][2..] == s[2..][..n - 2];
    } else if s[0] != q {
      StringLengthCut(s[1..], q);
      FrontOfRest(s, n - 1);
    }
  }

  // A type that may stand anywhere but in an argument list alone.
  predicate ShapedType(t: PyType) {
    Shaped(t) && !t.Tuple?
  }

  predicate ShapedTypes(ts: seq<PyType>) {
    forall i | 0 <= i < |ts| :: ShapedType(ts[i])
  }

  lemma {:induction false} UnionShaped(s: string)
    ensures ParseUnion(s).Some? ==> ShapedType(ParseUnion(s).value.0)
    decreases |s|, 3
  {
    hide *;
    UnionIs(s);
    PrimaryShaped(s);
    if ParsePrimary(s).Some? {
      var (t, rest) := ParsePrimary(s).value;
      NoneShaped();
      OneShaped([], t);
      UnionTailShaped([t], rest);
    }
  }

  lemma OneShaped(ts: seq<PyType>, t: PyType)
    requires ShapedTypes(ts) && ShapedType(t)
    ensures ShapedTypes(ts + [t]) && [] + [t] == [t]
  {
    hide ShapedType;
  }

  lemma OneArgShaped(ts: seq<PyType>, t: PyType)
    requires AllShaped(ts) && Shaped(t)
    ensures AllShaped(ts + [t])
  {
    hide Shaped;
  }

  lemma {:induction false} UnionTailShaped(ts: seq<PyType>, s: string)
    requires ts != [] && ShapedTypes(ts)
    ensures UnionTail(ts, s).Some? ==> ShapedType(UnionTail(ts, s).value.0)
    decreases |s|, 3
  {
    hide *;
    UnionTailIs(ts, s);
    UnionOfShaped(ts);
    var u := SkipWS(s);
    if u != "" && u[0] == '|' {
      PrimaryShaped(u[1..]);
      if ParsePrimary(u[1..]).Some? {
        var (t, rest) := ParsePrimary(u[1..]).value;
        OneShaped(ts, t);
        UnionTailShaped(ts + [t], rest);
      }
    }
  }

  lemma UnionOfShaped(ts: seq<PyType>)
    requires ts != [] && ShapedTypes(ts)
    ensures ShapedType(if |ts| == 1 then ts[0] else Union(ts))
  {
    assert forall i | 0 <= i < |ts| :: ShapedType(ts[i]) ==> Shaped(ts[i]) && !ts[i].Tuple?;
  }

  lemma {:induction false} PrimaryShaped(s: string)
    ensures ParsePrimary(s).Some? ==> ShapedType(ParsePrimary(s).value.0)
    decreases |s|, 2
  {
    hide *;
    PrimaryIs(s);
    AtomShaped(s);
    if ParseAtom(s).Some? {
      var (t, rest) := ParseAtom(s).value;
      PrimaryTailShaped(t, rest);
    }
  }

  lemma {:induction false} PrimaryTailShaped(t: PyType, s: string)
    requires ShapedType(t)
    ensures PrimaryTail(t, s).Some? ==> ShapedType(PrimaryTail(t, s).value.0)
    decreases |s|, 2
  {
    hide *;
    PrimaryTailIs(t, s);
    var u := SkipWS(s);
    if u != "" && u[0] == '[' {
      NoneShaped();
      ArgsShaped([], u[1..]);
      var args := ParseArgs([], u[1..]);
      if args.Some? && args.value.1 != "" && args.value.1[0] == ']' {
        SubscriptShaped(t, args.value.0);
        PrimaryTailShaped(Subscript(t, args.value.0), args.value.1[1..]);
      }
    } else if u != "" && u[0] == '.' {
      IdentShaped(u[1..]);
      var name := ParseIdent(u[1..]);
      if name.Some? {
        AttrShaped(t, name.value.0);
        PrimaryTailShaped(Attr(t, name.value.0), name.value.1);
      }
    }
  }

  lemma NoneShaped()
    ensures AllShaped([]) && ShapedTypes([])
  {
  }

  lemma SubscriptShaped(t: PyType, args: seq<PyType>)
    requires ShapedType(t) && AllShaped(args)
    ensures ShapedType(Subscript(t, args))
  {
  }

  lemma AttrShaped(t: PyType, n: string)
    requires ShapedType(t) && IsIdent(n)
    ensures ShapedType(Attr(t, n))
  {
  }

  lemma IdentShaped(s: string)
    ensures ParseIdent(s).Some? ==> IsIdent(ParseIdent(s).value.0)
  {
    hide IdentStart, IdentCont;
  }

  lemma {:induction false} ArgsShaped(ts: seq<PyType>, s: string)
    requires AllShaped(ts)
    ensures ParseArgs(ts, s).Some? ==> AllShaped(ParseArgs(ts, s).value.0)
    decreases |s|, 5
  {
    hide *;
    ParseArgsIs(ts, s);
    var u := SkipWS(s);
    if u != "" && u[0] != ']' {
      ArgShaped(u);
      var arg := ParseArg(u);
      if arg.Some? {
        OneArgShaped(ts, arg.value.0);
        var v := SkipWS(arg.value.1);
        if v != "" && v[0] == ',' {
          ArgsShaped(ts + [arg.value.0], v[1..]);
        }
      }
    }
  }

  lemma {:induction false} ArgShaped(u: string)
    ensures ParseArg(u).Some? ==> Shaped(ParseArg(u).value.0)
    decreases |u|, 4
  {
    hide *;
    ParseArgIs(u);
    if u != "" && u[0] == '[' {
      NoneShaped();
      ArgsShaped([], u[1..]);
      var inner := ParseArgs([], u[1..]);
      if inner.Some? {
        TupleShaped(inner.value.0);
      }
    } else {
      UnionShaped(u);
      if ParseUnion(u).Some? {
        TypeIsShaped(ParseUnion(u).value.0);
      }
    }
  }

  lemma TupleShaped(args: seq<PyType>)
    requires AllShaped(args)
    ensures Shaped(Tuple(args))
  {
  }

  lemma TypeIsShaped(t: PyType)
    requires ShapedType(t)
    ensures Shaped(t)
  {
  }

  lemma {:induction false} AtomShaped(s: string)
    ensures ParseAtom(s).Some? ==> ShapedType(ParseAtom(s).value.0)
    decreases |s|, 1
  {
    hide ParseUnion, StringLength, Span, IdentStart, IdentCont, SkipWS, ParseAtom;
    AtomIs(s);
    var u := SkipWS(s);
    if u != "" {
      if u[0] == '(' {
        UnionShaped(u[1..]);
      } else if u[0] == '"' || u[0] == '\'' {
        var n := StringLength(u[1..], u[0]);
        if n.Some? {
          StringLengthCut(u[1..], u[0]);
          FrontOfRest(u, n.value);
        }
      }
    }
  }

  // Tokens in the leaves, tuples only as arguments, two branches to a union: so
  // is whatever ParsePyType returns.
  lemma ParsedIsShaped(src: string)
    ensures ParsePyType(src).Some? ==> ShapedType(ParsePyType(src).value)
  {
    hide *;
    ParseIs(src);
    UnionShaped(Trim(src));
  }

  // ---- Flattening ----

  // The primaries that stand between the bars of the printed form of t.
  function Branches(t: PyType): (r: seq<PyType>)
    ensures r != []
  {
    match t
    case Attr(b, n) => MapLast(Branches(b), Attr(Branches(b)[|Branches(b)| - 1], n))
    case Subscript(b, args) => MapLast(Branches(b), Subscript(Branches(b)[|Branches(b)| - 1], Flats(args)))
    case Tuple(args) => [Tuple(Flats(args))]
    case Union(args) => if args == [] then [t] else AllBranches(args)
    case _ => [t]
  }

  function AllBranches(ts: seq<PyType>): (r: seq<PyType>)
    requires ts != []
    ensures r != []
  {
    if |ts| == 1 then Branches(ts[0]) else Branches(ts[0]) + AllBranches(ts[1..])
  }

  function MapLast(ts: seq<PyType>, t: PyType): (r: seq<PyType>)
    requires ts != []
    ensures |r| == |ts| && r[|r| - 1] == t && forall i | 0 <= i < |r| - 1 :: r[i] == ts[i]
  {
    ts[..|ts| - 1] + [t]
  }

  function Together(ts: seq<PyType>): PyType
    requires ts != []
  {
    if |ts| == 1 then ts[0] else Union(ts)
  }

  // The tree that the printed form of t stands for.
  function Flat(t: PyType): PyType {
    Together(Branches(t))
  }

  function Flats(ts: seq<PyType>): (r: seq<PyType>)
    ensures |r| == |ts|
  {
    if ts == [] then [] else [Together(Branches(ts[0]))] + Flats(ts[1..])
  }

  function Last(t: PyType): PyType {
    Branches(t)[|Branches(t)| - 1]
  }

  // No number comes right before an attribute.
  predicate NoNumberDot(t: PyType) {
    match t
    case Attr(b, _) => NoNumberDot(b) && !IsNumberLiteral(Last(b))
    case Subscript(b, args) => NoNumberDot(b) && AllNoNumberDot(args)
    case Tuple(args) => AllNoNumberDot(args)
    case Union(args) => AllNoNumberDot(args)
    case _ => true
  }

  predicate AllNoNumberDot(ts: seq<PyType>) {
    forall i | 0 <= i < |ts| :: NoNumberDot(ts[i])
  }

  // ---- Flattening does not change the printed form ----

  lemma {:induction false} JoinedConcat(ts: seq<PyType>, us: seq<PyType>, sep: string)
    requires ts != [] && us != []
    ensures Joined(ts + us, sep) == Joined(ts, sep) + sep + Joined(us, sep)
  {
    hide String;
    if |ts| == 1 {
      assert (ts + us)[1..] == us && (ts + us)[0] == ts[0];
    } else {
      assert (ts + us)[1..] == ts[1..] + us && (ts + us)[0] == ts[0];
      JoinedConcat(ts[1..], us, sep);
      var a, b, c := String(ts[0]), Joined(ts[1..], sep), sep + Joined(us, sep);
      assert b + sep + Joined(us, sep) == b + c;
      assert a + sep + (b + c) == a + sep + b + c;
    }
  }

  lemma {:induction false} JoinedLast(ts: seq<PyType>, t: PyType, tail: string)
    requires ts != [] && String(t) == String(ts[|ts| - 1]) + tail
    ensures Joined(MapLast(ts, t), " | ") == Joined(ts, " | ") + tail
  {
    hide String;
    if |ts| == 1 {
      assert MapLast(ts, t) == [t];
    } else {
      assert MapLast(ts, t)[1..] == MapLast(ts[1..], t);
      JoinedLast(ts[1..], t, tail);
    }
  }

  lemma {:induction false} BranchesPrint(t: PyType)
    requires Shaped(t)
    ensures Joined(Branches(t), " | ") == String(t)
    decreases t, 1
  {
    match t
    case Attr(b, n) =>
      BranchesPrint(b);
      JoinedLast(Branches(b), Attr(Last(b), n), "." + n);
      assert String(Attr(Last(b), n)) == String(Last(b)) + ("." + n);
    case Subscript(b, args) =>
      BranchesPrint(b);
      FlatsPrint(args);
      SubscriptTail(Last(b), Flats(args));
      SubscriptTail(b, args);
      JoinedLast(Branches(b), Subscript(Last(b), Flats(args)), "[" + Joined(args, ", ") + "]");
    case Tuple(args) =>
      FlatsPrint(args);
    case Union(args) =>
      AllBranchesPrint(args);
    case _ =>
  }

  lemma SubscriptTail(b: PyType, args: seq<PyType>)
    ensures String(Subscript(b, args)) == String(b) + ("[" + Joined(args, ", ") + "]")
  {
    hide Joined;
  }

  lemma {:induction false} FlatsPrint(ts: seq<PyType>)
    requires AllShaped(ts)
    ensures Joined(Flats(ts), ", ") == Joined(ts, ", ")
    decreases ts, 0
  {
    if ts != [] {
      BranchesPrint(ts[0]);
      TogetherPrints(Branches(ts[0]));
      FlatsPrint(ts[1..]);
      assert Flats(ts)[1..] == Flats(ts[1..]);
    }
  }

  lemma TogetherPrints(ts: seq<PyType>)
    requires ts != []
    ensures String(Together(ts)) == Joined(ts, " | ")
  {
  }

  lemma {:induction false} AllBranchesPrint(ts: seq<PyType>)
    requires ts != [] && AllShaped(ts)
    ensures Joined(AllBranches(ts), " | ") == Joined(ts, " | ")
    decreases ts, 0
  {
    BranchesPrint(ts[0]);
    if |ts| > 1 {
      AllBranchesPrint(ts[1..]);
      JoinedConcat(Branches(ts[0]), AllBranches(ts[1..]), " | ");
    }
  }

  // ---- The branches are primaries ----

  lemma {:induction false} BranchesFlattened(t: PyType)
    requires Shaped(t)
    ensures AllFlattened(Branches(t)) && (t.Tuple? || NoUnion(Branches(t)))
    ensures AllGood(Branches(t)) <==> NoNumberDot(t)
    decreases t, 1
  {
    hide Flattened, Good, NoUnion, AllGood, AllFlattened, IsIdent, IsNumber, IsQuoted;
    match t
    case Attr(b, n) =>
      BranchesFlattened(b);
      AttrLast(Branches(b), n);
    case Subscript(b, args) =>
      BranchesFlattened(b);
      FlatsFlattened(args);
      SubscriptLast(Branches(b), Flats(args));
    case Tuple(args) =>
      FlatsFlattened(args);
      OneTuple(Flats(args));
    case Union(args) =>
      AllBranchesFlattened(args);
    case _ =>
      OneLeaf(t);
  }

  lemma OneLeaf(t: PyType)
    requires Shaped(t) && !t.Tuple? && !t.Union? && !t.Attr? && !t.Subscript?
    ensures AllFlattened([t]) && NoUnion([t]) && AllGood([t])
  {
  }

  lemma OneTuple(args: seq<PyType>)
    requires AllFlattened(args)
    ensures AllFlattened([Tuple(args)]) && (AllGood([Tuple(args)]) <==> AllGood(args))
  {
    AllFlattenedIff(args);
    FlattenedParts(Tuple(args));
    OneGood(Tuple(args));
  }

  lemma OneGood(t: PyType)
    ensures AllGood([t]) <==> Good(t)
  {
    hide Good;
    assert [t][0] == t;
  }

  lemma AttrLast(ts: seq<PyType>, n: string)
    requires ts != [] && AllFlattened(ts) && NoUnion(ts) && IsIdent(n)
    ensures var last := ts[|ts| - 1];
      var us := MapLast(ts, Attr(last, n));
      AllFlattened(us) && NoUnion(us) && (AllGood(us) <==> AllGood(ts) && !IsNumberLiteral(last))
  {
    hide IsIdent, Flattened, Good, IsNumberLiteral;
    AttrFlattened(ts[|ts| - 1], n);
    LastGood(ts, Attr(ts[|ts| - 1], n));
  }

  lemma AttrFlattened(b: PyType, n: string)
    requires Flattened(b) && !b.Union? && !b.Tuple? && IsIdent(n)
    ensures Flattened(Attr(b, n)) && (Good(Attr(b, n)) <==> Good(b) && !IsNumberLiteral(b))
  {
    hide IsIdent, IsNumberLiteral;
  }

  lemma SubscriptLast(ts: seq<PyType>, args: seq<PyType>)
    requires ts != [] && AllFlattened(ts) && NoUnion(ts) && AllFlattened(args)
    ensures var us := MapLast(ts, Subscript(ts[|ts| - 1], args));
      AllFlattened(us) && NoUnion(us) && (AllGood(us) <==> AllGood(ts) && AllGood(args))
  {
    hide Flattened, Good;
    SubscriptFlattened(ts[|ts| - 1], args);
    LastGood(ts, Subscript(ts[|ts| - 1], args));
  }

  lemma SubscriptFlattened(b: PyType, args: seq<PyType>)
    requires Flattened(b) && !b.Union? && !b.Tuple? && AllFlattened(args)
    ensures Flattened(Subscript(b, args)) && (Good(Subscript(b, args)) <==> Good(b) && AllGood(args))
  {
    AllFlattenedIff(args);
    FlattenedParts(Subscript(b, args));
  }

  // A last element that is good only if the old one was.
  lemma LastGood(ts: seq<PyType>, t: PyType)
    requires ts != [] && (Good(t) ==> Good(ts[|ts| - 1]))
    ensures AllGood(MapLast(ts, t)) <==> AllGood(ts) && Good(t)
  {
    hide Good;
    var us := MapLast(ts, t);
    if AllGood(us) {
      assert Good(us[|ts| - 1]);
      forall i | 0 <= i < |ts| ensures Good(ts[i]) {
        assert Good(us[i]);
      }
    }
  }

  lemma {:induction false} AllBranchesFlattened(ts: seq<PyType>)
    requires ts != [] && AllShaped(ts) && forall i | 0 <= i < |ts| :: !ts[i].Tuple?
    ensures AllFlattened(AllBranches(ts)) && NoUnion(AllBranches(ts))
    ensures AllGood(AllBranches(ts)) <==> AllNoNumberDot(ts)
    decreases ts, 0
  {
    hide Shaped, Flattened, Good, NoNumberDot, Branches;
    BranchesFlattened(ts[0]);
    if |ts| > 1 {
      AllBranchesFlattened(ts[1..]);
      GoodConcat(Branches(ts[0]), AllBranches(ts[1..]));
      NoNumberDotRest(ts);
    }
  }

  lemma GoodConcat(ts: seq<PyType>, us: seq<PyType>)
    ensures AllGood(ts + us) <==> AllGood(ts) && AllGood(us)
  {
    hide Good;
    if AllGood(ts + us) {
      forall i | 0 <= i < |us| ensures Good(us[i]) {
        assert Good((ts + us)[|ts| + i]);
      }
      forall i | 0 <= i < |ts| ensures Good(ts[i]) {
        assert Good((ts + us)[i]);
      }
    }
  }

  lemma NoNumberDotRest(ts: seq<PyType>)
    requires ts != []
    ensures AllNoNumberDot(ts) <==> NoNumberDot(ts[0]) && AllNoNumberDot(ts[1..])
  {
    hide NoNumberDot;
    assert forall i | 1 <= i < |ts| :: ts[i] == ts[1..][i - 1];
  }

  lemma {:induction false} FlatsFlattened(ts: seq<PyType>)
    requires AllShaped(ts)
    ensures AllFlattened(Flats(ts)) && (AllGood(Flats(ts)) <==> AllNoNumberDot(ts))
    decreases ts, 0
  {
    hide Shaped, Flattened, Good, NoNumberDot, Branches;
    if ts != [] {
      BranchesFlattened(ts[0]);
      TogetherFlattened(ts[0]);
      FlatsFlattened(ts[1..]);
      NoNumberDotRest(ts);
      OneGood(Flat(ts[0]));
      GoodConcat([Flat(ts[0])], Flats(ts[1..]));
      assert Flats(ts) == [Flat(ts[0])] + Flats(ts[1..]);
    }
  }

  lemma TogetherFlattened(t: PyType)
    requires AllFlattened(Branches(t)) && (t.Tuple? || NoUnion(Branches(t)))
    ensures Flattened(Flat(t)) && (!t.Tuple? ==> !Flat(t).Tuple?) && (Good(Flat(t)) <==> AllGood(Branches(t)))
  {
    var ts := Branches(t);
    if |ts| > 1 {
      AllFlattenedIff(ts);
      FlattenedParts(Union(ts));
    }
  }

  // ---- Normal trees are flat ----

  lemma {:induction false} NormalIsFlat(t: PyType)
    requires Shaped(t) && Normal(t)
    ensures Flat(t) == t && (!t.Union? ==> Branches(t) == [t])
    decreases t, 1
  {
    match t
    case Attr(b, n) => NormalIsFlat(b);
    case Subscript(b, args) =>
      NormalIsFlat(b);
      NormalsAreFlat(args);
    case Tuple(args) => NormalsAreFlat(args);
    case Union(args) => BranchesAreArgs(args);
    case _ =>
  }

  lemma {:induction false} NormalsAreFlat(ts: seq<PyType>)
    requires AllShaped(ts) && AllNormal(ts)
    ensures Flats(ts) == ts
    decreases ts, 0
  {
    if ts != [] {
      NormalIsFlat(ts[0]);
      NormalsAreFlat(ts[1..]);
    }
  }

  lemma {:induction false} BranchesAreArgs(ts: seq<PyType>)
    requires ts != [] && AllShaped(ts) && AllNormal(ts) && forall i | 0 <= i < |ts| :: !ts[i].Union?
    ensures AllBranches(ts) == ts
    decreases ts, 0
  {
    NormalIsFlat(ts[0]);
    if |ts| > 1 {
      BranchesAreArgs(ts[1..]);
      assert ts == [ts[0]] + ts[1..];
    } else {
      assert ts == [ts[0]];
    }
  }

  // ---- The main results ----

  // A printed tree comes back flattened, or, with a number before an attribute,
  // not at all; so it comes back unchanged exactly when it is normal.
  lemma PrintThenParse(t: PyType)
    requires ShapedType(t)
    ensures ParsePyType(String(t)) == if NoNumberDot(t) then Some(Flat(t)) else None
    ensures ParsePyType(String(t)) == Some(t) <==> Normal(t)
  {
    hide *;
    ShapedIs(t);
    BranchesPrint(t);
    BranchesFlattened(t);
    TogetherFlattened(t);
    TogetherPrints(Branches(t));
    FlatIs(t);
    FlattenedRoundTripIff(Flat(t));
    if Normal(t) {
      NormalIsFlat(t);
    }
    GoodIs(Flat(t));
    GoodIs(t);
  }

  lemma ShapedIs(t: PyType)
    ensures ShapedType(t) <==> Shaped(t) && !t.Tuple?
  {
  }

  lemma GoodIs(t: PyType)
    ensures Good(t) <==> Shaped(t) && Normal(t)
  {
  }

  lemma FlatIs(t: PyType)
    ensures Flat(t) == Together(Branches(t))
  {
  }

  // From any source that parses: printing the tree and parsing again is
  // flattening it, and doing so once more changes nothing; or the printed tree
  // is rejected.
  lemma ReparseIsFlat(src: string)
    requires ParsePyType(src).Some?
    ensures var t := ParsePyType(src).value;
      if NoNumberDot(t) then
        ParsePyType(String(t)) == Some(Flat(t)) && ParsePyType(String(Flat(t))) == Some(Flat(t))
      else ParsePyType(String(t)) == None
  {
    hide *;
    var t := ParsePyType(src).value;
    ParsedIsShaped(src);
    ShapedIs(t);
    PrintThenParse(t);
    BranchesFlattened(t);
    TogetherFlattened(t);
    if NoNumberDot(t) {
      RoundTrip(Flat(t));
    }
  }

  // A number before an attribute is out of reach of the printer: `1 .x` parses,
  // but is printed as `1.x`, which does not.
  lemma NumberBeforeAttribute(x: string, n: string)
    requires IsNumber(x) && IsIdent(n)
    ensures ParsePyType(x + (" ." + n)) == Some(Attr(Literal(x), n))
    ensures ParsePyType(String(Attr(Literal(x), n))) == None
  {
    hide *;
    NumberEnds(x, n);
    TrimSolid(x + (" ." + n));
    NumberSpaced(x, n);
    NumberNotNormal(x, n);
    PrintThenParse(Attr(Literal(x), n));
  }

  lemma NumberNotNormal(x: string, n: string)
    requires IsNumber(x) && IsIdent(n)
    ensures ShapedType(Attr(Literal(x), n)) && !NoNumberDot(Attr(Literal(x), n))
  {
    hide IsNumber, IsIdent;
    assert Shaped(Literal(x));
  }

  lemma NumberEnds(x: string, n: string)
    requires IsNumber(x) && IsIdent(n)
    ensures var s := x + (" ." + n); s != "" && Solid(s[0]) && Solid(s[|s| - 1])
  {
    var s := x + (" ." + n);
    assert s[0] == x[0] && s[|s| - 1] == n[|n| - 1];
  }

  lemma NumberSpaced(x: string, n: string)
    requires IsNumber(x) && IsIdent(n) && Trim(x + (" ." + n)) == x + (" ." + n)
    ensures ParsePyType(x + (" ." + n)) == Some(Attr(Literal(x), n))
  {
    hide *;
    var k := " ." + n;
    BlankEndsNumber(k);
    NumberText(x, k);
    ParseIs(x + k);
    UnionIs(x + k);
    PrimaryIs(x + k);
    assert k == " " + ("." + n);
    OneBlank("." + n);
    NotBlank("." + n);
    PrimaryTailIs(Literal(x), k);
    assert ("." + n)[1..] == n;
    Nothing(n);
    IdentText(n, "");
    PrimaryTailIs(Attr(Literal(x), n), "");
    NotBlank("");
    UnionTailIs([Attr(Literal(x), n)], "");
  }

  lemma BlankEndsNumber(k: string)
    ensures k != "" && k[0] == ' ' ==> !NumberCont(k[0])
  {
  }

  // An identifier alone is a name, but for the three constants.
  lemma IdentIsRead(n: string)
    requires IsIdent(n)
    ensures ParsePyType(n) == Some(if n == "True" || n == "False" || n == "None" then Literal(n) else Name(n))
  {
    hide *;
    var t := if n in CONSTANTS then Literal(n) else Name(n);
    IdentIsClosed(n);
    TrimSolid(n);
    Nothing(n);
    IdentText(n, "");
    ParseIs(n);
    UnionIs(n);
    PrimaryIs(n);
    NotBlank("");
    PrimaryTailIs(t, "");
    UnionTailIs([t], "");
  }

  lemma IdentIsClosed(n: string)
    requires IsIdent(n)
    ensures n != "" && Solid(n[0]) && Solid(n[|n| - 1])
    ensures n in CONSTANTS <==> n == "True" || n == "False" || n == "None"
  {
  }
}
