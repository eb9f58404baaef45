// A number before an attribute, which the printed form loses: `1.x` is read as
// the number `1.`, and the parser is left before an identifier.
module PyTypeStuck {
  import opened Options
  import opened Scanning
  import opened PyTypes
  import opened PyTypeRoundTrip

  // No union directly inside a union or under an attribute or a subscript.
  predicate Level(t: PyType) {
    match t
    case Attr(b, _) => Level(b) && !b.Union?
    case Subscript(b, args) => Level(b) && !b.Union? && AllLevel(args)
    case Tuple(args) => AllLevel(args)
    case Union(args) => AllLevel(args) && forall i | 0 <= i < |args| :: !args[i].Union?
    case _ => true
  }

  predicate AllLevel(ts: seq<PyType>) {
    forall i | 0 <= i < |ts| :: Level(ts[i])
  }

  predicate Flattened(t: PyType) {
    Shaped(t) && Level(t)
  }

  predicate AllFlattened(ts: seq<PyType>) {
    forall i | 0 <= i < |ts| :: Flattened(ts[i])
  }

  // The parser fails, or stops before an identifier, which no context accepts.
  predicate Stuck<T(!new)>(r: Parsed<T>) {
    r.Some? ==> StuckAt(r.value.1)
  }

  predicate StuckAt(rest: string) {
    rest != "" && IdentStart(rest[0])
  }

  lemma StuckIff<T(!new)>(r: Parsed<T>)
    ensures Stuck(r) <==> r.None? || StuckAt(r.value.1)
  {
  }

  lemma StuckBefore(rest: string)
    requires StuckAt(rest)
    ensures rest != "" && rest[0] !in "[.|,])" && SkipWS(rest) == rest
  {
    hide SkipWS;
    IdentIsPlain(rest[0]);
    NotBlank(rest);
  }

  lemma StuckIs<T(!new)>(r: Parsed<T>)
    requires Stuck(r) && r.Some?
    ensures var rest := r.value.1; StuckAt(rest) && rest != "" && rest[0] !in "[.|,])" && SkipWS(rest) == rest
  {
    hide StuckAt, SkipWS;
    StuckBefore(r.value.1);
  }

  lemma FlattenedParts(t: PyType)
    requires Flattened(t)
    ensures match t
      case Attr(b, n) =>
        Flattened(b) && !b.Tuple? && !b.Union? && IsIdent(n) && (Good(t) <==> Good(b) && !IsNumberLiteral(b))
      case Subscript(b, args) =>
        Flattened(b) && !b.Tuple? && !b.Union? && AllFlattened(args) && (Good(t) <==> Good(b) && AllGood(args))
      case Tuple(args) => AllFlattened(args) && (Good(t) <==> AllGood(args))
      case Union(args) => |args| > 1 && AllFlattened(args) && NoUnion(args) && (Good(t) <==> AllGood(args))
      case _ => Good(t)
    ensures Shaped(t)
  {
    hide IsIdent, IsNumber, IsQuoted;
    if t.Subscript? || t.Tuple? || t.Union? {
      AllGoodIff(t.args);
      AllFlattenedIff(t.args);
    }
  }

  lemma AllFlattenedIff(ts: seq<PyType>)
    ensures AllFlattened(ts) <==> AllShaped(ts) && AllLevel(ts)
  {
    hide Shaped, Level;
    forall i | 0 <= i < |ts| ensures Flattened(ts[i]) <==> Shaped(ts[i]) && Level(ts[i]) {
    }
  }

  lemma FlattenedRest(ts: seq<PyType>)
    requires ts != [] && AllFlattened(ts)
    ensures Flattened(ts[0]) && AllFlattened(ts[1..]) && (AllGood(ts) <==> Good(ts[0]) && AllGood(ts[1..]))
    ensures NoUnion(ts) ==> !ts[0].Union? && !ts[0].Tuple? && NoUnion(ts[1..])
    ensures |ts| == 1 ==> (AllGood(ts) <==> Good(ts[0]))
  {
    hide Flattened, Good;
    assert forall i | 1 <= i < |ts| :: ts[i] == ts[1..][i - 1];
  }

  lemma StartsFlattened(t: PyType)
    requires Flattened(t)
    ensures Starting(t)
    ensures t.Tuple? <==> String(t) != "" && String(t)[0] == '['
  {
    Starts(t);
  }

  lemma NumberStuck(b: PyType, n: string, k: string)
    requires IsNumberLiteral(b) && IsIdent(n)
    ensures Stuck(ParsePrimary(String(b) + ("." + (n + k))))
  {
    hide ParsePrimary, ParseAtom, PrimaryTail, SkipWS;
    var x := b.text;
    Assoc(x, ".", n + k);
    IdentIsPlain(n[0]);
    assert (n + k)[0] == n[0];
    NumberText(x + ".", n + k);
    PrimaryIs(x + ("." + (n + k)));
    StuckBefore(n + k);
    PrimaryTailIs(Literal(x + "."), n + k);
  }

  lemma {:induction false} PrimaryStuck(t: PyType, k: string)
    requires Flattened(t) && !Good(t) && !t.Tuple? && !t.Union?
    ensures Stuck(ParsePrimary(String(t) + k))
    decreases t, 0
  {
    hide *;
    FlattenedParts(t);
    match t
    case Attr(b, n) =>
      AttrString(b, n, k);
      if Good(b) {
        NumberStuck(b, n, k);
      } else {
        PrimaryStuck(b, "." + (n + k));
      }
    case Subscript(b, args) =>
      SubscriptString(b, args, k);
      var rest := String(Tuple(args)) + k;
      if Good(b) {
        FollowsBracket(b, args, k);
        PrimaryText(b, rest);
        ArgsStuck([], args, "]" + k);
        SubscriptStuck(b, args, k);
      } else {
        PrimaryStuck(b, rest);
      }
    case _ =>
  }

  lemma SubscriptStuck(b: PyType, args: seq<PyType>, k: string)
    requires Stuck(ParseArgs([], Joined(args, ", ") + ("]" + k)))
    ensures Stuck(PrimaryTail(b, String(Tuple(args)) + k))
  {
    hide *;
    var s := String(Tuple(args)) + k;
    BracketString(args, k);
    NotBlank(s);
    PrimaryTailIs(b, s);
    if ParseArgs([], s[1..]).Some? {
      StuckIs(ParseArgs([], s[1..]));
    }
    StuckIff(PrimaryTail(b, s));
  }

  lemma {:induction false} ArgsStuck(ts: seq<PyType>, args: seq<PyType>, k: string)
    requires AllFlattened(args) && !AllGood(args)
    ensures Stuck(ParseArgs(ts, Joined(args, ", ") + k))
    decreases args
  {
    hide *;
    NoneGood();
    var a, rest := args[0], args[1..];
    var more := Joined(rest, ", ") + k;
    FlattenedRest(args);
    StartsFlattened(a);
    JoinedString(args, ", ", k);
    if Good(a) {
      ArgText(a, ", " + more);
      NextArg(ts, a, more);
      ArgsStuck(ts + [a], rest, k);
    } else {
      var after := if rest == [] then k else ", " + more;
      ArgStuck(a, after);
      OneArgStuck(ts, a, after);
    }
  }

  lemma NoneGood()
    ensures AllGood([])
  {
  }

  lemma OneArgStuck(ts: seq<PyType>, a: PyType, k: string)
    requires Starting(a) && Stuck(ParseArg(String(a) + k))
    ensures Stuck(ParseArgs(ts, String(a) + k))
  {
    hide *;
    var s := String(a) + k;
    StartingText(a, k);
    ParseArgsIs(ts, s);
    if ParseArg(s).Some? {
      StuckIs(ParseArg(s));
    }
    StuckIff(ParseArgs(ts, s));
  }

  lemma {:induction false} ArgStuck(a: PyType, k: string)
    requires Flattened(a) && !Good(a)
    ensures Stuck(ParseArg(String(a) + k))
    decreases a, 2
  {
    hide *;
    FlattenedParts(a);
    StartsFlattened(a);
    StartingText(a, k);
    ParseArgIs(String(a) + k);
    if a.Tuple? {
      ArgsStuck([], a.args, "]" + k);
      BracketString(a.args, k);
      var inner := ParseArgs([], Joined(a.args, ", ") + ("]" + k));
      if inner.Some? {
        StuckIs(inner);
      }
      StuckIff(ParseArg(String(a) + k));
    } else {
      UnionStuck(a, k);
    }
  }

  lemma {:induction false} UnionStuck(t: PyType, k: string)
    requires Flattened(t) && !Good(t) && !t.Tuple?
    ensures Stuck(ParseUnion(String(t) + k))
    decreases t, 1
  {
    hide *;
    FlattenedParts(t);
    if t.Union? {
      var first, rest := t.args[0], t.args[1..];
      var more := Joined(rest, " | ") + k;
      FlattenedRest(t.args);
      UnionString(t.args, k);
      if Good(first) {
        BarEnds(first, more);
        PrimaryText(first, " | " + more);
        UnionIs(String(t) + k);
        BranchesStuck([first], rest, k);
      } else {
        PrimaryStuck(first, " | " + more);
        FirstStuck(String(t) + k);
      }
    } else {
      PrimaryStuck(t, k);
      FirstStuck(String(t) + k);
    }
  }

  lemma FirstStuck(s: string)
    requires Stuck(ParsePrimary(s))
    ensures Stuck(ParseUnion(s))
  {
    hide *;
    var r := ParsePrimary(s);
    UnionIs(s);
    StuckIff(ParseUnion(s));
    if r.Some? {
      StuckIs(r);
      TailStuck([r.value.0], r.value.1);
    }
  }

  lemma TailStuck(ts: seq<PyType>, s: string)
    requires ts != [] && StuckAt(s)
    ensures Stuck(UnionTail(ts, s))
  {
    hide *;
    StuckBefore(s);
    UnionTailIs(ts, s);
    StuckIff(UnionTail(ts, s));
  }

  lemma {:induction false} BranchesStuck(ts: seq<PyType>, rest: seq<PyType>, k: string)
    requires ts != [] && AllFlattened(rest) && NoUnion(rest) && !AllGood(rest)
    ensures Stuck(UnionTail(ts, "| " + (Joined(rest, " | ") + k)))
    decreases rest
  {
    hide *;
    NoneGood();
    var t, s := rest[0], Joined(rest, " | ") + k;
    var more := Joined(rest[1..], " | ") + k;
    FlattenedRest(rest);
    BarEnds(t, s);
    UnionTailIs(ts, "| " + s);
    BlankBeforePrimary(s);
    JoinedString(rest, " | ", k);
    if Good(t) {
      BarEnds(t, more);
      PrimaryText(t, " | " + more);
      BranchesStuck(ts + [t], rest[1..], k);
    } else {
      PrimaryStuck(t, if |rest| == 1 then k else " | " + more);
      var r := ParsePrimary(s);
      StuckIff(UnionTail(ts, "| " + s));
      if r.Some? {
        StuckIs(r);
        TailStuck(ts + [r.value.0], r.value.1);
      }
      StuckIff(UnionTail(ts, "| " + s));
    }
  }

  // A flattened tree with a number right before an attribute cannot be read back.
  lemma FlattenedRoundTripIff(t: PyType)
    requires Flattened(t) && !t.Tuple?
    ensures ParsePyType(String(t)) == if Good(t) then Some(t) else None
  {
    hide *;
    if Good(t) {
      RoundTrip(t);
    } else {
      FlattenedParts(t);
      PrintedEnds(t);
      TrimSolid(String(t));
      Nothing(String(t));
      UnionStuck(t, "");
      ParseIs(String(t));
      if ParseUnion(String(t)).Some? {
        StuckIs(ParseUnion(String(t)));
      }
    }
  }
}
