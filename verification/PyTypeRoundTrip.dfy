// Printing a Python type expression and parsing it again.
module PyTypeRoundTrip {
  import opened Options
  import opened Scanning
  import opened PyTypes

  // ---- Trees ----

  predicate IsNumberLiteral(t: PyType) {
    t.Literal? && IsNumber(t.text)
  }

  // The trees that the parser builds: tokens in every leaf, tuples only as
  // arguments, and at least two branches to a union.
  predicate Shaped(t: PyType) {
    match t
    case Name(n) => IsIdent(n) && n !in CONSTANTS
    case Attr(b, n) => Shaped(b) && !b.Tuple? && IsIdent(n)
    case Subscript(b, args) => Shaped(b) && !b.Tuple? && AllShaped(args)
    case Tuple(args) => AllShaped(args)
    case Union(args) => |args| >= 2 && AllShaped(args) && forall i | 0 <= i < |args| :: !args[i].Tuple?
    case Literal(x) => x in CONSTANTS || IsNumber(x) || IsQuoted(x)
    case Ellipsis => true
  }

  predicate AllShaped(ts: seq<PyType>) {
    forall i | 0 <= i < |ts| :: Shaped(ts[i])
  }

  // No union directly inside a union or under an attribute or a subscript, and
  // no number directly under an attribute.
  predicate Normal(t: PyType) {
    match t
    case Attr(b, _) => Normal(b) && !b.Union? && !IsNumberLiteral(b)
    case Subscript(b, args) => Normal(b) && !b.Union? && AllNormal(args)
    case Tuple(args) => AllNormal(args)
    case Union(args) => AllNormal(args) && forall i | 0 <= i < |args| :: !args[i].Union?
    case _ => true
  }

  predicate AllNormal(ts: seq<PyType>) {
    forall i | 0 <= i < |ts| :: Normal(ts[i])
  }

  predicate Good(t: PyType) {
    Shaped(t) && Normal(t)
  }

  // ---- Tokens before other text ----

  lemma Nothing(k: string)
    ensures "" + k == k && k + "" == k
  {
  }

  lemma NoBlank(x: string, k: string)
    requires x != "" && !Blank(x[0])
    ensures SkipWS(x + k) == x + k
  {
    assert (x + k)[0] == x[0];
  }

  lemma OneBlank(s: string)
    ensures SkipWS(" " + s) == SkipWS(s)
  {
    assert (" " + s)[1..] == s && (" " + s)[0] == ' ';
  }

  lemma {:induction false} StringLengthIs(x: string, q: char, k: string)
    requires StringLength(x, q) == Some(|x|) && q != '\\'
    ensures StringLength(x + k, q) == Some(|x|)
    decreases |x|
  {
    assert (x + k)[0] == x[0];
    if x[0] == '\\' && |x| > 1 {
      assert (x + k)[2..] == x[2..] + k;
      StringLengthIs(x[2..], q, k);
    } else if x[0] != q {
      assert (x + k)[1..] == x[1..] + k;
      StringLengthIs(x[1..], q, k);
    }
  }

  // The text k does not go on with the last token of t.
  predicate Follows(t: PyType, k: string) {
    k == "" || k[0] in " [],|)" || (k[0] == '.' && !IsNumberLiteral(t))
  }

  lemma TokenText(x: string, k: string, p: char -> bool)
    requires x != "" && (forall i | 1 <= i < |x| :: p(x[i])) && (k == "" || !p(k[0]))
    ensures (x + k)[0] == x[0] && 1 + Span(p, (x + k)[1..]) == |x|
    ensures (x + k)[..|x|] == x && (x + k)[|x|..] == k
  {
    assert (x + k)[1..] == x[1..] + k;
    SpanIs(p, x[1..], k);
  }

  lemma IdentText(n: string, k: string)
    requires IsIdent(n) && (k == "" || !IdentCont(k[0]))
    ensures ParseIdent(n + k) == Some((n, k))
    ensures ParseAtom(n + k) == Some((if n in CONSTANTS then Literal(n) else Name(n), k))
  {
    hide Span, SkipWS;
    IdentIsPlain(n[0]);
    NoBlank(n, k);
    TokenText(n, k, IdentCont);
  }

  lemma IdentIsPlain(c: char)
    requires IdentStart(c)
    ensures !Blank(c) && c !in "([])'\".,-|" && !IsDigit(c)
  {
  }

  lemma FollowsToken(c: char)
    requires c in " [],|)."
    ensures !IdentCont(c) && (NumberCont(c) <==> c == '.')
  {
  }

  lemma ConstantsAreIdents(x: string)
    requires x in CONSTANTS
    ensures IsIdent(x) && !IsNumber(x)
  {
  }

  lemma NumberText(x: string, k: string)
    requires IsNumber(x) && (k == "" || !NumberCont(k[0]))
    ensures ParseAtom(x + k) == Some((Literal(x), k))
  {
    hide Span, SkipWS;
    NoBlank(x, k);
    TokenText(x, k, NumberCont);
  }

  lemma QuotedText(x: string, k: string)
    requires IsQuoted(x)
    ensures ParseAtom(x + k) == Some((Literal(x), k))
  {
    hide SkipWS, StringLength;
    NoBlank(x, k);
    StringLengthIs(x[1..], x[0], k);
    var u := x + k;
    assert u[1..] == x[1..] + k && u[..|x|] == x && u[|x|..] == k && u[0] == x[0];
  }

  lemma DotsText(k: string)
    ensures ParseAtom("..." + k) == Some((Ellipsis, k))
  {
    hide SkipWS;
    NoBlank("...", k);
    var u := "..." + k;
    assert u[..3] == "..." && u[3..] == k;
  }

  lemma LeafText(t: PyType, k: string)
    requires Shaped(t) && (t.Name? || t.Literal? || t.Ellipsis?) && Follows(t, k)
    ensures ParseAtom(String(t) + k) == Some((t, k))
  {
    hide ParseAtom, IsIdent, IsNumber, IsQuoted, IdentCont, NumberCont, IsDigit;
    if k != "" {
      FollowsToken(k[0]);
    }
    match t
    case Name(n) => IdentText(n, k);
    case Ellipsis => DotsText(k);
    case Literal(x) =>
      if x in CONSTANTS {
        ConstantsAreIdents(x);
        IdentText(x, k);
      } else if IsNumber(x) {
        NumberText(x, k);
      } else {
        QuotedText(x, k);
      }
  }

  // ---- Trees before other text ----

  // The first character of a printed type.
  lemma {:induction false} Starts(t: PyType)
    requires Shaped(t)
    ensures var s := String(t);
      s != "" && !Blank(s[0]) && s[0] !in "]),|" && (t.Tuple? <==> s[0] == '[')
  {
    match t
    case Name(n) => IdentIsPlain(n[0]);
    case Literal(x) =>
      if x in CONSTANTS {
        ConstantsAreIdents(x);
        IdentIsPlain(x[0]);
      }
    case Attr(b, _) => Starts(b);
    case Subscript(b, _) => Starts(b);
    case Union(args) => Starts(args[0]);
    case Tuple(args) =>
    case Ellipsis =>
  }

  // ---- Printed text, from the left ----

  lemma AttrString(b: PyType, n: string, k: string)
    ensures String(Attr(b, n)) + k == String(b) + ("." + (n + k))
  {
  }

  lemma BracketString(args: seq<PyType>, k: string)
    ensures String(Tuple(args)) + k == "[" + (Joined(args, ", ") + ("]" + k))
    ensures ("[" + (Joined(args, ", ") + ("]" + k)))[1..] == Joined(args, ", ") + ("]" + k)
    ensures ("]" + k)[1..] == k
  {
    hide Joined;
  }

  lemma SubscriptString(b: PyType, args: seq<PyType>, k: string)
    ensures String(Subscript(b, args)) + k == String(b) + (String(Tuple(args)) + k)
  {
    hide Joined;
  }

  lemma JoinedString(ts: seq<PyType>, sep: string, k: string)
    ensures ts == [] ==> Joined(ts, sep) + k == k
    ensures |ts| == 1 ==> Joined(ts, sep) == String(ts[0])
    ensures |ts| > 1 ==> Joined(ts, sep) + k == String(ts[0]) + (sep + (Joined(ts[1..], sep) + k))
  {
    hide String;
  }

  lemma UnionString(ts: seq<PyType>, k: string)
    requires |ts| > 1
    ensures String(Union(ts)) + k == String(ts[0]) + (" | " + (Joined(ts[1..], " | ") + k))
  {
    JoinedString(ts, " | ", k);
  }

  lemma GoodParts(t: PyType)
    requires Good(t)
    ensures match t
      case Attr(b, n) => Good(b) && !b.Tuple? && !b.Union? && !IsNumberLiteral(b) && IsIdent(n)
      case Subscript(b, args) => Good(b) && !b.Tuple? && !b.Union? && AllGood(args)
      case Tuple(args) => AllGood(args)
      case Union(args) => |args| > 1 && AllGood(args) && NoUnion(args)
      case _ => true
    ensures Shaped(t)
  {
    if t.Subscript? || t.Tuple? || t.Union? {
      AllGoodIff(t.args);
    }
  }

  lemma AllGoodIff(ts: seq<PyType>)
    ensures AllGood(ts) <==> AllShaped(ts) && AllNormal(ts)
  {
    hide Shaped, Normal;
    forall i | 0 <= i < |ts| ensures Good(ts[i]) <==> Shaped(ts[i]) && Normal(ts[i]) {
    }
  }

  predicate AllGood(ts: seq<PyType>) {
    forall i | 0 <= i < |ts| :: Good(ts[i])
  }

  predicate NoUnion(ts: seq<PyType>) {
    forall i | 0 <= i < |ts| :: !ts[i].Union? && !ts[i].Tuple?
  }

  lemma GoodRest(ts: seq<PyType>)
    requires ts != [] && AllGood(ts)
    ensures Good(ts[0]) && AllGood(ts[1..]) && (NoUnion(ts) ==> !ts[0].Union? && !ts[0].Tuple? && NoUnion(ts[1..]))
  {
  }

  lemma StartsOf(t: PyType)
    requires Good(t)
    ensures Starting(t)
    ensures t.Tuple? <==> String(t) != "" && String(t)[0] == '['
  {
    Starts(t);
  }

  // ---- Parsing printed text ----

  lemma {:induction false} PrimaryText(t: PyType, k: string)
    requires Good(t) && !t.Tuple? && !t.Union? && Follows(t, k)
    ensures ParsePrimary(String(t) + k) == PrimaryTail(t, k)
    decreases t, 0
  {
    hide *;
    GoodParts(t);
    match t
    case Attr(b, n) =>
      FollowsSeparator(b, n + k);
      PrimaryText(b, "." + (n + k));
      AttrString(b, n, k);
      FollowsIdent(t, k);
      AttrText(b, n, k);
    case Subscript(b, args) =>
      FollowsBracket(b, args, k);
      PrimaryText(b, String(Tuple(args)) + k);
      ArgsText([], args, k);
      assert [] + args == args;
      SubscriptString(b, args, k);
      SubscriptText(b, args, k);
    case _ =>
      LeafText(t, k);
      PrimaryIs(String(t) + k);
  }

  lemma PrimaryIs(s: string)
    ensures ParsePrimary(s) ==
      if ParseAtom(s).None? then None else PrimaryTail(ParseAtom(s).value.0, ParseAtom(s).value.1)
  {
    hide ParseAtom, PrimaryTail;
  }

  lemma FollowsSeparator(t: PyType, s: string)
    requires !IsNumberLiteral(t)
    ensures Follows(t, "." + s)
  {
  }

  lemma FollowsBracket(t: PyType, args: seq<PyType>, k: string)
    ensures Follows(t, String(Tuple(args)) + k)
  {
    BracketString(args, k);
  }

  lemma FollowsIdent(t: PyType, k: string)
    requires Follows(t, k)
    ensures k == "" || !IdentCont(k[0])
  {
    hide IdentCont;
    if k != "" {
      FollowsToken(k[0]);
    }
  }

  lemma AttrText(b: PyType, n: string, k: string)
    requires IsIdent(n) && (k == "" || !IdentCont(k[0]))
    ensures PrimaryTail(b, "." + (n + k)) == PrimaryTail(Attr(b, n), k)
  {
    hide *;
    var s := "." + (n + k);
    IdentText(n, k);
    NotBlank(s);
    PrimaryTailIs(b, s);
    assert s[1..] == n + k;
  }

  lemma NotBlank(s: string)
    ensures s == "" || s[0] !in " \t" ==> SkipWS(s) == s
  {
    if s != "" && s[0] !in " \t" {
      NoBlank(s, "");
      Nothing(s);
    }
  }

  lemma SubscriptText(b: PyType, args: seq<PyType>, k: string)
    requires ParseArgs([], Joined(args, ", ") + ("]" + k)) == Some((args, "]" + k))
    ensures PrimaryTail(b, String(Tuple(args)) + k) == PrimaryTail(Subscript(b, args), k)
  {
    hide *;
    var s := String(Tuple(args)) + k;
    BracketString(args, k);
    NotBlank(s);
    PrimaryTailIs(b, s);
  }

  lemma {:induction false} ArgsText(ts: seq<PyType>, args: seq<PyType>, k: string)
    requires AllGood(args)
    ensures ParseArgs(ts, Joined(args, ", ") + ("]" + k)) == Some((ts + args, "]" + k))
    decreases args
  {
    hide *;
    var s := Joined(args, ", ") + ("]" + k);
    JoinedString(args, ", ", "]" + k);
    if args == [] {
      NotBlank(s);
      ParseArgsIs(ts, s);
      assert ts + args == ts;
    } else {
      var a, rest := args[0], args[1..];
      GoodRest(args);
      StartsOf(a);
      if rest == [] {
        ArgText(a, "]" + k);
        LastArg(ts, a, k);
        assert args == [a];
      } else {
        var more := Joined(rest, ", ") + ("]" + k);
        ArgText(a, ", " + more);
        NextArg(ts, a, more);
        ArgsText(ts + [a], rest, k);
        assert ts + [a] + rest == ts + args;
      }
    }
  }

  predicate Starting(t: PyType) {
    String(t) != "" && !Blank(String(t)[0]) && String(t)[0] != ']'
  }

  lemma StartingText(a: PyType, k: string)
    requires Starting(a)
    ensures SkipWS(String(a) + k) == String(a) + k && (String(a) + k)[0] != ']'
    ensures (String(a) + k)[0] == String(a)[0]
  {
    hide String, SkipWS;
    NoBlank(String(a), k);
  }

  lemma LastArg(ts: seq<PyType>, a: PyType, k: string)
    requires Starting(a) && ParseArg(String(a) + ("]" + k)) == Some((a, "]" + k))
    ensures ParseArgs(ts, String(a) + ("]" + k)) == Some((ts + [a], "]" + k))
  {
    hide *;
    StartingText(a, "]" + k);
    ParseArgsIs(ts, String(a) + ("]" + k));
    NotBlank("]" + k);
  }

  lemma NextArg(ts: seq<PyType>, a: PyType, more: string)
    requires Starting(a) && ParseArg(String(a) + (", " + more)) == Some((a, ", " + more))
    ensures ParseArgs(ts, String(a) + (", " + more)) == ParseArgs(ts + [a], more)
  {
    hide *;
    StartingText(a, ", " + more);
    ParseArgsIs(ts, String(a) + (", " + more));
    NotBlank(", " + more);
    assert (", " + more)[1..] == " " + more;
    ArgsAfterBlank(ts + [a], more);
  }

  lemma ArgsAfterBlank(ts: seq<PyType>, s: string)
    ensures ParseArgs(ts, " " + s) == ParseArgs(ts, s)
  {
    hide ParseArg, SkipWS;
    OneBlank(s);
    ParseArgsIs(ts, s);
    ParseArgsIs(ts, " " + s);
  }

  lemma {:induction false} ArgText(a: PyType, k: string)
    requires Good(a) && k != "" && k[0] in ",]"
    ensures ParseArg(String(a) + k) == Some((a, k))
    decreases a, 2
  {
    hide *;
    GoodParts(a);
    StartsOf(a);
    StartingText(a, k);
    ParseArgIs(String(a) + k);
    if a.Tuple? {
      ArgsText([], a.args, k);
      assert [] + a.args == a.args;
      BracketString(a.args, k);
    } else {
      SeparatorCloses(k);
      UnionText(a, k);
    }
  }

  lemma SeparatorCloses(k: string)
    requires k != "" && k[0] in ",]"
    ensures Closes(k)
  {
  }

  lemma ParseArgIs(u: string)
    ensures ParseArg(u) ==
      if u != "" && u[0] == '[' then
        var inner := ParseArgs([], u[1..]);
        if inner.None? || inner.value.1 == "" || inner.value.1[0] != ']' then None
        else Some((Tuple(inner.value.0), inner.value.1[1..]))
      else ParseUnion(u)
  {
    hide ParseArgs, ParseUnion;
  }

  // What may stand after a whole type.
  predicate Closes(k: string) {
    k == "" || k[0] in ",])"
  }

  lemma ClosesFollows(t: PyType, k: string)
    requires Closes(k)
    ensures Follows(t, k) && PrimaryTail(t, k) == Some((t, k))
    ensures k == "" || k[0] !in " \t|"
  {
    hide SkipWS;
    NotBlank(k);
  }

  lemma {:induction false} UnionText(t: PyType, k: string)
    requires Good(t) && !t.Tuple? && Closes(k)
    ensures ParseUnion(String(t) + k) == Some((t, k))
    decreases t, 1
  {
    hide *;
    GoodParts(t);
    UnionIs(String(t) + k);
    ClosesFollows(t, k);
    if t.Union? {
      var first, rest := t.args[0], t.args[1..];
      GoodRest(t.args);
      var more := Joined(rest, " | ") + k;
      UnionString(t.args, k);
      BarEnds(first, more);
      PrimaryText(first, " | " + more);
      BranchesText([first], rest, k);
      assert [first] + rest == t.args;
    } else {
      PrimaryText(t, k);
      NotBlank(k);
      UnionTailIs([t], k);
    }
  }

  lemma UnionIs(s: string)
    ensures ParseUnion(s) ==
      if ParsePrimary(s).None? then None else UnionTail([ParsePrimary(s).value.0], ParsePrimary(s).value.1)
  {
    hide ParsePrimary, UnionTail;
  }

  // A blank and a bar end a primary.
  lemma BarEnds(t: PyType, s: string)
    ensures Follows(t, " | " + s)
    ensures PrimaryTail(t, " | " + s) == Some((t, "| " + s))
    ensures SkipWS("| " + s) == "| " + s && ("| " + s)[1..] == " " + s
  {
    hide SkipWS;
    assert " | " + s == " " + ("| " + s);
    OneBlank("| " + s);
    NotBlank("| " + s);
  }

  lemma BlankBeforePrimary(s: string)
    ensures ParsePrimary(" " + s) == ParsePrimary(s)
  {
    hide *;
    OneBlank(s);
    AtomIs(s);
    AtomIs(" " + s);
    PrimaryIs(s);
    PrimaryIs(" " + s);
  }

  lemma {:induction false} BranchesText(ts: seq<PyType>, rest: seq<PyType>, k: string)
    requires ts != [] && rest != [] && Closes(k) && AllGood(rest) && NoUnion(rest)
    ensures UnionTail(ts, "| " + (Joined(rest, " | ") + k)) == Some((Union(ts + rest), k))
    decreases rest
  {
    hide *;
    var t := rest[0];
    GoodRest(rest);
    var s := Joined(rest, " | ") + k;
    BarEnds(t, s);
    UnionTailIs(ts, "| " + s);
    BlankBeforePrimary(s);
    JoinedString(rest, " | ", k);
    if |rest| == 1 {
      ClosesFollows(t, k);
      PrimaryText(t, k);
      NotBlank(k);
      UnionTailIs(ts + [t], k);
      assert rest == [t];
    } else {
      var more := Joined(rest[1..], " | ") + k;
      BarEnds(t, more);
      PrimaryText(t, " | " + more);
      BranchesText(ts + [t], rest[1..], k);
      assert ts + [t] + rest[1..] == ts + rest;
    }
  }

  // ---- The whole input ----

  predicate Solid(c: char) {
    !IsSpace(c)
  }

  lemma IdentIsSolid(c: char)
    requires IdentCont(c) || IdentStart(c)
    ensures Solid(c)
  {
  }

  lemma {:induction false} QuoteEnds(s: string, q: char)
    requires StringLength(s, q) == Some(|s|)
    ensures s[|s| - 1] == q
    decreases |s|
  {
    if s[0] == '\\' && |s| > 1 {
      QuoteEnds(s[2..], q);
    } else if s[0] != q {
      QuoteEnds(s[1..], q);
    }
  }

  lemma TokenEnds(t: PyType)
    requires Shaped(t) && (t.Name? || t.Literal? || t.Ellipsis?)
    ensures var s := String(t); s != "" && Solid(s[0]) && Solid(s[|s| - 1])
  {
    hide StringLength;
    var s := String(t);
    if t.Name? || (t.Literal? && s in CONSTANTS) {
      if t.Literal? {
        ConstantsAreIdents(s);
      }
      IdentIsSolid(s[0]);
      IdentIsSolid(s[|s| - 1]);
    } else if t.Literal? && IsQuoted(s) {
      QuoteEnds(s[1..], s[0]);
      assert s[1..][|s| - 2] == s[|s| - 1];
    }
  }

  lemma {:induction false} PrintedEnds(t: PyType)
    requires Shaped(t)
    ensures var s := String(t); s != "" && Solid(s[0]) && Solid(s[|s| - 1])
  {
    match t
    case Attr(b, n) =>
      PrintedEnds(b);
      IdentIsSolid(n[|n| - 1]);
    case Subscript(b, args) =>
      PrintedEnds(b);
    case Tuple(args) =>
    case Union(args) =>
      PrintedEnds(args[0]);
      JoinedEnds(args, " | ");
    case _ => TokenEnds(t);
  }

  lemma {:induction false} JoinedEnds(ts: seq<PyType>, sep: string)
    requires ts != [] && AllShaped(ts)
    ensures var s := Joined(ts, sep); s != "" && Solid(s[|s| - 1]) && String(ts[0]) <= s
  {
    PrintedEnds(ts[0]);
    if |ts| > 1 {
      JoinedEnds(ts[1..], sep);
    }
  }

  lemma TrimSolid(s: string)
    requires s != "" && Solid(s[0]) && Solid(s[|s| - 1])
    ensures Trim(s) == s
  {
    TrimOfSolid(IsSpace, "", s);
    assert "" + s == s;
  }

  // Parsing what was printed gives the tree back.
  lemma RoundTrip(t: PyType)
    requires Good(t) && !t.Tuple?
    ensures ParsePyType(String(t)) == Some(t)
  {
    hide *;
    GoodParts(t);
    PrintedEnds(t);
    TrimSolid(String(t));
    Nothing(String(t));
    NothingCloses();
    UnionText(t, "");
    ParseIs(String(t));
  }

  lemma NothingCloses()
    ensures Closes("")
  {
  }

  lemma ParseIs(s: string)
    ensures ParsePyType(s) ==
      var r := ParseUnion(Trim(s)); if r.Some? && r.value.1 == "" then Some(r.value.0) else None
  {
    hide ParseUnion, Trim;
  }
}
