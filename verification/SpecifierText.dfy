// Reading and printing specifiers: the text side of semver/specifier.go.
module SpecifierText {
  import opened Options
  import opened Scanning
  import opened Numerals
  import opened Versions
  import opened VersionRoundTrip
  import opened Specifiers

  function Token(op: Operator): string {
    match op
    case Eq => "=="
    case Neq => "!="
    case Lt => "<"
    case Lte => "<="
    case Gt => ">"
    case Gte => ">="
    case Compat => "~="
    case Arbitrary => "==="
  }

  // The longer tokens come first.
  const OPERATORS: seq<Operator> := [Arbitrary, Eq, Neq, Lte, Gte, Compat, Lt, Gt]

  // The first operator of ops whose token starts s.
  function OperatorOf(s: string, ops: seq<Operator>): (r: Option<Operator>)
    ensures r.Some? ==> Token(r.value) <= s
  {
    if ops == [] then None else if Token(ops[0]) <= s then Some(ops[0]) else OperatorOf(s, ops[1..])
  }

  function Trim(s: string): string {
    TrimOf(c => IsSpace(c), s)
  }

  function ParseClause(s: string): Option<Clause> {
    var src := Trim(s);
    match OperatorOf(src, OPERATORS)
    case None => None
    case Some(op) =>
      match Parsed(Trim(src[|Token(op)|..]))
      case None => None
      case Some(v) => Some(Clause(op, v))
  }

  function ParseClauses(parts: seq<string>): Option<seq<Clause>> {
    if parts == [] then Some([])
    else match (ParseClause(parts[0]), ParseClauses(parts[1..]))
      case (Some(c), Some(cs)) => Some([c] + cs)
      case _ => None
  }

  // ParseSpecifier, whose empty text is the empty specifier.
  function Parse(s: string): Option<seq<Clause>> {
    var src := Trim(s);
    if src == "" then Some([]) else ParseClauses(SplitOn(src, ','))
  }

  // What is read so far, and what is left to read.
  function Onto(done: seq<Clause>, rest: Option<seq<Clause>>): Option<seq<Clause>> {
    match rest case None => None case Some(cs) => Some(done + cs)
  }

  lemma OntoStep(done: seq<Clause>, parts: seq<string>, i: nat)
    requires i < |parts|
    ensures Onto(done, ParseClauses(parts[i..])) ==
      if ParseClause(parts[i]).None? then None
      else Onto(done + [ParseClause(parts[i]).value], ParseClauses(parts[i + 1..]))
  {
    hide ParseClause;
    var rest := parts[i..];
    assert rest[0] == parts[i] && rest[1..] == parts[i + 1..];
    if ParseClause(parts[i]).Some? && ParseClauses(rest[1..]).Some? {
      var c, cs := ParseClause(parts[i]).value, ParseClauses(rest[1..]).value;
      assert done + ([c] + cs) == done + [c] + cs;
    }
  }

  method ParseSpecifier(s: string) returns (r: Option<seq<Clause>>)
    ensures r == Parse(s)
  {
    hide ParseClause, Trim, SplitOn, ParseClauses, Onto;
    var src := Trim(s);
    if src == "" {
      return Some([]);
    }
    var parts := SplitOn(src, ',');
    var clauses: seq<Clause> := [];
    OntoEnds(clauses, parts);
    for i := 0 to |parts|
      invariant ParseClauses(parts) == Onto(clauses, ParseClauses(parts[i..]))
    {
      OntoStep(clauses, parts, i);
      var c := ParseClause(parts[i]);
      if c.None? {
        return None;
      }
      clauses := clauses + [c.value];
    }
    OntoEnds(clauses, parts);
    return Some(clauses);
  }

  lemma OntoEnds(done: seq<Clause>, parts: seq<string>)
    ensures Onto([], ParseClauses(parts[0..])) == ParseClauses(parts)
    ensures Onto(done, ParseClauses(parts[|parts|..])) == Some(done)
  {
    hide ParseClause;
    assert parts[0..] == parts;
    if ParseClauses(parts).Some? {
      assert [] + ParseClauses(parts).value == ParseClauses(parts).value;
    }
    assert done + [] == done;
  }

  function ClauseText(c: Clause): string {
    Token(c.op) + String(c.version)
  }

  // Specifier.String.
  function Text(cs: seq<Clause>): string {
    if cs == [] then "" else if |cs| == 1 then ClauseText(cs[0]) else ClauseText(cs[0]) + ", " + Text(cs[1..])
  }

  // ---- Printing and reading back ----

  predicate AllWellFormed(cs: seq<Clause>) {
    forall i | 0 <= i < |cs| :: WellFormed(cs[i].version)
  }

  lemma LocalHasNoComma(t: string)
    requires IsLocalLabel(t)
    ensures ',' !in t
  {
  }

  // A printed version starts with a digit, ends without a space, and has no comma.
  lemma VersionText(v: Version)
    requires WellFormed(v)
    ensures var s := String(v);
      s != "" && IsDigit(s[0]) && !IsSpace(s[0]) && !IsSpace(s[|s| - 1]) && ',' !in s
  {
    hide IsSpace, JoinEpoch, IsLocalChar, IsCount;
    var p := Texts(v);
    TextsAreValid(v);
    GoodEnds(p);
    EpochChars(p);
    FirstIsDigit(v);
    if v.local != "" {
      LocalHasNoComma(v.local);
    }
  }

  lemma FirstIsDigit(v: Version)
    requires WellFormed(v)
    ensures JoinEpoch(Texts(v)) != "" && IsDigit(JoinEpoch(Texts(v))[0])
  {
    var p := Texts(v);
    TextsAreValid(v);
    StartsWithRelease(p);
    var first := if v.epoch > 0 then Decimal(v.epoch) else Decimal(v.release[0]);
    assert first == Digits(if v.epoch > 0 then v.epoch else v.release[0]);
    assert first <= JoinEpoch(p);
  }

  // A token before a digit is read as its own operator.
  lemma TokenIsRead(op: Operator, s: string)
    requires s != "" && IsDigit(s[0])
    ensures OperatorOf(Token(op) + s, OPERATORS) == Some(op) && (Token(op) + s)[|Token(op)|..] == s
    ensures !IsSpace((Token(op) + s)[0]) && ',' !in Token(op)
  {
    var t := Token(op) + s;
    assert t[|Token(op)|] == s[0];
    forall o | Token(o) <= t && |Token(o)| >= |Token(op)| ensures o == op {
      TokensDiffer(o, op, t);
    }
    LongerFirst(op, t);
  }

  lemma TokensDiffer(o: Operator, op: Operator, t: string)
    requires Token(o) <= t && Token(op) <= t && |Token(o)| >= |Token(op)|
    requires |t| > |Token(op)| && IsDigit(t[|Token(op)|])
    ensures o == op
  {
    if |Token(o)| > |Token(op)| {
      assert t[|Token(op)|] == Token(o)[|Token(op)|];
    } else {
      assert Token(o) == t[..|Token(o)|] == Token(op);
    }
  }

  lemma LongerFirst(op: Operator, t: string)
    requires Token(op) <= t && forall o | Token(o) <= t && |Token(o)| >= |Token(op)| :: o == op
    ensures OperatorOf(t, OPERATORS) == Some(op)
  {
    hide OperatorOf;
    var k := match op
      case Arbitrary => 0 case Eq => 1 case Neq => 2 case Lte => 3
      case Gte => 4 case Compat => 5 case Lt => 6 case Gt => 7;
    assert OPERATORS[k] == op;
    forall j | 0 <= j < k ensures !(Token(OPERATORS[j]) <= t) {
      assert OPERATORS[j] != op && |Token(OPERATORS[j])| >= |Token(op)|;
    }
    OperatorFound(t, OPERATORS, k);
  }

  lemma {:induction false} OperatorFound(t: string, ops: seq<Operator>, k: nat)
    requires k < |ops| && Token(ops[k]) <= t && forall j | 0 <= j < k :: !(Token(ops[j]) <= t)
    ensures OperatorOf(t, ops) == Some(ops[k])
  {
    if k > 0 {
      OperatorFound(t, ops[1..], k - 1);
    }
  }

  lemma ClauseIsRead(c: Clause, x: string)
    requires WellFormed(c.version) && (x == "" || x == " ")
    ensures ParseClause(x + ClauseText(c)) == Some(c) && ',' !in x + ClauseText(c)
    ensures ClauseText(c) != "" && !IsSpace(ClauseText(c)[0]) && !IsSpace(ClauseText(c)[|ClauseText(c)| - 1])
  {
    hide *;
    var v := String(c.version);
    VersionText(c.version);
    TokenIsRead(c.op, v);
    ClauseTextIs(c);
    var t := ClauseText(c);
    BlankIsSpace(x);
    TrimIs(x, t);
    TrimIs("", v);
    assert "" + v == v;
    VersionRoundTrip.VersionRoundTrip(c.version);
    ClauseStep(x + t);
  }

  lemma BlankIsSpace(x: string)
    requires x == "" || x == " "
    ensures forall i | 0 <= i < |x| :: IsSpace(x[i])
    ensures ',' !in x
  {
  }

  lemma ClauseTextIs(c: Clause)
    ensures ClauseText(c) == Token(c.op) + String(c.version)
  {
  }

  lemma TrimIs(x: string, s: string)
    requires (forall i | 0 <= i < |x| :: IsSpace(x[i])) && s != "" && !IsSpace(s[0]) && !IsSpace(s[|s| - 1])
    ensures Trim(x + s) == s
  {
    TrimOfSolid(c => IsSpace(c), x, s);
  }

  lemma ClauseStep(s: string)
    ensures var src := Trim(s);
      var op := OperatorOf(src, OPERATORS);
      ParseClause(s) ==
        if op.None? then None
        else
          var v := Parsed(Trim(src[|Token(op.value)|..]));
          if v.None? then None else Some(Clause(op.value, v.value))
  {
    hide Trim, Parsed, OPERATORS;
  }

  // The clauses after the first come with the blank that the printer puts before them.
  function Pieces(cs: seq<Clause>): (ps: seq<string>)
    ensures |ps| == |cs|
  {
    if cs == [] then [] else [" " + ClauseText(cs[0])] + Pieces(cs[1..])
  }

  lemma {:induction false} PiecesAreRead(cs: seq<Clause>)
    requires AllWellFormed(cs)
    ensures ParseClauses(Pieces(cs)) == Some(cs)
    ensures forall i | 0 <= i < |cs| :: ',' !in Pieces(cs)[i]
  {
    hide ParseClause, ClauseText, WellFormed;
    if cs != [] {
      ClauseIsRead(cs[0], " ");
      PiecesAreRead(cs[1..]);
      assert Pieces(cs)[1..] == Pieces(cs[1..]);
      assert [cs[0]] + cs[1..] == cs;
    }
  }

  lemma {:induction false} TextIsJoined(cs: seq<Clause>)
    requires cs != []
    ensures Text(cs) == JoinWith([ClauseText(cs[0])] + Pieces(cs[1..]), ',')
  {
    hide ClauseText;
    if |cs| > 1 {
      TextIsJoined(cs[1..]);
      var ps := [ClauseText(cs[0])] + Pieces(cs[1..]);
      assert ps[1..] == [" " + ClauseText(cs[1])] + Pieces(cs[2..]);
      JoinBlank(ClauseText(cs[1]), Pieces(cs[2..]));
      var rest := Text(cs[1..]);
      assert ClauseText(cs[0]) + ", " + rest == ClauseText(cs[0]) + [','] + (" " + rest);
    }
  }

  lemma JoinBlank(t: string, ps: seq<string>)
    ensures JoinWith([" " + t] + ps, ',') == " " + JoinWith([t] + ps, ',')
  {
    assert ([" " + t] + ps)[1..] == ps && ([t] + ps)[1..] == ps;
    if ps != [] {
      assert " " + t + [','] + JoinWith(ps, ',') == " " + (t + [','] + JoinWith(ps, ','));
    }
  }

  lemma {:induction false} TextEnds(cs: seq<Clause>)
    requires cs != [] && AllWellFormed(cs)
    ensures Text(cs) != "" && !IsSpace(Text(cs)[0]) && !IsSpace(Text(cs)[|Text(cs)| - 1])
  {
    hide ClauseText, WellFormed, IsSpace, ParseClause;
    ClauseIsRead(cs[0], "");
    if |cs| > 1 {
      TextEnds(cs[1..]);
    }
  }

  // A printed specifier is read back as its clauses.
  lemma SpecifierRoundTrip(cs: seq<Clause>)
    requires AllWellFormed(cs)
    ensures Parse(Text(cs)) == Some(cs)
  {
    hide ParseClause, ClauseText, Trim, SplitOn, WellFormed, IsSpace;
    if cs == [] {
      EmptyTrim();
    } else {
      TextEnds(cs);
      TrimIs("", Text(cs));
      assert "" + Text(cs) == Text(cs);
      ClauseIsRead(cs[0], "");
      assert "" + ClauseText(cs[0]) == ClauseText(cs[0]);
      PiecesAreRead(cs[1..]);
      TextIsJoined(cs);
      var ps := [ClauseText(cs[0])] + Pieces(cs[1..]);
      SplitOfJoin(ps, ',');
      assert ps[1..] == Pieces(cs[1..]);
      assert [cs[0]] + cs[1..] == cs;
    }
  }

  lemma EmptyTrim()
    ensures Trim("") == ""
  {
  }
}
