// What the text of a specifier accepts (semver/specifier.go), token by token.
module SpecifierMeaning {
  import opened Options
  import opened Versions
  import opened VersionRoundTrip
  import opened VersionOrder
  import opened VersionBefore
  import opened Specifiers
  import opened SpecifierText

  // The clause s has an operator of n characters and accepts v if v passes the
  // test against the version after the operator; it is rejected without one.
  ghost predicate Accepts(s: string, n: nat, v: Version, test: Version -> bool)
    requires n <= |Trim(s)|
  {
    match Parsed(Trim(Trim(s)[n..]))
    case None => ParseClause(s).None?
    case Some(w) => ParseClause(s).Some? && (Matches(ParseClause(s).value, v) <==> test(w))
  }

  // The first token that the text starts with decides, by the first key in which
  // the versions differ.
  lemma ClauseMeaning(s: string, v: Version)
    ensures var src := Trim(s);
      if "===" <= src then Accepts(s, 3, v, w => String(v) == String(w))
      else if "==" <= src then Accepts(s, 2, v, w => Equivalent(v, w))
      else if "!=" <= src then Accepts(s, 2, v, w => !Equivalent(v, w))
      else if "<=" <= src then Accepts(s, 2, v, w => !Precedes(w, v))
      else if ">=" <= src then Accepts(s, 2, v, w => !Precedes(v, w))
      else if "~=" <= src then Accepts(s, 2, v, w => MatchesCompatible(v, w))
      else if "<" <= src then Accepts(s, 1, v, w => Precedes(v, w))
      else if ">" <= src then Accepts(s, 1, v, w => Precedes(w, v))
      else ParseClause(s) == None
  {
    hide Trim, Parsed, MatchesCompatible, Order, Precedes, Equivalent;
    OperatorIs(Trim(s));
    forall w
      ensures Order(v, w) == 0 <==> Equivalent(v, w)
      ensures (Order(v, w) < 0 <==> Precedes(v, w)) && (Order(v, w) > 0 <==> Precedes(w, v))
    {
      CompareZeroIff(v, w);
      CompareLessIff(v, w);
    }
  }

  lemma OperatorIs(src: string)
    ensures OperatorOf(src, OPERATORS) ==
      if "===" <= src then Some(Arbitrary)
      else if "==" <= src then Some(Eq)
      else if "!=" <= src then Some(Neq)
      else if "<=" <= src then Some(Lte)
      else if ">=" <= src then Some(Gte)
      else if "~=" <= src then Some(Compat)
      else if "<" <= src then Some(Lt)
      else if ">" <= src then Some(Gt)
      else None
    ensures OperatorOf(src, OPERATORS).Some? ==>
      |Token(OperatorOf(src, OPERATORS).value)| ==
        match OperatorOf(src, OPERATORS).value case Arbitrary => 3 case Lt => 1 case Gt => 1 case _ => 2
  {
    hide OperatorOf;
    var short := [Lt] + ([Gt] + []);
    var medium := [Neq] + ([Lte] + ([Gte] + ([Compat] + short)));
    assert OPERATORS == [Arbitrary] + ([Eq] + medium);
    OperatorStep(src, Arbitrary, [Eq] + medium);
    OperatorStep(src, Eq, medium);
    OperatorStep(src, Neq, [Lte] + ([Gte] + ([Compat] + short)));
    OperatorStep(src, Lte, [Gte] + ([Compat] + short));
    OperatorStep(src, Gte, [Compat] + short);
    OperatorStep(src, Compat, short);
    OperatorStep(src, Lt, [Gt] + []);
    OperatorStep(src, Gt, []);
  }

  lemma OperatorStep(src: string, op: Operator, ops: seq<Operator>)
    ensures OperatorOf(src, [op] + ops) == if Token(op) <= src then Some(op) else OperatorOf(src, ops)
    ensures OperatorOf(src, []) == None
  {
    assert ([op] + ops)[1..] == ops;
  }
}
