// The parser of typemap/pytype.go as it runs: one position that moves forward.
module PyTypeParser {
  import opened Options
  import opened Scanning
  import P = PyTypes

  type PyType = P.PyType

  // A method's result and the input it left are what the grammar says.
  predicate Reads<T(==)>(r: Option<T>, spec: P.Parsed<T>, left: string) {
    match spec
    case None => r.None?
    case Some((t, rest)) => r == Some(t) && left == rest
  }

  class PyParser {
    const src: string
    var pos: nat

    constructor (src: string)
      ensures this.src == src && pos == 0
    {
      this.src, pos := src, 0;
    }

    predicate Valid()
      reads this
    {
      pos <= |src|
    }

    function Left(): string
      requires Valid()
      reads this
    {
      src[pos..]
    }

    method SkipWS()
      requires Valid()
      modifies this
      ensures Valid() && Left() == P.SkipWS(old(Left()))
    {
      ghost var s := Left();
      while pos < |src| && (src[pos] == ' ' || src[pos] == '\t')
        invariant Valid() && P.SkipWS(Left()) == P.SkipWS(s)
        decreases |src| - pos
      {
        P.SkipOne(Left());
        assert Left()[1..] == src[pos + 1..];
        pos := pos + 1;
      }
      P.NothingToSkip(Left());
    }

    // Moves past the longest run of characters with p.
    method Take(p: char -> bool)
      requires Valid()
      modifies this
      ensures Valid() && pos == old(pos) + Span(p, old(Left()))
    {
      ghost var start := pos;
      while pos < |src| && p(src[pos])
        invariant Valid() && pos - start + Span(p, Left()) == Span(p, src[start..])
        decreases |src| - pos
      {
        assert Left()[1..] == src[pos + 1..];
        pos := pos + 1;
      }
    }

    method ParseUnion() returns (r: Option<PyType>)
      requires Valid()
      modifies this
      ensures Valid() && Reads(r, P.ParseUnion(old(Left())), Left())
      decreases |Left()|, 3
    {
      hide P.ParsePrimary, P.SkipWS, P.UnionTail;
      ghost var s := Left();
      var first := ParsePrimary();
      if first.None? {
        return None;
      }
      var branches := [first.value];
      while true
        invariant Valid() && branches != [] && |Left()| < |s|
        invariant P.ParseUnion(s) == P.UnionTail(branches, Left())
        decreases |Left()|
      {
        P.UnionTailIs(branches, Left());
        SkipWS();
        if pos >= |src| || src[pos] != '|' {
          break;
        }
        assert Left()[1..] == src[pos + 1..];
        pos := pos + 1;
        var next := ParsePrimary();
        if next.None? {
          return None;
        }
        branches := branches + [next.value];
      }
      return Some(if |branches| == 1 then branches[0] else P.Union(branches));
    }

    method ParsePrimary() returns (r: Option<PyType>)
      requires Valid()
      modifies this
      ensures Valid() && Reads(r, P.ParsePrimary(old(Left())), Left())
      decreases |Left()|, 2
    {
      hide P.ParseAtom, P.SkipWS, P.PrimaryTail, P.ParseArgs, P.ParseIdent;
      ghost var s := Left();
      r := ParseAtom();
      if r.None? {
        return;
      }
      var atom := r.value;
      while true
        invariant Valid() && |Left()| < |s|
        invariant P.ParsePrimary(s) == P.PrimaryTail(atom, Left())
        decreases |Left()|
      {
        P.PrimaryTailIs(atom, Left());
        SkipWS();
        if pos >= |src| {
          return Some(atom);
        }
        assert Left()[1..] == src[pos + 1..];
        if src[pos] == '[' {
          pos := pos + 1;
          var args := ParseArgs();
          if args.None? || pos >= |src| || src[pos] != ']' {
            return None;
          }
          assert Left()[1..] == src[pos + 1..];
          pos := pos + 1;
          atom := P.Subscript(atom, args.value);
        } else if src[pos] == '.' {
          pos := pos + 1;
          var name := ParseIdent();
          if name.None? {
            return None;
          }
          atom := P.Attr(atom, name.value);
        } else {
          return Some(atom);
        }
      }
    }

    method ParseArgs() returns (r: Option<seq<PyType>>)
      requires Valid()
      modifies this
      ensures Valid() && Reads(r, P.ParseArgs([], old(Left())), Left())
      decreases |Left()|, 5
    {
      hide P.ParseArgs, P.ParseArg, P.SkipWS;
      ghost var s := Left();
      var args: seq<PyType> := [];
      while true
        invariant Valid() && |Left()| <= |s|
        invariant P.ParseArgs([], s) == P.ParseArgs(args, Left())
        decreases |Left()|
      {
        P.ParseArgsIs(args, Left());
        SkipWS();
        if pos >= |src| {
          return None;
        }
        if src[pos] == ']' {
          return Some(args);
        }
        var arg := ParseArg();
        if arg.None? {
          return None;
        }
        args := args + [arg.value];
        SkipWS();
        if pos < |src| && src[pos] == ',' {
          assert Left()[1..] == src[pos + 1..];
          pos := pos + 1;
        } else {
          return Some(args);
        }
      }
    }

    method ParseArg() returns (r: Option<PyType>)
      requires Valid()
      modifies this
      ensures Valid() && Reads(r, P.ParseArg(old(Left())), Left())
      decreases |Left()|, 4
    {
      hide P.ParseArgs, P.ParseUnion;
      if pos < |src| && src[pos] == '[' {
        assert Left()[1..] == src[pos + 1..];
        pos := pos + 1;
        var inner := ParseArgs();
        if inner.None? || pos >= |src| || src[pos] != ']' {
          return None;
        }
        assert Left()[1..] == src[pos + 1..];
        pos := pos + 1;
        return Some(P.Tuple(inner.value));
      }
      r := ParseUnion();
    }

    // One character, and the longest run of characters with p after it.
    method TakeToken(p: char -> bool) returns (text: string)
      requires pos < |src|
      modifies this
      ensures Valid()
      ensures var u := old(src[pos..]);
        var n := 1 + Span(p, u[1..]);
        text == u[..n] && Left() == u[n..]
    {
      hide Span;
      var start := pos;
      ghost var u := src[pos..];
      assert u[1..] == src[pos + 1..];
      pos := pos + 1;
      Take(p);
      text := src[start..pos];
      assert text == u[..pos - start] && Left() == u[pos - start..];
    }

    method ParseIdent() returns (r: Option<string>)
      requires Valid()
      modifies this
      ensures Valid() && Reads(r, P.ParseIdent(old(Left())), Left())
    {
      hide Span, P.IdentStart, P.IdentCont, P.SkipWS;
      SkipWS();
      if pos >= |src| || !P.IdentStart(src[pos]) {
        return None;
      }
      ghost var u := Left();
      var name := TakeToken(P.IdentCont);
      return Some(name);
    }

    method ParseAtom() returns (r: Option<PyType>)
      requires Valid()
      modifies this
      ensures Valid() && Reads(r, P.ParseAtom(old(Left())), Left())
      decreases |Left()|, 1
    {
      hide P.ParseUnion, P.StringLength, Span, P.IdentStart, P.IdentCont, P.NumberCont, P.ParseAtom, P.SkipWS;
      P.AtomIs(Left());
      SkipWS();
      if pos >= |src| {
        return None;
      }
      var c := src[pos];
      if c == '(' {
        r := ParseGroup();
      } else if c == '.' {
        r := ParseEllipsis();
      } else if c == '"' || c == '\'' {
        r := ParseStringLiteral();
      } else if IsDigit(c) || c == '-' {
        var text := TakeToken(P.NumberCont);
        return Some(P.Literal(text));
      } else if P.IdentStart(c) {
        var name := TakeToken(P.IdentCont);
        return Some(if name in P.CONSTANTS then P.Literal(name) else P.Name(name));
      } else {
        return None;
      }
    }

    method ParseGroup() returns (r: Option<PyType>)
      requires pos < |src|
      modifies this
      ensures Valid() && Reads(r, P.Closed(P.ParseUnion(old(src[pos..])[1..])), Left())
      decreases |src| - pos, 0
    {
      hide P.ParseUnion;
      assert src[pos..][1..] == src[pos + 1..];
      pos := pos + 1;
      var inner := ParseUnion();
      if inner.None? || pos >= |src| || src[pos] != ')' {
        return None;
      }
      assert Left()[1..] == src[pos + 1..];
      pos := pos + 1;
      return inner;
    }

    method ParseEllipsis() returns (r: Option<PyType>)
      requires pos < |src| && src[pos] == '.'
      modifies this
      ensures Valid()
      ensures var u := old(src[pos..]);
        if |u| > 2 && u[..3] == "..." then r == Some(P.Ellipsis) && Left() == u[3..] else r == None
    {
      ghost var u := src[pos..];
      if pos + 2 < |src| && src[pos + 1] == '.' && src[pos + 2] == '.' {
        assert u[..3] == "...";
        assert u[3..] == src[pos + 3..];
        pos := pos + 3;
        return Some(P.Ellipsis);
      }
      assert |u| > 2 ==> u[..3][1] == src[pos + 1] && u[..3][2] == src[pos + 2];
      return None;
    }

    method ParseStringLiteral() returns (r: Option<PyType>)
      requires pos < |src|
      modifies this
      ensures Valid()
      ensures var u := old(src[pos..]);
        match P.StringLength(u[1..], u[0])
        case None => r == None
        case Some(n) => r == Some(P.Literal(u[..n + 1])) && Left() == u[n + 1..]
    {
      hide P.StringLength;
      var q, start := src[pos], pos;
      ghost var u := src[pos..];
      pos := pos + 1;
      assert u[1..] == Left();
      while pos < |src|
        invariant Valid() && start < pos
        invariant match P.StringLength(Left(), q)
          case None => P.StringLength(u[1..], q) == None
          case Some(n) => P.StringLength(u[1..], q) == Some(n + pos - start - 1)
        decreases |src| - pos
      {
        ghost var s := Left();
        StringLengthIs(s, q);
        assert s[1..] == src[pos + 1..];
        if src[pos] == '\\' && pos + 1 < |src| {
          assert s[2..] == src[pos + 2..];
          pos := pos + 2;
          continue;
        }
        if src[pos] == q {
          pos := pos + 1;
          assert src[start..pos] == u[..pos - start] && Left() == u[pos - start..];
          return Some(P.Literal(src[start..pos]));
        }
        pos := pos + 1;
      }
      StringLengthIs(Left(), q);
      return None;
    }
  }

  method ParsePyType(src: string) returns (r: Option<PyType>)
    ensures r == P.ParsePyType(src)
  {
    hide P.ParseUnion, P.Trim, P.SkipWS;
    var p := new PyParser(P.Trim(src));
    assert p.Left() == p.src;
    r := p.ParseUnion();
    if r.Some? {
      ghost var left := p.Left();
      NothingToSkipAfter(P.Trim(src));
      p.SkipWS();
      if p.pos < |p.src| {
        assert left != "";
        return None;
      }
    }
  }

  lemma StringLengthIs(s: string, q: char)
    ensures s == "" ==> P.StringLength(s, q) == None
    ensures s != "" ==>
      var escape := s[0] == '\\' && |s| > 1;
      var n := if escape then 2 else 1;
      if !escape && s[0] == q then P.StringLength(s, q) == Some(1)
      else
        var rest := P.StringLength(s[n..], q);
        P.StringLength(s, q) == if rest.None? then None else Some(rest.value + n)
  {
  }

  // What parseUnion leaves starts with no blank.
  lemma NothingToSkipAfter(s: string)
    ensures P.ParseUnion(s).Some? ==> P.SkipWS(P.ParseUnion(s).value.1) == P.ParseUnion(s).value.1
  {
    match P.ParsePrimary(s)
    case None =>
    case Some((t, rest)) => NoBlankAfterUnion([t], rest);
  }

  lemma {:induction false} NoBlankAfterUnion(ts: seq<PyType>, s: string)
    requires ts != []
    ensures P.UnionTail(ts, s).Some? ==> P.SkipWS(P.UnionTail(ts, s).value.1) == P.UnionTail(ts, s).value.1
    decreases |s|
  {
    var u := P.SkipWS(s);
    if u != "" && u[0] == '|' && P.ParsePrimary(u[1..]).Some? {
      var (t, rest) := P.ParsePrimary(u[1..]).value;
      NoBlankAfterUnion(ts + [t], rest);
    } else {
      P.NothingToSkip(u);
    }
  }
}
