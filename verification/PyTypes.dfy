// Python type expressions of typemap/pytype.go: the tree, its printed form, and
// the grammar. A string is its bytes.
module PyTypes {
  import opened Options
  import opened Scanning

  datatype PyType =
    | Name(name: string)
    | Attr(base: PyType, attr: string)
    | Subscript(base: PyType, args: seq<PyType>)
    | Tuple(args: seq<PyType>)
    | Union(args: seq<PyType>)
    | Literal(text: string)
    | Ellipsis

  // ---- Printing ----

  function String(t: PyType): string {
    match t
    case Name(n) => n
    case Attr(b, n) => String(b) + "." + n
    case Subscript(b, args) => String(b) + "[" + Joined(args, ", ") + "]"
    case Tuple(args) => "[" + Joined(args, ", ") + "]"
    case Union(args) => Joined(args, " | ")
    case Literal(x) => x
    case Ellipsis => "..."
  }

  function Joined(ts: seq<PyType>, sep: string): string {
    if ts == [] then "" else if |ts| == 1 then String(ts[0]) else String(ts[0]) + sep + Joined(ts[1..], sep)
  }

  // ---- Tokens ----

  // unicode.IsLetter on one byte.
  predicate IsLetter(c: char) {
    var n := c as int;
    'a' <= c <= 'z' || 'A' <= c <= 'Z' || n in {0xAA, 0xB5, 0xBA} || (0xC0 <= n <= 0xFF && n != 0xD7 && n != 0xF7)
  }

  predicate IdentStart(c: char) {
    c == '_' || IsLetter(c)
  }

  predicate IdentCont(c: char) {
    c == '_' || IsLetter(c) || IsDigit(c)
  }

  predicate NumberCont(c: char) {
    IsDigit(c) || c == '.'
  }

  function SkipWS(s: string): (r: string)
    ensures |r| <= |s| && (r != "" ==> !Blank(r[0]))
  {
    s[Span(Blank, s)..]
  }

  // How much of s belongs to a string literal whose opening quote q came just
  // before, with the closing quote.
  function StringLength(s: string, q: char): (r: Option<nat>)
    ensures r.Some? ==> 0 < r.value <= |s|
  {
    if s == "" then None
    else if s[0] == '\\' && |s| > 1 then
      (match StringLength(s[2..], q) case None => None case Some(n) => Some(n + 2))
    else if s[0] == q then Some(1)
    else match StringLength(s[1..], q) case None => None case Some(n) => Some(n + 1)
  }

  const CONSTANTS: seq<string> := ["True", "False", "None"]

  predicate IsIdent(n: string) {
    n != "" && IdentStart(n[0]) && forall i | 1 <= i < |n| :: IdentCont(n[i])
  }

  predicate IsNumber(x: string) {
    x != "" && (x[0] == '-' || IsDigit(x[0])) && forall i | 1 <= i < |x| :: NumberCont(x[i])
  }

  predicate IsQuoted(x: string) {
    x != "" && x[0] in "\"'" && StringLength(x[1..], x[0]) == Some(|x| - 1)
  }

  // ---- The grammar, on what is left of the input ----

  type Parsed<T> = Option<(T, string)>

  function ParseIdent(s: string): (r: Parsed<string>)
    ensures r.Some? ==> |r.value.1| < |s|
  {
    var u := SkipWS(s);
    if u == "" || !IdentStart(u[0]) then None
    else
      var n := 1 + Span(IdentCont, u[1..]);
      Some((u[..n], u[n..]))
  }

  function ParseUnion(s: string): (r: Parsed<PyType>)
    decreases |s|, 3
    ensures r.Some? ==> |r.value.1| < |s|
  {
    match ParsePrimary(s)
    case None => None
    case Some((t, rest)) => UnionTail([t], rest)
  }

  function UnionTail(ts: seq<PyType>, s: string): (r: Parsed<PyType>)
    requires ts != []
    decreases |s|, 3
    ensures r.Some? ==> |r.value.1| <= |s|
  {
    var u := SkipWS(s);
    if u == "" || u[0] != '|' then Some((if |ts| == 1 then ts[0] else Union(ts), u))
    else match ParsePrimary(u[1..])
      case None => None
      case Some((t, rest)) => UnionTail(ts + [t], rest)
  }

  function ParsePrimary(s: string): (r: Parsed<PyType>)
    decreases |s|, 2
    ensures r.Some? ==> |r.value.1| < |s|
  {
    match ParseAtom(s)
    case None => None
    case Some((t, rest)) => PrimaryTail(t, rest)
  }

  function PrimaryTail(t: PyType, s: string): (r: Parsed<PyType>)
    decreases |s|, 2
    ensures r.Some? ==> |r.value.1| <= |s|
  {
    var u := SkipWS(s);
    if u != "" && u[0] == '[' then
      (match ParseArgs([], u[1..])
       case None => None
       case Some((args, rest)) =>
         if rest == "" || rest[0] != ']' then None else PrimaryTail(Subscript(t, args), rest[1..]))
    else if u != "" && u[0] == '.' then
      (match ParseIdent(u[1..])
       case None => None
       case Some((n, rest)) => PrimaryTail(Attr(t, n), rest))
    else Some((t, u))
  }

  // parseArglist, after the arguments ts. What it leaves starts with no blank.
  function ParseArgs(ts: seq<PyType>, s: string): (r: Parsed<seq<PyType>>)
    decreases |s|, 5
    ensures r.Some? ==> |r.value.1| <= |s|
  {
    var u := SkipWS(s);
    if u == "" then None
    else if u[0] == ']' then Some((ts, u))
    else match ParseArg(u)
      case None => None
      case Some((t, rest)) =>
        var v := SkipWS(rest);
        if v != "" && v[0] == ',' then ParseArgs(ts + [t], v[1..]) else Some((ts + [t], v))
  }

  // A type, or the bracketed list of Callable.
  function ParseArg(u: string): (r: Parsed<PyType>)
    decreases |u|, 4
    ensures r.Some? ==> |r.value.1| < |u|
  {
    if u != "" && u[0] == '[' then
      match ParseArgs([], u[1..])
      case None => None
      case Some((inner, rest)) => if rest == "" || rest[0] != ']' then None else Some((Tuple(inner), rest[1..]))
    else ParseUnion(u)
  }

  function ParseAtom(s: string): (r: Parsed<PyType>)
    decreases |s|, 1
    ensures r.Some? ==> |r.value.1| < |s|
  {
    var u := SkipWS(s);
    if u == "" then None
    else if u[0] == '(' then
      (match ParseUnion(u[1..])
       case None => None
       case Some((t, rest)) => if rest == "" || rest[0] != ')' then None else Some((t, rest[1..])))
    else if u[0] == '.' then (if |u| > 2 && u[..3] == "..." then Some((Ellipsis, u[3..])) else None)
    else if u[0] in "\"'" then
      (match StringLength(u[1..], u[0])
       case None => None
       case Some(n) => Some((Literal(u[..n + 1]), u[n + 1..])))
    else if IsDigit(u[0]) || u[0] == '-' then
      var n := 1 + Span(NumberCont, u[1..]);
      Some((Literal(u[..n]), u[n..]))
    else if IdentStart(u[0]) then
      var n := 1 + Span(IdentCont, u[1..]);
      Some((if u[..n] in CONSTANTS then Literal(u[..n]) else Name(u[..n]), u[n..]))
    else None
  }

  // strings.TrimSpace, as far as ASCII goes.
  function IsSpace(c: char): bool {
    c == ' ' || 9 <= c as int <= 13
  }

  function Trim(s: string): string {
    TrimOf(IsSpace, s)
  }

  function ParsePyType(src: string): Option<PyType> {
    match ParseUnion(Trim(src))
    case Some((t, "")) => Some(t)
    case _ => None
  }

  // ---- The grammar, unfolded once ----

  lemma SkipOne(s: string)
    requires s != "" && Blank(s[0])
    ensures SkipWS(s) == SkipWS(s[1..])
  {
  }

  lemma NothingToSkip(s: string)
    requires s == "" || !Blank(s[0])
    ensures SkipWS(s) == s
  {
  }

  lemma UnionTailIs(ts: seq<PyType>, s: string)
    requires ts != []
    ensures var u := SkipWS(s);
      if u == "" || u[0] != '|' then UnionTail(ts, s) == Some((if |ts| == 1 then ts[0] else Union(ts), u))
      else
        var next := ParsePrimary(u[1..]);
        UnionTail(ts, s) == if next.None? then None else UnionTail(ts + [next.value.0], next.value.1)
  {
  }

  lemma PrimaryTailIs(t: PyType, s: string)
    ensures var u := SkipWS(s);
      if u != "" && u[0] == '[' then
        var args := ParseArgs([], u[1..]);
        PrimaryTail(t, s) ==
          if args.None? || args.value.1 == "" || args.value.1[0] != ']' then None
          else PrimaryTail(Subscript(t, args.value.0), args.value.1[1..])
      else if u != "" && u[0] == '.' then
        var name := ParseIdent(u[1..]);
        PrimaryTail(t, s) == if name.None? then None else PrimaryTail(Attr(t, name.value.0), name.value.1)
      else PrimaryTail(t, s) == Some((t, u))
  {
  }

  lemma ParseArgsIs(ts: seq<PyType>, s: string)
    ensures var u := SkipWS(s);
      if u == "" then ParseArgs(ts, s) == None
      else if u[0] == ']' then ParseArgs(ts, s) == Some((ts, u))
      else
        var arg := ParseArg(u);
        if arg.None? then ParseArgs(ts, s) == None
        else
          var v := SkipWS(arg.value.1);
          ParseArgs(ts, s) ==
            if v != "" && v[0] == ',' then ParseArgs(ts + [arg.value.0], v[1..]) else Some((ts + [arg.value.0], v))
  {
  }

  // A parenthesised type, once its inside has been read.
  function Closed(inner: Parsed<PyType>): Parsed<PyType> {
    if inner.None? || inner.value.1 == "" || inner.value.1[0] != ')' then None
    else Some((inner.value.0, inner.value.1[1..]))
  }

  lemma AtomIs(s: string)
    ensures var u := SkipWS(s);
      if u == "" then ParseAtom(s) == None
      else if u[0] == '(' then ParseAtom(s) == Closed(ParseUnion(u[1..]))
      else if u[0] == '.' then
        ParseAtom(s) == if |u| > 2 && u[..3] == "..." then Some((Ellipsis, u[3..])) else None
      else if u[0] == '"' || u[0] == '\'' then
        var n := StringLength(u[1..], u[0]);
        ParseAtom(s) == if n.None? then None else Some((Literal(u[..n.value + 1]), u[n.value + 1..]))
      else if IsDigit(u[0]) || u[0] == '-' then
        var n := 1 + Span(NumberCont, u[1..]);
        ParseAtom(s) == Some((Literal(u[..n]), u[n..]))
      else if IdentStart(u[0]) then
        var n := 1 + Span(IdentCont, u[1..]);
        ParseAtom(s) == Some((if u[..n] in CONSTANTS then Literal(u[..n]) else Name(u[..n]), u[n..]))
      else ParseAtom(s) == None
  {
    hide ParseUnion, StringLength, Span, IdentStart, IdentCont, NumberCont, SkipWS;
  }
}
