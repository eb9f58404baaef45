// The grammar of toml/parser.go, on what is left of the input. A string is its
// characters; positions for error messages are not kept.
module TomlText {
  import opened Options
  import opened Scanning
  import opened TomlTables

  type Parsed<T> = Option<(T, string)>

  predicate At(s: string, c: char) {
    s != "" && s[0] == c
  }

  function After(p: char -> bool, s: string): (r: string)
    ensures |r| <= |s| && (r != "" ==> !p(r[0]))
  {
    s[Span(p, s)..]
  }

  function White(c: char): bool {
    c == ' ' || c == '\t' || c == '\n' || c == '\r'
  }

  function NotNewline(c: char): bool {
    c != '\n'
  }

  function KeyChar(c: char): bool {
    'a' <= c <= 'z' || 'A' <= c <= 'Z' || IsDigit(c) || c == '_' || c == '-'
  }

  // skipWSAndComments.
  function SkipAll(s: string): (r: string)
    decreases |s|
    ensures |r| <= |s|
  {
    var u := After(White, s);
    if At(u, '#') then SkipAll(After(NotNewline, u[1..])) else u
  }

  // skipLineEnd.
  function SkipLineEnd(s: string): (r: Option<string>)
    ensures r.Some? ==> |r.value| <= |s|
  {
    var u := After(Blank, s);
    var v := if At(u, '#') then After(NotNewline, u) else u;
    var w := if At(v, '\r') then v[1..] else v;
    if w == "" then Some(w) else if w[0] == '\n' then Some(w[1..]) else None
  }

  // ---- Strings ----

  function HexValue(c: char): Option<nat> {
    if IsDigit(c) then Some(c as int - '0' as int)
    else if 'a' <= c <= 'f' then Some(c as int - 'a' as int + 10)
    else if 'A' <= c <= 'F' then Some(c as int - 'A' as int + 10)
    else None
  }

  function HexNumber(s: string): Option<nat> {
    if s == "" then Some(0)
    else match (HexNumber(s[..|s| - 1]), HexValue(s[|s| - 1]))
      case (Some(m), Some(n)) => Some(16 * m + n)
      case _ => None
  }

  lemma {:induction false} HexNumberBound(s: string)
    requires |s| <= 4
    ensures HexNumber(s).Some? ==>
      HexNumber(s).value <
      if |s| == 0 then 1 else if |s| == 1 then 16 else if |s| == 2 then 256 else if |s| == 3 then 4096 else 65536
  {
    if s != "" {
      HexNumberBound(s[..|s| - 1]);
    }
  }

  // WriteRune: half of a surrogate pair is no character.
  function Rune(n: nat): char
    requires n < 0x10000
  {
    if 0xD800 <= n < 0xE000 then 0xFFFD as char else n as char
  }

  // The character of an escape sequence, after its backslash.
  function Escape(s: string): (r: Parsed<char>)
    ensures r.Some? ==> |r.value.1| < |s|
  {
    if s == "" then None
    else match s[0]
      case '"' => Some(('"', s[1..]))
      case '\\' => Some(('\\', s[1..]))
      case 'n' => Some(('\n', s[1..]))
      case 't' => Some(('\t', s[1..]))
      case 'r' => Some(('\r', s[1..]))
      case '/' => Some(('/', s[1..]))
      case 'b' => Some((8 as char, s[1..]))
      case 'f' => Some((12 as char, s[1..]))
      case 'u' =>
        if |s| < 5 || HexNumber(s[1..5]).None? then None
        else
          HexNumberBound(s[1..5]);
          Some((Rune(HexNumber(s[1..5]).value), s[5..]))
      case _ => None
  }

  function Prepend(c: char, r: Parsed<string>): Parsed<string> {
    match r case None => None case Some((t, rest)) => Some(([c] + t, rest))
  }

  // What follows the opening quote q of a string that is not empty.
  function StringBody(q: char, s: string): (r: Parsed<string>)
    decreases |s|
    ensures r.Some? ==> |r.value.1| < |s|
  {
    if s == "" then None
    else if s[0] == q then Some(("", s[1..]))
    else if s[0] == '\n' then None
    else if q == '"' && s[0] == '\\' then
      (match Escape(s[1..])
       case None => None
       case Some((c, rest)) => Prepend(c, StringBody(q, rest)))
    else Prepend(s[0], StringBody(q, s[1..]))
  }

  function ParseString(s: string): (r: Parsed<string>)
    requires At(s, '"') || At(s, '\'')
    ensures r.Some? ==> |r.value.1| < |s|
  {
    var q, body := s[0], s[1..];
    if !At(body, q) then StringBody(q, body)
    else if At(body[1..], q) then None
    else Some(("", body[1..]))
  }

  // ---- Keys and values ----

  function ParseKey(s: string): (r: Parsed<string>)
    ensures r.Some? ==> |r.value.1| < |s|
  {
    if At(s, '"') || At(s, '\'') then ParseString(s)
    else
      var n := Span(KeyChar, s);
      if n == 0 then None else Some((s[..n], s[n..]))
  }

  // parseKeyPath, after the keys ks.
  function ParseKeyPath(ks: seq<string>, s: string): (r: Parsed<seq<string>>)
    decreases |s|
    ensures r.Some? ==> |r.value.1| < |s|
  {
    match ParseKey(After(Blank, s))
    case None => None
    case Some((k, rest)) =>
      var u := After(Blank, rest);
      if At(u, '.') then ParseKeyPath(ks + [k], u[1..]) else Some((ks + [k], u))
  }

  function DigitOrBar(c: char): bool {
    IsDigit(c) || c == '_'
  }

  function WithoutBars(s: string): string {
    if s == "" then "" else (if s[0] == '_' then "" else [s[0]]) + WithoutBars(s[1..])
  }

  function SkipSign(s: string): (r: string)
    ensures |r| <= |s|
  {
    if At(s, '+') || At(s, '-') then s[1..] else s
  }

  // What follows a number.
  function NumberRest(s: string): (r: Option<string>)
    ensures r.Some? ==> |r.value| < |s|
  {
    var u := SkipSign(s);
    if u == "" || !IsDigit(u[0]) then None
    else
      var v := After(DigitOrBar, u);
      if v != "" && v[0] in "xobXOB" then None
      else
        var w := if At(v, '.') then After(IsDigit, v[1..]) else v;
        Some(if At(w, 'e') || At(w, 'E') then After(IsDigit, SkipSign(w[1..])) else w)
  }

  // parseNumber, up to what strconv makes of the digits.
  function ParseNumber(s: string): (r: Parsed<Value>)
    ensures r.Some? ==> |r.value.1| < |s|
  {
    match NumberRest(s)
    case None => None
    case Some(x) => Some((Number(WithoutBars(s[..|s| - |x|])), x))
  }

  function ParseBool(s: string): (r: Parsed<Value>)
    ensures r.Some? ==> |r.value.1| < |s|
  {
    if |s| >= 4 && s[..4] == "true" then Some((Boolean(true), s[4..]))
    else if |s| >= 5 && s[..5] == "false" then Some((Boolean(false), s[5..]))
    else None
  }

  function ParseValue(s: string): (r: Parsed<Value>)
    decreases |s|, 1
    ensures r.Some? ==> |r.value.1| < |s|
  {
    if s == "" then None
    else if s[0] == '"' || s[0] == '\'' then
      (match ParseString(s) case None => None case Some((t, rest)) => Some((Str(t), rest)))
    else if s[0] == '[' then ParseItems([], s[1..])
    else if s[0] == '{' then ParseInline(s[1..])
    else if s[0] == 't' || s[0] == 'f' then ParseBool(s)
    else if s[0] == '-' || s[0] == '+' || IsDigit(s[0]) then ParseNumber(s)
    else None
  }

  // parseArray, after the bracket and the items vs.
  function ParseItems(vs: seq<Value>, s: string): (r: Parsed<Value>)
    decreases |s|, 2
    ensures r.Some? ==> |r.value.1| < |s|
  {
    var u := SkipAll(s);
    if u == "" then None
    else if u[0] == ']' then Some((ArrayOf(vs), u[1..]))
    else match ParseValue(u)
      case None => None
      case Some((v, rest)) =>
        var w := SkipAll(rest);
        if At(w, ',') then ParseItems(vs + [v], w[1..])
        else if At(w, ']') then Some((ArrayOf(vs + [v]), w[1..]))
        else None
  }

  // parseInlineTable, after the brace.
  function ParseInline(s: string): (r: Parsed<Value>)
    decreases |s|, 3
    ensures r.Some? ==> |r.value.1| < |s|
  {
    var u := After(Blank, s);
    if At(u, '}') then Some((Sub(map[]), u[1..])) else ParseEntries(map[], u)
  }

  function ParseEntries(t: Table, s: string): (r: Parsed<Value>)
    decreases |s|, 2
    ensures r.Some? ==> |r.value.1| < |s|
  {
    match ParsePair(s)
    case None => None
    case Some(((k, v), rest)) =>
      if k in t then None
      else
        var u := After(Blank, rest);
        if At(u, ',') then ParseEntries(t[k := v], u[1..])
        else if At(u, '}') then Some((Sub(t[k := v]), u[1..]))
        else None
  }

  // A key, an equals sign and a value.
  function ParsePair(s: string): (r: Parsed<(string, Value)>)
    decreases |s|, 1
    ensures r.Some? ==> |r.value.1| < |s|
  {
    match ParseKey(After(Blank, s))
    case None => None
    case Some((k, rest)) =>
      var u := After(Blank, rest);
      if !At(u, '=') then None
      else match ParseValue(After(Blank, u[1..]))
        case None => None
        case Some((v, w)) => Some(((k, v), w))
  }

  // ---- Documents ----

  // A table header after its first bracket: whether it is for an array, the
  // path, and what follows the line.
  function ParseHeader(s: string): (r: Parsed<(bool, seq<string>)>)
    ensures r.Some? ==> |r.value.1| < |s|
  {
    var isArray := At(s, '[');
    match ParseKeyPath([], if isArray then s[1..] else s)
    case None => None
    case Some((path, rest)) =>
      if isArray && !At(rest, ']') then None
      else
        var u := if isArray then rest[1..] else rest;
        if !At(u, ']') then None
        else match SkipLineEnd(u[1..])
          case None => None
          case Some(v) => Some(((isArray, path), v))
  }

  function ParseDocument(d: Doc, s: string): Option<Table>
    decreases |s|
  {
    var u := SkipAll(s);
    if u == "" then Some(d.root)
    else match ParseLine(d, u)
      case None => None
      case Some((d', rest)) => ParseDocument(d', rest)
  }

  // A header or a key/value line.
  function ParseLine(d: Doc, u: string): (r: Parsed<Doc>)
    requires u != ""
    ensures r.Some? ==> |r.value.1| < |u|
  {
    if u[0] == '[' then
      match ParseHeader(u[1..])
      case None => None
      case Some(((isArray, path), rest)) =>
        var d' := if isArray then OpenArray(d, path) else OpenTable(d, path);
        if d'.None? then None else Some((d'.value, rest))
    else
      match ParsePair(u)
      case None => None
      case Some(((k, v), rest)) =>
        match (SetKey(d, k, v), SkipLineEnd(rest))
        case (Some(d'), Some(w)) => Some((d', w))
        case _ => None
  }

  function Parse(src: string): Option<Table> {
    ParseDocument(Doc(map[], []), src)
  }

  // ---- The grammar, unfolded once ----

  lemma ItemsIs(vs: seq<Value>, s: string)
    ensures var u := SkipAll(s);
      if u == "" then ParseItems(vs, s) == None
      else if u[0] == ']' then ParseItems(vs, s) == Some((ArrayOf(vs), u[1..]))
      else
        var v := ParseValue(u);
        if v.None? then ParseItems(vs, s) == None
        else
          var w := SkipAll(v.value.1);
          ParseItems(vs, s) ==
            if w != "" && w[0] == ',' then ParseItems(vs + [v.value.0], w[1..])
            else if w != "" && w[0] == ']' then Some((ArrayOf(vs + [v.value.0]), w[1..]))
            else None
  {
    hide ParseValue, SkipAll, ArrayOf;
  }

  lemma PairIs(s: string)
    ensures var key := ParseKey(After(Blank, s));
      if key.None? then ParsePair(s) == None
      else
        var u := After(Blank, key.value.1);
        if u == "" || u[0] != '=' then ParsePair(s) == None
        else
          var v := ParseValue(After(Blank, u[1..]));
          ParsePair(s) == if v.None? then None else Some(((key.value.0, v.value.0), v.value.1))
  {
    hide ParseKey, ParseValue, After;
  }

  lemma EntriesIs(t: Table, s: string)
    ensures var e := ParsePair(s);
      if e.None? || e.value.0.0 in t then ParseEntries(t, s) == None
      else
        var t' := t[e.value.0.0 := e.value.0.1];
        var u := After(Blank, e.value.1);
        ParseEntries(t, s) ==
          if u != "" && u[0] == ',' then ParseEntries(t', u[1..])
          else if u != "" && u[0] == '}' then Some((Sub(t'), u[1..]))
          else None
  {
    hide ParsePair, After;
  }

  lemma KeyPathIs(ks: seq<string>, s: string)
    ensures var key := ParseKey(After(Blank, s));
      if key.None? then ParseKeyPath(ks, s) == None
      else
        var u := After(Blank, key.value.1);
        ParseKeyPath(ks, s) ==
          if At(u, '.') then ParseKeyPath(ks + [key.value.0], u[1..]) else Some((ks + [key.value.0], u))
  {
    hide ParseKey, After;
  }

  lemma HeaderIs(s: string)
    ensures var isArray := At(s, '[');
      (isArray ==> s != "") &&
      var p := ParseKeyPath([], if isArray then s[1..] else s);
      if p.None? || (isArray && !At(p.value.1, ']')) then ParseHeader(s) == None
      else
        (isArray ==> p.value.1 != "") &&
        var u := if isArray then p.value.1[1..] else p.value.1;
        if !At(u, ']') then ParseHeader(s) == None
        else
          u != "" &&
          var v := SkipLineEnd(u[1..]);
          ParseHeader(s) == if v.None? then None else Some(((isArray, p.value.0), v.value))
  {
    hide ParseKeyPath, SkipLineEnd;
  }

  lemma PairLineIs(d: Doc, s: string)
    requires s != "" && s[0] != '['
    ensures ParseLine(d, s) ==
      if ParsePair(s).None? then None
      else
        var d' := SetKey(d, ParsePair(s).value.0.0, ParsePair(s).value.0.1);
        var rest := SkipLineEnd(ParsePair(s).value.1);
        if d'.None? || rest.None? then None else Some((d'.value, rest.value))
  {
    hide ParsePair, SetKey, SkipLineEnd;
  }

  // One step of StringBody, inside the string.
  lemma StringBodyStep(q: char, s: string)
    ensures StringBody(q, s) ==
      if s == "" then None
      else if s[0] == q then Some(("", s[1..]))
      else if s[0] == '\n' then None
      else if q == '"' && s[0] == '\\' then
        var e := Escape(s[1..]);
        if e.None? then None else Prepend(e.value.0, StringBody(q, e.value.1))
      else Prepend(s[0], StringBody(q, s[1..]))
  {
  }

  lemma DocumentStep(d: Doc, s: string)
    ensures var u := SkipAll(s);
      ParseDocument(d, s) ==
        if u == "" then Some(d.root)
        else
          var l := ParseLine(d, u);
          if l.None? then None else ParseDocument(l.value.0, l.value.1)
  {
    hide SkipAll, ParseLine;
  }

  lemma LineStep(d: Doc, u: string)
    requires u != "" && u[0] == '['
    ensures var h := ParseHeader(u[1..]);
      ParseLine(d, u) ==
        if h.None? then None
        else
          var d' := if h.value.0.0 then OpenArray(d, h.value.0.1) else OpenTable(d, h.value.0.1);
          if d'.None? then None else Some((d'.value, h.value.1))
  {
    hide ParseHeader, OpenArray, OpenTable;
  }

  lemma ValueStep(s: string)
    requires s != ""
    ensures s[0] == '"' || s[0] == '\'' ==>
      ParseValue(s) ==
        if ParseString(s).None? then None else Some((Str(ParseString(s).value.0), ParseString(s).value.1))
    ensures s[0] == '[' ==> ParseValue(s) == ParseItems([], s[1..])
    ensures s[0] == '{' ==> ParseValue(s) == ParseInline(s[1..])
    ensures s[0] == 't' || s[0] == 'f' ==> ParseValue(s) == ParseBool(s)
    ensures s[0] == '-' || s[0] == '+' || IsDigit(s[0]) ==> ParseValue(s) == ParseNumber(s)
    ensures s[0] !in "\"'[{tf-+" && !IsDigit(s[0]) ==> ParseValue(s) == None
  {
    hide ParseString, ParseItems, ParseInline, ParseBool, ParseNumber;
  }

  lemma InlineStep(s: string)
    ensures var u := After(Blank, s);
      ParseInline(s) == if At(u, '}') then Some((Sub(map[]), u[1..])) else ParseEntries(map[], u)
  {
    hide ParseEntries;
  }

  lemma {:induction false} AfterStep(p: char -> bool, s: string)
    ensures After(p, s) == if s != "" && p(s[0]) then After(p, s[1..]) else s
  {
  }

  lemma SkipAllStep(s: string)
    ensures var u := After(White, s);
      SkipAll(s) == if At(u, '#') then SkipAll(After(NotNewline, u[1..])) else u
  {
  }

  // A comment is skipped up to its newline.
  lemma CommentIsSkipped(text: string, rest: string)
    requires '\n' !in text
    ensures SkipAll("#" + (text + ("\n" + rest))) == SkipAll(rest)
  {
    var tail := "\n" + rest;
    forall i | 0 <= i < |text| ensures NotNewline(text[i]) {
      assert text[i] in text;
    }
    SpanIs(NotNewline, text, tail);
    hide Span, NotNewline;
    AfterNothing("#" + (text + tail));
    AfterNewline(rest);
    SkipComment(text + tail, tail);
  }

  lemma AfterNothing(s: string)
    requires s != "" && s[0] == '#'
    ensures After(White, s) == s
  {
  }

  lemma AfterNewline(rest: string)
    ensures After(White, "\n" + rest) == After(White, rest)
  {
    assert ("\n" + rest)[1..] == rest;
  }

  lemma SkipComment(text: string, tail: string)
    requires After(White, "#" + text) == "#" + text && After(NotNewline, text) == tail
    ensures SkipAll("#" + text) == SkipAll(tail)
  {
    hide After, NotNewline;
    assert ("#" + text)[1..] == text;
  }

  // The bars between the digits of a number are dropped, and nothing else.
  lemma {:induction false} BarsAreDropped(s: string)
    ensures '_' !in WithoutBars(s)
    ensures forall c | c != '_' :: multiset(WithoutBars(s))[c] == multiset(s)[c]
    ensures '_' !in s ==> WithoutBars(s) == s
  {
    if s != "" {
      BarsAreDropped(s[1..]);
      assert s == [s[0]] + s[1..];
    }
  }
}
