// Go's %q and the lines that uv/pylock.go prints, read back by the TOML grammar.
module TomlPrint {
  import opened Options
  import opened TomlTables
  import opened TomlText

  // strconv.IsPrint. No control character is printable.
  type Printable = p: char -> bool | forall c: char :: c as int < 32 ==> !p(c) witness c => c as int >= 32

  // ---- strconv.Quote ----

  function HexDigit(n: nat): char
    requires n < 16
  {
    if n < 10 then ('0' as int + n) as char else ('a' as int + n - 10) as char
  }

  // n in w hexadecimal digits.
  function Hex(n: nat, w: nat): (s: string)
    ensures |s| == w
  {
    if w == 0 then "" else Hex(n / 16, w - 1) + [HexDigit(n % 16)]
  }

  function QuoteChar(p: Printable, c: char): (s: string)
    ensures s != "" && s[0] != '"'
  {
    var n := c as int;
    if c == '"' || c == '\\' then ['\\', c]
    else if p(c) then [c]
    else if n == 7 then "\\a"
    else if n == 8 then "\\b"
    else if n == 12 then "\\f"
    else if n == 10 then "\\n"
    else if n == 13 then "\\r"
    else if n == 9 then "\\t"
    else if n == 11 then "\\v"
    else if n < 32 || n == 127 then "\\x" + Hex(n, 2)
    else if n < 0x10000 then "\\u" + Hex(n, 4)
    else "\\U" + Hex(n, 8)
  }

  function QuoteBody(p: Printable, s: string): string {
    if s == "" then "" else QuoteChar(p, s[0]) + QuoteBody(p, s[1..])
  }

  function Quote(p: Printable, s: string): string {
    "\"" + QuoteBody(p, s) + "\""
  }

  // The characters whose printed form the TOML parser accepts: not those that
  // Go writes as \a, \v, \x.. or \U.........
  predicate Accepted(p: Printable, c: char) {
    var n := c as int;
    c == '"' || c == '\\' || p(c) || n in {8, 9, 10, 12, 13} || (32 <= n < 0x10000 && n != 127)
  }

  predicate Quotable(p: Printable, s: string) {
    forall i | 0 <= i < |s| :: Accepted(p, s[i])
  }

  function Power(w: nat): nat {
    if w == 0 then 1 else 16 * Power(w - 1)
  }

  lemma {:induction false} HexRoundTrip(n: nat, w: nat)
    requires n < Power(w)
    ensures HexNumber(Hex(n, w)) == Some(n)
  {
    if w > 0 {
      HexRoundTrip(n / 16, w - 1);
      var s := Hex(n, w);
      assert s[..|s| - 1] == Hex(n / 16, w - 1);
      assert HexValue(HexDigit(n % 16)) == Some(n % 16);
    }
  }

  // One quoted character and what follows it.
  lemma CharParses(p: Printable, c: char, k: string)
    ensures StringBody('"', QuoteChar(p, c) + k) == if Accepted(p, c) then Prepend(c, StringBody('"', k)) else None
  {
    hide StringBody, Escape, Hex, HexNumber;
    var q := QuoteChar(p, c);
    var s := q + k;
    StringBodyIs(s);
    if |q| == 1 {
      assert s == [c] + k && s[1..] == k;
    } else {
      assert q[0] == '\\' && s[0] == '\\' && s[1..] == q[1..] + k;
      EscapeParses(p, c, k);
    }
  }

  lemma StringBodyIs(s: string)
    ensures StringBody('"', s) ==
      if s == "" then None
      else if s[0] == '"' then Some(("", s[1..]))
      else if s[0] == '\n' then None
      else if s[0] == '\\' then
        if Escape(s[1..]).None? then None
        else Prepend(Escape(s[1..]).value.0, StringBody('"', Escape(s[1..]).value.1))
      else Prepend(s[0], StringBody('"', s[1..]))
  {
  }

  lemma EscapeParses(p: Printable, c: char, k: string)
    requires |QuoteChar(p, c)| > 1
    ensures Escape(QuoteChar(p, c)[1..] + k) == if Accepted(p, c) then Some((c, k)) else None
  {
    var q := QuoteChar(p, c);
    var e := q[1..];
    var s := e + k;
    var n := c as int;
    assert s[0] == q[1];
    if |q| == 2 {
      assert e == [q[1]] && s[1..] == k;
    } else if c != '"' && c != '\\' && !p(c) && 32 <= n < 0x10000 && n != 127 {
      assert e == "u" + Hex(n, 4);
      assert s[1..5] == Hex(n, 4) && s[5..] == k;
      assert Power(4) == 65536;
      HexRoundTrip(n, 4);
    }
  }

  // A quoted string is read back as what it was, exactly when all its characters
  // are accepted.
  lemma {:induction false} BodyParsesIff(p: Printable, s: string, k: string)
    ensures StringBody('"', QuoteBody(p, s) + ("\"" + k)) == if Quotable(p, s) then Some((s, k)) else None
  {
    hide QuoteChar, Accepted, StringBody;
    var rest := "\"" + k;
    if s == "" {
      assert "" + rest == rest && rest[1..] == k;
      StringBodyIs(rest);
    } else {
      var more := QuoteBody(p, s[1..]) + rest;
      assert QuoteBody(p, s) + rest == QuoteChar(p, s[0]) + more;
      CharParses(p, s[0], more);
      BodyParsesIff(p, s[1..], k);
      assert s == [s[0]] + s[1..];
    }
  }

  lemma QuoteParsesIff(p: Printable, s: string, k: string)
    requires k == "" || k[0] != '"'
    ensures ParseString(Quote(p, s) + k) == if Quotable(p, s) then Some((s, k)) else None
  {
    hide QuoteChar, StringBody, Accepted;
    var t := Quote(p, s) + k;
    assert t[1..] == QuoteBody(p, s) + ("\"" + k);
    BodyParsesIff(p, s, k);
    if s == "" {
      assert t[1..] == "\"" + k && t[1..][1..] == k;
    } else {
      assert QuoteBody(p, s)[0] == QuoteChar(p, s[0])[0];
    }
  }

  // ---- Values and lines ----

  datatype Shown =
    | OneString(s: string)
    | StringList(items: seq<string>)
    | StringTable(entries: seq<(string, string)>)

  datatype Line =
    | Comment(text: string)
    | Empty
    | Pair(key: string, value: Shown)
    | Header(path: seq<string>)
    | ArrayHeader(path: seq<string>)

  function ListText(p: Printable, items: seq<string>): string {
    if items == [] then "" else if |items| == 1 then Quote(p, items[0])
    else Quote(p, items[0]) + ", " + ListText(p, items[1..])
  }

  function EntryText(p: Printable, e: (string, string)): string {
    e.0 + " = " + Quote(p, e.1)
  }

  function EntriesText(p: Printable, es: seq<(string, string)>): string {
    if es == [] then "" else if |es| == 1 then EntryText(p, es[0])
    else EntryText(p, es[0]) + ", " + EntriesText(p, es[1..])
  }

  function ShownText(p: Printable, v: Shown): string {
    match v
    case OneString(s) => Quote(p, s)
    case StringList(items) => "[" + ListText(p, items) + "]"
    case StringTable(es) => "{" + EntriesText(p, es) + "}"
  }

  function PathText(path: seq<string>): string {
    if path == [] then "" else if |path| == 1 then path[0] else path[0] + "." + PathText(path[1..])
  }

  // A line without its newline.
  function LineText(p: Printable, l: Line): string {
    match l
    case Comment(text) => "#" + text
    case Empty => ""
    case Pair(key, v) => key + " = " + ShownText(p, v)
    case Header(path) => "[" + PathText(path) + "]"
    case ArrayHeader(path) => "[[" + PathText(path) + "]]"
  }

  function LinesText(p: Printable, ls: seq<Line>): string {
    if ls == [] then "" else LineText(p, ls[0]) + "\n" + LinesText(p, ls[1..])
  }

  // ---- What the lines mean ----

  function Strings(ss: seq<string>): (vs: seq<Value>)
    ensures |vs| == |ss| && forall i | 0 <= i < |ss| :: vs[i] == Str(ss[i])
  {
    if ss == [] then [] else [Str(ss[0])] + Strings(ss[1..])
  }

  // The entries, added to t.
  function TableOf(t: Table, es: seq<(string, string)>): Table
    decreases |es|
  {
    if es == [] then t else TableOf(t[es[0].0 := Str(es[0].1)], es[1..])
  }

  function Meaning(v: Shown): Value {
    match v
    case OneString(s) => Str(s)
    case StringList(items) => Items(Strings(items))
    case StringTable(es) => Sub(TableOf(map[], es))
  }

  function RunLine(d: Doc, l: Line): Option<Doc> {
    match l
    case Comment(_) => Some(d)
    case Empty => Some(d)
    case Pair(key, v) => SetKey(d, key, Meaning(v))
    case Header(path) => OpenTable(d, path)
    case ArrayHeader(path) => OpenArray(d, path)
  }

  function RunLines(d: Doc, ls: seq<Line>): Option<Doc>
    decreases |ls|
  {
    if ls == [] then Some(d)
    else match RunLine(d, ls[0])
      case None => None
      case Some(d') => RunLines(d', ls[1..])
  }

  // ---- Which lines can be read back ----

  predicate BareKey(k: string) {
    k != "" && forall i | 0 <= i < |k| :: KeyChar(k[i])
  }

  predicate BareKeys(ks: seq<string>) {
    forall i | 0 <= i < |ks| :: BareKey(ks[i])
  }

  predicate AllQuotable(p: Printable, ss: seq<string>) {
    forall i | 0 <= i < |ss| :: Quotable(p, ss[i])
  }

  predicate GoodEntries(p: Printable, es: seq<(string, string)>) {
    && (forall i | 0 <= i < |es| :: BareKey(es[i].0) && Quotable(p, es[i].1))
    && (forall i, j | 0 <= i < j < |es| :: es[i].0 != es[j].0)
  }

  predicate GoodShown(p: Printable, v: Shown) {
    match v
    case OneString(s) => Quotable(p, s)
    case StringList(items) => AllQuotable(p, items)
    case StringTable(es) => GoodEntries(p, es)
  }

  predicate GoodLine(p: Printable, l: Line) {
    match l
    case Comment(text) => '\n' !in text
    case Empty => true
    case Pair(key, v) => BareKey(key) && GoodShown(p, v)
    case Header(path) => path != [] && BareKeys(path)
    case ArrayHeader(path) => path != [] && BareKeys(path)
  }
}
