// The printed lines, read by the grammar, do what the lines mean.
module TomlRoundTrip {
  import opened Options
  import opened Scanning
  import opened TomlTables
  import opened TomlText
  import opened TomlPrint

  // ---- Pieces of text ----

  lemma AfterNone(p: char -> bool, s: string)
    requires s == "" || !p(s[0])
    ensures After(p, s) == s
  {
  }

  lemma AfterOne(p: char -> bool, x: string, s: string)
    requires |x| == 1 && p(x[0])
    ensures After(p, x + s) == After(p, s)
  {
    assert (x + s)[1..] == s;
  }

  // No blank, no comment and no newline to skip.
  predicate Solid(s: string) {
    s == "" || (!White(s[0]) && s[0] != '#')
  }

  lemma SolidIs(s: string)
    requires Solid(s)
    ensures SkipAll(s) == s && After(Blank, s) == s
  {
  }

  lemma KeyCharIsSolid(c: char)
    requires KeyChar(c)
    ensures !White(c) && !Blank(c) && c !in "#[]\"'.=,{}"
  {
  }

  lemma KeyParses(key: string, k: string)
    requires BareKey(key) && (k == "" || !KeyChar(k[0]))
    ensures ParseKey(key + k) == Some((key, k)) && Solid(key + k) && (key + k)[0] != '['
  {
    hide KeyChar;
    KeyCharIsSolid(key[0]);
    SpanIs(KeyChar, key, k);
    Assoc(key, k, "");
  }

  // ---- Values ----

  // What may stand after a value.
  predicate EndsValue(k: string) {
    k != "" && k[0] in "\n,]}"
  }

  lemma StringParses(p: Printable, s: string, k: string)
    requires Quotable(p, s) && EndsValue(k)
    ensures ParseValue(Quote(p, s) + k) == Some((Str(s), k)) && Solid(Quote(p, s) + k)
    ensures (Quote(p, s) + k)[0] == '"'
  {
    hide QuoteBody, ParseString, Quotable;
    QuoteParsesIff(p, s, k);
  }

  lemma {:induction false} ListParses(p: Printable, vs: seq<Value>, items: seq<string>, k: string)
    requires AllQuotable(p, items) && AllStr(vs)
    ensures ParseItems(vs, ListText(p, items) + ("]" + k)) == Some((Items(vs + Strings(items)), k))
    decreases |items|
  {
    hide *;
    ItemsIs(vs, ListText(p, items) + ("]" + k));
    BracketText(k);
    OnlyStrings(vs, items);
    ListTextIs(p, items, "]" + k);
    if items == [] {
      SolidIs("]" + k);
      NoStrings(vs);
    } else {
      var q := Quote(p, items[0]);
      FirstQuotable(p, items);
      if |items| == 1 {
        StringParses(p, items[0], "]" + k);
        SolidIs(q + ("]" + k));
        SolidIs("]" + k);
      } else {
        var more := ListText(p, items[1..]) + ("]" + k);
        CommaText(more);
        StringParses(p, items[0], ", " + more);
        SolidIs(q + (", " + more));
        SolidIs(", " + more);
        ListParses(p, vs + [Str(items[0])], items[1..], k);
        ItemsAfterBlank(vs + [Str(items[0])], more);
      }
    }
  }

  lemma BracketText(k: string)
    ensures var s := "]" + k; s[0] == ']' && s[1..] == k && Solid(s) && EndsValue(s)
  {
  }

  lemma BraceText(k: string)
    ensures var s := "}" + k; s[0] == '}' && s[1..] == k && Solid(s) && EndsValue(s)
  {
  }

  lemma CommaText(s: string)
    ensures var t := ", " + s; t[0] == ',' && t[1..] == " " + s && Solid(t) && EndsValue(t)
  {
  }

  lemma FirstQuotable(p: Printable, items: seq<string>)
    requires items != [] && AllQuotable(p, items)
    ensures Quotable(p, items[0]) && AllQuotable(p, items[1..])
  {
  }

  lemma ListTextIs(p: Printable, items: seq<string>, k: string)
    ensures items == [] ==> ListText(p, items) + k == k
    ensures |items| == 1 ==> ListText(p, items) == Quote(p, items[0])
    ensures |items| > 1 ==> ListText(p, items) + k == Quote(p, items[0]) + (", " + (ListText(p, items[1..]) + k))
  {
    hide Quote;
    if items == [] {
      Assoc("", k, "");
    } else if |items| > 1 {
      Chain(Quote(p, items[0]), ListText(p, items[1..]), k);
    }
  }

  lemma Chain(q: string, r: string, k: string)
    ensures q + ", " + r + k == q + (", " + (r + k))
  {
    Assoc(q + ", ", r, k);
    Assoc(q, ", ", r + k);
  }

  predicate AllStr(vs: seq<Value>) {
    forall i | 0 <= i < |vs| :: vs[i].Str?
  }

  lemma OnlyStrings(vs: seq<Value>, items: seq<string>)
    requires AllStr(vs)
    ensures ArrayOf(vs) == Items(vs)
    ensures items != [] ==>
      var ws := vs + [Str(items[0])];
      ws + Strings(items[1..]) == vs + Strings(items) && AllStr(ws) &&
      ArrayOf(ws) == Items(ws) && (|items| == 1 ==> ws == vs + Strings(items))
  {
    hide ArrayOf;
    NotTables(vs);
    if items != [] {
      var ws := vs + [Str(items[0])];
      NotTables(ws);
      MoreStrings(vs, items);
      if |items| == 1 {
        NoStrings(ws);
        assert items[1..] == [];
      }
    }
  }

  lemma NotTables(vs: seq<Value>)
    requires AllStr(vs)
    ensures ArrayOf(vs) == Items(vs)
  {
    if vs != [] {
      assert vs[0].Str?;
    }
  }

  lemma MoreStrings(vs: seq<Value>, items: seq<string>)
    requires items != []
    ensures vs + [Str(items[0])] + Strings(items[1..]) == vs + Strings(items)
  {
    assert Strings(items) == [Str(items[0])] + Strings(items[1..]);
  }

  lemma NoStrings(vs: seq<Value>)
    ensures vs + Strings([]) == vs
  {
  }

  lemma ItemsAfterBlank(vs: seq<Value>, s: string)
    ensures ParseItems(vs, " " + s) == ParseItems(vs, s)
  {
    hide ParseValue, ArrayOf;
    AfterOne(White, " ", s);
    SkipAllOne(" ", s);
    ItemsIs(vs, s);
    ItemsIs(vs, " " + s);
  }

  lemma SkipAllOne(x: string, s: string)
    requires |x| == 1 && White(x[0])
    ensures SkipAll(x + s) == SkipAll(s)
  {
    AfterOne(White, x, s);
  }

  // ---- Inline tables ----

  // A key, an equals sign between blanks, and the text of a value.
  lemma PairParses(key: string, text: string, v: Value, k: string)
    requires BareKey(key) && text != "" && Solid(text + k) && ParseValue(text + k) == Some((v, k))
    ensures ParsePair(key + " = " + text + k) == Some(((key, v), k))
    ensures Solid(key + " = " + text + k) && (key + " = " + text + k)[0] != '['
  {
    hide *;
    var s := text + k;
    EqualsText(key, text, k);
    PairIs(key + (" = " + s));
    EqualsIs(s);
    KeyParses(key, " = " + s);
    SolidIs(key + (" = " + s));
    SolidIs("= " + s);
    SolidIs(s);
    AfterOne(Blank, " ", "= " + s);
    AfterOne(Blank, " ", s);
  }

  lemma EqualsText(key: string, text: string, k: string)
    ensures key + " = " + text + k == key + (" = " + (text + k))
  {
    assert key + " = " + text == key + (" = " + text);
    assert key + (" = " + text) + k == key + ((" = " + text) + k);
    assert (" = " + text) + k == " = " + (text + k);
  }

  lemma EqualsIs(s: string)
    ensures " = " + s == " " + ("= " + s) && ("= " + s)[0] == '=' && ("= " + s)[1..] == " " + s && Solid("= " + s)
    ensures !KeyChar((" = " + s)[0]) && Blank(" "[0])
  {
  }

  lemma EntryParses(p: Printable, e: (string, string), k: string)
    requires BareKey(e.0) && Quotable(p, e.1) && EndsValue(k)
    ensures ParsePair(EntryText(p, e) + k) == Some(((e.0, Str(e.1)), k))
    ensures Solid(EntryText(p, e) + k) && EntryText(p, e) != "" && !At(EntryText(p, e) + k, '}')
  {
    hide ParsePair, Quotable, BareKey, ParseValue;
    StringParses(p, e.1, k);
    PairParses(e.0, Quote(p, e.1), Str(e.1), k);
    EntryStarts(p, e, k);
  }

  lemma EntryStarts(p: Printable, e: (string, string), k: string)
    requires BareKey(e.0)
    ensures EntryText(p, e) != "" && !At(EntryText(p, e) + k, '}')
  {
    hide Quote;
    KeyCharIsSolid(e.0[0]);
    assert (EntryText(p, e) + k)[0] == e.0[0];
  }

  lemma {:induction false} EntriesParse(p: Printable, t: Table, es: seq<(string, string)>, k: string)
    requires es != [] && GoodEntries(p, es) && forall i | 0 <= i < |es| :: es[i].0 !in t
    ensures ParseEntries(t, EntriesText(p, es) + ("}" + k)) == Some((Sub(TableOf(t, es)), k))
    decreases |es|
  {
    hide *;
    var e := es[0];
    FirstGood(p, t, es);
    EntriesTextIs(p, es, "}" + k);
    EntriesIs(t, EntriesText(p, es) + ("}" + k));
    BraceText(k);
    if |es| == 1 {
      EntryParses(p, e, "}" + k);
      SolidIs("}" + k);
    } else {
      var more := EntriesText(p, es[1..]) + ("}" + k);
      CommaText(more);
      EntryParses(p, e, ", " + more);
      SolidIs(", " + more);
      EntriesParse(p, t[e.0 := Str(e.1)], es[1..], k);
      EntriesAfterBlank(t[e.0 := Str(e.1)], more);
    }
  }

  lemma FirstGood(p: Printable, t: Table, es: seq<(string, string)>)
    requires es != [] && GoodEntries(p, es) && forall i | 0 <= i < |es| :: es[i].0 !in t
    ensures BareKey(es[0].0) && Quotable(p, es[0].1) && GoodEntries(p, es[1..]) && es[0].0 !in t
    ensures var t' := t[es[0].0 := Str(es[0].1)];
      (forall i | 0 <= i < |es[1..]| :: es[1..][i].0 !in t') && TableOf(t, es) == TableOf(t', es[1..]) &&
      (|es| == 1 ==> TableOf(t, es) == t')
  {
  }

  lemma EntriesTextIs(p: Printable, es: seq<(string, string)>, k: string)
    ensures |es| == 1 ==> EntriesText(p, es) == EntryText(p, es[0])
    ensures |es| > 1 ==> EntriesText(p, es) + k == EntryText(p, es[0]) + (", " + (EntriesText(p, es[1..]) + k))
  {
    hide EntryText;
    if |es| > 1 {
      Chain(EntryText(p, es[0]), EntriesText(p, es[1..]), k);
    }
  }

  lemma EntriesAfterBlank(t: Table, s: string)
    ensures ParseEntries(t, " " + s) == ParseEntries(t, s)
  {
    hide ParseKey, ParseValue;
    AfterOne(Blank, " ", s);
    PairIs(s);
    PairIs(" " + s);
    EntriesIs(t, s);
    EntriesIs(t, " " + s);
  }

  lemma InlineParses(p: Printable, es: seq<(string, string)>, k: string)
    requires GoodEntries(p, es)
    ensures ParseInline(EntriesText(p, es) + ("}" + k)) == Some((Sub(TableOf(map[], es)), k))
  {
    hide GoodEntries, EntryText, ParseEntries, TableOf;
    var s := EntriesText(p, es) + ("}" + k);
    BraceText(k);
    if es == [] {
      assert s == "}" + k;
      SolidIs(s);
      NoEntries();
    } else {
      EntriesParse(p, map[], es, k);
      FirstGood(p, map[], es);
      var more := if |es| == 1 then "}" + k else ", " + (EntriesText(p, es[1..]) + ("}" + k));
      EntriesTextIs(p, es, "}" + k);
      CommaText(EntriesText(p, es[1..]) + ("}" + k));
      EntryParses(p, es[0], more);
      SolidIs(s);
    }
  }

  lemma NoEntries()
    ensures TableOf(map[], []) == map[]
  {
  }

  lemma ShownParses(p: Printable, v: Shown, k: string)
    requires GoodShown(p, v) && EndsValue(k)
    ensures ParseValue(ShownText(p, v) + k) == Some((Meaning(v), k))
    ensures ShownText(p, v) != "" && Solid(ShownText(p, v) + k)
  {
    hide *;
    ShownIs(p, v, k);
    match v
    case OneString(s) => StringParses(p, s, k);
    case StringList(items) =>
      NoneIsStr();
      ListParses(p, [], items, k);
      NoneBefore(items);
      ValueOfBracket(ListText(p, items) + ("]" + k));
    case StringTable(es) =>
      InlineParses(p, es, k);
      ValueOfBrace(EntriesText(p, es) + ("}" + k));
  }

  lemma NoneIsStr()
    ensures AllStr([])
  {
  }

  lemma NoneBefore(items: seq<string>)
    ensures [] + Strings(items) == Strings(items)
  {
  }

  lemma ValueOfBracket(s: string)
    ensures ParseValue("[" + s) == ParseItems([], s) && Solid("[" + s)
  {
    assert ("[" + s)[1..] == s;
  }

  lemma ValueOfBrace(s: string)
    ensures ParseValue("{" + s) == ParseInline(s) && Solid("{" + s)
  {
    assert ("{" + s)[1..] == s;
  }

  lemma ShownIs(p: Printable, v: Shown, k: string)
    requires GoodShown(p, v)
    ensures ShownText(p, v) != ""
    ensures match v
      case OneString(s) => ShownText(p, v) == Quote(p, s) && Quotable(p, s) && Meaning(v) == Str(s)
      case StringList(items) =>
        && ShownText(p, v) + k == "[" + (ListText(p, items) + ("]" + k))
        && AllQuotable(p, items) && Meaning(v) == Items(Strings(items))
      case StringTable(es) =>
        && ShownText(p, v) + k == "{" + (EntriesText(p, es) + ("}" + k))
        && GoodEntries(p, es) && Meaning(v) == Sub(TableOf(map[], es))
  {
    hide ListText, EntriesText, Quote, Quotable, AllQuotable, GoodEntries, Strings, TableOf;
    match v
    case OneString(s) => QuoteNotEmpty(p, s);
    case StringList(items) => Wrap("[", ListText(p, items), "]", k);
    case StringTable(es) => Wrap("{", EntriesText(p, es), "}", k);
  }

  lemma QuoteNotEmpty(p: Printable, s: string)
    ensures Quote(p, s) != ""
  {
  }

  lemma Wrap(a: string, x: string, b: string, k: string)
    ensures a + x + b + k == a + (x + (b + k))
  {
    Assoc(a + x, b, k);
    Assoc(a, x, b + k);
  }

  // ---- Paths and lines ----

  lemma {:induction false} PathParses(ks: seq<string>, path: seq<string>, k: string)
    requires path != [] && BareKeys(path) && At(k, ']')
    ensures ParseKeyPath(ks, PathText(path) + k) == Some((ks + path, k))
    ensures PathText(path) != "" && KeyChar(PathText(path)[0])
    decreases |path|
  {
    hide *;
    var key := path[0];
    KeyOfPath(path);
    PathTextIs(path, k);
    KeyPathIs(ks, PathText(path) + k);
    if |path| == 1 {
      CloseText(k);
      KeyParses(key, k);
      SolidIs(key + k);
      SolidIs(k);
      assert path == [key];
    } else {
      var more := PathText(path[1..]) + k;
      DotText(more);
      KeyParses(key, "." + more);
      SolidIs(key + ("." + more));
      SolidIs("." + more);
      PathParses(ks + [key], path[1..], k);
      assert ks + [key] + path[1..] == ks + path;
    }
  }

  lemma CloseText(k: string)
    requires At(k, ']')
    ensures k != "" && !KeyChar(k[0]) && Solid(k) && !At(k, '.') && k[0] == ']'
  {
  }

  lemma DotText(s: string)
    ensures var t := "." + s; At(t, '.') && !KeyChar(t[0]) && t[1..] == s && Solid(t)
  {
  }

  lemma KeyOfPath(path: seq<string>)
    requires path != [] && BareKeys(path)
    ensures BareKey(path[0]) && BareKeys(path[1..])
  {
    hide BareKey;
  }

  lemma PathTextIs(path: seq<string>, k: string)
    requires path != [] && BareKeys(path)
    ensures |path| == 1 ==> PathText(path) == path[0]
    ensures |path| > 1 ==> PathText(path) + k == path[0] + ("." + (PathText(path[1..]) + k))
    ensures PathText(path) != "" && KeyChar(PathText(path)[0])
  {
    hide KeyChar;
    assert BareKey(path[0]);
    if |path| > 1 {
      Assoc(path[0] + ".", PathText(path[1..]), k);
      Assoc(path[0], ".", PathText(path[1..]) + k);
    }
  }

  lemma NewlineEnds(k: string)
    ensures SkipLineEnd("\n" + k) == Some(k) && EndsValue("\n" + k) && SkipAll("\n" + k) == SkipAll(k)
  {
    SkipAllOne("\n", k);
    assert ("\n" + k)[1..] == k;
  }

  lemma HeaderParses(path: seq<string>, isArray: bool, k: string)
    requires path != [] && BareKeys(path)
    ensures var open, close := (if isArray then "[" else ""), (if isArray then "]]" else "]");
      ParseHeader(open + (PathText(path) + (close + ("\n" + k)))) == Some(((isArray, path), k))
  {
    hide *;
    var close := if isArray then "]]" else "]";
    var rest := close + ("\n" + k);
    var s := PathText(path) + rest;
    Closing("\n" + k);
    PathParses([], path, rest);
    assert [] + path == path;
    NewlineEnds(k);
    OpensWithKey(path, rest);
    BracketBefore(s);
    HeaderIs(if isArray then "[" + s else s);
    Assoc("", s, "");
  }

  lemma Closing(s: string)
    ensures At("]" + s, ']') && ("]" + s)[1..] == s
    ensures At("]]" + s, ']') && ("]]" + s)[1..] == "]" + s
  {
  }

  lemma OpensWithKey(path: seq<string>, k: string)
    requires PathText(path) != "" && KeyChar(PathText(path)[0])
    ensures !At(PathText(path) + k, '[')
  {
    hide PathText, KeyChar;
    KeyCharIsSolid(PathText(path)[0]);
  }

  lemma BracketBefore(s: string)
    ensures At("[" + s, '[') && ("[" + s)[1..] == s
  {
  }

  // ---- Documents ----

  lemma DocumentIs(d: Doc, s: string)
    requires Solid(s) && s != ""
    ensures ParseDocument(d, s) ==
      if ParseLine(d, s).None? then None else ParseDocument(ParseLine(d, s).value.0, ParseLine(d, s).value.1)
  {
    hide ParseLine, Solid, SkipAll;
    SolidIs(s);
  }

  lemma DocumentSkips(d: Doc, s: string, t: string)
    requires SkipAll(s) == SkipAll(t)
    ensures ParseDocument(d, s) == ParseDocument(d, t)
  {
    hide ParseLine, SkipAll;
  }

  lemma CommentSkipped(text: string, k: string)
    requires '\n' !in text
    ensures SkipAll("#" + (text + ("\n" + k))) == SkipAll(k)
  {
    var s := text + ("\n" + k);
    assert ("#" + s)[1..] == s;
    AfterNone(White, "#" + s);
    SpanIs(NotNewline, text, "\n" + k);
    SkipAllOne("\n", k);
  }

  lemma PairLine(p: Printable, d: Doc, key: string, v: Shown, k: string)
    requires BareKey(key) && GoodShown(p, v)
    ensures var s := key + " = " + ShownText(p, v) + ("\n" + k);
      s != "" && Solid(s) && ParseLine(d, s) ==
        if SetKey(d, key, Meaning(v)).None? then None else Some((SetKey(d, key, Meaning(v)).value, k))
  {
    hide *;
    NewlineEnds(k);
    ShownParses(p, v, "\n" + k);
    PairParses(key, ShownText(p, v), Meaning(v), "\n" + k);
    NotEmpty(key, " = " + ShownText(p, v) + ("\n" + k));
    var s := key + " = " + ShownText(p, v) + ("\n" + k);
    Assoc(key, " = ", ShownText(p, v));
    Assoc(key, " = " + ShownText(p, v), "\n" + k);
    PairLineIs(d, s);
  }

  lemma NotEmpty(key: string, s: string)
    requires BareKey(key)
    ensures key + s != ""
  {
  }

  lemma HeaderLine(d: Doc, path: seq<string>, isArray: bool, s: string, k: string)
    requires s == "[" + (if isArray then "[" else "") + PathText(path) + (if isArray then "]]" else "]") + ("\n" + k)
    requires path != [] && BareKeys(path)
    ensures var d' := if isArray then OpenArray(d, path) else OpenTable(d, path);
      s != "" && Solid(s) && ParseLine(d, s) == if d'.None? then None else Some((d'.value, k))
  {
    hide *;
    var open, close := (if isArray then "[" else ""), (if isArray then "]]" else "]");
    var t := open + (PathText(path) + (close + ("\n" + k)));
    Wrap("[" + open, PathText(path), close, "\n" + k);
    Assoc("[", open, PathText(path) + (close + ("\n" + k)));
    HeaderParses(path, isArray, k);
    HeaderLineIs(d, t);
  }

  lemma HeaderLineIs(d: Doc, t: string)
    ensures var s := "[" + t;
      Solid(s) && ParseLine(d, s) ==
        if ParseHeader(t).None? then None
        else
          var (isArray, at) := ParseHeader(t).value.0;
          var d' := if isArray then OpenArray(d, at) else OpenTable(d, at);
          if d'.None? then None else Some((d'.value, ParseHeader(t).value.1))
  {
    hide ParseHeader, OpenArray, OpenTable;
    BracketBefore(t);
  }

  // One printed line, and what follows it.
  lemma LineParses(p: Printable, d: Doc, l: Line, k: string)
    requires GoodLine(p, l)
    ensures ParseDocument(d, LineText(p, l) + ("\n" + k)) ==
      if RunLine(d, l).None? then None else ParseDocument(RunLine(d, l).value, k)
  {
    hide *;
    var s := LineText(p, l) + ("\n" + k);
    LineIs(p, d, l, k);
    match l
    case Comment(text) =>
      CommentSkipped(text, k);
      DocumentSkips(d, s, k);
    case Empty =>
      NewlineEnds(k);
      DocumentSkips(d, s, k);
    case Pair(key, v) =>
      PairLine(p, d, key, v, k);
      DocumentIs(d, s);
    case Header(path) =>
      HeaderLine(d, path, false, s, k);
      DocumentIs(d, s);
    case ArrayHeader(path) =>
      HeaderLine(d, path, true, s, k);
      DocumentIs(d, s);
  }

  lemma LineIs(p: Printable, d: Doc, l: Line, k: string)
    requires GoodLine(p, l)
    ensures var s := LineText(p, l) + ("\n" + k);
      match l
      case Comment(text) => s == "#" + (text + ("\n" + k)) && '\n' !in text && RunLine(d, l) == Some(d)
      case Empty => s == "\n" + k && RunLine(d, l) == Some(d)
      case Pair(key, v) =>
        s == key + " = " + ShownText(p, v) + ("\n" + k) && BareKey(key) && GoodShown(p, v) &&
        RunLine(d, l) == SetKey(d, key, Meaning(v))
      case Header(path) =>
        && s == "[" + "" + PathText(path) + "]" + ("\n" + k)
        && path != [] && BareKeys(path) && RunLine(d, l) == OpenTable(d, path)
      case ArrayHeader(path) =>
        && s == "[" + "[" + PathText(path) + "]]" + ("\n" + k)
        && path != [] && BareKeys(path) && RunLine(d, l) == OpenArray(d, path)
  {
    hide ShownText, PathText, GoodShown, BareKey, BareKeys, Meaning, SetKey, OpenTable, OpenArray;
    match l
    case Comment(text) => Assoc("#", text, "\n" + k);
    case Empty => Assoc("", "\n" + k, "");
    case Pair(_, _) =>
    case Header(path) => assert "[" + "" == "[";
    case ArrayHeader(path) => assert "[" + "[" == "[[";
  }

  predicate GoodLines(p: Printable, ls: seq<Line>) {
    forall i | 0 <= i < |ls| :: GoodLine(p, ls[i])
  }

  // Parsing what was printed runs the lines.
  lemma {:induction false} LinesParse(p: Printable, d: Doc, ls: seq<Line>)
    requires GoodLines(p, ls)
    ensures ParseDocument(d, LinesText(p, ls)) ==
      if RunLines(d, ls).None? then None else Some(RunLines(d, ls).value.root)
    decreases |ls|
  {
    hide LineText, RunLine, GoodLine;
    if ls != [] {
      var rest := LinesText(p, ls[1..]);
      assert LinesText(p, ls) == LineText(p, ls[0]) + ("\n" + rest) by {
        Assoc(LineText(p, ls[0]), "\n", rest);
      }
      assert GoodLine(p, ls[0]);
      LineParses(p, d, ls[0], rest);
      if RunLine(d, ls[0]).Some? {
        LinesParse(p, RunLine(d, ls[0]).value, ls[1..]);
      }
    }
  }
}
