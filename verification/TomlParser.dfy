// The parser of toml/parser.go as it runs: one position that moves forward.
module TomlParser {
  import opened Options
  import opened Scanning
  import opened TomlTables
  import T = TomlText

  // A method's result and the input it left are what the grammar says.
  predicate Reads<X(==)>(r: Option<X>, spec: T.Parsed<X>, left: string) {
    match spec
    case None => r.None?
    case Some((x, rest)) => r == Some(x) && left == rest
  }

  class Parser {
    const src: string
    var pos: nat

    constructor (src: string)
      ensures this.src == src && pos == 0
    {
      this.src, pos := src, 0;
    }

    predicate Valid()
      reads this
    {
      pos <= |src|
    }

    function Left(): string
      requires Valid()
      reads this
    {
      src[pos..]
    }

    // Whether peek() is c. At the end peek() is no character that is asked for.
    predicate Peek(c: char)
      requires Valid()
      reads this
    {
      pos < |src| && src[pos] == c
    }

    method Advance()
      requires pos < |src|
      modifies this
      ensures Valid() && pos == old(pos) + 1 && Left() == old(src[pos..])[1..]
    {
      pos := pos + 1;
    }

    // Moves past the longest run of characters with p.
    method Skip(p: char -> bool)
      requires Valid()
      modifies this
      ensures Valid() && Left() == T.After(p, old(Left()))
    {
      hide T.After;
      ghost var s := Left();
      while pos < |src| && p(src[pos])
        invariant Valid() && T.After(p, Left()) == T.After(p, s)
        decreases |src| - pos
      {
        T.AfterStep(p, Left());
        Advance();
      }
      T.AfterStep(p, Left());
    }

    method SkipWSAndComments()
      requires Valid()
      modifies this
      ensures Valid() && Left() == T.SkipAll(old(Left()))
    {
      hide T.After, T.SkipAll;
      ghost var s := Left();
      while true
        invariant Valid() && T.SkipAll(Left()) == T.SkipAll(s)
        decreases |src| - pos
      {
        T.SkipAllStep(Left());
        Skip(T.White);
        if !Peek('#') {
          return;
        }
        Advance();
        Skip(T.NotNewline);
      }
    }

    // Whether nothing but blanks and a comment was left of the line.
    method SkipLineEnd() returns (ok: bool)
      requires Valid()
      modifies this
      ensures Valid()
      ensures match T.SkipLineEnd(old(Left())) case None => !ok case Some(rest) => ok && Left() == rest
    {
      hide T.After;
      Skip(Blank);
      if Peek('#') {
        Skip(T.NotNewline);
      }
      if Peek('\r') {
        Advance();
      }
      if pos == |src| {
        return true;
      }
      if !Peek('\n') {
        return false;
      }
      Advance();
      return true;
    }

    method ParseEscape() returns (r: Option<char>)
      requires Valid()
      modifies this
      ensures Valid() && Reads(r, T.Escape(old(Left())), Left())
    {
      ghost var s := Left();
      if pos == |src| {
        return None;
      }
      var c := src[pos];
      Advance();
      match c
      case '"' => return Some('"');
      case '\\' => return Some('\\');
      case 'n' => return Some('\n');
      case 't' => return Some('\t');
      case 'r' => return Some('\r');
      case '/' => return Some('/');
      case 'b' => return Some(8 as char);
      case 'f' => return Some(12 as char);
      case 'u' =>
        if pos + 4 > |src| {
          return None;
        }
        var hex := src[pos..pos + 4];
        assert hex == s[1..5] && src[pos + 4..] == s[5..];
        pos := pos + 4;
        var n := T.HexNumber(hex);
        if n.None? {
          return None;
        }
        T.HexNumberBound(hex);
        return Some(T.Rune(n.value));
      case _ => return None;
    }

    method ParseString() returns (r: Option<string>)
      requires Valid() && (Peek('"') || Peek('\''))
      modifies this
      ensures Valid() && Reads(r, T.ParseString(old(Left())), Left())
    {
      hide T.StringBody, T.Escape;
      var quote := src[pos];
      Advance();
      if Peek(quote) {
        Advance();
        if Peek(quote) {
          return None;
        }
        return Some("");
      }
      r := ParseStringBody(quote);
    }

    method ParseStringBody(quote: char) returns (r: Option<string>)
      requires Valid()
      modifies this
      ensures Valid() && Reads(r, T.StringBody(quote, old(Left())), Left())
    {
      hide T.StringBody, T.Escape;
      ghost var s := Left();
      var out := "";
      GoesFromStart(quote, s);
      while true
        invariant Valid() && Goes(quote, s, out, Left())
        decreases |Left()|
      {
        T.StringBodyStep(quote, Left());
        if pos == |src| {
          return None;
        }
        var c := src[pos];
        Advance();
        if c == quote {
          assert out + "" == out;
          return Some(out);
        }
        if c == '\n' {
          return None;
        }
        if quote == '"' && c == '\\' {
          var e := ParseEscape();
          if e.None? {
            return None;
          }
          GoesOn(quote, s, out, e.value, Left());
          out := out + [e.value];
        } else {
          GoesOn(quote, s, out, c, Left());
          out := out + [c];
        }
      }
    }

    method ParseKey() returns (r: Option<string>)
      requires Valid()
      modifies this
      ensures Valid() && Reads(r, T.ParseKey(old(Left())), Left())
    {
      hide T.ParseString, T.KeyChar, Span;
      if Peek('"') || Peek('\'') {
        r := ParseString();
        return;
      }
      var start := pos;
      ghost var s := Left();
      Skip(T.KeyChar);
      assert |s| - |Left()| == Span(T.KeyChar, s) == pos - start;
      if pos == start {
        return None;
      }
      assert src[start..pos] == s[..pos - start];
      return Some(src[start..pos]);
    }

    method ParseKeyPath() returns (r: Option<seq<string>>)
      requires Valid()
      modifies this
      ensures Valid() && Reads(r, T.ParseKeyPath([], old(Left())), Left())
    {
      hide T.ParseKeyPath, T.ParseKey, T.After;
      ghost var s := Left();
      var parts := [];
      while true
        invariant Valid() && T.ParseKeyPath([], s) == T.ParseKeyPath(parts, Left())
        decreases |Left()|
      {
        T.KeyPathIs(parts, Left());
        Skip(Blank);
        var k := ParseKey();
        if k.None? {
          return None;
        }
        parts := parts + [k.value];
        Skip(Blank);
        if !Peek('.') {
          return Some(parts);
        }
        Advance();
      }
    }

    method ParseNumber() returns (r: Option<Value>)
      requires Valid()
      modifies this
      ensures Valid() && Reads(r, T.ParseNumber(old(Left())), Left())
    {
      hide T.NumberRest, T.WithoutBars;
      ghost var s := Left();
      var start := pos;
      var ok := SkipNumber();
      if !ok {
        return None;
      }
      assert src[start..pos] == s[..|s| - |Left()|];
      return Some(Number(T.WithoutBars(src[start..pos])));
    }

    method SkipNumber() returns (ok: bool)
      requires Valid()
      modifies this
      ensures Valid()
      ensures match T.NumberRest(old(Left())) case None => !ok case Some(rest) => ok && Left() == rest
    {
      hide T.After, IsDigit, T.SkipSign, T.DigitOrBar;
      SkipSign();
      if pos == |src| || !IsDigit(src[pos]) {
        return false;
      }
      Skip(T.DigitOrBar);
      if pos < |src| && src[pos] in "xobXOB" {
        return false;
      }
      if Peek('.') {
        Advance();
        Skip(IsDigit);
      }
      if Peek('e') || Peek('E') {
        Advance();
        SkipSign();
        Skip(IsDigit);
      }
      return true;
    }

    method SkipSign()
      requires Valid()
      modifies this
      ensures Valid() && Left() == T.SkipSign(old(Left()))
    {
      if Peek('+') || Peek('-') {
        Advance();
      }
    }

    method ParseBool() returns (r: Option<Value>)
      requires Valid()
      modifies this
      ensures Valid() && Reads(r, T.ParseBool(old(Left())), Left())
    {
      ghost var s := Left();
      if pos + 4 <= |src| && src[pos..pos + 4] == "true" {
        assert s[..4] == src[pos..pos + 4] && src[pos + 4..] == s[4..];
        pos := pos + 4;
        return Some(Boolean(true));
      }
      assert |s| >= 4 ==> s[..4] == src[pos..pos + 4];
      if pos + 5 <= |src| && src[pos..pos + 5] == "false" {
        assert s[..5] == src[pos..pos + 5] && src[pos + 5..] == s[5..];
        pos := pos + 5;
        return Some(Boolean(false));
      }
      assert |s| >= 5 ==> s[..5] == src[pos..pos + 5];
      return None;
    }

    method ParseValue() returns (r: Option<Value>)
      requires Valid()
      modifies this
      ensures Valid() && Reads(r, T.ParseValue(old(Left())), Left())
      decreases |Left()|, 1
    {
      hide T.ParseString, T.ParseItems, T.ParseInline, T.ParseBool, T.ParseNumber, T.ParseValue;
      if pos == |src| {
        NoValue();
        return None;
      }
      T.ValueStep(Left());
      var c := src[pos];
      if c == '"' || c == '\'' {
        var t := ParseString();
        return if t.None? then None else Some(Str(t.value));
      } else if c == '[' {
        r := ParseArray();
      } else if c == '{' {
        r := ParseInlineTable();
      } else if c == 't' || c == 'f' {
        r := ParseBool();
      } else if c == '-' || c == '+' || IsDigit(c) {
        r := ParseNumber();
      } else {
        return None;
      }
    }

    method ParseArray() returns (r: Option<Value>)
      requires Valid() && Peek('[')
      modifies this
      ensures Valid() && Reads(r, T.ParseItems([], old(Left())[1..]), Left())
      decreases |Left()|, 0
    {
      hide T.ParseItems, T.ParseValue, T.SkipAll, ArrayOf;
      ghost var all := |Left()|;
      Advance();
      ghost var s := Left();
      var items: seq<Value> := [];
      while true
        invariant Valid() && |Left()| < all && T.ParseItems([], s) == T.ParseItems(items, Left())
        decreases |Left()|
      {
        T.ItemsIs(items, Left());
        SkipWSAndComments();
        if pos == |src| {
          return None;
        }
        if Peek(']') {
          Advance();
          return Some(ArrayOf(items));
        }
        var v := ParseValue();
        if v.None? {
          return None;
        }
        items := items + [v.value];
        SkipWSAndComments();
        if Peek(',') {
          Advance();
          continue;
        }
        if Peek(']') {
          Advance();
          return Some(ArrayOf(items));
        }
        return None;
      }
    }

    method ParseInlineTable() returns (r: Option<Value>)
      requires Valid() && Peek('{')
      modifies this
      ensures Valid() && Reads(r, T.ParseInline(old(Left())[1..]), Left())
      decreases |Left()|, 0
    {
      hide T.ParseInline, T.ParseEntries, T.ParsePair, T.After;
      ghost var all := |Left()|;
      Advance();
      T.InlineStep(Left());
      Skip(Blank);
      if Peek('}') {
        Advance();
        return Some(Sub(map[]));
      }
      ghost var s := Left();
      var t: Table := map[];
      while true
        invariant Valid() && |Left()| < all && T.ParseEntries(map[], s) == T.ParseEntries(t, Left())
        decreases |Left()|
      {
        T.EntriesIs(t, Left());
        var e := ParsePair();
        if e.None? || e.value.0 in t {
          return None;
        }
        t := t[e.value.0 := e.value.1];
        Skip(Blank);
        if Peek(',') {
          Advance();
          continue;
        }
        if Peek('}') {
          Advance();
          return Some(Sub(t));
        }
        return None;
      }
    }

    method ParsePair() returns (r: Option<(string, Value)>)
      requires Valid()
      modifies this
      ensures Valid() && Reads(r, T.ParsePair(old(Left())), Left())
      decreases |Left()|, 2
    {
      hide T.ParsePair, T.ParseKey, T.ParseValue, T.After;
      T.PairIs(Left());
      Skip(Blank);
      var k := ParseKey();
      if k.None? {
        return None;
      }
      Skip(Blank);
      if !Peek('=') {
        return None;
      }
      Advance();
      Skip(Blank);
      var v := ParseValue();
      if v.None? {
        return None;
      }
      return Some((k.value, v.value));
    }

    method ParseHeader() returns (r: Option<(bool, seq<string>)>)
      requires Valid()
      modifies this
      ensures Valid() && Reads(r, T.ParseHeader(old(Left())), Left())
    {
      hide T.ParseHeader, T.ParseKeyPath, T.SkipLineEnd;
      T.HeaderIs(Left());
      var isArray := Peek('[');
      if isArray {
        Advance();
      }
      var path := ParseKeyPath();
      if path.None? {
        return None;
      }
      if isArray {
        if !Peek(']') {
          return None;
        }
        Advance();
      }
      if !Peek(']') {
        return None;
      }
      Advance();
      var ok := SkipLineEnd();
      return if ok then Some((isArray, path.value)) else None;
    }

    method ParseDocument() returns (r: Option<Table>)
      requires Valid()
      modifies this
      ensures Valid() && r == T.ParseDocument(Doc(map[], []), old(Left()))
    {
      hide T.ParseDocument, T.ParseLine, T.SkipAll;
      ghost var s := Left();
      var d := Doc(map[], []);
      while true
        invariant Valid() && T.ParseDocument(Doc(map[], []), s) == T.ParseDocument(d, Left())
        decreases |Left()|
      {
        T.DocumentStep(d, Left());
        SkipWSAndComments();
        if pos == |src| {
          return Some(d.root);
        }
        var next := ParseLine(d);
        if next.None? {
          return None;
        }
        d := next.value;
      }
    }

    // A table header or a key/value line.
    method ParseLine(d: Doc) returns (r: Option<Doc>)
      requires pos < |src|
      modifies this
      ensures Valid() && Reads(r, T.ParseLine(d, old(src[pos..])), Left())
    {
      hide T.ParseLine, T.ParseHeader, T.ParsePair, T.SkipLineEnd, OpenArray, OpenTable, SetKey;
      if Peek('[') {
        T.LineStep(d, Left());
        Advance();
        var h := ParseHeader();
        if h.None? {
          return None;
        }
        return if h.value.0 then OpenArray(d, h.value.1) else OpenTable(d, h.value.1);
      }
      T.PairLineIs(d, Left());
      var e := ParsePair();
      if e.None? {
        return None;
      }
      var d' := SetKey(d, e.value.0, e.value.1);
      if d'.None? {
        return None;
      }
      var ok := SkipLineEnd();
      return if ok then d' else None;
    }
  }

  method Parse(src: string) returns (r: Option<Table>)
    ensures r == T.Parse(src)
  {
    var p := new Parser(src);
    assert p.Left() == src;
    r := p.ParseDocument();
  }

  lemma NoValue()
    ensures T.ParseValue("") == None
  {
  }

  // out was read of s, and left is what follows.
  ghost predicate Goes(q: char, s: string, out: string, left: string) {
    T.StringBody(q, s) == match T.StringBody(q, left)
      case None => None
      case Some((t, rest)) => Some((out + t, rest))
  }

  lemma GoesFromStart(q: char, s: string)
    ensures Goes(q, s, "", s)
  {
    match T.StringBody(q, s)
    case None =>
    case Some((t, _)) => assert "" + t == t;
  }

  lemma GoesOn(q: char, s: string, out: string, c: char, left: string)
    requires T.StringBody(q, s) == match T.Prepend(c, T.StringBody(q, left))
      case None => None
      case Some((t, rest)) => Some((out + t, rest))
    ensures Goes(q, s, out + [c], left)
  {
    hide T.StringBody;
    match T.StringBody(q, left)
    case None =>
    case Some((t, rest)) => assert out + ([c] + t) == out + [c] + t;
  }
}
