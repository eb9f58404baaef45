// The table tree that toml/parser.go builds, one line of a document at a time.
// The table that key/value lines go to is the source's `current`; here it is
// named by its path, which leads through the last element of every array.
module TomlTables {
  import opened Options

  type Table = map<string, Value>

  // A number stands for its digits.
  datatype Value =
    | Str(text: string)
    | Number(digits: string)
    | Boolean(b: bool)
    | Items(items: seq<Value>)
    | Sub(table: Table)
    | Tables(tables: seq<Table>)

  // An array with nothing but tables in it is an array of tables.
  function ArrayOf(items: seq<Value>): Value {
    if items != [] && forall i | 0 <= i < |items| :: items[i].Sub? then Tables(TablesOf(items)) else Items(items)
  }

  function TablesOf(items: seq<Value>): seq<Table>
    requires forall i | 0 <= i < |items| :: items[i].Sub?
  {
    if items == [] then [] else [items[0].table] + TablesOf(items[1..])
  }

  // The table at the end of a path.
  function Cursor(t: Table, path: seq<string>): Option<Table>
    decreases |path|
  {
    if path == [] then Some(t)
    else if path[0] !in t then None
    else match t[path[0]]
      case Sub(u) => Cursor(u, path[1..])
      case Tables(us) => if us == [] then None else Cursor(us[|us| - 1], path[1..])
      case _ => None
  }

  // t with another table at the end of the path; tables that are missing on the
  // way are made, and what is no table stops it.
  function Replace(t: Table, path: seq<string>, end: Table -> Option<Table>): Option<Table>
    decreases |path|
  {
    if path == [] then end(t)
    else
      var key, rest := path[0], path[1..];
      if key !in t then Within(t, key, Replace(map[], rest, end))
      else match t[key]
        case Sub(u) => Within(t, key, Replace(u, rest, end))
        case Tables(us) =>
          if us == [] then None
          else
            (match Replace(us[|us| - 1], rest, end)
             case None => None
             case Some(u) => Some(t[key := Tables(us[..|us| - 1] + [u])]))
        case _ => None
  }

  function Within(t: Table, key: string, u: Option<Table>): Option<Table> {
    match u case None => None case Some(v) => Some(t[key := Sub(v)])
  }

  // descendTable, with create.
  function Descend(t: Table, path: seq<string>): Option<Table> {
    Replace(t, path, u => Some(u))
  }

  // appendArrayOfTables, with an empty table.
  function Append(t: Table, path: seq<string>): Option<Table> {
    if path == [] then None else Replace(t, path[..|path| - 1], u => Grown(u, path[|path| - 1]))
  }

  function Grown(u: Table, key: string): Option<Table> {
    if key !in u then Some(u[key := Tables([map[]])])
    else match u[key]
      case Tables(us) => Some(u[key := Tables(us + [map[]])])
      case _ => None
  }

  function Added(u: Table, key: string, v: Value): Option<Table> {
    if key in u then None else Some(u[key := v])
  }

  // What is built so far, and where key/value lines go.
  datatype Doc = Doc(root: Table, path: seq<string>)

  function OpenTable(d: Doc, path: seq<string>): Option<Doc> {
    match Descend(d.root, path) case None => None case Some(t) => Some(Doc(t, path))
  }

  function OpenArray(d: Doc, path: seq<string>): Option<Doc> {
    match Append(d.root, path) case None => None case Some(t) => Some(Doc(t, path))
  }

  function SetKey(d: Doc, key: string, v: Value): Option<Doc> {
    match Replace(d.root, d.path, u => Added(u, key, v)) case None => None case Some(t) => Some(d.(root := t))
  }

  // ---- The path names one table until the next header ----

  // Replacing changes the table at the end of the path and nothing else.
  lemma {:induction false} ReplaceIs(t: Table, path: seq<string>, end: Table -> Option<Table>, t': Table)
    requires Replace(t, path, end) == Some(t')
    ensures end(TableAt(t, path)) != None && Cursor(t', path) == end(TableAt(t, path))
    ensures path != [] ==> forall key | key != path[0] :: (key in t' <==> key in t) && (key in t ==> t'[key] == t[key])
    ensures path != [] && path[0] in t && t[path[0]].Tables? ==>
      var us := t[path[0]].tables;
      t'[path[0]].Tables? && |t'[path[0]].tables| == |us| && t'[path[0]].tables[..|us| - 1] == us[..|us| - 1]
    decreases |path|
  {
    if path != [] {
      var key, rest := path[0], path[1..];
      if key !in t {
        ReplaceIs(map[], rest, end, t'[key].table);
        if rest != [] {
          assert Cursor(map[], rest).None?;
        }
      } else if t[key].Sub? {
        ReplaceIs(t[key].table, rest, end, t'[key].table);
      } else {
        var us := t[key].tables;
        ReplaceIs(us[|us| - 1], rest, end, t'[key].tables[|us| - 1]);
      }
    }
  }

  // A header line leaves a table at its path: an existing one as it was, or an
  // empty one.
  lemma OpenTableIs(d: Doc, path: seq<string>)
    requires OpenTable(d, path).Some?
    ensures var d' := OpenTable(d, path).value;
      d'.path == path &&
      Cursor(d'.root, path) == Some(TableAt(d.root, path))
  {
    ReplaceIs(d.root, path, u => Some(u), OpenTable(d, path).value.root);
  }

  // The elements of the array of tables at a key.
  function Elements(u: Table, key: string): Option<seq<Table>> {
    if key !in u then Some([]) else if u[key].Tables? then Some(u[key].tables) else None
  }

  // An array header leaves a new empty table at its path, after the elements
  // that were there.
  lemma OpenArrayIs(d: Doc, path: seq<string>)
    requires OpenArray(d, path).Some?
    ensures var d' := OpenArray(d, path).value;
      path != [] && d'.path == path && Cursor(d'.root, path) == Some(map[])
    ensures var front := path[..|path| - 1];
      var parent, parent' := TableAt(d.root, front), TableAt(OpenArray(d, path).value.root, front);
      Elements(parent, path[|path| - 1]).Some? &&
      Elements(parent', path[|path| - 1]) == Some(Elements(parent, path[|path| - 1]).value + [map[]])
  {
    hide Replace, Cursor, Grown;
    var front, last := path[..|path| - 1], path[|path| - 1];
    var t' := OpenArray(d, path).value.root;
    ReplaceIs(d.root, front, u => Grown(u, last), t');
    GrownIs(TableAt(d.root, front), last);
    CursorStep(t', front, last);
    assert path == front + [last];
  }

  // The table at the end of a path, empty when there is none.
  function TableAt(t: Table, path: seq<string>): Table {
    if Cursor(t, path).Some? then Cursor(t, path).value else map[]
  }

  lemma GrownIs(u: Table, key: string)
    requires Grown(u, key).Some?
    ensures Elements(u, key).Some? && Elements(Grown(u, key).value, key) == Some(Elements(u, key).value + [map[]])
    ensures Cursor(Grown(u, key).value, [key]) == Some(map[])
  {
    var u' := Grown(u, key).value;
    assert [key][1..] == [];
    assert Cursor(map[], []) == Some(map[]);
    var none: seq<Table> := [];
    assert none + [map[]] == [map[]];
    if key in u {
      assert u'[key] == Tables(u[key].tables + [map[]]);
    }
  }

  lemma {:induction false} CursorStep(t: Table, path: seq<string>, key: string)
    ensures Cursor(t, path + [key]) == match Cursor(t, path)
      case None => None
      case Some(u) => Cursor(u, [key])
    decreases |path|
  {
    if path == [] {
      assert path + [key] == [key];
    } else {
      assert (path + [key])[1..] == path[1..] + [key];
      if path[0] in t {
        match t[path[0]]
        case Sub(u) => CursorStep(u, path[1..], key);
        case Tables(us) => if us != [] { CursorStep(us[|us| - 1], path[1..], key); }
        case _ =>
      }
    }
  }

  // A key/value line adds to the table at the path, which must not have the key.
  lemma SetKeyIs(d: Doc, key: string, v: Value)
    requires SetKey(d, key, v).Some?
    ensures var u := TableAt(d.root, d.path);
      key !in u && SetKey(d, key, v).value.path == d.path &&
      Cursor(SetKey(d, key, v).value.root, d.path) == Some(u[key := v])
  {
    ReplaceIs(d.root, d.path, u => Added(u, key, v), SetKey(d, key, v).value.root);
  }
}
