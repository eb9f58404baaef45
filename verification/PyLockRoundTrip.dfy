// Reading a printed lock file back.
module PyLockRoundTrip {
  import opened Options
  import opened Orders
  import opened StableSort
  import opened TomlTables
  import opened TomlPrint
  import opened PyLock

  // ---- Running lines ----

  lemma {:induction false} RunConcat(d: Doc, a: seq<Line>, b: seq<Line>)
    ensures RunLines(d, a + b) == if RunLines(d, a).None? then None else RunLines(RunLines(d, a).value, b)
    decreases |a|
  {
    hide RunLine;
    if a == [] {
      assert a + b == b;
    } else {
      assert (a + b)[0] == a[0] && (a + b)[1..] == a[1..] + b;
      if RunLine(d, a[0]).Some? {
        RunConcat(RunLine(d, a[0]).value, a[1..], b);
      }
    }
  }

  lemma RunOne(d: Doc, l: Line)
    ensures RunLines(d, [l]) == RunLine(d, l)
  {
    hide RunLine;
    if RunLine(d, l).Some? {
      assert RunLines(RunLine(d, l).value, [l][1..]) == RunLine(d, l);
    }
  }

  // The whole tree around the table that key/value lines go to.
  type Around = Table -> Table

  ghost predicate Hole(around: Around, path: seq<string>) {
    forall u, k, v :: SetKey(Doc(around(u), path), k, v) ==
      if k in u then None else Some(Doc(around(u[k := v]), path))
  }

  lemma RunPair(around: Around, path: seq<string>, u: Table, key: string, v: Shown)
    requires Hole(around, path) && key !in u
    ensures RunLines(Doc(around(u), path), [Pair(key, v)]) == Some(Doc(around(u[key := Meaning(v)]), path))
  {
    hide SetKey, Meaning;
    RunOne(Doc(around(u), path), Pair(key, v));
  }

  function Root(u: Table): Table {
    u
  }

  function InPackages(base: Table, ps: seq<Table>): Around {
    u => base["packages" := Tables(ps + [u])]
  }

  function InWheels(base: Table, ps: seq<Table>, cur: Table, ws: seq<Table>): Around {
    u => InPackages(base, ps)(cur["wheels" := Tables(ws + [u])])
  }

  function InSdist(base: Table, ps: seq<Table>, cur: Table): Around {
    u => InPackages(base, ps)(cur["sdist" := Sub(u)])
  }

  lemma HoleRoot()
    ensures Hole(Root, [])
  {
  }

  // Replacing inside the last package.
  lemma ReplaceInPackages(base: Table, ps: seq<Table>, u: Table, rest: seq<string>, end: Table -> Option<Table>)
    ensures Replace(InPackages(base, ps)(u), ["packages"] + rest, end) ==
      match Replace(u, rest, end) case None => None case Some(u') => Some(InPackages(base, ps)(u'))
  {
    var t := InPackages(base, ps)(u);
    var path := ["packages"] + rest;
    assert path[0] == "packages" && path[1..] == rest;
    assert (ps + [u])[..|ps|] == ps;
    if Replace(u, rest, end).Some? {
      var u' := Replace(u, rest, end).value;
      assert t["packages" := Tables(ps + [u'])] == base["packages" := Tables(ps + [u'])];
    }
  }

  lemma ReplaceAt(u: Table, key: string, end: Table -> Option<Table>)
    requires key in u
    ensures u[key].Sub? ==> Replace(u, [key], end) == Within(u, key, end(u[key].table))
    ensures u[key].Tables? && u[key].tables != [] ==>
      var us := u[key].tables;
      Replace(u, [key], end) == match end(us[|us| - 1])
        case None => None
        case Some(w) => Some(u[key := Tables(us[..|us| - 1] + [w])])
  {
    assert [key][1..] == [];
  }

  lemma HolePackages(base: Table, ps: seq<Table>)
    ensures Hole(InPackages(base, ps), ["packages"])
  {
    forall u, k, v
      ensures SetKey(Doc(InPackages(base, ps)(u), ["packages"]), k, v) ==
        if k in u then None else Some(Doc(InPackages(base, ps)(u[k := v]), ["packages"]))
    {
      ReplaceInPackages(base, ps, u, [], w => Added(w, k, v));
      assert ["packages"] + [] == ["packages"];
    }
  }

  lemma HoleWheels(base: Table, ps: seq<Table>, cur: Table, ws: seq<Table>)
    ensures Hole(InWheels(base, ps, cur, ws), ["packages", "wheels"])
  {
    hide InPackages, Replace;
    forall u, k, v
      ensures SetKey(Doc(InWheels(base, ps, cur, ws)(u), ["packages", "wheels"]), k, v) ==
        if k in u then None else Some(Doc(InWheels(base, ps, cur, ws)(u[k := v]), ["packages", "wheels"]))
    {
      var c := cur["wheels" := Tables(ws + [u])];
      ReplaceInPackages(base, ps, c, ["wheels"], w => Added(w, k, v));
      ReplaceAt(c, "wheels", w => Added(w, k, v));
      assert ["packages"] + ["wheels"] == ["packages", "wheels"];
      assert (ws + [u])[..|ws|] == ws;
      if k !in u {
        assert c["wheels" := Tables(ws + [u[k := v]])] == cur["wheels" := Tables(ws + [u[k := v]])];
      }
    }
  }

  lemma HoleSdist(base: Table, ps: seq<Table>, cur: Table)
    ensures Hole(InSdist(base, ps, cur), ["packages", "sdist"])
  {
    hide InPackages, Replace;
    forall u, k, v
      ensures SetKey(Doc(InSdist(base, ps, cur)(u), ["packages", "sdist"]), k, v) ==
        if k in u then None else Some(Doc(InSdist(base, ps, cur)(u[k := v]), ["packages", "sdist"]))
    {
      var c := cur["sdist" := Sub(u)];
      ReplaceInPackages(base, ps, c, ["sdist"], w => Added(w, k, v));
      ReplaceAt(c, "sdist", w => Added(w, k, v));
      assert ["packages"] + ["sdist"] == ["packages", "sdist"];
      if k !in u {
        assert c["sdist" := Sub(u[k := v])] == cur["sdist" := Sub(u[k := v])];
      }
    }
  }

  // ---- Headers ----

  // An array of tables that is absent when it is empty.
  function With(t: Table, key: string, us: seq<Table>): Table {
    if us == [] then t else t[key := Tables(us)]
  }

  lemma GrownWith(t: Table, key: string, us: seq<Table>)
    requires key !in t
    ensures Grown(With(t, key, us), key) == Some(t[key := Tables(us + [map[]])])
  {
    if us == [] {
      assert us + [map[]] == [map[]];
    } else {
      assert With(t, key, us)[key := Tables(us + [map[]])] == t[key := Tables(us + [map[]])];
    }
  }

  lemma OpenPackage(base: Table, ps: seq<Table>, q: seq<string>)
    requires "packages" !in base
    ensures OpenArray(Doc(With(base, "packages", ps), q), ["packages"]) ==
      Some(Doc(InPackages(base, ps)(map[]), ["packages"]))
  {
    var t := With(base, "packages", ps);
    assert ["packages"][..0] == [];
    GrownWith(base, "packages", ps);
  }

  lemma OpenWheel(base: Table, ps: seq<Table>, cur: Table, ws: seq<Table>, q: seq<string>)
    requires "wheels" !in cur
    ensures OpenArray(Doc(InPackages(base, ps)(With(cur, "wheels", ws)), q), ["packages", "wheels"]) ==
      Some(Doc(InWheels(base, ps, cur, ws)(map[]), ["packages", "wheels"]))
    ensures forall u :: InWheels(base, ps, cur, ws)(u) == InPackages(base, ps)(With(cur, "wheels", ws + [u]))
  {
    hide InPackages;
    var c := With(cur, "wheels", ws);
    ReplaceInPackages(base, ps, c, [], w => Grown(w, "wheels"));
    var path := ["packages", "wheels"];
    assert path[..1] == ["packages"] + [] && path[1] == "wheels";
    GrownWith(cur, "wheels", ws);
  }

  lemma OpenSdist(base: Table, ps: seq<Table>, cur: Table, q: seq<string>)
    requires "sdist" !in cur
    ensures OpenTable(Doc(InPackages(base, ps)(cur), q), ["packages", "sdist"]) ==
      Some(Doc(InSdist(base, ps, cur)(map[]), ["packages", "sdist"]))
  {
    hide InPackages;
    ReplaceInPackages(base, ps, cur, ["sdist"], u => Some(u));
    assert ["packages"] + ["sdist"] == ["packages", "sdist"];
    assert ["sdist"][1..] == [];
    assert Replace(map[], [], u => Some(u)) == Some(map[]);
  }

  // ---- Files ----

  function HashTable(hashes: map<string, string>): Table {
    map k | k in hashes :: Str(hashes[k])
  }

  function FileTable(f: File): Table {
    map["name" := Str(f.name), "url" := Str(f.url), "hashes" := Sub(HashTable(f.hashes))]
  }

  function Part(hashes: map<string, string>, keys: set<string>): Table {
    map k | k in keys && k in hashes :: Str(hashes[k])
  }

  lemma {:induction false} TableOfEntries(t: Table, hashes: map<string, string>, keys: seq<string>)
    requires forall k <- keys :: k in hashes
    ensures TableOf(t, EntriesOf(hashes, keys)) == t + Part(hashes, set k | k in keys)
    decreases |keys|
  {
    if keys == [] {
      PartOfNone(t, hashes);
      assert (set k | k in keys) == {};
    } else {
      hide Part, TableOf, EntriesOf;
      var k, rest := keys[0], keys[1..];
      EntriesStep(t, hashes, keys);
      TableOfEntries(t[k := Str(hashes[k])], hashes, rest);
      PartStep(t, hashes, k, set x | x in rest);
      KeysStep(keys);
    }
  }

  lemma EntriesStep(t: Table, hashes: map<string, string>, keys: seq<string>)
    requires keys != [] && forall k <- keys :: k in hashes
    ensures var k := keys[0];
      TableOf(t, EntriesOf(hashes, keys)) == TableOf(t[k := Str(hashes[k])], EntriesOf(hashes, keys[1..]))
  {
    assert EntriesOf(hashes, keys)[1..] == EntriesOf(hashes, keys[1..]);
  }

  lemma KeysStep(keys: seq<string>)
    requires keys != []
    ensures (set x | x in keys) == {keys[0]} + set x | x in keys[1..]
  {
    assert keys == [keys[0]] + keys[1..];
  }

  lemma PartOfNone(t: Table, hashes: map<string, string>)
    ensures t + Part(hashes, {}) == t
  {
  }

  lemma PartStep(t: Table, hashes: map<string, string>, k: string, keys: set<string>)
    requires k in hashes
    ensures t[k := Str(hashes[k])] + Part(hashes, keys) == t + Part(hashes, {k} + keys)
  {
  }

  lemma EntriesAreHashes(hashes: map<string, string>)
    ensures TableOf(map[], Entries(hashes)) == HashTable(hashes)
  {
    var keys := SortedKeys(hashes.Keys);
    TableOfEntries(map[], hashes, keys);
    assert (set k | k in keys) == hashes.Keys;
    assert map[] + Part(hashes, hashes.Keys) == HashTable(hashes);
  }

  lemma FileRuns(around: Around, path: seq<string>, f: File)
    requires Hole(around, path)
    ensures RunLines(Doc(around(map[]), path), FileLines(f)) == Some(Doc(around(FileTable(f)), path))
  {
    hide *;
    FileIs(f);
    var a, b := Pair("name", OneString(f.name)), Pair("url", OneString(f.url));
    var c := Pair("hashes", StringTable(Entries(f.hashes)));
    var u := map["name" := Str(f.name)];
    var v := u["url" := Str(f.url)];
    RunPair(around, path, map[], "name", OneString(f.name));
    RunPair(around, path, u, "url", OneString(f.url));
    RunPair(around, path, v, "hashes", StringTable(Entries(f.hashes)));
    RunConcat(Doc(around(map[]), path), [a], [b] + [c]);
    RunConcat(Doc(around(u), path), [b], [c]);
    assert FileLines(f) == [a] + ([b] + [c]);
  }

  lemma FileIs(f: File)
    ensures FileLines(f) ==
      [Pair("name", OneString(f.name)), Pair("url", OneString(f.url)), Pair("hashes", StringTable(Entries(f.hashes)))]
    ensures Meaning(OneString(f.name)) == Str(f.name) && Meaning(OneString(f.url)) == Str(f.url)
    ensures FileTable(f) ==
      map["name" := Str(f.name)]["url" := Str(f.url)]["hashes" := Meaning(StringTable(Entries(f.hashes)))]
  {
    hide HashTable, Entries;
    EntriesAreHashes(f.hashes);
  }

  function FileTables(fs: seq<File>): (ts: seq<Table>)
    ensures |ts| == |fs| && forall i | 0 <= i < |fs| :: ts[i] == FileTable(fs[i])
  {
    if fs == [] then [] else [FileTable(fs[0])] + FileTables(fs[1..])
  }

  lemma RunEmpty(d: Doc, l: Line, rest: seq<Line>)
    ensures RunLines(d, [Empty, l] + rest) == if RunLine(d, l).None? then None else RunLines(RunLine(d, l).value, rest)
  {
    hide SetKey, OpenTable, OpenArray;
    var ls := [Empty, l] + rest;
    assert ls[0] == Empty && ls[1..] == [l] + rest && ([l] + rest)[1..] == rest;
  }

  // The wheels of a package, after those in done.
  lemma {:induction false} WheelsRun(base: Table, ps: seq<Table>, cur: Table, done: seq<Table>,
                                          ws: seq<File>, q: seq<string>)
    requires "wheels" !in cur
    ensures var r := RunLines(Doc(InPackages(base, ps)(With(cur, "wheels", done)), q), WheelLines(ws));
      r.Some? && r.value.root == InPackages(base, ps)(With(cur, "wheels", done + FileTables(ws)))
    decreases |ws|
  {
    hide *;
    WheelsAre(ws, done);
    var d := Doc(InPackages(base, ps)(With(cur, "wheels", done)), q);
    if ws == [] {
      RunNothing(d);
    } else {
      var path := ["packages", "wheels"];
      var rest := WheelLines(ws[1..]);
      OpenWheel(base, ps, cur, done, q);
      HoleWheels(base, ps, cur, done);
      FileRuns(InWheels(base, ps, cur, done), path, ws[0]);
      RunEmpty(d, ArrayHeader(path), FileLines(ws[0]) + rest);
      ArrayHeaderRuns(d, path);
      var d' := Doc(InWheels(base, ps, cur, done)(map[]), path);
      RunConcat(d', FileLines(ws[0]), rest);
      WheelsRun(base, ps, cur, done + [FileTable(ws[0])], ws[1..], path);
    }
  }

  lemma RunNothing(d: Doc)
    ensures RunLines(d, []) == Some(d)
  {
  }

  lemma ArrayHeaderRuns(d: Doc, path: seq<string>)
    ensures RunLine(d, ArrayHeader(path)) == OpenArray(d, path)
    ensures RunLine(d, Header(path)) == OpenTable(d, path)
  {
  }

  lemma WheelsAre(ws: seq<File>, done: seq<Table>)
    ensures ws == [] ==> WheelLines(ws) == [] && done + FileTables(ws) == done
    ensures ws != [] ==>
      WheelLines(ws) == [Empty, ArrayHeader(["packages", "wheels"])] + (FileLines(ws[0]) + WheelLines(ws[1..])) &&
      done + FileTables(ws) == done + [FileTable(ws[0])] + FileTables(ws[1..])
  {
    hide FileLines, FileTable;
    if ws == [] {
      assert done + [] == done;
    } else {
      var t, ts := FileTable(ws[0]), FileTables(ws[1..]);
      assert done + ([t] + ts) == done + [t] + ts;
      var head, lines, rest := [Empty, ArrayHeader(["packages", "wheels"])], FileLines(ws[0]), WheelLines(ws[1..]);
      assert head + lines + rest == head + (lines + rest);
    }
  }

  function WithSdist(t: Table, sdist: Option<File>): Table {
    match sdist case None => t case Some(f) => t["sdist" := Sub(FileTable(f))]
  }

  lemma SdistRuns(base: Table, ps: seq<Table>, cur: Table, sdist: Option<File>, q: seq<string>)
    requires "sdist" !in cur
    ensures var r := RunLines(Doc(InPackages(base, ps)(cur), q), SdistLines(sdist));
      r.Some? && r.value.root == InPackages(base, ps)(WithSdist(cur, sdist))
  {
    hide *;
    SdistIs(base, ps, cur, sdist);
    var d := Doc(InPackages(base, ps)(cur), q);
    match sdist
    case None => RunNothing(d);
    case Some(f) =>
      var path := ["packages", "sdist"];
      OpenSdist(base, ps, cur, q);
      HoleSdist(base, ps, cur);
      FileRuns(InSdist(base, ps, cur), path, f);
      RunEmpty(d, Header(path), FileLines(f));
      ArrayHeaderRuns(d, path);
  }

  lemma SdistIs(base: Table, ps: seq<Table>, cur: Table, sdist: Option<File>)
    ensures match sdist
      case None => SdistLines(sdist) == [] && WithSdist(cur, sdist) == cur
      case Some(f) =>
        SdistLines(sdist) == [Empty, Header(["packages", "sdist"])] + FileLines(f) &&
        InSdist(base, ps, cur)(FileTable(f)) == InPackages(base, ps)(WithSdist(cur, sdist))
  {
    hide FileLines, FileTable, InPackages;
  }

  // ---- Packages ----

  function Field(t: Table, absent: bool, key: string, v: Shown): Table {
    if absent then t else t[key := Meaning(v)]
  }

  function FieldTable(p: Package): Table {
    var t := map["name" := Str(p.name), "version" := Str(p.version)];
    var u := Field(t, p.requiresPython == "", "requires-python", OneString(p.requiresPython));
    var v := Field(u, p.marker == "", "marker", OneString(p.marker));
    Field(v, p.dependencies == [], "dependencies", StringList(Sort(StringLess, p.dependencies)))
  }

  function PackageTable(p: Package): Table {
    WithSdist(With(FieldTable(p), "wheels", FileTables(Sort(FileLess, p.wheels))), p.sdist)
  }

  lemma RunUnless(around: Around, path: seq<string>, u: Table, absent: bool, key: string, v: Shown)
    requires Hole(around, path) && key !in u
    ensures RunLines(Doc(around(u), path), Unless(absent, Pair(key, v))) ==
      Some(Doc(around(Field(u, absent, key, v)), path))
  {
    hide Hole, RunLines, Meaning;
    if absent {
      RunNothing(Doc(around(u), path));
    } else {
      RunPair(around, path, u, key, v);
    }
  }

  lemma FieldsRun(base: Table, ps: seq<Table>, p: Package, q: seq<string>)
    requires "packages" !in base
    ensures RunLines(Doc(With(base, "packages", ps), q), FieldLines(p)) ==
      Some(Doc(InPackages(base, ps)(FieldTable(p)), ["packages"]))
  {
    hide *;
    var around, path := InPackages(base, ps), ["packages"];
    var a, b, c := ArrayHeader(path), Pair("name", OneString(p.name)), Pair("version", OneString(p.version));
    var x := Unless(p.requiresPython == "", Pair("requires-python", OneString(p.requiresPython)));
    var y := Unless(p.marker == "", Pair("marker", OneString(p.marker)));
    var z := Unless(p.dependencies == [], Pair("dependencies", StringList(Sort(StringLess, p.dependencies))));
    FieldsAre(p);
    OpenPackage(base, ps, q);
    HolePackages(base, ps);
    var d := Doc(With(base, "packages", ps), q);
    RunOne(d, a);
    ArrayHeaderRuns(d, path);
    RunConcat(d, [a], [b] + ([c] + (x + (y + z))));
    var t1 := map["name" := Str(p.name)];
    RunPair(around, path, map[], "name", OneString(p.name));
    RunConcat(Doc(around(map[]), path), [b], [c] + (x + (y + z)));
    var t2 := t1["version" := Str(p.version)];
    RunPair(around, path, t1, "version", OneString(p.version));
    RunConcat(Doc(around(t1), path), [c], x + (y + z));
    var t3 := Field(t2, p.requiresPython == "", "requires-python", OneString(p.requiresPython));
    RunUnless(around, path, t2, p.requiresPython == "", "requires-python", OneString(p.requiresPython));
    RunConcat(Doc(around(t2), path), x, y + z);
    var t4 := Field(t3, p.marker == "", "marker", OneString(p.marker));
    RunUnless(around, path, t3, p.marker == "", "marker", OneString(p.marker));
    RunConcat(Doc(around(t3), path), y, z);
    RunUnless(around, path, t4, p.dependencies == [], "dependencies", StringList(Sort(StringLess, p.dependencies)));
  }

  lemma FieldsAre(p: Package)
    ensures var a := ArrayHeader(["packages"]);
      var b, c := Pair("name", OneString(p.name)), Pair("version", OneString(p.version));
      var x := Unless(p.requiresPython == "", Pair("requires-python", OneString(p.requiresPython)));
      var y := Unless(p.marker == "", Pair("marker", OneString(p.marker)));
      var z := Unless(p.dependencies == [], Pair("dependencies", StringList(Sort(StringLess, p.dependencies))));
      FieldLines(p) == [a] + ([b] + ([c] + (x + (y + z))))
    ensures Meaning(OneString(p.name)) == Str(p.name) && Meaning(OneString(p.version)) == Str(p.version)
    ensures var t2 := map["name" := Str(p.name)]["version" := Str(p.version)];
      var t3 := Field(t2, p.requiresPython == "", "requires-python", OneString(p.requiresPython));
      var t4 := Field(t3, p.marker == "", "marker", OneString(p.marker));
      "requires-python" !in t2 && "marker" !in t3 && "dependencies" !in t4 &&
      FieldTable(p) == Field(t4, p.dependencies == [], "dependencies", StringList(Sort(StringLess, p.dependencies)))
    ensures "wheels" !in FieldTable(p) && "sdist" !in FieldTable(p)
  {
    hide Unless, Sort, StringLess, Strings;
    assert map["name" := Str(p.name)]["version" := Str(p.version)] ==
      map["name" := Str(p.name), "version" := Str(p.version)];
  }

  // One package adds one table to `packages`, with its own wheels and sdist.
  lemma PackageRuns(base: Table, ps: seq<Table>, p: Package, q: seq<string>)
    requires "packages" !in base
    ensures var r := RunLines(Doc(With(base, "packages", ps), q), PackageLines(p));
      r.Some? && r.value.root == With(base, "packages", ps + [PackageTable(p)])
  {
    hide *;
    var d := Doc(With(base, "packages", ps), q);
    var around := InPackages(base, ps);
    var ws := Sort(FileLess, p.wheels);
    var fields, wheels, sdist := FieldLines(p), WheelLines(ws), SdistLines(p.sdist);
    PackageIs(base, ps, p);
    FieldsRun(base, ps, p, q);
    FieldsAre(p);
    RunConcat(d, fields, wheels + (sdist + [Empty]));
    var d1 := Doc(around(FieldTable(p)), ["packages"]);
    WheelsRun(base, ps, FieldTable(p), [], ws, ["packages"]);
    RunConcat(d1, wheels, sdist + [Empty]);
    var d2 := RunLines(d1, wheels).value;
    SdistRuns(base, ps, With(FieldTable(p), "wheels", FileTables(ws)), p.sdist, d2.path);
    RunConcat(d2, sdist, [Empty]);
    var d3 := RunLines(d2, sdist).value;
    RunOne(d3, Empty);
    EmptyRuns(d3);
  }

  lemma EmptyRuns(d: Doc)
    ensures RunLine(d, Empty) == Some(d)
  {
  }

  lemma PackageIs(base: Table, ps: seq<Table>, p: Package)
    ensures var ws := Sort(FileLess, p.wheels);
      && PackageLines(p) == FieldLines(p) + (WheelLines(ws) + (SdistLines(p.sdist) + [Empty]))
      && PackageTable(p) == WithSdist(With(FieldTable(p), "wheels", FileTables(ws)), p.sdist)
      && [] + FileTables(ws) == FileTables(ws)
      && "sdist" !in With(FieldTable(p), "wheels", FileTables(ws))
    ensures InPackages(base, ps)(PackageTable(p)) == With(base, "packages", ps + [PackageTable(p)])
    ensures With(FieldTable(p), "wheels", []) == FieldTable(p)
  {
    hide FieldLines, WheelLines, SdistLines, FieldTable, FileTables, Sort, FileLess, WithSdist;
    FieldsAre(p);
  }

  function PackageTables(ps: seq<Package>): (ts: seq<Table>)
    ensures |ts| == |ps| && forall i | 0 <= i < |ps| :: ts[i] == PackageTable(ps[i])
  {
    if ps == [] then [] else [PackageTable(ps[0])] + PackageTables(ps[1..])
  }

  lemma {:induction false} PackagesRun(base: Table, done: seq<Table>, ps: seq<Package>, q: seq<string>)
    requires "packages" !in base
    ensures var r := RunLines(Doc(With(base, "packages", done), q), PackagesLines(ps));
      r.Some? && r.value.root == With(base, "packages", done + PackageTables(ps))
    decreases |ps|
  {
    hide *;
    PackagesAre(ps, done);
    var d := Doc(With(base, "packages", done), q);
    if ps == [] {
      RunNothing(d);
    } else {
      PackageRuns(base, done, ps[0], q);
      RunConcat(d, PackageLines(ps[0]), PackagesLines(ps[1..]));
      PackagesRun(base, done + [PackageTable(ps[0])], ps[1..], RunLines(d, PackageLines(ps[0])).value.path);
    }
  }

  lemma PackagesAre(ps: seq<Package>, done: seq<Table>)
    ensures ps == [] ==> PackagesLines(ps) == [] && done + PackageTables(ps) == done
    ensures ps != [] ==>
      PackagesLines(ps) == PackageLines(ps[0]) + PackagesLines(ps[1..]) &&
      done + PackageTables(ps) == done + [PackageTable(ps[0])] + PackageTables(ps[1..])
  {
    hide PackageLines, PackageTable;
  }

  // ---- The whole file ----

  function TopTable(l: Lock): Table {
    Field(map["lock-version" := Str(Default(l.lockVersion, "1.0")), "created-by" := Str(Default(l.createdBy, "mochi"))],
          l.requiresPython == "", "requires-python", OneString(l.requiresPython))
  }

  function LockTable(l: Lock): Table {
    With(TopTable(l), "packages", PackageTables(Sort(PackageLess, l.packages)))
  }

  lemma TopRuns(l: Lock)
    ensures RunLines(Doc(map[], []), TopLines(l)) == Some(Doc(TopTable(l), []))
    ensures "packages" !in TopTable(l)
  {
    hide *;
    var none: seq<string> := [];
    var a, b, c := Comment(BANNER), Pair("lock-version", OneString(Default(l.lockVersion, "1.0"))),
      Pair("created-by", OneString(Default(l.createdBy, "mochi")));
    var x := Unless(l.requiresPython == "", Pair("requires-python", OneString(l.requiresPython)));
    TopIs(l);
    HoleRoot();
    var d := Doc(map[], none);
    RunOne(d, a);
    CommentRuns(d, BANNER);
    RunConcat(d, [a], [b] + ([c] + (x + [Empty])));
    var t1 := map["lock-version" := Str(Default(l.lockVersion, "1.0"))];
    RunPair(Root, none, map[], "lock-version", OneString(Default(l.lockVersion, "1.0")));
    RunConcat(d, [b], [c] + (x + [Empty]));
    var t2 := t1["created-by" := Str(Default(l.createdBy, "mochi"))];
    RunPair(Root, none, t1, "created-by", OneString(Default(l.createdBy, "mochi")));
    RunConcat(Doc(t1, none), [c], x + [Empty]);
    RunUnless(Root, none, t2, l.requiresPython == "", "requires-python", OneString(l.requiresPython));
    RunConcat(Doc(t2, none), x, [Empty]);
    RunOne(Doc(TopTable(l), none), Empty);
    EmptyRuns(Doc(TopTable(l), none));
    RootIs(map[]);
    RootIs(t1);
    RootIs(t2);
    RootIs(TopTable(l));
  }

  lemma RootIs(u: Table)
    ensures Root(u) == u
  {
  }

  lemma CommentRuns(d: Doc, text: string)
    ensures RunLine(d, Comment(text)) == Some(d)
  {
  }

  lemma TopIs(l: Lock)
    ensures var a, b, c := Comment(BANNER), Pair("lock-version", OneString(Default(l.lockVersion, "1.0"))),
        Pair("created-by", OneString(Default(l.createdBy, "mochi")));
      var x := Unless(l.requiresPython == "", Pair("requires-python", OneString(l.requiresPython)));
      TopLines(l) == [a] + ([b] + ([c] + (x + [Empty])))
    ensures forall s :: Meaning(OneString(s)) == Str(s)
    ensures var t1 := map["lock-version" := Str(Default(l.lockVersion, "1.0"))];
      var t2 := t1["created-by" := Str(Default(l.createdBy, "mochi"))];
      "requires-python" !in t2 &&
      TopTable(l) == Field(t2, l.requiresPython == "", "requires-python", OneString(l.requiresPython))
    ensures "packages" !in TopTable(l)
  {
    hide Unless, Default;
  }

  lemma LockRuns(l: Lock)
    ensures var r := RunLines(Doc(map[], []), LockLines(l)); r.Some? && r.value.root == LockTable(l)
  {
    hide RunLines, TopLines, PackagesLines, TopTable, PackageTables, PackageLess, Sort;
    var ps := Sort(PackageLess, l.packages);
    TopRuns(l);
    RunConcat(Doc(map[], []), TopLines(l), PackagesLines(ps));
    var none: seq<Table> := [];
    PackagesRun(TopTable(l), none, ps, []);
    assert none + PackageTables(ps) == PackageTables(ps);
  }
}
