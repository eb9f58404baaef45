// Render and ParsePyLock of uv/pylock.go as they run.
module PyLockRun {
  import opened Options
  import opened Orders
  import opened Sequences
  import opened StableSort
  import opened TomlTables
  import TomlText
  import TomlParser
  import opened TomlPrint
  import opened PyLock

  // ---- Render ----

  method SortedCopy<T>(less: (T, T) -> bool, xs: seq<T>) returns (r: seq<T>)
    ensures r == Sort(less, xs)
  {
    var a := new T[|xs|](i requires 0 <= i < |xs| => xs[i]);
    assert a[..] == xs;
    SortInPlace(less, a);
    return a[..];
  }

  // The hash algorithms in ascending order.
  method SortedAlgos(hashes: map<string, string>) returns (r: seq<string>)
    ensures r == SortedKeys(hashes.Keys)
  {
    hide Sort, StringLess;
    var algos: seq<string> := [];
    var todo := hashes.Keys;
    NothingListed(hashes.Keys);
    while todo != {}
      invariant todo <= hashes.Keys && Lists(algos, hashes.Keys - todo)
    {
      var k :| k in todo;
      ListsOneMore(algos, hashes.Keys - todo, k);
      algos := algos + [k];
      assert hashes.Keys - todo + {k} == hashes.Keys - (todo - {k});
      todo := todo - {k};
    }
    assert hashes.Keys - {} == hashes.Keys;
    r := SortedCopy(StringLess, algos);
    SortedListAscends(algos, hashes.Keys);
    AscendingUnique(hashes.Keys, r, SortedKeys(hashes.Keys));
  }

  // xs lists the keys, each once.
  ghost predicate Lists(xs: seq<string>, keys: set<string>) {
    multiset(xs) == multiset(keys)
  }

  lemma NothingListed(keys: set<string>)
    ensures Lists([], keys - keys)
  {
    assert keys - keys == {};
  }

  lemma ListsOneMore(xs: seq<string>, keys: set<string>, k: string)
    requires Lists(xs, keys) && k !in keys
    ensures Lists(xs + [k], keys + {k})
  {
  }

  lemma SortedListAscends(xs: seq<string>, keys: set<string>)
    requires Lists(xs, keys)
    ensures Ascending(keys, Sort(StringLess, xs))
  {
    hide StringLess, Sort;
    StringsWeak();
    SortSorts(StringLess, xs);
    var ys := Sort(StringLess, xs);
    forall k ensures k in keys <==> k in ys {
      assert k in multiset(ys) <==> k in multiset(keys);
    }
    forall i, j | 0 <= i < j < |ys| ensures StringLess(ys[i], ys[j]) {
      assert !StringLess(ys[j], ys[i]);
      LessIsStrict(ys[i], ys[j], ys[i]);
      if ys[i] == ys[j] {
        Twice(ys, i, j);
      }
    }
  }

  lemma Twice(ys: seq<string>, i: nat, j: nat)
    requires i < j < |ys| && ys[i] == ys[j]
    ensures multiset(ys)[ys[i]] >= 2
  {
    assert ys == ys[..i] + [ys[i]] + ys[i + 1..j] + [ys[j]] + ys[j + 1..];
  }

  lemma {:induction false} TextConcat(p: Printable, a: seq<Line>, b: seq<Line>)
    ensures LinesText(p, a + b) == LinesText(p, a) + LinesText(p, b)
    decreases |a|
  {
    hide LineText;
    if a == [] {
      assert a + b == b && "" + LinesText(p, b) == LinesText(p, b);
    } else {
      assert (a + b)[0] == a[0] && (a + b)[1..] == a[1..] + b;
      TextConcat(p, a[1..], b);
      var x, y, z := LineText(p, a[0]) + "\n", LinesText(p, a[1..]), LinesText(p, b);
      assert x + y + z == x + (y + z);
    }
  }

  lemma TextOfOne(p: Printable, l: Line)
    ensures LinesText(p, [l]) == LineText(p, l) + "\n"
  {
    hide LineText;
    assert LinesText(p, [l][1..]) == "";
    assert LineText(p, l) + "\n" + "" == LineText(p, l) + "\n";
  }

  method RenderLines(p: Printable, s0: string, ghost before: seq<Line>, l: Line) returns (s: string)
    requires s0 == LinesText(p, before)
    ensures s == LinesText(p, before + [l])
  {
    TextConcat(p, before, [l]);
    TextOfOne(p, l);
    s := s0 + (LineText(p, l) + "\n");
  }

  method RenderFile(p: Printable, f: File) returns (s: string)
    ensures s == LinesText(p, FileLines(f))
  {
    hide LinesText, LineText, SortedKeys;
    var a, b := Pair("name", OneString(f.name)), Pair("url", OneString(f.url));
    s := "";
    NoText(p);
    s := RenderLines(p, s, [], a);
    s := RenderLines(p, s, [] + [a], b);
    var algos := SortedAlgos(f.hashes);
    var entries := EntriesOf(f.hashes, algos);
    s := RenderLines(p, s, [] + [a] + [b], Pair("hashes", StringTable(entries)));
    assert [] + [a] + [b] + [Pair("hashes", StringTable(entries))] == FileLines(f);
  }

  lemma NoText(p: Printable)
    ensures LinesText(p, []) == ""
  {
  }

  // The lines of a package before its wheels.
  method RenderFields(p: Printable, k: Package) returns (s: string)
    ensures s == LinesText(p, FieldLines(k))
  {
    hide LinesText, LineText, Sort, StringLess, Unless;
    NoText(p);
    ghost var ls: seq<Line> := [];
    s := RenderLines(p, "", ls, ArrayHeader(["packages"]));
    ls := ls + [ArrayHeader(["packages"])];
    s := RenderLines(p, s, ls, Pair("name", OneString(k.name)));
    ls := ls + [Pair("name", OneString(k.name))];
    s := RenderLines(p, s, ls, Pair("version", OneString(k.version)));
    ls := ls + [Pair("version", OneString(k.version))];
    assert ls == [ArrayHeader(["packages"]), Pair("name", OneString(k.name)), Pair("version", OneString(k.version))];
    UnlessAppends(ls, k.requiresPython == "", Pair("requires-python", OneString(k.requiresPython)));
    if k.requiresPython != "" {
      s := RenderLines(p, s, ls, Pair("requires-python", OneString(k.requiresPython)));
      ls := ls + [Pair("requires-python", OneString(k.requiresPython))];
    }
    UnlessAppends(ls, k.marker == "", Pair("marker", OneString(k.marker)));
    if k.marker != "" {
      s := RenderLines(p, s, ls, Pair("marker", OneString(k.marker)));
      ls := ls + [Pair("marker", OneString(k.marker))];
    }
    UnlessAppends(ls, k.dependencies == [], Pair("dependencies", StringList(Sort(StringLess, k.dependencies))));
    if k.dependencies != [] {
      var deps := SortedCopy(StringLess, k.dependencies);
      s := RenderLines(p, s, ls, Pair("dependencies", StringList(deps)));
      ls := ls + [Pair("dependencies", StringList(deps))];
    }
    assert ls == FieldLines(k);
  }

  lemma UnlessAppends(ls: seq<Line>, c: bool, l: Line)
    ensures ls + Unless(c, l) == if c then ls else ls + [l]
  {
  }

  method RenderPackage(p: Printable, k: Package) returns (s: string)
    ensures s == LinesText(p, PackageLines(k))
  {
    hide LinesText, LineText, Sort, FieldLines, FileLines, WheelLines, FileLess;
    s := RenderFields(p, k);
    ghost var ls := FieldLines(k);
    var wheels := SortedCopy(FileLess, k.wheels);
    var text := RenderWheels(p, wheels);
    TextConcat(p, ls, WheelLines(wheels));
    s, ls := s + text, ls + WheelLines(wheels);
    if k.sdist.Some? {
      s := RenderLines(p, s, ls, Empty);
      s := RenderLines(p, s, ls + [Empty], Header(["packages", "sdist"]));
      text := RenderFile(p, k.sdist.value);
      TextConcat(p, ls + [Empty] + [Header(["packages", "sdist"])], FileLines(k.sdist.value));
      s := s + text;
      assert ls + [Empty] + [Header(["packages", "sdist"])] + FileLines(k.sdist.value) == ls + SdistLines(k.sdist);
    } else {
      assert ls + SdistLines(k.sdist) == ls;
    }
    ls := ls + SdistLines(k.sdist);
    s := RenderLines(p, s, ls, Empty);
  }

  method RenderWheels(p: Printable, ws: seq<File>) returns (s: string)
    ensures s == LinesText(p, WheelLines(ws))
  {
    hide LinesText, LineText, FileLines;
    NoText(p);
    s := "";
    for i := 0 to |ws|
      invariant s == LinesText(p, WheelLines(ws[..i]))
    {
      ghost var ls := WheelLines(ws[..i]);
      s := RenderLines(p, s, ls, Empty);
      s := RenderLines(p, s, ls + [Empty], ArrayHeader(["packages", "wheels"]));
      var text := RenderFile(p, ws[i]);
      TextConcat(p, ls + [Empty] + [ArrayHeader(["packages", "wheels"])], FileLines(ws[i]));
      s := s + text;
      OneMoreWheel(ws, i);
    }
    assert ws[..|ws|] == ws;
  }

  lemma {:induction false} OneMoreWheel(ws: seq<File>, i: nat)
    requires i < |ws|
    ensures WheelLines(ws[..i + 1]) ==
      WheelLines(ws[..i]) + [Empty] + [ArrayHeader(["packages", "wheels"])] + FileLines(ws[i])
  {
    hide FileLines;
    if i > 0 {
      OneMoreWheel(ws[1..], i - 1);
      FrontOfRest(ws, i);
      FrontOfRest(ws, i - 1);
    }
  }

  method RenderPackages(p: Printable, ps: seq<Package>) returns (s: string)
    ensures s == LinesText(p, PackagesLines(ps))
  {
    hide LinesText, PackageLines;
    NoText(p);
    s := "";
    for i := 0 to |ps|
      invariant s == LinesText(p, PackagesLines(ps[..i]))
    {
      var text := RenderPackage(p, ps[i]);
      TextConcat(p, PackagesLines(ps[..i]), PackageLines(ps[i]));
      s := s + text;
      OneMorePackage(ps, i);
    }
    assert ps[..|ps|] == ps;
  }

  lemma {:induction false} OneMorePackage(ps: seq<Package>, i: nat)
    requires i < |ps|
    ensures PackagesLines(ps[..i + 1]) == PackagesLines(ps[..i]) + PackageLines(ps[i])
  {
    hide PackageLines;
    if i > 0 {
      OneMorePackage(ps[1..], i - 1);
      FrontOfRest(ps, i);
      FrontOfRest(ps, i - 1);
    }
  }

  method Render(p: Printable, l: Lock) returns (s: string)
    ensures s == Text(p, l)
  {
    hide LinesText, LineText, Sort, PackageLess, PackagesLines, BANNER, Default;
    NoText(p);
    ghost var ls: seq<Line> := [];
    s := RenderLines(p, "", ls, Comment(BANNER));
    ls := ls + [Comment(BANNER)];
    var version := OneString(Default(l.lockVersion, "1.0"));
    s := RenderLines(p, s, ls, Pair("lock-version", version));
    ls := ls + [Pair("lock-version", version)];
    var creator := OneString(Default(l.createdBy, "mochi"));
    s := RenderLines(p, s, ls, Pair("created-by", creator));
    ls := ls + [Pair("created-by", creator)];
    if l.requiresPython != "" {
      s := RenderLines(p, s, ls, Pair("requires-python", OneString(l.requiresPython)));
      ls := ls + [Pair("requires-python", OneString(l.requiresPython))];
    }
    s := RenderLines(p, s, ls, Empty);
    ls := ls + [Empty];
    assert ls == TopLines(l);
    var pkgs := SortedCopy(PackageLess, l.packages);
    var text := RenderPackages(p, pkgs);
    TextConcat(p, ls, PackagesLines(pkgs));
    s := s + text;
  }

  // ---- ParsePyLock ----

  method ParseFile(low: char -> char, t: Table) returns (r: Option<File>)
    ensures r.Some? <==> FileOk(t)
    ensures r.Some? ==> ReadsFile(low, t, r.value)
  {
    hide Lower;
    if !RequiredString(t, "name") || !RequiredString(t, "url") || "hashes" !in t || !t["hashes"].Sub? {
      return None;
    }
    var h := t["hashes"].table;
    var hashes: map<string, string> := map[];
    var todo := h.Keys;
    while todo != {}
      invariant todo <= h.Keys
      invariant forall k :: k in h && k !in todo ==> h[k].Str?
      invariant forall k :: k in hashes <==> exists k' <- h :: k' !in todo && Lower(low, k') == k
      invariant forall k <- hashes :: exists k' <- h ::
        k' !in todo && h[k'].Str? && Lower(low, k') == k && hashes[k] == Lower(low, h[k'].text)
    {
      var k :| k in todo;
      if !h[k].Str? {
        return None;
      }
      todo := todo - {k};
      hashes := hashes[Lower(low, k) := Lower(low, h[k].text)];
    }
    if hashes == map[] {
      assert forall k :: k in h ==> Lower(low, k) in hashes;
      assert h == map[];
      return None;
    }
    assert h != map[] by {
      var k :| k in hashes;
    }
    return Some(File(t["name"].text, t["url"].text, hashes));
  }

  method ParseFiles(low: char -> char, ts: seq<Table>) returns (r: Option<seq<File>>)
    ensures r.Some? <==> forall i | 0 <= i < |ts| :: FileOk(ts[i])
    ensures r.Some? ==> ReadsFiles(low, ts, r.value)
  {
    hide FileOk, ReadsFile;
    var fs := [];
    for i := 0 to |ts|
      invariant |fs| == i && forall j | 0 <= j < i :: FileOk(ts[j]) && ReadsFile(low, ts[j], fs[j])
    {
      var f := ParseFile(low, ts[i]);
      if f.None? {
        return None;
      }
      fs := fs + [f.value];
    }
    return Some(fs);
  }

  method ParseStrings(vs: seq<Value>) returns (r: Option<seq<string>>)
    ensures r.Some? <==> forall i | 0 <= i < |vs| :: vs[i].Str?
    ensures r.Some? ==> |r.value| == |vs| && forall i | 0 <= i < |vs| :: vs[i] == Str(r.value[i])
  {
    var ss := [];
    for i := 0 to |vs|
      invariant |ss| == i && forall j | 0 <= j < i :: vs[j] == Str(ss[j])
    {
      if !vs[i].Str? {
        return None;
      }
      ss := ss + [vs[i].text];
    }
    return Some(ss);
  }

  method ParsePackage(low: char -> char, t: Table) returns (r: Option<Package>)
    ensures r.Some? <==> PackageOk(t)
    ensures r.Some? ==> ReadsPackage(low, t, r.value)
  {
    hide FileOk, ReadsFile;
    if !RequiredString(t, "name") || !RequiredString(t, "version") ||
      !OptionalString(t, "marker") || !OptionalString(t, "requires-python") {
      return None;
    }
    var p := Package(t["name"].text, t["version"].text, StringAt(t, "marker"), StringAt(t, "requires-python"),
                     [], [], None);
    if "dependencies" in t {
      if !t["dependencies"].Items? {
        return None;
      }
      var deps := ParseStrings(t["dependencies"].items);
      if deps.None? {
        return None;
      }
      p := p.(dependencies := deps.value);
    }
    if "wheels" in t && !t["wheels"].Tables? {
      return None;
    }
    var wheels := ParseFiles(low, TablesAt(t, "wheels"));
    if wheels.None? {
      return None;
    }
    p := p.(wheels := wheels.value);
    if "sdist" in t {
      if !t["sdist"].Sub? {
        return None;
      }
      var f := ParseFile(low, t["sdist"].table);
      if f.None? {
        return None;
      }
      p := p.(sdist := f);
    }
    return Some(p);
  }

  method ParsePyLock(low: char -> char, src: string) returns (r: Option<Lock>)
    ensures r.Some? <==> TomlText.Parse(src).Some? && LockOk(TomlText.Parse(src).value)
    ensures r.Some? ==> ReadsLock(low, TomlText.Parse(src).value, r.value)
  {
    hide PackageOk, ReadsPackage, TomlText.Parse;
    var tree := TomlParser.Parse(src);
    if tree.None? {
      return None;
    }
    var t := tree.value;
    if !OptionalString(t, "lock-version") || !OptionalString(t, "created-by") ||
       !OptionalString(t, "requires-python") ||
      !TablesOk(t, "packages") {
      return None;
    }
    var ts := TablesAt(t, "packages");
    var ps := [];
    for i := 0 to |ts|
      invariant |ps| == i && forall j | 0 <= j < i :: PackageOk(ts[j]) && ReadsPackage(low, ts[j], ps[j])
    {
      var p := ParsePackage(low, ts[i]);
      if p.None? {
        return None;
      }
      ps := ps + [p.value];
    }
    return Some(Lock(StringAt(t, "lock-version"), StringAt(t, "created-by"), StringAt(t, "requires-python"), ps));
  }
}
