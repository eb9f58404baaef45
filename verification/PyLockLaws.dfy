// What a lock file is after it was printed and read.
module PyLockLaws {
  import opened Options
  import opened Orders
  import opened StableSort
  import opened TomlTables
  import TomlText
  import opened TomlPrint
  import opened TomlRoundTrip
  import opened PyLock
  import opened PyLockRoundTrip

  // ---- Every printed line can be read ----

  lemma GoodConcat(p: Printable, a: seq<Line>, b: seq<Line>)
    requires GoodLines(p, a) && GoodLines(p, b)
    ensures GoodLines(p, a + b)
  {
    hide GoodLine;
  }

  lemma GoodOne(p: Printable, l: Line)
    requires GoodLine(p, l)
    ensures GoodLines(p, [l]) && GoodLines(p, [Empty, l])
  {
  }

  lemma KeysAreBare()
    ensures BareKey("name") && BareKey("url") && BareKey("hashes") && BareKey("version") && BareKey("marker")
    ensures BareKey("dependencies") && BareKey("requires-python") && BareKey("lock-version") && BareKey("created-by")
    ensures BareKey("packages") && BareKey("wheels") && BareKey("sdist")
  {
  }

  lemma GoodFileLines(p: Printable, low: char -> char, f: File)
    requires GoodFile(p, low, f)
    ensures GoodLines(p, FileLines(f))
  {
    hide BareKey, Quotable, SortedKeys;
    KeysAreBare();
    var es := Entries(f.hashes);
    var keys := SortedKeys(f.hashes.Keys);
    forall i | 0 <= i < |es| ensures BareKey(es[i].0) && Quotable(p, es[i].1) {
      assert keys[i] in keys;
    }
    KeysDiffer(f.hashes.Keys, keys);
    assert GoodEntries(p, es);
  }

  lemma KeysDiffer(keys: set<string>, xs: seq<string>)
    requires Ascending(keys, xs)
    ensures forall i, j | 0 <= i < j < |xs| :: xs[i] != xs[j]
  {
    hide StringLess;
    forall i, j | 0 <= i < j < |xs| ensures xs[i] != xs[j] {
      LessIsStrict(xs[i], xs[i], xs[i]);
      assert StringLess(xs[i], xs[j]);
    }
  }

  lemma HeadersAreGood(p: Printable)
    ensures GoodLines(p, [ArrayHeader(["packages"])])
    ensures GoodLines(p, [Empty, ArrayHeader(["packages", "wheels"])])
    ensures GoodLines(p, [Empty, Header(["packages", "sdist"])])
    ensures GoodLines(p, [Empty]) && GoodLines(p, []) && GoodLine(p, Comment(BANNER))
  {
    hide BareKey, BANNER;
    KeysAreBare();
    BannerIsOneLine();
  }

  lemma BannerIsOneLine()
    ensures '\n' !in BANNER
  {
    BannerStart();
    BannerEnd();
  }

  lemma BannerStart()
    ensures '\n' !in " Generated by mochi-python"
  {
  }

  lemma BannerEnd()
    ensures '\n' !in "-bridge. PEP 751 lockfile."
  {
  }

  lemma {:induction false} GoodWheelLines(p: Printable, low: char -> char, ws: seq<File>)
    requires forall i | 0 <= i < |ws| :: GoodFile(p, low, ws[i])
    ensures GoodLines(p, WheelLines(ws))
    decreases |ws|
  {
    hide GoodFile, GoodLines, FileLines;
    HeadersAreGood(p);
    if ws != [] {
      GoodFileLines(p, low, ws[0]);
      GoodWheelLines(p, low, ws[1..]);
      GoodConcat(p, [Empty, ArrayHeader(["packages", "wheels"])], FileLines(ws[0]));
      GoodConcat(p, [Empty, ArrayHeader(["packages", "wheels"])] + FileLines(ws[0]), WheelLines(ws[1..]));
    }
  }

  lemma GoodPair(p: Printable, absent: bool, key: string, s: string)
    requires BareKey(key) && Quotable(p, s)
    ensures GoodLines(p, [Pair(key, OneString(s))]) && GoodLines(p, Unless(absent, Pair(key, OneString(s))))
  {
    hide BareKey, Quotable;
  }

  lemma GoodFieldLines(p: Printable, low: char -> char, k: Package)
    requires GoodPackage(p, low, k)
    ensures GoodLines(p, FieldLines(k))
  {
    hide BareKey, Quotable, Sort, StringLess, GoodLines, GoodFile, Unless;
    KeysAreBare();
    HeadersAreGood(p);
    GoodPair(p, false, "name", k.name);
    GoodPair(p, false, "version", k.version);
    GoodPair(p, k.requiresPython == "", "requires-python", k.requiresPython);
    GoodPair(p, k.marker == "", "marker", k.marker);
    GoodDependencies(p, k);
    var a := [ArrayHeader(["packages"])];
    var b, c := [Pair("name", OneString(k.name))], [Pair("version", OneString(k.version))];
    var x := Unless(k.requiresPython == "", Pair("requires-python", OneString(k.requiresPython)));
    var y := Unless(k.marker == "", Pair("marker", OneString(k.marker)));
    var z := Unless(k.dependencies == [], Pair("dependencies", StringList(Sort(StringLess, k.dependencies))));
    GoodConcat(p, a, b);
    GoodConcat(p, a + b, c);
    GoodConcat(p, a + b + c, x);
    GoodConcat(p, a + b + c + x, y);
    GoodConcat(p, a + b + c + x + y, z);
    assert a + b + c ==
      [ArrayHeader(["packages"]), Pair("name", OneString(k.name)), Pair("version", OneString(k.version))];
  }

  lemma GoodDependencies(p: Printable, k: Package)
    requires AllQuotable(p, k.dependencies)
    ensures var deps := StringList(Sort(StringLess, k.dependencies));
      GoodLines(p, Unless(k.dependencies == [], Pair("dependencies", deps)))
  {
    hide BareKey, Quotable, Sort, StringLess;
    KeysAreBare();
    var ds := Sort(StringLess, k.dependencies);
    forall i | 0 <= i < |ds| ensures Quotable(p, ds[i]) {
      SortHas(StringLess, k.dependencies, i);
    }
  }

  lemma GoodPackageLines(p: Printable, low: char -> char, k: Package)
    requires GoodPackage(p, low, k)
    ensures GoodLines(p, PackageLines(k))
  {
    hide GoodLines, GoodFile, FieldLines, WheelLines, FileLines, Quotable, Sort, FileLess;
    HeadersAreGood(p);
    var ws := Sort(FileLess, k.wheels);
    forall i | 0 <= i < |ws| ensures GoodFile(p, low, ws[i]) {
      SortHas(FileLess, k.wheels, i);
    }
    GoodFieldLines(p, low, k);
    GoodWheelLines(p, low, ws);
    if k.sdist.Some? {
      GoodFileLines(p, low, k.sdist.value);
      GoodConcat(p, [Empty, Header(["packages", "sdist"])], FileLines(k.sdist.value));
    }
    GoodConcat(p, FieldLines(k), WheelLines(ws));
    GoodConcat(p, FieldLines(k) + WheelLines(ws), SdistLines(k.sdist));
    GoodConcat(p, FieldLines(k) + WheelLines(ws) + SdistLines(k.sdist), [Empty]);
  }

  lemma {:induction false} GoodPackagesLines(p: Printable, low: char -> char, ks: seq<Package>)
    requires forall i | 0 <= i < |ks| :: GoodPackage(p, low, ks[i])
    ensures GoodLines(p, PackagesLines(ks))
    decreases |ks|
  {
    hide GoodPackage, GoodLines, PackageLines;
    HeadersAreGood(p);
    if ks != [] {
      GoodPackageLines(p, low, ks[0]);
      GoodPackagesLines(p, low, ks[1..]);
      GoodConcat(p, PackageLines(ks[0]), PackagesLines(ks[1..]));
    }
  }

  lemma DefaultsAreQuotable(p: Printable, l: Lock)
    requires Quotable(p, l.lockVersion) && Quotable(p, l.createdBy)
    ensures Quotable(p, Default(l.lockVersion, "1.0")) && Quotable(p, Default(l.createdBy, "mochi"))
  {
  }

  lemma GoodLockLines(p: Printable, low: char -> char, l: Lock)
    requires GoodLock(p, low, l)
    ensures GoodLines(p, LockLines(l))
  {
    hide GoodPackage, GoodLines, PackagesLines, Quotable, BareKey, Sort, PackageLess, GoodLine, Unless, Default;
    KeysAreBare();
    HeadersAreGood(p);
    DefaultsAreQuotable(p, l);
    var ps := Sort(PackageLess, l.packages);
    forall i | 0 <= i < |ps| ensures GoodPackage(p, low, ps[i]) {
      SortHas(PackageLess, l.packages, i);
    }
    GoodPackagesLines(p, low, ps);
    GoodOne(p, Comment(BANNER));
    GoodPair(p, false, "lock-version", Default(l.lockVersion, "1.0"));
    GoodPair(p, false, "created-by", Default(l.createdBy, "mochi"));
    GoodPair(p, l.requiresPython == "", "requires-python", l.requiresPython);
    var a, b, c := [Comment(BANNER)], [Pair("lock-version", OneString(Default(l.lockVersion, "1.0")))],
      [Pair("created-by", OneString(Default(l.createdBy, "mochi")))];
    var x := Unless(l.requiresPython == "", Pair("requires-python", OneString(l.requiresPython)));
    GoodConcat(p, a, b);
    GoodConcat(p, a + b, c);
    GoodConcat(p, a + b + c, x);
    GoodConcat(p, a + b + c + x, [Empty]);
    GoodConcat(p, a + b + c + x + [Empty], PackagesLines(ps));
    assert a + b + c == [Comment(BANNER), Pair("lock-version", OneString(Default(l.lockVersion, "1.0"))),
                         Pair("created-by", OneString(Default(l.createdBy, "mochi")))];
  }

  // ---- The tables of a lock are read as its canonical form ----

  lemma FileIsRead(p: Printable, low: char -> char, f: File, f': File)
    requires GoodFile(p, low, f)
    ensures ReadsFile(low, FileTable(f), f') <==> f' == f
  {
    hide Quotable, BareKey, Lower, ReadsHashes;
    FileTableOk(f);
    HashesAreRead(low, f.hashes, f'.hashes);
  }

  lemma HashesAreRead(low: char -> char, hashes: map<string, string>, hashes': map<string, string>)
    requires forall k <- hashes :: Lower(low, k) == k && Lower(low, hashes[k]) == hashes[k]
    ensures ReadsHashes(low, HashTable(hashes), hashes') <==> hashes' == hashes
  {
    hide Lower;
    var h := HashTable(hashes);
    assert h.Keys == hashes.Keys && forall k <- h :: h[k] == Str(hashes[k]);
    if ReadsHashes(low, h, hashes') {
      assert hashes'.Keys == hashes.Keys;
      assert forall k <- hashes' :: hashes'[k] == hashes[k];
    }
  }

  lemma FileTableOk(f: File)
    requires f.hashes != map[]
    ensures FileOk(FileTable(f))
    ensures StringAt(FileTable(f), "name") == f.name && StringAt(FileTable(f), "url") == f.url
  {
    var h := HashTable(f.hashes);
    var k :| k in f.hashes;
    assert k in h;
  }

  lemma FilesAreRead(p: Printable, low: char -> char, fs: seq<File>, fs': seq<File>)
    requires forall i | 0 <= i < |fs| :: GoodFile(p, low, fs[i])
    ensures ReadsFiles(low, FileTables(fs), fs') <==> fs' == fs
  {
    hide GoodFile, ReadsFile, FileTable;
    forall i, f' | 0 <= i < |fs| ensures ReadsFile(low, FileTable(fs[i]), f') <==> f' == fs[i] {
      FileIsRead(p, low, fs[i], f');
    }
  }

  // The fields of a printed package.
  lemma PackageFields(p: Package)
    ensures var t := PackageTable(p);
      && RequiredString(t, "name") && StringAt(t, "name") == p.name
      && RequiredString(t, "version") && StringAt(t, "version") == p.version
      && OptionalString(t, "marker") && StringAt(t, "marker") == p.marker
      && OptionalString(t, "requires-python") && StringAt(t, "requires-python") == p.requiresPython
      && TablesOk(t, "wheels") && TablesAt(t, "wheels") == FileTables(Sort(FileLess, p.wheels))
      && ("sdist" in t <==> p.sdist.Some?) && (p.sdist.Some? ==> t["sdist"] == Sub(FileTable(p.sdist.value)))
    ensures var t := PackageTable(p);
      if p.dependencies == [] then "dependencies" !in t
      else "dependencies" in t && t["dependencies"] == Items(Strings(Sort(StringLess, p.dependencies)))
  {
    hide FileTable, FileTables, Sort, Strings, FileLess, StringLess;
  }

  lemma DependenciesAreRead(p: Package, ss: seq<string>)
    ensures ListOk(PackageTable(p), "dependencies")
    ensures ReadsList(PackageTable(p), "dependencies", ss) <==> ss == Sort(StringLess, p.dependencies)
  {
    hide PackageTable, Sort, StringLess;
    PackageFields(p);
    var ds := Sort(StringLess, p.dependencies);
    if p.dependencies == [] {
      assert ds == [];
    } else if ReadsList(PackageTable(p), "dependencies", ss) {
      forall i | 0 <= i < |ss| ensures ss[i] == ds[i] {
        assert Strings(ds)[i] == Str(ss[i]);
      }
    }
  }

  lemma PackageIsRead(p: Printable, low: char -> char, k: Package, k': Package)
    requires GoodPackage(p, low, k)
    ensures ReadsPackage(low, PackageTable(k), k') <==> k' == CanonicalPackage(k)
    ensures PackageOk(PackageTable(k))
  {
    hide PackageTable, Sort, StringLess, FileLess, GoodFile, Quotable;
    hide FileTable, ReadsFile, FileOk, ListOk, ReadsList, ReadsFiles;
    var ws := Sort(FileLess, k.wheels);
    forall i | 0 <= i < |ws| ensures GoodFile(p, low, ws[i]) {
      SortHas(FileLess, k.wheels, i);
    }
    PackageFields(k);
    DependenciesAreRead(k, k'.dependencies);
    FilesAreRead(p, low, ws, k'.wheels);
    forall i | 0 <= i < |ws| ensures FileOk(FileTables(ws)[i]) {
      HashesNotEmpty(p, low, ws[i]);
      FileTableOk(ws[i]);
    }
    if k.sdist.Some? {
      HashesNotEmpty(p, low, k.sdist.value);
      FileTableOk(k.sdist.value);
      if k'.sdist.Some? {
        FileIsRead(p, low, k.sdist.value, k'.sdist.value);
      }
    }
  }

  lemma HashesNotEmpty(p: Printable, low: char -> char, f: File)
    requires GoodFile(p, low, f)
    ensures f.hashes != map[]
  {
  }

  lemma PackagesAreRead(p: Printable, low: char -> char, ks: seq<Package>, ks': seq<Package>)
    requires forall i | 0 <= i < |ks| :: GoodPackage(p, low, ks[i])
    ensures ReadsPackages(low, PackageTables(ks), ks') <==> ks' == CanonicalPackages(ks)
    ensures forall i | 0 <= i < |ks| :: PackageOk(PackageTables(ks)[i])
  {
    hide GoodPackage, ReadsPackage, PackageTable, CanonicalPackage, PackageOk;
    forall i, k' | 0 <= i < |ks|
      ensures ReadsPackage(low, PackageTable(ks[i]), k') <==> k' == CanonicalPackage(ks[i])
    {
      PackageIsRead(p, low, ks[i], k');
    }
    forall i | 0 <= i < |ks| ensures PackageOk(PackageTables(ks)[i]) {
      PackageIsRead(p, low, ks[i], ks[i]);
    }
  }

  lemma LockFields(l: Lock)
    ensures var t := LockTable(l);
      && OptionalString(t, "lock-version") && StringAt(t, "lock-version") == Default(l.lockVersion, "1.0")
      && OptionalString(t, "created-by") && StringAt(t, "created-by") == Default(l.createdBy, "mochi")
      && OptionalString(t, "requires-python") && StringAt(t, "requires-python") == l.requiresPython
      && TablesOk(t, "packages") && TablesAt(t, "packages") == PackageTables(Sort(PackageLess, l.packages))
  {
    hide PackageTables, Sort, PackageLess, Default;
  }

  lemma LockIsRead(p: Printable, low: char -> char, l: Lock, l': Lock)
    requires GoodLock(p, low, l)
    ensures LockOk(LockTable(l)) && (ReadsLock(low, LockTable(l), l') <==> l' == Canonical(l))
  {
    hide LockTable, Sort, PackageLess, GoodPackage, Quotable, ReadsPackages, CanonicalPackages, PackageOk, Default;
    var ps := Sort(PackageLess, l.packages);
    forall i | 0 <= i < |ps| ensures GoodPackage(p, low, ps[i]) {
      SortHas(PackageLess, l.packages, i);
    }
    LockFields(l);
    PackagesAreRead(p, low, ps, l'.packages);
  }

  // A printed lock file is read as the canonical form of what was printed, and
  // as nothing else: every wheel and sdist is with its own package again.
  lemma LockRoundTrip(p: Printable, low: char -> char, l: Lock)
    requires GoodLock(p, low, l)
    ensures TomlText.Parse(Text(p, l)) == Some(LockTable(l)) && LockOk(LockTable(l))
    ensures forall l' :: ReadsLock(low, LockTable(l), l') <==> l' == Canonical(l)
  {
    hide *;
    GoodLockLines(p, low, l);
    LinesParse(p, Doc(map[], []), LockLines(l));
    LockRuns(l);
    TextIs(p, l);
    LockIsRead(p, low, l, l);
    forall l' ensures ReadsLock(low, LockTable(l), l') <==> l' == Canonical(l) {
      LockIsRead(p, low, l, l');
    }
  }

  lemma TextIs(p: Printable, l: Lock)
    ensures Text(p, l) == LinesText(p, LockLines(l))
    ensures TomlText.Parse(Text(p, l)) == TomlText.ParseDocument(Doc(map[], []), Text(p, l))
  {
  }

  // ---- Printing does not depend on the order of the parts ----

  lemma FilesWeak()
    ensures Weak(FileLess)
  {
    hide StringLess;
    forall x, y ensures FileLess(x, y) ==> !FileLess(y, x) {
      LessIsStrict(x.name, y.name, y.name);
    }
    forall x, y, z ensures !FileLess(x, y) && !FileLess(y, z) ==> !FileLess(x, z) {
      LessIsStrict(x.name, y.name, z.name);
    }
  }

  lemma PackagesWeak()
    ensures Weak(PackageLess)
  {
    hide StringLess;
    forall x, y ensures PackageLess(x, y) ==> !PackageLess(y, x) {
      LessIsStrict(x.name, y.name, y.name);
      LessIsStrict(x.version, y.version, y.version);
    }
    forall x, y, z ensures !PackageLess(x, y) && !PackageLess(y, z) ==> !PackageLess(x, z) {
      LessIsStrict(x.name, y.name, z.name);
      LessIsStrict(y.name, x.name, x.name);
      LessIsStrict(z.name, y.name, y.name);
      LessIsStrict(z.name, x.name, x.name);
      LessIsStrict(x.version, y.version, z.version);
    }
  }

  lemma SortTwice<T(!new)>(less: (T, T) -> bool, xs: seq<T>)
    requires Weak(less)
    ensures Sort(less, Sort(less, xs)) == Sort(less, xs)
  {
    SortSorts(less, xs);
    SortOfSorted(less, Sort(less, xs));
  }

  lemma CanonicalPackageTwice(k: Package)
    ensures CanonicalPackage(CanonicalPackage(k)) == CanonicalPackage(k)
  {
    hide Sort, StringLess, FileLess;
    StringsWeak();
    FilesWeak();
    SortTwice(StringLess, k.dependencies);
    SortTwice(FileLess, k.wheels);
  }

  lemma CanonicalsAreSorted(ps: seq<Package>)
    requires Sorted(PackageLess, ps)
    ensures Sort(PackageLess, CanonicalPackages(ps)) == CanonicalPackages(ps)
    ensures CanonicalPackages(CanonicalPackages(ps)) == CanonicalPackages(ps)
  {
    hide PackageLess, Sort;
    var cs := CanonicalPackages(ps);
    forall i, j | 0 <= i < j < |cs| ensures !PackageLess(cs[j], cs[i]) {
      SameOrder(ps[j], ps[i]);
    }
    SortOfSorted(PackageLess, cs);
    forall i | 0 <= i < |cs| ensures CanonicalPackages(cs)[i] == cs[i] {
      CanonicalPackageTwice(ps[i]);
    }
  }

  lemma SameOrder(a: Package, b: Package)
    ensures PackageLess(CanonicalPackage(a), CanonicalPackage(b)) <==> PackageLess(a, b)
  {
    hide Sort, StringLess;
  }

  lemma CanonicalTwice(l: Lock)
    ensures Canonical(Canonical(l)) == Canonical(l)
  {
    hide Sort, PackageLess, CanonicalPackages;
    PackagesWeak();
    SortSorts(PackageLess, l.packages);
    CanonicalsAreSorted(Sort(PackageLess, l.packages));
  }

  lemma SamePackageLines(k: Package)
    ensures PackageLines(CanonicalPackage(k)) == PackageLines(k)
  {
    hide Sort, StringLess, FileLess, WheelLines, SdistLines, Unless;
    StringsWeak();
    FilesWeak();
    SortTwice(StringLess, k.dependencies);
    SortTwice(FileLess, k.wheels);
    assert k.dependencies == [] <==> Sort(StringLess, k.dependencies) == [];
  }

  lemma {:induction false} SamePackagesLines(ks: seq<Package>)
    ensures PackagesLines(CanonicalPackages(ks)) == PackagesLines(ks)
    decreases |ks|
  {
    hide PackageLines, CanonicalPackage;
    if ks != [] {
      SamePackageLines(ks[0]);
      SamePackagesLines(ks[1..]);
      assert CanonicalPackages(ks)[1..] == CanonicalPackages(ks[1..]);
    }
  }

  // Printing what was read prints the same text again.
  lemma PrintIsIdempotent(p: Printable, l: Lock)
    ensures Text(p, Canonical(l)) == Text(p, l)
  {
    hide LinesText, Sort, PackageLess, PackagesLines, CanonicalPackages, Unless;
    PackagesWeak();
    SortSorts(PackageLess, l.packages);
    var ps := Sort(PackageLess, l.packages);
    CanonicalsAreSorted(ps);
    SamePackagesLines(ps);
    assert TopLines(Canonical(l)) == TopLines(l);
  }
}
