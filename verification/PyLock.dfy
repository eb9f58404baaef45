// PEP 751 lock files of uv/pylock.go: what is printed, and what is read out of
// a table tree.
module PyLock {
  import opened Options
  import opened Orders
  import opened StableSort
  import opened TomlTables
  import opened TomlPrint

  datatype File = File(name: string, url: string, hashes: map<string, string>)

  datatype Package = Package(
    name: string, version: string, marker: string, requiresPython: string,
    dependencies: seq<string>, wheels: seq<File>, sdist: Option<File>)

  datatype Lock = Lock(lockVersion: string, createdBy: string, requiresPython: string, packages: seq<Package>)

  // ---- Sorting ----

  predicate PackageLess(a: Package, b: Package) {
    if a.name != b.name then StringLess(a.name, b.name) else StringLess(a.version, b.version)
  }

  predicate FileLess(a: File, b: File) {
    StringLess(a.name, b.name)
  }

  // xs lists the keys in ascending order.
  ghost predicate Ascending(keys: set<string>, xs: seq<string>) {
    && (forall i, j | 0 <= i < j < |xs| :: StringLess(xs[i], xs[j]))
    && (forall k :: k in keys <==> k in xs)
  }

  lemma LessIsStrict(a: string, b: string, c: string)
    ensures !StringLess(a, a)
    ensures StringLess(a, b) ==> !StringLess(b, a)
    ensures StringLess(a, b) && StringLess(b, c) ==> StringLess(a, c)
    ensures !StringLess(a, b) && !StringLess(b, c) ==> !StringLess(a, c)
    ensures StringLess(a, b) || a == b || StringLess(b, a)
  {
    StringsCoherent(a, b, c);
    StringsCoherent(a, a, a);
    StringsEqualIff(a, b);
  }

  lemma StringsWeak()
    ensures Weak(StringLess)
  {
    hide StringLess;
    forall x, y ensures StringLess(x, y) ==> !StringLess(y, x) {
      LessIsStrict(x, y, y);
    }
    forall x, y, z ensures !StringLess(x, y) && !StringLess(y, z) ==> !StringLess(x, z) {
      LessIsStrict(x, y, z);
    }
  }

  lemma {:induction false} AscendingUnique(keys: set<string>, xs: seq<string>, ys: seq<string>)
    requires Ascending(keys, xs) && Ascending(keys, ys)
    ensures xs == ys
    decreases |xs|
  {
    hide StringLess;
    EmptyIff(keys, xs);
    EmptyIff(keys, ys);
    if xs != [] {
      assert xs[0] in keys && ys[0] in keys;
      FirstIsLeast(keys, xs, ys[0]);
      FirstIsLeast(keys, ys, xs[0]);
      LessIsStrict(xs[0], ys[0], xs[0]);
      RestAscends(keys, xs);
      RestAscends(keys, ys);
      AscendingUnique(keys - {xs[0]}, xs[1..], ys[1..]);
    }
  }

  lemma EmptyIff(keys: set<string>, xs: seq<string>)
    requires Ascending(keys, xs)
    ensures xs == [] <==> keys == {}
  {
    if xs != [] {
      assert xs[0] in keys;
    } else {
      assert forall k :: k !in keys;
    }
  }

  lemma FirstIsLeast(keys: set<string>, xs: seq<string>, k: string)
    requires Ascending(keys, xs) && k in keys
    ensures xs != [] && (k == xs[0] || StringLess(xs[0], k))
  {
    assert k in xs;
    var i :| 0 <= i < |xs| && xs[i] == k;
  }

  lemma RestAscends(keys: set<string>, xs: seq<string>)
    requires Ascending(keys, xs) && xs != []
    ensures Ascending(keys - {xs[0]}, xs[1..])
  {
    hide StringLess;
    assert xs == [xs[0]] + xs[1..];
    forall k | k in xs[1..] ensures k != xs[0] {
      var i :| 0 <= i < |xs| - 1 && xs[1..][i] == k;
      assert xs[i + 1] == k;
      LessIsStrict(k, k, k);
    }
  }

  lemma {:induction false} AscendingExists(keys: set<string>) returns (xs: seq<string>)
    ensures Ascending(keys, xs)
    decreases keys
  {
    if keys == {} {
      xs := [];
    } else {
      var k :| k in keys;
      var rest := AscendingExists(keys - {k});
      xs := Placed(keys - {k}, rest, k);
      assert keys - {k} + {k} == keys;
    }
  }

  lemma {:induction false} Placed(keys: set<string>, xs: seq<string>, k: string) returns (ys: seq<string>)
    requires Ascending(keys, xs) && k !in keys
    ensures Ascending(keys + {k}, ys)
    decreases |xs|
  {
    hide StringLess;
    if xs == [] {
      ys := [k];
    } else {
      assert xs[0] in xs;
      LessIsStrict(k, xs[0], k);
      if StringLess(k, xs[0]) {
        ys := [k] + xs;
        forall j | 0 <= j < |xs| ensures StringLess(k, xs[j]) {
          LessIsStrict(k, xs[0], xs[j]);
        }
      } else {
        RestAscends(keys, xs);
        var rest := Placed(keys - {xs[0]}, xs[1..], k);
        ys := [xs[0]] + rest;
        forall j | 0 <= j < |rest| ensures StringLess(xs[0], rest[j]) {
          assert rest[j] in rest;
          if rest[j] != k {
            FirstIsLeast(keys, xs, rest[j]);
          }
        }
        assert xs == [xs[0]] + xs[1..];
      }
    }
  }

  // The keys in ascending order.
  ghost function SortedKeys(keys: set<string>): (xs: seq<string>)
    ensures Ascending(keys, xs)
  {
    assert exists xs :: Ascending(keys, xs) by {
      var xs := AscendingExists(keys);
    }
    var xs :| Ascending(keys, xs);
    xs
  }

  // ---- What is printed ----

  ghost function Entries(hashes: map<string, string>): seq<(string, string)> {
    EntriesOf(hashes, SortedKeys(hashes.Keys))
  }

  function EntriesOf(hashes: map<string, string>, keys: seq<string>): (es: seq<(string, string)>)
    requires forall k <- keys :: k in hashes
    ensures |es| == |keys| && forall i | 0 <= i < |es| :: es[i] == (keys[i], hashes[keys[i]])
  {
    if keys == [] then [] else [(keys[0], hashes[keys[0]])] + EntriesOf(hashes, keys[1..])
  }

  // renderFile.
  ghost function FileLines(f: File): seq<Line> {
    [Pair("name", OneString(f.name)), Pair("url", OneString(f.url)), Pair("hashes", StringTable(Entries(f.hashes)))]
  }

  ghost function WheelLines(ws: seq<File>): seq<Line> {
    if ws == [] then [] else [Empty, ArrayHeader(["packages", "wheels"])] + FileLines(ws[0]) + WheelLines(ws[1..])
  }

  ghost function SdistLines(sdist: Option<File>): seq<Line> {
    match sdist
    case None => []
    case Some(f) => [Empty, Header(["packages", "sdist"])] + FileLines(f)
  }

  function Unless(empty: bool, l: Line): seq<Line> {
    if empty then [] else [l]
  }

  function FieldLines(p: Package): seq<Line> {
    [ArrayHeader(["packages"]), Pair("name", OneString(p.name)), Pair("version", OneString(p.version))]
    + Unless(p.requiresPython == "", Pair("requires-python", OneString(p.requiresPython)))
    + Unless(p.marker == "", Pair("marker", OneString(p.marker)))
    + Unless(p.dependencies == [], Pair("dependencies", StringList(Sort(StringLess, p.dependencies))))
  }

  ghost function PackageLines(p: Package): seq<Line> {
    FieldLines(p) + WheelLines(Sort(FileLess, p.wheels)) + SdistLines(p.sdist) + [Empty]
  }

  ghost function PackagesLines(ps: seq<Package>): seq<Line> {
    if ps == [] then [] else PackageLines(ps[0]) + PackagesLines(ps[1..])
  }

  const BANNER := " Generated by mochi-python" + "-bridge. PEP 751 lockfile."

  function Default(s: string, default: string): string {
    if s == "" then default else s
  }

  function TopLines(l: Lock): seq<Line> {
    [Comment(BANNER),
     Pair("lock-version", OneString(Default(l.lockVersion, "1.0"))),
     Pair("created-by", OneString(Default(l.createdBy, "mochi")))]
    + Unless(l.requiresPython == "", Pair("requires-python", OneString(l.requiresPython)))
    + [Empty]
  }

  ghost function LockLines(l: Lock): seq<Line> {
    TopLines(l) + PackagesLines(Sort(PackageLess, l.packages))
  }

  ghost function Text(p: Printable, l: Lock): string {
    LinesText(p, LockLines(l))
  }

  // ---- What is read ----

  // strings.ToLower, one character at a time.
  function Lower(low: char -> char, s: string): (r: string)
    ensures |r| == |s| && forall i | 0 <= i < |s| :: r[i] == low(s[i])
  {
    if s == "" then "" else [low(s[0])] + Lower(low, s[1..])
  }

  // Decoder.String: absent, or a string.
  predicate OptionalString(t: Table, key: string) {
    key in t ==> t[key].Str?
  }

  predicate RequiredString(t: Table, key: string) {
    key in t && t[key].Str?
  }

  function StringAt(t: Table, key: string): string {
    if key in t && t[key].Str? then t[key].text else ""
  }

  predicate FileOk(t: Table) {
    && RequiredString(t, "name") && RequiredString(t, "url")
    && "hashes" in t && t["hashes"].Sub? && t["hashes"].table != map[]
    && forall k <- t["hashes"].table :: t["hashes"].table[k].Str?
  }

  // parsePyLockFile. When two keys are the same in lower case, either may win.
  ghost predicate ReadsFile(low: char -> char, t: Table, f: File) {
    && FileOk(t) && f.name == StringAt(t, "name") && f.url == StringAt(t, "url")
    && ReadsHashes(low, t["hashes"].table, f.hashes)
  }

  ghost predicate ReadsHashes(low: char -> char, h: Table, hashes: map<string, string>)
    requires forall k <- h :: h[k].Str?
  {
    && (forall k :: k in hashes <==> exists k' <- h :: Lower(low, k') == k)
    && (forall k <- hashes :: exists k' <- h :: Lower(low, k') == k && hashes[k] == Lower(low, h[k'].text))
  }

  predicate ListOk(t: Table, key: string) {
    key in t ==> t[key].Items? && forall i | 0 <= i < |t[key].items| :: t[key].items[i].Str?
  }

  predicate TablesOk(t: Table, key: string) {
    key in t ==> t[key].Tables?
  }

  function TablesAt(t: Table, key: string): seq<Table> {
    if key in t && t[key].Tables? then t[key].tables else []
  }

  predicate PackageOk(t: Table) {
    && RequiredString(t, "name") && RequiredString(t, "version")
    && OptionalString(t, "marker") && OptionalString(t, "requires-python") && ListOk(t, "dependencies")
    && TablesOk(t, "wheels") && (forall i | 0 <= i < |TablesAt(t, "wheels")| :: FileOk(TablesAt(t, "wheels")[i]))
    && ("sdist" in t ==> t["sdist"].Sub? && FileOk(t["sdist"].table))
  }

  ghost predicate ReadsList(t: Table, key: string, ss: seq<string>) {
    if key in t && t[key].Items? then
      |ss| == |t[key].items| && forall i | 0 <= i < |ss| :: t[key].items[i] == Str(ss[i])
    else ss == []
  }

  ghost predicate ReadsFiles(low: char -> char, ts: seq<Table>, fs: seq<File>) {
    |fs| == |ts| && forall i | 0 <= i < |fs| :: ReadsFile(low, ts[i], fs[i])
  }

  // parsePyLockPackage.
  ghost predicate ReadsPackage(low: char -> char, t: Table, p: Package) {
    && PackageOk(t) && p.name == StringAt(t, "name") && p.version == StringAt(t, "version")
    && p.marker == StringAt(t, "marker") && p.requiresPython == StringAt(t, "requires-python")
    && ReadsList(t, "dependencies", p.dependencies) && ReadsFiles(low, TablesAt(t, "wheels"), p.wheels)
    && (if "sdist" in t then p.sdist.Some? && ReadsFile(low, t["sdist"].table, p.sdist.value) else p.sdist.None?)
  }

  predicate LockOk(t: Table) {
    && OptionalString(t, "lock-version") && OptionalString(t, "created-by") && OptionalString(t, "requires-python")
    && TablesOk(t, "packages") && forall i | 0 <= i < |TablesAt(t, "packages")| :: PackageOk(TablesAt(t, "packages")[i])
  }

  ghost predicate ReadsPackages(low: char -> char, ts: seq<Table>, ps: seq<Package>) {
    |ps| == |ts| && forall i | 0 <= i < |ps| :: ReadsPackage(low, ts[i], ps[i])
  }

  // ParsePyLock, from the tree on.
  ghost predicate ReadsLock(low: char -> char, t: Table, l: Lock) {
    && LockOk(t) && l.lockVersion == StringAt(t, "lock-version") && l.createdBy == StringAt(t, "created-by")
    && l.requiresPython == StringAt(t, "requires-python") && ReadsPackages(low, TablesAt(t, "packages"), l.packages)
  }

  // ---- The lock that a lock is printed as ----

  function CanonicalPackage(p: Package): Package {
    p.(dependencies := Sort(StringLess, p.dependencies), wheels := Sort(FileLess, p.wheels))
  }

  function CanonicalPackages(ps: seq<Package>): (r: seq<Package>)
    ensures |r| == |ps| && forall i | 0 <= i < |r| :: r[i] == CanonicalPackage(ps[i])
  {
    if ps == [] then [] else [CanonicalPackage(ps[0])] + CanonicalPackages(ps[1..])
  }

  // The defaults filled in, and packages, dependencies and wheels sorted.
  function Canonical(l: Lock): Lock {
    Lock(Default(l.lockVersion, "1.0"), Default(l.createdBy, "mochi"), l.requiresPython,
         CanonicalPackages(Sort(PackageLess, l.packages)))
  }

  // ---- Which locks can be printed and read back ----

  predicate GoodFile(p: Printable, low: char -> char, f: File) {
    && Quotable(p, f.name) && Quotable(p, f.url) && f.hashes != map[]
    && forall k <- f.hashes ::
         BareKey(k) && Lower(low, k) == k && Quotable(p, f.hashes[k]) && Lower(low, f.hashes[k]) == f.hashes[k]
  }

  predicate GoodPackage(p: Printable, low: char -> char, k: Package) {
    && Quotable(p, k.name) && Quotable(p, k.version) && Quotable(p, k.marker) && Quotable(p, k.requiresPython)
    && AllQuotable(p, k.dependencies)
    && (forall i | 0 <= i < |k.wheels| :: GoodFile(p, low, k.wheels[i]))
    && (k.sdist.Some? ==> GoodFile(p, low, k.sdist.value))
  }

  // Strings that Go quotes with escapes TOML knows, and hashes under bare keys
  // in lower case, at least one to a file.
  predicate GoodLock(p: Printable, low: char -> char, l: Lock) {
    && Quotable(p, l.lockVersion) && Quotable(p, l.createdBy) && Quotable(p, l.requiresPython)
    && forall i | 0 <= i < |l.packages| :: GoodPackage(p, low, l.packages[i])
  }
}
