// The canonical form of a lock (uv/pylock.go): by characters, not by the
// comparisons that the sorts are given.
module PyLockOrder {
  import opened Options
  import opened Orders
  import opened StableSort
  import opened PyLock
  import opened PyLockLaws

  // ---- What is in order ----

  // In ascending order, equal strings beside each other.
  ghost predicate StringsArranged(xs: seq<string>, of: seq<string>) {
    && multiset(xs) == multiset(of)
    && forall i, j | 0 <= i < j < |xs| :: !StringBefore(xs[j], xs[i])
  }

  // By name; files of one name keep their order.
  ghost predicate FilesArranged(fs: seq<File>, of: seq<File>) {
    && multiset(fs) == multiset(of)
    && (forall i, j | 0 <= i < j < |fs| :: !StringBefore(fs[j].name, fs[i].name))
    && forall name :: FilesNamed(fs, name) == FilesNamed(of, name)
  }

  function FilesNamed(fs: seq<File>, name: string): seq<File> {
    if fs == [] then []
    else
      var f := fs[|fs| - 1];
      FilesNamed(fs[..|fs| - 1], name) + if f.name == name then [f] else []
  }

  // By name, then by version; packages with both in common keep their order.
  ghost predicate PackagesArranged(ps: seq<Package>, of: seq<Package>) {
    && multiset(ps) == multiset(of)
    && (forall i, j | 0 <= i < j < |ps| ::
          || StringBefore(ps[i].name, ps[j].name)
          || (ps[i].name == ps[j].name && !StringBefore(ps[j].version, ps[i].version)))
    && forall name, version :: PackagesNamed(ps, name, version) == PackagesNamed(of, name, version)
  }

  function PackagesNamed(ps: seq<Package>, name: string, version: string): seq<Package> {
    if ps == [] then []
    else
      var p := ps[|ps| - 1];
      PackagesNamed(ps[..|ps| - 1], name, version) + if p.name == name && p.version == version then [p] else []
  }

  // c is p with dependencies and wheels in order.
  ghost predicate PackageArranged(c: Package, p: Package) {
    && c.name == p.name && c.version == p.version && c.marker == p.marker
    && c.requiresPython == p.requiresPython && c.sdist == p.sdist
    && StringsArranged(c.dependencies, p.dependencies) && FilesArranged(c.wheels, p.wheels)
  }

  // ---- The sorts put things in order ----

  lemma StringsAreArranged(xs: seq<string>)
    ensures StringsArranged(Sort(StringLess, xs), xs)
  {
    hide Sort, StringLess, StringBefore;
    var r := Sort(StringLess, xs);
    StringsWeak();
    SortSorts(StringLess, xs);
    forall i, j | 0 <= i < j < |r| ensures !StringBefore(r[j], r[i]) {
      StringLessIff(r[j], r[i]);
    }
  }

  lemma {:induction false} FileTies(fs: seq<File>, f: File)
    ensures Ties(FileLess, fs, f) == FilesNamed(fs, f.name)
  {
    hide StringLess;
    if fs != [] {
      FileTies(fs[..|fs| - 1], f);
      LessIsStrict(fs[|fs| - 1].name, f.name, f.name);
      LessIsStrict(f.name, f.name, f.name);
    }
  }

  lemma FilesAreArranged(fs: seq<File>)
    ensures FilesArranged(Sort(FileLess, fs), fs)
  {
    hide Sort, StringLess, StringBefore, Ties, FilesNamed;
    var r := Sort(FileLess, fs);
    FilesWeak();
    SortSorts(FileLess, fs);
    forall i, j | 0 <= i < j < |r| ensures !StringBefore(r[j].name, r[i].name) {
      StringLessIff(r[j].name, r[i].name);
    }
    forall name ensures FilesNamed(r, name) == FilesNamed(fs, name) {
      var f := File(name, "", map[]);
      SortTies(FileLess, fs, f);
      FileTies(r, f);
      FileTies(fs, f);
    }
  }

  lemma PackagesTie(a: Package, b: Package)
    ensures PackageLess(a, b) || PackageLess(b, a) <==> a.name != b.name || a.version != b.version
  {
    hide StringLess;
    LessIsStrict(a.name, b.name, b.name);
    LessIsStrict(a.version, b.version, b.version);
    LessIsStrict(b.version, b.version, b.version);
  }

  lemma {:induction false} PackageTies(ps: seq<Package>, p: Package)
    ensures Ties(PackageLess, ps, p) == PackagesNamed(ps, p.name, p.version)
  {
    hide PackageLess;
    if ps != [] {
      PackageTies(ps[..|ps| - 1], p);
      PackagesTie(ps[|ps| - 1], p);
    }
  }

  lemma PackagesAreArranged(ps: seq<Package>)
    ensures PackagesArranged(Sort(PackageLess, ps), ps)
  {
    hide Sort, StringLess, StringBefore, Ties, PackagesNamed;
    var r := Sort(PackageLess, ps);
    PackagesWeak();
    SortSorts(PackageLess, ps);
    forall i, j | 0 <= i < j < |r|
      ensures StringBefore(r[i].name, r[j].name)
        || (r[i].name == r[j].name && !StringBefore(r[j].version, r[i].version))
    {
      StringLessIff(r[i].name, r[j].name);
      StringLessIff(r[j].version, r[i].version);
      LessIsStrict(r[i].name, r[j].name, r[j].name);
      assert !PackageLess(r[j], r[i]);
    }
    forall name, version ensures PackagesNamed(r, name, version) == PackagesNamed(ps, name, version) {
      var p := Package(name, version, "", "", [], [], None);
      SortTies(PackageLess, ps, p);
      PackageTies(r, p);
      PackageTies(ps, p);
    }
  }

  // The keys of the hashes ascend by characters.
  lemma AscendingByCharacters(keys: set<string>, xs: seq<string>)
    requires Ascending(keys, xs)
    ensures forall i, j | 0 <= i < j < |xs| :: StringBefore(xs[i], xs[j])
  {
    hide StringLess, StringBefore;
    forall i, j | 0 <= i < j < |xs| ensures StringBefore(xs[i], xs[j]) {
      StringLessIff(xs[i], xs[j]);
    }
  }

  // ---- The canonical lock ----

  // The canonical form of l has the defaults of PEP 751 filled in and all its
  // lists arranged.
  lemma CanonicalIsArranged(l: Lock)
    ensures var c := Canonical(l);
      && c.lockVersion == (if l.lockVersion == "" then "1.0" else l.lockVersion)
      && c.createdBy == (if l.createdBy == "" then "mochi" else l.createdBy)
      && c.requiresPython == l.requiresPython
      && exists ps :: PackagesArranged(ps, l.packages) && |c.packages| == |ps|
           && forall i | 0 <= i < |ps| :: PackageArranged(c.packages[i], ps[i])
  {
    hide Sort, PackageLess, PackagesArranged, PackageArranged;
    var ps, cs := Sort(PackageLess, l.packages), Canonical(l).packages;
    PackagesAreArranged(l.packages);
    forall i | 0 <= i < |ps| ensures PackageArranged(cs[i], ps[i]) {
      CanonicalPackageIsArranged(ps[i]);
    }
  }

  lemma CanonicalPackageIsArranged(p: Package)
    ensures PackageArranged(CanonicalPackage(p), p)
  {
    hide Sort, StringLess, FileLess, StringsArranged, FilesArranged;
    StringsAreArranged(p.dependencies);
    FilesAreArranged(p.wheels);
  }
}
