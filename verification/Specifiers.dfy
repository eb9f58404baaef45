// The clauses of semver/specifier.go against the order of versions.
module Specifiers {
  import opened Orders
  import opened Versions
  import opened VersionOrder

  datatype Operator = Eq | Neq | Lt | Lte | Gt | Gte | Compat | Arbitrary

  datatype Clause = Clause(op: Operator, version: Version)

  // The first n release numbers agree, as they are written.
  predicate SamePrefix(v: Version, ref: Version, n: nat) {
    n <= |v.release| && n <= |ref.release| && v.release[..n] == ref.release[..n]
  }

  // What matchCompatible decides.
  predicate MatchesCompatible(v: Version, ref: Version) {
    Order(v, ref) >= 0 && |ref.release| >= 2 && SamePrefix(v, ref, |ref.release| - 1)
  }

  method MatchCompatible(v: Version, ref: Version) returns (r: bool)
    ensures r == MatchesCompatible(v, ref)
  {
    hide Order;
    var c := Compare(v, ref);
    if c < 0 {
      return false;
    }
    var n := |ref.release| - 1;
    if n <= 0 {
      return false;
    }
    if |v.release| < n {
      return false;
    }
    var i := 0;
    while i < n
      invariant i <= n && v.release[..i] == ref.release[..i]
    {
      if v.release[i] != ref.release[i] {
        assert v.release[..n][i] != ref.release[..n][i];
        return false;
      }
      i := i + 1;
    }
    return true;
  }

  // Section "Compatible release" of PEP 440: not before ref, and in the series
  // that ref names without its last release number.
  ghost predicate Compatible(v: Version, ref: Version) {
    && |ref.release| >= 2 && v.epoch == ref.epoch && Order(v, ref) >= 0
    && forall i: nat | i < |ref.release| - 1 :: At(v.release, i, 0) == ref.release[i]
  }

  // The first version after the series: its last number one up, `.dev0`.
  function Bumped(ref: Version): Version
    requires |ref.release| >= 2
  {
    var n := |ref.release| - 2;
    Version(ref.epoch, ref.release[..n] + [ref.release[n] + 1], "", 0, -1, 0, "")
  }

  predicate Counts(release: seq<int>) {
    forall i :: 0 <= i < |release| ==> release[i] >= 0
  }

  // Two releases are ordered by the first number in which they differ.
  lemma {:induction false} PaddedDiffersAt(a: seq<int>, b: seq<int>, k: nat)
    requires forall i: nat | i < k :: At(a, i, 0) == At(b, i, 0)
    requires At(a, k, 0) != At(b, k, 0)
    ensures Padded(CmpInt, 0, a, b) == CmpInt(At(a, k, 0), At(b, k, 0))
    decreases k
  {
    if k > 0 {
      assert At(a, 0, 0) == At(b, 0, 0);
      forall i: nat ensures At(a, i + 1, 0) == At(Tail(a), i, 0) && At(b, i + 1, 0) == At(Tail(b), i, 0) {
      }
      PaddedDiffersAt(Tail(a), Tail(b), k - 1);
    }
  }

  // Either all numbers agree or there is a first that differs.
  lemma FirstDifference(a: seq<int>, b: seq<int>) returns (k: nat)
    ensures (forall i: nat | i < k :: At(a, i, 0) == At(b, i, 0))
    ensures At(a, k, 0) != At(b, k, 0) || (k >= |a| && k >= |b|)
  {
    k := 0;
    while (k < |a| || k < |b|) && At(a, k, 0) == At(b, k, 0)
      invariant forall i: nat | i < k :: At(a, i, 0) == At(b, i, 0)
      decreases |a| + |b| - k
    {
      k := k + 1;
    }
  }

  lemma PaddedEqual(a: seq<int>, b: seq<int>)
    requires forall i: nat :: At(a, i, 0) == At(b, i, 0)
    ensures Padded(CmpInt, 0, a, b) == 0
  {
    assert Preorder(CmpInt);
    PaddedZeroIff(CmpInt, 0, a, b);
  }

  // No version sorts before the first development release of its number.
  lemma DevZeroIsFirst(v: Version, w: Version)
    requires w.preKind == "" && w.post == -1 && w.dev == 0 && w.local == ""
    ensures SuffixOrder(v, w) >= 0
  {
  }

  // `~=` is an interval: from ref up to the bumped prefix, without it.
  lemma CompatibleIsInterval(v: Version, ref: Version)
    requires |ref.release| >= 2 && Counts(v.release) && Counts(ref.release)
    ensures Compatible(v, ref) <==> Order(v, ref) >= 0 && Order(v, Bumped(ref)) < 0
  {
    hide Order, SuffixOrder, Padded;
    var top := Bumped(ref);
    var n := |ref.release| - 1;
    OrderIs(v, top);
    OrderIs(v, ref);
    DevZeroIsFirst(v, top);
    if v.epoch == ref.epoch {
      var k := FirstDifference(v.release, ref.release);
      if k < n {
        forall i: nat | i < k ensures At(v.release, i, 0) == At(top.release, i, 0) {
          assert At(v.release, i, 0) == At(ref.release, i, 0);
        }
        PaddedDiffersAt(v.release, ref.release, k);
        assert At(ref.release, k, 0) == ref.release[k];
        if k < n - 1 || At(v.release, k, 0) != ref.release[k] + 1 {
          PaddedDiffersAt(v.release, top.release, k);
        } else {
          BumpedPrefix(v, top, n);
        }
      } else {
        forall i: nat | i < n - 1 ensures At(v.release, i, 0) == At(top.release, i, 0) {
          assert At(v.release, i, 0) == At(ref.release, i, 0);
        }
        assert At(v.release, n - 1, 0) == At(ref.release, n - 1, 0) == At(top.release, n - 1, 0) - 1;
        PaddedDiffersAt(v.release, top.release, n - 1);
        forall i: nat | i < n ensures At(v.release, i, 0) == ref.release[i] {
          assert At(v.release, i, 0) == At(ref.release, i, 0);
        }
      }
    }
  }

  // A release that starts with all of another is not before it.
  lemma BumpedPrefix(v: Version, top: Version, n: nat)
    requires |top.release| == n && Counts(v.release)
    requires forall i: nat | i < n :: At(v.release, i, 0) == At(top.release, i, 0)
    ensures Padded(CmpInt, 0, v.release, top.release) >= 0
  {
    hide Padded;
    var k := FirstDifference(v.release, top.release);
    if At(v.release, k, 0) != At(top.release, k, 0) {
      PaddedDiffersAt(v.release, top.release, k);
    } else {
      forall i: nat ensures At(v.release, i, 0) == At(top.release, i, 0) {
      }
      PaddedEqual(v.release, top.release);
    }
  }

  // A later epoch whose release starts with the prefix of ref.
  predicate LaterEpoch(v: Version, ref: Version) {
    v.epoch > ref.epoch && |ref.release| >= 2 && SamePrefix(v, ref, |ref.release| - 1)
  }

  // A release that is shorter than the prefix: ref goes on with zeros where it
  // ends, and the version comes no earlier from the last number of ref on.
  predicate ShortRelease(v: Version, ref: Version) {
    var m, n := |v.release|, |ref.release| - 1;
    && v.epoch == ref.epoch && m < n && v.release == ref.release[..m]
    && (forall i | m <= i < n :: ref.release[i] == 0)
    && Then(CmpInt(0, ref.release[n]), SuffixOrder(v, ref)) >= 0
  }

  // Such a release is in the series, though matchCompatible rejects it.
  lemma ShortReleaseIff(v: Version, ref: Version)
    ensures ShortRelease(v, ref) <==> |v.release| < |ref.release| - 1 && Compatible(v, ref)
  {
    hide Order, SuffixOrder, Padded;
    var m, n := |v.release|, |ref.release| - 1;
    if m < n && v.epoch == ref.epoch && forall i: nat | i < n :: At(v.release, i, 0) == ref.release[i] {
      OrderIs(v, ref);
      SameNumbers(v, ref, n);
      assert At(v.release, n, 0) == 0 && At(ref.release, n, 0) == ref.release[n];
      if ref.release[n] != 0 {
        PaddedDiffersAt(v.release, ref.release, n);
      } else {
        SameRelease(v.release, ref.release);
      }
    } else if m < n {
      SameNumbers(v, ref, n);
    }
  }

  // The prefix of ref, in terms of the numbers of a shorter release.
  lemma SameNumbers(v: Version, ref: Version, n: nat)
    requires |v.release| < n < |ref.release|
    ensures (forall i: nat | i < n :: At(v.release, i, 0) == ref.release[i]) <==>
      v.release == ref.release[..|v.release|] && forall i | |v.release| <= i < n :: ref.release[i] == 0
    ensures (forall i: nat | i < n :: At(v.release, i, 0) == ref.release[i]) ==>
      forall i: nat | i < n :: At(v.release, i, 0) == At(ref.release, i, 0)
  {
    var m := |v.release|;
    if forall i: nat | i < n :: At(v.release, i, 0) == ref.release[i] {
      forall i | 0 <= i < m ensures v.release[i] == ref.release[..m][i] {
        assert At(v.release, i, 0) == ref.release[i];
      }
      forall i | m <= i < n ensures ref.release[i] == 0 {
        assert At(v.release, i, 0) == ref.release[i];
      }
    } else if v.release == ref.release[..m] {
      assert forall i: nat | i < m :: At(v.release, i, 0) == ref.release[..m][i];
    }
  }

  lemma SameRelease(a: seq<int>, b: seq<int>)
    requires |a| < |b| && b[|b| - 1] == 0
    requires forall i: nat | i < |b| - 1 :: At(a, i, 0) == At(b, i, 0)
    ensures Padded(CmpInt, 0, a, b) == 0
  {
    hide Padded;
    forall i: nat ensures At(a, i, 0) == At(b, i, 0) {
    }
    PaddedEqual(a, b);
  }

  // matchCompatible decides `~=` exactly but for these two families: it accepts
  // the one and rejects the other.
  lemma MatchCompatibleIff(v: Version, ref: Version)
    ensures (MatchesCompatible(v, ref) <==> Compatible(v, ref)) <==> !LaterEpoch(v, ref) && !ShortRelease(v, ref)
  {
    hide Order, ShortRelease;
    var n := |ref.release| - 1;
    OrderIs(v, ref);
    ShortReleaseIff(v, ref);
    if n >= 1 && n <= |v.release| {
      SamePrefixIff(v, ref, n);
    }
  }

  // For one epoch, and a release that is no shorter than the prefix, what
  // matchCompatible accepts is the interval.
  lemma MatchCompatibleIsInterval(v: Version, ref: Version)
    requires Counts(v.release) && Counts(ref.release) && |ref.release| >= 2
    requires v.epoch == ref.epoch && |v.release| >= |ref.release| - 1
    ensures MatchesCompatible(v, ref) <==> Order(v, ref) >= 0 && Order(v, Bumped(ref)) < 0
  {
    hide Order, MatchesCompatible, Compatible, Bumped;
    CompatibleIsInterval(v, ref);
    MatchCompatibleIff(v, ref);
  }

  lemma SamePrefixIff(v: Version, ref: Version, n: nat)
    requires n <= |v.release| && n <= |ref.release|
    ensures SamePrefix(v, ref, n) <==> forall i: nat | i < n :: At(v.release, i, 0) == ref.release[i]
  {
    assert forall i: nat | i < n :: At(v.release, i, 0) == v.release[..n][i];
    assert forall i: nat | i < n :: ref.release[i] == ref.release[..n][i];
  }

  // 1!2.5 passes ~=2.2, and 2 does not pass ~=2.0.0, although 2 equals 2.0.0.
  lemma CompatibleGaps()
    ensures var ref := Version(0, [2, 2], "", 0, -1, -1, "");
      var later := Version(1, [2, 5], "", 0, -1, -1, "");
      MatchesCompatible(later, ref) && !Compatible(later, ref)
    ensures var ref := Version(0, [2, 0, 0], "", 0, -1, -1, "");
      var short := Version(0, [2], "", 0, -1, -1, "");
      !MatchesCompatible(short, ref) && Compatible(short, ref) && Order(short, ref) == 0
  {
    var ref, short := Version(0, [2, 0, 0], "", 0, -1, -1, ""), Version(0, [2], "", 0, -1, -1, "");
    PaddedEqual(short.release, ref.release);
    var ref', later := Version(0, [2, 2], "", 0, -1, -1, ""), Version(1, [2, 5], "", 0, -1, -1, "");
    assert later.release[..1] == [2] == ref'.release[..1];
  }

  // ---- Clauses and specifiers ----

  predicate Matches(c: Clause, v: Version) {
    match c.op
    case Eq => Order(v, c.version) == 0
    case Neq => Order(v, c.version) != 0
    case Lt => Order(v, c.version) < 0
    case Lte => Order(v, c.version) <= 0
    case Gt => Order(v, c.version) > 0
    case Gte => Order(v, c.version) >= 0
    case Compat => MatchesCompatible(v, c.version)
    case Arbitrary => String(v) == String(c.version)
  }

  method MatchClause(c: Clause, v: Version) returns (r: bool)
    ensures r == Matches(c, v)
  {
    hide Order, MatchesCompatible;
    var cmp := Compare(v, c.version);
    match c.op
    case Eq => r := cmp == 0;
    case Neq => r := cmp != 0;
    case Lt => r := cmp < 0;
    case Lte => r := cmp <= 0;
    case Gt => r := cmp > 0;
    case Gte => r := cmp >= 0;
    case Compat => r := MatchCompatible(v, c.version);
    case Arbitrary => r := String(v) == String(c.version);
  }

  method Match(clauses: seq<Clause>, v: Version) returns (r: bool)
    ensures r <==> forall c <- clauses :: Matches(c, v)
  {
    for i := 0 to |clauses|
      invariant forall j | 0 <= j < i :: Matches(clauses[j], v)
    {
      var ok := MatchClause(clauses[i], v);
      if !ok {
        assert clauses[i] in clauses;
        return false;
      }
    }
    return true;
  }

  // A specifier of ordering clauses accepts an interval: with two versions it
  // accepts everything between them.
  lemma OrderingClausesConvex(clauses: seq<Clause>, u: Version, v: Version, w: Version)
    requires forall c <- clauses :: c.op in {Eq, Lt, Lte, Gt, Gte} && Matches(c, u) && Matches(c, w)
    requires Order(u, v) <= 0 && Order(v, w) <= 0
    ensures forall c <- clauses :: Matches(c, v)
  {
    hide Order;
    forall c | c in clauses ensures Matches(c, v) {
      assert Matches(c, u) && Matches(c, w);
      CompareIsPreorder(u, v, c.version);
      CompareIsPreorder(v, w, c.version);
    }
  }
}
