// What Compare (semver/version.go) puts first: PEP 440 by first differences.
module VersionBefore {
  import opened Options
  import opened Numerals
  import opened Scanning
  import opened Orders
  import opened Versions
  import opened VersionOrder

  // ---- The keys ----

  // Where two padded sequences first differ, a has the smaller item.
  ghost predicate FirstLess<T(!new)>(cmp: (T, T) -> Sign, pad: T, a: seq<T>, b: seq<T>) {
    exists k: nat :: FirstLessAt(cmp, pad, a, b, k)
  }

  ghost predicate FirstLessAt<T(!new)>(cmp: (T, T) -> Sign, pad: T, a: seq<T>, b: seq<T>, k: nat) {
    (forall i: nat | i < k :: cmp(At(a, i, pad), At(b, i, pad)) == 0) && cmp(At(a, k, pad), At(b, k, pad)) < 0
  }

  lemma {:induction false} PaddedLessIff<T(!new)>(cmp: (T, T) -> Sign, pad: T, a: seq<T>, b: seq<T>)
    requires Preorder(cmp)
    ensures Padded(cmp, pad, a, b) < 0 <==> FirstLess(cmp, pad, a, b)
    decreases |a| + |b|
  {
    if a == [] && b == [] {
      assert cmp(pad, pad) == -cmp(pad, pad);
    } else {
      PaddedLessIff(cmp, pad, Tail(a), Tail(b));
      PaddedUnfold(cmp, pad, a, b);
      FirstLessStep(cmp, pad, a, b);
    }
  }

  lemma FirstLessStep<T(!new)>(cmp: (T, T) -> Sign, pad: T, a: seq<T>, b: seq<T>)
    ensures FirstLess(cmp, pad, a, b) <==>
      var c := cmp(At(a, 0, pad), At(b, 0, pad)); c < 0 || (c == 0 && FirstLess(cmp, pad, Tail(a), Tail(b)))
  {
    hide At, Tail;
    forall i: nat ensures At(Tail(a), i, pad) == At(a, i + 1, pad) && At(Tail(b), i, pad) == At(b, i + 1, pad) {
      AtTail(a, i, pad);
      AtTail(b, i, pad);
    }
    if cmp(At(a, 0, pad), At(b, 0, pad)) < 0 {
      assert FirstLessAt(cmp, pad, a, b, 0);
    }
    if k: nat :| FirstLessAt(cmp, pad, a, b, k) {
      if k > 0 {
        forall i: nat | i < k - 1 ensures cmp(At(Tail(a), i, pad), At(Tail(b), i, pad)) == 0 {
          assert cmp(At(a, i + 1, pad), At(b, i + 1, pad)) == 0;
        }
        assert FirstLessAt(cmp, pad, Tail(a), Tail(b), k - 1);
      }
    }
    if cmp(At(a, 0, pad), At(b, 0, pad)) == 0 && FirstLess(cmp, pad, Tail(a), Tail(b)) {
      var k: nat :| FirstLessAt(cmp, pad, Tail(a), Tail(b), k);
      forall i: nat | i < k + 1 ensures cmp(At(a, i, pad), At(b, i, pad)) == 0 {
        if i > 0 {
          var j := i - 1;
          assert cmp(At(Tail(a), j, pad), At(Tail(b), j, pad)) == 0;
        }
      }
      assert FirstLessAt(cmp, pad, a, b, k + 1);
    }
  }

  // Where the releases, continued by zeros, first differ, a has the smaller
  // number.
  ghost predicate ReleaseBefore(a: seq<int>, b: seq<int>) {
    exists k: nat ::
      (forall i: nat | i < k :: At(a, i, 0) == At(b, i, 0)) && At(a, k, 0) < At(b, k, 0)
  }

  // Development releases of the bare release first, then its pre-releases, then
  // the rest.
  function Stage(v: Version): nat {
    if v.preKind != "" then 1 else if v.post < 0 <= v.dev then 0 else 2
  }

  // Pre-releases go by kind, then by number.
  ghost predicate StageBefore(v: Version, w: Version) {
    || Stage(v) < Stage(w)
    || (Stage(v) == Stage(w) == 1
        && (StringBefore(v.preKind, w.preKind) || (v.preKind == w.preKind && v.preNum < w.preNum)))
  }

  // No post-release, then post-releases by number.
  predicate PostBefore(m: int, n: int) {
    m < n && 0 <= n
  }

  // Development releases by number, then none.
  predicate DevBefore(m: int, n: int) {
    0 <= m && (n < 0 || m < n)
  }

  // Numbers go after words, numbers by value, words by their characters.
  ghost predicate SegmentBefore(x: string, y: string) {
    match (Number(x), Number(y))
    case (Some(m), Some(n)) => m < n
    case (Some(_), None) => false
    case (None, Some(_)) => true
    case (None, None) => StringBefore(x, y)
  }

  // No label, then labels by the first segments that differ.
  ghost predicate LocalBefore(a: string, b: string) {
    b != "" && (a == "" || SegmentsBefore(SplitOn(a, '.'), SplitOn(b, '.')))
  }

  ghost predicate SegmentsBefore(xs: seq<string>, ys: seq<string>) {
    exists k: nat ::
      && (forall i: nat | i < k :: SameSegment(At(xs, i, ""), At(ys, i, "")))
      && SegmentBefore(At(xs, k, ""), At(ys, k, ""))
  }

  // A segment is a number if it is made of digits and fits a machine integer.
  lemma NumberIff(s: string, n: int)
    ensures Number(s) == Some(n) <==> s != "" && AllDigits(s) && Value(s) == n <= MAX_INT
  {
    if s != "" && AllDigits(s) {
      ValueIsNat(s);
      assert IsDigit(s[0]);
    }
  }

  // ---- The order ----

  // The first key that differs decides.
  ghost predicate Precedes(v: Version, w: Version) {
    v.epoch < w.epoch || (v.epoch == w.epoch &&
    (ReleaseBefore(v.release, w.release) || ((forall i: nat :: At(v.release, i, 0) == At(w.release, i, 0)) &&
    (StageBefore(v, w) || (PreKeyOf(v) == PreKeyOf(w) &&
    (PostBefore(v.post, w.post) || ((v.post == w.post || (v.post < 0 && w.post < 0)) &&
    (DevBefore(v.dev, w.dev) || ((v.dev == w.dev || (v.dev < 0 && w.dev < 0)) &&
    LocalBefore(v.local, w.local))))))))))
  }

  lemma ReleaseBeforeIff(a: seq<int>, b: seq<int>)
    ensures Padded(CmpInt, 0, a, b) < 0 <==> ReleaseBefore(a, b)
    ensures Padded(CmpInt, 0, a, b) == 0 <==> forall i: nat :: At(a, i, 0) == At(b, i, 0)
  {
    hide Padded, At;
    assert Preorder(CmpInt);
    PaddedLessIff(CmpInt, 0, a, b);
    PaddedZeroIff(CmpInt, 0, a, b);
    if k: nat :| FirstLessAt(CmpInt, 0, a, b, k) {
      assert forall i: nat | i < k :: CmpInt(At(a, i, 0), At(b, i, 0)) == 0;
      assert At(a, k, 0) < At(b, k, 0);
    }
    if k: nat :| (forall i: nat | i < k :: At(a, i, 0) == At(b, i, 0)) && At(a, k, 0) < At(b, k, 0) {
      assert FirstLessAt(CmpInt, 0, a, b, k);
    }
    if SameItems(CmpInt, 0, a, b) {
      forall i: nat ensures At(a, i, 0) == At(b, i, 0) {
        assert CmpInt(At(a, i, 0), At(b, i, 0)) == 0;
      }
    }
  }

  lemma StageBeforeIff(v: Version, w: Version)
    ensures CmpPre(PreKeyOf(v), PreKeyOf(w)) < 0 <==> StageBefore(v, w)
    ensures CmpPre(PreKeyOf(v), PreKeyOf(w)) == 0 <==> PreKeyOf(v) == PreKeyOf(w)
  {
    hide StringBefore, CmpString;
    StringBeforeIff(v.preKind, w.preKind);
    StringsEqualIff(v.preKind, w.preKind);
  }

  lemma CountersBeforeIff(m: int, n: int)
    ensures CmpPost(m, n) < 0 <==> PostBefore(m, n)
    ensures CmpPost(m, n) == 0 <==> m == n || (m < 0 && n < 0)
    ensures CmpDev(m, n) < 0 <==> DevBefore(m, n)
    ensures CmpDev(m, n) == 0 <==> m == n || (m < 0 && n < 0)
  {
  }

  lemma SegmentBeforeIff(x: string, y: string)
    ensures CmpSegment(x, y) < 0 <==> SegmentBefore(x, y)
  {
    hide Number, StringBefore, CmpString;
    StringBeforeIff(x, y);
  }

  lemma SegmentsBeforeIff(xs: seq<string>, ys: seq<string>)
    ensures Padded(CmpSegment, "", xs, ys) < 0 <==> SegmentsBefore(xs, ys)
    ensures Padded(CmpSegment, "", xs, ys) == 0 <==>
      forall i: nat :: SameSegment(At(xs, i, ""), At(ys, i, ""))
  {
    hide Padded, At, CmpSegment, SegmentBefore, SameSegment;
    SegmentsArePreorder();
    PaddedLessIff(CmpSegment, "", xs, ys);
    PaddedZeroIff(CmpSegment, "", xs, ys);
    forall x, y
      ensures CmpSegment(x, y) == 0 <==> SameSegment(x, y)
      ensures CmpSegment(x, y) < 0 <==> SegmentBefore(x, y)
    {
      SegmentsEqualIff(x, y);
      SegmentBeforeIff(x, y);
    }
    if k: nat :| FirstLessAt(CmpSegment, "", xs, ys, k) {
      forall i: nat | i < k ensures SameSegment(At(xs, i, ""), At(ys, i, "")) {
        assert CmpSegment(At(xs, i, ""), At(ys, i, "")) == 0;
      }
      assert SegmentBefore(At(xs, k, ""), At(ys, k, ""));
    }
    if k: nat :|
      && (forall i: nat | i < k :: SameSegment(At(xs, i, ""), At(ys, i, "")))
      && SegmentBefore(At(xs, k, ""), At(ys, k, ""))
    {
      forall i: nat | i < k ensures CmpSegment(At(xs, i, ""), At(ys, i, "")) == 0 {
        assert SameSegment(At(xs, i, ""), At(ys, i, ""));
      }
      assert FirstLessAt(CmpSegment, "", xs, ys, k);
    }
    if SameItems(CmpSegment, "", xs, ys) {
      forall i: nat ensures SameSegment(At(xs, i, ""), At(ys, i, "")) {
        assert CmpSegment(At(xs, i, ""), At(ys, i, "")) == 0;
      }
    }
    if forall i: nat :: SameSegment(At(xs, i, ""), At(ys, i, "")) {
      forall i: nat ensures CmpSegment(At(xs, i, ""), At(ys, i, "")) == 0 {
        assert SameSegment(At(xs, i, ""), At(ys, i, ""));
      }
    }
  }

  lemma LocalBeforeIff(a: string, b: string)
    ensures CmpLocal(a, b) < 0 <==> LocalBefore(a, b)
  {
    hide Padded, CmpSegment, SegmentsBefore;
    SegmentsBeforeIff(SplitOn(a, '.'), SplitOn(b, '.'));
  }

  // Compare puts v before w exactly when v precedes w. With CompareZeroIff and
  // CompareIsPreorder this says what it answers on all versions.
  lemma CompareLessIff(v: Version, w: Version)
    ensures Order(v, w) < 0 <==> Precedes(v, w)
    ensures Order(v, w) > 0 <==> Precedes(w, v)
  {
    OneCompareLessIff(v, w);
    OneCompareLessIff(w, v);
    CompareIsPreorder(v, w, w);
  }

  lemma OneCompareLessIff(v: Version, w: Version)
    ensures Order(v, w) < 0 <==> Precedes(v, w)
  {
    hide Padded, CmpPre, CmpPost, CmpDev, CmpLocal, PreKeyOf;
    hide ReleaseBefore, StageBefore, PostBefore, DevBefore, LocalBefore, At;
    ReleaseBeforeIff(v.release, w.release);
    StageBeforeIff(v, w);
    CountersBeforeIff(v.post, w.post);
    CountersBeforeIff(v.dev, w.dev);
    LocalBeforeIff(v.local, w.local);
  }
}
