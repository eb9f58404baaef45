// The ordering of semver/version.go, and the specifiers of semver/specifier.go.
module VersionOrder {
  import opened Options
  import opened Numerals
  import opened Orders
  import opened Versions

  // Item by item, as if both sides went on with pads for ever.
  function Padded<T>(cmp: (T, T) -> Sign, pad: T, a: seq<T>, b: seq<T>): Sign
    decreases |a| + |b|
  {
    if a == [] && b == [] then 0
    else Then(cmp(At(a, 0, pad), At(b, 0, pad)), Padded(cmp, pad, Tail(a), Tail(b)))
  }

  function At<T>(a: seq<T>, i: nat, pad: T): T {
    if i < |a| then a[i] else pad
  }

  function Tail<T>(a: seq<T>): (r: seq<T>)
    ensures |r| == if a == [] then 0 else |a| - 1
  {
    if a == [] then [] else a[1..]
  }

  function Drop<T>(a: seq<T>, i: nat): seq<T> {
    if i <= |a| then a[i..] else []
  }

  method CmpRelease(a: seq<int>, b: seq<int>) returns (c: Sign)
    ensures c == Padded(CmpInt, 0, a, b)
  {
    var n := if |b| > |a| then |b| else |a|;
    var i := 0;
    while i < n
      invariant i <= n && Padded(CmpInt, 0, a, b) == Padded(CmpInt, 0, Drop(a, i), Drop(b, i))
    {
      var ai, bi := 0, 0;
      if i < |a| {
        ai := a[i];
      }
      if i < |b| {
        bi := b[i];
      }
      DropStep(a, i, 0);
      DropStep(b, i, 0);
      c := CmpInt(ai, bi);
      if c != 0 {
        return;
      }
      i := i + 1;
    }
    c := 0;
  }

  lemma DropStep<T>(a: seq<T>, i: nat, pad: T)
    ensures At(Drop(a, i), 0, pad) == At(a, i, pad) && Tail(Drop(a, i)) == Drop(a, i + 1)
    ensures Drop(a, i) == [] <==> i >= |a|
  {
  }

  // The rank of a pre-release key: before all pre-releases, one of them, or
  // after all of them.
  datatype PreKey = Before | Pre(kind: string, num: int) | After

  function PreKeyOf(v: Version): PreKey {
    if v.preKind == "" && v.post < 0 && v.dev >= 0 then Before
    else if v.preKind == "" then After
    else Pre(v.preKind, v.preNum)
  }

  function CmpPre(a: PreKey, b: PreKey): Sign {
    if a.Before? != b.Before? then (if a.Before? then -1 else 1)
    else if a.After? != b.After? then (if a.After? then 1 else -1)
    else if a.Pre? then Then(CmpString(a.kind, b.kind), CmpInt(a.num, b.num))
    else 0
  }

  // An absent counter sorts before every present one.
  function CmpPost(a: int, b: int): Sign {
    if a < 0 && b < 0 then 0 else if a < 0 then -1 else if b < 0 then 1 else CmpInt(a, b)
  }

  // An absent counter sorts after every present one.
  function CmpDev(a: int, b: int): Sign {
    if a < 0 && b < 0 then 0 else if a < 0 then 1 else if b < 0 then -1 else CmpInt(a, b)
  }

  // tryAtoi.
  function Number(s: string): Option<int> {
    if s != "" && AllDigits(s) then Atoi(s) else None
  }

  function CmpSegment(a: string, b: string): Sign {
    var m, n := Number(a), Number(b);
    if m.Some? && n.Some? then CmpInt(m.value, n.value)
    else if m.Some? then 1
    else if n.Some? then -1
    else CmpString(a, b)
  }

  function CmpLocal(a: string, b: string): Sign {
    if a == "" && b == "" then 0
    else if a == "" then -1
    else if b == "" then 1
    else Padded(CmpSegment, "", SplitOn(a, '.'), SplitOn(b, '.'))
  }

  method CompareLocal(a: string, b: string) returns (c: Sign)
    ensures c == CmpLocal(a, b)
  {
    if a == "" && b == "" {
      return 0;
    } else if a == "" {
      return -1;
    } else if b == "" {
      return 1;
    }
    hide CmpSegment;
    var aa, bb := SplitOn(a, '.'), SplitOn(b, '.');
    var n := if |bb| > |aa| then |bb| else |aa|;
    var i := 0;
    while i < n
      invariant i <= n
      invariant CmpLocal(a, b) == Padded(CmpSegment, "", Drop(aa, i), Drop(bb, i))
    {
      DropStep(aa, i, "");
      DropStep(bb, i, "");
      c := CmpSegment(At(aa, i, ""), At(bb, i, ""));
      if c != 0 {
        return;
      }
      i := i + 1;
    }
    c := 0;
  }

  // Compare, as one lexicographic comparison.
  function Order(v: Version, w: Version): Sign {
    Then(CmpInt(v.epoch, w.epoch),
    Then(Padded(CmpInt, 0, v.release, w.release),
    Then(CmpPre(PreKeyOf(v), PreKeyOf(w)),
    Then(CmpPost(v.post, w.post),
    Then(CmpDev(v.dev, w.dev), CmpLocal(v.local, w.local))))))
  }

  method Compare(v: Version, w: Version) returns (c: Sign)
    ensures c == Order(v, w)
  {
    hide CmpPre, CmpPost, CmpDev, CmpLocal, Padded, CmpInt;
    c := CmpInt(v.epoch, w.epoch);
    if c != 0 {
      return;
    }
    c := CmpRelease(v.release, w.release);
    if c != 0 {
      return;
    }
    c := CmpPre(PreKeyOf(v), PreKeyOf(w));
    if c != 0 {
      return;
    }
    c := CmpPost(v.post, w.post);
    if c != 0 {
      return;
    }
    c := CmpDev(v.dev, w.dev);
    if c != 0 {
      return;
    }
    c := CompareLocal(v.local, w.local);
  }

  // ---- Order is a total preorder ----

  lemma {:induction false} PaddedAntisymmetric<T(!new)>(cmp: (T, T) -> Sign, pad: T, u: seq<T>, v: seq<T>)
    requires Preorder(cmp)
    ensures Padded(cmp, pad, v, u) == -Padded(cmp, pad, u, v)
    decreases |u| + |v|
  {
    if u != [] || v != [] {
      PaddedAntisymmetric(cmp, pad, Tail(u), Tail(v));
    }
  }

  lemma {:induction false} PaddedCoherent<T(!new)>(cmp: (T, T) -> Sign, pad: T, u: seq<T>, v: seq<T>, w: seq<T>)
    requires Preorder(cmp)
    ensures Coherent(Padded(cmp, pad, u, v), Padded(cmp, pad, v, w), Padded(cmp, pad, u, w))
    decreases |u| + |v| + |w|
  {
    if u != [] || v != [] || w != [] {
      PaddedCoherent(cmp, pad, Tail(u), Tail(v), Tail(w));
      PaddedUnfold(cmp, pad, u, v);
      PaddedUnfold(cmp, pad, v, w);
      PaddedUnfold(cmp, pad, u, w);
      var a, b, c := At(u, 0, pad), At(v, 0, pad), At(w, 0, pad);
      ThenCoherent(cmp(a, b), cmp(b, c), cmp(a, c),
        Padded(cmp, pad, Tail(u), Tail(v)), Padded(cmp, pad, Tail(v), Tail(w)), Padded(cmp, pad, Tail(u), Tail(w)));
    }
  }

  lemma PaddedUnfold<T(!new)>(cmp: (T, T) -> Sign, pad: T, a: seq<T>, b: seq<T>)
    requires Preorder(cmp)
    ensures Padded(cmp, pad, a, b) == Then(cmp(At(a, 0, pad), At(b, 0, pad)), Padded(cmp, pad, Tail(a), Tail(b)))
  {
    assert cmp(pad, pad) == -cmp(pad, pad);
  }

  lemma SegmentsArePreorder()
    ensures Preorder(CmpSegment)
  {
    hide Number;
    forall u, v ensures CmpSegment(v, u) == -CmpSegment(u, v) {
      StringsCoherent(u, v, v);
    }
    forall u, v, w ensures Coherent(CmpSegment(u, v), CmpSegment(v, w), CmpSegment(u, w)) {
      StringsCoherent(u, v, w);
    }
  }

  lemma LocalsCoherent(u: string, v: string, w: string)
    ensures CmpLocal(v, u) == -CmpLocal(u, v)
    ensures Coherent(CmpLocal(u, v), CmpLocal(v, w), CmpLocal(u, w))
  {
    hide CmpSegment;
    SegmentsArePreorder();
    PaddedAntisymmetric(CmpSegment, "", SplitOn(u, '.'), SplitOn(v, '.'));
    PaddedCoherent(CmpSegment, "", SplitOn(u, '.'), SplitOn(v, '.'), SplitOn(w, '.'));
  }

  lemma PreKeysCoherent(u: PreKey, v: PreKey, w: PreKey)
    ensures CmpPre(v, u) == -CmpPre(u, v)
    ensures Coherent(CmpPre(u, v), CmpPre(v, w), CmpPre(u, w))
  {
    if u.Pre? && v.Pre? {
      StringsCoherent(u.kind, v.kind, if w.Pre? then w.kind else "");
    }
  }

  lemma ReleasesCoherent(u: seq<int>, v: seq<int>, w: seq<int>)
    ensures Padded(CmpInt, 0, v, u) == -Padded(CmpInt, 0, u, v)
    ensures Coherent(Padded(CmpInt, 0, u, v), Padded(CmpInt, 0, v, w), Padded(CmpInt, 0, u, w))
  {
    assert Preorder(CmpInt);
    PaddedAntisymmetric(CmpInt, 0, u, v);
    PaddedCoherent(CmpInt, 0, u, v, w);
  }

  // The comparisons from the pre-release key on.
  function SuffixOrder(v: Version, w: Version): Sign {
    Then(CmpPre(PreKeyOf(v), PreKeyOf(w)),
    Then(CmpPost(v.post, w.post),
    Then(CmpDev(v.dev, w.dev), CmpLocal(v.local, w.local))))
  }

  lemma SuffixesCoherent(u: Version, v: Version, w: Version)
    ensures SuffixOrder(v, u) == -SuffixOrder(u, v)
    ensures Coherent(SuffixOrder(u, v), SuffixOrder(v, w), SuffixOrder(u, w))
  {
    hide CmpPre, CmpLocal, PreKeyOf;
    PreKeysCoherent(PreKeyOf(u), PreKeyOf(v), PreKeyOf(w));
    LocalsCoherent(u.local, v.local, w.local);
    ThenCoherent(CmpDev(u.dev, v.dev), CmpDev(v.dev, w.dev), CmpDev(u.dev, w.dev),
      CmpLocal(u.local, v.local), CmpLocal(v.local, w.local), CmpLocal(u.local, w.local));
    assert Coherent(CmpPost(u.post, v.post), CmpPost(v.post, w.post), CmpPost(u.post, w.post));
  }

  // Compare is a total preorder whose equality is a congruence.
  lemma CompareIsPreorder(u: Version, v: Version, w: Version)
    ensures Order(v, u) == -Order(u, v)
    ensures Order(u, v) <= 0 && Order(v, w) <= 0 ==> Order(u, w) <= 0
    ensures Order(u, v) == 0 ==> Order(u, w) == Order(v, w)
    ensures Coherent(Order(u, v), Order(v, w), Order(u, w))
  {
    hide SuffixOrder, Padded;
    SuffixesCoherent(u, v, w);
    ReleasesCoherent(u.release, v.release, w.release);
    OrderIs(u, v);
    OrderIs(v, u);
    OrderIs(v, w);
    OrderIs(u, w);
  }

  lemma OrderIs(v: Version, w: Version)
    ensures Order(v, w) ==
      Then(CmpInt(v.epoch, w.epoch), Then(Padded(CmpInt, 0, v.release, w.release), SuffixOrder(v, w)))
  {
  }

  // ---- What Compare calls equal, and what comes first ----

  ghost predicate SameItems<T(!new)>(cmp: (T, T) -> Sign, pad: T, a: seq<T>, b: seq<T>) {
    forall i: nat :: cmp(At(a, i, pad), At(b, i, pad)) == 0
  }

  lemma SameItemsStep<T(!new)>(cmp: (T, T) -> Sign, pad: T, a: seq<T>, b: seq<T>)
    ensures SameItems(cmp, pad, a, b) <==>
      cmp(At(a, 0, pad), At(b, 0, pad)) == 0 && SameItems(cmp, pad, Tail(a), Tail(b))
  {
    hide At, Tail;
    forall i: nat ensures At(Tail(a), i, pad) == At(a, i + 1, pad) && At(Tail(b), i, pad) == At(b, i + 1, pad) {
      AtTail(a, i, pad);
      AtTail(b, i, pad);
    }
    if SameItems(cmp, pad, Tail(a), Tail(b)) && cmp(At(a, 0, pad), At(b, 0, pad)) == 0 {
      forall i: nat ensures cmp(At(a, i, pad), At(b, i, pad)) == 0 {
        if i > 0 {
          var j := i - 1;
          assert cmp(At(Tail(a), j, pad), At(Tail(b), j, pad)) == 0;
        }
      }
    }
  }

  lemma AtTail<T>(a: seq<T>, i: nat, pad: T)
    ensures At(Tail(a), i, pad) == At(a, i + 1, pad)
  {
  }

  lemma {:induction false} PaddedZeroIff<T(!new)>(cmp: (T, T) -> Sign, pad: T, a: seq<T>, b: seq<T>)
    requires Preorder(cmp)
    ensures Padded(cmp, pad, a, b) == 0 <==> SameItems(cmp, pad, a, b)
    decreases |a| + |b|
  {
    hide SameItems;
    if a == [] && b == [] {
      NothingSame(cmp, pad);
    } else {
      PaddedZeroIff(cmp, pad, Tail(a), Tail(b));
      PaddedUnfold(cmp, pad, a, b);
      SameItemsStep(cmp, pad, a, b);
    }
  }

  lemma NothingSame<T(!new)>(cmp: (T, T) -> Sign, pad: T)
    requires Preorder(cmp)
    ensures SameItems(cmp, pad, [], [])
  {
    assert cmp(pad, pad) == -cmp(pad, pad);
  }

  predicate SameSegment(a: string, b: string) {
    if Number(a).Some? then Number(a) == Number(b) else a == b
  }

  // Equal up to trailing zeros of the release, leading zeros in the numbers of
  // the local label, and empty segments at its end.
  ghost predicate Equivalent(v: Version, w: Version) {
    && v.epoch == w.epoch
    && (forall i: nat :: At(v.release, i, 0) == At(w.release, i, 0))
    && PreKeyOf(v) == PreKeyOf(w)
    && (v.post == w.post || (v.post < 0 && w.post < 0))
    && (v.dev == w.dev || (v.dev < 0 && w.dev < 0))
    && (v.local == "" <==> w.local == "")
    && (forall i: nat :: SameSegment(At(SplitOn(v.local, '.'), i, ""), At(SplitOn(w.local, '.'), i, "")))
  }

  lemma CompareZeroIff(v: Version, w: Version)
    ensures Order(v, w) == 0 <==> Equivalent(v, w)
  {
    hide Padded, SameSegment, CmpSegment, SplitOn;
    assert Preorder(CmpInt);
    PaddedZeroIff(CmpInt, 0, v.release, w.release);
    var a, b := SplitOn(v.local, '.'), SplitOn(w.local, '.');
    SegmentsArePreorder();
    PaddedZeroIff(CmpSegment, "", a, b);
    forall x, y ensures CmpSegment(x, y) == 0 <==> SameSegment(x, y) {
      SegmentsEqualIff(x, y);
    }
    StringsEqualIff(v.preKind, w.preKind);
  }

  lemma SegmentsEqualIff(x: string, y: string)
    ensures CmpSegment(x, y) == 0 <==> SameSegment(x, y)
  {
    hide Number;
    StringsEqualIff(x, y);
  }

  // The releases of one number come in this order, whatever their counters.
  lemma ReleaseCycle(epoch: int, release: seq<int>, d: nat, m: nat, n: nat, p: nat, local: string)
    requires local != ""
    ensures var dev := Version(epoch, release, "", 0, -1, d, "");
      var preDev := Version(epoch, release, "a", m, -1, d, "");
      var pre := Version(epoch, release, "a", m, -1, -1, "");
      var beta := Version(epoch, release, "b", n, -1, -1, "");
      var candidate := Version(epoch, release, "rc", m, -1, -1, "");
      var final := Version(epoch, release, "", 0, -1, -1, "");
      var patched := final.(local := local);
      var postDev := Version(epoch, release, "", 0, p, d, "");
      var post := Version(epoch, release, "", 0, p, -1, "");
      && Order(dev, preDev) == -1 && Order(preDev, pre) == -1 && Order(pre, beta) == -1
      && Order(beta, candidate) == -1 && Order(candidate, final) == -1 && Order(final, patched) == -1
      && Order(patched, postDev) == -1 && Order(postDev, post) == -1
  {
    hide Padded;
    ReleasesCoherent(release, release, release);
    assert Padded(CmpInt, 0, release, release) == 0;
    StringsEqualIff("a", "a");
    assert CmpString("a", "b") == -1 && CmpString("b", "rc") == -1;
  }
}
