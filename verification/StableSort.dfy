// Go's stable sort, sort.SliceStable, for any comparison.
module StableSort {

  // x goes after every element that is not greater.
  function Insert<T>(less: (T, T) -> bool, ys: seq<T>, x: T): (r: seq<T>)
    ensures |r| == |ys| + 1
  {
    if ys == [] || !less(x, ys[|ys| - 1]) then ys + [x]
    else Insert(less, ys[..|ys| - 1], x) + [ys[|ys| - 1]]
  }

  function Sort<T>(less: (T, T) -> bool, xs: seq<T>): (r: seq<T>)
    ensures |r| == |xs|
  {
    if xs == [] then [] else Insert(less, Sort(less, xs[..|xs| - 1]), xs[|xs| - 1])
  }

  ghost predicate Sorted<T>(less: (T, T) -> bool, xs: seq<T>) {
    forall i, j | 0 <= i < j < |xs| :: !less(xs[j], xs[i])
  }

  // A strict order up to ties.
  ghost predicate Weak<T(!new)>(less: (T, T) -> bool) {
    && (forall x, y :: less(x, y) ==> !less(y, x))
    && (forall x, y, z :: !less(x, y) && !less(y, z) ==> !less(x, z))
  }

  lemma {:induction false} InsertPermutes<T>(less: (T, T) -> bool, ys: seq<T>, x: T)
    ensures multiset(Insert(less, ys, x)) == multiset(ys) + multiset{x}
  {
    if ys != [] && less(x, ys[|ys| - 1]) {
      var front, last := ys[..|ys| - 1], ys[|ys| - 1];
      InsertPermutes(less, front, x);
      assert ys == front + [last];
    }
  }

  lemma {:induction false} InsertHas<T>(less: (T, T) -> bool, ys: seq<T>, x: T, i: nat)
    requires i <= |ys|
    ensures Insert(less, ys, x)[i] == x || exists k :: 0 <= k < |ys| && Insert(less, ys, x)[i] == ys[k]
  {
    if ys != [] && less(x, ys[|ys| - 1]) && i < |ys| {
      var front := ys[..|ys| - 1];
      InsertHas(less, front, x, i);
      assert Insert(less, ys, x)[i] == Insert(less, front, x)[i];
      if Insert(less, front, x)[i] != x {
        var k :| 0 <= k < |front| && Insert(less, front, x)[i] == front[k];
        assert ys[k] == front[k];
      }
    }
  }

  lemma {:induction false} InsertSorted<T(!new)>(less: (T, T) -> bool, ys: seq<T>, x: T)
    requires Weak(less) && Sorted(less, ys)
    ensures Sorted(less, Insert(less, ys, x))
  {
    if ys != [] && less(x, ys[|ys| - 1]) {
      var front, last := ys[..|ys| - 1], ys[|ys| - 1];
      InsertSorted(less, front, x);
      var r := Insert(less, front, x);
      forall i | 0 <= i < |r| ensures !less(last, r[i]) {
        InsertHas(less, front, x, i);
      }
    }
  }

  lemma {:induction false} SortSorts<T(!new)>(less: (T, T) -> bool, xs: seq<T>)
    requires Weak(less)
    ensures Sorted(less, Sort(less, xs)) && multiset(Sort(less, xs)) == multiset(xs)
  {
    hide Weak, Insert;
    if xs != [] {
      var front, last := xs[..|xs| - 1], xs[|xs| - 1];
      SortSorts(less, front);
      InsertPermutes(less, Sort(less, front), last);
      InsertSorted(less, Sort(less, front), last);
      assert multiset(xs) == multiset(front) + multiset{last} by {
        assert xs == front + [last];
      }
    }
  }

  lemma {:induction false} SortHas<T>(less: (T, T) -> bool, xs: seq<T>, i: nat)
    requires i < |xs|
    ensures exists k :: 0 <= k < |xs| && Sort(less, xs)[i] == xs[k]
  {
    var front, x := xs[..|xs| - 1], xs[|xs| - 1];
    InsertHas(less, Sort(less, front), x, i);
    if Sort(less, xs)[i] != x {
      var k :| 0 <= k < |front| && Sort(less, xs)[i] == Sort(less, front)[k];
      SortHas(less, front, k);
      var m :| 0 <= m < |front| && Sort(less, front)[k] == front[m];
      assert xs[m] == front[m];
    }
  }

  // The elements of xs that neither come before x nor after it, in their order.
  function Ties<T>(less: (T, T) -> bool, xs: seq<T>, x: T): seq<T> {
    if xs == [] then []
    else Ties(less, xs[..|xs| - 1], x) + Tie(less, xs[|xs| - 1], x)
  }

  function Tie<T>(less: (T, T) -> bool, y: T, x: T): seq<T> {
    if less(y, x) || less(x, y) then [] else [y]
  }

  lemma TiesSnoc<T>(less: (T, T) -> bool, ys: seq<T>, y: T, x: T)
    ensures Ties(less, ys + [y], x) == Ties(less, ys, x) + Tie(less, y, x)
  {
    assert (ys + [y])[..|ys|] == ys;
  }

  lemma {:induction false} InsertTies<T(!new)>(less: (T, T) -> bool, ys: seq<T>, y: T, x: T)
    requires Weak(less)
    ensures Ties(less, Insert(less, ys, y), x) == Ties(less, ys, x) + Tie(less, y, x)
  {
    hide Ties;
    if ys == [] || !less(y, ys[|ys| - 1]) {
      TiesSnoc(less, ys, y, x);
    } else {
      var front, last := ys[..|ys| - 1], ys[|ys| - 1];
      InsertTies(less, front, y, x);
      TiesSnoc(less, Insert(less, front, y), last, x);
      assert ys == front + [last];
      TiesSnoc(less, front, last, x);
      var a, b, c := Ties(less, front, x), Tie(less, y, x), Tie(less, last, x);
      assert b == [] || c == [];
      assert a + b + c == a + c + b;
    }
  }

  // The sort is stable: elements that tie keep their order.
  lemma {:induction false} SortTies<T(!new)>(less: (T, T) -> bool, xs: seq<T>, x: T)
    requires Weak(less)
    ensures Ties(less, Sort(less, xs), x) == Ties(less, xs, x)
  {
    if xs != [] {
      SortTies(less, xs[..|xs| - 1], x);
      InsertTies(less, Sort(less, xs[..|xs| - 1]), xs[|xs| - 1], x);
    }
  }

  // Sorting what is sorted changes nothing.
  lemma {:induction false} SortOfSorted<T>(less: (T, T) -> bool, xs: seq<T>)
    requires Sorted(less, xs)
    ensures Sort(less, xs) == xs
  {
    if xs != [] {
      var front := xs[..|xs| - 1];
      SortOfSorted(less, front);
      assert xs == front + [xs[|xs| - 1]];
    }
  }

  method SortInPlace<T>(less: (T, T) -> bool, a: array<T>)
    modifies a
    ensures a[..] == Sort(less, old(a[..]))
  {
    hide Insert;
    ghost var was := a[..];
    for i := 0 to a.Length
      invariant a[..i] == Sort(less, was[..i]) && a[i..] == was[i..]
    {
      assert was[..i + 1][..i] == was[..i] && a[i] == a[i..][0] == was[i];
      InsertInPlace(less, a, i);
    }
    assert was[..a.Length] == was && a[..a.Length] == a[..];
  }

  // Moves element number i down to its place among the ones before it.
  method InsertInPlace<T>(less: (T, T) -> bool, a: array<T>, i: nat)
    requires i < a.Length
    modifies a
    ensures a[..i + 1] == Insert(less, old(a[..i]), old(a[i])) && a[i + 1..] == old(a[i + 1..])
  {
    hide Insert, Moved;
    ghost var ys, tail := a[..i], a[i + 1..];
    var x := a[i];
    var j := i;
    MovedNowhere(less, ys, x);
    while j > 0 && less(x, a[j - 1])
      invariant j <= i
      invariant forall k | 0 <= k < j :: a[k] == ys[k]
      invariant forall k | j < k <= i :: a[k] == ys[k - 1]
      invariant forall k | i < k < a.Length :: a[k] == tail[k - i - 1]
      invariant Moved(less, ys, x, j)
    {
      InsertStep(less, ys, x, j);
      a[j] := a[j - 1];
      j := j - 1;
    }
    InsertEnd(less, ys, x, j);
    a[j] := x;
    Rebuilt(a[..i + 1], ys, x, j);
    assert forall k | 0 <= k < |tail| :: a[i + 1..][k] == tail[k];
  }

  lemma Rebuilt<T>(b: seq<T>, ys: seq<T>, x: T, j: nat)
    requires j <= |ys| && |b| == |ys| + 1 && b[j] == x
    requires forall k | 0 <= k < j :: b[k] == ys[k]
    requires forall k | j < k < |b| :: b[k] == ys[k - 1]
    ensures b == ys[..j] + [x] + ys[j..]
  {
  }

  // x goes in front of the elements from j on.
  ghost predicate Moved<T>(less: (T, T) -> bool, ys: seq<T>, x: T, j: nat) {
    j <= |ys| && Insert(less, ys, x) == Insert(less, ys[..j], x) + ys[j..]
  }

  lemma MovedNowhere<T>(less: (T, T) -> bool, ys: seq<T>, x: T)
    ensures Moved(less, ys, x, |ys|)
  {
    assert ys[..|ys|] == ys && ys[|ys|..] == [];
  }

  lemma InsertStep<T>(less: (T, T) -> bool, ys: seq<T>, x: T, j: nat)
    requires 0 < j <= |ys| && less(x, ys[j - 1]) && Moved(less, ys, x, j)
    ensures Moved(less, ys, x, j - 1)
  {
    hide Insert;
    InsertIs(less, ys[..j], x);
    assert ys[..j][..j - 1] == ys[..j - 1];
    assert ys[j - 1..] == [ys[j - 1]] + ys[j..];
  }

  lemma InsertIs<T>(less: (T, T) -> bool, ys: seq<T>, x: T)
    ensures Insert(less, ys, x) ==
      if ys == [] || !less(x, ys[|ys| - 1]) then ys + [x] else Insert(less, ys[..|ys| - 1], x) + [ys[|ys| - 1]]
  {
  }

  lemma InsertEnd<T>(less: (T, T) -> bool, ys: seq<T>, x: T, j: nat)
    requires Moved(less, ys, x, j) && (j > 0 ==> !less(x, ys[j - 1]))
    ensures Insert(less, ys, x) == ys[..j] + [x] + ys[j..]
  {
    hide Insert;
    InsertIs(less, ys[..j], x);
  }
}
