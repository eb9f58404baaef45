// Comparisons as signs, and strings.Compare.
module Orders {

  // The sign of a comparison: -1, 0 or 1.
  type Sign = c: int | -1 <= c <= 1

  // The second comparison decides where the first one does not.
  function Then(x: Sign, y: Sign): Sign {
    if x != 0 then x else y
  }

  function CmpInt(a: int, b: int): Sign {
    if a < b then -1 else if a > b then 1 else 0
  }

  // strings.Compare.
  function CmpString(a: string, b: string): Sign {
    if a == "" && b == "" then 0
    else if a == "" then -1
    else if b == "" then 1
    else Then(CmpInt(a[0] as int, b[0] as int), CmpString(a[1..], b[1..]))
  }

  // What three comparisons u:v, v:w and u:w of one preorder have in common.
  predicate Coherent(uv: Sign, vw: Sign, uw: Sign) {
    && (uv < 0 && vw < 0 ==> uw < 0)
    && (uv > 0 && vw > 0 ==> uw > 0)
    && (uv == 0 ==> uw == vw)
    && (vw == 0 ==> uw == uv)
  }

  ghost predicate Preorder<T(!new)>(cmp: (T, T) -> Sign) {
    && (forall u, v :: cmp(v, u) == -cmp(u, v))
    && (forall u, v, w :: Coherent(cmp(u, v), cmp(v, w), cmp(u, w)))
  }

  lemma ThenCoherent(a: Sign, b: Sign, c: Sign, a': Sign, b': Sign, c': Sign)
    requires Coherent(a, b, c) && Coherent(a', b', c')
    ensures Coherent(Then(a, a'), Then(b, b'), Then(c, c'))
  {
  }

  lemma {:induction false} StringsCoherent(u: string, v: string, w: string)
    ensures CmpString(v, u) == -CmpString(u, v)
    ensures Coherent(CmpString(u, v), CmpString(v, w), CmpString(u, w))
  {
    if u != "" && v != "" {
      StringsCoherent(u[1..], v[1..], if w == "" then "" else w[1..]);
    }
  }

  lemma {:induction false} StringsEqualIff(a: string, b: string)
    ensures CmpString(a, b) == 0 <==> a == b
  {
    if a != "" && b != "" {
      StringsEqualIff(a[1..], b[1..]);
      assert a == [a[0]] + a[1..] && b == [b[0]] + b[1..];
    }
  }

  // a comes before b: where they first differ, a ends or has the smaller
  // character.
  ghost predicate StringBefore(a: string, b: string) {
    exists k: nat :: FirstSmaller(a, b, k)
  }

  predicate FirstSmaller(a: string, b: string, k: nat) {
    k <= |a| && k < |b| && a[..k] == b[..k] && (k == |a| || a[k] < b[k])
  }

  lemma {:induction false} StringBeforeIff(a: string, b: string)
    ensures CmpString(a, b) < 0 <==> StringBefore(a, b)
  {
    if b != "" && a == "" {
      assert FirstSmaller(a, b, 0);
    } else if b != "" {
      StringBeforeIff(a[1..], b[1..]);
      if a[0] < b[0] {
        assert FirstSmaller(a, b, 0);
      }
      if a[0] == b[0] && StringBefore(a[1..], b[1..]) {
        var k: nat :| FirstSmaller(a[1..], b[1..], k);
        SmallerStep(a, b, k);
      }
      if k: nat :| FirstSmaller(a, b, k) {
        if k > 0 {
          assert a[0] == a[..k][0] == b[..k][0] == b[0];
          SmallerStep(a, b, k - 1);
        }
      }
    }
  }

  lemma SmallerStep(a: string, b: string, k: nat)
    requires a != "" && b != "" && a[0] == b[0]
    ensures FirstSmaller(a[1..], b[1..], k) <==> FirstSmaller(a, b, k + 1)
  {
    if k < |a| && k < |b| {
      assert a[..k + 1] == [a[0]] + a[1..][..k] && b[..k + 1] == [b[0]] + b[1..][..k];
    }
  }

  // The order of sort.Strings.
  predicate StringLess(a: string, b: string) {
    CmpString(a, b) < 0
  }

  lemma StringLessIff(a: string, b: string)
    ensures StringLess(a, b) <==> StringBefore(a, b)
  {
    StringBeforeIff(a, b);
  }
}
