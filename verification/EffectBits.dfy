// EffectSet of types/effects.go: sets of effect labels as bits of a byte.
module EffectBits {
  import opened Effects

  type EffectSet = bv8

  const LABELS: seq<Label> := [IO, FS, Net, Time, Meta]

  // 1 << l
  function Bit(l: Label): EffectSet {
    match l
    case IO => 1
    case FS => 2
    case Net => 4
    case Time => 8
    case Meta => 16
  }

  predicate Has(s: EffectSet, l: Label) {
    s & Bit(l) != 0
  }

  function Add(s: EffectSet, l: Label): EffectSet {
    s | Bit(l)
  }

  function UnionOf(s: EffectSet, t: EffectSet): EffectSet {
    s | t
  }

  predicate IsSubset(s: EffectSet, t: EffectSet) {
    s & !t == 0
  }

  // The set that the bits stand for.
  function ToSet(s: EffectSet): set<Label> {
    set l | l in LABELS && Has(s, l)
  }

  // Only bits of labels are set.
  predicate Canonical(s: EffectSet) {
    s & 0xE0 == 0
  }

  lemma AllLabels(l: Label)
    ensures l in LABELS
  {
    match l
    case IO => assert LABELS[0] == l;
    case FS => assert LABELS[1] == l;
    case Net => assert LABELS[2] == l;
    case Time => assert LABELS[3] == l;
    case Meta => assert LABELS[4] == l;
  }

  lemma HasInSet(s: EffectSet, l: Label)
    ensures l in ToSet(s) <==> Has(s, l)
  {
    AllLabels(l);
  }

  // The bit operations are the set operations.
  lemma BitsAreSets(s: EffectSet, t: EffectSet, l: Label)
    requires Canonical(s) && Canonical(t)
    ensures Canonical(UnionOf(s, t)) && Canonical(Add(s, l)) && Canonical(0)
    ensures ToSet(UnionOf(s, t)) == ToSet(s) + ToSet(t)
    ensures ToSet(Add(s, l)) == ToSet(s) + {l}
    ensures IsSubset(s, t) <==> ToSet(s) <= ToSet(t)
    ensures s == t <==> ToSet(s) == ToSet(t)
    ensures ToSet(0) == {}
  {
    forall m ensures m in ToSet(UnionOf(s, t)) <==> m in ToSet(s) + ToSet(t) {
      HasUnion(s, t, m);
    }
    forall m ensures m in ToSet(Add(s, l)) <==> m in ToSet(s) + {l} {
      HasAdd(s, l, m);
    }
    SubsetByBits(s, t);
    SubsetByBits(t, s);
  }

  lemma HasUnion(s: EffectSet, t: EffectSet, m: Label)
    ensures m in ToSet(UnionOf(s, t)) <==> m in ToSet(s) || m in ToSet(t)
  {
    HasInSet(s, m);
    HasInSet(t, m);
    HasInSet(UnionOf(s, t), m);
  }

  lemma HasAdd(s: EffectSet, l: Label, m: Label)
    ensures m in ToSet(Add(s, l)) <==> m in ToSet(s) || m == l
  {
    HasInSet(s, m);
    HasInSet(Add(s, l), m);
  }

  lemma SubsetByBits(s: EffectSet, t: EffectSet)
    requires Canonical(s) && Canonical(t)
    ensures IsSubset(s, t) <==> ToSet(s) <= ToSet(t)
    ensures IsSubset(s, t) && IsSubset(t, s) ==> s == t
  {
    forall l ensures l in ToSet(s) <==> Has(s, l) {
      HasInSet(s, l);
    }
    forall l ensures l in ToSet(t) <==> Has(t, l) {
      HasInSet(t, l);
    }
    assert IsSubset(s, t) <==>
      (Has(s, IO) ==> Has(t, IO)) && (Has(s, FS) ==> Has(t, FS)) && (Has(s, Net) ==> Has(t, Net)) &&
      (Has(s, Time) ==> Has(t, Time)) && (Has(s, Meta) ==> Has(t, Meta));
  }

  method NewEffectSet(labels: seq<Label>) returns (s: EffectSet)
    ensures Canonical(s) && ToSet(s) == set l | l in labels
  {
    s := 0;
    for i := 0 to |labels|
      invariant Canonical(s) && ToSet(s) == set l | l in labels[..i]
    {
      BitsAreSets(s, s, labels[i]);
      assert labels[..i + 1] == labels[..i] + [labels[i]];
      s := s | Bit(labels[i]);
    }
    assert labels[..|labels|] == labels;
  }

  // Labels: in canonical order, each once.
  method Labels(s: EffectSet) returns (out: seq<Label>)
    ensures forall l :: l in out <==> l in ToSet(s)
    ensures forall i, j | 0 <= i < j < |out| :: Bit(out[i]) < Bit(out[j])
  {
    out := [];
    for i := 0 to |LABELS|
      invariant forall l :: l in out <==> l in LABELS[..i] && Has(s, l)
      invariant forall j, k | 0 <= j < k < |out| :: Bit(out[j]) < Bit(out[k])
      invariant forall j | 0 <= j < |out| :: out[j] in LABELS[..i]
    {
      assert LABELS[..i + 1] == LABELS[..i] + [LABELS[i]];
      assert forall l <- LABELS[..i] :: Bit(l) < Bit(LABELS[i]);
      if Has(s, LABELS[i]) {
        out := out + [LABELS[i]];
      }
    }
    assert LABELS[..|LABELS|] == LABELS;
  }
}
