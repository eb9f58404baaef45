// What the solver does not see of sequences by itself.
module Sequences {

  lemma FrontOfRest<T>(xs: seq<T>, n: nat)
    requires n < |xs|
    ensures xs[1..][..n] == xs[..n + 1][1..]
  {
  }

  lemma MoveOne<T>(front: seq<T>, xs: seq<T>, i: nat)
    requires i < |xs|
    ensures front + xs[i..] == front + [xs[i]] + xs[i + 1..]
  {
  }
}
