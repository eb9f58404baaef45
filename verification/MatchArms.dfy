// The canonicalisation of match arms in transpiler3/c/lower/match.go.
module MatchArms {
  import opened Options
  import opened StableSort

  // A guard is named by its expression; the wildcard arm of a match is kept
  // apart from the others and has no use for its tag.
  datatype Arm = Arm(tag: nat, variant: string, guard: Option<nat>, body: seq<Stmt>)

  // A missing else-block is an empty one. Every loop, whatever its header, is a
  // Loop; a statement whose blocks the pass does not visit is an Other.
  datatype Stmt =
    | Match(target: nat, arms: seq<Arm>, wildcard: Option<Arm>)
    | If(cond: nat, thens: seq<Stmt>, elses: seq<Stmt>)
    | Loop(header: nat, body: seq<Stmt>)
    | Other(id: nat)

  predicate Less(a: Arm, b: Arm) {
    a.tag < b.tag || (a.tag == b.tag && a.guard.Some? && b.guard.None?)
  }

  // Two arms without guard have one tag.
  predicate Duplicate(xs: seq<Arm>) {
    exists i, j | 0 <= i < j < |xs| :: xs[i].guard.None? && xs[j].guard.None? && xs[i].tag == xs[j].tag
  }

  // canonicalizeMatchStmt, without its way into the bodies: an error leaves the
  // arms as they are.
  method Canonicalize(arms: array<Arm>) returns (ok: bool)
    modifies arms
    ensures ok <==> !Duplicate(old(arms[..]))
    ensures arms[..] == if ok then Sort(Less, old(arms[..])) else old(arms[..])
  {
    ok := DistinctTags(arms);
    if ok {
      SortInPlace(Less, arms);
    }
  }

  method DistinctTags(arms: array<Arm>) returns (ok: bool)
    ensures ok <==> !Duplicate(arms[..])
  {
    var seen: set<nat> := {};
    for i := 0 to arms.Length
      invariant forall t :: t in seen <==> exists j :: 0 <= j < i && arms[j].guard.None? && arms[j].tag == t
      invariant !Duplicate(arms[..i])
    {
      assert arms[..i + 1] == arms[..i] + [arms[i]];
      if arms[i].guard.None? {
        if arms[i].tag in seen {
          var j :| 0 <= j < i && arms[j].guard.None? && arms[j].tag == arms[i].tag;
          assert arms[..][j] == arms[j] && arms[..][i] == arms[i];
          return false;
        }
        seen := seen + {arms[i].tag};
      }
    }
    assert arms[..arms.Length] == arms[..];
    return true;
  }
}
