// What the text modules share: digits, blanks, and runs of characters.
module Scanning {

  predicate IsDigit(c: char) {
    '0' <= c <= '9'
  }

  function Blank(c: char): bool {
    c == ' ' || c == '\t'
  }

  // The length of the longest prefix of characters with p.
  function Span(p: char -> bool, s: string): (n: nat)
    ensures n <= |s| && (forall i | 0 <= i < n :: p(s[i])) && (n < |s| ==> !p(s[n]))
  {
    if s != "" && p(s[0]) then 1 + Span(p, s[1..]) else 0
  }

  lemma {:induction false} SpanIs(p: char -> bool, x: string, k: string)
    requires forall i | 0 <= i < |x| :: p(x[i])
    requires k == "" || !p(k[0])
    ensures Span(p, x + k) == |x| && (x + k)[..|x|] == x && (x + k)[|x|..] == k
  {
    if x == "" {
      assert "" + k == k;
    } else {
      Assoc(x, k, "");
      SpanIs(p, x[1..], k);
    }
  }

  lemma Assoc(a: string, b: string, c: string)
    ensures a + b + c == a + (b + c)
    ensures a != "" ==> (a + b)[0] == a[0] && (a + b)[1..] == a[1..] + b
    ensures "" + b == b
  {
  }

  // s without the characters of space around it.
  function TrimOf(space: char -> bool, s: string): string
    decreases |s|
  {
    if s == "" then ""
    else if space(s[0]) then TrimOf(space, s[1..])
    else if space(s[|s| - 1]) then TrimOf(space, s[..|s| - 1])
    else s
  }

  lemma TrimOfSolid(space: char -> bool, x: string, s: string)
    requires (forall i | 0 <= i < |x| :: space(x[i])) && s != "" && !space(s[0]) && !space(s[|s| - 1])
    ensures TrimOf(space, x + s) == s
  {
    if x == "" {
      assert x + s == s;
    } else {
      Assoc(x, s, "");
      TrimOfSolid(space, x[1..], s);
    }
  }
}
