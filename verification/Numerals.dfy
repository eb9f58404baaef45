// strconv.Atoi, decimal printing and the string searches of Go's standard
// library, as far as semver/ and typemap/ rely on them.
module Numerals {
  import opened Options
  import opened Scanning

  const MAX_INT := 0x7FFF_FFFF_FFFF_FFFF

  predicate AllDigits(s: string) {
    forall i | 0 <= i < |s| :: IsDigit(s[i])
  }

  function DigitValue(c: char): int {
    c as int - '0' as int
  }

  function Value(s: string): int {
    if s == "" then 0 else Value(s[..|s| - 1]) * 10 + DigitValue(s[|s| - 1])
  }

  // A 64-bit integer with an optional sign.
  function Atoi(s: string): (r: Option<int>) {
    var body := if s != "" && s[0] in "+-" then s[1..] else s;
    var n := if s != "" && s[0] == '-' then -Value(body) else Value(body);
    if body != "" && AllDigits(body) && -MAX_INT - 1 <= n <= MAX_INT then Some(n) else None
  }

  // What %d prints for a number that is not negative.
  function Digits(n: nat): (s: string)
    ensures s != "" && AllDigits(s)
  {
    var last := [('0' as int + n % 10) as char];
    if n < 10 then last else Digits(n / 10) + last
  }

  function Decimal(n: int): string {
    if n < 0 then "-" + Digits(-n) else Digits(n)
  }

  lemma {:induction false} ValueOfDigits(n: nat)
    ensures Value(Digits(n)) == n
    ensures Digits(n)[0] == '0' <==> n == 0
  {
    if n >= 10 {
      ValueOfDigits(n / 10);
      var s := Digits(n);
      assert s[..|s| - 1] == Digits(n / 10);
      assert s[0] == Digits(n / 10)[0];
    }
  }

  lemma AtoiOfDigits(n: nat)
    requires n <= MAX_INT
    ensures Atoi(Digits(n)) == Some(n)
  {
    ValueOfDigits(n);
    assert IsDigit(Digits(n)[0]);
  }

  // Every 64-bit integer is read back, its sign included, and no other number.
  lemma AtoiOfDecimal(n: int)
    ensures Atoi(Decimal(n)) ==
      if -9_223_372_036_854_775_808 <= n <= 9_223_372_036_854_775_807 then Some(n) else None
  {
    ValueOfDigits(if n < 0 then -n else n);
    assert IsDigit(Digits(if n < 0 then -n else n)[0]);
    if n < 0 {
      assert Decimal(n)[1..] == Digits(-n);
    }
  }

  lemma {:induction false} ValueIsNat(s: string)
    requires AllDigits(s)
    ensures Value(s) >= 0
    ensures s != "" && s[0] != '0' ==> Value(s) > 0
  {
    if s != "" {
      ValueIsNat(s[..|s| - 1]);
    }
  }

  // Printed back, a numeral is unchanged exactly when it has no leading zero.
  lemma {:induction false} DigitsOfValueIff(s: string)
    requires s != "" && AllDigits(s)
    ensures Value(s) >= 0
    ensures Digits(Value(s)) == s <==> |s| == 1 || s[0] != '0'
  {
    ValueIsNat(s);
    var front, n := s[..|s| - 1], Value(s);
    var last := s[|s| - 1..];
    assert [('0' as int + DigitValue(s[|s| - 1])) as char] == last;
    assert s == front + last;
    if |s| > 1 {
      ValueIsNat(front);
      if s[0] != '0' {
        DigitsOfValueIff(front);
        assert n / 10 == Value(front) && n % 10 == DigitValue(s[|s| - 1]);
      } else {
        hide Value, Digits;
        ValueOfDigits(n);
        assert |s| > 1 && s[0] == '0' && (n == 0 ==> Digits(n) == "0") by {
          DigitsOfZero();
        }
      }
    }
  }

  lemma DigitsOfZero()
    ensures Digits(0) == "0"
  {
  }

  // ---- Searching ----

  // strings.Index for one character: the first occurrence, or |s|.
  function IndexOf(s: string, c: char): (i: nat)
    ensures i <= |s| && c !in s[..i] && (i < |s| ==> s[i] == c)
  {
    if s == "" || s[0] == c then 0 else IndexOf(s[1..], c) + 1
  }

  lemma {:induction false} IndexOfIs(x: string, c: char, y: string)
    requires c !in x
    ensures IndexOf(x + [c] + y, c) == |x|
  {
    var s := x + [c] + y;
    if x != "" {
      assert s[0] == x[0] && x[0] in x;
      assert s[1..] == x[1..] + [c] + y;
      IndexOfIs(x[1..], c, y);
    }
  }

  lemma {:induction false} IndexOfNone(s: string, c: char)
    ensures IndexOf(s, c) == |s| <==> c !in s
  {
    if IndexOf(s, c) == |s| {
      assert s[..|s|] == s;
    }
  }

  predicate OccursAt(s: string, sub: string, i: int) {
    0 <= i <= |s| - |sub| && s[i..i + |sub|] == sub
  }

  // strings.LastIndex: the last occurrence at or before n, or -1.
  function LastAt(s: string, sub: string, n: nat): (i: int)
    ensures -1 <= i <= n
    ensures i >= 0 ==> OccursAt(s, sub, i)
    ensures forall j :: i < j <= n ==> !OccursAt(s, sub, j)
  {
    if OccursAt(s, sub, n) then n else if n == 0 then -1 else LastAt(s, sub, n - 1)
  }

  function LastIndexOf(s: string, sub: string): (i: int)
    ensures i == -1 || OccursAt(s, sub, i)
    ensures forall j | OccursAt(s, sub, j) :: j <= i
  {
    LastAt(s, sub, |s|)
  }

  lemma LastIndexOfIs(x: string, sub: string, y: string)
    requires sub != "" && sub[0] !in sub[1..] && sub[0] !in y
    ensures LastIndexOf(x + sub + y, sub) == |x|
  {
    var s := x + sub + y;
    assert OccursAt(s, sub, |x|);
    forall j | |x| < j <= |s| - |sub| ensures !OccursAt(s, sub, j) {
      var c := if j < |x| + |sub| then sub[1..][j - |x| - 1] else y[j - |x| - |sub|];
      assert c != sub[0] && s[j] == c;
      assert s[j..j + |sub|][0] == c;
    }
  }

  lemma LastIndexOfNone(s: string, sub: string, c: char)
    requires c in sub && c !in s
    ensures LastIndexOf(s, sub) == -1
  {
    var k :| 0 <= k < |sub| && sub[k] == c;
    forall j | 0 <= j <= |s| - |sub| ensures !OccursAt(s, sub, j) {
      assert s[j + k] != c && s[j..j + |sub|][k] == s[j + k];
    }
  }

  // ---- strings.Split and strings.Join for one character ----

  function SplitOn(s: string, c: char): (ps: seq<string>)
    ensures ps != [] && forall p <- ps :: c !in p
    decreases |s|
  {
    var i := IndexOf(s, c);
    if i == |s| then [s[..i]] else [s[..i]] + SplitOn(s[i + 1..], c)
  }

  function JoinWith(ps: seq<string>, c: char): string {
    if ps == [] then "" else if |ps| == 1 then ps[0] else ps[0] + [c] + JoinWith(ps[1..], c)
  }

  lemma JoinCons(x: string, rest: seq<string>, c: char)
    requires rest != []
    ensures JoinWith([x] + rest, c) == x + [c] + JoinWith(rest, c)
  {
    assert ([x] + rest)[1..] == rest;
  }

  lemma {:induction false} JoinOfSplit(s: string, c: char)
    ensures JoinWith(SplitOn(s, c), c) == s
    decreases |s|
  {
    hide IndexOf, JoinWith;
    var i := IndexOf(s, c);
    if i < |s| {
      var rest := SplitOn(s[i + 1..], c);
      JoinOfSplit(s[i + 1..], c);
      JoinCons(s[..i], rest, c);
      assert s == s[..i] + [c] + s[i + 1..];
    } else {
      JoinOne(s, c);
      assert s[..|s|] == s;
    }
  }

  lemma JoinOne(x: string, c: char)
    ensures JoinWith([x], c) == x
  {
  }

  lemma SplitOne(x: string, c: char)
    requires c !in x
    ensures SplitOn(x, c) == [x]
  {
    IndexOfNone(x, c);
    assert x[..|x|] == x;
  }

  lemma SplitCons(x: string, c: char, rest: string)
    requires c !in x
    ensures SplitOn(x + [c] + rest, c) == [x] + SplitOn(rest, c)
  {
    var s := x + [c] + rest;
    IndexOfIs(x, c, rest);
    assert s[..|x|] == x && s[|x| + 1..] == rest;
  }

  lemma {:induction false} SplitOfJoin(ps: seq<string>, c: char)
    requires ps != [] && forall i :: 0 <= i < |ps| ==> c !in ps[i]
    ensures SplitOn(JoinWith(ps, c), c) == ps
  {
    hide JoinWith, SplitOn;
    assert ps == [ps[0]] + ps[1..];
    if |ps| == 1 {
      assert ps == [ps[0]];
      JoinOne(ps[0], c);
      SplitOne(ps[0], c);
    } else {
      JoinCons(ps[0], ps[1..], c);
      SplitCons(ps[0], c, JoinWith(ps[1..], c));
      SplitOfJoin(ps[1..], c);
    }
  }
}
