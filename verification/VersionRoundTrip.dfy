// Parsing and printing of versions are inverse to each other.
module VersionRoundTrip {
  import opened Options
  import opened Numerals
  import opened Scanning
  import opened Versions

  // ---- Which characters occur where ----

  ghost predicate Over(s: string, extra: string) {
    forall c <- s :: IsDigit(c) || c in extra
  }

  lemma CountChars(t: string)
    requires CountText(t)
    ensures Over(t, "-") && t != "" && IsDigit(t[|t| - 1])
    ensures '.' !in t && '!' !in t && 'r' !in t
  {
    assert t[0] in t;
    var body := if t[0] == '-' then t[1..] else t;
    assert AllDigits(body) && body != "";
    forall c | c in t ensures IsDigit(c) || c == '-' {
      var i :| 0 <= i < |t| && t[i] == c;
      assert i > 0 ==> t[i] == t[1..][i - 1];
    }
    assert t[|t| - 1] == body[|body| - 1];
  }

  lemma {:induction false} ReleaseChars(ts: seq<string>)
    requires ts != [] && forall i :: 0 <= i < |ts| ==> CountText(ts[i])
    ensures Over(JoinWith(ts, '.'), "-.") && JoinWith(ts, '.') != ""
    ensures IsDigit(JoinWith(ts, '.')[|JoinWith(ts, '.')| - 1])
  {
    hide JoinWith, CountText;
    CountChars(ts[0]);
    assert ts == [ts[0]] + ts[1..];
    if |ts| > 1 {
      var rest := JoinWith(ts[1..], '.');
      ReleaseChars(ts[1..]);
      JoinCons(ts[0], ts[1..], '.');
      OverMore(ts[0], "-", "-.");
      OverConcat(ts[0], ".", "-.");
      OverConcat(ts[0] + ".", rest, "-.");
    } else {
      assert ts == [ts[0]];
      JoinOne(ts[0], '.');
      OverMore(ts[0], "-", "-.");
    }
  }

  lemma OverConcat(a: string, b: string, extra: string)
    requires Over(a, extra) && Over(b, extra)
    ensures Over(a + b, extra)
  {
  }

  lemma TaggedChars(tag: string, num: Option<string>, extra: string)
    requires (forall c <- tag :: c in extra) && '-' in extra && (num.Some? ==> CountText(num.value))
    ensures Over(Tagged(tag, num), extra)
  {
    hide CountText;
    if num.Some? {
      CountChars(num.value);
    }
  }

  lemma PreChars(p: Parts)
    requires ValidParts(p)
    ensures Over(JoinPre(p), "-.abrc") && 'p' !in JoinPre(p)
    ensures var r := JoinWith(p.release, '.'); r != "" && r <= JoinPre(p) && IsDigit(r[|r| - 1])
  {
    ReleaseChars(p.release);
    if p.kind != "" {
      CountChars(p.pre);
    }
  }

  lemma PostChars(p: Parts)
    requires ValidParts(p)
    ensures Over(JoinPost(p), "-.abrcpost") && 'd' !in JoinPost(p)
  {
    hide JoinPre, Tagged;
    PreChars(p);
    TaggedChars(".post", p.post, "-.abrcpost");
    OverMore(JoinPre(p), "-.abrc", "-.abrcpost");
    OverConcat(JoinPre(p), Tagged(".post", p.post), "-.abrcpost");
    OverLacks(JoinPost(p), "-.abrcpost", 'd');
  }

  lemma DevChars(p: Parts)
    requires ValidParts(p)
    ensures Over(JoinDev(p), "-.abrcpostdev") && '!' !in JoinDev(p)
  {
    hide JoinPost, Tagged;
    PostChars(p);
    TaggedChars(".dev", p.dev, "-.abrcpostdev");
    OverMore(JoinPost(p), "-.abrcpost", "-.abrcpostdev");
    OverConcat(JoinPost(p), Tagged(".dev", p.dev), "-.abrcpostdev");
    OverLacks(JoinDev(p), "-.abrcpostdev", '!');
  }

  lemma OverMore(s: string, extra: string, more: string)
    requires Over(s, extra) && extra <= more
    ensures Over(s, more)
  {
    assert forall c <- extra :: c in more;
  }

  lemma OverLacks(s: string, extra: string, c: char)
    requires Over(s, extra) && c !in extra && !IsDigit(c)
    ensures c !in s
  {
  }

  lemma EpochChars(p: Parts)
    requires ValidParts(p)
    ensures Over(JoinEpoch(p), "-.abrcpostdev!") && '+' !in JoinEpoch(p)
    ensures JoinEpoch(p) != "" && JoinEpoch(p)[0] in "-0123456789"
    ensures !IsSpace(JoinEpoch(p)[|JoinEpoch(p)| - 1])
  {
    hide JoinDev, IsSpace, IsCount;
    DevChars(p);
    CountStart(p.release[0]);
    StartsWithRelease(p);
    EndsInDigit(p);
    var x := JoinDev(p);
    DigitNoSpace(x[|x| - 1]);
    if p.epoch.Some? {
      CountChars(p.epoch.value);
      CountStart(p.epoch.value);
      assert Over("!", "-.abrcpostdev!");
    }
    assert JoinEpoch(p)[|JoinEpoch(p)| - 1] == x[|x| - 1];
  }

  lemma DigitNoSpace(c: char)
    requires IsDigit(c)
    ensures !IsSpace(c)
  {
  }

  lemma EndsInDigit(p: Parts)
    requires ValidParts(p)
    ensures JoinDev(p) != "" && IsDigit(JoinDev(p)[|JoinDev(p)| - 1])
  {
    hide JoinWith, IsCount;
    ReleaseChars(p.release);
    if p.kind != "" {
      CountChars(p.pre);
    }
    if p.post.Some? {
      CountChars(p.post.value);
    }
    if p.dev.Some? {
      CountChars(p.dev.value);
    }
  }

  lemma CountStart(t: string)
    requires CountText(t)
    ensures t != "" && t[0] in "-0123456789"
  {
    CountChars(t);
    assert t[0] in t;
  }

  lemma StartsWithRelease(p: Parts)
    requires ValidParts(p)
    ensures p.release[0] != "" && p.release[0] <= JoinDev(p)
  {
    CountChars(p.release[0]);
    var r := JoinWith(p.release, '.');
    assert p.release[0] <= r;
    assert r <= JoinPre(p) <= JoinPost(p) <= JoinDev(p);
  }

  // ---- Cutting what was joined ----

  lemma Slices(x: string, m: string, y: string)
    ensures var s := x + m + y; s[..|x|] == x && s[|x| + |m|..] == y && x + (m + y) == s && x + "" == x
  {
  }

  lemma CutPreOfJoin(p: Parts)
    requires ValidParts(p)
    ensures CutPre(JoinPre(p)) == (JoinWith(p.release, '.'), p.kind, p.pre)
  {
    hide JoinWith, Over, IsCount, LastIndexOf;
    var r := JoinWith(p.release, '.');
    NoLetters(p);
    if p.kind == "" {
      assert JoinPre(p) == r + "" + "" == r;
      CutKindNone(r, "rc", 'r');
      CutKindNone(r, "a", 'a');
      CutKindNone(r, "b", 'b');
    } else {
      CutKindIs(r, p.kind, p.pre);
      if p.kind != "rc" {
        CutKindNone(JoinPre(p), "rc", 'r');
      }
      if p.kind == "b" {
        CutKindNone(JoinPre(p), "a", 'a');
      }
    }
  }

  lemma NoLetters(p: Parts)
    requires ValidParts(p)
    ensures var r := JoinWith(p.release, '.'); 'r' !in r && 'a' !in r && 'b' !in r && r != "" && IsDigit(r[|r| - 1])
    ensures p.kind != "" ==> CountText(p.pre) && 'r' !in p.pre && 'a' !in p.pre && 'b' !in p.pre
    ensures p.kind in ["a", "b"] ==> 'r' !in JoinPre(p)
    ensures p.kind == "b" ==> 'a' !in JoinPre(p)
  {
    hide JoinWith;
    ReleaseChars(p.release);
    if p.kind != "" {
      CountChars(p.pre);
    }
  }

  lemma CutKindNone(s: string, kind: string, c: char)
    requires c in kind && c !in s
    ensures CutKind(s, kind) == (s, None)
  {
    LastIndexOfNone(s, kind, c);
  }

  lemma CutKindIs(r: string, kind: string, num: string)
    requires kind in ["rc", "a", "b"] && kind[0] !in num && r != "" && IsDigit(r[|r| - 1]) && CountText(num)
    ensures CutKind(r + kind + num, kind) == (r, Some(num))
  {
    hide IsCount, LastIndexOf;
    LastIndexOfIs(r, kind, num);
    Slices(r, kind, num);
    assert (r + kind + num)[|r| - 1] == r[|r| - 1];
  }

  lemma CutAfterOfJoin(x: string, tag: string, t: Option<string>, c: char)
    requires tag != "" && tag[0] !in tag[1..] && (t.Some? ==> tag[0] !in t.value)
    requires c in tag && c !in x
    ensures CutAfter(x + Tagged(tag, t), tag) == (x, t)
  {
    hide LastIndexOf;
    match t
    case None =>
      LastIndexOfNone(x, tag, c);
      Slices(x, "", "");
    case Some(y) =>
      LastIndexOfIs(x, tag, y);
      Slices(x, tag, y);
  }

  lemma CutEpochOfJoin(p: Parts)
    requires ValidParts(p)
    ensures CutEpoch(JoinEpoch(p)) == (JoinDev(p), p.epoch)
  {
    hide JoinDev, Over, IndexOf, IsCount;
    var x := JoinDev(p);
    DevChars(p);
    match p.epoch
    case None =>
      IndexOfNone(x, '!');
      assert "" + x == x;
    case Some(e) =>
      CountChars(e);
      IndexOfIs(e, '!', x);
      Slices(e, "!", x);
      assert JoinEpoch(p) == e + "!" + x;
  }

  lemma CutLocalOfJoin(p: Parts)
    requires ValidParts(p)
    ensures CutLocal(Join(p)) == (JoinEpoch(p), p.local)
  {
    hide JoinEpoch, Over, IndexOf, LocalText;
    var x := JoinEpoch(p);
    EpochChars(p);
    match p.local
    case None =>
      IndexOfNone(x, '+');
      assert x + "" == x;
    case Some(t) =>
      IndexOfIs(x, '+', t);
      Slices(x, "+", t);
  }

  lemma LocalHasNoSpace(t: string)
    requires LocalText(t)
    ensures t != "" && !IsSpace(t[|t| - 1])
  {
    var c := t[|t| - 1];
    assert Normalised(t)[|t| - 1] in Normalised(t);
    if c !in "-_" {
      assert IsLocalChar(c);
    }
  }

  lemma GoodEnds(p: Parts)
    requires ValidParts(p)
    ensures !BadEnds(Join(p))
  {
    hide JoinEpoch, IsSpace, LocalText, Over;
    var x := JoinEpoch(p);
    EpochChars(p);
    var s := Join(p);
    assert s[0] == x[0];
    Starts(x[0]);
    if p.local.Some? {
      LocalHasNoSpace(p.local.value);
      assert s[|s| - 1] == p.local.value[|p.local.value| - 1];
    } else {
      assert s == x;
    }
  }

  lemma Starts(c: char)
    requires c in "-0123456789"
    ensures !IsSpace(c) && c !in "vV"
  {
  }

  lemma SplitOfJoinedParts(p: Parts)
    requires ValidParts(p)
    ensures Split(Join(p)) == Some(p)
  {
    hide CutLocal, CutEpoch, CutAfter, CutPre, Join, JoinEpoch, BadEnds, Tagged, JoinWith, Over;
    GoodEnds(p);
    CutLocalOfJoin(p);
    CutEpochOfJoin(p);
    TailsCut(p);
    CutPreOfJoin(p);
    forall i | 0 <= i < |p.release| ensures '.' !in p.release[i] {
      CountChars(p.release[i]);
    }
    SplitOfJoin(p.release, '.');
  }

  lemma TailsCut(p: Parts)
    requires ValidParts(p)
    ensures CutAfter(JoinDev(p), ".dev") == (JoinPost(p), p.dev)
    ensures CutAfter(JoinPost(p), ".post") == (JoinPre(p), p.post)
  {
    hide CutAfter, Tagged;
    PreChars(p);
    PostChars(p);
    if p.dev.Some? {
      CountChars(p.dev.value);
    }
    if p.post.Some? {
      CountChars(p.post.value);
    }
    CutAfterOfJoin(JoinPost(p), ".dev", p.dev, 'd');
    CutAfterOfJoin(JoinPre(p), ".post", p.post, 'p');
  }

  // ---- Joining what was cut ----

  lemma JoinOfCutAfter(s: string, tag: string)
    ensures var (x, t) := CutAfter(s, tag); x + Tagged(tag, t) == s
  {
  }

  lemma JoinOfCutKind(s: string, kind: string)
    ensures var (x, t) := CutKind(s, kind); if t.Some? then x + kind + t.value == s && IsCount(t.value) else x == s
  {
    hide IsCount;
  }

  lemma JoinOfCutPre(s: string)
    ensures var (x, kind, num) := CutPre(s); x + kind + num == s
    ensures var (x, kind, num) := CutPre(s); if kind == "" then num == "" else kind in ["rc", "a", "b"] && IsCount(num)
  {
    hide CutKind, IsCount;
    JoinOfCutKind(s, "rc");
    JoinOfCutKind(s, "a");
    JoinOfCutKind(s, "b");
    Slices(s, "", "");
  }

  lemma JoinOfCutLocal(s: string)
    ensures var (x, t) := CutLocal(s); x + Tagged("+", t) == s && '+' !in x
  {
  }

  lemma JoinOfCutEpoch(s: string)
    ensures var (x, t) := CutEpoch(s);
      (match t case None => "" case Some(e) => e + "!") + x == s
  {
  }

  lemma {:induction false} JoinHasNot(ts: seq<string>, d: char, c: char)
    requires c !in JoinWith(ts, d)
    ensures forall i :: 0 <= i < |ts| ==> c !in ts[i]
  {
    if |ts| > 1 {
      JoinHasNot(ts[1..], d, c);
      forall i | 0 <= i < |ts| ensures c !in ts[i] {
        if i > 0 {
          assert ts[i] == ts[1..][i - 1];
        }
      }
    }
  }

  lemma JoinOfSplitParts(s: string)
    requires Split(s).Some?
    ensures ValidParts(Split(s).value) && Join(Split(s).value) == s
  {
    hide CutLocal, CutEpoch, CutAfter, CutPre, BadEnds, IsCount, LocalText, Tagged, JoinWith;
    var p := Split(s).value;
    var local := CutLocal(s);
    var epoch := CutEpoch(local.0);
    var dev := CutAfter(epoch.0, ".dev");
    var post := CutAfter(dev.0, ".post");
    var pre := CutPre(post.0);
    JoinOfCutLocal(s);
    JoinOfCutEpoch(local.0);
    JoinOfCutAfter(epoch.0, ".dev");
    JoinOfCutAfter(dev.0, ".post");
    JoinOfCutPre(post.0);
    JoinOfSplit(pre.0, '.');
    assert JoinPre(p) == post.0;
    assert JoinPost(p) == dev.0;
    assert JoinDev(p) == epoch.0;
    assert JoinEpoch(p) == local.0;
    NoPlusInParts(p);
    forall i | 0 <= i < |p.release| ensures IsCount(p.release[i]) {
      assert p.release[i] in p.release;
    }
  }

  lemma NoPlusInParts(p: Parts)
    requires '+' !in JoinEpoch(p)
    ensures p.epoch.Some? ==> '+' !in p.epoch.value
    ensures '+' !in p.pre && (p.post.Some? ==> '+' !in p.post.value) && (p.dev.Some? ==> '+' !in p.dev.value)
    ensures forall i :: 0 <= i < |p.release| ==> '+' !in p.release[i]
  {
    hide JoinWith;
    JoinHasNot(p.release, '.', '+');
  }

  // ---- The main results ----

  lemma CountOfDecimal(n: int)
    requires IsMachineCount(n)
    ensures Atoi(Decimal(n)) == Some(n) && CountText(Decimal(n)) && CanonicalCount(Decimal(n))
    ensures n > 0 ==> Decimal(n) != "0"
  {
    AtoiOfDigits(n);
    ValueOfDigits(n);
    DigitsOfValueIff(Digits(n));
  }

  lemma TextsAreValid(v: Version)
    requires WellFormed(v)
    ensures ValidParts(Texts(v)) && VersionOf(Texts(v)) == v && Canonical(Texts(v))
  {
    hide Decimal, IsCount, Atoi, CanonicalCount, IsLocalChar, LocalText;
    var p := Texts(v);
    forall n | IsMachineCount(n)
      ensures Atoi(Decimal(n)) == Some(n) && CountText(Decimal(n)) && CanonicalCount(Decimal(n))
      ensures n > 0 ==> Decimal(n) != "0"
    {
      CountOfDecimal(n);
      CountIs(Decimal(n));
    }
    LocalIsNormal(v.local);
    CountIs("");
    forall t ensures IsCount(t) <==> Atoi(t).Some? && Atoi(t).value >= 0 {
      CountIs(t);
    }
    assert Numbers(p.release) == v.release;
  }

  lemma CountIs(t: string)
    ensures IsCount(t) <==> Atoi(t).Some? && Atoi(t).value >= 0
    ensures t == "" ==> !IsCount(t)
  {
  }

  lemma LocalIsNormal(t: string)
    requires IsLocalLabel(t)
    ensures Normalised(t) == t && (t != "" ==> LocalText(t))
    ensures '-' !in t && '_' !in t
  {
    hide IsLocalChar;
    forall i | 0 <= i < |t| ensures t[i] != '-' && t[i] != '_' {
      assert t[i] in t;
      SeparatorsAreNotLocal(t[i]);
    }
    assert Normalised(t) == t;
  }

  lemma SeparatorsAreNotLocal(c: char)
    ensures IsLocalChar(c) ==> c != '-' && c != '_'
  {
  }

  // Parse(String(v)) is v, for every version that Parse can return.
  lemma VersionRoundTrip(v: Version)
    requires WellFormed(v)
    ensures Parsed(String(v)) == Some(v)
  {
    hide *;
    TextsAreValid(v);
    SplitOfJoinedParts(Texts(v));
    ParsedIs(String(v));
    StringIsJoin(v);
  }

  lemma ParsedIs(s: string)
    ensures Parsed(s) == match Split(s) case None => None case Some(p) => Some(VersionOf(p))
  {
  }

  lemma StringIsJoin(v: Version)
    ensures String(v) == Join(Texts(v))
  {
  }

  lemma ParsedIsWellFormed(s: string)
    requires Parsed(s).Some?
    ensures WellFormed(Parsed(s).value)
  {
    hide Split, LocalText, IsCount, IsLocalLabel;
    JoinOfSplitParts(s);
    var p := Split(s).value;
    forall t ensures IsCount(t) ==> Atoi(t).Some? && IsMachineCount(Atoi(t).value) {
      CountInRange(t);
    }
    CountIs("");
    if p.local.Some? {
      LocalIs(p.local.value);
    }
    LocalIs("");
  }

  lemma CountInRange(t: string)
    ensures IsCount(t) ==> Atoi(t).Some? && IsMachineCount(Atoi(t).value)
  {
  }

  lemma LocalIs(t: string)
    ensures LocalText(t) ==> IsLocalLabel(Normalised(t))
    ensures t == "" ==> IsLocalLabel(t)
  {
  }

  // Normalising is idempotent, and two versions print alike only if they are
  // the same.
  lemma NormalisingIsIdempotent(s: string)
    requires Parsed(s).Some?
    ensures Parsed(String(Parsed(s).value)) == Parsed(s)
  {
    ParsedIsWellFormed(s);
    VersionRoundTrip(Parsed(s).value);
  }

  lemma StringIsInjective(v: Version, w: Version)
    requires WellFormed(v) && WellFormed(w)
    ensures String(v) == String(w) <==> v == w
  {
    hide String, Parsed;
    VersionRoundTrip(v);
    VersionRoundTrip(w);
  }

  // Parse accepts exactly the strings of this form.
  lemma AcceptsIff(s: string)
    ensures Parsed(s).Some? <==> exists p :: ValidParts(p) && Join(p) == s
  {
    hide Split, ValidParts, Join, VersionOf;
    if Split(s).Some? {
      JoinOfSplitParts(s);
    }
    if p :| ValidParts(p) && Join(p) == s {
      SplitOfJoinedParts(p);
    }
  }

  // No sign and no leading zeros.
  predicate CanonicalCount(t: string) {
    AllDigits(t) && t != "" && (|t| == 1 || t[0] != '0')
  }

  predicate Canonical(p: Parts) {
    && (p.epoch.Some? ==> CanonicalCount(p.epoch.value) && p.epoch.value != "0")
    && (forall i :: 0 <= i < |p.release| ==> CanonicalCount(p.release[i]))
    && (p.kind != "" ==> CanonicalCount(p.pre))
    && (p.post.Some? ==> CanonicalCount(p.post.value))
    && (p.dev.Some? ==> CanonicalCount(p.dev.value))
    && (p.local.Some? ==> '-' !in p.local.value && '_' !in p.local.value)
  }

  lemma CanonicalIsDecimal(t: string)
    requires IsCount(t) && CanonicalCount(t)
    ensures Decimal(Atoi(t).value) == t && (t != "0" <==> Atoi(t).value > 0)
  {
    DigitsOfValueIff(t);
    ValueOfDigits(Value(t));
    assert t[0] !in "+-";
    assert Digits(0) == "0";
  }

  lemma CanonicalTexts(p: Parts)
    requires ValidParts(p) && Canonical(p)
    ensures Texts(VersionOf(p)) == p
  {
    hide IsCount, Atoi, Decimal, CanonicalCount, LocalText;
    forall t | IsCount(t) && CanonicalCount(t)
      ensures Decimal(Counter(Some(t), 0)) == t && (t != "0" <==> Counter(Some(t), 0) > 0) && Counter(Some(t), 0) >= 0
    {
      CanonicalIsDecimal(t);
      CountIs(t);
    }
    forall t, d | IsCount(t) ensures Counter(Some(t), 0) == Counter(Some(t), d) {
    }
    var q := Texts(VersionOf(p));
    assert q.release == p.release;
    if p.local.Some? {
      LocalNotEmpty(p.local.value);
      assert Normalised(p.local.value) == p.local.value;
    }
  }

  lemma LocalNotEmpty(t: string)
    requires LocalText(t)
    ensures t != ""
  {
  }

  // A string that Parse accepts comes back byte for byte exactly when it is
  // canonical: no sign and no leading zero in any number, no `0!` epoch, and no
  // `-` or `_` in the local label.
  lemma UnchangedIff(s: string)
    requires Parsed(s).Some?
    ensures String(Parsed(s).value) == s <==> Canonical(Split(s).value)
  {
    hide *;
    ParsedIs(s);
    JoinOfSplitParts(s);
    ParsedIsWellFormed(s);
    var p, v := Split(s).value, Parsed(s).value;
    StringIsJoin(v);
    TextsAreValid(v);
    if Canonical(p) {
      CanonicalTexts(p);
    }
    if String(v) == s {
      SplitOfJoinedParts(Texts(v));
    }
  }

  // A leading zero is accepted and dropped.
  lemma LeadingZeroExample()
    ensures Parsed("01") == Some(Version(0, [1], "", 0, -1, -1, "")) && String(Parsed("01").value) != "01"
  {
    hide *;
    var p := Parts(None, ["01"], "", "", None, None, None);
    ZeroOne(p);
    SplitOfJoinedParts(p);
    ParsedIs("01");
    UnchangedIff("01");
  }

  lemma ZeroOne(p: Parts)
    requires p == Parts(None, ["01"], "", "", None, None, None)
    ensures ValidParts(p) && Join(p) == "01" && !Canonical(p)
    ensures VersionOf(p) == Version(0, [1], "", 0, -1, -1, "")
  {
    hide IsCount;
    assert "01"[..1] == "0" && "0"[..0] == "";
    assert Value("01") == 1 && Atoi("01") == Some(1);
    CountIs("01");
    CountIs("");
    assert JoinWith(p.release, '.') == "01";
    assert !CanonicalCount(p.release[0]);
    assert Numbers(p.release) == [1];
  }

  // A character whose lowest byte is the code of a letter passes in a label.
  lemma WideCharacterExample()
    ensures IsLocalChar(0x141 as char) && !IsAlnum(0x141 as char)
  {
  }
}
