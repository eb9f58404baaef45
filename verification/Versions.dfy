// PEP 440 versions of semver/version.go: parsing and printing.
module Versions {
  import opened Options
  import opened Numerals
  import opened Scanning
  import opened Sequences

  // -1 stands for an absent post or dev counter, "" for an absent pre-release
  // kind or local label.
  datatype Version = Version(
    epoch: int, release: seq<int>, preKind: string, preNum: int, post: int, dev: int, local: string)

  // ---- The text between the separators ----

  datatype Parts = Parts(
    epoch: Option<string>, release: seq<string>, kind: string, pre: string,
    post: Option<string>, dev: Option<string>, local: Option<string>)

  function Tagged(tag: string, t: Option<string>): string {
    match t case None => "" case Some(x) => tag + x
  }

  function Join(p: Parts): string {
    JoinEpoch(p) + Tagged("+", p.local)
  }

  function JoinEpoch(p: Parts): string {
    (match p.epoch case None => "" case Some(e) => e + "!") + JoinDev(p)
  }

  function JoinDev(p: Parts): string {
    JoinPost(p) + Tagged(".dev", p.dev)
  }

  function JoinPost(p: Parts): string {
    JoinPre(p) + Tagged(".post", p.post)
  }

  function JoinPre(p: Parts): string {
    JoinWith(p.release, '.') + p.kind + p.pre
  }

  // What Atoi takes for a number that is not negative. Nothing after the first
  // '+' reaches Atoi.
  predicate IsCount(t: string) {
    Atoi(t).Some? && Atoi(t).value >= 0
  }

  predicate CountText(t: string) {
    IsCount(t) && '+' !in t
  }

  // ReplaceAll of the separators of local labels.
  function Normalised(t: string): (r: string)
    ensures |r| == |t|
    ensures forall i | 0 <= i < |t| :: r[i] == if t[i] in "-_" then '.' else t[i]
  {
    if t == "" then "" else [if t[0] in "-_" then '.' else t[0]] + Normalised(t[1..])
  }

  predicate IsAlnum(c: char) {
    IsDigit(c) || 'a' <= c <= 'z' || 'A' <= c <= 'Z'
  }

  // The source cuts a character down to its lowest byte here.
  predicate IsLocalChar(c: char) {
    IsAlnum((c as int % 256) as char) || c == '.'
  }

  predicate IsLocalLabel(t: string) {
    forall c <- t :: IsLocalChar(c)
  }

  predicate LocalText(t: string) {
    t != "" && IsLocalLabel(Normalised(t))
  }

  predicate ValidParts(p: Parts) {
    && (p.epoch.Some? ==> CountText(p.epoch.value))
    && p.release != [] && (forall i :: 0 <= i < |p.release| ==> CountText(p.release[i]))
    && (if p.kind == "" then p.pre == "" else p.kind in ["rc", "a", "b"] && CountText(p.pre))
    && (p.post.Some? ==> CountText(p.post.value))
    && (p.dev.Some? ==> CountText(p.dev.value))
    && (p.local.Some? ==> LocalText(p.local.value))
  }

  // ---- Cutting a string into its parts, in the order of Parse ----

  type Cut = (string, Option<string>)

  function CutLocal(s: string): Cut {
    var i := IndexOf(s, '+');
    if i == |s| then (s, None) else (s[..i], Some(s[i + 1..]))
  }

  function CutEpoch(s: string): Cut {
    var i := IndexOf(s, '!');
    if i == |s| then (s, None) else (s[i + 1..], Some(s[..i]))
  }

  function CutAfter(s: string, tag: string): Cut {
    var i := LastIndexOf(s, tag);
    if i < 0 then (s, None) else (s[..i], Some(s[i + |tag|..]))
  }

  // splitPre for one kind.
  function CutKind(s: string, kind: string): Cut {
    var i := LastIndexOf(s, kind);
    if i > 0 && IsDigit(s[i - 1]) && IsCount(s[i + |kind|..]) then (s[..i], Some(s[i + |kind|..])) else (s, None)
  }

  // splitPre: what is left, the kind and the counter.
  function CutPre(s: string): (string, string, string) {
    var rc := CutKind(s, "rc");
    var a := CutKind(s, "a");
    var b := CutKind(s, "b");
    if rc.1.Some? then (rc.0, "rc", rc.1.value)
    else if a.1.Some? then (a.0, "a", a.1.value)
    else if b.1.Some? then (b.0, "b", b.1.value)
    else (s, "", "")
  }

  // unicode.IsSpace.
  predicate IsSpace(c: char) {
    var n := c as int;
    9 <= n <= 13 || n in {0x20, 0x85, 0xA0, 0x1680, 0x2028, 0x2029, 0x202F, 0x205F, 0x3000} || 0x2000 <= n <= 0x200A
  }

  predicate BadEnds(s: string) {
    s == "" || s[0] in "vV" || IsSpace(s[0]) || IsSpace(s[|s| - 1])
  }

  function Split(s: string): Option<Parts> {
    if BadEnds(s) then None else
    var local := CutLocal(s);
    if local.1.Some? && !LocalText(local.1.value) then None else
    var epoch := CutEpoch(local.0);
    if epoch.1.Some? && !IsCount(epoch.1.value) then None else
    var dev := CutAfter(epoch.0, ".dev");
    if dev.1.Some? && !IsCount(dev.1.value) then None else
    var post := CutAfter(dev.0, ".post");
    if post.1.Some? && !IsCount(post.1.value) then None else
    var pre := CutPre(post.0);
    var release := SplitOn(pre.0, '.');
    if !(forall t <- release :: IsCount(t)) then None
    else Some(Parts(epoch.1, release, pre.1, pre.2, post.1, dev.1, local.1))
  }

  // ---- Numbers ----

  function Counter(t: Option<string>, absent: int): int {
    if t.Some? && IsCount(t.value) then Atoi(t.value).value else absent
  }

  function Numbers(ts: seq<string>): (ns: seq<int>)
    ensures |ns| == |ts| && forall i :: 0 <= i < |ts| ==> ns[i] == Counter(Some(ts[i]), 0)
  {
    if ts == [] then [] else [Counter(Some(ts[0]), 0)] + Numbers(ts[1..])
  }

  function VersionOf(p: Parts): Version {
    Version(Counter(p.epoch, 0), Numbers(p.release), p.kind, Counter(Some(p.pre), 0), Counter(p.post, -1),
            Counter(p.dev, -1), if p.local.Some? then Normalised(p.local.value) else "")
  }

  function Parsed(s: string): Option<Version> {
    match Split(s) case None => None case Some(p) => Some(VersionOf(p))
  }

  function Decimals(ns: seq<int>): (ts: seq<string>)
    ensures |ts| == |ns| && forall i :: 0 <= i < |ns| ==> ts[i] == Decimal(ns[i])
  {
    if ns == [] then [] else [Decimal(ns[0])] + Decimals(ns[1..])
  }

  function Texts(v: Version): Parts {
    Parts(if v.epoch > 0 then Some(Decimal(v.epoch)) else None, Decimals(v.release), v.preKind,
          if v.preKind == "" then "" else Decimal(v.preNum), if v.post >= 0 then Some(Decimal(v.post)) else None,
          if v.dev >= 0 then Some(Decimal(v.dev)) else None, if v.local == "" then None else Some(v.local))
  }

  function String(v: Version): string {
    Join(Texts(v))
  }

  predicate IsMachineCount(n: int) {
    0 <= n <= MAX_INT
  }

  // The versions that Parse can return.
  predicate WellFormed(v: Version) {
    && IsMachineCount(v.epoch)
    && v.release != [] && (forall i :: 0 <= i < |v.release| ==> IsMachineCount(v.release[i]))
    && v.preKind in ["", "rc", "a", "b"] && IsMachineCount(v.preNum) && (v.preKind == "" ==> v.preNum == 0)
    && (v.post == -1 || IsMachineCount(v.post)) && (v.dev == -1 || IsMachineCount(v.dev))
    && IsLocalLabel(v.local)
  }

  // ---- Parse and String, as they run ----

  method Parse(s: string) returns (r: Option<Version>)
    ensures r == Parsed(s)
  {
    hide BadEnds, LocalText, IsCount, Normalised, CutLocal, CutEpoch, CutAfter, CutPre, SplitOn, Atoi;
    if BadEnds(s) {
      return None;
    }
    var v := Version(0, [], "", 0, -1, -1, "");
    var (rest, local) := CutLocal(s);
    if local.Some? {
      if !LocalText(local.value) {
        return None;
      }
      v := v.(local := Normalised(local.value));
    }
    var (afterEpoch, epoch) := CutEpoch(rest);
    rest := afterEpoch;
    if epoch.Some? {
      if !IsCount(epoch.value) {
        return None;
      }
      v := v.(epoch := Counter(epoch, 0));
    }
    var (beforeDev, dev) := CutAfter(rest, ".dev");
    rest := beforeDev;
    if dev.Some? {
      if !IsCount(dev.value) {
        return None;
      }
      v := v.(dev := Counter(dev, -1));
    }
    var (beforePost, post) := CutAfter(rest, ".post");
    rest := beforePost;
    if post.Some? {
      if !IsCount(post.value) {
        return None;
      }
      v := v.(post := Counter(post, -1));
    }
    PreCounter(rest);
    var (beforePre, kind, num) := CutPre(rest);
    rest := beforePre;
    if kind != "" {
      v := v.(preKind := kind, preNum := Counter(Some(num), 0));
    }
    var release := ParseRelease(SplitOn(rest, '.'));
    if release.None? {
      return None;
    }
    v := v.(release := release.value);
    return Some(v);
  }

  lemma PreCounter(s: string)
    ensures var (_, kind, num) := CutPre(s);
      if kind == "" then num == "" && Counter(Some(num), 0) == 0 else IsCount(num)
  {
  }

  method ParseRelease(parts: seq<string>) returns (r: Option<seq<int>>)
    ensures r == if forall t <- parts :: IsCount(t) then Some(Numbers(parts)) else None
  {
    var release := [];
    for i := 0 to |parts|
      invariant |release| == i && forall j | 0 <= j < i :: IsCount(parts[j]) && release[j] == Counter(Some(parts[j]), 0)
    {
      if !IsCount(parts[i]) {
        return None;
      }
      release := release + [Atoi(parts[i]).value];
    }
    assert release == Numbers(parts);
    return Some(release);
  }

  method Render(v: Version) returns (s: string)
    ensures s == String(v)
  {
    hide *;
    var epoch := if v.epoch > 0 then Decimal(v.epoch) + "!" else "";
    var release := RenderRelease(v.release);
    var pre := if v.preKind != "" then v.preKind + Decimal(v.preNum) else "";
    var post := if v.post >= 0 then ".post" + Decimal(v.post) else "";
    var dev := if v.dev >= 0 then ".dev" + Decimal(v.dev) else "";
    var local := if v.local != "" then "+" + v.local else "";
    s := epoch + release + pre + post + dev + local;
    ghost var p := Texts(v);
    StringIs(v);
    Assoc(epoch, release, pre);
    Assoc(epoch, JoinPre(p), post);
    Assoc(epoch, JoinPost(p), dev);
  }

  lemma StringIs(v: Version)
    ensures var p := Texts(v);
      && JoinPre(p) ==
           JoinWith(Decimals(v.release), '.') + (if v.preKind != "" then v.preKind + Decimal(v.preNum) else "")
      && JoinPost(p) == JoinPre(p) + (if v.post >= 0 then ".post" + Decimal(v.post) else "")
      && JoinDev(p) == JoinPost(p) + (if v.dev >= 0 then ".dev" + Decimal(v.dev) else "")
      && String(v) == (if v.epoch > 0 then Decimal(v.epoch) + "!" else "") + JoinDev(p) +
        (if v.local != "" then "+" + v.local else "")
  {
    hide Decimal, Decimals, JoinWith;
  }

  method RenderRelease(release: seq<int>) returns (s: string)
    ensures s == JoinWith(Decimals(release), '.')
  {
    s := "";
    ghost var ts := Decimals(release);
    for i := 0 to |release|
      invariant s == JoinWith(ts[..i], '.')
    {
      if i > 0 {
        s := s + ".";
      }
      s := s + Decimal(release[i]);
      JoinOneMore(ts, i, '.');
    }
    assert ts[..|ts|] == ts;
  }

  lemma {:induction false} JoinOneMore(ts: seq<string>, i: nat, c: char)
    requires i < |ts|
    ensures JoinWith(ts[..i + 1], c) == if i == 0 then ts[0] else JoinWith(ts[..i], c) + [c] + ts[i]
  {
    if i > 0 {
      FrontOfRest(ts, i);
      FrontOfRest(ts, i - 1);
      JoinOneMore(ts[1..], i - 1, c);
    }
  }
}
