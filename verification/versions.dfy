/** Version numbers, compared as the release machinery does (web/fmt.js). */
module Versions {
  import opened Wrappers
  import opened Text

  datatype Version = Version(nums: seq<nat>, suffix: string)

  predicate IsLineEnd(c: char) { c == '\n' || c == '\r' || c == 0x2028 as char || c == 0x2029 as char }

  function WithoutV(s: string): string { if s != [] && s[0] == 'v' then s[1..] else s }

  /** The numbers between dots at the front, and what follows them. */
  function Numbers(s: string): Version
    requires s != [] && IsDigit(s[0])
    decreases |s|
  {
    var n := DigitRun(s);
    var rest := s[n..];
    if |rest| >= 2 && rest[0] == '.' && IsDigit(rest[1]) then
      var more := Numbers(rest[1..]);
      Version([Worth(s[..n])] + more.nums, more.suffix)
    else Version([Worth(s[..n])], rest)
  }

  function Parse(v: string): Option<Version> {
    var s := WithoutV(Trim(v));
    if s == [] || !IsDigit(s[0]) || exists c :: c in s && IsLineEnd(c) then None else Some(Numbers(s))
  }

  /** A missing part counts as zero. */
  function Part(nums: seq<nat>, i: nat): nat { if i < |nums| then nums[i] else 0 }

  /** The first part that differs, from `i` on, decides. */
  function CompareFrom(a: seq<nat>, b: seq<nat>, i: nat): int
    decreases Most(|a|, |b|) - i
  {
    if i >= Most(|a|, |b|) then 0
    else if Part(a, i) != Part(b, i) then if Part(a, i) > Part(b, i) then 1 else -1
    else CompareFrom(a, b, i + 1)
  }

  function CompareSuffixes(a: string, b: string): int {
    if a == b then 0
    else if a == [] then 1
    else if b == [] then -1
    else if CompareText(a, b) < 0 then -1
    else 1
  }

  function Compare(x: Version, y: Version): int {
    var d := CompareFrom(x.nums, y.nums, 0);
    if d != 0 then d else CompareSuffixes(x.suffix, y.suffix)
  }

  function CompareStrings(a: string, b: string): int {
    var x, y := Parse(a), Parse(b);
    if x.None? || y.None? then 0 else Compare(x.value, y.value)
  }

  method CompareVersions(a: string, b: string) returns (d: int)
    ensures d == CompareStrings(a, b)
  {
    var x, y := Parse(a), Parse(b);
    if x.None? || y.None? { return 0; }
    var p, q := x.value.nums, y.value.nums;
    var len := Most(|p|, |q|);
    for i := 0 to len
      invariant CompareFrom(p, q, 0) == CompareFrom(p, q, i)
    {
      if Part(p, i) != Part(q, i) { return if Part(p, i) > Part(q, i) then 1 else -1; }
    }
    return CompareSuffixes(x.value.suffix, y.value.suffix);
  }

  /** An agent that has reported no version, or with nothing to compare it with, is not behind. */
  predicate AgentIsBehind(running: Option<string>, latest: Option<string>) {
    && running.Some? && latest.Some? && running.value != [] && latest.value != []
    && CompareStrings(running.value, latest.value) < 0
  }

  // ---------------------------------------------------------------------------------------------
  // An order
  // ---------------------------------------------------------------------------------------------

  ghost predicate SamePadded(a: seq<nat>, b: seq<nat>, i: nat) { forall k: nat :: i <= k ==> Part(a, k) == Part(b, k) }

  lemma {:induction false} NumbersOrder(a: seq<nat>, b: seq<nat>, i: nat)
    ensures CompareFrom(a, b, i) == -CompareFrom(b, a, i)
    ensures CompareFrom(a, b, i) in {-1, 0, 1}
    ensures CompareFrom(a, b, i) == 0 <==> SamePadded(a, b, i)
    decreases Most(|a|, |b|) - i
  {
    if i < Most(|a|, |b|) {
      NumbersOrder(a, b, i + 1);
      assert SamePadded(a, b, i) <==> Part(a, i) == Part(b, i) && SamePadded(a, b, i + 1);
    }
  }

  lemma {:induction false} NumbersTransitive(a: seq<nat>, b: seq<nat>, c: seq<nat>, i: nat)
    requires CompareFrom(a, b, i) <= 0 && CompareFrom(b, c, i) <= 0
    ensures CompareFrom(a, c, i) <= 0
    ensures CompareFrom(a, c, i) == 0 ==> CompareFrom(a, b, i) == 0 && CompareFrom(b, c, i) == 0
    decreases Most(Most(|a|, |b|), |c|) - i
  {
    if i < Most(Most(|a|, |b|), |c|) && Part(a, i) == Part(b, i) == Part(c, i) {
      NumbersTransitive(a, b, c, i + 1);
    }
  }

  lemma SuffixesOrder(a: string, b: string)
    ensures CompareSuffixes(a, b) == -CompareSuffixes(b, a)
    ensures CompareSuffixes(a, b) == 0 <==> a == b
  {
    CompareSame(a, b);
    CompareSame(b, a);
  }

  lemma SuffixesTransitive(a: string, b: string, c: string)
    requires CompareSuffixes(a, b) <= 0 && CompareSuffixes(b, c) <= 0
    ensures CompareSuffixes(a, c) <= 0
  {
    if a != [] && b != [] && c != [] {
      CompareSame(a, b);
      CompareSame(b, c);
      CompareSame(a, c);
      CompareTransitive(a, b, c);
    }
  }

  /** Swapping the two turns the answer round, and 0 means the same version, however many parts either has. */
  lemma CompareIsOrder(a: string, b: string)
    ensures CompareStrings(a, b) == -CompareStrings(b, a)
    ensures Parse(a).Some? && Parse(b).Some? ==>
      (CompareStrings(a, b) == 0 <==>
        SamePadded(Parse(a).value.nums, Parse(b).value.nums, 0) && Parse(a).value.suffix == Parse(b).value.suffix)
    ensures Parse(a).None? || Parse(b).None? ==> CompareStrings(a, b) == 0
  {
    if Parse(a).Some? && Parse(b).Some? {
      NumbersOrder(Parse(a).value.nums, Parse(b).value.nums, 0);
      SuffixesOrder(Parse(a).value.suffix, Parse(b).value.suffix);
    }
  }

  /** Through a version it is transitive, and among versions also in its strict form. */
  lemma CompareIsTransitive(a: string, b: string, c: string)
    requires Parse(b).Some?
    requires CompareStrings(a, b) <= 0 && CompareStrings(b, c) <= 0
    ensures CompareStrings(a, c) <= 0
    ensures Parse(a).Some? && Parse(c).Some? && CompareStrings(a, c) == 0 ==>
      CompareStrings(a, b) == 0 && CompareStrings(b, c) == 0
  {
    if Parse(a).Some? && Parse(c).Some? {
      var x, y, z := Parse(a).value, Parse(b).value, Parse(c).value;
      NumbersTransitive(x.nums, y.nums, z.nums, 0);
      if CompareFrom(x.nums, z.nums, 0) == 0 {
        SuffixesTransitive(x.suffix, y.suffix, z.suffix);
        if x.suffix == z.suffix {
          SuffixesOrder(x.suffix, y.suffix);
          SuffixesOrder(y.suffix, z.suffix);
        }
      }
    }
  }

  /** Two strings in order by way of `u` are in order themselves. */
  ghost predicate OrderGoesThrough(u: string) {
    forall a, c :: CompareStrings(a, u) <= 0 && CompareStrings(u, c) <= 0 ==> CompareStrings(a, c) <= 0
  }

  /**
   * The order goes through a string exactly when it is a version: anything else is equal to both 1 and 0,
   * and so stands between them the wrong way round.
   */
  lemma OrderGoesThroughVersions(u: string)
    ensures OrderGoesThrough(u) <==> Parse(u).Some?
  {
    if Parse(u).Some? {
      forall a, c | CompareStrings(a, u) <= 0 && CompareStrings(u, c) <= 0 ensures CompareStrings(a, c) <= 0 {
        CompareIsTransitive(a, u, c);
      }
    } else {
      var one, nought := OneAfterNought();
      assert CompareStrings(one, u) == 0 && CompareStrings(u, nought) == 0;
    }
  }

  lemma OneAfterNought() returns (one: string, nought: string)
    ensures CompareStrings(one, nought) == 1
  {
    var v, w := Version([1], ""), Version([0], "");
    VersionReadsBack(v);
    VersionReadsBack(w);
    one, nought := Written(v), Written(w);
  }

  /** Being behind is a strict order on everything an agent may report, version or not. */
  lemma BehindIsStrict(a: Option<string>, b: Option<string>, c: Option<string>)
    ensures !AgentIsBehind(a, a)
    ensures AgentIsBehind(a, b) ==> !AgentIsBehind(b, a)
    ensures AgentIsBehind(a, b) && AgentIsBehind(b, c) ==> AgentIsBehind(a, c)
  {
    if a.Some? { CompareIsOrder(a.value, a.value); }
    if AgentIsBehind(a, b) {
      CompareIsOrder(a.value, b.value);
      if AgentIsBehind(b, c) {
        CompareIsTransitive(a.value, b.value, c.value);
      }
    }
  }

  /** A release is newer than anything with its numbers and a suffix. */
  lemma ReleaseAfterItsCandidates(nums: seq<nat>, suffix: string)
    requires suffix != []
    ensures Compare(Version(nums, suffix), Version(nums, "")) == -1
  {
    NumbersOrder(nums, nums, 0);
  }

  // ---------------------------------------------------------------------------------------------
  // Which of two is the older
  // ---------------------------------------------------------------------------------------------

  /** Up to part `i` the two have the same numbers, and there the first has the smaller. */
  ghost predicate OlderAt(a: seq<nat>, b: seq<nat>, i: nat) {
    (forall k: nat :: k < i ==> Part(a, k) == Part(b, k)) && Part(a, i) < Part(b, i)
  }

  ghost predicate OlderNumbers(a: seq<nat>, b: seq<nat>) { exists i: nat :: OlderAt(a, b, i) }

  /** A suffix comes before none at all, and suffixes go by their text. */
  ghost predicate OlderSuffix(a: string, b: string) { a != [] && (b == [] || ComesBefore(a, b)) }

  ghost predicate Older(x: Version, y: Version) {
    OlderNumbers(x.nums, y.nums) || (SamePadded(x.nums, y.nums, 0) && OlderSuffix(x.suffix, y.suffix))
  }

  lemma {:induction false} NumbersTell(a: seq<nat>, b: seq<nat>, i: nat)
    requires forall k: nat :: k < i ==> Part(a, k) == Part(b, k)
    ensures CompareFrom(a, b, i) == -1 <==> OlderNumbers(a, b)
    decreases Most(|a|, |b|) - i
  {
    if i >= Most(|a|, |b|) || Part(a, i) > Part(b, i) {
      forall j: nat ensures !OlderAt(a, b, j) { }
    } else if Part(a, i) == Part(b, i) {
      NumbersTell(a, b, i + 1);
    } else {
      assert OlderAt(a, b, i);
    }
  }

  lemma SuffixesTell(a: string, b: string)
    ensures CompareSuffixes(a, b) == -1 <==> OlderSuffix(a, b)
  {
    ComparesAsText(a, b);
    CompareSame(a, b);
    assert a == b ==> CompareText(a, b) == 0;
  }

  /**
   * The first part in which two versions differ decides, the smaller number being the older; where there is
   * none the suffix does. The answer is -1 for an older one, 1 for a newer one.
   */
  lemma CompareTellsOlder(a: string, b: string)
    requires Parse(a).Some? && Parse(b).Some?
    ensures CompareStrings(a, b) == -1 <==> Older(Parse(a).value, Parse(b).value)
    ensures CompareStrings(a, b) == 1 <==> Older(Parse(b).value, Parse(a).value)
    ensures CompareStrings(a, b) in {-1, 0, 1}
  {
    OlderIs(Parse(a).value, Parse(b).value);
    OlderIs(Parse(b).value, Parse(a).value);
    CompareIsOrder(a, b);
  }

  lemma OlderIs(x: Version, y: Version)
    ensures Compare(x, y) == -1 <==> Older(x, y)
    ensures Compare(x, y) in {-1, 0, 1}
  {
    NumbersOrder(x.nums, y.nums, 0);
    NumbersTell(x.nums, y.nums, 0);
    SuffixesTell(x.suffix, y.suffix);
  }

  /** An agent is behind exactly when both are versions and its own is the older. */
  lemma BehindIsOlder(running: string, latest: string)
    ensures AgentIsBehind(Some(running), Some(latest)) <==>
      Parse(running).Some? && Parse(latest).Some? && Older(Parse(running).value, Parse(latest).value)
  {
    if Parse(running).Some? && Parse(latest).Some? { CompareTellsOlder(running, latest); }
  }

  /** A version is one line that begins with a digit, or with a v and a digit; white space round it does not count. */
  lemma WhatIsAVersion(s: string)
    requires Trim(s) == s
    ensures Parse(s).Some? <==>
      (forall c :: c in s ==> !IsLineEnd(c)) &&
        ((|s| >= 1 && IsDigit(s[0])) || (|s| >= 2 && s[0] == 'v' && IsDigit(s[1])))
    ensures forall v :: Trim(v) == s ==> Parse(v) == Parse(s)
  {
    var t := WithoutV(s);
    if s != t { assert s == [s[0]] + t; }
  }

  /** A missing part is a zero: however many are written out, it is the same version. */
  lemma ZerosDoNotCount(nums: seq<nat>, suffix: string, other: Version)
    ensures Compare(Version(nums + [0], suffix), other) == Compare(Version(nums, suffix), other)
    ensures Compare(Version(nums, suffix), Version(nums + [0], suffix)) == 0
  {
    SameParts(nums, other.nums, 0);
    SameParts(nums, nums + [0], 0);
    NumbersOrder(nums + [0], nums + [0], 0);
  }

  lemma {:induction false} SameParts(nums: seq<nat>, other: seq<nat>, i: nat)
    ensures CompareFrom(nums + [0], other, i) == CompareFrom(nums, other, i)
    decreases |nums| + 1 + |other| - i
  {
    assert forall k: nat :: Part(nums + [0], k) == Part(nums, k);
    if i <= |nums| + |other| { SameParts(nums, other, i + 1); }
  }

  // ---------------------------------------------------------------------------------------------
  // Reading a version back
  // ---------------------------------------------------------------------------------------------

  /** A version as it is written: the numbers with dots between them, then the suffix. */
  function Written(v: Version): string
    requires v.nums != []
    decreases |v.nums|
  {
    Digits(v.nums[0]) + if |v.nums| == 1 then v.suffix else "." + Written(Version(v.nums[1..], v.suffix))
  }

  /** A suffix that cannot be taken for part of the numbers, and that trimming and matching leave alone. */
  predicate Apart(suffix: string) {
    && (suffix != [] ==> !IsDigit(suffix[0]) && !IsSpace(suffix[|suffix| - 1]))
    && (|suffix| >= 2 && suffix[0] == '.' ==> !IsDigit(suffix[1]))
    && forall c :: c in suffix ==> !IsLineEnd(c)
  }

  lemma {:induction false} WrittenEnds(v: Version)
    requires v.nums != [] && Apart(v.suffix)
    ensures Written(v) != [] && !IsSpace(Written(v)[|Written(v)| - 1])
    decreases |v.nums|
  {
    var d := Digits(v.nums[0]);
    if |v.nums| == 1 {
      assert d[|d| - 1] in d;
    } else {
      WrittenEnds(Version(v.nums[1..], v.suffix));
    }
  }

  lemma {:induction false} WrittenOnOneLine(v: Version)
    requires v.nums != [] && Apart(v.suffix)
    ensures forall c :: c in Written(v) ==> !IsLineEnd(c)
    decreases |v.nums|
  {
    var d := Digits(v.nums[0]);
    assert forall c :: c in d ==> IsDigit(c);
    if |v.nums| > 1 { WrittenOnOneLine(Version(v.nums[1..], v.suffix)); }
  }

  lemma NumbersOf(d: string, t: string)
    requires d != [] && (forall c :: c in d ==> IsDigit(c)) && (t != [] ==> !IsDigit(t[0]))
    ensures IsDigit((d + t)[0])
    ensures Numbers(d + t) ==
      if |t| >= 2 && t[0] == '.' && IsDigit(t[1])
      then Version([Worth(d)] + Numbers(t[1..]).nums, Numbers(t[1..]).suffix)
      else Version([Worth(d)], t)
  {
    assert (d + t)[0] == d[0] && d[0] in d;
    DigitRunOf(d, t);
  }

  lemma NumberThen(n: nat, t: string)
    requires t != [] ==> !IsDigit(t[0])
    ensures Digits(n) + t != [] && IsDigit((Digits(n) + t)[0])
    ensures Numbers(Digits(n) + t) ==
      if |t| >= 2 && t[0] == '.' && IsDigit(t[1]) then Version([n] + Numbers(t[1..]).nums, Numbers(t[1..]).suffix)
      else Version([n], t)
  {
    DigitsWorth(n);
    NumbersOf(Digits(n), t);
  }

  ghost predicate ReadsBack(v: Version)
    requires v.nums != []
  {
    Written(v) != [] && IsDigit(Written(v)[0]) && Numbers(Written(v)) == v
  }

  lemma LastNumber(v: Version)
    requires |v.nums| == 1 && Apart(v.suffix)
    ensures ReadsBack(v)
  {
    NumberThen(v.nums[0], v.suffix);
    assert v.nums == [v.nums[0]];
  }

  lemma MoreNumbers(v: Version, w: string)
    requires |v.nums| > 1 && w == Written(Version(v.nums[1..], v.suffix)) && ReadsBack(Version(v.nums[1..], v.suffix))
    ensures ReadsBack(v)
  {
    var t := "." + w;
    assert t[1..] == w && t[1] == w[0];
    NumberThen(v.nums[0], t);
    assert v.nums == [v.nums[0]] + v.nums[1..];
  }

  lemma {:induction false} NumbersReadBack(v: Version)
    requires v.nums != [] && Apart(v.suffix)
    ensures ReadsBack(v)
    decreases |v.nums|
  {
    if |v.nums| == 1 {
      LastNumber(v);
    } else {
      var rest := Version(v.nums[1..], v.suffix);
      NumbersReadBack(rest);
      MoreNumbers(v, Written(rest));
    }
  }

  lemma ParseIs(s: string, t: string, v: Version)
    requires Trim(t) == t && WithoutV(t) == s
    requires s != [] && IsDigit(s[0]) && Numbers(s) == v && forall c :: c in s ==> !IsLineEnd(c)
    ensures Parse(t) == Some(v)
  {
  }

  lemma TrimsToItself(s: string)
    requires s != [] && IsDigit(s[0]) && !IsSpace(s[|s| - 1])
    ensures Trim(s) == s && Trim(['v'] + s) == ['v'] + s && WithoutV(s) == s && WithoutV(['v'] + s) == s
  {
    TrimNothing(s);
    var t := ['v'] + s;
    assert t[|t| - 1] == s[|s| - 1] && t[0] == 'v' && t[1..] == s;
    TrimNothing(t);
  }

  /** What is written is read back, with or without the v in front. */
  lemma VersionReadsBack(v: Version)
    requires v.nums != [] && Apart(v.suffix)
    ensures Parse(Written(v)) == Some(v) && Parse(['v'] + Written(v)) == Some(v)
  {
    NumbersReadBack(v);
    WrittenEnds(v);
    WrittenOnOneLine(v);
    TrimsToItself(Written(v));
    ParseIs(Written(v), Written(v), v);
    ParseIs(Written(v), ['v'] + Written(v), v);
  }
}
