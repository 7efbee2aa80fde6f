/** Which tokens redaction can leave in a text after all (redactSecrets in cmd/gwatch-agent/agentlog.go). */
module ComingBack {
  import opened Wrappers
  import opened Text
  import opened Redaction

  const FILL := "000000"

  /** In `t[..n]` with six more characters after it the pattern takes out only those and the prefix before them. */
  ghost predicate PatternFrom(t: string, n: int) {
    && 4 <= n <= |t| && t[n - 4..n] == PREFIX
    && forall i {:trigger (t[..n] + FILL)[i..]} :: 0 <= i < n - 4 ==> ByShape.MatchLength((t[..n] + FILL)[i..]) == 0
  }

  /** A mark makes the end of `t`: one put for `t`, if `t` does not begin like it too, or one of the pattern's. */
  ghost predicate LeadsToMark(t: string, mark: string, k: int) {
    TailInMark(t, mark, k) && (t[..k] != mark[..k] || PatternFrom(t, |t| - k))
  }

  /** The tokens that can be read in a result all the same, told from the token alone. */
  ghost predicate ComesBack(t: string, mark: string) {
    Clean(t, ByShape) && (!NotInside(t, mark) || exists k :: LeadsToMark(t, mark, k))
  }

  function Twice(s: string, t: string, mark: string): string {
    RewriteWith(RewriteWith(s, ByValue(t), mark), ByShape, mark)
  }

  lemma TwoPasses(s: string, t: string)
    requires |t| >= 8 && Trim(t) == t
    ensures RewriteAll(s, RulesFor([t])) == Twice(s, t, MARK)
  {
    OneMoreToken([], t);
    assert [] + [t] == [t];
    OneMoreRule(s, [], ByValue(t));
    OneMoreRule(s, [ByValue(t)], ByShape);
    assert [] + [ByValue(t)] == [ByValue(t)];
  }

  /* ---------- Texts they come back from ---------- */

  lemma TakesFirst(s: string, t: string, v: string, mark: string)
    requires s == t + v && |v| < |t|
    ensures RewriteWith(s, ByValue(t), mark) == mark + v
  {
    assert s[|t|..] == v;
    CleanStays(v, ByValue(t), mark);
    assert ByValue(t).Lead() + mark + v == mark + v;
  }

  /** One token, with too little after it for another. */
  lemma TakesOnce(s: string, x: string, t: string, v: string, mark: string)
    requires s == x + (t + v) && |v| < |t| && forall p :: 0 <= p < |x| ==> !(t <= s[p..])
    ensures RewriteWith(s, ByValue(t), mark) == x + (mark + v)
  {
    KeepsUntil(s, ByValue(t), mark, |x|);
    assert s[..|x|] == x;
    TakesFirst(s[|x|..], t, v, mark);
  }

  lemma PatternKeeps(s: string, t: string, mark: string, out: string, i: nat)
    requires RewriteWith(s, ByValue(t), mark) == out && Clean(out, ByShape) && i <= |out| && t <= out[i..]
    ensures Contains(Twice(s, t, mark), t)
  {
    CleanStays(out, ByShape, mark);
  }

  lemma CleanAfter(x: string, t: string)
    requires 'g' !in x && Clean(t, ByShape)
    ensures Clean(x + t, ByShape)
  {
    forall i | 0 <= i < |x + t| ensures ByShape.MatchLength((x + t)[i..]) == 0 {
      if i < |x| { NoPrefixNoMatch(x + t, i); } else { DropPast(x, t, i); }
    }
  }

  lemma CleanBefore(t: string, n: nat, mark: string)
    requires Sets(mark) && n < |t| && t[n] == mark[0] && Clean(t, ByShape)
    ensures Clean(t[..n] + mark, ByShape)
  {
    var out := t[..n] + mark;
    forall i | 0 <= i < |out| ensures ByShape.MatchLength(out[i..]) == 0 {
      if i < n {
        var upTo := t[i..n + 1];
        assert t[i..] == upTo + t[n + 1..] && out[i..] == upTo + mark[1..];
        assert upTo[|upTo| - 1] == mark[0];
        SameMatch(upTo, t[n + 1..]);
        SameMatch(upTo, mark[1..]);
      } else {
        assert out[i] == mark[i - n] && mark[i - n] in mark;
        NoPrefixNoMatch(out, i);
      }
    }
  }

  lemma FromWithin(t: string, mark: string)
    requires Sets(mark) && |t| >= 8 && Contains(mark, t)
    ensures Contains(Twice(t, t, mark), t)
  {
    var i :| 0 <= i <= |mark| && t <= mark[i..];
    TakesFirst(t, t, [], mark);
    CleanAfter(mark, []);
    assert mark + [] == mark;
    PatternKeeps(t, t, mark, mark, i);
  }

  lemma FromHead(s: string, t: string, mark: string, k: int)
    requires Sets(mark) && Clean(t, ByShape) && HeadInMark(t, mark, k) && s == t + t[k..]
    ensures Contains(Twice(s, t, mark), t)
  {
    TakesFirst(s, t, t[k..], mark);
    var before := mark[..|mark| - k];
    assert mark == before + t[..k] && t == t[..k] + t[k..];
    assert mark + t[k..] == before + t;
    CleanAfter(before, t);
    PatternKeeps(s, t, mark, before + t, |before|);
  }

  lemma {:induction false} FirstAt(t: string, mark: string, i: nat) returns (q: nat)
    requires i <= |t| && mark <= t[i..]
    ensures q <= i && q + |mark| <= |t| && mark <= t[q..] && forall p :: 0 <= p < q ==> !(mark <= t[p..])
    decreases i
  {
    if p :| 0 <= p < i && mark <= t[p..] { q := FirstAt(t, mark, p); } else { q := i; }
  }

  /** What stands round the mark in `t`, put round `t`. */
  lemma FromAround(t: string, mark: string) returns (s: string)
    requires Sets(mark) && Clean(t, ByShape) && Contains(t, mark)
    ensures Contains(Twice(s, t, mark), t)
  {
    var i :| 0 <= i <= |t| && mark <= t[i..];
    var q := FirstAt(t, mark, i);
    var u, v := RoundMark(t, mark, q);
    s := u + (t + v);
    NoneSooner(s, t, mark, q, v);
    MarkPutBack(s, t, mark, u, v);
  }

  lemma RoundMark(t: string, mark: string, q: nat) returns (u: string, v: string)
    requires q + |mark| <= |t| && mark <= t[q..]
    ensures u == t[..q] && t == u + (mark + v)
  {
    u, v := t[..q], t[q + |mark|..];
    assert t[q..][|mark|..] == v && t == u + t[q..];
  }

  lemma MarkPutBack(s: string, t: string, mark: string, u: string, v: string)
    requires Clean(t, ByShape) && mark != [] && t == u + (mark + v) && s == u + (t + v)
    requires forall p :: 0 <= p < |u| ==> !(t <= s[p..])
    ensures Contains(Twice(s, t, mark), t)
  {
    TakesOnce(s, u, t, v, mark);
    assert t[0..] == t;
    PatternKeeps(s, t, mark, t, 0);
  }

  lemma NoneSooner(s: string, t: string, mark: string, q: nat, v: string)
    requires q + |mark| <= |t| && mark <= t[q..] && s == t[..q] + (t + v)
    requires forall p :: 0 <= p < q ==> !(mark <= t[p..])
    ensures forall p :: 0 <= p < q ==> !(t <= s[p..])
  {
    forall p | 0 <= p < q ensures !(t <= s[p..]) {
      if t <= s[p..] { MarkSooner(s, t, mark, q, v, p); }
    }
  }

  lemma MarkSooner(s: string, t: string, mark: string, q: nat, v: string, p: nat)
    requires p < q && q + |mark| <= |t| && mark <= t[q..]
    requires s == t[..q] + (t + v) && t <= s[p..]
    ensures mark <= t[p..]
  {
    forall x | 0 <= x < |mark| ensures t[p..][x] == mark[x] {
      assert mark[x] == t[q..][x] == t[q + x] == s[p..][q + x] == s[p + q + x] == t[p + x];
    }
  }

  /** A text that `t` comes up in too soon shows `t` to end as it begins. */
  lemma {:induction false} Turns(t: string, n: nat, p: nat, m: nat)
    requires p < n < |t| && t <= (t[..n] + t)[p..] && p + m < |t|
    ensures t[p + m] == t[m]
    decreases m
  {
    var d, all := n - p, t[..n] + t;
    assert t[m] == all[p..][m] == all[p + m];
    if m >= d {
      Turns(t, n, p, m - d);
      assert t[p + m] == all[p..][p + m] == all[p + p + m] == t[p + m - d];
      assert all[p + m] == t[m - d];
    }
  }

  lemma TooSoon(t: string, n: nat, p: nat)
    requires p < n < |t| && t <= (t[..n] + t)[p..]
    ensures t[n..] == t[..|t| - n]
  {
    var all := t[..n] + t;
    forall j | 0 <= j < |t| - n ensures t[n..][j] == t[..|t| - n][j] {
      assert t[n + j] == all[p..][n + j] == all[p + n + j] == t[p + j];
      Turns(t, n, p, j);
    }
  }

  lemma FromTail(s: string, t: string, mark: string, k: int)
    requires Sets(mark) && Clean(t, ByShape) && TailInMark(t, mark, k) && t[..k] != mark[..k] && s == t[..|t| - k] + t
    ensures Contains(Twice(s, t, mark), t)
  {
    var n := |t| - k;
    forall p | 0 <= p < n ensures !(t <= s[p..]) {
      if t <= s[p..] { TooSoon(t, n, p); }
    }
    assert t + [] == t && mark + [] == mark;
    TakesOnce(s, t[..n], t, [], mark);
    MarkMakesEnd(t, mark, k);
    PatternKeeps(s, t, mark, t[..n] + mark, 0);
  }

  lemma MarkMakesEnd(t: string, mark: string, k: int)
    requires Sets(mark) && Clean(t, ByShape) && TailInMark(t, mark, k)
    ensures Clean(t[..|t| - k] + mark, ByShape) && t <= (t[..|t| - k] + mark)[0..]
  {
    var n := |t| - k;
    assert t[n] == t[n..][0] == mark[0];
    CleanBefore(t, n, mark);
    assert t == t[..n] + t[n..] && mark == mark[..k] + mark[k..];
    assert t[..n] + mark == t + mark[k..];
    assert (t[..n] + mark)[0..] == t[..n] + mark;
  }

  lemma FillIs(fill: string)
    requires fill == FILL
    ensures |fill| == 6 && '[' !in fill && forall i :: 0 <= i < 6 ==> InClass(fill[i])
  {
  }

  lemma PatternTakesAll(s: string, lead: string, fill: string, mark: string)
    requires lead == PREFIX && s == lead + fill && |fill| == 6 && forall i :: 0 <= i < 6 ==> InClass(fill[i])
    ensures RewriteWith(s, ByShape, mark) == lead + mark
  {
    assert s[4..] == fill;
    ClassRunAtLeast(fill, 6);
    assert ByShape.MatchLength(s) == 10 && s[10..] == [];
    assert lead + mark + [] == lead + mark;
  }

  lemma FromPattern(s: string, t: string, mark: string, k: int)
    requires Sets(mark) && Clean(t, ByShape) && TailInMark(t, mark, k) && PatternFrom(t, |t| - k) &&
      s == t[..|t| - k] + FILL
    ensures Contains(Twice(s, t, mark), t)
  {
    var n := |t| - k;
    FillIs(FILL);
    assert t[n] == t[n..][0] == mark[0];
    NotInFilled(s, t, n, FILL);
    CleanStays(s, ByValue(t), mark);
    MarkMakesEnd(t, mark, k);
    PatternPass(s, t, n, PREFIX, FILL, mark);
  }

  lemma PatternPass(s: string, t: string, n: nat, lead: string, fill: string, mark: string)
    requires 4 <= n <= |t| && s == t[..n] + fill && lead == PREFIX && t[n - 4..n] == lead
    requires forall i {:trigger s[i..]} :: 0 <= i < n - 4 ==> ByShape.MatchLength(s[i..]) == 0
    requires |fill| == 6 && forall i :: 0 <= i < 6 ==> InClass(fill[i])
    ensures RewriteWith(s, ByShape, mark) == t[..n] + mark
  {
    SplitBefore(s, t, n, lead, fill, mark);
    PatternTakesAll(s[n - 4..], lead, fill, mark);
    KeepsUntil(s, ByShape, mark, n - 4);
  }

  lemma SplitBefore(s: string, t: string, n: nat, lead: string, fill: string, mark: string)
    requires 4 <= n <= |t| && s == t[..n] + fill && t[n - 4..n] == lead
    ensures s[n - 4..] == lead + fill && s[..n - 4] + (lead + mark) == t[..n] + mark
  {
    assert t[..n] == t[..n - 4] + lead;
  }

  lemma InFill(s: string, t: string, n: nat, fill: string, i: nat)
    requires n < |t| && s == t[..n] + fill && i <= |s| && t <= s[i..]
    ensures t[n] in fill
  {
    assert t[n] == s[i..][n] == s[i + n] == fill[i];
  }

  lemma NotInFilled(s: string, t: string, n: nat, fill: string)
    requires n < |t| && s == t[..n] + fill && t[n] !in fill
    ensures Clean(s, ByValue(t))
  {
    forall i | 0 <= i < |s| ensures ByValue(t).MatchLength(s[i..]) == 0 {
      if t <= s[i..] { InFill(s, t, n, fill, i); }
    }
  }

  lemma ComesBackFrom(t: string, mark: string) returns (s: string)
    requires Sets(mark) && |t| >= 8 && ComesBack(t, mark)
    ensures Contains(Twice(s, t, mark), t)
  {
    if Contains(mark, t) {
      FromWithin(t, mark);
      s := t;
    } else if Contains(t, mark) {
      s := FromAround(t, mark);
    } else if k :| HeadInMark(t, mark, k) {
      s := t + t[k..];
      FromHead(s, t, mark, k);
    } else {
      var k :| LeadsToMark(t, mark, k);
      if t[..k] != mark[..k] {
        s := t[..|t| - k] + t;
        FromTail(s, t, mark, k);
      } else {
        s := t[..|t| - k] + FILL;
        FromPattern(s, t, mark, k);
      }
    }
  }

  /* ---------- No others do ---------- */

  /** `t` ends as it begins wherever it ends like the mark. */
  ghost predicate EndsAsItBegins(t: string, mark: string) { forall k :: TailInMark(t, mark, k) ==> t[..k] == mark[..k] }

  lemma OwnMatch(s: string, t: string, mark: string, n: nat)
    requires EndsAsItBegins(t, mark) && 0 < n <= |t| && t[..n] <= s && t[n..] <= mark
    requires n < |t| ==> n <= |s| && t <= s[n..]
    ensures t <= s
  {
    if n < |t| {
      var k := |t| - n;
      assert TailInMark(t, mark, k);
      assert t[n..] == t[..k] && t == t[..n] + t[n..];
    } else {
      assert t[..n] == t;
    }
  }

  lemma OwnPassTakes(s: string, t: string, mark: string)
    requires Sets(mark) && |t| >= 8 && NotInside(t, mark) && EndsAsItBegins(t, mark)
    ensures !Contains(RewriteWith(s, ByValue(t), mark), t)
  {
    var out := RewriteWith(s, ByValue(t), mark);
    forall i | 0 <= i <= |out| ensures !(t <= out[i..]) {
      if t <= out[i..] {
        BeginsLikeMark(t, mark);
        var j, n := ComesFrom(s, ByValue(t), mark, t, i);
        WholeOrMark(s[j..], ByValue(t), mark, t, n);
        OwnMatch(s[j..], t, mark, n);
      }
    }
  }

  lemma BeginsLikeMark(t: string, mark: string)
    requires EndsAsItBegins(t, mark)
    ensures (forall k :: !TailInMark(t, mark, k)) || t[0] == mark[0]
  {
    if k :| TailInMark(t, mark, k) { assert t[0] == t[..k][0] == mark[..k][0]; }
  }

  lemma PatternPut(s: string, t: string, mark: string, n: nat)
    requires n < |t| && ReadsUpTo(s, ByShape, mark, t, n)
    ensures PatternFrom(t, n)
  {
    ShapeAt(s[n - 4..]);
    assert forall x {:trigger s[n - 4..][x]} :: 0 <= x < 10 ==> s[n - 4..][x] == s[n - 4 + x];
    assert forall x :: 0 <= x < n ==> t[x] == t[..n][x] == s[x];
    assert t[n - 4..n] == s[n - 4..][..4];
    FillIs(FILL);
    forall i | 0 <= i < n - 4 ensures ByShape.MatchLength((t[..n] + FILL)[i..]) == 0 {
      if ByShape.MatchLength((t[..n] + FILL)[i..]) > 0 { SameStart(s, t[..n] + FILL, i, n); }
    }
  }

  /** Where both go on in the pattern's characters, a match in one is a match in the other. */
  lemma SameStart(s: string, r: string, i: nat, n: nat)
    requires i < n - 4 && n + 6 <= |s| && n <= |r| && s[..n] == r[..n] && forall x :: n <= x < n + 6 ==> InClass(s[x])
    requires ByShape.MatchLength(r[i..]) > 0
    ensures ByShape.MatchLength(s[i..]) > 0
  {
    ShapeAt(r[i..]);
    assert forall x :: 0 <= x < n ==> s[x] == s[..n][x] == r[..n][x] == r[x];
    assert s[i..][..4] == r[i..][..4];
    forall x | 4 <= x < 10 ensures InClass(s[i..][x]) {
      assert s[i..][x] == s[i + x];
      if i + x < n { assert r[i..][x] == r[i + x]; }
    }
    ShapeMatches(s[i..]);
  }

  lemma CameFrom(was: string, t: string, mark: string, i: nat) returns (n: nat)
    requires MeetsAtEnd(t, ByShape, mark)
    requires i <= |RewriteWith(was, ByShape, mark)| && t <= RewriteWith(was, ByShape, mark)[i..]
    ensures Contains(was, t) || (n < |t| && TailInMark(t, mark, |t| - n) && PatternFrom(t, n))
  {
    var j;
    j, n := ComesFrom(was, ByShape, mark, t, i);
    WholeOrMark(was[j..], ByShape, mark, t, n);
    if n < |t| { PatternPut(was[j..], t, mark, n); }
  }

  lemma CameBack(s: string, t: string, mark: string, i: nat) returns (k: int)
    requires Sets(mark) && |t| >= 8 && NotInside(t, mark)
    requires i <= |Twice(s, t, mark)| && t <= Twice(s, t, mark)[i..]
    ensures LeadsToMark(t, mark, k)
  {
    if EndsAsItBegins(t, mark) {
      BeginsLikeMark(t, mark);
      OwnPassTakes(s, t, mark);
      var n := CameFrom(RewriteWith(s, ByValue(t), mark), t, mark, i);
      k := |t| - n;
    } else {
      k :| TailInMark(t, mark, k) && t[..k] != mark[..k];
    }
  }

  /**
   * A token that is the only one given can be read in some text's redaction exactly when it holds nothing
   * in the shape of a token and a mark can be part of it, one for itself or one of the pattern's.
   */
  lemma LoneTokensThatComeBack(t: string)
    requires |t| >= 8 && Trim(t) == t
    ensures (exists s :: Contains(RewriteAll(s, RulesFor([t])), t)) <==> ComesBack(t, MARK)
  {
    MarkSets(MARK);
    if ComesBack(t, MARK) {
      var s := ComesBackFrom(t, MARK);
      TwoPasses(s, t);
    }
    forall s | Contains(RewriteAll(s, RulesFor([t])), t) ensures ComesBack(t, MARK) {
      TwoPasses(s, t);
      var i :| 0 <= i <= |Twice(s, t, MARK)| && t <= Twice(s, t, MARK)[i..];
      PassCleans(Rewrite(s, ByValue(t)), ByShape, ByShape);
      PartIsClean(Twice(s, t, MARK), t, i);
      if NotInside(t, MARK) { var k := CameBack(s, t, MARK, i); }
    }
  }

  /* ---------- Redacting once more ---------- */

  lemma {:induction false} PassLength(s: string, t: string, mark: string)
    requires t != []
    ensures |t| >= |mark| ==> |RewriteWith(s, ByValue(t), mark)| <= |s|
    ensures |t| <= |mark| ==> |RewriteWith(s, ByValue(t), mark)| >= |s|
    decreases |s|
  {
    if s != [] {
      if t <= s { PassLength(s[|t|..], t, mark); } else { PassLength(s[1..], t, mark); }
    }
  }

  lemma PassStarts(s: string, t: string, mark: string)
    requires t != [] && t <= s
    ensures RewriteWith(s, ByValue(t), mark) == mark + RewriteWith(s[|t|..], ByValue(t), mark)
  {
    var rest := RewriteWith(s[|t|..], ByValue(t), mark);
    assert ByValue(t).Lead() + mark + rest == mark + rest;
  }

  lemma {:induction false} Alike(t: string, r: string, mark: string, q: string)
    requires (|t| >= |mark| ==> |q| <= |r|) && (|t| <= |mark| ==> |q| >= |r|)
    ensures t + r == mark + q ==> t == mark
  {
    if t + r == mark + q {
      assert |t| + |r| == |mark| + |q|;
      assert t == (t + r)[..|t|] && mark == (mark + q)[..|mark|];
    }
  }

  /** A pass changes every text the token is in, unless the token is the mark itself. */
  lemma PassChanges(s: string, t: string, mark: string)
    requires t != [] && t != mark && Contains(s, t)
    ensures RewriteWith(s, ByValue(t), mark) != s
  {
    var i :| 0 <= i <= |s| && t <= s[i..];
    var p := FirstAt(s, t, i);
    KeepsUntil(s, ByValue(t), mark, p);
    StartChanges(s[p..], t, mark);
    SplitAt(s, p, RewriteWith(s[p..], ByValue(t), mark));
  }

  lemma StartChanges(s: string, t: string, mark: string)
    requires t != [] && t != mark && t <= s
    ensures RewriteWith(s, ByValue(t), mark) != s
  {
    PassStarts(s, t, mark);
    PassLength(s[|t|..], t, mark);
    Alike(t, s[|t|..], mark, RewriteWith(s[|t|..], ByValue(t), mark));
    assert s == t + s[|t|..];
  }

  lemma SplitAt(s: string, p: nat, q: string)
    requires p <= |s|
    ensures s[..p] + q == s ==> q == s[p..]
  {
    assert (s[..p] + q)[p..] == q;
  }

  lemma PassSkips(s: string, t: string, mark: string)
    requires s != [] && !(t <= s)
    ensures RewriteWith(s, ByValue(t), mark) == [s[0]] + RewriteWith(s[1..], ByValue(t), mark)
  {
  }

  lemma Rejoin(s: string, n: nat, front: string, rest: string)
    requires n <= |s| && front == s[..n] && rest == s[n..]
    ensures front + rest == s
  {
  }

  lemma {:induction false} MarkForMark(s: string, mark: string)
    requires mark != []
    ensures RewriteWith(s, ByValue(mark), mark) == s
    decreases |s|
  {
    if s != [] && mark <= s {
      PassStarts(s, mark, mark);
      MarkForMark(s[|mark|..], mark);
      Rejoin(s, |mark|, mark, s[|mark|..]);
    } else if s != [] {
      PassSkips(s, mark, mark);
      MarkForMark(s[1..], mark);
      Rejoin(s, 1, [s[0]], s[1..]);
    }
  }

  /** Redacting what was redacted: what the pattern looks for is gone, so only the token can be found. */
  lemma TwiceTwice(s: string, t: string)
    requires |t| >= 8
    ensures var x := Twice(s, t, MARK);
      Twice(x, t, MARK) == x <==> t == MARK || !Contains(x, t)
  {
    var x := Twice(s, t, MARK);
    PassCleans(Rewrite(s, ByValue(t)), ByShape, ByShape);
    PassCleans(x, ByValue(t), ByShape);
    CleanIsKept(Rewrite(x, ByValue(t)), ByShape);
    if t == MARK {
      MarkForMark(x, MARK);
    } else if Contains(x, t) {
      PassChanges(x, t, MARK);
    } else {
      CleanHoldsNone(x, t);
      CleanIsKept(x, ByValue(t));
    }
  }

  /** Redacting this text once more changes nothing. */
  ghost predicate Settled(s: string, tokens: seq<string>) {
    RewriteAll(RewriteAll(s, RulesFor(tokens)), RulesFor(tokens)) == RewriteAll(s, RulesFor(tokens))
  }

  lemma SettledUnlessLeft(s: string, t: string)
    requires |t| >= 8 && Trim(t) == t
    ensures Settled(s, [t]) <==> t == MARK || !Contains(RewriteAll(s, RulesFor([t])), t)
  {
    TwoPasses(s, t);
    TwoPasses(Twice(s, t, MARK), t);
    TwiceTwice(s, t);
  }

  /**
   * For a lone token redacting once more changes nothing, whatever the text was, exactly when the token never
   * comes back or is the mark itself, which is put back as it is taken out.
   */
  lemma RedactedOnceForAll(t: string)
    requires |t| >= 8 && Trim(t) == t
    ensures (forall s :: Settled(s, [t])) <==> !ComesBack(t, MARK) || t == MARK
  {
    LoneTokensThatComeBack(t);
    if ComesBack(t, MARK) && t != MARK {
      var s :| Contains(RewriteAll(s, RulesFor([t])), t);
      SettledUnlessLeft(s, t);
    } else {
      forall s ensures Settled(s, [t]) { SettledUnlessLeft(s, t); }
    }
  }

  /** A token that is never left, or is put back as it is taken out. */
  ghost predicate Settles(t: string) { !Overlaps(t, MARK) || t == MARK || !Clean(t, ByShape) }

  lemma {:induction false} AllKept(s: string, rules: seq<Rule>)
    requires forall r :: r in rules ==> Rewrite(s, r) == s
    ensures RewriteAll(s, rules) == s
  {
    if rules != [] {
      assert rules[|rules| - 1] in rules && forall r :: r in rules[..|rules| - 1] ==> r in rules;
      AllKept(s, rules[..|rules| - 1]);
    }
  }

  lemma TokenKept(out: string, rules: seq<Rule>, u: string)
    requires |u| >= 8 && Settles(u) && Clean(out, ByShape) && (!Overlaps(u, MARK) ==> Clean(out, ByValue(u)))
    ensures Rewrite(out, ByValue(u)) == out
  {
    if u == MARK {
      MarkForMark(out, MARK);
    } else {
      if i :| 0 <= i <= |out| && u <= out[i..] && !Clean(u, ByShape) { PartIsClean(out, u, i); }
      CleanHoldsNone(out, u);
      CleanIsKept(out, ByValue(u));
    }
  }

  /** Any number of such tokens: redacting once more changes nothing. */
  lemma ListsSettle(s: string, tokens: seq<string>)
    requires forall t :: t in tokens && |Trim(t)| >= 8 ==> Settles(Trim(t))
    ensures Settled(s, tokens)
  {
    var rules := RulesFor(tokens);
    var out := RewriteAll(s, rules);
    ByValuesAre(tokens);
    PassesClean(s, rules, ByShape);
    forall r | r in rules ensures Rewrite(out, r) == out {
      if r.ByShape? {
        CleanIsKept(out, r);
      } else {
        if r.Sound() { PassesClean(s, rules, r); }
        TokenKept(out, rules, r.token);
      }
    }
    AllKept(out, rules);
  }

  /* ---------- Among other tokens ---------- */

  /** Given among some tokens, `t` can be read in the redaction of some text. */
  ghost predicate ReadAmong(s: string, tokens: seq<string>, t: string) {
    t in tokens && Contains(RewriteAll(s, RulesFor(tokens)), t)
  }

  const ONES := "11111111"

  function Zeros(n: nat): (z: string)
    ensures |z| == n && forall c :: c in z ==> c == '0'
  {
    if n == 0 then [] else ['0'] + Zeros(n - 1)
  }

  /** A token of more zeros than `t` is long, and eight ones. */
  function Other(t: string): string { Zeros(|t| + 1) + ONES }

  lemma OnesAre(ones: string)
    requires ones == ONES
    ensures |ones| == 8 && forall c :: c in ones ==> c == '1'
  {
  }

  lemma OtherIs(t: string, u: string, zeros: string, ones: string)
    requires u == zeros + ones && |zeros| == |t| + 1 && |ones| == 8
    requires (forall c :: c in zeros ==> c == '0') && (forall c :: c in ones ==> c == '1')
    ensures |u| == |t| + 9 && Trim(u) == u && '[' !in u && Plain(u)
    ensures u[|t| + 1] == '1' && forall x :: 0 <= x <= |t| ==> u[x] == '0'
  {
    forall x | 0 <= x < |u| ensures u[x] == (if x <= |t| then '0' else '1') {
      if x <= |t| { assert zeros[x] in zeros; } else { assert ones[x - |zeros|] in ones; }
    }
    assert ones[0] in ones && ones[7] in ones;
    assert u[|u| - 1] == ones[7];
    Unspaced(u);
  }

  lemma Unspaced(u: string)
    requires u != [] && u[0] == '0' && u[|u| - 1] == '1'
    ensures Trim(u) == u
  {
    TrimNothing(u);
  }

  /** Come upon sooner than where it was put, after less than all of `t`, it would begin with a one. */
  lemma OtherSooner(s: string, t: string, u: string, n: nat, p: nat)
    requires p < n < |t| && |u| == |t| + 9 && s == t[..n] + u && u <= s[p..]
    ensures u[|t| + 1] == u[p + |t| + 1 - n]
  {
    assert u[|t| + 1] == s[p..][|t| + 1] == s[p + |t| + 1] == u[p + |t| + 1 - n];
  }

  function Thrice(s: string, t: string, u: string, mark: string): string {
    RewriteWith(RewriteWith(RewriteWith(s, ByValue(t), mark), ByValue(u), mark), ByShape, mark)
  }

  lemma ThreePasses(s: string, t: string, u: string)
    requires |t| >= 8 && Trim(t) == t && |u| >= 8 && Trim(u) == u
    ensures RewriteAll(s, RulesFor([t, u])) == Thrice(s, t, u, MARK)
  {
    OneMoreToken([], t);
    assert [] + [t] == [t] && [t] + [u] == [t, u];
    OneMoreToken([t], u);
    OneMoreRule(s, [], ByValue(t));
    OneMoreRule(s, [ByValue(t)], ByValue(u));
    OneMoreRule(s, [ByValue(t)] + [ByValue(u)], ByShape);
    assert [] + [ByValue(t)] == [ByValue(t)];
  }

  /** The mark put for another token makes the end of `t`, after what `t` begins with. */
  lemma FromOther(s: string, t: string, u: string, mark: string, k: int)
    requires Sets(mark) && Clean(t, ByShape) && TailInMark(t, mark, k)
    requires s == t[..|t| - k] + u && '[' !in u
    requires |u| == |t| + 9 && u[|t| + 1] == '1' && forall x :: 0 <= x <= |t| ==> u[x] == '0'
    ensures Contains(Thrice(s, t, u, mark), t)
  {
    var n := |t| - k;
    assert t[n] == t[n..][0] == mark[0];
    NotInFilled(s, t, n, u);
    CleanStays(s, ByValue(t), mark);
    forall p | 0 <= p < n ensures !(u <= s[p..]) {
      if u <= s[p..] { OtherSooner(s, t, u, n, p); }
    }
    assert u + [] == u && mark + [] == mark;
    TakesOnce(s, t[..n], u, [], mark);
    MarkMakesEnd(t, mark, k);
    CleanStays(t[..n] + mark, ByShape, mark);
  }

  lemma AmongOthers(t: string, k: int)
    requires |t| >= 8 && Trim(t) == t && Clean(t, ByShape) && TailInMark(t, MARK, k)
    ensures ReadAmong(t[..|t| - k] + Other(t), [t, Other(t)], t)
  {
    var u, s := Other(t), t[..|t| - k] + Other(t);
    OnesAre(ONES);
    OtherIs(t, u, Zeros(|t| + 1), ONES);
    MarkSets(MARK);
    FromOther(s, t, u, MARK, k);
    ThreePasses(s, t, u);
  }

  /**
   * A token given by value can be read in the redaction of some text, given among some tokens, exactly when
   * it holds nothing in the shape of a token and overlaps the mark.
   */
  lemma TokensThatComeBack(t: string)
    requires |t| >= 8 && Trim(t) == t
    ensures (exists s, tokens :: ReadAmong(s, tokens, t)) <==> Clean(t, ByShape) && Overlaps(t, MARK)
  {
    if Clean(t, ByShape) && Overlaps(t, MARK) { var s, tokens := ComesBackAmong(t); }
    forall s, tokens | ReadAmong(s, tokens, t) ensures Clean(t, ByShape) && Overlaps(t, MARK) {
      CameBackAmong(s, tokens, t);
    }
  }

  lemma ComesBackAmong(t: string) returns (s: string, tokens: seq<string>)
    requires |t| >= 8 && Trim(t) == t && Clean(t, ByShape) && Overlaps(t, MARK)
    ensures ReadAmong(s, tokens, t)
  {
    if k :| TailInMark(t, MARK, k) {
      AmongOthers(t, k);
      s, tokens := t[..|t| - k] + Other(t), [t, Other(t)];
    } else {
      MarkSets(MARK);
      s := ComesBackFrom(t, MARK);
      tokens := [t];
      TwoPasses(s, t);
    }
  }

  lemma CameBackAmong(s: string, tokens: seq<string>, t: string)
    requires |t| >= 8 && Trim(t) == t && ReadAmong(s, tokens, t)
    ensures Clean(t, ByShape) && Overlaps(t, MARK)
  {
    var out := RewriteAll(s, RulesFor(tokens));
    var i :| 0 <= i <= |out| && t <= out[i..];
    PassesClean(s, RulesFor(tokens), ByShape);
    PartIsClean(out, t, i);
    if !Overlaps(t, MARK) { RedactedHoldsNoToken(s, tokens, t); }
  }

  /** Left in what was redacted, the token is taken out of that when it is redacted again. */
  lemma LeftUnsettles(s: string, t: string, u: string)
    requires |t| >= 8 && Trim(t) == t && t != MARK && |u| >= 8 && Trim(u) == u && !Overlaps(u, MARK)
    requires ReadAmong(s, [t, u], t)
    ensures !Settled(s, [t, u])
  {
    var x := RewriteAll(s, RulesFor([t, u]));
    ThreePasses(s, t, u);
    ThreePasses(x, t, u);
    var between := Rewrite(Rewrite(s, ByValue(t)), ByValue(u));
    PassCleans(Rewrite(s, ByValue(t)), ByValue(u), ByValue(u));
    PassCleans(between, ByShape, ByValue(u));
    PassCleans(between, ByShape, ByShape);
    PassCleans(x, ByValue(t), ByValue(u));
    PassCleans(x, ByValue(t), ByShape);
    CleanIsKept(Rewrite(x, ByValue(t)), ByValue(u));
    CleanIsKept(Rewrite(x, ByValue(t)), ByShape);
    PassChanges(x, t, MARK);
  }

  /** A list with `t` in it, in which every other token that counts is one that settles. */
  ghost predicate AmongSettling(tokens: seq<string>, t: string) {
    t in tokens && forall u {:trigger u in tokens} :: u in tokens && |Trim(u)| >= 8 && Trim(u) != t ==> Settles(Trim(u))
  }

  /**
   * With `t` among any tokens that settle, redacting once more changes nothing, whatever the text was, exactly
   * when `t` settles too.
   */
  lemma TokensThatSettle(t: string)
    requires |t| >= 8 && Trim(t) == t
    ensures (forall s, tokens :: AmongSettling(tokens, t) ==> Settled(s, tokens)) <==> Settles(t)
  {
    if Settles(t) {
      forall s, tokens | AmongSettling(tokens, t) ensures Settled(s, tokens) { ListsSettle(s, tokens); }
    } else {
      var s, tokens := Unsettled(t);
    }
  }

  lemma Unsettled(t: string) returns (s: string, tokens: seq<string>)
    requires |t| >= 8 && Trim(t) == t && !Settles(t)
    ensures AmongSettling(tokens, t) && !Settled(s, tokens)
  {
    if k :| TailInMark(t, MARK, k) {
      AmongOthers(t, k);
      s, tokens := t[..|t| - k] + Other(t), [t, Other(t)];
      OnesAre(ONES);
      OtherIs(t, Other(t), Zeros(|t| + 1), ONES);
      MarkSets(MARK);
      PlainIsApart(Other(t), MARK);
      LeftUnsettles(s, t, Other(t));
    } else {
      MarkSets(MARK);
      s := ComesBackFrom(t, MARK);
      tokens := [t];
      TwoPasses(s, t);
      SettledUnlessLeft(s, t);
    }
  }

  /** A token that begins and ends like the mark is taken out of every text when it is alone, but not among others. */
  lemma BracketAtBothEnds(t: string)
    requires t == "[aaa[aaa["
    ensures forall s :: !Contains(RewriteAll(s, RulesFor([t])), t)
    ensures exists s, tokens :: ReadAmong(s, tokens, t)
  {
    MarkSets(MARK);
    OnlyBracketShared(t, MARK);
    NoG(t);
    TrimNothing(t);
    LoneTokensThatComeBack(t);
    TokensThatComeBack(t);
  }

  lemma NoG(t: string)
    requires 'g' !in t
    ensures Clean(t, ByShape)
  {
    forall i | 0 <= i < |t| ensures ByShape.MatchLength(t[i..]) == 0 {
      assert t[i] in t;
      NoPrefixNoMatch(t, i);
    }
  }

  lemma OnlyBracketShared(t: string, mark: string)
    requires Sets(mark) && mark[1] == 't' && |t| >= 8 &&
      t[0] == t[|t| - 1] == '[' && forall c :: c in t ==> c == '[' || c == 'a'
    ensures TailInMark(t, mark, 1) && NotInside(t, mark) && forall k :: !LeadsToMark(t, mark, k)
  {
    if !NotInside(t, mark) { InsideShares(t, mark); }
    forall k ensures !LeadsToMark(t, mark, k) {
      if LeadsToMark(t, mark, k) { TailShares(t, mark, k); }
    }
  }

  lemma InsideShares(t: string, mark: string)
    requires Sets(mark) && |t| >= 8 && !NotInside(t, mark)
    ensures ' ' in t || ']' in t
  {
    if Contains(mark, t) {
      var i :| 0 <= i <= |mark| && t <= mark[i..];
      var x := if i <= 6 then 6 else 14;
      assert t[x - i] == mark[i..][x - i] == mark[x];
      assert t[x - i] in t;
    } else if Contains(t, mark) {
      var i :| 0 <= i <= |t| && mark <= t[i..];
      assert t[i + 14] == t[i..][14] == mark[14] && t[i + 14] in t;
    } else {
      var k :| HeadInMark(t, mark, k);
      assert t[k - 1] == t[..k][k - 1] == mark[14] && t[k - 1] in t;
    }
  }

  lemma TailShares(t: string, mark: string, k: int)
    requires Sets(mark) && LeadsToMark(t, mark, k)
    ensures mark[1] in t || (k == 1 && t[0] != mark[0]) || 'g' in t
  {
    var n := |t| - k;
    if k > 1 {
      assert t[n + 1] == t[n..][1] == mark[1] && t[n + 1] in t;
    } else if PatternFrom(t, n) {
      assert t[n - 4] == t[n - 4..n][0] == 'g' && t[n - 4] in t;
    } else {
      assert t[..1] == [t[0]] && mark[..1] == [mark[0]];
    }
  }
}
