/** Taking tokens out of log text (cmd/gwatch-agent/agentlog.go). A character stands for a byte. */
module Redaction {
  import opened Text
  import opened Wrappers

  const MARK := "[token removed]"
  const PREFIX := "gwa_"

  /** The characters the token pattern takes after its prefix. */
  predicate InClass(c: char) {
    'A' <= c <= 'Z' || 'a' <= c <= 'z' || '0' <= c <= '9' || c == '_' || c == '-'
  }

  /** How many characters at the front are in the class. */
  function ClassRun(s: string): (n: nat)
    ensures n <= |s|
  {
    if s != [] && InClass(s[0]) then 1 + ClassRun(s[1..]) else 0
  }

  lemma {:induction false} ClassRunIs(s: string)
    ensures forall i :: 0 <= i < ClassRun(s) ==> InClass(s[i])
    ensures ClassRun(s) < |s| ==> !InClass(s[ClassRun(s)])
  {
    if s != [] && InClass(s[0]) { ClassRunIs(s[1..]); }
  }

  /** What one pass looks for: a token given by value, or anything in the shape of a token. */
  datatype Rule = ByValue(token: string) | ByShape {

    /** How much of the text, from its first character, this rule takes out: nothing is 0. */
    function MatchLength(s: string): (n: nat)
      ensures n <= |s|
    {
      match this
      case ByValue(token) => if token <= s then |token| else 0
      case ByShape =>
        if PREFIX <= s && ClassRun(s[4..]) >= 6 then 4 + ClassRun(s[4..]) else 0
    }

    function Lead(): string { if ByShape? then PREFIX else "" }

    /** A rule the redaction can keep its word on whatever else is taken out: no mark can be part of the token. */
    ghost predicate Sound() { ByValue? ==> |token| >= 8 && !Overlaps(token, MARK) }
  }

  ghost predicate Contains(s: string, t: string) { exists i :: 0 <= i <= |s| && t <= s[i..] }

  /** The first `k` characters of `t` are the last of the mark. */
  ghost predicate HeadInMark(t: string, mark: string, k: int) {
    0 < k < |t| && k <= |mark| && t[..k] == mark[|mark| - k..]
  }

  /** The last `k` characters of `t` are the first of the mark. */
  ghost predicate TailInMark(t: string, mark: string, k: int) {
    0 < k < |t| && k <= |mark| && t[|t| - k..] == mark[..k]
  }

  /** Neither holds the other, and `t` does not begin with what the mark ends with. */
  ghost predicate NotInside(t: string, mark: string) {
    !Contains(mark, t) && !Contains(t, mark) && forall k :: !HeadInMark(t, mark, k)
  }

  /** There is a way to lay `t` over the mark so that they agree where both are. */
  ghost predicate Overlaps(t: string, mark: string) { !NotInside(t, mark) || exists k :: TailInMark(t, mark, k) }

  /** One pass over the text: leftmost matches, none overlapping, each replaced. */
  function RewriteWith(s: string, rule: Rule, mark: string): string
    decreases |s|
  {
    if s == [] then []
    else
      var n := rule.MatchLength(s);
      if n > 0 then rule.Lead() + mark + RewriteWith(s[n..], rule, mark) else [s[0]] + RewriteWith(s[1..], rule, mark)
  }

  function Rewrite(s: string, rule: Rule): string { RewriteWith(s, rule, MARK) }

  function RewriteAll(s: string, rules: seq<Rule>): string {
    if rules == [] then s else Rewrite(RewriteAll(s, rules[..|rules| - 1]), rules[|rules| - 1])
  }

  /** A token given by value counts when it has eight characters or more between its white space. */
  function ByValues(tokens: seq<string>): seq<Rule> {
    if tokens == [] then []
    else
      var t := Trim(tokens[|tokens| - 1]);
      var earlier := ByValues(tokens[..|tokens| - 1]);
      if |t| >= 8 then earlier + [ByValue(t)] else earlier
  }

  function RulesFor(tokens: seq<string>): seq<Rule> { ByValues(tokens) + [ByShape] }

  ghost predicate Clean(s: string, rule: Rule) {
    forall i {:trigger s[i..]} :: 0 <= i < |s| ==> rule.MatchLength(s[i..]) == 0
  }

  ghost predicate AllClean(s: string, rules: seq<Rule>) {
    forall r :: r in rules ==> Clean(s, r)
  }

  // ---------------------------------------------------------------------------------------------
  // Where text that no mark can be part of came from
  // ---------------------------------------------------------------------------------------------

  lemma {:induction false} ClassRunAtLeast(s: string, n: nat)
    requires n <= |s| && forall i :: 0 <= i < n ==> InClass(s[i])
    ensures ClassRun(s) >= n
  {
    if n > 0 { ClassRunAtLeast(s[1..], n - 1); }
  }

  lemma ShapeAt(s: string)
    requires ByShape.MatchLength(s) > 0
    ensures |s| >= 10 && s[..4] == PREFIX && forall i :: 4 <= i < 10 ==> InClass(s[i])
  {
    ClassRunIs(s[4..]);
    assert forall i :: 4 <= i < 10 ==> s[i] == s[4..][i - 4];
  }

  lemma ShapeMatches(s: string)
    requires |s| >= 10 && s[..4] == PREFIX && forall i :: 4 <= i < 10 ==> InClass(s[i])
    ensures ByShape.MatchLength(s) > 0
  {
    ClassRunAtLeast(s[4..], 6);
  }

  /** All that sets the mark apart: a character no token's shape has, at either end and in the middle. */
  ghost predicate Sets(mark: string) {
    |mark| == 15 && mark[0] == '[' && mark[6] == ' ' && mark[14] == ']' && 'g' !in mark
  }

  lemma MarkSets(mark: string)
    requires mark == MARK
    ensures Sets(mark)
  {
  }

  predicate IsMarkEdge(c: char) { c == '[' || c == ' ' || c == ']' }

  predicate Plain(s: string) { forall i {:trigger s[i]} :: 0 <= i < |s| ==> !IsMarkEdge(s[i]) }

  lemma EdgeInOverlap(w: string, mark: string)
    requires Sets(mark) && |w| >= 8 && Overlaps(w, mark)
    ensures !Plain(w)
  {
    if Contains(mark, w) {
      var i :| 0 <= i <= |mark| && w <= mark[i..];
      var x := if i <= 6 then 6 else 14;
      assert w[x - i] == mark[i..][x - i] == mark[x];
    } else if Contains(w, mark) {
      var i :| 0 <= i <= |w| && mark <= w[i..];
      assert w[i] == w[i..][0] == mark[0];
    } else if k :| HeadInMark(w, mark, k) {
      assert w[k - 1] == w[..k][k - 1] == mark[14];
    } else {
      var k :| TailInMark(w, mark, k);
      assert w[|w| - k] == w[|w| - k..][0] == mark[0];
    }
  }

  /** Most tokens are like this. */
  lemma PlainIsApart(w: string, mark: string)
    requires Sets(mark) && Plain(w) && |w| >= 8
    ensures !Overlaps(w, mark)
  {
    if Overlaps(w, mark) { EdgeInOverlap(w, mark); }
  }

  /** What the text must start with for the rule to take something out: no part of a mark, and never short. */
  ghost function Opening(s: string, rule: Rule): (w: string)
    requires rule.Sound() && rule.MatchLength(s) > 0
    ensures w <= s && !Overlaps(w, MARK) && |w| >= 8
  {
    if rule.ByValue? then rule.token
    else
      ShapeAt(s);
      assert forall i :: 0 <= i < 4 ==> s[i] == s[..4][i];
      MarkSets(MARK);
      PlainIsApart(s[..10], MARK);
      s[..10]
  }

  lemma OpeningMatches(s: string, t: string, rule: Rule)
    requires rule.Sound() && rule.MatchLength(s) > 0 && Opening(s, rule) <= t
    ensures rule.MatchLength(t) > 0
  {
    if rule.ByShape? {
      var w := Opening(s, rule);
      ShapeAt(s);
      assert t[..4] == w[..4] == s[..4];
      assert forall i :: 0 <= i < 10 ==> t[i] == w[i] == s[i];
      ShapeMatches(t);
    }
  }

  /**
   * `w`, read from the front of a result, is the text itself up to `n`, where nothing was taken out before
   * the lead, and from there on the mark of something taken out.
   */
  ghost predicate ReadsUpTo(s: string, rule: Rule, mark: string, w: string, n: nat) {
    var lead := |rule.Lead()|;
    && n <= |w| && w[n..] <= mark && w[..n] <= s
    && (forall p {:trigger s[p..]} :: 0 <= p < n - lead ==> rule.MatchLength(s[p..]) == 0)
    && (n < |w| ==> lead <= n && rule.MatchLength(s[n - lead..]) > 0)
  }

  lemma MarkOrLess(w: string, mark: string, after: string, n: nat)
    requires n <= |w| && w[n..] <= mark + after
    ensures Contains(w, mark) || w[n..] <= mark
  {
    if |w| - n >= |mark| { assert mark <= w[n..]; }
  }

  lemma FrontOf(w: string, lead: string, mark: string, after: string) returns (n: nat)
    requires w <= lead + mark + after && !Contains(w, mark)
    ensures n <= |w| && n <= |lead| && w[..n] == lead[..n] && w[n..] <= mark && (n < |w| ==> n == |lead|)
  {
    n := Least(|lead|, |w|);
    if |w| > |lead| {
      assert (lead + mark + after)[n..] == mark + after;
      MarkOrLess(w, mark, after, n);
    }
  }

  lemma LeadStays(s: string, rule: Rule)
    requires rule.MatchLength(s) > 0
    ensures rule.Lead() <= s
  {
  }

  lemma ReadsTaken(s: string, rule: Rule, mark: string, after: string, w: string) returns (n: nat)
    requires rule.MatchLength(s) > 0 && w <= rule.Lead() + mark + after && !Contains(w, mark)
    ensures ReadsUpTo(s, rule, mark, w, n)
  {
    n := FrontOf(w, rule.Lead(), mark, after);
    LeadStays(s, rule);
    assert s[0..] == s;
  }

  lemma ReadsKept(s: string, rule: Rule, mark: string, w: string, n: nat)
    requires s != [] && w != [] && w[0] == s[0] && rule.MatchLength(s) == 0
    requires ReadsUpTo(s[1..], rule, mark, w[1..], n)
    ensures ReadsUpTo(s, rule, mark, w, n + 1)
  {
    assert w[1..][n..] == w[n + 1..];
    assert w[..n + 1] == [w[0]] + w[1..][..n] && s == [s[0]] + s[1..];
    forall p | 0 <= p < n + 1 - |rule.Lead()| ensures rule.MatchLength(s[p..]) == 0 {
      if p == 0 { assert s[0..] == s; } else { assert s[1..][p - 1..] == s[p..]; }
    }
    if n < |w| - 1 { assert s[1..][n - |rule.Lead()|..] == s[n + 1 - |rule.Lead()|..]; }
  }

  lemma TailHolds(w: string, mark: string)
    requires w != []
    ensures Contains(w[1..], mark) ==> Contains(w, mark)
  {
    if Contains(w[1..], mark) {
      var i :| 0 <= i <= |w[1..]| && mark <= w[1..][i..];
      assert w[1..][i..] == w[i + 1..];
    }
  }

  lemma {:induction false} RewriteStarts(s: string, rule: Rule, mark: string, w: string)
    requires w != [] && w <= RewriteWith(s, rule, mark)
    ensures s != []
    ensures rule.MatchLength(s) > 0 ==> w <= rule.Lead() + mark + RewriteWith(s[rule.MatchLength(s)..], rule, mark)
    ensures rule.MatchLength(s) == 0 ==> w[0] == s[0] && w[1..] <= RewriteWith(s[1..], rule, mark)
  {
    if s != [] && rule.MatchLength(s) == 0 {
      assert RewriteWith(s, rule, mark)[1..] == RewriteWith(s[1..], rule, mark);
    }
  }

  lemma {:induction false} StartReads(s: string, rule: Rule, mark: string, w: string) returns (n: nat)
    requires w <= RewriteWith(s, rule, mark) && !Contains(w, mark)
    ensures ReadsUpTo(s, rule, mark, w, n)
    decreases |s|
  {
    if w == [] {
      n := 0;
    } else {
      RewriteStarts(s, rule, mark, w);
      var taken := rule.MatchLength(s);
      if taken > 0 {
        n := ReadsTaken(s, rule, mark, RewriteWith(s[taken..], rule, mark), w);
      } else {
        TailHolds(w, mark);
        n := StartReads(s[1..], rule, mark, w[1..]);
        ReadsKept(s, rule, mark, w, n);
        n := n + 1;
      }
    }
  }

  /** Text that meets the mark, if at all, only at its own end, where it begins like the mark. */
  ghost predicate MeetsAtEnd(w: string, rule: Rule, mark: string) {
    && |w| > |rule.Lead()| && mark != [] && mark[0] !in rule.Lead()
    && NotInside(w, mark) && ((forall k :: !TailInMark(w, mark, k)) || w[0] == mark[0])
  }

  lemma FromLead(lead: string, mark: string, after: string, i: nat, w: string)
    requires i < |lead| < |w| && w <= (lead + mark + after)[i..]
    ensures w[0] == lead[i] && (Contains(w, mark) || exists k :: TailInMark(w, mark, k))
  {
    var m := |lead| - i;
    assert w[0] == (lead + mark + after)[i] == lead[i];
    assert (lead + mark + after)[i..][m..] == mark + after;
    MarkOrLess(w, mark, after, m);
    if w[m..] <= mark { assert TailInMark(w, mark, |w| - m); }
  }

  lemma FromMark(mark: string, after: string, i: nat, w: string)
    requires i < |mark| && w <= (mark + after)[i..]
    ensures Contains(mark, w) || exists k :: HeadInMark(w, mark, k)
  {
    var k := |mark| - i;
    assert (mark + after)[i..][..k] == mark[i..];
    if |w| <= k {
      assert w <= mark[i..];
    } else {
      assert w[..k] == mark[i..];
      assert HeadInMark(w, mark, k);
    }
  }

  /** So it comes after the mark. */
  lemma PastMark(rule: Rule, mark: string, after: string, i: nat, w: string)
    requires MeetsAtEnd(w, rule, mark)
    requires i <= |rule.Lead() + mark + after| && w <= (rule.Lead() + mark + after)[i..]
    ensures i >= |rule.Lead() + mark| && w <= after[i - |rule.Lead() + mark|..]
  {
    var lead := rule.Lead();
    if i < |lead| {
      FromLead(lead, mark, after, i, w);
    } else {
      assert lead + mark + after == lead + (mark + after);
      DropPast(lead, mark + after, i);
      if i - |lead| < |mark| { FromMark(mark, after, i - |lead|, w); } else { DropPast(mark, after, i - |lead|); }
    }
  }

  ghost predicate ReadAt(w: string, out: string, i: nat) { i <= |out| && w <= out[i..] }

  /** Past its first match or character the rest of the text tells the rest of the result. */
  lemma Later(s: string, rule: Rule, mark: string, w: string, i: nat) returns (k: nat, i': nat)
    requires MeetsAtEnd(w, rule, mark) && i > 0
    requires ReadAt(w, RewriteWith(s, rule, mark), i)
    ensures 0 < k <= |s| && ReadAt(w, RewriteWith(s[k..], rule, mark), i')
  {
    k := rule.MatchLength(s);
    if k == 0 {
      DropPast([s[0]], RewriteWith(s[1..], rule, mark), i);
      k, i' := 1, i - 1;
    } else {
      PastMark(rule, mark, RewriteWith(s[k..], rule, mark), i, w);
      i' := i - |rule.Lead() + mark|;
    }
  }

  lemma LaterFrom(s: string, j: nat, rule: Rule, mark: string, w: string, i: nat) returns (j': nat, i': nat)
    requires MeetsAtEnd(w, rule, mark) && i > 0 && j <= |s| && ReadAt(w, RewriteWith(s[j..], rule, mark), i)
    ensures j < j' <= |s| && ReadAt(w, RewriteWith(s[j'..], rule, mark), i')
  {
    var k;
    k, i' := Later(s[j..], rule, mark, w, i);
    DropTwice(s, j, k);
    j' := j + k;
  }

  /** From some place of the text on, its result begins with what was read. */
  lemma BeginsAt(s: string, rule: Rule, mark: string, w: string, i: nat) returns (j: nat)
    requires MeetsAtEnd(w, rule, mark) && ReadAt(w, RewriteWith(s, rule, mark), i)
    ensures j <= |s| && ReadAt(w, RewriteWith(s[j..], rule, mark), 0)
  {
    j := 0;
    AllOf(s);
    var at := i;
    while at > 0
      invariant j <= |s| && ReadAt(w, RewriteWith(s[j..], rule, mark), at)
      decreases |s| - j
    {
      j, at := LaterFrom(s, j, rule, mark, w, at);
    }
  }

  lemma AllOf(s: string)
    ensures s[0..] == s
  {
  }

  /** Where in the text a piece of the result came from. */
  lemma ComesFrom(s: string, rule: Rule, mark: string, w: string, i: nat) returns (j: nat, n: nat)
    requires MeetsAtEnd(w, rule, mark) && ReadAt(w, RewriteWith(s, rule, mark), i)
    ensures j < |s| && ReadsUpTo(s[j..], rule, mark, w, n)
  {
    j := BeginsAt(s, rule, mark, w, i);
    AllOf(RewriteWith(s[j..], rule, mark));
    RewriteStarts(s[j..], rule, mark, w);
    n := StartReads(s[j..], rule, mark, w);
  }

  /** Text that does not end in a mark came from the text whole. */
  lemma WholeOrMark(s: string, rule: Rule, mark: string, w: string, n: nat)
    requires w != [] && ReadsUpTo(s, rule, mark, w, n)
    ensures if n < |w| then Contains(mark, w) || TailInMark(w, mark, |w| - n) else w <= s
    ensures |rule.Lead()| < n ==> rule.MatchLength(s) == 0
  {
    assert s[0..] == s && w[0..] == w && mark[0..] == mark && w[..|w|] == w;
    if n == 0 { assert w <= mark[0..]; }
  }

  lemma ApartMeets(w: string, rule: Rule, mark: string)
    requires Sets(mark) && |w| >= 8 && !Overlaps(w, mark)
    ensures MeetsAtEnd(w, rule, mark) && forall k :: !TailInMark(w, mark, k)
  {
  }

  /** A pass leaves nothing of what it looks for, and brings back nothing an earlier one took out. */
  lemma {:induction false} PassCleans(s: string, rule: Rule, other: Rule)
    requires other.Sound() && (other == rule || Clean(s, other))
    ensures Clean(Rewrite(s, rule), other)
  {
    var out := Rewrite(s, rule);
    MarkSets(MARK);
    forall i | 0 <= i < |out| ensures other.MatchLength(out[i..]) == 0 {
      if other.MatchLength(out[i..]) > 0 {
        var w := Opening(out[i..], other);
        ApartMeets(w, rule, MARK);
        var j, n := ComesFrom(s, rule, MARK, w, i);
        WholeOrMark(s[j..], rule, MARK, w, n);
        OpeningMatches(out[i..], s[j..], other);
        assert false;
      }
    }
  }

  lemma NoPrefixNoMatch(s: string, i: nat)
    requires i < |s| && s[i] != 'g'
    ensures ByShape.MatchLength(s[i..]) == 0
  {
    assert s[i..][0] == s[i] && PREFIX[0] == 'g';
  }

  lemma PartIsClean(s: string, t: string, i: nat)
    requires Clean(s, ByShape) && i <= |s| && t <= s[i..]
    ensures Clean(t, ByShape)
  {
    forall p | 0 <= p < |t| ensures ByShape.MatchLength(t[p..]) == 0 {
      if ByShape.MatchLength(t[p..]) > 0 {
        assert t[p..] <= s[i + p..];
        OpeningMatches(t[p..], s[i + p..], ByShape);
      }
    }
  }

  lemma {:induction false} CleanStays(s: string, rule: Rule, mark: string)
    requires Clean(s, rule)
    ensures RewriteWith(s, rule, mark) == s
    decreases |s|
  {
    if s != [] {
      assert s[0..] == s;
      PieceOfClean(s, rule, 1);
      CleanStays(s[1..], rule, mark);
    }
  }

  lemma CleanIsKept(s: string, rule: Rule)
    requires Clean(s, rule)
    ensures Rewrite(s, rule) == s
  {
    CleanStays(s, rule, MARK);
  }

  /** Whatever else is looked for, before it or after. */
  lemma {:induction false} PassesClean(s: string, rules: seq<Rule>, rule: Rule)
    requires rule in rules && rule.Sound()
    ensures Clean(RewriteAll(s, rules), rule)
  {
    var n := |rules| - 1;
    var last, init := rules[n], rules[..n];
    if rule != last {
      assert rules == init + [last];
      PassesClean(s, init, rule);
    }
    PassCleans(RewriteAll(s, init), last, rule);
  }

  lemma {:induction false} AllCleanIsKept(s: string, rules: seq<Rule>)
    requires AllClean(s, rules)
    ensures RewriteAll(s, rules) == s
  {
    if rules != [] {
      var n := |rules| - 1;
      assert rules[n] in rules && forall r :: r in rules[..n] ==> r in rules;
      AllCleanIsKept(s, rules[..n]);
      CleanIsKept(s, rules[n]);
    }
  }

  // ---------------------------------------------------------------------------------------------
  // What a pass makes of a text, told from the text alone
  // ---------------------------------------------------------------------------------------------

  lemma Capitals(c: char)
    ensures 'A' <= c <= 'Z' <==> c in "ABCDEFGHIJKLMNOPQRSTUVWXYZ"
  {
    var all := "ABCDEFGHIJKLMNOPQRSTUVWXYZ";
    if 'A' <= c <= 'Z' { assert all[c as int - 'A' as int] == c; }
  }

  lemma Smalls(c: char)
    ensures 'a' <= c <= 'z' <==> c in "abcdefghijklmnopqrstuvwxyz"
  {
    var all := "abcdefghijklmnopqrstuvwxyz";
    if 'a' <= c <= 'z' { assert all[c as int - 'a' as int] == c; }
  }

  lemma DigitsAre(c: char)
    ensures '0' <= c <= '9' <==> c in "0123456789"
  {
    var all := "0123456789";
    if '0' <= c <= '9' { assert all[c as int - '0' as int] == c; }
  }

  /** What a token is made of after its prefix. */
  lemma ClassIsAlphabet(c: char)
    ensures InClass(c) <==>
      c in "ABCDEFGHIJKLMNOPQRSTUVWXYZ" || c in "abcdefghijklmnopqrstuvwxyz" || c in "0123456789" || c in "_-"
  {
    Capitals(c);
    Smalls(c);
    DigitsAre(c);
  }

  /** The prefix stands at `i`, with six characters of the alphabet after it. */
  ghost predicate TokenAt(s: string, i: int) {
    0 <= i && i + 10 <= |s| && s[i..i + 4] == "gwa_" && forall k :: i + 4 <= k < i + 10 ==> InClass(s[k])
  }

  lemma MatchesWhere(s: string, i: nat)
    requires i <= |s|
    ensures ByShape.MatchLength(s[i..]) > 0 <==> TokenAt(s, i)
  {
    if ByShape.MatchLength(s[i..]) > 0 {
      ShapeAt(s[i..]);
      assert s[i..i + 4] == s[i..][..4];
      assert forall k :: i + 4 <= k < i + 10 ==> s[k] == s[i..][k - i];
    }
    if TokenAt(s, i) {
      assert s[i..][..4] == s[i..i + 4];
      ShapeMatches(s[i..]);
    }
  }

  lemma ClassRunExactly(s: string, n: nat)
    requires n <= |s| && (forall i :: 0 <= i < n ==> InClass(s[i])) && (n < |s| ==> !InClass(s[n]))
    ensures ClassRun(s) == n
  {
    ClassRunAtLeast(s, n);
    ClassRunIs(s);
  }

  lemma {:induction false} KeepsUntil(s: string, rule: Rule, mark: string, n: nat)
    requires n <= |s| && forall p {:trigger s[p..]} :: 0 <= p < n ==> rule.MatchLength(s[p..]) == 0
    ensures RewriteWith(s, rule, mark) == s[..n] + RewriteWith(s[n..], rule, mark)
    decreases n
  {
    assert s[0..] == s;
    if n > 0 {
      forall p | 0 <= p < n - 1 ensures rule.MatchLength(s[1..][p..]) == 0 { DropTwice(s, 1, p); }
      KeepsUntil(s[1..], rule, mark, n - 1);
      DropTwice(s, 1, n - 1);
      assert s[..n] == [s[0]] + s[1..][..n - 1];
    }
  }

  lemma NoneBefore(s: string, i: nat)
    requires i <= |s| && forall p :: 0 <= p < i ==> !TokenAt(s, p)
    ensures Redacted(s) == s[..i] + Redacted(s[i..])
  {
    forall p | 0 <= p < i ensures ByShape.MatchLength(s[p..]) == 0 { MatchesWhere(s, p); }
    KeepsUntil(s, ByShape, MARK, i);
  }

  lemma RunFrom(s: string, i: nat, j: nat, t: string)
    requires TokenAt(s, i) && i + 10 <= j <= |s| && t == s[i..]
    requires (forall k :: i + 4 <= k < j ==> InClass(s[k])) && (j < |s| ==> !InClass(s[j]))
    ensures |t| == |s| - i && t[..4] == s[i..i + 4] && t[j - i..] == s[j..]
    ensures (forall k :: 4 <= k < j - i ==> InClass(t[k])) && (j - i < |t| ==> !InClass(t[j - i]))
  {
    forall k | 4 <= k < j - i ensures InClass(t[k]) { assert t[k] == s[i + k]; }
  }

  /**
   * The first token in a text is taken out to its very end, however long it is, and all that stays of it is
   * the prefix; what comes after is a text of its own.
   */
  lemma FirstTokenGoes(s: string, i: nat, j: nat)
    requires TokenAt(s, i) && forall p :: 0 <= p < i ==> !TokenAt(s, p)
    requires i + 10 <= j <= |s| && (forall k :: i + 4 <= k < j ==> InClass(s[k])) && (j < |s| ==> !InClass(s[j]))
    ensures Redacted(s) == s[..i] + ("gwa_[token removed]" + Redacted(s[j..]))
  {
    NoneBefore(s, i);
    RunFrom(s, i, j, s[i..]);
    TakesToEnd(s[i..], j - i);
  }

  lemma TakesToEnd(s: string, n: nat)
    requires 10 <= n <= |s| && s[..4] == "gwa_" && (forall k :: 4 <= k < n ==> InClass(s[k])) &&
      (n < |s| ==> !InClass(s[n]))
    ensures Redacted(s) == "gwa_[token removed]" + Redacted(s[n..])
  {
    ClassRunExactly(s[4..], n - 4);
    assert PREFIX + MARK == "gwa_[token removed]";
  }

  /** A text with no token in it is left as it is. */
  lemma NoTokenNoChange(s: string)
    requires forall p :: 0 <= p < |s| ==> !TokenAt(s, p)
    ensures Redacted(s) == s
  {
    forall p | 0 <= p < |s| ensures ByShape.MatchLength(s[p..]) == 0 { MatchesWhere(s, p); }
    CleanIsKept(s, ByShape);
  }

  /** Of a token anywhere in a text no character is left but the prefix. */
  lemma TokenTakenWhole(a: string, run: string, rest: string)
    requires |run| >= 6 && forall c :: c in run ==> InClass(c)
    requires (rest != [] ==> !InClass(rest[0])) && (a != [] ==> !InClass(a[|a| - 1]))
    ensures Redacted(a + "gwa_" + run + rest) == Redacted(a) + "gwa_[token removed]" + Redacted(rest)
  {
    ShapeTakenWhole("gwa_", run, rest);
    Aside(a, "gwa_", run, rest);
    RedactedInPieces(a, "gwa_" + run + rest);
  }

  lemma Aside(a: string, lead: string, run: string, rest: string)
    ensures a + lead + run + rest == a + (lead + run + rest)
  {
  }

  lemma ShapeTakenWhole(lead: string, run: string, rest: string)
    requires lead == PREFIX && |lead| == 4 && |run| >= 6 && (forall c :: c in run ==> InClass(c))
    requires rest != [] ==> !InClass(rest[0])
    ensures Redacted(lead + run + rest) == "gwa_[token removed]" + Redacted(rest)
  {
    var token, n := lead + run + rest, 4 + |run|;
    forall k | 4 <= k < n ensures InClass(token[k]) { assert token[k] == run[k - 4] && run[k - 4] in run; }
    assert token[..4] == lead && token[n..] == rest && (n < |token| ==> token[n] == rest[0]);
    TakesToEnd(token, n);
  }

  /** Of a token given by value the first place in a text goes, and what comes after is a text of its own. */
  lemma FirstValueGoes(s: string, t: string, i: nat)
    requires t != [] && ReadAt(t, s, i) && forall p: nat :: p < i ==> !ReadAt(t, s, p)
    ensures Rewrite(s, ByValue(t)) == s[..i] + ("[token removed]" + Rewrite(s[i + |t|..], ByValue(t)))
  {
    forall p: nat | p < i ensures ByValue(t).MatchLength(s[p..]) == 0 { assert !ReadAt(t, s, p); }
    KeepsUntil(s, ByValue(t), MARK, i);
    ValueTaken(s[i..], t, MARK);
    DropTwice(s, i, |t|);
  }

  lemma ValueTaken(s: string, t: string, mark: string)
    requires t != [] && t <= s
    ensures RewriteWith(s, ByValue(t), mark) == mark + RewriteWith(s[|t|..], ByValue(t), mark)
  {
    var rest := RewriteWith(s[|t|..], ByValue(t), mark);
    assert ByValue(t).Lead() + mark + rest == mark + rest;
  }

  /** Where it is not in a text nothing goes. */
  lemma NoValueNoChange(s: string, t: string)
    requires t != [] && !Contains(s, t)
    ensures Rewrite(s, ByValue(t)) == s
  {
    CleanHoldsNone(s, t);
    CleanIsKept(s, ByValue(t));
  }

  // ---------------------------------------------------------------------------------------------
  // redactSecrets
  // ---------------------------------------------------------------------------------------------

  /** A token no mark can be part of, if it counts at all. */
  ghost predicate UsableToken(t: string) { |Trim(t)| >= 8 ==> !Overlaps(Trim(t), MARK) }

  lemma {:induction false} ByValuesAre(tokens: seq<string>)
    ensures forall t :: t in tokens && |Trim(t)| >= 8 ==> ByValue(Trim(t)) in ByValues(tokens)
    ensures forall r :: r in ByValues(tokens) ==>
      r.ByValue? && |r.token| >= 8 && exists t :: t in tokens && r.token == Trim(t)
  {
    if tokens != [] {
      var n := |tokens| - 1;
      ByValuesAre(tokens[..n]);
      assert tokens == tokens[..n] + [tokens[n]];
      assert forall t :: t in tokens ==> t in tokens[..n] || t == tokens[n];
    }
  }

  lemma OneMoreRule(s: string, rules: seq<Rule>, rule: Rule)
    ensures RewriteAll(s, rules + [rule]) == Rewrite(RewriteAll(s, rules), rule)
  {
    assert (rules + [rule])[..|rules|] == rules;
  }

  lemma OneMoreToken(tokens: seq<string>, t: string)
    ensures ByValues(tokens + [t]) == if |Trim(t)| >= 8 then ByValues(tokens) + [ByValue(Trim(t))] else ByValues(tokens)
  {
    assert (tokens + [t])[..|tokens|] == tokens;
  }

  lemma AllRedacted(text: string, tokens: seq<string>)
    ensures forall r :: r in RulesFor(tokens) && r.Sound() ==> Clean(RewriteAll(text, RulesFor(tokens)), r)
    ensures (forall t :: t in tokens ==> UsableToken(t)) ==>
      AllClean(RewriteAll(text, RulesFor(tokens)), RulesFor(tokens))
  {
    ByValuesAre(tokens);
    forall r | r in RulesFor(tokens) && r.Sound() ensures Clean(RewriteAll(text, RulesFor(tokens)), r) {
      PassesClean(text, RulesFor(tokens), r);
    }
  }

  lemma {:induction false} FirstRule(text: string, rule: Rule, rules: seq<Rule>)
    ensures RewriteAll(text, [rule] + rules) == RewriteAll(Rewrite(text, rule), rules)
  {
    if rules == [] {
      assert [rule] + rules == [] + [rule];
      OneMoreRule(text, [], rule);
    } else {
      var n := |rules| - 1;
      assert [rule] + rules == ([rule] + rules[..n]) + [rules[n]];
      OneMoreRule(text, [rule] + rules[..n], rules[n]);
      FirstRule(text, rule, rules[..n]);
      assert rules == rules[..n] + [rules[n]];
    }
  }

  lemma {:induction false} FirstValue(t: string, tokens: seq<string>)
    ensures ByValues([t] + tokens) == (if |Trim(t)| >= 8 then [ByValue(Trim(t))] else []) + ByValues(tokens)
  {
    if tokens == [] {
      assert [t] + tokens == [] + [t];
      OneMoreToken([], t);
    } else {
      var n := |tokens| - 1;
      assert [t] + tokens == ([t] + tokens[..n]) + [tokens[n]];
      OneMoreToken([t] + tokens[..n], tokens[n]);
      FirstValue(t, tokens[..n]);
      assert tokens == tokens[..n] + [tokens[n]];
    }
  }

  /**
   * The tokens given are taken out in turn, the first first, each over the whole text before the next is
   * looked for, and those with fewer than eight characters between their white space not at all; what has
   * the shape of a token goes last.
   */
  lemma RedactedInTurn(text: string, t: string, tokens: seq<string>)
    ensures RewriteAll(text, RulesFor([])) == Redacted(text)
    ensures RewriteAll(text, RulesFor([t] + tokens)) ==
      RewriteAll(if |Trim(t)| >= 8 then Rewrite(text, ByValue(Trim(t))) else text, RulesFor(tokens))
  {
    OneMoreRule(text, [], ByShape);
    assert RulesFor([]) == [] + [ByShape];
    FirstValue(t, tokens);
    if |Trim(t)| >= 8 {
      var rule := ByValue(Trim(t));
      assert RulesFor([t] + tokens) == [rule] + RulesFor(tokens);
      FirstRule(text, rule, RulesFor(tokens));
    } else {
      assert RulesFor([t] + tokens) == RulesFor(tokens);
    }
  }

  /** No token given that counts is in the text. */
  ghost predicate NoneGiven(text: string, tokens: seq<string>) {
    forall t :: t in tokens && |Trim(t)| >= 8 ==> !Contains(text, Trim(t))
  }

  /** Then only what has the shape of a token goes. */
  lemma {:induction false} OnlyShapes(text: string, tokens: seq<string>)
    requires NoneGiven(text, tokens)
    ensures RewriteAll(text, RulesFor(tokens)) == Redacted(text)
  {
    if tokens == [] {
      RedactedInTurn(text, "", []);
    } else {
      var t := tokens[0];
      assert tokens == [t] + tokens[1..] && t in tokens && forall u :: u in tokens[1..] ==> u in tokens;
      RedactedInTurn(text, t, tokens[1..]);
      if |Trim(t)| >= 8 { NoValueNoChange(text, Trim(t)); }
      OnlyShapes(text, tokens[1..]);
    }
  }

  /** Whatever tokens were given before, of a token still in the text no character is left but the prefix. */
  lemma SecretsTakenWhole(text: string, tokens: seq<string>, a: string, run: string, rest: string)
    requires RewriteAll(text, ByValues(tokens)) == a + "gwa_" + run + rest
    requires |run| >= 6 && forall c :: c in run ==> InClass(c)
    requires (rest != [] ==> !InClass(rest[0])) && (a != [] ==> !InClass(a[|a| - 1]))
    ensures RewriteAll(text, RulesFor(tokens)) == Redacted(a) + "gwa_[token removed]" + Redacted(rest)
  {
    OneMoreRule(text, ByValues(tokens), ByShape);
    TokenTakenWhole(a, run, rest);
  }

  /**
   * Tokens are taken out by value one after another, then anything in the shape of one. Of what was
   * looked for nothing is left that no mark can be part of, whatever the text was and whatever else was
   * looked for; and if that is all, redacting once more changes nothing.
   */
  method RedactSecrets(text: string, tokens: seq<string>) returns (out: string)
    ensures out == RewriteAll(text, RulesFor(tokens))
    ensures forall r :: r in RulesFor(tokens) && r.Sound() ==> Clean(out, r)
    ensures NoneGiven(text, tokens) ==> out == Redacted(text)
    ensures (forall t :: t in tokens ==> UsableToken(t)) ==>
      AllClean(out, RulesFor(tokens)) && RewriteAll(out, RulesFor(tokens)) == out
  {
    out := text;
    var i := 0;
    while i < |tokens|
      invariant i <= |tokens|
      invariant out == RewriteAll(text, ByValues(tokens[..i]))
    {
      var t := Trim(tokens[i]);
      OneMoreToken(tokens[..i], tokens[i]);
      TakeMore(tokens, i);
      if |t| >= 8 {
        OneMoreRule(text, ByValues(tokens[..i]), ByValue(t));
        out := Rewrite(out, ByValue(t));
      }
      i := i + 1;
    }
    TakeAll(tokens);
    OneMoreRule(text, ByValues(tokens), ByShape);
    out := Rewrite(out, ByShape);
    AllRedacted(text, tokens);
    if forall t :: t in tokens ==> UsableToken(t) { AllCleanIsKept(out, RulesFor(tokens)); }
    if NoneGiven(text, tokens) { OnlyShapes(text, tokens); }
  }

  /** In plain words: the token is nowhere in the result, nor is anything in the shape of one. */
  lemma RedactedHoldsNoToken(text: string, tokens: seq<string>, t: string)
    requires t in tokens && |Trim(t)| >= 8 && !Overlaps(Trim(t), MARK)
    ensures !Contains(RewriteAll(text, RulesFor(tokens)), Trim(t))
    ensures Clean(RewriteAll(text, RulesFor(tokens)), ByShape)
  {
    ByValuesAre(tokens);
    AllRedacted(text, tokens);
    CleanHoldsNone(RewriteAll(text, RulesFor(tokens)), Trim(t));
  }

  lemma CleanHoldsNone(s: string, t: string)
    requires t != []
    ensures Clean(s, ByValue(t)) <==> !Contains(s, t)
  {
    if Clean(s, ByValue(t)) {
      forall i | 0 <= i <= |s| ensures !(t <= s[i..]) {
        if i < |s| { assert ByValue(t).MatchLength(s[i..]) == 0; }
      }
    }
  }

  /**
   * Text without anything to take out is left as it is. Where no token given overlaps the mark any other
   * text is changed.
   */
  lemma RedactionChangesOnlyTokens(text: string, tokens: seq<string>)
    ensures AllClean(text, RulesFor(tokens)) ==> RewriteAll(text, RulesFor(tokens)) == text
    ensures (forall u :: u in tokens ==> UsableToken(u)) ==>
      (RewriteAll(text, RulesFor(tokens)) == text <==> AllClean(text, RulesFor(tokens)))
  {
    AllRedacted(text, tokens);
    if AllClean(text, RulesFor(tokens)) { AllCleanIsKept(text, RulesFor(tokens)); }
  }

  // ---------------------------------------------------------------------------------------------
  // Redacting a stream piece by piece
  // ---------------------------------------------------------------------------------------------

  /** The redaction every line gets on its way into the file. */
  function Redacted(s: string): string { Rewrite(s, ByShape) }

  lemma {:induction false} GrowsByNineTenths(s: string, mark: string)
    requires |mark| == 15
    ensures 10 * |RewriteWith(s, ByShape, mark)| <= 19 * |s|
    decreases |s|
  {
    if s != [] {
      var n := ByShape.MatchLength(s);
      if n > 0 { GrowsByNineTenths(s[n..], mark); } else { GrowsByNineTenths(s[1..], mark); }
    }
  }

  /** Redaction lets text grow by nine tenths at the most. */
  lemma RedactedGrowth(s: string)
    ensures 10 * |Redacted(s)| <= 19 * |s|
  {
    GrowsByNineTenths(s, MARK);
  }

  lemma {:induction false} ClassRunStops(s: string, t: string)
    requires s != [] && !InClass(s[|s| - 1])
    ensures ClassRun(s + t) == ClassRun(s) < |s|
  {
    if InClass(s[0]) {
      assert (s + t)[1..] == s[1..] + t;
      ClassRunStops(s[1..], t);
    }
  }

  lemma {:induction false} InPieces(s: string, t: string, mark: string)
    requires s != [] ==> !InClass(s[|s| - 1])
    ensures RewriteWith(s + t, ByShape, mark) == RewriteWith(s, ByShape, mark) + RewriteWith(t, ByShape, mark)
    decreases |s|
  {
    if s == [] {
      assert s + t == t;
    } else {
      SameMatch(s, t);
      var n := ByShape.MatchLength(s);
      var k := if n > 0 then n else 1;
      assert (s + t)[k..] == s[k..] + t && (s + t)[0] == s[0];
      InPieces(s[k..], t, mark);
    }
  }

  /** Lines can be redacted one at a time: no token runs over the end of a line. */
  lemma RedactedInPieces(s: string, t: string)
    requires s != [] ==> !InClass(s[|s| - 1])
    ensures Redacted(s + t) == Redacted(s) + Redacted(t)
  {
    InPieces(s, t, MARK);
  }

  lemma SameMatch(s: string, t: string)
    requires s != [] && !InClass(s[|s| - 1])
    ensures ByShape.MatchLength(s + t) == ByShape.MatchLength(s)
  {
    var all := s + t;
    if PREFIX <= all {
      assert all[|s| - 1] == s[|s| - 1];
      assert forall i :: 0 <= i < 4 ==> all[i] == PREFIX[i];
      assert |s| > 4;
      if PREFIX <= s {
        assert all[4..] == s[4..] + t;
        ClassRunStops(s[4..], t);
      }
    }
  }

  lemma PieceOfClean(s: string, rule: Rule, k: nat)
    requires Clean(s, rule) && k <= |s|
    ensures Clean(s[k..], rule)
  {
    forall i | 0 <= i < |s[k..]| ensures rule.MatchLength(s[k..][i..]) == 0 {
      assert s[k..][i..] == s[k + i..];
    }
  }
}
