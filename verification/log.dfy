/** The agent's log file, moved aside when it is full (cmd/gwatch-agent/agentlog.go). */
module AgentLog {
  import opened Wrappers
  import opened Redaction

  const MAX_LOG_FILE := 0x10_0000

  /** The two files: agent.log, and agent.log.1 set aside before it. */
  datatype Files = Files(current: string, previous: string)

  /** What the file system does during one write: the rename, the open, and how many bytes the disk takes. */
  datatype Luck = Luck(renames: bool, opens: bool, takes: nat)

  /** The log as it is between writes: `size` is what the program believes about agent.log. */
  datatype LogState = LogState(files: Files, open: bool, size: nat)

  /** agent.log set aside and started again, as far as the file system lets it. */
  function Rotated(s: LogState, luck: Luck): LogState {
    var previous := if luck.renames then s.files.current else s.files.previous;
    if luck.opens then LogState(Files("", previous), true, 0)
    else
      // Without a new file nothing is truncated; what the rename moved is gone from agent.log.
      LogState(Files(if luck.renames then "" else s.files.current, previous), false, s.size)
  }

  /** As much of the redaction of `p` as the disk takes. */
  function Wrote(p: string, luck: Luck): string { Redacted(p)[..Least(luck.takes, |Redacted(p)|)] }

  /** The bytes of `p` that reach the file. */
  function Taken(s: LogState, p: string, luck: Luck): string {
    if !s.open || (s.size + |p| > MAX_LOG_FILE && !luck.opens) then "" else Wrote(p, luck)
  }

  function Next(s: LogState, p: string, luck: Luck): LogState {
    if !s.open then s
    else
      var t := if s.size + |p| > MAX_LOG_FILE then Rotated(s, luck) else s;
      var n := Taken(s, p, luck);
      if t.open then LogState(t.files.(current := t.files.current + n), true, t.size + |n|) else t
  }

  class CappedLog {
    var current: string
    var previous: string
    var open: bool
    var size: nat

    function State(): LogState
      reads this
    {
      LogState(Files(current, previous), open, size)
    }

    /** A log already there is carried on. */
    constructor (current: string, previous: string)
      ensures State() == LogState(Files(current, previous), true, |current|)
    {
      this.current, this.previous, this.open, this.size := current, previous, true, |current|;
    }

    /**
     * Claims to have written all of `p`, whatever became of it. A full agent.log becomes agent.log.1, all of
     * it, and a new one is begun; a rename that fails leaves agent.log.1 as it was.
     */
    method Write(p: string, luck: Luck) returns (n: nat)
      modifies this
      ensures State() == Next(old(State()), p, luck)
      ensures n == |p|
      ensures !old(open) ==> State() == old(State())
      ensures old(open) && old(size) + |p| <= MAX_LOG_FILE ==>
        previous == old(previous) && current == old(current) + Wrote(p, luck) && open
      ensures old(open) && old(size) + |p| > MAX_LOG_FILE ==>
        && previous == (if luck.renames then old(current) else old(previous)) && open == luck.opens
        && current == if luck.opens then Wrote(p, luck) else if luck.renames then "" else old(current)
      ensures old(open) && open ==>
        size == |Wrote(p, luck)| + if old(size) + |p| > MAX_LOG_FILE then 0 else old(size)
    {
      n := |p|;
      if !open { return; }
      if size + |p| > MAX_LOG_FILE {
        if luck.renames { current, previous := "", current; }
        if !luck.opens {
          open := false;
          return;
        }
        current, size := "", 0;
      }
      var text := Rewrite(p, ByShape);
      var taken := text[..Least(luck.takes, |text|)];
      assert taken == Wrote(p, luck);
      assert "" + taken == taken;
      current, size := current + taken, size + |taken|;
    }

    method Close()
      modifies this
      ensures State() == old(State()).(open := false)
    {
      open := false;
    }
  }

  // ---------------------------------------------------------------------------------------------
  // Every run of writes
  // ---------------------------------------------------------------------------------------------

  datatype Entry = Entry(text: string, luck: Luck)

  /** The log after these writes, on a machine that had `start` in its files. */
  function After(start: Files, writes: seq<Entry>): LogState {
    if writes == [] then LogState(start, true, |start.current|)
    else
      var last := writes[|writes| - 1];
      Next(After(start, writes[..|writes| - 1]), last.text, last.luck)
  }

  /** Everything that ever reached the disk, from what was there at the start. */
  function Stream(start: Files, writes: seq<Entry>): string {
    if writes == [] then start.previous + start.current
    else
      var earlier := writes[..|writes| - 1];
      var last := writes[|writes| - 1];
      Stream(start, earlier) + Taken(After(start, earlier), last.text, last.luck)
  }

  ghost predicate EndsWith(s: string, t: string) { |t| <= |s| && s[|s| - |t|..] == t }

  lemma EndsWithMore(s: string, t: string, more: string)
    requires EndsWith(s, t)
    ensures EndsWith(s + more, t + more)
  {
    assert s == s[..|s| - |t|] + t;
    assert s + more == s[..|s| - |t|] + (t + more);
  }

  lemma EndsWithEnd(s: string, t: string, u: string)
    requires EndsWith(s, t + u)
    ensures EndsWith(s, u)
  {
    assert (t + u)[|t|..] == u;
  }

  predicate RenamesWork(writes: seq<Entry>) { forall e :: e in writes ==> e.luck.renames }

  /**
   * Whatever the disk does, the size is the length of the file and agent.log is the end of what was
   * written; as long as no rename fails, so are the two files taken one after the other.
   */
  lemma {:induction false} FilesAreTheEnd(start: Files, writes: seq<Entry>)
    ensures var s := After(start, writes);
      && (s.open ==> s.size == |s.files.current|)
      && EndsWith(Stream(start, writes), s.files.current)
      && (RenamesWork(writes) ==> EndsWith(Stream(start, writes), s.files.previous + s.files.current))
  {
    if writes == [] {
      EndsWithEnd(start.previous + start.current, start.previous, start.current);
    } else {
      var earlier := writes[..|writes| - 1];
      var e := writes[|writes| - 1];
      FilesAreTheEnd(start, earlier);
      assert RenamesWork(writes) ==> RenamesWork(earlier) && e.luck.renames;
      StepKeepsTheEnd(After(start, earlier), e, Stream(start, earlier), RenamesWork(writes));
    }
  }

  lemma StepKeepsTheEnd(s: LogState, e: Entry, stream: string, renames: bool)
    requires s.open ==> s.size == |s.files.current|
    requires EndsWith(stream, s.files.current)
    requires renames ==> e.luck.renames && EndsWith(stream, s.files.previous + s.files.current)
    ensures var t := Next(s, e.text, e.luck); var more := Taken(s, e.text, e.luck);
      && (t.open ==> t.size == |t.files.current|)
      && EndsWith(stream + more, t.files.current)
      && (renames ==> EndsWith(stream + more, t.files.previous + t.files.current))
  {
    var more := Taken(s, e.text, e.luck);
    var mid := if s.open && s.size + |e.text| > MAX_LOG_FILE then Rotated(s, e.luck) else s;
    assert EndsWith(stream, "");
    EndsWithMore(stream, mid.files.current, more);
    assert stream + "" == stream;
    if renames { StepKeepsBoth(s, e, mid, more, stream); }
  }

  lemma StepKeepsBoth(s: LogState, e: Entry, mid: LogState, more: string, stream: string)
    requires EndsWith(stream, s.files.previous + s.files.current)
    requires mid == s || (mid == Rotated(s, e.luck) && e.luck.renames)
    ensures EndsWith(stream + more, mid.files.previous + (mid.files.current + more))
    ensures EndsWith(stream, mid.files.previous + mid.files.current)
  {
    if mid != s {
      EndsWithEnd(stream, s.files.previous, s.files.current);
      assert mid.files.previous + mid.files.current == s.files.current;
    }
    EndsWithMore(stream, mid.files.previous + mid.files.current, more);
    assert mid.files.previous + (mid.files.current + more) == mid.files.previous + mid.files.current + more;
  }

  /** Whole, or at least all but the last write's worth of a full log. */
  ghost predicate KeepsEnough(files: Files, stream: string, most: nat) {
    files.previous + files.current == stream || |files.previous| + most > MAX_LOG_FILE
  }

  /**
   * As long as renames work and no write is longer than `most`, the files hold everything there ever was, or
   * agent.log.1 alone is a full log, less than `most` short of the limit.
   */
  lemma {:induction false} EnoughIsKept(start: Files, writes: seq<Entry>, most: nat)
    requires RenamesWork(writes) && forall e :: e in writes ==> |e.text| <= most
    ensures KeepsEnough(After(start, writes).files, Stream(start, writes), most)
  {
    if writes != [] {
      var earlier, e := writes[..|writes| - 1], writes[|writes| - 1];
      EnoughIsKept(start, earlier, most);
      FilesAreTheEnd(start, earlier);
      StepKeepsEnough(After(start, earlier), e, Stream(start, earlier), most);
    }
  }

  lemma StepKeepsEnough(s: LogState, e: Entry, stream: string, most: nat)
    requires (s.open ==> s.size == |s.files.current|) && e.luck.renames && |e.text| <= most
    requires KeepsEnough(s.files, stream, most)
    ensures KeepsEnough(Next(s, e.text, e.luck).files, stream + Taken(s, e.text, e.luck), most)
  {
    var more := Taken(s, e.text, e.luck);
    assert s.files.previous + (s.files.current + more) == s.files.previous + s.files.current + more;
    assert stream + "" == stream;
  }

  /** After a write agent.log is no longer than the limit, or the write, and what redaction added to it. */
  lemma SizeIsCapped(start: Files, writes: seq<Entry>, e: Entry)
    requires After(start, writes + [e]).open
    ensures var size := |After(start, writes + [e]).files.current|;
      && size <= Most(MAX_LOG_FILE, |e.text|) + |Redacted(e.text)| - |e.text|
      && 10 * size <= 10 * Most(MAX_LOG_FILE, |e.text|) + 9 * |e.text|
  {
    assert (writes + [e])[..|writes|] == writes;
    FilesAreTheEnd(start, writes);
    FilesAreTheEnd(start, writes + [e]);
    RedactedGrowth(e.text);
    var s := After(start, writes);
    assert |Taken(s, e.text, e.luck)| <= |Redacted(e.text)|;
  }

  lemma EndsWithSame(s: string, t: string, more: string)
    ensures EndsWith(s + more, t + more) <==> EndsWith(s, t)
  {
    if EndsWith(s, t) { EndsWithMore(s, t, more); }
    if EndsWith(s + more, t + more) {
      var k := |s| - |t|;
      forall i | 0 <= i < |t| ensures s[k..][i] == t[i] {
        assert (s + more)[k..][i] == (t + more)[i];
      }
    }
  }

  /**
   * A log that is full but cannot be renamed is emptied all the same. The two files are then the end of
   * what was written exactly when agent.log.1 alone was before, which is to say that the lines emptied
   * out of agent.log only repeated it.
   */
  lemma FailedRenameLosesLines(start: Files, writes: seq<Entry>, e: Entry)
    requires var s := After(start, writes); s.open && s.size + |e.text| > MAX_LOG_FILE
    requires e.luck.opens && !e.luck.renames
    ensures var t := After(start, writes + [e]);
      EndsWith(Stream(start, writes + [e]), t.files.previous + t.files.current)
      <==> EndsWith(Stream(start, writes), After(start, writes).files.previous)
  {
    assert (writes + [e])[..|writes|] == writes;
    var s := After(start, writes);
    var more := Taken(s, e.text, e.luck);
    assert After(start, writes + [e]).files == Files(more, s.files.previous) by { assert "" + more == more; }
    EndsWithSame(Stream(start, writes), s.files.previous, more);
  }

  lemma EndOfEnd(s: string, t: string, u: string)
    requires EndsWith(s, t) && |u| <= |t|
    ensures EndsWith(s, u) <==> EndsWith(t, u)
  {
    assert s[|s| - |t|..][|t| - |u|..] == s[|s| - |u|..];
  }

  /** As long as no rename failed before, that is for the two files to tell. */
  lemma FilesTellWhatIsLost(start: Files, writes: seq<Entry>, e: Entry)
    requires var s := After(start, writes); s.open && s.size + |e.text| > MAX_LOG_FILE
    requires RenamesWork(writes) && e.luck.opens && !e.luck.renames
    ensures var s, t := After(start, writes).files, After(start, writes + [e]).files;
      EndsWith(Stream(start, writes + [e]), t.previous + t.current) <==> EndsWith(s.previous + s.current, s.previous)
  {
    var s := After(start, writes).files;
    FailedRenameLosesLines(start, writes, e);
    FilesAreTheEnd(start, writes);
    EndOfEnd(Stream(start, writes), s.previous + s.current, s.previous);
  }

  /** So it is with any two different lines: the one in agent.log is gone. */
  lemma DifferentLinesAreLost(start: Files, e: Entry)
    requires start == Files("b\n", "a\n") && |e.text| >= MAX_LOG_FILE && e.luck.opens && !e.luck.renames
    ensures var t := After(start, [e]); !EndsWith(Stream(start, [e]), t.files.previous + t.files.current)
  {
    assert [] + [e] == [e];
    FailedRenameLosesLines(start, [], e);
    var all, was := start.previous + start.current, start.previous;
    assert all[|all| - |was|..][0] == 'b' && was[0] == 'a';
  }

  // ---------------------------------------------------------------------------------------------
  // What is in the files
  // ---------------------------------------------------------------------------------------------

  function TextOf(writes: seq<Entry>): string {
    if writes == [] then "" else TextOf(writes[..|writes| - 1]) + writes[|writes| - 1].text
  }

  /** Every write is whole lines, as the logger sends them, and the disk takes the whole of it. */
  predicate AllWhole(writes: seq<Entry>) { forall e :: e in writes ==> Whole(e) }

  predicate Whole(e: Entry) { e.luck.takes >= |Redacted(e.text)| && EndsLine(e.text) }

  /** Nothing after this text can be part of a token begun in it. */
  predicate EndsLine(s: string) { s != [] ==> !InClass(s[|s| - 1]) }

  ghost predicate RedactedLines(s: string) { exists t :: EndsLine(t) && s == Redacted(t) }

  ghost predicate FilesRedacted(f: Files) { RedactedLines(f.previous) && RedactedLines(f.current) }

  lemma RedactedLinesJoin(s: string, t: string)
    requires RedactedLines(s) && RedactedLines(t)
    ensures RedactedLines(s + t) && Clean(s + t, ByShape)
  {
    var a :| EndsLine(a) && s == Redacted(a);
    var b :| EndsLine(b) && t == Redacted(b);
    RedactedInPieces(a, b);
    assert EndsLine(a + b);
    PassCleans(a + b, ByShape, ByShape);
  }

  lemma StepKeepsRedacted(s: LogState, e: Entry)
    requires FilesRedacted(s.files) && Whole(e)
    ensures FilesRedacted(Next(s, e.text, e.luck).files)
  {
    assert EndsLine("") && "" == Redacted("");
    assert RedactedLines("");
    TakeAll(Redacted(e.text));
    assert RedactedLines(Redacted(e.text));
    RedactedLinesJoin(s.files.current, Redacted(e.text));
    RedactedLinesJoin("", Redacted(e.text));
    assert s.files.current + "" == s.files.current;
  }

  lemma {:induction false} FilesStayRedacted(start: Files, writes: seq<Entry>)
    requires FilesRedacted(start) && AllWhole(writes)
    ensures FilesRedacted(After(start, writes).files)
  {
    if writes != [] {
      var earlier, e := writes[..|writes| - 1], writes[|writes| - 1];
      assert e in writes && forall x :: x in earlier ==> x in writes;
      FilesStayRedacted(start, earlier);
      StepKeepsRedacted(After(start, earlier), e);
    }
  }

  /**
   * Nothing in the shape of a token is in either file, nor over the seam between them, whatever becomes
   * of the renames and the opens: all it takes is that no write is cut short.
   */
  lemma FilesHoldNoTokens(start: Files, writes: seq<Entry>)
    requires FilesRedacted(start) && AllWhole(writes)
    ensures var s := After(start, writes); Clean(s.files.previous + s.files.current, ByShape)
  {
    var s := After(start, writes);
    FilesStayRedacted(start, writes);
    RedactedLinesJoin(s.files.previous, s.files.current);
  }

  // ---------------------------------------------------------------------------------------------
  // Writes that are cut short
  // ---------------------------------------------------------------------------------------------

  function LastNine(s: string): string { if |s| <= 9 then s else s[|s| - 9..] }
  function FirstNine(s: string): string { if |s| <= 9 then s else s[..9] }

  lemma TenDecide(s: string, t: string)
    requires |s| >= 10 && |t| >= 10 && s[..10] == t[..10] && ByShape.MatchLength(s) > 0
    ensures ByShape.MatchLength(t) > 0
  {
    ShapeAt(s);
    assert forall i :: 0 <= i < 10 ==> s[i] == s[..10][i] == t[..10][i] == t[i];
    assert t[..4] == s[..4];
    ShapeMatches(t);
  }

  /** A match over the seam starts in the last nine characters before it and is told by the first nine after it. */
  lemma MatchOverSeam(s: string, x: string, i: nat)
    requires i < |s| < i + 10 && ByShape.MatchLength((s + x)[i..]) > 0
    ensures !Clean(LastNine(s) + FirstNine(x), ByShape)
  {
    var seam, k := LastNine(s) + FirstNine(x), i - (|s| - |LastNine(s)|);
    ShapeAt((s + x)[i..]);
    assert forall m :: 0 <= m < 10 ==> (s + x)[i..][m] == seam[k..][m];
    TenDecide((s + x)[i..], seam[k..]);
  }

  lemma SeamIsPart(s: string, x: string)
    requires Clean(s + x, ByShape)
    ensures Clean(LastNine(s) + FirstNine(x), ByShape)
  {
    var at := |s| - |LastNine(s)|;
    assert LastNine(s) + FirstNine(x) <= (s + x)[at..];
    PartIsClean(s + x, LastNine(s) + FirstNine(x), at);
  }

  /** Two clean texts put together are clean exactly when their seam is. */
  lemma SeamDecides(s: string, x: string)
    requires Clean(s, ByShape) && Clean(x, ByShape)
    ensures Clean(s + x, ByShape) <==> Clean(LastNine(s) + FirstNine(x), ByShape)
  {
    if Clean(s + x, ByShape) { SeamIsPart(s, x); }
    if Clean(LastNine(s) + FirstNine(x), ByShape) {
      forall i | 0 <= i < |s + x| ensures ByShape.MatchLength((s + x)[i..]) == 0 {
        if ByShape.MatchLength((s + x)[i..]) > 0 { MatchHasPlace(s, x, i); }
      }
    }
  }

  lemma MatchHasPlace(s: string, x: string, i: nat)
    requires i < |s + x| && ByShape.MatchLength((s + x)[i..]) > 0
    ensures !Clean(s, ByShape) || !Clean(x, ByShape) || !Clean(LastNine(s) + FirstNine(x), ByShape)
  {
    ShapeAt((s + x)[i..]);
    if i >= |s| {
      DropPast(s, x, i);
      assert ByShape.MatchLength(x[i - |s|..]) > 0;
    } else if i + 10 <= |s| {
      assert (s + x)[i..][..10] == s[i..][..10];
      TenDecide((s + x)[i..], s[i..]);
    } else {
      MatchOverSeam(s, x, i);
    }
  }

  ghost predicate FilesClean(f: Files) { Clean(f.previous + f.current, ByShape) }

  /** What a write finds in the two files, and adds to. */
  function Kept(s: LogState, e: Entry): string {
    var f := if s.open && s.size + |e.text| > MAX_LOG_FILE then Rotated(s, e.luck).files else s.files;
    f.previous + f.current
  }

  /** Nothing in the shape of a token comes about where a write is added. */
  ghost predicate SeamClean(s: LogState, e: Entry) {
    Clean(LastNine(Kept(s, e)) + FirstNine(Taken(s, e.text, e.luck)), ByShape)
  }

  lemma TakenIsClean(s: LogState, e: Entry)
    ensures Clean(Taken(s, e.text, e.luck), ByShape)
  {
    PassCleans(e.text, ByShape, ByShape);
    var all := Redacted(e.text);
    assert all[0..] == all;
    PartIsClean(all, Taken(s, e.text, e.luck), 0);
  }

  lemma KeptIsClean(s: LogState, e: Entry)
    requires FilesClean(s.files)
    ensures Clean(Kept(s, e), ByShape)
  {
    var all := s.files.previous + s.files.current;
    assert all[0..] == all && s.files.previous <= all && s.files.current == all[|s.files.previous|..];
    PartIsClean(all, s.files.previous, 0);
    PartIsClean(all, s.files.current, |s.files.previous|);
    assert "" + s.files.current == s.files.current && s.files.current + "" == s.files.current;
    assert s.files.previous + "" == s.files.previous;
  }

  /** However much of a write reaches the disk: the seam decides. */
  lemma WriteKeepsClean(s: LogState, e: Entry)
    requires FilesClean(s.files)
    ensures FilesClean(Next(s, e.text, e.luck).files) <==> SeamClean(s, e)
  {
    var t, more := Next(s, e.text, e.luck).files, Taken(s, e.text, e.luck);
    KeptIsClean(s, e);
    TakenIsClean(s, e);
    SeamDecides(Kept(s, e), more);
    FilesAfter(s, e);
  }

  lemma FilesAfter(s: LogState, e: Entry)
    ensures var t := Next(s, e.text, e.luck).files; t.previous + t.current == Kept(s, e) + Taken(s, e.text, e.luck)
  {
    var mid := if s.open && s.size + |e.text| > MAX_LOG_FILE then Rotated(s, e.luck) else s;
    var more := Taken(s, e.text, e.luck);
    assert mid.files.previous + (mid.files.current + more) == mid.files.previous + mid.files.current + more;
    assert more == "" ==> Kept(s, e) + more == Kept(s, e);
  }

  /** All along a run of any writes, whole lines or not, nothing in the shape of a token is in the files. */
  ghost predicate AllAlongClean(start: Files, writes: seq<Entry>)
    decreases |writes|
  {
    FilesClean(After(start, writes).files) && (writes != [] ==> AllAlongClean(start, writes[..|writes| - 1]))
  }

  ghost predicate SeamsClean(start: Files, writes: seq<Entry>)
    decreases |writes|
  {
    writes != [] ==>
      var earlier := writes[..|writes| - 1];
      SeamsClean(start, earlier) && SeamClean(After(start, earlier), writes[|writes| - 1])
  }

  /** It is so exactly when it was so at the start and every seam is clean. */
  lemma {:induction false} SeamsDecide(start: Files, writes: seq<Entry>)
    ensures AllAlongClean(start, writes) <==> FilesClean(start) && SeamsClean(start, writes)
    decreases |writes|
  {
    if writes != [] {
      var earlier, e := writes[..|writes| - 1], writes[|writes| - 1];
      SeamsDecide(start, earlier);
      if FilesClean(After(start, earlier).files) { WriteKeepsClean(After(start, earlier), e); }
    }
  }

  /** A line with a token in it, cut off after its prefix... */
  lemma CutAfterPrefix(e: Entry)
    requires e.text == "gwa_abcdef\n" && e.luck.takes == 4
    ensures Next(LogState(Files("", ""), true, 0), e.text, e.luck) == LogState(Files(PREFIX, ""), true, 4)
  {
    TakesPrefix(e.text, PREFIX);
    TakesFour(LogState(Files("", ""), true, 0), e, PREFIX);
  }

  lemma TakesFour(s: LogState, e: Entry, prefix: string)
    requires s == LogState(Files("", ""), true, 0) && |e.text| == 11 && e.luck.takes == 4
    requires |Redacted(e.text)| >= 4 && Redacted(e.text)[..4] == prefix
    ensures Next(s, e.text, e.luck) == LogState(Files(prefix, ""), true, 4)
  {
    assert Taken(s, e.text, e.luck) == prefix;
    assert "" + prefix == prefix;
  }

  lemma TakesPrefix(text: string, prefix: string)
    requires prefix == PREFIX && |text| == 11 && text[..4] == prefix && forall i :: 4 <= i < 10 ==> InClass(text[i])
    ensures |Redacted(text)| >= 4 && Redacted(text)[..4] == prefix
  {
    ShapeMatches(text);
  }

  lemma {:induction false} AfterOne(start: Files, a: Entry)
    ensures After(start, [a]) == Next(LogState(start, true, |start.current|), a.text, a.luck)
  {
    assert [a][..0] == [];
  }

  lemma {:induction false} AfterTwo(start: Files, a: Entry, b: Entry)
    ensures After(start, [a, b]) == Next(After(start, [a]), b.text, b.luck)
  {
    assert [a, b][..1] == [a];
  }

  lemma FirstCut(start: Files, a: Entry)
    requires start == Files("", "") && a.text == "gwa_abcdef\n" && a.luck.takes == 4
    ensures After(start, [a]) == LogState(Files(PREFIX, ""), true, 4)
  {
    AfterOne(start, a);
    CutAfterPrefix(a);
  }

  lemma JoinsAfter(start: Files, a: Entry, b: Entry, prefix: string)
    requires After(start, [a]) == LogState(Files(prefix, ""), true, 4) && prefix == PREFIX && |prefix| == 4
    requires b.text == "abcdef\n" && b.luck.takes >= 7
    ensures !FilesClean(After(start, [a, b]).files)
  {
    AfterTwo(start, a, b);
    JoinsPrefix(After(start, [a]), b, b.text, prefix);
  }

  /** ...and one that goes on like a token: the two make one. */
  lemma CutShortJoins(a: Entry, b: Entry)
    requires a.text == "gwa_abcdef\n" && a.luck.takes == 4 && b.text == "abcdef\n" && b.luck.takes >= 7
    ensures After(Files("", ""), [a]).files == Files(PREFIX, "")
    ensures !FilesClean(After(Files("", ""), [a, b]).files)
  {
    var start := Files("", "");
    FirstCut(start, a);
    JoinsAfter(start, a, b, PREFIX);
  }

  lemma JoinsPrefix(s: LogState, e: Entry, text: string, prefix: string)
    requires prefix == PREFIX && |prefix| == 4 && s == LogState(Files(prefix, ""), true, 4)
    requires |text| == 7 && 'g' !in text && (forall i :: 0 <= i < 6 ==> InClass(text[i])) && e.text == text &&
      e.luck.takes >= 7
    ensures !FilesClean(Next(s, e.text, e.luck).files)
  {
    forall i | 0 <= i < |text| ensures ByShape.MatchLength(text[i..]) == 0 {
      assert text[i] in text;
      NoPrefixNoMatch(text, i);
    }
    CleanIsKept(text, ByShape);
    assert text[..7] == text;
    assert "" + (prefix + text) == prefix + text;
    HoldsShape(prefix + text, prefix, text);
  }

  lemma HoldsShape(all: string, prefix: string, text: string)
    requires prefix == PREFIX && all == prefix + text && |text| >= 6 && forall i :: 0 <= i < 6 ==> InClass(text[i])
    ensures !Clean(all, ByShape)
  {
    assert all[0..] == all && all[..4] == prefix && forall i :: 4 <= i < 10 ==> all[i] == text[i - 4];
    ShapeMatches(all);
  }

  predicate OpensWork(writes: seq<Entry>) { forall e :: e in writes ==> e.luck.opens }

  lemma WholeStep(s: LogState, e: Entry)
    requires s.open && Whole(e) && e.luck.opens
    ensures Taken(s, e.text, e.luck) == Redacted(e.text) && Next(s, e.text, e.luck).open
  {
    TakeAll(Redacted(e.text));
  }

  lemma {:induction false} StreamIsRedactedText(writes: seq<Entry>)
    requires AllWhole(writes) && OpensWork(writes)
    ensures After(Files("", ""), writes).open
    ensures Stream(Files("", ""), writes) == Redacted(TextOf(writes))
    ensures EndsLine(TextOf(writes))
  {
    if writes != [] {
      var earlier, e := writes[..|writes| - 1], writes[|writes| - 1];
      assert e in writes && forall x :: x in earlier ==> x in writes;
      StreamIsRedactedText(earlier);
      RedactedInPieces(TextOf(earlier), e.text);
      WholeStep(After(Files("", ""), earlier), e);
    }
  }

  /**
   * Started with no log at all, and as long as the renames work too, the two files together are the end
   * of the redaction of everything logged, read as one text.
   */
  lemma FilesEndTheText(writes: seq<Entry>)
    requires AllWhole(writes) && OpensWork(writes) && RenamesWork(writes)
    ensures var s := After(Files("", ""), writes);
      EndsWith(Redacted(TextOf(writes)), s.files.previous + s.files.current)
  {
    FilesAreTheEnd(Files("", ""), writes);
    StreamIsRedactedText(writes);
  }
}
