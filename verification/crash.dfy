/**
 * A running agent whose machine may lose power at any moment: agent.json and the copy beside it as a
 * two-copy commit protocol (keepConfigBackup, save and storeToken in cmd/gwatch-agent/configfile.go,
 * run by cmd/gwatch-agent/main.go and takeToken in cmd/gwatch-agent/checkin.go).
 */
module CrashSafety {
  import opened Wrappers
  import opened ConfigDocs

  /** What the agent is doing. `token` is the one it presents to GWatch, `next` its replacement. */
  datatype Phase =
    | Off
    | Started(token: Raw)                              // settings read, the copy not yet seen to
    | Keeping(token: Raw, body: Lines)                 // writing the copy
    | Running(token: Raw)
    | SavingFile(token: Raw, next: Raw, body: Lines)   // writing the file
    | SavingCopy(token: Raw, next: Raw, body: Lines)   // the file is written; writing the copy

  /** `docs` are the documents whose save has begun, oldest first; `committed` is the last whose save returned. */
  datatype State = State(file: Content, bak: Content, phase: Phase, docs: seq<Doc>, committed: nat)

  ghost predicate Init(s: State) {
    s.phase == Off && s.file.Whole? && s.docs == [Parse(s.file.lines)] && TOKEN in s.docs[0] && s.committed == 0
  }

  /* ---------- The steps ---------- */

  ghost predicate Start(s: State, t: State) {
    && s.phase == Off && LoadDoc(s.file, s.bak).Ok? && TOKEN in LoadDoc(s.file, s.bak).value.raw
    && t == s.(phase := Started(LoadDoc(s.file, s.bak).value.raw[TOKEN]))
  }

  /** keepConfigBackup finds nothing to do: the copy is the same, or the file is damaged. */
  ghost predicate KeepNothing(s: State, t: State) {
    s.phase.Started? && !WantsBackup(s.file, s.bak) && t == s.(phase := Running(s.phase.token))
  }

  ghost predicate KeepBegins(s: State, t: State) {
    s.phase.Started? && WantsBackup(s.file, s.bak) && t == s.(phase := Keeping(s.phase.token, s.file.lines))
  }

  ghost predicate KeepEnds(s: State, t: State) {
    s.phase.Keeping? && t == s.(phase := Running(s.phase.token), bak := Whole(s.phase.body))
  }

  /** The copy cannot be written; the agent runs on with whatever copy there is. */
  ghost predicate KeepFails(s: State, t: State) {
    s.phase.Keeping? && t == s.(phase := Running(s.phase.token))
  }

  /** storeToken reads the document again, changes its token and begins to save it. */
  ghost predicate SaveBegins(known: seq<Name>, s: State, t: State, next: Raw, body: Lines) {
    && s.phase.Running? && LoadDoc(s.file, s.bak).Ok?
    && var doc := LoadDoc(s.file, s.bak).value.raw[TOKEN := next];
       IsWritten(known, doc, body)
       && t == s.(phase := SavingFile(s.phase.token, next, body), docs := s.docs + [doc])
  }

  ghost predicate FileSaved(s: State, t: State) {
    s.phase.SavingFile? &&
      t == s.(phase := SavingCopy(s.phase.token, s.phase.next, s.phase.body), file := Whole(s.phase.body))
  }

  /** The file cannot be written: the save fails, and the agent keeps its token. */
  ghost predicate SaveFails(s: State, t: State) {
    s.phase.SavingFile? && t == s.(phase := Running(s.phase.token))
  }

  /** The save returns, and only now is the new token presented; the copy may have failed. */
  ghost predicate Returns(s: State, t: State, bak: Content) {
    && s.phase.SavingCopy? && s.docs != []
    && t == s.(phase := Running(s.phase.next), bak := bak, committed := |s.docs| - 1)
  }

  ghost predicate SaveEnds(s: State, t: State) { s.phase.SavingCopy? && Returns(s, t, Whole(s.phase.body)) }

  ghost predicate CopyFails(s: State, t: State) { Returns(s, t, s.bak) }

  /** A write cut off leaves what was there, what was to be there, or something damaged. */
  ghost predicate CutOff(was: Content, body: Lines, now: Content) { now == was || now == Whole(body) || Damaged(now) }

  ghost predicate Crash(s: State, t: State) {
    && s.phase != Off && t == s.(phase := Off, file := t.file, bak := t.bak)
    && (if s.phase.SavingFile? then CutOff(s.file, s.phase.body, t.file) else t.file == s.file)
    && (if s.phase.Keeping? || s.phase.SavingCopy? then CutOff(s.bak, s.phase.body, t.bak) else t.bak == s.bak)
  }

  /** A step in which no write of the copy fails. */
  ghost predicate NextCopied(known: seq<Name>, s: State, t: State) {
    || Start(s, t) || KeepNothing(s, t) || KeepBegins(s, t) || KeepEnds(s, t)
    || (exists next, body :: SaveBegins(known, s, t, next, body))
    || FileSaved(s, t) || SaveFails(s, t) || SaveEnds(s, t) || Crash(s, t)
  }

  ghost predicate Next(known: seq<Name>, s: State, t: State) {
    NextCopied(known, s, t) || KeepFails(s, t) || CopyFails(s, t)
  }

  ghost predicate StepAt(known: seq<Name>, trace: seq<State>, i: nat)
    requires i + 1 < |trace|
  {
    Next(known, trace[i], trace[i + 1])
  }

  ghost predicate Run(known: seq<Name>, trace: seq<State>) {
    && trace != [] && Init(trace[0])
    && forall i {:trigger StepAt(known, trace, i)} :: 0 <= i < |trace| - 1 ==> StepAt(known, trace, i)
  }

  ghost predicate CopiedAt(known: seq<Name>, trace: seq<State>, i: nat)
    requires i + 1 < |trace|
  {
    NextCopied(known, trace[i], trace[i + 1])
  }

  /** No write of the copy fails before `j`. */
  ghost predicate CopiesWork(known: seq<Name>, trace: seq<State>, j: nat)
    requires j < |trace|
  {
    forall m {:trigger CopiedAt(known, trace, m)} :: 0 <= m < j ==> CopiedAt(known, trace, m)
  }

  /* ---------- What is read ---------- */

  /** Reading gives document `k`. */
  ghost predicate Loads(s: State, k: nat) {
    k < |s.docs| && LoadDoc(s.file, s.bak).Ok? && LoadDoc(s.file, s.bak).value.raw == s.docs[k]
  }

  /** Reading gives a document no older than `least`. */
  ghost predicate LoadsFrom(s: State, least: nat) { exists k :: k >= least && Loads(s, k) }

  /** The copy holds document `k`. */
  ghost predicate CopyIs(s: State, k: nat) { k < |s.docs| && ReadBackup(s.bak) == Some(s.docs[k]) }

  ghost predicate CopyHolds(s: State, least: nat) { exists k :: k >= least && CopyIs(s, k) }

  ghost function TokenOf(doc: Doc): Option<Raw> { if TOKEN in doc then Some(doc[TOKEN]) else None }

  /** The token a restart would present. */
  ghost function RestartToken(s: State): Option<Raw> {
    if LoadDoc(s.file, s.bak).Ok? then TokenOf(LoadDoc(s.file, s.bak).value.raw) else None
  }

  lemma NotEmpty(d: Doc)
    requires TOKEN in d
    ensures d != map[]
  {
  }

  /** A document with a token is read from a whole file, or from a whole copy of a damaged one. */
  lemma ReadFrom(s: State, k: nat)
    requires k < |s.docs| && TOKEN in s.docs[k]
    ensures Loads(s, k) <==> (s.file.Whole? && Parse(s.file.lines) == s.docs[k]) || (Damaged(s.file) && CopyIs(s, k))
  {
    NotEmpty(s.docs[k]);
  }

  /* ---------- What every step keeps, whatever was lost before ---------- */

  ghost predicate DocsSound(s: State) {
    s.docs != [] && s.committed < |s.docs| && forall d :: d in s.docs ==> TOKEN in d
  }

  /** A body being written is the last document, with the new token. */
  ghost predicate Writes(s: State, next: Raw, body: Lines)
    requires DocsSound(s)
  {
    Parse(body) == s.docs[|s.docs| - 1] && Parse(body)[TOKEN] == next
  }

  /** The agent presents what a restart would, but while it writes the copy of what it saves. */
  ghost predicate Steady(s: State) {
    DocsSound(s) &&
    match s.phase
    case Off => true
    case Started(t) => RestartToken(s) == Some(t)
    case Keeping(t, body) => RestartToken(s) == Some(t) && s.file == Whole(body)
    case Running(t) => RestartToken(s) == Some(t)
    case SavingFile(t, next, body) => RestartToken(s) == Some(t) && Writes(s, next, body)
    case SavingCopy(t, next, body) => s.file == Whole(body) && Writes(s, next, body)
  }

  lemma SaveBeginsSteady(known: seq<Name>, s: State, t: State, next: Raw, body: Lines)
    requires NoDup(known) && Steady(s) && SaveBegins(known, s, t, next, body)
    ensures Steady(t) && s.docs <= t.docs
  {
    ReadsBack(known, LoadDoc(s.file, s.bak).value.raw[TOKEN := next], body);
  }

  lemma NextSteady(known: seq<Name>, s: State, t: State)
    requires NoDup(known) && Steady(s) && Next(known, s, t)
    ensures Steady(t) && s.docs <= t.docs && s.committed <= t.committed
  {
    if next, body :| SaveBegins(known, s, t, next, body) { SaveBeginsSteady(known, s, t, next, body); }
  }

  lemma {:induction false} RunSteady(known: seq<Name>, trace: seq<State>, i: nat)
    requires NoDup(known) && Run(known, trace) && i < |trace|
    ensures Steady(trace[i])
  {
    if i > 0 {
      RunSteady(known, trace, i - 1);
      assert StepAt(known, trace, i - 1);
      NextSteady(known, trace[i - 1], trace[i]);
    }
  }

  /* ---------- The tokens ---------- */

  /**
   * The token a running agent presents is the one a restart would load, except between the moment the file
   * is written and the moment its save returns, when a restart would load the replacement.
   */
  lemma TokensSurvive(known: seq<Name>, trace: seq<State>, i: nat)
    requires NoDup(known) && Run(known, trace) && i < |trace| && trace[i].phase != Off
    ensures var s := trace[i];
      && RestartToken(s) == Some(if s.phase.SavingCopy? then s.phase.next else s.phase.token)
      && (RestartToken(s) == Some(s.phase.token) <==> !s.phase.SavingCopy? || s.phase.next == s.phase.token)
  {
    RunSteady(known, trace, i);
  }

  /** The copy holds one of the two tokens there are while a save is under way. */
  ghost predicate CopyHasToken(s: State)
    requires s.phase.SavingFile?
  {
    ReadBackup(s.bak).Some? && TokenOf(ReadBackup(s.bak).value) in {Some(s.phase.token), Some(s.phase.next)}
  }

  /**
   * A power cut leaves the token a restart would load, or in the write of the file its replacement, which
   * there takes a copy with the one or the other.
   */
  lemma TokensSurviveCuts(known: seq<Name>, trace: seq<State>, i: nat)
    requires NoDup(known) && Run(known, trace) && i < |trace| && trace[i].phase != Off
    ensures var s := trace[i];
      && (!s.phase.SavingFile? ==> forall t :: Crash(s, t) ==> RestartToken(t) == RestartToken(s))
      && (s.phase.SavingFile? ==>
            ((forall t :: Crash(s, t) ==> RestartToken(t) in {Some(s.phase.token), Some(s.phase.next)}) <==>
              CopyHasToken(s)))
  {
    RunSteady(known, trace, i);
    var s := trace[i];
    if s.phase.SavingFile? {
      CutsInFile(s);
    } else {
      forall t | Crash(s, t) ensures RestartToken(t) == RestartToken(s) { CutElsewhere(s, t); }
    }
  }

  lemma CutElsewhere(s: State, t: State)
    requires Steady(s) && Crash(s, t) && !s.phase.SavingFile?
    ensures LoadDoc(t.file, t.bak) == LoadDoc(s.file, s.bak)
  {
  }

  lemma CutsInFile(s: State)
    requires Steady(s) && s.phase.SavingFile?
    ensures (forall t :: Crash(s, t) ==> RestartToken(t) in {Some(s.phase.token), Some(s.phase.next)}) <==>
      CopyHasToken(s)
  {
    var cut := s.(phase := Off, file := Blank);
    assert Crash(s, cut);
  }

  /* ---------- Where the power may be cut ---------- */

  /** A power cut in the write of a file asks something of the copy, any other nothing. */
  ghost predicate Harmless(s: State, t: State, least: nat) {
    s.phase.SavingFile? && Crash(s, t) ==> CopyHolds(s, least)
  }

  /** What a step leaves to be read is no older than what was there to be read. */
  lemma NextLoads(known: seq<Name>, s: State, t: State, least: nat)
    requires NoDup(known) && Steady(s) && Next(known, s, t) && LoadsFrom(s, least) && Harmless(s, t, least)
    ensures LoadsFrom(t, least)
  {
    var k :| k >= least && Loads(s, k);
    NextSteady(known, s, t);
    assert s.docs[k] in s.docs && t.docs[k] == s.docs[k];
    ReadFrom(s, k);
    if Crash(s, t) {
      CrashLoads(s, t, k, least);
    } else if s.phase.SavingCopy? || FileSaved(s, t) {
      assert Loads(t, |t.docs| - 1);
    } else {
      assert Loads(t, k);
    }
  }

  lemma CrashLoads(s: State, t: State, k: nat, least: nat)
    requires Steady(s) && Crash(s, t) && k >= least && Loads(s, k) && (s.phase.SavingFile? ==> CopyHolds(s, least))
    ensures LoadsFrom(t, least)
  {
    if !s.phase.SavingFile? {
      CutElsewhere(s, t);
      assert Loads(t, k);
    } else if t.file == s.file {
      assert Loads(t, k);
    } else if t.file == Whole(s.phase.body) {
      assert Loads(t, |s.docs| - 1);
    } else {
      var c :| c >= least && CopyIs(s, c);
      ReadFrom(t, c);
    }
  }

  /** Returning, a save commits what is there to be read. */
  lemma NextCommits(known: seq<Name>, s: State, t: State)
    requires NoDup(known) && Steady(s) && Next(known, s, t)
    requires LoadsFrom(s, s.committed) && Harmless(s, t, s.committed)
    ensures LoadsFrom(t, t.committed)
  {
    NextLoads(known, s, t, s.committed);
    if s.phase.SavingCopy? && s.committed != t.committed { assert Loads(t, |t.docs| - 1); }
  }

  ghost predicate HarmlessAt(trace: seq<State>, least: nat, m: nat)
    requires m + 1 < |trace|
  {
    Harmless(trace[m], trace[m + 1], least)
  }

  /** Between `i` and `j` no write of the file is cut whose copy is older than `least`. */
  ghost predicate Guarded(trace: seq<State>, least: nat, i: nat, j: nat)
    requires j < |trace|
  {
    forall m {:trigger HarmlessAt(trace, least, m)} :: i <= m < j ==> HarmlessAt(trace, least, m)
  }

  ghost predicate CommitKeptAt(trace: seq<State>, m: nat)
    requires m + 1 < |trace|
  {
    Harmless(trace[m], trace[m + 1], trace[m].committed)
  }

  /** Before `j` no write of the file is cut whose copy is older than what was committed then. */
  ghost predicate CommitsGuarded(trace: seq<State>, j: nat)
    requires j < |trace|
  {
    forall m {:trigger CommitKeptAt(trace, m)} :: 0 <= m < j ==> CommitKeptAt(trace, m)
  }

  /** Only the token tells two of the documents apart. */
  ghost predicate SameButToken(a: Doc, b: Doc) { TOKEN in a && TOKEN in b && a - {TOKEN} == b - {TOKEN} }

  ghost predicate AllSame(docs: seq<Doc>) { docs != [] && forall d :: d in docs ==> SameButToken(docs[0], d) }

  lemma SetsOnlyToken(a: Doc, b: Doc, next: Raw)
    requires SameButToken(a, b)
    ensures SameButToken(a, b[TOKEN := next])
  {
    assert b[TOKEN := next] - {TOKEN} == b - {TOKEN};
  }

  lemma NextAllSame(known: seq<Name>, s: State, t: State)
    requires Next(known, s, t) && AllSame(s.docs) && LoadsFrom(s, 0)
    ensures AllSame(t.docs)
  {
    if next, body :| SaveBegins(known, s, t, next, body) {
      var k :| k >= 0 && Loads(s, k);
      assert s.docs[k] in s.docs;
      SetsOnlyToken(s.docs[0], s.docs[k], next);
    }
  }

  lemma {:induction false} RunCommits(known: seq<Name>, trace: seq<State>, i: nat)
    requires NoDup(known) && Run(known, trace) && i < |trace| && CommitsGuarded(trace, i)
    ensures LoadsFrom(trace[i], trace[i].committed) && AllSame(trace[i].docs)
  {
    if i == 0 {
      assert Loads(trace[0], 0);
      assert trace[0].docs[0] - {TOKEN} == trace[0].docs[0] - {TOKEN};
    } else {
      RunCommits(known, trace, i - 1);
      RunSteady(known, trace, i - 1);
      assert StepAt(known, trace, i - 1) && CommitKeptAt(trace, i - 1);
      NextCommits(known, trace[i - 1], trace[i]);
      NextAllSame(known, trace[i - 1], trace[i]);
    }
  }

  /**
   * However often the power is cut, as long as no write of the file is cut whose copy is older than what
   * was committed: one of the two files is whole, and reading them gives the last document whose save
   * returned or one whose save began later, which differs from the first in nothing but its token.
   */
  lemma SettingsSurvive(known: seq<Name>, trace: seq<State>, i: nat) returns (k: nat)
    requires NoDup(known) && Run(known, trace) && i < |trace| && CommitsGuarded(trace, i)
    ensures var s := trace[i];
      && (s.file.Whole? || s.bak.Whole?)
      && s.committed <= k < |s.docs| && Loads(s, k) && SameButToken(s.docs[0], s.docs[k])
  {
    RunCommits(known, trace, i);
    var s := trace[i];
    k :| k >= s.committed && Loads(s, k);
    assert s.docs[k] in s.docs;
    ReadFrom(s, k);
  }

  /**
   * What is there to be read at any moment of any run, harmful cuts before it or not, is not lost to
   * anything older, as long as no write of the file is cut whose copy is.
   */
  lemma {:induction false} NeverGoesBack(known: seq<Name>, trace: seq<State>, least: nat, i: nat, j: nat)
    requires NoDup(known) && Run(known, trace) && i <= j < |trace|
    requires LoadsFrom(trace[i], least) && Guarded(trace, least, i, j)
    ensures LoadsFrom(trace[j], least)
    decreases j
  {
    if i < j {
      NeverGoesBack(known, trace, least, i, j - 1);
      RunSteady(known, trace, j - 1);
      assert StepAt(known, trace, j - 1) && HarmlessAt(trace, least, j - 1);
      NextLoads(known, trace[j - 1], trace[j], least);
    }
  }

  /**
   * The copy decides, before a save begins to write: whatever a power cut in the write of the file leaves,
   * nothing older than `least` is read, exactly when neither reading nor the copy alone gives anything older.
   */
  lemma CopyDecides(known: seq<Name>, trace: seq<State>, i: nat, least: nat)
    requires NoDup(known) && Run(known, trace) && i < |trace| && trace[i].phase.SavingFile?
    ensures (forall t :: Crash(trace[i], t) ==> LoadsFrom(t, least)) <==>
      LoadsFrom(trace[i], least) && CopyHolds(trace[i], least)
  {
    RunSteady(known, trace, i);
    var s := trace[i];
    if forall t :: Crash(s, t) ==> LoadsFrom(t, least) { CutsTell(s, least); }
    if LoadsFrom(s, least) && CopyHolds(s, least) {
      var k :| k >= least && Loads(s, k);
      forall t | Crash(s, t) ensures LoadsFrom(t, least) { CrashLoads(s, t, k, least); }
    }
  }

  lemma CutsTell(s: State, least: nat)
    requires Steady(s) && s.phase.SavingFile? && forall t :: Crash(s, t) ==> LoadsFrom(t, least)
    ensures LoadsFrom(s, least) && CopyHolds(s, least)
  {
    var same, cut := s.(phase := Off), s.(phase := Off, file := Blank);
    assert Crash(s, same) && Crash(s, cut);
    var k :| k >= least && Loads(same, k);
    assert Loads(s, k);
    var c :| c >= least && Loads(cut, c);
    assert s.docs[c] in s.docs;
    ReadFrom(cut, c);
    assert CopyIs(s, c);
  }

  /* ---------- When no write of the copy fails ---------- */

  /** From before the first save on, the copy holds what reading gives. */
  ghost predicate Copied(s: State) {
    s.phase.Running? || s.phase.SavingFile? ==>
      LoadDoc(s.file, s.bak).Ok? && ReadBackup(s.bak) == Some(LoadDoc(s.file, s.bak).value.raw)
  }

  lemma NextKeepsCopied(known: seq<Name>, s: State, t: State)
    requires NoDup(known) && Steady(s) && Copied(s) && NextCopied(known, s, t)
    ensures Copied(t)
  {
    if KeepNothing(s, t) { NotEmpty(LoadDoc(s.file, s.bak).value.raw); }
    else if KeepEnds(s, t) { NotEmpty(LoadDoc(s.file, s.bak).value.raw); }
    else if SaveEnds(s, t) { NotEmpty(Parse(s.phase.body)); }
  }

  lemma {:induction false} RunCopied(known: seq<Name>, trace: seq<State>, i: nat)
    requires NoDup(known) && Run(known, trace) && i < |trace| && CopiesWork(known, trace, i)
    ensures Copied(trace[i])
  {
    if i > 0 {
      RunCopied(known, trace, i - 1);
      RunSteady(known, trace, i - 1);
      assert CopiedAt(known, trace, i - 1);
      NextKeepsCopied(known, trace[i - 1], trace[i]);
    }
  }

  /** Then the power may be cut anywhere. */
  lemma {:induction false} WorkingCopiesGuard(known: seq<Name>, trace: seq<State>, least: nat, i: nat, j: nat)
    requires NoDup(known) && Run(known, trace) && i <= j < |trace| && CopiesWork(known, trace, j)
    requires LoadsFrom(trace[i], least)
    ensures Guarded(trace, least, i, j) && LoadsFrom(trace[j], least)
    decreases j
  {
    if i < j {
      WorkingCopiesGuard(known, trace, least, i, j - 1);
      RunCopied(known, trace, j - 1);
      CopiedIsHarmless(trace[j - 1], trace[j], least);
      assert HarmlessAt(trace, least, j - 1);
      NeverGoesBack(known, trace, least, i, j);
    }
  }

  lemma CopiedIsHarmless(s: State, t: State, least: nat)
    requires Copied(s) && LoadsFrom(s, least)
    ensures Harmless(s, t, least)
  {
    var k :| k >= least && Loads(s, k);
    if s.phase.SavingFile? { assert CopyIs(s, k); }
  }

  lemma {:induction false} CopiesGuardCommits(known: seq<Name>, trace: seq<State>, j: nat)
    requires NoDup(known) && Run(known, trace) && j < |trace| && CopiesWork(known, trace, j)
    ensures CommitsGuarded(trace, j)
    decreases j
  {
    if j > 0 {
      CopiesGuardCommits(known, trace, j - 1);
      RunCommits(known, trace, j - 1);
      RunCopied(known, trace, j - 1);
      CopiedIsHarmless(trace[j - 1], trace[j], trace[j - 1].committed);
      assert CommitKeptAt(trace, j - 1);
    }
  }

  /** As long as the copy can be written nothing is lost, and nothing older comes back, wherever the power is cut. */
  lemma CopiesKeepAll(known: seq<Name>, trace: seq<State>, i: nat, j: nat, least: nat) returns (k: nat)
    requires NoDup(known) && Run(known, trace) && i <= j < |trace| && CopiesWork(known, trace, j)
    requires LoadsFrom(trace[i], least)
    ensures var s := trace[j];
      && (s.file.Whole? || s.bak.Whole?)
      && s.committed <= k && Loads(s, k) && SameButToken(s.docs[0], s.docs[k])
      && LoadsFrom(s, least)
  {
    CopiesGuardCommits(known, trace, j);
    k := SettingsSurvive(known, trace, j);
    WorkingCopiesGuard(known, trace, least, i, j);
  }

  /* ---------- Two runs ---------- */

  lemma OneMoreStep(known: seq<Name>, trace: seq<State>, t: State)
    requires Run(known, trace) && Next(known, trace[|trace| - 1], t)
    ensures Run(known, trace + [t])
  {
    forall i | 0 <= i < |trace + [t]| - 1 ensures StepAt(known, trace + [t], i) {
      if i < |trace| - 1 { assert StepAt(known, trace, i); }
    }
  }

  /** The copy is seen to, and the agent runs on with what it read. */
  lemma KeepsCopy(known: seq<Name>, trace: seq<State>) returns (more: seq<State>)
    requires Run(known, trace) && trace[|trace| - 1].phase.Started? && trace[|trace| - 1].file.Whole?
    requires Parse(trace[|trace| - 1].file.lines) != map[]
    ensures Run(known, more) && more[0] == trace[0]
    ensures var s := trace[|trace| - 1]; more[|more| - 1] == s.(phase := Running(s.phase.token), bak := s.file)
  {
    var s := trace[|trace| - 1];
    var kept := s.(phase := Running(s.phase.token), bak := s.file);
    if WantsBackup(s.file, s.bak) {
      var keeping := s.(phase := Keeping(s.phase.token, s.file.lines));
      assert KeepBegins(s, keeping);
      OneMoreStep(known, trace, keeping);
      assert KeepEnds(keeping, kept);
      OneMoreStep(known, trace + [keeping], kept);
      more := trace + [keeping] + [kept];
    } else {
      assert KeepNothing(s, kept);
      OneMoreStep(known, trace, kept);
      more := trace + [kept];
    }
  }

  /** The agent starts on its whole file and sees to the copy. */
  lemma Starts(known: seq<Name>, start: State) returns (trace: seq<State>)
    requires Init(start)
    ensures Run(known, trace) && trace[0] == start
    ensures trace[|trace| - 1] == start.(phase := Running(start.docs[0][TOKEN]), bak := start.file)
  {
    var doc := start.docs[0];
    NotEmpty(doc);
    assert doc in start.docs;
    var started := start.(phase := Started(doc[TOKEN]));
    assert Start(start, started);
    assert Run(known, [start]);
    OneMoreStep(known, [start], started);
    trace := KeepsCopy(known, [start, started]);
  }

  lemma SavesFile(known: seq<Name>, trace: seq<State>, doc: Doc, next: Raw, body: Lines) returns (more: seq<State>)
    requires Run(known, trace) && IsWritten(known, doc[TOKEN := next], body)
    requires var s := trace[|trace| - 1];
      s.phase.Running? && s.file.Whole? && Parse(s.file.lines) == doc
    ensures Run(known, more) && more[0] == trace[0]
    ensures var s, t := trace[|trace| - 1], more[|more| - 1];
      && t.phase == SavingFile(s.phase.token, next, body)
      && t == s.(phase := t.phase, docs := s.docs + [doc[TOKEN := next]])
  {
    var s := trace[|trace| - 1];
    var saving := s.(phase := SavingFile(s.phase.token, next, body), docs := s.docs + [doc[TOKEN := next]]);
    assert SaveBegins(known, s, saving, next, body);
    OneMoreStep(known, trace, saving);
    more := trace + [saving];
  }

  lemma WritesFile(known: seq<Name>, trace: seq<State>) returns (more: seq<State>)
    requires Run(known, trace) && trace[|trace| - 1].phase.SavingFile?
    ensures Run(known, more) && more[0] == trace[0]
    ensures var s, p, t := trace[|trace| - 1], trace[|trace| - 1].phase, more[|more| - 1];
      t == s.(phase := SavingCopy(p.token, p.next, p.body), file := Whole(p.body))
  {
    var s := trace[|trace| - 1];
    var saved := s.(phase := SavingCopy(s.phase.token, s.phase.next, s.phase.body), file := Whole(s.phase.body));
    assert FileSaved(s, saved);
    OneMoreStep(known, trace, saved);
    more := trace + [saved];
  }

  /** Any agent given a new token comes to a moment when a restart would load another than the one it presents. */
  lemma TokenWindow(known: seq<Name>, start: State, next: Raw, body: Lines) returns (trace: seq<State>)
    requires NoDup(known) && Init(start) && next != start.docs[0][TOKEN]
    requires IsWritten(known, start.docs[0][TOKEN := next], body)
    ensures Run(known, trace) && trace[0] == start
    ensures var s := trace[|trace| - 1];
      && s.phase == SavingCopy(start.docs[0][TOKEN], next, body)
      && RestartToken(s) == Some(next) && RestartToken(s) != Some(s.phase.token)
  {
    trace := Starts(known, start);
    trace := SavesFile(known, trace, start.docs[0], next, body);
    trace := WritesFile(known, trace);
    ReadsBack(known, start.docs[0][TOKEN := next], body);
  }

  /**
   * A save that returned although its copy could not be written, and then a power cut in the next write
   * of the file: what is read is older than what was committed.
   */
  lemma FailedCopyGoesBack(known: seq<Name>, start: State, one: Raw, two: Raw, b1: Lines, b2: Lines)
    returns (trace: seq<State>)
    requires NoDup(known) && Init(start) && one != start.docs[0][TOKEN] && two != start.docs[0][TOKEN]
    requires IsWritten(known, start.docs[0][TOKEN := one], b1) &&
      IsWritten(known, start.docs[0][TOKEN := one][TOKEN := two], b2)
    ensures Run(known, trace) && trace[0] == start
    ensures var end := trace[|trace| - 1]; end.committed == 1 && Loads(end, 0) && !LoadsFrom(end, end.committed)
  {
    var doc := start.docs[0];
    trace := Starts(known, start);
    trace := SavesFile(known, trace, doc, one, b1);
    trace := WritesFile(known, trace);
    var saved := trace[|trace| - 1];
    var back := saved.(phase := Running(one), committed := 1);
    assert CopyFails(saved, back);
    OneMoreStep(known, trace, back);
    ReadsBack(known, doc[TOKEN := one], b1);
    trace := SavesFile(known, trace + [back], doc[TOKEN := one], two, b2);
    var saving := trace[|trace| - 1];
    var cut := saving.(phase := Off, file := Blank);
    assert Crash(saving, cut);
    OneMoreStep(known, trace, cut);
    trace := trace + [cut];
    NotEmpty(doc);
    assert cut.docs == [doc, doc[TOKEN := one], doc[TOKEN := one][TOKEN := two]];
  }

  /* ---------- Why the copy is seen to first ---------- */

  /** Running without keepConfigBackup. */
  ghost predicate SkipsKeeping(s: State, t: State) { s.phase.Started? && t == s.(phase := Running(s.phase.token)) }

  ghost predicate NextWithoutKeeping(known: seq<Name>, s: State, t: State) { Next(known, s, t) || SkipsKeeping(s, t) }

  ghost predicate StepWithoutKeeping(known: seq<Name>, trace: seq<State>, i: nat)
    requires i + 1 < |trace|
  {
    NextWithoutKeeping(known, trace[i], trace[i + 1])
  }

  ghost predicate RunWithoutKeeping(known: seq<Name>, trace: seq<State>) {
    && trace != [] && Init(trace[0])
    && forall i {:trigger StepWithoutKeeping(known, trace, i)} :: 0 <= i < |trace| - 1 ==>
      StepWithoutKeeping(known, trace, i)
  }

  lemma OneMoreWithout(known: seq<Name>, trace: seq<State>, t: State)
    requires RunWithoutKeeping(known, trace) && NextWithoutKeeping(known, trace[|trace| - 1], t)
    ensures RunWithoutKeeping(known, trace + [t])
  {
    forall i | 0 <= i < |trace + [t]| - 1 ensures StepWithoutKeeping(known, trace + [t], i) {
      if i < |trace| - 1 { assert StepWithoutKeeping(known, trace, i); }
    }
  }

  /** The agent starts on a whole file and begins a save, the copy not seen to. */
  lemma SavesAtOnce(known: seq<Name>, trace: seq<State>, doc: Doc, next: Raw, body: Lines) returns (more: seq<State>)
    requires RunWithoutKeeping(known, trace) && TOKEN in doc && IsWritten(known, doc[TOKEN := next], body)
    requires var s := trace[|trace| - 1]; s.phase == Off && s.file.Whole? && Parse(s.file.lines) == doc
    ensures RunWithoutKeeping(known, more) && more[0] == trace[0]
    ensures var s, t := trace[|trace| - 1], more[|more| - 1];
      t == s.(phase := SavingFile(doc[TOKEN], next, body), docs := s.docs + [doc[TOKEN := next]])
  {
    var s := trace[|trace| - 1];
    var started := s.(phase := Started(doc[TOKEN]));
    assert Start(s, started);
    OneMoreWithout(known, trace, started);
    var running := started.(phase := Running(doc[TOKEN]));
    assert SkipsKeeping(started, running);
    OneMoreWithout(known, trace + [started], running);
    var saving := running.(phase := SavingFile(doc[TOKEN], next, body), docs := s.docs + [doc[TOKEN := next]]);
    assert SaveBegins(known, running, saving, next, body);
    OneMoreWithout(known, trace + [started] + [running], saving);
    more := trace + [started] + [running] + [saving];
  }

  /** Then two power cuts, one in each write of a save, are enough to lose everything. */
  lemma WithoutKeepingAllIsLost(known: seq<Name>, start: State, one: Raw, two: Raw, b1: Lines, b2: Lines)
    returns (trace: seq<State>)
    requires NoDup(known) && Init(start)
    requires IsWritten(known, start.docs[0][TOKEN := one], b1) &&
      IsWritten(known, start.docs[0][TOKEN := one][TOKEN := two], b2)
    ensures RunWithoutKeeping(known, trace) && trace[0] == start
    ensures var end := trace[|trace| - 1];
      !end.file.Whole? && !end.bak.Whole? && LoadDoc(end.file, end.bak) == Ok(Loaded(map[], true, false))
  {
    var doc := start.docs[0];
    assert RunWithoutKeeping(known, [start]);
    trace := SavesAtOnce(known, [start], doc, one, b1);
    var saving := trace[|trace| - 1];
    var copying := saving.(phase := SavingCopy(doc[TOKEN], one, b1), file := Whole(b1));
    assert FileSaved(saving, copying);
    OneMoreWithout(known, trace, copying);
    var cut := copying.(phase := Off, bak := Blank);
    assert Crash(copying, cut);
    OneMoreWithout(known, trace + [copying], cut);
    ReadsBack(known, doc[TOKEN := one], b1);
    trace := SavesAtOnce(known, trace + [copying] + [cut], doc[TOKEN := one], two, b2);
    saving := trace[|trace| - 1];
    cut := saving.(phase := Off, file := Blank);
    assert Crash(saving, cut);
    OneMoreWithout(known, trace, cut);
    trace := trace + [cut];
  }
}
