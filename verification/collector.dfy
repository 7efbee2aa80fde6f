/** The checks a machine runs for GWatch, brought in line with each check-in (cmd/gwatch-agent/collector.go). */
module Collector {
  import opened Wrappers

  const MAX_COLLECTOR_CHECKS := 500

  datatype CheckId = CheckId(number: int)

  /**
   * An assigned check: the key is its definition as text, and whether the definition is valid is all
   * that is known of what it measures.
   */
  datatype Check = Check(id: CheckId, key: string, valid: bool)

  datatype Assignment = Assignment(checks: seq<Check>, options: string)

  function Ids(checks: seq<Check>): (r: set<CheckId>)
    ensures forall id :: id in r <==> exists c :: c in checks && c.valid && c.id == id
  {
    set c | c in checks && c.valid :: c.id
  }

  /** The checks to run: later ones replace earlier ones of the same id, until the limit is reached. */
  function Wanted(checks: seq<Check>): map<CheckId, Check> {
    if checks == [] then map[]
    else
      var n := |checks| - 1;
      var before := Wanted(checks[..n]);
      if |before| == MAX_COLLECTOR_CHECKS || !checks[n].valid then before else before[checks[n].id := checks[n]]
  }

  lemma {:induction false} WantedStops(checks: seq<Check>, i: nat)
    requires i <= |checks| && |Wanted(checks[..i])| == MAX_COLLECTOR_CHECKS
    ensures Wanted(checks) == Wanted(checks[..i])
    decreases |checks|
  {
    if i == |checks| {
      TakeAll(checks);
    } else {
      var n := |checks| - 1;
      assert checks[..n][..i] == checks[..i];
      WantedStops(checks[..n], i);
    }
  }

  /** One check per valid id as long as there are no more than the limit, and the limit otherwise. */
  lemma {:induction false} WantedIs(checks: seq<Check>)
    ensures var w := Wanted(checks); var ids := Ids(checks);
      && w.Keys <= ids
      && |w| == (if |ids| <= MAX_COLLECTOR_CHECKS then |ids| else MAX_COLLECTOR_CHECKS)
      && (|ids| <= MAX_COLLECTOR_CHECKS ==> w.Keys == ids)
  {
    if checks != [] {
      var n := |checks| - 1;
      WantedIs(checks[..n]);
      TakeAll(checks);
      TakeMore(checks, n);
      OneMoreId(checks[..n], checks[n]);
      OneMoreWanted(Wanted(checks[..n]), Ids(checks[..n]), checks[n]);
    }
  }

  ghost predicate Proper(w: map<CheckId, Check>) {
    |w| <= MAX_COLLECTOR_CHECKS && forall id :: id in w ==> w[id].id == id && w[id].valid
  }

  lemma {:induction false} WantedAreProper(checks: seq<Check>)
    ensures Proper(Wanted(checks))
    ensures forall id :: id in Wanted(checks) ==> Wanted(checks)[id] in checks
  {
    if checks == [] {
      assert |Wanted(checks)| == 0;
    } else {
      var n := |checks| - 1;
      WantedAreProper(checks[..n]);
      assert checks[n] in checks && forall c :: c in checks[..n] ==> c in checks;
      WantedIs(checks);
    }
  }

  lemma OneMoreId(before: seq<Check>, c: Check)
    ensures Ids(before + [c]) == if c.valid then Ids(before) + {c.id} else Ids(before)
  {
    var all := before + [c];
    assert c in all && forall d :: d in all <==> d in before || d == c;
  }

  lemma OneMoreWanted(w: map<CheckId, Check>, ids: set<CheckId>, c: Check)
    requires w.Keys <= ids && (|ids| <= MAX_COLLECTOR_CHECKS ==> w.Keys == ids)
    requires |w| == if |ids| <= MAX_COLLECTOR_CHECKS then |ids| else MAX_COLLECTOR_CHECKS
    ensures var w1 := if |w| == MAX_COLLECTOR_CHECKS || !c.valid then w else w[c.id := c];
      var ids1 := if c.valid then ids + {c.id} else ids;
      && w1.Keys <= ids1 && (|ids1| <= MAX_COLLECTOR_CHECKS ==> w1.Keys == ids1)
      && |w1| == if |ids1| <= MAX_COLLECTOR_CHECKS then |ids1| else MAX_COLLECTOR_CHECKS
  {
    var ids1 := if c.valid then ids + {c.id} else ids;
    SizeAtLeast(ids, ids1);
    assert |w| == |w.Keys|;
    if |w| < MAX_COLLECTOR_CHECKS && c.valid {
      var w1 := w[c.id := c];
      assert w1.Keys == ids1 && |w1| == |w1.Keys|;
    } else if |ids1| <= MAX_COLLECTOR_CHECKS {
      SameSize(ids, ids1);
    }
  }

  lemma SizeAtLeast<T>(a: set<T>, b: set<T>)
    requires a <= b
    ensures |a| <= |b|
  {
    assert b == a + (b - a);
  }

  lemma SameSize<T>(a: set<T>, b: set<T>)
    requires a <= b && |b| <= |a|
    ensures a == b
  {
    SizeAtLeast(a, b);
    assert b == a + (b - a);
    assert |b - a| == 0;
  }

  /** Which definition wins: the last valid one of its id, among those read before the limit was reached. */
  lemma {:induction false} LastOneWins(checks: seq<Check>, i: nat)
    requires i < |checks| && checks[i].valid && |Wanted(checks[..i])| < MAX_COLLECTOR_CHECKS
    requires forall j :: i < j < |checks| && checks[j].valid ==> checks[j].id != checks[i].id
    ensures checks[i].id in Wanted(checks) && Wanted(checks)[checks[i].id] == checks[i]
    decreases |checks|
  {
    var n := |checks| - 1;
    if i < n {
      assert checks[..n][..i] == checks[..i];
      LastOneWins(checks[..n], i);
    }
  }

  /** Until the first `n` checks have the most different ids there may be, none is left unread. */
  ghost predicate ReadUpTo(checks: seq<Check>, n: nat) {
    && n <= |checks| && (forall m :: 0 <= m < n ==> |Ids(checks[..m])| < MAX_COLLECTOR_CHECKS)
    && (n < |checks| ==> |Ids(checks[..n])| == MAX_COLLECTOR_CHECKS)
  }

  lemma ReadsUpTo(checks: seq<Check>) returns (n: nat)
    ensures ReadUpTo(checks, n) && |Ids(checks[..n])| <= MAX_COLLECTOR_CHECKS
  {
    n := 0;
    assert Ids(checks[..0]) == {};
    while n < |checks| && |Ids(checks[..n])| < MAX_COLLECTOR_CHECKS
      invariant n <= |checks| && |Ids(checks[..n])| <= MAX_COLLECTOR_CHECKS
      invariant forall m :: 0 <= m < n ==> |Ids(checks[..m])| < MAX_COLLECTOR_CHECKS
    {
      TakeMore(checks, n);
      OneMoreId(checks[..n], checks[n]);
      n := n + 1;
    }
  }

  /** A valid definition with no later one of its id. */
  ghost predicate LastOfIts(checks: seq<Check>, i: nat) {
    i < |checks| && checks[i].valid &&
    forall j :: i < j < |checks| && checks[j].valid ==> checks[j].id != checks[i].id
  }

  lemma LastReadWins(checks: seq<Check>, n: nat, i: nat)
    requires ReadUpTo(checks, n) && i < n && LastOfIts(checks[..n], i)
    ensures var w := Wanted(checks[..n]); checks[i].id in w && w[checks[i].id] == checks[i]
  {
    assert checks[..n][..i] == checks[..i] && checks[..n][i] == checks[i];
    WantedIs(checks[..i]);
    LastOneWins(checks[..n], i);
  }

  /**
   * Checks are read in order until there are as many different ids as there may be; of what was read every
   * valid id is wanted, with the last valid definition of it.
   */
  lemma WantedFromRead(checks: seq<Check>) returns (n: nat)
    ensures ReadUpTo(checks, n) && Wanted(checks).Keys == Ids(checks[..n])
    ensures forall i {:trigger checks[i]} :: 0 <= i < n && LastOfIts(checks[..n], i) ==>
      checks[i].id in Wanted(checks) && Wanted(checks)[checks[i].id] == checks[i]
  {
    n := ReadsUpTo(checks);
    WantedIs(checks[..n]);
    if n < |checks| { WantedStops(checks, n); } else { TakeAll(checks); }
    forall i | 0 <= i < n && LastOfIts(checks[..n], i)
      ensures checks[i].id in Wanted(checks) && Wanted(checks)[checks[i].id] == checks[i]
    {
      LastReadWins(checks, n, i);
    }
  }

  /** A check that is being run over and over; the serial number says in which order jobs were started. */
  datatype Job = Job(serial: nat, def: Check)

  /** The runner between check-ins; `stopped` are the jobs whose context has been cancelled. */
  datatype Table = Table(jobs: map<CheckId, Job>, options: string, active: bool, started: seq<Job>, stopped: set<Job>)

  ghost predicate Started(started: seq<Job>, j: Job) { j.serial < |started| && started[j.serial] == j }

  /**
   * The jobs that have not been cancelled are exactly the ones in the table, each under the id of its
   * check, and there are no more of them than the limit.
   */
  ghost predicate Sound(t: Table) {
    && (forall id {:trigger t.jobs[id]} :: id in t.jobs ==>
      Started(t.started, t.jobs[id]) && t.jobs[id] !in t.stopped && t.jobs[id].def.id == id)
    && (forall j {:trigger Started(t.started, j)} :: Started(t.started, j) && j !in t.stopped ==>
      j.def.id in t.jobs && t.jobs[j.def.id] == j)
    && (forall j {:trigger j in t.stopped} :: j in t.stopped ==> Started(t.started, j))
    && (forall j {:trigger Started(t.started, j)} :: Started(t.started, j) ==> j.def.valid)
    && |t.jobs| <= MAX_COLLECTOR_CHECKS
  }

  /** Whether the job running under an id is left alone by these definitions. */
  ghost predicate Stays(t: Table, wanted: map<CheckId, Check>, id: CheckId) {
    id in t.jobs && id in wanted && wanted[id].key == t.jobs[id].def.key
  }

  /** The definitions an answer asks for: none when there is no assignment. */
  function WantedBy(a: Option<Assignment>): map<CheckId, Check> {
    if a.Some? then Wanted(a.value.checks) else map[]
  }

  /**
   * What an answer does: exactly the wanted checks run afterwards, the very same job where the
   * definition is unchanged and a new one where it is not; every other job is cancelled. What was
   * started is in the table, and what is in the table was started.
   */
  ghost predicate Answered(s: Table, a: Option<Assignment>, t: Table) {
    var w := WantedBy(a);
    && t.active == a.Some? && t.options == (if a.Some? then a.value.options else s.options)
    && t.jobs.Keys == w.Keys && s.started <= t.started
    && (forall id {:trigger t.jobs[id]} :: id in t.jobs ==>
        if Stays(s, w, id) then t.jobs[id] == s.jobs[id]
        else t.jobs[id].serial >= |s.started| && t.jobs[id].def == w[id])
    && (forall j {:trigger j in t.stopped} :: j in t.stopped <==>
      j in s.stopped || (j.def.id in s.jobs && s.jobs[j.def.id] == j && !Stays(s, w, j.def.id)))
    && (forall id {:trigger t.jobs[id]} :: id in t.jobs ==> Started(t.started, t.jobs[id]))
    && (forall k {:trigger t.started[k]} :: |s.started| <= k < |t.started| ==>
      t.started[k].serial == k && Listed(t, t.started[k]))
  }

  /** The job is the one in the table for its check. */
  ghost predicate Listed(t: Table, j: Job) { j.def.id in t.jobs && t.jobs[j.def.id] == j }

  /** An answer keeps a sound table sound. */
  lemma AnsweredIsSound(s: Table, a: Option<Assignment>, t: Table)
    requires Sound(s) && Answered(s, a, t)
    ensures Sound(t)
  {
    var w := WantedBy(a);
    if a.Some? { WantedAreProper(a.value.checks); }
    assert |t.jobs| == |t.jobs.Keys| && |w| == |w.Keys|;
    forall id | id in t.jobs ensures t.jobs[id] !in t.stopped && t.jobs[id].def.id == id {
      NotStopped(s, a, t, id);
    }
    forall j | Started(t.started, j)
      ensures j.def.valid && (j !in t.stopped ==> j.def.id in t.jobs && t.jobs[j.def.id] == j)
    {
      if j.serial < |s.started| {
        assert Started(s.started, j);
      } else {
        assert Listed(t, t.started[j.serial]);
      }
    }
  }

  lemma NotStopped(s: Table, a: Option<Assignment>, t: Table, id: CheckId)
    requires Sound(s) && Answered(s, a, t) && id in t.jobs && Proper(WantedBy(a))
    ensures t.jobs[id] !in t.stopped && t.jobs[id].def.id == id && t.jobs[id].def.valid
  {
    var j := t.jobs[id];
    if Stays(s, WantedBy(a), id) {
      assert j == s.jobs[id] && Started(s.started, j);
    } else {
      assert !Started(s.started, j);
      forall x | x in s.jobs ensures s.jobs[x] != j { assert Started(s.started, s.jobs[x]); }
    }
  }

  // ---------------------------------------------------------------------------------------------
  // One job at a time
  // ---------------------------------------------------------------------------------------------

  function WithoutJob(t: Table, id: CheckId): Table
    requires id in t.jobs
  {
    t.(jobs := t.jobs - {id}, stopped := t.stopped + {t.jobs[id]})
  }

  function WithJob(t: Table, def: Check): Table {
    var j := Job(|t.started|, def);
    t.(jobs := t.jobs[def.id := j], started := t.started + [j])
  }

  /** Part of the way through stopping: the ids in `todo` have not been looked at yet. */
  ghost predicate Stopping(s: Table, t: Table, w: map<CheckId, Check>, todo: set<CheckId>) {
    && t == s.(jobs := t.jobs, stopped := t.stopped) && todo <= t.jobs.Keys
    && (forall id {:trigger id in t.jobs} :: id in t.jobs <==> id in s.jobs && (id in todo || Stays(s, w, id)))
    && (forall id {:trigger t.jobs[id]} :: id in t.jobs ==> t.jobs[id] == s.jobs[id])
    && (forall j {:trigger j in t.stopped} :: j in t.stopped <==>
      j in s.stopped || (j.def.id in s.jobs && s.jobs[j.def.id] == j && j.def.id !in t.jobs))
  }

  lemma StopStep(s: Table, t: Table, w: map<CheckId, Check>, todo: set<CheckId>, id: CheckId)
    requires Stopping(s, t, w, todo) && id in todo && s.jobs[id].def.id == id
    ensures Stays(t, w, id) ==> Stopping(s, t, w, todo - {id})
    ensures !Stays(t, w, id) ==> Stopping(s, WithoutJob(t, id), w, todo - {id}) && WithoutJob(t, id).jobs != s.jobs
  {
    assert !Stays(t, w, id) ==> id in s.jobs && id !in WithoutJob(t, id).jobs;
  }

  /** A job that was started after those of `s` and is in the table. */
  ghost predicate New(s: Table, t: Table, j: Job) {
    j.serial >= |s.started| && j.def.id in t.jobs && t.jobs[j.def.id] == j && j.def.id !in s.jobs
  }

  /** Part of the way through starting. */
  ghost predicate Starting(s: Table, t: Table, w: map<CheckId, Check>, todo: set<CheckId>) {
    && t == s.(jobs := t.jobs, started := t.started) && s.started <= t.started && todo <= w.Keys
    && s.jobs.Keys <= t.jobs.Keys <= w.Keys <= t.jobs.Keys + todo
    && (forall id {:trigger t.jobs[id]} :: id in t.jobs ==>
        if id in s.jobs then t.jobs[id] == s.jobs[id]
        else Started(t.started, t.jobs[id]) && t.jobs[id].serial >= |s.started| && t.jobs[id].def == w[id])
    && (forall k {:trigger t.started[k]} :: |s.started| <= k < |t.started| ==>
      t.started[k].serial == k && New(s, t, t.started[k]))
  }

  lemma StartStep(s: Table, t: Table, w: map<CheckId, Check>, todo: set<CheckId>, id: CheckId)
    requires Starting(s, t, w, todo) && id in todo && w[id].id == id
    ensures id in t.jobs ==> Starting(s, t, w, todo - {id})
    ensures id !in t.jobs ==> Starting(s, WithJob(t, w[id]), w, todo - {id}) && WithJob(t, w[id]).jobs != s.jobs
  {
    if id !in t.jobs {
      var u := WithJob(t, w[id]);
      assert id in u.jobs && id !in s.jobs;
      forall k | |s.started| <= k < |u.started| ensures u.started[k].serial == k && New(s, u, u.started[k]) {
        if k < |t.started| { assert u.started[k] == t.started[k] && New(s, t, t.started[k]); }
      }
      forall x | x in u.jobs && x !in s.jobs && x != id ensures Started(u.started, u.jobs[x]) {
        assert u.jobs[x] == t.jobs[x] && Started(t.started, t.jobs[x]);
      }
    }
  }

  // ---------------------------------------------------------------------------------------------
  // The runner
  // ---------------------------------------------------------------------------------------------

  class CollectorRunner {
    var jobs: map<CheckId, Job>
    var options: string
    var active: bool
    var started: seq<Job>
    var stopped: set<Job>

    ghost function View(): Table
      reads this
    {
      Table(jobs, options, active, started, stopped)
    }

    ghost predicate Valid()
      reads this
    {
      Sound(View())
    }

    constructor ()
      ensures Valid() && View() == Table(map[], "", false, [], {})
    {
      jobs, options, active, started, stopped := map[], "", false, [], {};
    }

    method Choose(checks: seq<Check>) returns (wanted: map<CheckId, Check>)
      ensures wanted == Wanted(checks)
    {
      wanted := map[];
      TakeAll(checks);
      var i := 0;
      while i < |checks|
        invariant i <= |checks| && wanted == Wanted(checks[..i])
      {
        if |wanted| == MAX_COLLECTOR_CHECKS {
          WantedStops(checks, i);
          return;
        }
        assert checks[..i + 1][..i] == checks[..i];
        if checks[i].valid { wanted := wanted[checks[i].id := checks[i]]; }
        i := i + 1;
      }
    }

    /** Cancels every job the definitions no longer want, or want differently. */
    method StopUnwanted(wanted: map<CheckId, Check>) returns (changed: bool)
      requires forall id :: id in jobs ==> jobs[id].def.id == id
      modifies this`jobs, this`stopped
      ensures changed == (jobs != old(jobs)) && Stopping(old(View()), View(), wanted, {})
    {
      changed := false;
      ghost var s := View();
      var todo := jobs.Keys;
      while todo != {}
        invariant changed == (jobs != s.jobs) && Stopping(s, View(), wanted, todo)
        decreases todo
      {
        var id :| id in todo;
        StopStep(s, View(), wanted, todo, id);
        todo := todo - {id};
        if !(id in wanted && wanted[id].key == jobs[id].def.key) {
          stopped, jobs, changed := stopped + {jobs[id]}, jobs - {id}, true;
        }
      }
    }

    /** Starts a job for every definition that has none. */
    method StartMissing(wanted: map<CheckId, Check>) returns (changed: bool)
      requires jobs.Keys <= wanted.Keys && forall id :: id in wanted ==> wanted[id].id == id
      modifies this`jobs, this`started
      ensures changed == (jobs != old(jobs)) && Starting(old(View()), View(), wanted, {})
    {
      changed := false;
      ghost var s := View();
      var todo := wanted.Keys;
      while todo != {}
        invariant changed == (jobs != s.jobs) && Starting(s, View(), wanted, todo)
        decreases todo
      {
        var id :| id in todo;
        StartStep(s, View(), wanted, todo, id);
        todo := todo - {id};
        if id !in jobs {
          var j := Job(|started|, wanted[id]);
          jobs, started, changed := jobs[id := j], started + [j], true;
        }
      }
    }

    /** Brings the jobs in line with an answer, and says whether that took anything. */
    method Assign(a: Option<Assignment>) returns (changed: bool)
      requires Valid()
      modifies this
      ensures Valid() && Answered(old(View()), a, View())
      ensures changed ==
        if a.Some? then !old(active) || old(options) != options || jobs != old(jobs)
        else old(active) || old(jobs) != map[]
    {
      ghost var s := View();
      if a.None? {
        changed := active || jobs != map[];
        var _ := StopUnwanted(map[]);
        AllStopped(s, View());
        active := false;
        return;
      }
      var wanted := Choose(a.value.checks);
      WantedAreProper(a.value.checks);
      changed := !active || options != a.value.options;
      options, active := a.value.options, true;
      ghost var s1 := View();
      var stopped := StopUnwanted(wanted);
      ghost var m := View();
      var begun := StartMissing(wanted);
      AnswerTakenUp(s, s1, m, View(), a.value);
      changed := changed || stopped || begun;
    }
  }

  lemma AnswerTakenUp(s: Table, s1: Table, m: Table, t: Table, a: Assignment)
    requires Sound(s) && s1 == s.(options := a.options, active := true)
    requires Stopping(s1, m, Wanted(a.checks), {}) && Starting(m, t, Wanted(a.checks), {})
    ensures Sound(t) && Answered(s, Some(a), t)
    ensures t.jobs != s.jobs <==> m.jobs != s.jobs || t.jobs != m.jobs
  {
    Reconciled(s1, m, t, a);
    ChangeShows(s1, m, t, Wanted(a.checks));
    OnlyOptions(s, s1, t, a);
    AnsweredIsSound(s, Some(a), t);
  }

  lemma OnlyOptions(s: Table, s1: Table, t: Table, a: Assignment)
    requires s1 == s.(options := a.options, active := true) && Answered(s1, Some(a), t)
    ensures Answered(s, Some(a), t)
  {
    forall id ensures Stays(s, Wanted(a.checks), id) == Stays(s1, Wanted(a.checks), id) {}
  }

  /** Nothing wanted: everything is cancelled. */
  lemma AllStopped(s: Table, m: Table)
    requires Sound(s) && Stopping(s, m, map[], {})
    ensures m.jobs == map[]
    ensures Sound(m.(active := false)) && Answered(s, None, m.(active := false))
  {
    AnsweredIsSound(s, None, m.(active := false));
  }

  lemma Reconciled(s: Table, m: Table, t: Table, a: Assignment)
    requires var w := Wanted(a.checks); Stopping(s, m, w, {}) && Starting(m, t, w, {})
    requires s.options == a.options && t.active && forall id :: id in s.jobs ==> Started(s.started, s.jobs[id])
    ensures Answered(s, Some(a), t)
  {
    forall id | id in t.jobs ensures Started(t.started, t.jobs[id]) {
      if id in m.jobs { assert t.jobs[id] == m.jobs[id] == s.jobs[id] && Started(s.started, s.jobs[id]); }
    }
    forall k | |s.started| <= k < |t.started| ensures t.started[k].serial == k && Listed(t, t.started[k]) {
      assert New(m, t, t.started[k]);
    }
  }

  lemma ChangeShows(s: Table, m: Table, t: Table, w: map<CheckId, Check>)
    requires Stopping(s, m, w, {}) && Starting(m, t, w, {})
    requires forall id :: id in s.jobs ==> Started(s.started, s.jobs[id])
    ensures t.jobs != s.jobs <==> m.jobs != s.jobs || t.jobs != m.jobs
  {
    if m.jobs != s.jobs {
      var id :| id in s.jobs && id !in m.jobs;
      assert Started(s.started, s.jobs[id]);
      assert id in t.jobs ==> t.jobs[id].serial >= |s.started|;
    }
  }

  // ---------------------------------------------------------------------------------------------
  // Every sequence of check-ins
  // ---------------------------------------------------------------------------------------------

  /** The table after each of these answers, `tables[0]` being a runner that has just been made. */
  ghost predicate CheckIns(tables: seq<Table>, answers: seq<Option<Assignment>>) {
    && |tables| == |answers| + 1 && tables[0] == Table(map[], "", false, [], {})
    && forall i {:trigger answers[i]} :: 0 <= i < |answers| ==> Answered(tables[i], answers[i], tables[i + 1])
  }

  lemma NewTableIsSound(t: Table)
    requires t == Table(map[], "", false, [], {})
    ensures Sound(t)
  {
  }

  /** The jobs that are not cancelled are those in the table, one for each check, after any check-ins at all. */
  lemma {:induction false} EveryTableIsSound(tables: seq<Table>, answers: seq<Option<Assignment>>, i: nat)
    requires CheckIns(tables, answers) && i <= |answers|
    ensures Sound(tables[i])
  {
    if i == 0 {
      NewTableIsSound(tables[0]);
    } else {
      var a := answers[i - 1];
      EveryTableIsSound(tables, answers, i - 1);
      AnsweredIsSound(tables[i - 1], a, tables[i]);
    }
  }

  /**
   * After any check-ins, what runs is what the last answer asked for, within the limit: of all the jobs
   * ever started the ones not cancelled are one for each definition wanted, with that very definition.
   */
  lemma RunsWhatWasAsked(tables: seq<Table>, answers: seq<Option<Assignment>>, i: nat)
    requires CheckIns(tables, answers) && i < |answers|
    ensures var t, w := tables[i + 1], WantedBy(answers[i]);
      && |t.jobs| == |w| <= MAX_COLLECTOR_CHECKS
      && (forall j :: Started(t.started, j) && j !in t.stopped ==> j.def.id in w && j.def.key == w[j.def.id].key)
      && (forall id :: id in w ==> exists j :: Runs(t, j, id))
      && (forall id, j, k :: Runs(t, j, id) && Runs(t, k, id) ==> j == k)
  {
    var t, w, a := tables[i + 1], WantedBy(answers[i]), answers[i];
    EveryTableIsSound(tables, answers, i + 1);
    if a.Some? { WantedAreProper(a.value.checks); }
    assert |t.jobs| == |t.jobs.Keys| && |w| == |w.Keys|;
    forall id | id in w ensures exists j :: Runs(t, j, id) { assert Runs(t, t.jobs[id], id); }
    forall j | Started(t.started, j) && j !in t.stopped ensures j.def.id in w && j.def.key == w[j.def.id].key {
      assert t.jobs[j.def.id] == j;
    }
  }

  /** `j` is running for the check with this id. */
  ghost predicate Runs(t: Table, j: Job, id: CheckId) { Started(t.started, j) && j !in t.stopped && j.def.id == id }

  ghost predicate Asks(a: Option<Assignment>, id: CheckId, key: string) {
    id in WantedBy(a) && WantedBy(a)[id].key == key
  }

  /** A check whose definition stays the same in every answer is one job from the first to the last: never restarted. */
  lemma {:induction false} UnchangedIsNotRestarted(tables: seq<Table>, answers: seq<Option<Assignment>>, id: CheckId,
        key: string, i: nat, k: nat)
    requires CheckIns(tables, answers) && i < k <= |answers|
    requires forall n {:trigger answers[n]} :: i <= n < k ==> Asks(answers[n], id, key)
    ensures id in tables[i + 1].jobs && id in tables[k].jobs && tables[k].jobs[id] == tables[i + 1].jobs[id]
    ensures tables[k].jobs[id].def.key == key
    decreases k
  {
    OneMoreAnswer(tables[k - 1], answers[k - 1], tables[k], id, key);
    if k > i + 1 { UnchangedIsNotRestarted(tables, answers, id, key, i, k - 1); }
  }

  lemma OneMoreAnswer(s: Table, a: Option<Assignment>, t: Table, id: CheckId, key: string)
    requires Answered(s, a, t) && Asks(a, id, key)
    ensures id in t.jobs && t.jobs[id].def.key == key
    ensures id in s.jobs && s.jobs[id].def.key == key ==> t.jobs[id] == s.jobs[id]
  {
    assert Stays(s, WantedBy(a), id) <==> id in s.jobs && s.jobs[id].def.key == key;
  }
}
