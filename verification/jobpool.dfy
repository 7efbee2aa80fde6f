/**
 * The jobs a collector runs, each in a goroutine of its own, sharing a bounded number of slots
 * (runJob in cmd/gwatch-agent/collector.go). Any job may take its next step at any time.
 */
module JobPool {
  const COLLECTOR_SLOTS := 8

  /** Where a job is in its loop. */
  datatype Phase =
    | Waiting      // for its interval to pass
    | Queued       // for a slot
    | Running      // its check, in a slot
    | Delivering   // waiting for the result to be taken
    | Gone

  /** One job: `begun` and `sent` count the checks begun and the results delivered since it was cancelled. */
  datatype Worker = Worker(phase: Phase, cancelled: bool, begun: nat, sent: nat)

  /** `taken` is the number of slots in use, as the semaphore counts them. */
  datatype Pool = Pool(workers: map<nat, Worker>, taken: nat)

  datatype Event =
    | Start(job: nat)
    | Cancel(job: nat)
    | TimerFires(job: nat)
    | TakeSlot(job: nat)
    | Finish(job: nat)    // the check ends and gives its slot back
    | Deliver(job: nat)
    | GiveUp(job: nat)    // the job notices that it was cancelled, and returns

  function Counted(w: Worker): nat { if w.cancelled then 1 else 0 }

  predicate Enabled(p: Pool, e: Event) {
    if e.Start? then e.job !in p.workers
    else e.job in p.workers && var w := p.workers[e.job];
      match e
      case Cancel(_) => true
      case TimerFires(_) => w.phase.Waiting?
      // Of two ready cases a select takes either: a cancelled job may still get a slot.
      case TakeSlot(_) => w.phase.Queued? && p.taken < COLLECTOR_SLOTS
      case Finish(_) => w.phase.Running?
      case Deliver(_) => w.phase.Delivering?
      case GiveUp(_) => w.cancelled && (w.phase.Waiting? || w.phase.Queued? || w.phase.Delivering?)
      case Start(_) => true
  }

  /** What a step makes of the job that takes it. */
  function Moved(w: Worker, e: Event): Worker {
    match e
    case Start(_) => Worker(Waiting, false, 0, 0)
    case Cancel(_) => w.(cancelled := true)
    case TimerFires(_) => w.(phase := Queued)
    case TakeSlot(_) => w.(phase := Running, begun := w.begun + Counted(w))
    // A result of a job cancelled in the meantime is dropped.
    case Finish(_) => w.(phase := if w.cancelled then Gone else Delivering)
    case Deliver(_) => w.(phase := Waiting, sent := w.sent + Counted(w))
    case GiveUp(_) => w.(phase := Gone)
  }

  function Next(p: Pool, e: Event): Pool
    requires Enabled(p, e)
  {
    var was := if e.job in p.workers then p.workers[e.job] else Worker(Waiting, false, 0, 0);
    var taken := match e
      case TakeSlot(_) => p.taken + 1
      case Finish(_) => if p.taken > 0 then p.taken - 1 else 0
      case _ => p.taken;
    Pool(p.workers[e.job := Moved(was, e)], taken)
  }

  ghost predicate Run(pools: seq<Pool>, events: seq<Event>) {
    && |pools| == |events| + 1 && pools[0] == Pool(map[], 0)
    && forall i {:trigger events[i]} :: 0 <= i < |events| ==>
      Enabled(pools[i], events[i]) && pools[i + 1] == Next(pools[i], events[i])
  }

  ghost function RunningNow(p: Pool): set<nat> {
    set j | j in p.workers && p.workers[j].phase.Running?
  }

  /** How many more steps a cancelled job can take. */
  function StepsLeft(w: Worker): nat {
    match w.phase
    case Delivering => 4
    case Waiting => 3
    case Queued => 2
    case Running => 1
    case Gone => 0
  }

  /** What a cancelled job may have done since, by where it is now. */
  ghost predicate WorkerSound(w: Worker) {
    && (!w.cancelled ==> w.begun == w.sent == 0)
    && w.begun <= 1 && w.sent <= 1
    && (w.cancelled && (w.phase.Waiting? || w.phase.Queued? || w.phase.Delivering?) ==> w.begun == 0)
    && (w.cancelled && w.phase.Delivering? ==> w.sent == 0)
  }

  /** As many slots are taken as checks are running, and never more than there are. */
  ghost predicate Sound(p: Pool) {
    && p.taken == |RunningNow(p)| <= COLLECTOR_SLOTS
    && forall j :: j in p.workers ==> WorkerSound(p.workers[j])
  }

  lemma StepKeepsSound(p: Pool, e: Event)
    requires Sound(p) && Enabled(p, e)
    ensures Sound(Next(p, e))
  {
    var q := Next(p, e);
    if e.TakeSlot? {
      assert RunningNow(q) == RunningNow(p) + {e.job};
    } else if e.Finish? {
      assert e.job in RunningNow(p) && RunningNow(q) == RunningNow(p) - {e.job};
    } else {
      assert RunningNow(q) == RunningNow(p);
    }
  }

  /** In every interleaving, at every moment. */
  lemma {:induction false} EveryRunIsSound(pools: seq<Pool>, events: seq<Event>, i: nat)
    requires Run(pools, events) && i <= |events|
    ensures Sound(pools[i])
  {
    if i == 0 {
      assert RunningNow(pools[0]) == {};
    } else {
      var e := events[i - 1];
      EveryRunIsSound(pools, events, i - 1);
      StepKeepsSound(pools[i - 1], e);
    }
  }

  /** A job goes on for as long as it is not cancelled. */
  lemma {:induction false} OnlyCancelledJobsEnd(pools: seq<Pool>, events: seq<Event>, i: nat, j: nat)
    requires Run(pools, events) && i <= |events| && j in pools[i].workers && pools[i].workers[j].phase.Gone?
    ensures pools[i].workers[j].cancelled
  {
    if i > 0 {
      var e := events[i - 1];
      assert pools[i] == Next(pools[i - 1], e);
      var was := pools[i - 1].workers;
      if j in was && was[j].phase.Gone? { OnlyCancelledJobsEnd(pools, events, i - 1, j); }
    }
  }

  /** Where a slot is free, a job that is left alone waits, gets it, runs its check, delivers, and is where it was. */
  lemma RoundAgain(p: Pool, j: nat) returns (queued: Pool, running: Pool, done: Pool)
    requires j in p.workers && p.workers[j].phase.Waiting? && !p.workers[j].cancelled && p.taken < COLLECTOR_SLOTS
    ensures Enabled(p, TimerFires(j)) && queued == Next(p, TimerFires(j))
    ensures Enabled(queued, TakeSlot(j)) && running == Next(queued, TakeSlot(j)) && running.taken == p.taken + 1
    ensures Enabled(running, Finish(j)) && done == Next(running, Finish(j))
    ensures Enabled(done, Deliver(j)) && p == Next(done, Deliver(j))
  {
    queued := Next(p, TimerFires(j));
    running := Next(queued, TakeSlot(j));
    done := Next(running, Finish(j));
    assert done.workers[j] == p.workers[j].(phase := Delivering);
    assert Next(done, Deliver(j)).workers == p.workers;
  }

  /** After it is cancelled a job begins at most one more check and delivers at most one more result. */
  lemma CancelledDoesLittle(pools: seq<Pool>, events: seq<Event>, i: nat, j: nat)
    requires Run(pools, events) && i <= |events| && j in pools[i].workers && pools[i].workers[j].cancelled
    ensures pools[i].workers[j].begun <= 1 && pools[i].workers[j].sent <= 1
  {
    EveryRunIsSound(pools, events, i);
  }

  /** How many of the steps are this job's own. */
  function StepsOf(events: seq<Event>, j: nat): nat {
    if events == [] then 0
    else StepsOf(events[..|events| - 1], j) +
         if events[|events| - 1].job == j && !events[|events| - 1].Cancel? then 1 else 0
  }

  /** Each step of a cancelled job brings it nearer its end, so it takes four at the most. */
  lemma {:induction false} CancelledEnds(pools: seq<Pool>, events: seq<Event>, i: nat, k: nat, j: nat)
    requires Run(pools, events) && i <= k <= |events| && j in pools[i].workers && pools[i].workers[j].cancelled
    ensures j in pools[k].workers && pools[k].workers[j].cancelled
    ensures StepsOf(events[i..k], j) + StepsLeft(pools[k].workers[j]) <= StepsLeft(pools[i].workers[j]) <= 4
    decreases k
  {
    if k > i {
      var e := events[k - 1];
      CancelledEnds(pools, events, i, k - 1, j);
      assert events[i..k][..k - 1 - i] == events[i..k - 1] && events[i..k][k - 1 - i] == e;
    }
  }

  /** Nothing keeps a cancelled job: until it is gone, it always has a step of its own that needs nobody else. */
  lemma CancelledCanAlwaysEnd(p: Pool, j: nat)
    requires j in p.workers && p.workers[j].cancelled && !p.workers[j].phase.Gone?
    ensures exists e: Event :: e.job == j && Enabled(p, e) && Next(p, e).workers[j].phase.Gone?
  {
    var e := if p.workers[j].phase.Running? then Finish(j) else GiveUp(j);
    assert e.job == j && Enabled(p, e) && Next(p, e).workers[j].phase.Gone?;
  }

  /** The bound is met: a job cancelled just before its result is taken delivers it, and may run once more. */
  lemma CancelledMayRunOnceMore(p: Pool, j: nat)
    requires j in p.workers && p.workers[j] == Worker(Delivering, false, 0, 0) && p.taken < COLLECTOR_SLOTS
    ensures exists p3 ::
      && After(p, [Cancel(j), Deliver(j), TimerFires(j), TakeSlot(j)], p3)
      && j in p3.workers && p3.workers[j] == Worker(Running, true, 1, 1)
  {
    var p1 := Next(p, Cancel(j));
    var p2 := Next(p1, Deliver(j));
    var p3 := Next(p2, TimerFires(j));
    var p4 := Next(p3, TakeSlot(j));
    var events := [Cancel(j), Deliver(j), TimerFires(j), TakeSlot(j)];
    assert events[1..] == [Deliver(j), TimerFires(j), TakeSlot(j)];
    assert events[1..][1..] == [TimerFires(j), TakeSlot(j)];
    assert events[1..][1..][1..] == [TakeSlot(j)];
    assert After(p4, [], p4) && After(p3, [TakeSlot(j)], p4);
    assert After(p2, events[1..][1..], p4) && After(p1, events[1..], p4) && After(p, events, p4);
  }

  ghost predicate After(p: Pool, events: seq<Event>, q: Pool)
    decreases |events|
  {
    if events == [] then p == q else Enabled(p, events[0]) && After(Next(p, events[0]), events[1..], q)
  }
}
