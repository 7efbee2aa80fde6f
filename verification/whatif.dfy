/** The what-if simulation of a network map (createSimulation in web/netmap-tools.js). */
module WhatIf {
  import opened Wrappers
  import opened Chains
  import opened Forests
  import opened Trees
  import opened Outage

  /* ---------- How far a failure can spread ---------- */

  /** The links from `a` down to the deepest node below it. */
  ghost function HeightOf(f: Forest, a: Id): nat {
    if a in f.byId then
      SubSelf(f, a);
      MaxDepthBounds(f, Sub(f, a), a);
      MaxDepth(f, Sub(f, a)) - DepthOf(f, a)
    else 0
  }

  lemma MaxDepthAttained(f: Forest, ids: set<Id>) returns (x: Id)
    requires ids <= f.byId.Keys && ids != {}
    ensures x in ids && DepthOf(f, x) == MaxDepth(f, ids)
  {
    var y :| y in ids
      && var rest := MaxDepth(f, ids - {y});
         MaxDepth(f, ids) == if DepthOf(f, y) > rest then DepthOf(f, y) else rest;
    if DepthOf(f, y) > MaxDepth(f, ids - {y}) || ids - {y} == {} {
      x := y;
    } else {
      x := MaxDepthAttained(f, ids - {y});
    }
  }

  lemma HeightIs(f: Forest, a: Id, deepest: int, was: int, d: nat)
    requires a in f.byId && DeepestIs(f, d - DepthOf(f, a), was, deepest, Sub(f, a))
    ensures deepest == if was > d + HeightOf(f, a) then was else d + HeightOf(f, a)
  {
    SubSelf(f, a);
    var x := MaxDepthAttained(f, Sub(f, a));
    assert x in Sub(f, a);
    if deepest != was {
      var u :| u in Sub(f, a) && d - DepthOf(f, a) + DepthOf(f, u) == deepest;
      MaxDepthBounds(f, Sub(f, a), u);
    }
  }

  /** The greatest height among the failed nodes. */
  ghost function MaxSpread(f: Forest, failed: set<Id>): nat {
    if failed == {} then 0
    else
      var a :| a in failed;
      var rest := MaxSpread(f, failed - {a});
      if HeightOf(f, a) > rest then HeightOf(f, a) else rest
  }

  ghost predicate SpreadIs(f: Forest, failed: set<Id>, m: int) {
    && m >= 0 && (forall a {:trigger HeightOf(f, a)} :: a in failed ==> HeightOf(f, a) <= m)
    && (m == 0 || exists a :: a in failed && HeightOf(f, a) == m)
  }

  lemma MaxSpreadIs(f: Forest, failed: set<Id>)
    ensures SpreadIs(f, failed, MaxSpread(f, failed))
    decreases failed
  {
    if failed != {} {
      var a :| a in failed
        && var rest := MaxSpread(f, failed - {a});
           MaxSpread(f, failed) == if HeightOf(f, a) > rest then HeightOf(f, a) else rest;
      MaxSpreadIs(f, failed - {a});
      forall b | b in failed ensures HeightOf(f, b) <= MaxSpread(f, failed) {
        if b != a { assert b in failed - {a}; }
      }
    }
  }

  lemma SpreadUnique(f: Forest, failed: set<Id>, m: int)
    requires SpreadIs(f, failed, m)
    ensures m == MaxSpread(f, failed)
  {
    MaxSpreadIs(f, failed);
  }

  method WalkDown(f: Forest, x: Id, d: nat, deepest: int) returns (deepest': int)
    requires x in f.byId
    ensures DeepestIs(f, d - DepthOf(f, x), deepest, deepest', Sub(f, x))
    decreases Room(f, x)
  {
    deepest' := if deepest > d then deepest else d;
    var kids := f.children[x];
    SubSplits(f, x);
    ghost var off := d - DepthOf(f, x);
    ghost var done: set<Id> := {x};
    for i := 0 to |kids|
      invariant done == {x} + SubAll(f, kids[..i])
      invariant DeepestIs(f, off, deepest, deepest', done)
    {
      ChildBelow(f, x, kids[i]);
      SubAllSnoc(f, x, i);
      ghost var before := deepest';
      deepest' := WalkDown(f, kids[i], d + 1, deepest');
      DeepestTwice(f, off, deepest, before, deepest', done, Sub(f, kids[i]));
      done := done + Sub(f, kids[i]);
    }
    TakeAll(kids);
  }

  /** The most links any failure can spread. */
  method MaxDepthOf(f: Forest, failed: map<Id, Kind>) returns (deepest: int)
    ensures deepest == MaxSpread(f, failed.Keys)
    ensures forall a, x, n: nat :: a in failed && x in f.byId && Up(f.parentOf, x, n) == Some(a) ==> n <= deepest
    ensures deepest > 0 ==> exists a, x :: a in failed && x in f.byId && Up(f.parentOf, x, deepest) == Some(a)
  {
    deepest := 0;
    var todo := failed.Keys;
    while todo != {}
      invariant todo <= failed.Keys && SpreadIs(f, failed.Keys - todo, deepest)
      decreases todo
    {
      var id :| id in todo;
      ghost var before := deepest;
      if id in f.byId {
        deepest := WalkDown(f, id, 0, deepest);
        HeightIs(f, id, deepest, before, 0);
      }
      assert failed.Keys - (todo - {id}) == (failed.Keys - todo) + {id};
      SpreadGrows(f, failed.Keys - todo, id, before, deepest);
      todo := todo - {id};
    }
    assert failed.Keys - todo == failed.Keys;
    SpreadUnique(f, failed.Keys, deepest);
    SpreadReached(f, failed, deepest);
  }

  /** The spread is the length of the longest chain up to a failed node. */
  lemma SpreadReached(f: Forest, failed: map<Id, Kind>, m: nat)
    requires m == MaxSpread(f, failed.Keys)
    ensures forall a, x, n: nat :: a in failed && x in f.byId && Up(f.parentOf, x, n) == Some(a) ==> n <= m
    ensures m > 0 ==> exists a, x :: a in failed && x in f.byId && Up(f.parentOf, x, m) == Some(a)
  {
    forall a, x, n: nat | a in failed && x in f.byId && Up(f.parentOf, x, n) == Some(a) ensures n <= m {
      WithinSpread(f, failed, x, n, a);
    }
    MaxSpreadIs(f, failed.Keys);
    if m > 0 {
      var a :| a in failed.Keys && HeightOf(f, a) == m;
      SubSelf(f, a);
      var x := MaxDepthAttained(f, Sub(f, a));
      assert x in Sub(f, a) && Grounded(f.parentOf, x);
      ReachesDistance(f.parentOf, x, a);
      assert Up(f.parentOf, x, m) == Some(a);
    }
  }

  lemma SpreadGrows(f: Forest, s: set<Id>, id: Id, m: int, n: int)
    requires SpreadIs(f, s, m) && n == if m > HeightOf(f, id) then m else HeightOf(f, id)
    ensures SpreadIs(f, s + {id}, n)
  {
    if n != 0 {
      if n == m { var a :| a in s && HeightOf(f, a) == m; assert a in s + {id}; } else { assert id in s + {id}; }
    }
  }

  /* ---------- The state machine ---------- */

  /** `intervals` are the timers the browser is running; `timer` is the one remembered, or 0. */
  datatype SimState = SimState(failed: map<Id, Kind>, depth: int, timer: nat, intervals: set<nat>, handles: nat)

  datatype Op =
    | Add(id: Id, kind: Kind, reduced: bool)
    | Remove(id: Id)
    | Step
    | Play(reduced: bool)
    | Fire(handle: nat)
    | Clear
    | Destroy

  ghost function Stopped(v: SimState): SimState { v.(intervals := v.intervals - {v.timer}, timer := 0) }

  ghost function Played(f: Forest, v: SimState, reduced: bool): SimState {
    var w := Stopped(v);
    if reduced then w.(depth := MaxSpread(f, w.failed.Keys))
    else w.(depth := 0, handles := w.handles + 1, timer := w.handles + 1, intervals := w.intervals + {w.handles + 1})
  }

  ghost function Cleared(v: SimState): SimState { Stopped(v).(failed := map[], depth := 0) }

  ghost function Stepped(f: Forest, v: SimState): SimState {
    if v.depth < MaxSpread(f, v.failed.Keys) then v.(depth := v.depth + 1) else v
  }

  /** What each operation does to the simulation. A timer that is not running does not fire. */
  ghost function Next(f: Forest, v: SimState, op: Op): SimState {
    match op
    case Add(id, kind, reduced) => Played(f, v.(failed := v.failed[id := kind]), reduced)
    case Remove(id) =>
      var left := v.failed - {id};
      if left == map[] then Cleared(v)
      else
        var max := MaxSpread(f, left.Keys);
        v.(failed := left, depth := if v.depth < max then v.depth else max)
    case Step => Stepped(f, v)
    case Play(reduced) => Played(f, v, reduced)
    case Fire(handle) =>
      if handle !in v.intervals then v
      else if v.depth >= MaxSpread(f, v.failed.Keys) then Stopped(v)
      else v.(depth := v.depth + 1)
    case Clear => Cleared(v)
    case Destroy => Stopped(v)
  }

  /** The depth is within what the failures can reach, and at most the remembered timer runs. */
  ghost predicate Sound(f: Forest, v: SimState) {
    && 0 <= v.depth <= MaxSpread(f, v.failed.Keys)
    && v.intervals == (if v.timer == 0 then {} else {v.timer}) && v.timer <= v.handles
  }

  const START := SimState(map[], 0, 0, {}, 0)

  ghost function Run(f: Forest, v: SimState, ops: seq<Op>): SimState
    decreases |ops|
  {
    if ops == [] then v else Run(f, Next(f, v, ops[0]), ops[1..])
  }

  lemma StepIsSound(f: Forest, v: SimState, op: Op)
    requires Sound(f, v)
    ensures Sound(f, Next(f, v, op))
  {
  }

  lemma {:induction false} EveryRunIsSound(f: Forest, v: SimState, ops: seq<Op>)
    requires Sound(f, v)
    ensures Sound(f, Run(f, v, ops))
    decreases |ops|
  {
    if ops != [] {
      StepIsSound(f, v, ops[0]);
      EveryRunIsSound(f, Next(f, v, ops[0]), ops[1..]);
    }
  }

  ghost function Fires(handle: nat, n: nat): seq<Op> { seq(n, _ => Fire(handle)) }

  /** Left to play, the simulation spreads a ring a tick, and stops once it has spread all the way. */
  lemma {:induction false} PlayStopsWhenSpread(f: Forest, v: SimState, n: nat)
    requires Sound(f, v)
    ensures var p := Next(f, v, Play(false)); var max := MaxSpread(f, v.failed.Keys);
      Run(f, p, Fires(p.timer, n))
      == if n <= max then p.(depth := n) else p.(depth := max, timer := 0, intervals := {})
  {
    var p := Next(f, v, Play(false));
    TickOn(f, p, n);
  }

  lemma {:induction false} TickOn(f: Forest, p: SimState, n: nat)
    requires Sound(f, p) && p.timer != 0
    ensures var max := MaxSpread(f, p.failed.Keys);
      Run(f, p, Fires(p.timer, n))
      == if p.depth + n <= max then p.(depth := p.depth + n) else p.(depth := max, timer := 0, intervals := {})
    decreases n
  {
    if n > 0 {
      var ops := Fires(p.timer, n);
      assert ops[1..] == Fires(p.timer, n - 1);
      var q := Next(f, p, ops[0]);
      if p.depth < MaxSpread(f, p.failed.Keys) { TickOn(f, q, n - 1); } else { Idle(f, q, p.timer, n - 1); }
    }
  }

  lemma {:induction false} Idle(f: Forest, v: SimState, handle: nat, n: nat)
    requires handle !in v.intervals
    ensures Run(f, v, Fires(handle, n)) == v
    decreases n
  {
    if n > 0 {
      assert Fires(handle, n)[1..] == Fires(handle, n - 1);
      Idle(f, v, handle, n - 1);
    }
  }

  ghost function Repeated(op: Op, n: nat): seq<Op> { seq(n, _ => op) }

  /** Stepping goes on a ring at a time until all is reached, and then stays there. */
  lemma {:induction false} StepsAddUp(f: Forest, v: SimState, n: nat)
    requires Sound(f, v)
    ensures Run(f, v, Repeated(Step, n)) == v.(depth := Least(v.depth + n, MaxSpread(f, v.failed.Keys)))
    decreases n
  {
    if n > 0 {
      assert Repeated(Step, n)[1..] == Repeated(Step, n - 1);
      StepIsSound(f, v, Step);
      StepsAddUp(f, Next(f, v, Step), n - 1);
    }
  }

  /** Ended, a simulation is as it was before anything failed, and so it is when the last failure is taken out. */
  lemma EndedIsStart(f: Forest, v: SimState, id: Id)
    requires Sound(f, v)
    ensures Next(f, v, Clear) == START.(handles := v.handles)
    ensures v.failed.Keys == {id} ==> Next(f, v, Remove(id)) == START.(handles := v.handles)
  {
    assert v.failed.Keys == {id} ==> v.failed - {id} == map[];
  }

  /**
   * A failure added and taken out again leaves the others, playing from the start; one taken out of several
   * leaves the rest spread as far as it was, or as far as they reach.
   */
  lemma AddedAndRemoved(f: Forest, v: SimState, id: Id, kind: Kind)
    requires Sound(f, v) && id !in v.failed
    ensures var w := Run(f, v, [Add(id, kind, false), Remove(id)]);
      w.failed == v.failed && w.depth == 0 && (w.timer == 0 <==> v.failed == map[])
    ensures forall other :: other in v.failed && v.failed.Keys != {other} ==>
      Next(f, v, Remove(other)) ==
        v.(failed := v.failed - {other}, depth := Least(v.depth, MaxSpread(f, v.failed.Keys - {other})))
  {
    var p := Next(f, v, Add(id, kind, false));
    assert [Add(id, kind, false), Remove(id)][1..] == [Remove(id)] && [Remove(id)][1..] == [];
    assert p.failed - {id} == v.failed;
    assert Run(f, p, [Remove(id)]) == Next(f, p, Remove(id));
    forall other | other in v.failed && v.failed.Keys != {other}
      ensures v.failed - {other} != map[] && (v.failed - {other}).Keys == v.failed.Keys - {other}
    {
      var x :| x in v.failed.Keys && x != other;
      assert x in v.failed - {other};
    }
  }

  /** What the map is drawn with: nothing simulated, or the failures and how far they have spread. */
  ghost function Drawn(v: SimState): Option<Sim> {
    if v.failed == map[] then None else Some(Sim(v.failed, Some(v.depth)))
  }

  class Simulation {
    const forest: Forest
    var failed: map<Id, Kind>
    var depth: int
    var timer: nat
    // The browser's running interval timers, and how many it has handed out.
    var intervals: set<nat>
    var handles: nat
    // What onChange was last given.
    var drawn: Option<Sim>

    ghost function View(): SimState
      reads this
    {
      SimState(failed, depth, timer, intervals, handles)
    }

    ghost predicate Valid()
      reads this
    {
      Sound(forest, View()) && drawn == Drawn(View())
    }

    constructor (f: Forest)
      ensures Valid() && forest == f && View() == START
    {
      forest, failed, depth, timer := f, map[], 0, 0;
      intervals, handles, drawn := {}, 0, None;
      new;
    }

    method Emit()
      modifies this`drawn
      ensures drawn == if failed == map[] then None else Some(Sim(failed, Some(depth)))
    {
      drawn := if failed == map[] then None else Some(Sim(failed, Some(depth)));
    }

    method Stop()
      modifies this`intervals, this`timer
      ensures View() == Stopped(old(View()))
    {
      intervals, timer := intervals - {timer}, 0;
    }

    method AddFailure(id: Id, kind: Kind, reduced: bool)
      requires Valid()
      modifies this
      ensures Valid() && View() == Next(forest, old(View()), Add(id, kind, reduced))
      ensures failed == old(failed)[id := kind] && depth == if reduced then MaxSpread(forest, failed.Keys) else 0
      ensures if reduced then timer == 0 else timer == old(handles) + 1
    {
      failed := failed[id := kind];
      StartPlay(reduced);
    }

    method RemoveFailure(id: Id)
      requires Valid()
      modifies this
      ensures Valid() && View() == Next(forest, old(View()), Remove(id))
      ensures failed == old(failed) - {id}
      ensures failed != map[] ==> timer == old(timer) && depth <= old(depth)
      ensures failed != map[] ==> depth == old(depth) || depth == MaxSpread(forest, failed.Keys)
      ensures failed == map[] ==> timer == 0 && depth == 0
    {
      failed := failed - {id};
      if failed == map[] {
        ClearAll();
        return;
      }
      var max := MaxDepthOf(forest, failed);
      depth := if depth < max then depth else max;
      Emit();
    }

    method StepOnce()
      requires Valid()
      modifies this
      ensures Valid() && View() == Next(forest, old(View()), Step)
      ensures failed == old(failed) && timer == old(timer)
      ensures depth == if old(depth) == MaxSpread(forest, failed.Keys) then old(depth) else old(depth) + 1
    {
      var max := MaxDepthOf(forest, failed);
      if depth < max { depth := depth + 1; }
      Emit();
    }

    // Called by itself, or by AddFailure when the failures have just changed.
    method StartPlay(reduced: bool)
      requires intervals == (if timer == 0 then {} else {timer}) && timer <= handles
      modifies this
      ensures Valid() && View() == Next(forest, old(View()), Play(reduced))
      ensures failed == old(failed) && depth == if reduced then MaxSpread(forest, failed.Keys) else 0
      ensures if reduced then timer == 0 else timer == old(handles) + 1
    {
      Stop();
      depth := 0;
      Emit();
      if reduced {
        depth := MaxDepthOf(forest, failed);
        Emit();
        return;
      }
      handles := handles + 1;
      timer, intervals := handles, intervals + {handles};
    }

    /** A running interval timer comes due. */
    method Tick(handle: nat)
      requires Valid() && handle in intervals
      modifies this
      ensures Valid() && View() == Next(forest, old(View()), Fire(handle))
      ensures failed == old(failed)
      ensures if old(depth) == MaxSpread(forest, failed.Keys) then timer == 0 && depth == old(depth)
              else timer == old(timer) && depth == old(depth) + 1
    {
      var max := MaxDepthOf(forest, failed);
      if depth >= max {
        Stop();
        return;
      }
      depth := depth + 1;
      Emit();
    }

    method ClearAll()
      requires intervals == (if timer == 0 then {} else {timer}) && timer <= handles
      modifies this
      ensures Valid() && View() == Next(forest, old(View()), Clear)
      ensures failed == map[] && depth == 0 && timer == 0
    {
      Stop();
      failed, depth := map[], 0;
      Emit();
    }

    method DestroyIt()
      requires Valid()
      modifies this
      ensures Valid() && View() == Next(forest, old(View()), Destroy)
      ensures failed == old(failed) && depth == old(depth) && timer == 0
    {
      Stop();
    }
  }

  /* ---------- What the simulation reaches ---------- */

  /** A failed node of this kind is somewhere above `x`. */
  ghost predicate Under(f: Forest, failed: map<Id, Kind>, kind: Kind, x: Id) {
    exists a :: a in failed && failed[a] == kind && a != x && Reaches(f.parentOf, x, a)
  }

  /** Everything the simulation takes down or quietens, however far it has spread. */
  method Reach(f: Forest, failed: map<Id, Kind>) returns (down: set<Id>, quiet: set<Id>)
    ensures forall x :: x in down <==> x in f.byId && x !in failed && Under(f, failed, Down, x)
    ensures forall x :: x in quiet
              <==> x in f.byId && x !in failed && Under(f, failed, Maintenance, x) && !Under(f, failed, Down, x)
    ensures down !! quiet
  {
    down, quiet := {}, {};
    var todo := failed.Keys;
    while todo != {}
      invariant todo <= failed.Keys
      invariant forall x :: x in down <==> x in f.byId && Under(f, failed - todo, Down, x)
      invariant forall x :: x in quiet <==> x in f.byId && Under(f, failed - todo, Maintenance, x)
      decreases todo
    {
      var id :| id in todo;
      var below := DescendantsOf(f, id);
      if failed[id] == Down { down := down + Elements(below); } else { quiet := quiet + Elements(below); }
      UnderMore(f, failed, todo, id);
      todo := todo - {id};
    }
    assert failed - todo == failed;
    down := down - failed.Keys;
    quiet := quiet - failed.Keys;
    quiet := quiet - down;
  }

  lemma UnderMore(f: Forest, failed: map<Id, Kind>, todo: set<Id>, id: Id)
    requires todo <= failed.Keys && id in todo
    ensures forall kind, x {:trigger Under(f, failed - (todo - {id}), kind, x)} ::
      (Under(f, failed - (todo - {id}), kind, x)
       <==> Under(f, failed - todo, kind, x) || (kind == failed[id] && id != x && Reaches(f.parentOf, x, id)))
  {
    var was, now := failed - todo, failed - (todo - {id});
    assert now == was[id := failed[id]];
    forall kind, x ensures Under(f, now, kind, x)
      <==> Under(f, was, kind, x) || (kind == failed[id] && id != x && Reaches(f.parentOf, x, id))
    {
      if Under(f, was, kind, x) {
        var a :| a in was && was[a] == kind && a != x && Reaches(f.parentOf, x, a);
        assert a in now && now[a] == kind;
      }
    }
  }

  /* ---------- What is drawn, at each depth ---------- */

  ghost function SceneAt(entryOf: map<Id, Entry>, failed: map<Id, Kind>, depth: int): Scene {
    Scene(entryOf, Sim(failed, Some(depth)))
  }

  /** A simulated cause is shown exactly under a simulated failure no more than `depth` links up. */
  lemma SimulatedCauses(f: Forest, entryOf: map<Id, Entry>, failed: map<Id, Kind>, depth: int, id: Id)
    requires id in f.byId
    ensures var s := SceneAt(entryOf, failed, depth); var cause := StateAt(s, f, id).cause;
      (cause.Some? && cause.value.sim)
      <==> exists d: nat, a :: Nearest(s, f.parentOf, id, d, a) && a in failed && d <= depth
  {
    var s := SceneAt(entryOf, failed, depth);
    if StateAt(s, f, id).cause.Some? {
      var d, a := CauseNeedsFailed(s, f, id);
      CauseIsNearest(s, f, id, d, a);
    }
    if exists d: nat, a :: Nearest(s, f.parentOf, id, d, a) && a in failed && d <= depth {
      var d: nat, a :| Nearest(s, f.parentOf, id, d, a) && a in failed && d <= depth;
      CauseIsNearest(s, f, id, d, a);
      NearestInside(s, f, id, d, a);
    }
  }

  lemma NearestInside(s: Scene, f: Forest, id: Id, d: nat, a: Id)
    requires id in f.byId && Nearest(s, f.parentOf, id, d, a) && a in s.sim.failed
    ensures PathLets(s, f.parentOf, id, 0, d, a)
  {
    assert Up(f.parentOf, id, 0) == Some(id);
  }

  lemma SameNearest(s: Scene, t: Scene, f: Forest, id: Id, d: nat, a: Id)
    requires s.entryOf == t.entryOf && s.sim.failed == t.sim.failed && Nearest(s, f.parentOf, id, d, a)
    ensures Nearest(t, f.parentOf, id, d, a) && CauseOf(s, a, d) == CauseOf(t, a, d)
    ensures PathLets(s, f.parentOf, id, 0, d, a) <==> PathLets(t, f.parentOf, id, 0, d, a)
  {
    assert forall x :: Failed(s, x) == Failed(t, x);
    assert forall x :: Lets(s, a, x) == Lets(t, a, x);
  }

  /** Spreading further only adds: every cause stays what it was, and no real one comes or goes. */
  lemma SpreadingOnlyAdds(f: Forest, entryOf: map<Id, Entry>, failed: map<Id, Kind>, depth: int, more: int, id: Id)
    requires id in f.byId && depth <= more
    ensures var now := StateAt(SceneAt(entryOf, failed, depth), f, id);
      var later := StateAt(SceneAt(entryOf, failed, more), f, id);
      && now.status == later.status
      && (now.cause.Some? ==> later.cause == now.cause)
      && (later.cause.Some? && !later.cause.value.sim ==> now.cause == later.cause)
  {
    var s, t := SceneAt(entryOf, failed, depth), SceneAt(entryOf, failed, more);
    if StateAt(s, f, id).cause.Some? {
      var d, a := CauseNeedsFailed(s, f, id);
      SameNearest(s, t, f, id, d, a);
      CauseIsNearest(s, f, id, d, a);
      CauseIsNearest(t, f, id, d, a);
    }
    if StateAt(t, f, id).cause.Some? {
      var d, a := CauseNeedsFailed(t, f, id);
      SameNearest(t, s, f, id, d, a);
      CauseIsNearest(s, f, id, d, a);
      CauseIsNearest(t, f, id, d, a);
    }
  }

  /** Any failed node above is either the nearest, or has the nearest below it. */
  lemma {:induction false} NearestExists(s: Scene, f: Forest, id: Id, n: nat) returns (d: nat, a: Id)
    requires id in f.byId && n > 0 && Up(f.parentOf, id, n).Some? && Failed(s, Up(f.parentOf, id, n).value)
    ensures Nearest(s, f.parentOf, id, d, a) && d <= n
    decreases n
  {
    var p := f.parentOf[id];
    assert p in f.byId;
    assert Up(f.parentOf, p, 0) == Some(p) && Up(f.parentOf, id, 1) == Some(p);
    if Failed(s, p) {
      d, a := 1, p;
    } else {
      d, a := NearestExists(s, f, p, n - 1);
      d := d + 1;
      NearestStep(s, f.parentOf, id, d, a);
    }
  }

  /**
   * Once a simulation has spread all the way, with nothing really down or in maintenance, the nodes
   * it shows a cause on (other than those it fails) are exactly the ones it says it reaches.
   */
  lemma SpreadMeetsReach(f: Forest, entryOf: map<Id, Entry>, failed: map<Id, Kind>, id: Id)
    requires id in f.byId && id !in failed
    requires forall x :: OwnStatus(SceneAt(entryOf, failed, 0), x) !in {IsDown, InMaintenance}
    ensures StateAt(SceneAt(entryOf, failed, MaxSpread(f, failed.Keys)), f, id).cause.Some?
       <==> Under(f, failed, Down, id) || Under(f, failed, Maintenance, id)
  {
    var s := SceneAt(entryOf, failed, MaxSpread(f, failed.Keys));
    assert forall x :: OwnStatus(s, x) == OwnStatus(SceneAt(entryOf, failed, 0), x);
    if StateAt(s, f, id).cause.Some? {
      var d, a := CauseNeedsFailed(s, f, id);
      assert a in failed && Reaches(f.parentOf, id, a);
    }
    if Under(f, failed, Down, id) || Under(f, failed, Maintenance, id) {
      var a :| a in failed && a != id && Reaches(f.parentOf, id, a);
      ReachesSelf(f.parentOf, id);
      assert Grounded(f.parentOf, id);
      ReachesDistance(f.parentOf, id, a);
      var d, b := NearestExists(s, f, id, DepthOf(f, id) - Depth(f.parentOf, a));
      assert b in failed;
      CauseIsNearest(s, f, id, d, b);
      NearestInside(s, f, id, d, b);
      WithinSpread(f, failed, id, d, b);
    }
  }

  lemma WithinSpread(f: Forest, failed: map<Id, Kind>, id: Id, d: nat, a: Id)
    requires id in f.byId && Up(f.parentOf, id, d) == Some(a) && a in failed
    ensures d <= MaxSpread(f, failed.Keys)
  {
    UpInForest(f, id, d);
    assert Grounded(f.parentOf, id);
    DepthUp(f.parentOf, id, d);
    assert Reaches(f.parentOf, id, a);
    MaxDepthBounds(f, Sub(f, a), id);
    MaxSpreadIs(f, failed.Keys);
    assert HeightOf(f, a) <= MaxSpread(f, failed.Keys);
  }

  /** A simulated failure of this kind is further up than `d` links. */
  ghost predicate Beyond(parentOf: map<Id, Id>, failed: map<Id, Kind>, kind: Kind, id: Id, d: nat) {
    exists n: nat :: n > d && FailsAt(parentOf, failed, kind, id, n)
  }

  ghost predicate FailsAt(parentOf: map<Id, Id>, failed: map<Id, Kind>, kind: Kind, id: Id, n: nat) {
    Up(parentOf, id, n).Some? && Up(parentOf, id, n).value in failed && failed[Up(parentOf, id, n).value] == kind
  }

  /** What is below a simulated failure of a kind: the nearest failure is one, or one further up is. */
  lemma UnderKind(f: Forest, s: Scene, kind: Kind, id: Id, d: nat, a: Id)
    requires id in f.byId && Nearest(s, f.parentOf, id, d, a)
    ensures Under(f, s.sim.failed, kind, id)
      <==> (a in s.sim.failed && s.sim.failed[a] == kind) || Beyond(f.parentOf, s.sim.failed, kind, id, d)
  {
    assert Grounded(f.parentOf, id);
    if Under(f, s.sim.failed, kind, id) {
      var b :| b in s.sim.failed && s.sim.failed[b] == kind && b != id && Reaches(f.parentOf, id, b);
      var n: nat :| Up(f.parentOf, id, n) == Some(b);
      assert n != 0;
      assert Failed(s, b);
      assert n >= d;
      assert n > d ==> FailsAt(f.parentOf, s.sim.failed, kind, id, n);
    }
    if a in s.sim.failed && s.sim.failed[a] == kind {
      AboveIsOther(f, id, d);
      assert Reaches(f.parentOf, id, a);
    }
    if Beyond(f.parentOf, s.sim.failed, kind, id, d) {
      var n: nat :| n > d && FailsAt(f.parentOf, s.sim.failed, kind, id, n);
      AboveIsOther(f, id, n);
      assert Reaches(f.parentOf, id, Up(f.parentOf, id, n).value);
    }
  }

  lemma AboveIsOther(f: Forest, id: Id, n: nat)
    requires id in f.byId && n > 0 && Up(f.parentOf, id, n).Some?
    ensures Up(f.parentOf, id, n) != Some(id)
  {
    assert Grounded(f.parentOf, id);
    DepthUp(f.parentOf, id, n);
  }

  /** How the banner counts a node: as cut off, as quiet, or not at all. */
  ghost function BannerKind(f: Forest, failed: map<Id, Kind>, id: Id): Option<Kind> {
    if id in failed then None
    else if Under(f, failed, Down, id) then Some(Down)
    else if Under(f, failed, Maintenance, id) then Some(Maintenance)
    else None
  }

  /**
   * The banner and the map can name different kinds: the banner counts a node as cut off when anything the
   * simulation takes down is above it, the map goes by the nearest failure, real or simulated. Where both
   * name a kind they differ exactly when the nearest failure is maintenance and a simulated outage is
   * further up, or the nearest is a real outage and no simulated one is. A node no simulated failure is
   * above the banner does not count at all.
   */
  lemma KindsDisagree(f: Forest, entryOf: map<Id, Entry>, failed: map<Id, Kind>, depth: int, id: Id, d: nat, a: Id)
    requires id in f.byId && Nearest(SceneAt(entryOf, failed, depth), f.parentOf, id, d, a)
    requires StateAt(SceneAt(entryOf, failed, depth), f, id).cause.Some?
    ensures var kind := StateAt(SceneAt(entryOf, failed, depth), f, id).cause.value.kind;
      var banner, up := BannerKind(f, failed, id), Beyond(f.parentOf, failed, Down, id, d);
      && (banner.Some? && banner.value != kind
          <==> id !in failed
               && if FailedKind(SceneAt(entryOf, failed, depth), a) == Maintenance then up
                  else a !in failed && !up && Beyond(f.parentOf, failed, Maintenance, id, d))
      && (banner.None? <==> id in failed || (a !in failed && !up && !Beyond(f.parentOf, failed, Maintenance, id, d)))
  {
    var s := SceneAt(entryOf, failed, depth);
    CauseIsNearest(s, f, id, d, a);
    UnderKind(f, s, Down, id, d, a);
    UnderKind(f, s, Maintenance, id, d, a);
  }

  /**
   * Even when it has spread all the way the banner counts nodes the map shows no cause on: exactly those
   * whose nearest failure is a real one that does not reach them, with a simulated one further up.
   */
  lemma MissedByMap(f: Forest, entryOf: map<Id, Entry>, failed: map<Id, Kind>, id: Id, d: nat, a: Id)
    requires id in f.byId && id !in failed
    requires Nearest(SceneAt(entryOf, failed, MaxSpread(f, failed.Keys)), f.parentOf, id, d, a)
    ensures var s := SceneAt(entryOf, failed, MaxSpread(f, failed.Keys));
      BannerKind(f, failed, id).Some? && StateAt(s, f, id).cause.None? <==>
        && a !in failed && !PathLets(s, f.parentOf, id, 0, d, a)
        && (Beyond(f.parentOf, failed, Down, id, d) || Beyond(f.parentOf, failed, Maintenance, id, d))
  {
    var s := SceneAt(entryOf, failed, MaxSpread(f, failed.Keys));
    CauseIsNearest(s, f, id, d, a);
    UnderKind(f, s, Down, id, d, a);
    UnderKind(f, s, Maintenance, id, d, a);
    if a in failed {
      NearestInside(s, f, id, d, a);
      WithinSpread(f, failed, id, d, a);
    }
  }

  /** A node that hangs from one that hangs from another. */
  function Chain(top: Node, middle: Node, low: Node): ForestData {
    ForestData([top.id, middle.id, low.id], map[top.id := top, middle.id := middle, low.id := low],
      map[middle.id := top.id, low.id := middle.id],
      map[top.id := [middle.id], middle.id := [low.id], low.id := []], [top.id], [])
  }

  lemma UpInChain(top: Node, middle: Node, low: Node)
    requires top.id != middle.id && middle.id != low.id && low.id != top.id
    ensures var up := Chain(top, middle, low).parentOf;
      Up(up, low.id, 1) == Some(middle.id) && Up(up, low.id, 2) == Some(top.id)
  {
    var up := Chain(top, middle, low).parentOf;
    assert Up(up, middle.id, 0) == Some(middle.id);
    assert Up(up, top.id, 0) == Some(top.id) && Up(up, middle.id, 1) == Some(top.id);
  }

  /** One way: the top fails, the middle goes into maintenance, and they differ on the lowest. */
  lemma KindsDisagreeInChain(top: Node, middle: Node, low: Node, entryOf: map<Id, Entry>, depth: int)
    requires top.id != middle.id && middle.id != low.id && low.id != top.id && depth >= 1
    ensures Valid(Chain(top, middle, low))
    ensures var f: Forest := Chain(top, middle, low); var failed := map[top.id := Down, middle.id := Maintenance];
      var cause := StateAt(SceneAt(entryOf, failed, depth), f, low.id).cause;
      cause.Some? && cause.value.kind == Maintenance && BannerKind(f, failed, low.id) == Some(Down)
  {
    ChainIsForest(top, middle, low);
    UpInChain(top, middle, low);
    var f: Forest := Chain(top, middle, low);
    var failed := map[top.id := Down, middle.id := Maintenance];
    var s := SceneAt(entryOf, failed, depth);
    assert FailsAt(f.parentOf, failed, Down, low.id, 2);
    CauseIsNearest(s, f, low.id, 1, middle.id);
    NearestInside(s, f, low.id, 1, middle.id);
    UnderKind(f, s, Down, low.id, 1, middle.id);
  }

  /** The other: the middle is really down, the top goes into maintenance, and they differ on the lowest. */
  lemma RealOutageInChain(top: Node, middle: Node, low: Node, entryOf: map<Id, Entry>, depth: int)
    requires top.id != middle.id && middle.id != low.id && low.id != top.id
    requires {middle.id, low.id} <= entryOf.Keys && entryOf[middle.id] == Entry(true, Some(IsDown), false) &&
      entryOf[low.id].affectedBy
    ensures Valid(Chain(top, middle, low))
    ensures var f: Forest := Chain(top, middle, low); var failed := map[top.id := Maintenance];
      var cause := StateAt(SceneAt(entryOf, failed, depth), f, low.id).cause;
      cause.Some? && cause.value.kind == Down && BannerKind(f, failed, low.id) == Some(Maintenance)
  {
    ChainIsForest(top, middle, low);
    UpInChain(top, middle, low);
    var f: Forest := Chain(top, middle, low);
    var failed := map[top.id := Maintenance];
    var s := SceneAt(entryOf, failed, depth);
    assert Up(f.parentOf, low.id, 0) == Some(low.id) && Lets(s, middle.id, low.id);
    CauseIsNearest(s, f, low.id, 1, middle.id);
    assert FailsAt(f.parentOf, failed, Maintenance, low.id, 2);
    UnderKind(f, s, Maintenance, low.id, 1, middle.id);
  }

  lemma ChainIsForest(top: Node, middle: Node, low: Node)
    requires top.id != middle.id && middle.id != low.id && low.id != top.id
    ensures Valid(Chain(top, middle, low))
  {
    var f := Chain(top, middle, low);
    GroundedParent(f.parentOf, low.id);
    GroundedParent(f.parentOf, middle.id);
    assert Up(f.parentOf, top.id, 1) == None;
    assert Grounded(f.parentOf, top.id);
  }
}
