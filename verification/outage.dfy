/** What each node and each line of a network map shows (mapStates and edgeState in web/netmap.js). */
module Outage {
  import opened Wrappers
  import opened Chains
  import opened Forests
  import opened Trees

  datatype Status = IsUp | IsDown | Degraded | Paused | InMaintenance | Unknown

  /** An overview entry; `status` is None when it is not one of the words the map knows. */
  datatype Entry = Entry(enabled: bool, status: Option<Status>, affectedBy: bool)

  datatype Kind = Down | Maintenance

  /** A what-if: the nodes it fails, and how far it has spread (None: all the way). */
  datatype Sim = Sim(failed: map<Id, Kind>, depth: Option<int>)

  /** What the map is drawn from. No what-if is one that fails nothing. */
  datatype Scene = Scene(entryOf: map<Id, Entry>, sim: Sim)

  datatype Cause = Cause(kind: Kind, source: Id, depth: nat, sim: bool)

  datatype State = State(status: Status, own: Status, sim: bool, cause: Option<Cause>)

  function OwnStatus(s: Scene, id: Id): Status {
    if id !in s.entryOf then Unknown
    else if !s.entryOf[id].enabled then Paused
    else if s.entryOf[id].status.Some? then s.entryOf[id].status.value
    else Unknown
  }

  function KindStatus(k: Kind): Status { if k == Down then IsDown else InMaintenance }

  function StatusOf(s: Scene, id: Id): Status {
    if id in s.sim.failed then KindStatus(s.sim.failed[id]) else OwnStatus(s, id)
  }

  predicate Failed(s: Scene, id: Id) { StatusOf(s, id) in {IsDown, InMaintenance} }

  function FailedKind(s: Scene, id: Id): Kind
    requires Failed(s, id)
  {
    if StatusOf(s, id) == IsDown then Down else Maintenance
  }

  predicate Reveals(s: Scene, depth: int) { s.sim.depth.Some? ==> depth <= s.sim.depth.value }

  predicate AffectedBy(s: Scene, id: Id) { id in s.entryOf && s.entryOf[id].affectedBy }

  /** Which of what is above a node it shows as its cause. */
  function CauseFrom(s: Scene, id: Id, inherited: Option<Cause>): Option<Cause> {
    match inherited
    case None => None
    case Some(c) =>
      if c.sim then if Reveals(s, c.depth) then inherited else None
      else if c.kind == Down then if AffectedBy(s, id) then inherited else None
      else if OwnStatus(s, id) != IsUp && OwnStatus(s, id) != Paused then inherited else None
  }

  /** What a node hands to its children. */
  function Mine(s: Scene, id: Id, inherited: Option<Cause>): Option<Cause> {
    if Failed(s, id) then Some(Cause(FailedKind(s, id), id, 1, id in s.sim.failed))
    else
      var passOn := if inherited.Some? && inherited.value.sim then inherited else CauseFrom(s, id, inherited);
      if passOn.Some? then Some(passOn.value.(depth := passOn.value.depth + 1)) else None
  }

  function StateFrom(s: Scene, id: Id, inherited: Option<Cause>): State {
    State(StatusOf(s, id), OwnStatus(s, id), id in s.sim.failed, CauseFrom(s, id, inherited))
  }

  /** What `id` inherits, told from the nodes above it. */
  ghost function Inherited(s: Scene, parentOf: map<Id, Id>, id: Id): Option<Cause>
    requires Grounded(parentOf, id)
    decreases Depth(parentOf, id)
  {
    DepthStep(parentOf, id);
    if id in parentOf then Mine(s, parentOf[id], Inherited(s, parentOf, parentOf[id])) else None
  }

  ghost function StateAt(s: Scene, f: Forest, id: Id): State
    requires id in f.byId
  {
    StateFrom(s, id, Inherited(s, f.parentOf, id))
  }

  ghost predicate Shown(s: Scene, f: Forest, out: map<Id, State>, ids: set<Id>) {
    forall x {:trigger x in ids} :: x in ids ==> x in f.byId && x in out && out[x] == StateAt(s, f, x)
  }

  lemma KidInherits(s: Scene, f: Forest, id: Id, k: Id)
    requires k in f.byId && id in f.byId && HangsFrom(f.parentOf, id, k)
    ensures Inherited(s, f.parentOf, k) == Mine(s, id, Inherited(s, f.parentOf, id))
  {
    assert Grounded(f.parentOf, k);
  }

  method Visit(s: Scene, f: Forest, id: Id, inherited: Option<Cause>, out: map<Id, State>)
    returns (out': map<Id, State>)
    requires id in f.byId && inherited == Inherited(s, f.parentOf, id)
    ensures out'.Keys == out.Keys + Sub(f, id)
    ensures Shown(s, f, out', Sub(f, id))
    ensures forall x :: x in out && x !in Sub(f, id) ==> out'[x] == out[x]
    decreases Room(f, id)
  {
    out' := out[id := StateFrom(s, id, inherited)];
    var mine := Mine(s, id, inherited);
    var kids := f.children[id];
    SubSplits(f, id);
    ghost var done: set<Id> := {id};
    for i := 0 to |kids|
      invariant done == {id} + SubAll(f, kids[..i])
      invariant out'.Keys == out.Keys + done && Shown(s, f, out', done)
      invariant forall x :: x in out && x !in done ==> out'[x] == out[x]
    {
      ChildBelow(f, id, kids[i]);
      SubAllSnoc(f, id, i);
      KidInherits(s, f, id, kids[i]);
      out' := Visit(s, f, kids[i], mine, out');
      done := done + Sub(f, kids[i]);
    }
    TakeAll(kids);
  }

  method MapStates(s: Scene, f: Forest) returns (out: map<Id, State>)
    ensures out.Keys == f.byId.Keys
    ensures forall id :: id in f.byId ==> out[id] == StateAt(s, f, id)
  {
    out := map[];
    ghost var done: set<Id> := {};
    for i := 0 to |f.roots|
      invariant done == SubAll(f, f.roots[..i])
      invariant out.Keys == done && Shown(s, f, out, done)
    {
      var r := f.roots[i];
      assert r in f.roots;
      TakeMore(f.roots, i);
      SubAllPlus(f, f.roots[..i], r);
      assert Grounded(f.parentOf, r);
      out := Visit(s, f, r, None, out);
      done := done + Sub(f, r);
    }
    TakeAll(f.roots);
    RootsHaveAll(f);
  }

  /* ---------- The nearest failed node above ---------- */

  /** `a`, `d` links above `id`, is the nearest node above it that is down or in maintenance. */
  ghost predicate Nearest(s: Scene, parentOf: map<Id, Id>, id: Id, d: nat, a: Id) {
    && d > 0 && Up(parentOf, id, d) == Some(a) && Failed(s, a)
    && forall m: nat :: 0 < m < d ==> Up(parentOf, id, m).Some? && !Failed(s, Up(parentOf, id, m).value)
  }

  /** An outage of `a` reaches `x` from the node above it. */
  predicate Lets(s: Scene, a: Id, x: Id)
    requires Failed(s, a)
  {
    a in s.sim.failed
    || (if FailedKind(s, a) == Down then AffectedBy(s, x) else OwnStatus(s, x) != IsUp && OwnStatus(s, x) != Paused)
  }

  /** Every node from `id` up to just below `a` lets it through, from the `first`-th on. */
  ghost predicate PathLets(s: Scene, parentOf: map<Id, Id>, id: Id, first: nat, d: nat, a: Id)
    requires Failed(s, a)
  {
    forall m: nat :: first <= m < d ==> Up(parentOf, id, m).Some? && Lets(s, a, Up(parentOf, id, m).value)
  }

  ghost function CauseOf(s: Scene, a: Id, d: nat): Cause
    requires Failed(s, a)
  {
    Cause(FailedKind(s, a), a, d, a in s.sim.failed)
  }

  lemma NearestStep(s: Scene, parentOf: map<Id, Id>, id: Id, d: nat, a: Id)
    requires id in parentOf
    ensures Nearest(s, parentOf, id, d, a)
       <==> if Failed(s, parentOf[id]) then d == 1 && a == parentOf[id]
            else d > 1 && Nearest(s, parentOf, parentOf[id], d - 1, a)
  {
    var p := parentOf[id];
    assert Up(parentOf, id, 1) == Some(p) by { assert Up(parentOf, p, 0) == Some(p); }
    if Nearest(s, parentOf, id, d, a) && d > 1 {
      assert !Failed(s, Up(parentOf, id, 1).value);
      forall m: nat | 0 < m < d - 1 ensures Up(parentOf, p, m).Some? && !Failed(s, Up(parentOf, p, m).value) {
        assert Up(parentOf, id, m + 1) == Up(parentOf, p, m);
      }
    }
    if !Failed(s, p) && d > 1 && Nearest(s, parentOf, p, d - 1, a) {
      forall m: nat | 0 < m < d ensures Up(parentOf, id, m).Some? && !Failed(s, Up(parentOf, id, m).value) {
        assert Up(parentOf, id, m) == Up(parentOf, p, m - 1);
        assert Up(parentOf, p, 0) == Some(p);
      }
    }
  }

  lemma PathStep(s: Scene, parentOf: map<Id, Id>, id: Id, d: nat, a: Id)
    requires id in parentOf && d > 1 && Failed(s, a)
    ensures PathLets(s, parentOf, id, 1, d, a)
       <==> PathLets(s, parentOf, parentOf[id], 1, d - 1, a) && Lets(s, a, parentOf[id])
    ensures PathLets(s, parentOf, id, 0, d, a) <==> PathLets(s, parentOf, id, 1, d, a) && Lets(s, a, id)
  {
    var p := parentOf[id];
    assert Up(parentOf, p, 0) == Some(p) && Up(parentOf, id, 1) == Some(p) && Up(parentOf, id, 0) == Some(id);
    assert forall m: nat :: Up(parentOf, id, m + 1) == Up(parentOf, p, m);
    if PathLets(s, parentOf, id, 1, d, a) {
      forall m: nat | 1 <= m < d - 1 ensures Up(parentOf, p, m).Some? && Lets(s, a, Up(parentOf, p, m).value) {
        assert Up(parentOf, id, m + 1) == Up(parentOf, p, m);
      }
    }
    if PathLets(s, parentOf, p, 1, d - 1, a) && Lets(s, a, p) {
      forall m: nat | 1 <= m < d ensures Up(parentOf, id, m).Some? && Lets(s, a, Up(parentOf, id, m).value) {
        assert Up(parentOf, id, m) == Up(parentOf, p, m - 1);
      }
    }
  }

  /** What a node inherits is its nearest failed ancestor, if that reaches the node above. */
  lemma {:induction false} InheritsNearest(s: Scene, parentOf: map<Id, Id>, id: Id, d: nat, a: Id)
    requires Grounded(parentOf, id) && Nearest(s, parentOf, id, d, a)
    ensures Inherited(s, parentOf, id) == if PathLets(s, parentOf, id, 1, d, a) then Some(CauseOf(s, a, d)) else None
    decreases d
  {
    DepthStep(parentOf, id);
    NearestStep(s, parentOf, id, d, a);
    if d > 1 {
      InheritsNearest(s, parentOf, parentOf[id], d - 1, a);
      PathStep(s, parentOf, id, d, a);
    }
  }

  lemma {:induction false} InheritsNothing(s: Scene, parentOf: map<Id, Id>, id: Id)
    requires Grounded(parentOf, id) && forall d, a :: !Nearest(s, parentOf, id, d, a)
    ensures Inherited(s, parentOf, id) == None
    decreases Depth(parentOf, id)
  {
    DepthStep(parentOf, id);
    if id in parentOf {
      var p := parentOf[id];
      NearestStep(s, parentOf, id, 1, p);
      forall d: nat, a ensures !Nearest(s, parentOf, p, d, a) {
        if d > 0 { NearestStep(s, parentOf, id, d + 1, a); }
      }
      InheritsNothing(s, parentOf, p);
    }
  }

  /**
   * A node's cause is its nearest failed ancestor, at its distance, exactly when that reaches it: a
   * simulated one when it has spread this far, a real one when every node on the way lets it through.
   */
  lemma CauseIsNearest(s: Scene, f: Forest, id: Id, d: nat, a: Id)
    requires id in f.byId && Nearest(s, f.parentOf, id, d, a)
    ensures StateAt(s, f, id).cause
         == (if PathLets(s, f.parentOf, id, 0, d, a) && (a in s.sim.failed ==> Reveals(s, d))
             then Some(CauseOf(s, a, d)) else None)
  {
    assert Grounded(f.parentOf, id);
    InheritsNearest(s, f.parentOf, id, d, a);
    assert Up(f.parentOf, id, 0) == Some(id);
    assert PathLets(s, f.parentOf, id, 0, d, a) <==> PathLets(s, f.parentOf, id, 1, d, a) && Lets(s, a, id);
  }

  lemma CauseNeedsFailed(s: Scene, f: Forest, id: Id) returns (d: nat, a: Id)
    requires id in f.byId && StateAt(s, f, id).cause.Some?
    ensures Nearest(s, f.parentOf, id, d, a) && StateAt(s, f, id).cause == Some(CauseOf(s, a, d))
  {
    assert Grounded(f.parentOf, id);
    if forall d: nat, a :: !Nearest(s, f.parentOf, id, d, a) { InheritsNothing(s, f.parentOf, id); }
    d, a :| Nearest(s, f.parentOf, id, d, a);
    CauseIsNearest(s, f, id, d, a);
  }

  /* ---------- Told from the entries alone ---------- */

  /** What the overview says of a node that is switched on, where it says a word the map knows. */
  ghost predicate Says(s: Scene, id: Id, status: Status) {
    id in s.entryOf && s.entryOf[id].enabled && s.entryOf[id].status == Some(status)
  }

  ghost predicate SwitchedOff(s: Scene, id: Id) { id in s.entryOf && !s.entryOf[id].enabled }

  /** A simulated node shows what it is simulated to be, one switched off is paused, any other shows what is known. */
  lemma ShownFromEntries(s: Scene, f: Forest, id: Id, status: Status)
    requires id in f.byId
    ensures var st := StateAt(s, f, id);
      && st.sim == (id in s.sim.failed)
      && (st.sim ==> (st.status == IsDown <==> s.sim.failed[id] == Down) && st.status in {IsDown, InMaintenance})
      && (!st.sim ==> st.status == st.own)
      && (SwitchedOff(s, id) ==> st.own == Paused)
      && (Says(s, id, status) ==> st.own == status)
      && (!SwitchedOff(s, id) && (forall w :: !Says(s, id, w)) ==> st.own == Unknown)
  {
    if id in s.entryOf && s.entryOf[id].enabled && s.entryOf[id].status.Some? {
      assert Says(s, id, s.entryOf[id].status.value);
    }
  }

  /** A node is down or in maintenance by being simulated, or else by what the overview says of it. */
  lemma FailedFromEntries(s: Scene, id: Id)
    ensures Failed(s, id) <==> id in s.sim.failed || Says(s, id, IsDown) || Says(s, id, InMaintenance)
    ensures Failed(s, id) ==>
      (FailedKind(s, id) == Down <==> if id in s.sim.failed then s.sim.failed[id] == Down else Says(s, id, IsDown))
  {
  }

  /** A real outage passes only what is marked as affected, real maintenance only what is neither up nor paused. */
  ghost predicate PassesOn(s: Scene, a: Id, x: Id) {
    if a in s.sim.failed then true
    else if Says(s, a, IsDown) then x in s.entryOf && s.entryOf[x].affectedBy
    else !Says(s, x, IsUp) && !Says(s, x, Paused) && !SwitchedOff(s, x)
  }

  /** `x` is `id` or on its way up to the node `d` links above it. */
  ghost predicate OnTheWay(parentOf: map<Id, Id>, id: Id, d: nat, x: Id) {
    exists m: nat :: m < d && Up(parentOf, id, m) == Some(x)
  }

  /**
   * The cause a node shows, told from the entries: its nearest failed ancestor, if every node on the way,
   * itself included, passes that on, or if it is simulated and has spread this far.
   */
  lemma CauseFromEntries(s: Scene, f: Forest, id: Id, d: nat, a: Id)
    requires id in f.byId && Nearest(s, f.parentOf, id, d, a)
    ensures var cause := StateAt(s, f, id).cause;
      && (cause.Some? <==>
            (forall x :: OnTheWay(f.parentOf, id, d, x) ==> PassesOn(s, a, x)) && (a in s.sim.failed ==> Reveals(s, d)))
      && (cause.Some? ==> cause.value.source == a && cause.value.depth == d && cause.value.sim == (a in s.sim.failed))
      && (cause.Some? ==>
            (cause.value.kind == Down <==>
              if a in s.sim.failed then s.sim.failed[a] == Down else Says(s, a, IsDown)))
  {
    CauseIsNearest(s, f, id, d, a);
    FailedFromEntries(s, a);
    PathFromEntries(s, f, id, d, a);
  }

  lemma PathFromEntries(s: Scene, f: Forest, id: Id, d: nat, a: Id)
    requires id in f.byId && Nearest(s, f.parentOf, id, d, a)
    ensures PathLets(s, f.parentOf, id, 0, d, a) <==>
      forall x :: OnTheWay(f.parentOf, id, d, x) ==> PassesOn(s, a, x)
  {
    forall x ensures Lets(s, a, x) <==> PassesOn(s, a, x) { }
    if forall x :: OnTheWay(f.parentOf, id, d, x) ==> PassesOn(s, a, x) {
      forall m: nat | m < d ensures Up(f.parentOf, id, m).Some? && Lets(s, a, Up(f.parentOf, id, m).value) {
        assert Up(f.parentOf, id, 0) == Some(id);
        assert OnTheWay(f.parentOf, id, d, Up(f.parentOf, id, m).value);
      }
    }
  }

  /**
   * A node that is switched off takes no cause from real maintenance, nor does anything below it while that
   * is the nearest failure.
   */
  lemma SwitchedOffStopsMaintenance(s: Scene, f: Forest, id: Id, d: nat, a: Id, x: Id)
    requires id in f.byId && Nearest(s, f.parentOf, id, d, a)
    requires a !in s.sim.failed && Says(s, a, InMaintenance) && OnTheWay(f.parentOf, id, d, x) && SwitchedOff(s, x)
    ensures StateAt(s, f, id).cause == None
  {
    CauseFromEntries(s, f, id, d, a);
    assert !PassesOn(s, a, x);
  }

  /* ---------- Lines ---------- */

  datatype Mark = Unmarked | Cut | Quiet | Affected

  function EdgeState(s: Scene, states: map<Id, State>, parent: Id, id: Id): Mark {
    if parent in states && states[parent].status in {IsDown, InMaintenance} &&
      (states[parent].sim ==> Reveals(s, 1)) then
      if states[parent].status == IsDown then Cut else Quiet
    else if id !in states || states[id].cause == None || states[id].cause.value.depth < 2 then Unmarked
    else if states[id].cause.value.kind == Maintenance then Quiet
    else Affected
  }

  lemma NearestBelow(s: Scene, f: Forest, id: Id, d: nat, a: Id, j: nat)
    requires id in f.byId && Nearest(s, f.parentOf, id, d, a) && 1 <= j <= d
    ensures Up(f.parentOf, id, d - j).Some?
    ensures var x := Up(f.parentOf, id, d - j).value; x in f.byId && Nearest(s, f.parentOf, x, j, a)
  {
    UpAdd(f.parentOf, id, d - j, j);
    var x := Up(f.parentOf, id, d - j).value;
    UpInForest(f, id, d - j);
    forall m: nat | 0 < m < j ensures Up(f.parentOf, x, m).Some? && !Failed(s, Up(f.parentOf, x, m).value) {
      UpAdd(f.parentOf, id, d - j, m);
    }
  }

  lemma PathBelow(s: Scene, f: Forest, id: Id, d: nat, a: Id, j: nat)
    requires id in f.byId && Nearest(s, f.parentOf, id, d, a) && 1 <= j <= d && PathLets(s, f.parentOf, id, 0, d, a)
    ensures Up(f.parentOf, id, d - j).Some? && PathLets(s, f.parentOf, Up(f.parentOf, id, d - j).value, 0, j, a)
  {
    NearestBelow(s, f, id, d, a, j);
    var x := Up(f.parentOf, id, d - j).value;
    forall m: nat | m < j ensures Up(f.parentOf, x, m).Some? && Lets(s, a, Up(f.parentOf, x, m).value) {
      UpAdd(f.parentOf, id, d - j, m);
    }
  }

  /** The line to a node that has a cause. */
  lemma LineTo(s: Scene, f: Forest, states: map<Id, State>, x: Id, d: nat, a: Id)
    requires states.Keys == f.byId.Keys && forall y :: y in f.byId ==> states[y] == StateAt(s, f, y)
    requires x in f.byId && Nearest(s, f.parentOf, x, d, a) && states[x].cause == Some(CauseOf(s, a, d))
    ensures x in f.parentOf && EdgeState(s, states, f.parentOf[x], x)
      == if FailedKind(s, a) == Maintenance then Quiet else if d == 1 then Cut else Affected
  {
    NearestStep(s, f.parentOf, x, d, a);
    CauseIsNearest(s, f, x, d, a);
    var p := f.parentOf[x];
    assert p in f.byId && states[p] == StateAt(s, f, p);
  }

  /**
   * From the node that causes it down to `id`, every line is marked: the first cut (or quiet), the
   * later ones affected (or quiet). `x` is the node `j` links below the cause.
   */
  lemma MarkedAllTheWay(s: Scene, f: Forest, states: map<Id, State>, id: Id, j: nat)
    requires states.Keys == f.byId.Keys && forall x :: x in f.byId ==> states[x] == StateAt(s, f, x)
    requires id in f.byId && states[id].cause.Some? && 1 <= j <= states[id].cause.value.depth
    ensures var c := states[id].cause.value;
      var up := Up(f.parentOf, id, c.depth - j);
      && up.Some? && up.value in f.parentOf && Up(f.parentOf, id, c.depth) == Some(c.source)
      && EdgeState(s, states, f.parentOf[up.value], up.value)
         == if c.kind == Maintenance then Quiet else if j == 1 then Cut else Affected
  {
    var d, a := CauseNeedsFailed(s, f, id);
    CauseIsNearest(s, f, id, d, a);
    NearestBelow(s, f, id, d, a, j);
    PathBelow(s, f, id, d, a, j);
    var x := Up(f.parentOf, id, d - j).value;
    CauseIsNearest(s, f, x, j, a);
    LineTo(s, f, states, x, j, a);
  }

  /**
   * A line is marked only where an outage is: it leaves a failed node (a simulated one once it has
   * begun to spread), cut if that is down and quiet if it is in maintenance, or the node it leads to has a
   * cause, through the node it comes from.
   */
  lemma MarkedOnlyThere(s: Scene, f: Forest, states: map<Id, State>, id: Id)
    requires states.Keys == f.byId.Keys && forall x :: x in f.byId ==> states[x] == StateAt(s, f, x)
    requires id in f.parentOf
    ensures EdgeState(s, states, f.parentOf[id], id) != Unmarked
       <==> if Failed(s, f.parentOf[id]) then f.parentOf[id] in s.sim.failed ==> Reveals(s, 1)
            else states[id].cause.Some?
    ensures EdgeState(s, states, f.parentOf[id], id) ==
      if Failed(s, f.parentOf[id]) then
        if f.parentOf[id] in s.sim.failed && !Reveals(s, 1) then Unmarked
        else if FailedKind(s, f.parentOf[id]) == Down then Cut else Quiet
      else if states[id].cause == None then Unmarked
      else if states[id].cause.value.kind == Maintenance then Quiet else Affected
  {
    var p := f.parentOf[id];
    assert p in f.byId && id in f.byId;
    if states[id].cause.Some? {
      var d, a := CauseNeedsFailed(s, f, id);
      NearestStep(s, f.parentOf, id, d, a);
      if Failed(s, p) { CauseIsNearest(s, f, id, d, a); }
    }
  }
}
