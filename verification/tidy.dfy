/** Dragging, unpinning and tidying a hand arrangement (carriedBy, unpin and tidyUnpinned in web/netmap.js). */
module Tidying {
  import opened Wrappers
  import opened Chains
  import opened Forests
  import opened Trees
  import opened Arrange

  type Places = map<Id, Place>

  predicate Pinned(stored: Places, id: Id) { id in stored && stored[id].pinned }

  function PinsOf(stored: Places): Places { map id | id in stored && stored[id].pinned :: stored[id] }

  /* ---------- What moves with a node ---------- */

  /** `x` hangs from `id`, through however many nodes, and neither it nor any of those is pinned. */
  ghost predicate Carried(f: Forest, stored: Places, id: Id, x: Id)
    decreases if x in f.byId then DepthOf(f, x) else 0
  {
    && x in f.parentOf && x in f.byId && !Pinned(stored, x)
    && (assert f.parentOf[x] in f.byId; ParentShallower(f, x); f.parentOf[x] == id ||
      Carried(f, stored, id, f.parentOf[x]))
  }

  lemma ParentShallower(f: Forest, x: Id)
    requires x in f.parentOf
    ensures f.parentOf[x] in f.byId && x in f.byId && DepthOf(f, f.parentOf[x]) + 1 == DepthOf(f, x)
  {
    assert f.parentOf[x] in f.byId && Grounded(f.parentOf, x);
    DepthStep(f.parentOf, x);
  }

  /** Below a child of `id`, what `id` carries is the child, unless it is pinned, and what the child carries. */
  lemma CarriedInKid(f: Forest, stored: Places, id: Id, k: Id)
    requires id in f.byId && k in f.byId && HangsFrom(f.parentOf, id, k)
    ensures forall x :: x in Sub(f, k) && Carried(f, stored, id, x)
                        <==> !Pinned(stored, k) && (x == k || Carried(f, stored, k, x))
  {
    SubSelf(f, k);
    forall x ensures x in Sub(f, k) && Carried(f, stored, id, x)
                     <==> !Pinned(stored, k) && (x == k || Carried(f, stored, k, x))
    {
      if x in Sub(f, k) {
        CarriedThrough(f, stored, id, k, x);
      } else if Carried(f, stored, k, x) {
        CarriedBelow(f, stored, k, x);
      }
    }
  }

  lemma {:induction false} CarriedThrough(f: Forest, stored: Places, id: Id, k: Id, x: Id)
    requires id in f.byId && k in f.byId && HangsFrom(f.parentOf, id, k) && x in Sub(f, k)
    ensures Carried(f, stored, id, x) <==> !Pinned(stored, k) && (x == k || Carried(f, stored, k, x))
    decreases DepthOf(f, x)
  {
    SubDeeper(f, k, x);
    ParentShallower(f, k);
    if x == k {
      if Carried(f, stored, k, k) { CarriedBelow(f, stored, k, k); }
    } else {
      var p := f.parentOf[x];
      ParentShallower(f, x);
      SubDeeper(f, k, p);
      CarriedThrough(f, stored, id, k, p);
    }
  }

  lemma {:induction false} CarriedBelow(f: Forest, stored: Places, id: Id, x: Id)
    requires Carried(f, stored, id, x)
    ensures id in f.byId && x in Sub(f, id) && DepthOf(f, x) > DepthOf(f, id)
    decreases DepthOf(f, x)
  {
    var p := f.parentOf[x];
    ParentShallower(f, x);
    if p == id { ReachesSelf(f.parentOf, id); } else { CarriedBelow(f, stored, id, p); }
    ReachesParent(f.parentOf, x, id);
  }

  /** Everything that moves when `id` is dragged, parents before children. */
  method CarriedBy(f: Forest, id: Id, stored: Places) returns (out: seq<Id>)
    ensures NoDup(out)
    ensures forall x :: x in out <==> Carried(f, stored, id, x)
  {
    if id in f.byId {
      out := WalkFree(f, id, stored);
    } else {
      out := [];
      forall x ensures !Carried(f, stored, id, x) {
        if Carried(f, stored, id, x) { CarriedBelow(f, stored, id, x); }
      }
    }
  }

  method WalkFree(f: Forest, id: Id, stored: Places) returns (out: seq<Id>)
    requires id in f.byId
    ensures NoDup(out)
    ensures forall x :: x in out <==> Carried(f, stored, id, x)
    decreases Room(f, id)
  {
    out := [];
    var kids := f.children[id];
    SubSplits(f, id);
    ghost var done: set<Id> := {};
    for i := 0 to |kids|
      invariant NoDup(out) && done == SubAll(f, kids[..i])
      invariant forall x :: x in out <==> x in done && Carried(f, stored, id, x)
    {
      var k := kids[i];
      ChildBelow(f, id, k);
      CarriedInKid(f, stored, id, k);
      SubAllSnoc(f, id, i);
      if !Pinned(stored, k) {
        var below := WalkFree(f, k, stored);
        WalkJoins(f, stored, done, k, out, below);
        out := out + [k] + below;
      }
      done := done + Sub(f, k);
    }
    TakeAll(kids);
    forall x | Carried(f, stored, id, x) ensures x in done { CarriedBelow(f, stored, id, x); }
  }

  lemma WalkJoins(f: Forest, stored: Places, done: set<Id>, k: Id, out: seq<Id>, below: seq<Id>)
    requires k in f.byId && NoDup(out) && NoDup(below) && done !! Sub(f, k)
    requires forall x :: x in out ==> x in done
    requires forall x :: x in below <==> Carried(f, stored, k, x)
    ensures NoDup(out + [k] + below)
  {
    SubSelf(f, k);
    forall x | x in below ensures x in Sub(f, k) && x != k { CarriedBelow(f, stored, k, x); }
    var all := out + [k] + below;
    forall i, j | 0 <= i < j < |all| ensures all[i] != all[j] {
      assert i < |out| ==> all[i] in out;
      assert j > |out| ==> all[j] in below;
    }
  }

  /** Two pinned nodes never carry the same node: it goes with the nearer. */
  lemma {:induction false} CarriedByOne(f: Forest, stored: Places, a: Id, b: Id, x: Id)
    requires Pinned(stored, a) && Pinned(stored, b) && Carried(f, stored, a, x) && Carried(f, stored, b, x)
    ensures a == b
    decreases DepthOf(f, x)
  {
    var p := f.parentOf[x];
    ParentShallower(f, x);
    if p != a && p != b { CarriedByOne(f, stored, a, b, p); }
  }

  /** Gives up the pin of `id` and the places that hung on it; all others stay. */
  method Unpin(f: Forest, stored: Places, id: Id) returns (left: Places)
    ensures forall x :: x in left <==> x in stored && x != id && !Carried(f, stored, id, x)
    ensures forall x :: x in left ==> left[x] == stored[x]
    ensures forall x :: Pinned(stored, x) && x != id ==> Pinned(left, x)
  {
    var group := CarriedBy(f, id, stored);
    left := stored - {id};
    for i := 0 to |group|
      invariant forall x :: x in left <==> x in stored && x != id && x !in group[..i]
      invariant forall x :: x in left ==> left[x] == stored[x]
    {
      TakeMore(group, i);
      assert group[i] in group;
      if group[i] in left && !left[group[i]].pinned { left := left - {group[i]}; }
    }
    TakeAll(group);
  }

  /* ---------- Tidying up what nobody placed ---------- */

  /** The box a node is drawn in with the spacing round it, and the turns that are tried, none first. */
  datatype Spacing = Spacing(w: real, h: real, turns: seq<Turn>)

  /** The first turn tried is none at all. */
  predicate TriesNone(gap: Spacing) { gap.turns != [] && gap.turns[0] == NO_TURN }

  /** The arrangement as it is tidied: where everything is, what had to turn, and what is dealt with. */
  datatype Tidied = Tidied(at: map<Id, Drawn>, kept: Places, settled: set<Id>)

  predicate Clash(gap: Spacing, a: Point, b: Point) {
    -gap.w < a.x - b.x < gap.w && -gap.h < a.y - b.y < gap.h
  }

  /** Where `k` goes when the group of `id` is turned round it. */
  function TurnedTo(at: map<Id, Drawn>, cell: Cell, id: Id, k: Id, t: Turn): Point
    requires id in at && k in at
  {
    var centre := ToCells(at[id].at, cell);
    ToPage(Plus(centre, Rotate(t, Minus(ToCells(at[k].at, cell), centre))), cell)
  }

  /** What a turned group is kept clear of. */
  function Others(f: Forest, pins: Places, st: Tidied, moving: set<Id>): set<Id> {
    set k | k in st.at && k !in moving
      && (k in st.settled || k !in f.parentOf || k in pins || f.parentOf[k] !in moving)
  }

  /** A group about to be turned round `id`, and what it is to be kept clear of. */
  datatype Move = Move(at: map<Id, Drawn>, cell: Cell, gap: Spacing, id: Id, group: set<Id>, others: set<Id>)

  type Moving = m: Move | m.id in m.at && m.group <= m.at.Keys && m.others <= m.at.Keys
    witness Move(map[Id("") := Drawn(Point(0.0, 0.0), false, false)], CellSize(1.0, 1.0), Spacing(0.0, 0.0, []),
      Id(""), {}, {})

  /** Turned by `t`, the group's `k` would be on top of `o`. */
  predicate Hits(m: Moving, t: Turn, k: Id, o: Id)
    requires k in m.at && o in m.at
  {
    Clash(m.gap, TurnedTo(m.at, m.cell, m.id, k, t), m.at[o].at)
  }

  /** How many pairs of a node of the turned group and one of the others would be on top of each other. */
  function Clashes(m: Moving, t: Turn): nat { |HitsOf(m, m.group, t)| }

  function HitsOf(m: Moving, group: set<Id>, t: Turn): set<(Id, Id)>
    requires group <= m.at.Keys
  {
    set k, o | k in group && o in m.others && Hits(m, t, k, o) :: (k, o)
  }

  /** The first of the first `n` turns that leaves fewest clashes. */
  function BestOf(m: Moving, n: nat): (best: nat)
    requires 0 < n <= |m.gap.turns|
    ensures best < n
    ensures forall j :: 0 <= j < n ==> Clashes(m, m.gap.turns[best]) <= Clashes(m, m.gap.turns[j])
    ensures forall j :: 0 <= j < best ==> Clashes(m, m.gap.turns[best]) < Clashes(m, m.gap.turns[j])
  {
    if n == 1 then 0
    else
      var b := BestOf(m, n - 1);
      if Clashes(m, m.gap.turns[n - 1]) < Clashes(m, m.gap.turns[b]) then n - 1 else b
  }

  /** The pairs of a node of the group and one of the others that are on top of each other. */
  ghost function Overlaps(gap: Spacing, at: map<Id, Drawn>, group: set<Id>, others: set<Id>): set<(Id, Id)>
    requires group <= at.Keys && others <= at.Keys
  {
    set k, o | k in group && o in others && Clash(gap, at[k].at, at[o].at) :: (k, o)
  }

  lemma NoTurnStays(at: map<Id, Drawn>, cell: Cell, id: Id, k: Id)
    requires id in at && k in at
    ensures TurnedTo(at, cell, id, k, NO_TURN) == at[k].at
  {
    var centre, p := ToCells(at[id].at, cell), ToCells(at[k].at, cell);
    assert Plus(centre, Rotate(NO_TURN, Minus(p, centre))) == p;
    PageAndBack(at[k].at, cell);
  }

  /** Not turning is what leaves the group as it is, so the turn that is chosen never leaves more clashes. */
  lemma BestIsNoWorse(m: Moving)
    requires TriesNone(m.gap)
    ensures Clashes(m, m.gap.turns[BestOf(m, |m.gap.turns|)]) <= |Overlaps(m.gap, m.at, m.group, m.others)|
  {
    forall k, o | k in m.group && o in m.others ensures Hits(m, NO_TURN, k, o) == Clash(m.gap, m.at[k].at, m.at[o].at) {
      NoTurnStays(m.at, m.cell, m.id, k);
    }
    assert HitsOf(m, m.group, NO_TURN) == Overlaps(m.gap, m.at, m.group, m.others);
    assert Clashes(m, m.gap.turns[0]) == |Overlaps(m.gap, m.at, m.group, m.others)|;
  }

  function Tenth(x: real): real { (x * 10.0 + 0.5).Floor as real / 10.0 }

  ghost function GroupOf(f: Forest, pins: Places, id: Id): set<Id> { set x | x in f.byId && Carried(f, pins, id, x) }

  /** The group of `id` set down where it was turned to; it is remembered if it had to turn. */
  function Moved(st: Tidied, cell: Cell, id: Id, placed: map<Id, Point>, turned: bool): Tidied
    requires placed.Keys <= st.at.Keys
  {
    Tidied(st.at + (map k | k in placed :: st.at[k].(at := placed[k])),
           if turned then st.kept + (map k | k in placed :: KeptPlace(placed[k], cell)) else st.kept,
           st.settled + placed.Keys + {id})
  }

  /** What turning the group of `id` by the chosen turn does. */
  function TurnGroup(st: Tidied, cell: Cell, id: Id, group: set<Id>, t: Turn, turned: bool): Tidied
    requires id in st.at && group <= st.at.Keys
  {
    Moved(st, cell, id, TurnedPlaces(st.at, cell, id, group, t), turned)
  }

  function KeptPlace(p: Point, cell: Cell): Place { Place(Tenth(p.x / cell.w), Tenth(p.y / cell.h), false) }

  /** One node of the walk: the group of a pinned one is given the first turn that overlaps least. */
  ghost function TidyOne(f: Forest, pins: Places, cell: Cell, gap: Spacing, st: Tidied, id: Id): Tidied
    requires TriesNone(gap)
  {
    var group := GroupOf(f, pins, id);
    if id !in pins || group == {} || id !in st.at || !(group <= st.at.Keys) then st
    else
      var others := Others(f, pins, st, group + {id});
      var best := BestOf(Move(st.at, cell, gap, id, group, others), |gap.turns|);
      TurnGroup(st, cell, id, group, gap.turns[best], best != 0)
  }

  /** After its turn the group is on top of no more of the others than it was before. */
  lemma TidyingNeverAddsClashes(f: Forest, pins: Places, cell: Cell, gap: Spacing, st: Tidied, id: Id)
    requires TriesNone(gap) && id in st.at && GroupOf(f, pins, id) <= st.at.Keys
    ensures var group := GroupOf(f, pins, id); var others := Others(f, pins, st, group + {id});
      var after := TidyOne(f, pins, cell, gap, st, id);
      && after.at.Keys == st.at.Keys
      && |Overlaps(gap, after.at, group, others)| <= |Overlaps(gap, st.at, group, others)|
  {
    var group := GroupOf(f, pins, id);
    if id in pins && group != {} {
      var m: Moving := Move(st.at, cell, gap, id, group, Others(f, pins, st, group + {id}));
      BestIsNoWorse(m);
      TurnedOverlaps(m, st, gap.turns[BestOf(m, |gap.turns|)], BestOf(m, |gap.turns|) != 0);
    }
  }

  lemma TurnedOverlaps(m: Moving, st: Tidied, t: Turn, turned: bool)
    requires st.at == m.at && m.group !! m.others
    ensures var after := TurnGroup(st, m.cell, m.id, m.group, t, turned);
      after.at.Keys == st.at.Keys && |Overlaps(m.gap, after.at, m.group, m.others)| == Clashes(m, t)
  {
    var after := TurnGroup(st, m.cell, m.id, m.group, t, turned);
    assert after.at.Keys == st.at.Keys;
    assert forall k :: k in m.group ==> after.at[k].at == TurnedTo(m.at, m.cell, m.id, k, t);
    assert forall o :: o in m.others ==> after.at[o] == m.at[o];
    assert Overlaps(m.gap, after.at, m.group, m.others) == HitsOf(m, m.group, t);
  }

  ghost function TidyAll(f: Forest, pins: Places, cell: Cell, gap: Spacing, st: Tidied, order: seq<Id>): Tidied
    requires TriesNone(gap)
  {
    if order == [] then st
    else TidyOne(f, pins, cell, gap, TidyAll(f, pins, cell, gap, st, order[..|order| - 1]), order[|order| - 1])
  }

  /** The forest from the top down, each tree before the next. */
  function TopDown(f: Forest, id: Id): seq<Id>
    requires id in f.byId
    decreases Room(f, id), |f.children[id]| + 1
  {
    [id] + TopDownFirst(f, id, |f.children[id]|)
  }

  function TopDownFirst(f: Forest, id: Id, n: nat): seq<Id>
    requires id in f.byId && n <= |f.children[id]|
    decreases Room(f, id), n
  {
    if n == 0 then []
    else
      ChildBelow(f, id, f.children[id][n - 1]);
      TopDownFirst(f, id, n - 1) + TopDown(f, f.children[id][n - 1])
  }

  function TopDownAll(f: Forest, n: nat): seq<Id>
    requires n <= |f.roots|
  {
    if n == 0 then [] else assert f.roots[n - 1] in f.roots; TopDownAll(f, n - 1) + TopDown(f, f.roots[n - 1])
  }

  ghost function StartAt(plan: Plan, dir: Direction, f: Forest): (at: map<Id, Drawn>) {
    map id | id in plan.auto.Keys + f.byId.Keys && (id in plan.auto || InPlacedTree(plan, f, id)) ::
      if InPlacedTree(plan, f, id) then PlacedAt(plan, dir, f.parentOf, id).0 else Leftover(plan, id)
  }

  /** What a tidy-up stores: besides the pins, a place for each node of a group it turned. */
  ghost function TidyPlaces(f: Forest, auto: map<Id, Point>, cell: Cell, dir: Direction, gap: Spacing,
                            pins: Places): Places
    requires TriesNone(gap)
  {
    var start := Tidied(StartAt(Plan(auto, cell, pins), dir, f), map[], {});
    TidyAll(f, pins, cell, gap, start, TopDownAll(f, |f.roots|)).kept + pins
  }

  method PreorderOf(f: Forest, id: Id, order: seq<Id>) returns (order': seq<Id>)
    requires id in f.byId
    ensures order' == order + TopDown(f, id)
    decreases Room(f, id)
  {
    order' := order + [id];
    var kids := f.children[id];
    for i := 0 to |kids|
      invariant order' == order + ([id] + TopDownFirst(f, id, i))
    {
      ChildBelow(f, id, kids[i]);
      order' := PreorderOf(f, kids[i], order');
    }
  }

  method CountOne(m: Moving, k: Id, t: Turn) returns (n: nat)
    requires k in m.at
    ensures n == |HitsOf(m, {k}, t)|
  {
    n := 0;
    var todo := m.others;
    var p := TurnedTo(m.at, m.cell, m.id, k, t);
    ghost var found: set<(Id, Id)> := {};
    while todo != {}
      invariant todo <= m.others && n == |found|
      invariant forall x :: x in found <==> x in HitsOf(m, {k}, t) && x.1 !in todo
      decreases todo
    {
      var o :| o in todo;
      if Clash(m.gap, p, m.at[o].at) {
        n := n + 1;
        assert (k, o) in HitsOf(m, {k}, t) && (k, o) !in found;
        found := found + {(k, o)};
      }
      todo := todo - {o};
    }
    assert found == HitsOf(m, {k}, t);
  }

  lemma HitsMore(m: Moving, group: set<Id>, k: Id, t: Turn)
    requires group <= m.at.Keys && k in m.at && k !in group
    ensures |HitsOf(m, group + {k}, t)| == |HitsOf(m, group, t)| + |HitsOf(m, {k}, t)|
  {
    var a, b := HitsOf(m, group, t), HitsOf(m, {k}, t);
    assert HitsOf(m, group + {k}, t) == a + b;
    assert a !! b;
  }

  /** How many pairs clash, counted pair by pair. */
  method CountClashes(m: Moving, group: seq<Id>, t: Turn) returns (n: nat)
    requires NoDup(group) && Elements(group) == m.group
    ensures n == Clashes(m, t)
  {
    n := 0;
    ghost var done: set<Id> := {};
    assert HitsOf(m, {}, t) == {};
    for i := 0 to |group|
      invariant done == Elements(group[..i]) && done <= m.group
      invariant n == |HitsOf(m, done, t)|
    {
      TakeMore(group, i);
      assert group[i] in group && group[i] !in group[..i];
      var more := CountOne(m, group[i], t);
      HitsMore(m, done, group[i], t);
      n, done := n + more, done + {group[i]};
    }
    TakeAll(group);
  }

  lemma BestStays(m: Moving, i: nat, n: nat)
    requires 0 < i <= n <= |m.gap.turns| && Clashes(m, m.gap.turns[BestOf(m, i)]) == 0
    ensures BestOf(m, n) == BestOf(m, i)
    decreases n
  {
    if i < n { BestStays(m, i, n - 1); }
  }

  /** Tries the turns in order, and stops at the first that clears the group. */
  method ChooseTurn(m: Moving, group: seq<Id>) returns (best: nat)
    requires NoDup(group) && Elements(group) == m.group && m.gap.turns != []
    ensures best == BestOf(m, |m.gap.turns|)
  {
    best := 0;
    var fewest := 0;
    for i := 0 to |m.gap.turns|
      invariant i > 0 ==> best == BestOf(m, i) && fewest == Clashes(m, m.gap.turns[best])
    {
      var n := CountClashes(m, group, m.gap.turns[i]);
      if i == 0 || n < fewest { best, fewest := i, n; }
      if n == 0 {
        BestStays(m, i + 1, |m.gap.turns|);
        return;
      }
    }
  }

  /** Where the group of `id` is once it is turned. */
  function TurnedPlaces(at: map<Id, Drawn>, cell: Cell, id: Id, group: set<Id>, t: Turn): map<Id, Point>
    requires id in at && group <= at.Keys
  {
    map k | k in group :: TurnedTo(at, cell, id, k, t)
  }

  lemma TurnMore(at: map<Id, Drawn>, cell: Cell, id: Id, group: set<Id>, k: Id, t: Turn)
    requires id in at && group <= at.Keys && k in at
    ensures TurnedPlaces(at, cell, id, group + {k}, t) ==
      TurnedPlaces(at, cell, id, group, t)[k := TurnedTo(at, cell, id, k, t)]
  {
  }

  method TurnEach(st: Tidied, cell: Cell, id: Id, group: seq<Id>, t: Turn, turned: bool) returns (st': Tidied)
    requires id in st.at && Elements(group) <= st.at.Keys && id !in group
    ensures st' == TurnGroup(st, cell, id, Elements(group), t, turned)
  {
    var placed: map<Id, Point> := map[];
    ghost var done: set<Id> := {};
    for i := 0 to |group|
      invariant done == Elements(group[..i]) && done <= st.at.Keys
      invariant placed == TurnedPlaces(st.at, cell, id, done, t)
    {
      TakeMore(group, i);
      assert group[i] in group;
      TurnMore(st.at, cell, id, done, group[i], t);
      placed := placed[group[i] := TurnedTo(st.at, cell, id, group[i], t)];
      done := done + {group[i]};
    }
    TakeAll(group);
    st' := Moved(st, cell, id, placed, turned);
  }

  /** The layout places every tree of more than one node. */
  ghost predicate TreesPlaced(f: Forest, auto: map<Id, Point>) {
    forall r :: r in f.roots && f.children[r] != [] ==> r in auto
  }

  lemma CarriersArePlaced(f: Forest, plan: Plan, stored: Places, id: Id, x: Id)
    requires TreesPlaced(f, plan.auto) && Carried(f, stored, id, x)
    ensures InPlacedTree(plan, f, id) && InPlacedTree(plan, f, x)
  {
    CarriedBelow(f, stored, id, x);
    var r := InOneTree(f, x);
    SubSplits(f, r);
    assert x != r && x in SubAll(f, f.children[r]);
    ReachesLinear(f.parentOf, x, id, r);
    if Reaches(f.parentOf, r, id) { ReachesParent(f.parentOf, r, id); ReachesSelf(f.parentOf, id); }
  }

  lemma GroupIsPlaced(f: Forest, plan: Plan, pins: Places, at: map<Id, Drawn>, id: Id, group: seq<Id>)
    requires TreesPlaced(f, plan.auto) && group != []
    requires forall x :: InPlacedTree(plan, f, x) ==> x in at
    requires forall x :: x in group <==> Carried(f, pins, id, x)
    ensures Elements(group) == GroupOf(f, pins, id) && GroupOf(f, pins, id) != {}
    ensures id in at && Elements(group) <= at.Keys && id !in group
  {
    assert group[0] in group;
    forall x | x in group ensures x in at && id in at && x != id && x in f.byId {
      CarriersArePlaced(f, plan, pins, id, x);
      CarriedBelow(f, pins, id, x);
    }
  }

  /** The group of a pinned node, given the first turn that overlaps least. */
  method TidyGroup(f: Forest, pins: Places, cell: Cell, gap: Spacing, st: Tidied, id: Id, group: seq<Id>)
    returns (st': Tidied)
    requires TriesNone(gap) && NoDup(group) && id in pins && id in st.at && id !in group
    requires Elements(group) == GroupOf(f, pins, id) != {} && Elements(group) <= st.at.Keys
    ensures st' == TidyOne(f, pins, cell, gap, st, id)
  {
    var others := Others(f, pins, st, Elements(group) + {id});
    var best := ChooseTurn(Move(st.at, cell, gap, id, Elements(group), others), group);
    st' := TurnEach(st, cell, id, group, gap.turns[best], best != 0);
  }

  /** What one node of the walk does, step by step. */
  method TidyNode(f: Forest, plan: Plan, pins: Places, gap: Spacing, st: Tidied, id: Id) returns (st': Tidied)
    requires TreesPlaced(f, plan.auto) && TriesNone(gap)
    requires forall x :: InPlacedTree(plan, f, x) ==> x in st.at
    ensures st' == TidyOne(f, pins, plan.cell, gap, st, id)
    ensures st'.at.Keys == st.at.Keys
  {
    st' := st;
    if id in pins {
      var group := CarriedBy(f, id, pins);
      if |group| > 0 {
        GroupIsPlaced(f, plan, pins, st.at, id, group);
        st' := TidyGroup(f, pins, plan.cell, gap, st, id, group);
      } else {
        assert GroupOf(f, pins, id) == {};
      }
    }
  }

  method TidyUnpinned(f: Forest, auto: map<Id, Point>, cell: Cell, dir: Direction, gap: Spacing, stored: Places)
    returns (places: Places)
    requires TreesPlaced(f, auto) && TriesNone(gap)
    ensures places == TidyPlaces(f, auto, cell, dir, gap, PinsOf(stored))
  {
    var pins := PinsOf(stored);
    var plan := Plan(auto, cell, pins);
    var at := ArrangePositions(plan, dir, f);
    assert at == StartAt(plan, dir, f);
    var order: seq<Id> := [];
    for i := 0 to |f.roots|
      invariant order == TopDownAll(f, i)
    {
      assert f.roots[i] in f.roots;
      order := PreorderOf(f, f.roots[i], order);
    }
    var st := Tidied(at, map[], {});
    ghost var start := st;
    for i := 0 to |order|
      invariant st == TidyAll(f, pins, cell, gap, start, order[..i]) && st.at.Keys == at.Keys
    {
      TakeMore(order, i);
      assert order[..i + 1][..i] == order[..i];
      st := TidyNode(f, plan, pins, gap, st, order[i]);
    }
    TakeAll(order);
    places := st.kept + pins;
  }

  /* ---------- What one step does, told from places and distances ---------- */

  lemma TenthIs(x: real) returns (n: int)
    ensures Tenth(x) == n as real / 10.0 && x * 10.0 - 0.5 < n as real <= x * 10.0 + 0.5
  {
    n := (x * 10.0 + 0.5).Floor;
  }

  /** A place is remembered in cells, to the nearest tenth (up where two are as near), and not as a pin. */
  lemma KeptToTenths(c: Point, cell: Cell) returns (n: int, m: int)
    ensures KeptPlace(ToPage(c, cell), cell) == Place(n as real / 10.0, m as real / 10.0, false)
    ensures c.x * 10.0 - 0.5 < n as real <= c.x * 10.0 + 0.5 && c.y * 10.0 - 0.5 < m as real <= c.y * 10.0 + 0.5
  {
    PageAndBack(c, cell);
    n := TenthIs(c.x);
    m := TenthIs(c.y);
  }

  /** The other nodes a group is kept clear of: those settled, roots, pins, and what hangs from none of the group. */
  ghost predicate KeepsClearOf(f: Forest, pins: Places, st: Tidied, id: Id, k: Id) {
    && k in st.at && k != id && !Carried(f, pins, id, k)
    && (k in st.settled || k !in f.parentOf || k in pins ||
        (f.parentOf[k] != id && !Carried(f, pins, id, f.parentOf[k])))
  }

  /** Less than a box and the spacing between the two, across and down. */
  ghost predicate OnTop(gap: Spacing, a: Point, b: Point) {
    (if a.x < b.x then b.x - a.x else a.x - b.x) < gap.w && (if a.y < b.y then b.y - a.y else a.y - b.y) < gap.h
  }

  /** Where `k` is, in cells, once the group of `id` is turned. */
  ghost function TurnedCell(st: Tidied, cell: Cell, id: Id, k: Id, t: Turn): Point
    requires id in st.at && k in st.at
  {
    var centre := ToCells(st.at[id].at, cell);
    Plus(centre, Rotate(t, Minus(ToCells(st.at[k].at, cell), centre)))
  }

  /** The pairs of a node of the turned group and one it is kept clear of that are on top of each other. */
  ghost function PairsOnTop(f: Forest, pins: Places, cell: Cell, gap: Spacing, st: Tidied, id: Id, t: Turn):
    set<(Id, Id)>
    requires id in st.at && GroupOf(f, pins, id) <= st.at.Keys
  {
    set k, o |
      k in GroupOf(f, pins, id) && o in st.at && KeepsClearOf(f, pins, st, id, o) &&
      OnTop(gap, ToPage(TurnedCell(st, cell, id, k, t), cell), st.at[o].at) :: (k, o)
  }

  lemma PairsAre(f: Forest, pins: Places, cell: Cell, gap: Spacing, st: Tidied, id: Id, m: Moving, t: Turn)
    requires id in st.at && GroupOf(f, pins, id) <= st.at.Keys
    requires m == Move(st.at, cell, gap, id, GroupOf(f, pins, id), Others(f, pins, st, GroupOf(f, pins, id) + {id}))
    ensures PairsOnTop(f, pins, cell, gap, st, id, t) == HitsOf(m, m.group, t)
  {
    forall o | o in st.at ensures KeepsClearOf(f, pins, st, id, o) <==> o in m.others {
      if o in f.parentOf { assert f.parentOf[o] in f.byId && o in f.byId; }
    }
    forall k, o | k in m.group && o in m.others
      ensures Hits(m, t, k, o) <==> OnTop(gap, ToPage(TurnedCell(st, cell, id, k, t), cell), st.at[o].at)
    {
    }
  }

  /** The group is now where it was `placed`, and settled, and remembered if it had to turn; the rest stays. */
  ghost predicate SetDown(cell: Cell, st: Tidied, after: Tidied, id: Id, placed: map<Id, Point>, turned: bool) {
    && placed.Keys <= st.at.Keys && after.at.Keys == st.at.Keys && after.settled == st.settled + placed.Keys + {id}
    && (forall k :: k in placed ==> after.at[k] == st.at[k].(at := placed[k]))
    && (forall k :: k in st.at && k !in placed ==> after.at[k] == st.at[k])
    && after.kept.Keys == st.kept.Keys + (if turned then placed.Keys else {})
    && (forall k :: k in after.kept ==>
          after.kept[k] == if turned && k in placed then KeptPlace(placed[k], cell) else st.kept[k])
  }

  lemma MovedIs(st: Tidied, cell: Cell, id: Id, placed: map<Id, Point>, turned: bool)
    requires placed.Keys <= st.at.Keys
    ensures SetDown(cell, st, Moved(st, cell, id, placed, turned), id, placed, turned)
  {
    var after := Moved(st, cell, id, placed, turned);
    assert after.at.Keys == st.at.Keys;
    assert after.kept.Keys == st.kept.Keys + (if turned then placed.Keys else {});
  }

  /** Each of the group is where turning it takes it. */
  ghost predicate TurnedBy(f: Forest, pins: Places, cell: Cell, st: Tidied, id: Id, t: Turn, placed: map<Id, Point>)
    requires id in st.at
  {
    placed.Keys == GroupOf(f, pins, id) && placed.Keys <= st.at.Keys &&
    forall k :: k in placed ==> placed[k] == ToPage(TurnedCell(st, cell, id, k, t), cell)
  }

  lemma SameSpot(st: Tidied, cell: Cell, id: Id, k: Id, t: Turn)
    requires id in st.at && k in st.at
    ensures TurnedTo(st.at, cell, id, k, t) == ToPage(TurnedCell(st, cell, id, k, t), cell)
  {
  }

  lemma PlacedByTurn(f: Forest, pins: Places, cell: Cell, st: Tidied, id: Id, t: Turn)
    requires id in st.at && GroupOf(f, pins, id) <= st.at.Keys
    ensures TurnedBy(f, pins, cell, st, id, t, TurnedPlaces(st.at, cell, id, GroupOf(f, pins, id), t))
  {
    var group := GroupOf(f, pins, id);
    forall k | k in group ensures TurnedTo(st.at, cell, id, k, t) == ToPage(TurnedCell(st, cell, id, k, t), cell) {
      SameSpot(st, cell, id, k, t);
    }
  }

  /** Turn `b` is the first that leaves fewest pairs on top of each other. */
  ghost predicate FewestOnTop(f: Forest, pins: Places, cell: Cell, gap: Spacing, st: Tidied, id: Id, b: nat)
    requires id in st.at && GroupOf(f, pins, id) <= st.at.Keys
  {
    b < |gap.turns| &&
    forall c :: 0 <= c < |gap.turns| ==>
      var now, other := |PairsOnTop(f, pins, cell, gap, st, id, gap.turns[b])|,
                        |PairsOnTop(f, pins, cell, gap, st, id, gap.turns[c])|;
      now <= other && (c < b ==> now < other)
  }

  lemma BestIsFewest(f: Forest, pins: Places, cell: Cell, gap: Spacing, st: Tidied, id: Id, m: Moving)
    requires id in st.at && GroupOf(f, pins, id) <= st.at.Keys && gap.turns != []
    requires m == Move(st.at, cell, gap, id, GroupOf(f, pins, id), Others(f, pins, st, GroupOf(f, pins, id) + {id}))
    ensures FewestOnTop(f, pins, cell, gap, st, id, BestOf(m, |gap.turns|))
  {
    forall c | 0 <= c < |gap.turns|
      ensures |PairsOnTop(f, pins, cell, gap, st, id, gap.turns[c])| == Clashes(m, gap.turns[c])
    {
      PairsAre(f, pins, cell, gap, st, id, m, gap.turns[c]);
    }
  }

  lemma StepMoves(f: Forest, pins: Places, cell: Cell, gap: Spacing, st: Tidied, id: Id, m: Moving)
    requires TriesNone(gap) && id in st.at && GroupOf(f, pins, id) <= st.at.Keys
    requires m == Move(st.at, cell, gap, id, GroupOf(f, pins, id), Others(f, pins, st, GroupOf(f, pins, id) + {id}))
    ensures var best := BestOf(m, |gap.turns|);
      TidyOne(f, pins, cell, gap, st, id) ==
        if id in pins && m.group != {}
        then Moved(st, cell, id, TurnedPlaces(st.at, cell, id, m.group, gap.turns[best]), best != 0) else st
  {
  }

  /**
   * One node of the walk: the group of a pinned one takes the first of the turns that leaves fewest of its nodes
   * on top of what it is kept clear of. Nothing happens at a node that is no pin or carries nothing.
   */
  lemma StepTakesTurn(f: Forest, pins: Places, cell: Cell, gap: Spacing, st: Tidied, id: Id)
    returns (b: nat, placed: map<Id, Point>)
    requires TriesNone(gap) && id in st.at && GroupOf(f, pins, id) <= st.at.Keys
    ensures FewestOnTop(f, pins, cell, gap, st, id, b) && TurnedBy(f, pins, cell, st, id, gap.turns[b], placed)
    ensures var after := TidyOne(f, pins, cell, gap, st, id);
      // Not split into its parts.
      if id in pins && placed != map[] then SetDown(cell, st, after, id, placed, b != 0) == true else after == st
  {
    var group := GroupOf(f, pins, id);
    var m: Moving := Move(st.at, cell, gap, id, group, Others(f, pins, st, group + {id}));
    b := BestOf(m, |gap.turns|);
    placed := TurnedPlaces(st.at, cell, id, group, gap.turns[b]);
    BestIsFewest(f, pins, cell, gap, st, id, m);
    PlacedByTurn(f, pins, cell, st, id, gap.turns[b]);
    StepMoves(f, pins, cell, gap, st, id, m);
    MovedIs(st, cell, id, placed, b != 0);
    assert placed.Keys == group;
  }

  function Flat<T>(ss: seq<seq<T>>): seq<T> { if ss == [] then [] else Flat(ss[..|ss| - 1]) + ss[|ss| - 1] }

  /** The walk of each child's tree, in order. */
  function Walks(f: Forest, ids: seq<Id>): (walks: seq<seq<Id>>)
    requires forall k :: k in ids ==> k in f.byId
    ensures |walks| == |ids| && forall i :: 0 <= i < |ids| ==> walks[i] == TopDown(f, ids[i])
  {
    if ids == [] then [] else Walks(f, ids[..|ids| - 1]) + [TopDown(f, ids[|ids| - 1])]
  }

  lemma WalksMore(f: Forest, ids: seq<Id>, n: nat)
    requires n < |ids| && forall k :: k in ids ==> k in f.byId
    ensures Flat(Walks(f, ids[..n + 1])) == Flat(Walks(f, ids[..n])) + TopDown(f, ids[n])
  {
    TakeMore(ids, n);
    var more, walks := ids[..n + 1], Walks(f, ids[..n + 1]);
    assert more[..n] == ids[..n] && more[n] == ids[n];
    assert walks[..n] == Walks(f, ids[..n]) && walks[n] == TopDown(f, ids[n]);
  }

  lemma KidsAreKnown(f: Forest, id: Id)
    requires id in f.byId
    ensures forall k :: k in f.children[id] ==> k in f.byId
  {
    AllChildrenBelow(f, id);
  }

  lemma FirstWalksMore(f: Forest, id: Id, n: nat)
    requires id in f.byId && n < |f.children[id]| && forall k :: k in f.children[id] ==> k in f.byId
    requires TopDownFirst(f, id, n) == Flat(Walks(f, f.children[id][..n]))
    ensures TopDownFirst(f, id, n + 1) == Flat(Walks(f, f.children[id][..n + 1]))
  {
    WalksMore(f, f.children[id], n);
  }

  lemma {:induction false} FirstWalks(f: Forest, id: Id, n: nat)
    requires id in f.byId && n <= |f.children[id]| && forall k :: k in f.children[id] ==> k in f.byId
    ensures TopDownFirst(f, id, n) == Flat(Walks(f, f.children[id][..n]))
  {
    if n > 0 {
      FirstWalks(f, id, n - 1);
      FirstWalksMore(f, id, n - 1);
    }
  }

  /** The walk goes from the top down: a node, and then each child's tree in turn; and so one tree after another. */
  lemma WalkIsTopDown(f: Forest, id: Id)
    requires id in f.byId
    ensures forall k :: k in f.children[id] ==> k in f.byId
    ensures TopDown(f, id) == [id] + Flat(Walks(f, f.children[id]))
    ensures forall r :: r in f.roots ==> r in f.byId
    ensures TopDownAll(f, |f.roots|) == Flat(Walks(f, f.roots))
  {
    KidsAreKnown(f, id);
    FirstWalks(f, id, |f.children[id]|);
    TakeAll(f.children[id]);
    RootsAreKnown(f);
    RootWalks(f, |f.roots|);
    TakeAll(f.roots);
  }

  lemma RootsAreKnown(f: Forest)
    ensures forall r :: r in f.roots ==> r in f.byId
  {
  }

  lemma RootWalksMore(f: Forest, n: nat)
    requires n < |f.roots| && forall r :: r in f.roots ==> r in f.byId
    requires TopDownAll(f, n) == Flat(Walks(f, f.roots[..n]))
    ensures TopDownAll(f, n + 1) == Flat(Walks(f, f.roots[..n + 1]))
  {
    WalksMore(f, f.roots, n);
  }

  lemma {:induction false} RootWalks(f: Forest, n: nat)
    requires n <= |f.roots| && forall r :: r in f.roots ==> r in f.byId
    ensures TopDownAll(f, n) == Flat(Walks(f, f.roots[..n]))
  {
    if n > 0 {
      RootWalks(f, n - 1);
      RootWalksMore(f, n - 1);
    }
  }

  /* ---------- What a tidy-up leaves alone ---------- */

  ghost predicate OnlyCarriedKept(f: Forest, pins: Places, kept: Places) {
    forall k :: k in kept ==> !kept[k].pinned && CarriedByPin(f, pins, k)
  }

  ghost predicate CarriedByPin(f: Forest, pins: Places, k: Id) { exists id :: id in pins && Carried(f, pins, id, k) }

  lemma {:induction false} KeepsOnlyCarried(f: Forest, pins: Places, cell: Cell, gap: Spacing, st: Tidied,
                                            order: seq<Id>)
    requires TriesNone(gap) && OnlyCarriedKept(f, pins, st.kept)
    ensures OnlyCarriedKept(f, pins, TidyAll(f, pins, cell, gap, st, order).kept)
    decreases |order|
  {
    if order != [] {
      KeepsOnlyCarried(f, pins, cell, gap, st, order[..|order| - 1]);
      OneKeepsOnlyCarried(f, pins, cell, gap, TidyAll(f, pins, cell, gap, st, order[..|order| - 1]),
        order[|order| - 1]);
    }
  }

  lemma MovedKeepsOnlyCarried(f: Forest, pins: Places, cell: Cell, st: Tidied, id: Id, placed: map<Id, Point>,
                              turned: bool)
    requires OnlyCarriedKept(f, pins, st.kept) && placed.Keys <= st.at.Keys && forall k :: k in placed ==>
      CarriedByPin(f, pins, k)
    ensures OnlyCarriedKept(f, pins, Moved(st, cell, id, placed, turned).kept)
  {
  }

  lemma OneKeepsOnlyCarried(f: Forest, pins: Places, cell: Cell, gap: Spacing, before: Tidied, id: Id)
    requires TriesNone(gap) && OnlyCarriedKept(f, pins, before.kept)
    ensures OnlyCarriedKept(f, pins, TidyOne(f, pins, cell, gap, before, id).kept)
  {
    var group := GroupOf(f, pins, id);
    if id in pins && group != {} && id in before.at && group <= before.at.Keys {
      var best := BestOf(Move(before.at, cell, gap, id, group, Others(f, pins, before, group + {id})), |gap.turns|);
      var placed := TurnedPlaces(before.at, cell, id, group, gap.turns[best]);
      forall k | k in placed ensures CarriedByPin(f, pins, k) { assert id in pins && Carried(f, pins, id, k); }
      MovedKeepsOnlyCarried(f, pins, cell, before, id, placed, best != 0);
    }
  }

  /** Every pin stays as it was; besides the pins, only nodes that a pin carries are given a place. */
  lemma TidyKeepsPins(f: Forest, auto: map<Id, Point>, cell: Cell, dir: Direction, gap: Spacing, pins: Places)
    requires TriesNone(gap) && pins == PinsOf(pins)
    ensures var places := TidyPlaces(f, auto, cell, dir, gap, pins);
      && PinsOf(places) == pins
      && forall k :: k in places && k !in pins ==> exists id :: id in pins && Carried(f, pins, id, k)
  {
    var start := Tidied(StartAt(Plan(auto, cell, pins), dir, f), map[], {});
    KeepsOnlyCarried(f, pins, cell, gap, start, TopDownAll(f, |f.roots|));
  }

  /** Tidying what was tidied changes nothing. */
  lemma TidyTwice(f: Forest, auto: map<Id, Point>, cell: Cell, dir: Direction, gap: Spacing, stored: Places)
    requires TriesNone(gap)
    ensures var once := TidyPlaces(f, auto, cell, dir, gap, PinsOf(stored));
      TidyPlaces(f, auto, cell, dir, gap, PinsOf(once)) == once
  {
    assert PinsOf(PinsOf(stored)) == PinsOf(stored);
    TidyKeepsPins(f, auto, cell, dir, gap, PinsOf(stored));
  }
}
