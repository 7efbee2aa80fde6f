/** Hand-arranged positions on the clusters layout (arrangePositions and carriedBy in web/netmap.js). */
module Arrange {
  import opened Wrappers
  import opened Chains
  import opened Forests
  import opened Trees

  datatype Point = Point(x: real, y: real)

  /** A turn, as the cosine and sine of its angle. */
  datatype Turn = Turn(c: real, s: real)

  datatype CellSize = CellSize(w: real, h: real)

  type Cell = c: CellSize | c.w > 0.0 && c.h > 0.0 witness CellSize(1.0, 1.0)

  /** A stored place, in cells. */
  datatype Place = Place(x: real, y: real, pinned: bool)

  /** Where a node is drawn, in page units. */
  datatype Drawn = Drawn(at: Point, pinned: bool, stored: bool)

  /** The direction of a vector, as the turn that takes (1, 0) to it. */
  type Direction = Point -> Turn

  const NO_TURN := Turn(1.0, 0.0)

  predicate IsTurn(t: Turn) { t.c * t.c + t.s * t.s == 1.0 }

  function Plus(a: Point, b: Point): Point { Point(a.x + b.x, a.y + b.y) }
  function Minus(a: Point, b: Point): Point { Point(a.x - b.x, a.y - b.y) }
  function Rotate(t: Turn, v: Point): Point { Point(v.x * t.c - v.y * t.s, v.x * t.s + v.y * t.c) }
  function Dot(a: Point, b: Point): real { a.x * b.x + a.y * b.y }
  function Cross(a: Point, b: Point): real { a.x * b.y - a.y * b.x }

  /** The turn from the direction `was` to the direction `now`. */
  function TurnBetween(was: Turn, now: Turn): Turn {
    Turn(now.c * was.c + now.s * was.s, now.s * was.c - now.c * was.s)
  }

  function ToCells(p: Point, cell: Cell): Point { Point(p.x / cell.w, p.y / cell.h) }
  function ToPage(p: Point, cell: Cell): Point { Point(p.x * cell.w, p.y * cell.h) }

  /** What atan2 tells of a vector: a unit direction, along which it lies. */
  ghost predicate TellsDirection(dir: Direction) {
    forall v: Point :: IsTurn(dir(v)) && Cross(Point(dir(v).c, dir(v).s), v) == 0.0 &&
      Dot(Point(dir(v).c, dir(v).s), v) >= 0.0
  }

  /** What an arrangement is worked out from: the layout's own places, and the stored ones. */
  datatype Plan = Plan(auto: map<Id, Point>, cell: Cell, stored: map<Id, Place>)

  function Base(plan: Plan, id: Id): Point { if id in plan.auto then plan.auto[id] else Point(0.0, 0.0) }

  /** Where a node is drawn, given where the node above it (if any is) is drawn and how that is turned. */
  function PlaceNode(plan: Plan, dir: Direction, id: Id, above: Option<(Id, Point, Turn)>): (Drawn, Turn) {
    var cells := (p: Point) => ToCells(p, plan.cell);
    if id in plan.stored then
      var s := plan.stored[id];
      var here := ToPage(Point(s.x, s.y), plan.cell);
      var turn :=
        if above.Some? && above.value.0 in plan.auto then
          var (p, at, _) := above.value;
          var was := dir(Minus(cells(Base(plan, id)), cells(plan.auto[p])));
          var now := dir(Minus(cells(here), cells(at)));
          TurnBetween(was, now)
        else NO_TURN;
      (Drawn(here, s.pinned, true), turn)
    else if above.Some? && above.value.0 in plan.auto then
      var (p, at, t) := above.value;
      var away := Minus(cells(Base(plan, id)), cells(plan.auto[p]));
      (Drawn(ToPage(Plus(cells(at), Rotate(t, away)), plan.cell), false, false), t)
    else (Drawn(Base(plan, id), false, false), NO_TURN)
  }

  /** The same, told from the nodes above. */
  ghost function PlacedAt(plan: Plan, dir: Direction, parentOf: map<Id, Id>, id: Id): (Drawn, Turn)
    requires Grounded(parentOf, id)
    decreases Depth(parentOf, id)
  {
    DepthStep(parentOf, id);
    PlaceNode(plan, dir, id,
              if id in parentOf then
                var up := PlacedAt(plan, dir, parentOf, parentOf[id]);
                Some((parentOf[id], up.0.at, up.1))
              else None)
  }

  ghost predicate AllPlaced(plan: Plan, dir: Direction, f: Forest, out: map<Id, Drawn>, ids: set<Id>) {
    forall x {:trigger x in ids} :: x in ids ==>
      x in f.byId && x in out && out[x] == PlacedAt(plan, dir, f.parentOf, x).0
  }

  lemma KidIsPlaced(plan: Plan, dir: Direction, f: Forest, id: Id, k: Id)
    requires k in f.byId && id in f.byId && HangsFrom(f.parentOf, id, k)
    ensures var mine := PlacedAt(plan, dir, f.parentOf, id);
      PlaceNode(plan, dir, k, Some((id, mine.0.at, mine.1))) == PlacedAt(plan, dir, f.parentOf, k)
  {
    assert Grounded(f.parentOf, k);
  }

  /** What drawing `ids` has made of `out`: they are in their places, and the rest is as it was. */
  ghost predicate PlacedOn(plan: Plan, dir: Direction, f: Forest, out: map<Id, Drawn>, out': map<Id, Drawn>,
                           ids: set<Id>) {
    && out'.Keys == out.Keys + ids && AllPlaced(plan, dir, f, out', ids)
    && forall x {:trigger out'[x]} :: x in out && x !in ids ==> out'[x] == out[x]
  }

  lemma PlacedTwice(plan: Plan, dir: Direction, f: Forest,
                    out: map<Id, Drawn>, mid: map<Id, Drawn>, out': map<Id, Drawn>, a: set<Id>, b: set<Id>)
    requires PlacedOn(plan, dir, f, out, mid, a) && PlacedOn(plan, dir, f, mid, out', b)
    ensures PlacedOn(plan, dir, f, out, out', a + b)
  {
  }

  lemma NextToPlace(plan: Plan, dir: Direction, f: Forest, id: Id, i: nat)
    requires id in f.byId && i < |f.children[id]|
    ensures var k := f.children[id][i]; var mine := PlacedAt(plan, dir, f.parentOf, id);
      && k in f.byId && Room(f, k) < Room(f, id)
      && PlaceNode(plan, dir, k, Some((id, mine.0.at, mine.1))) == PlacedAt(plan, dir, f.parentOf, k)
      && SubAll(f, f.children[id][..i + 1]) == SubAll(f, f.children[id][..i]) + Sub(f, k)
  {
    var k := f.children[id][i];
    ChildBelow(f, id, k);
    SubAllSnoc(f, id, i);
    KidIsPlaced(plan, dir, f, id, k);
  }

  /** Places everything below `id`, which is drawn and turned as `mine` says. */
  method PlaceBelow(plan: Plan, dir: Direction, f: Forest, id: Id, mine: (Drawn, Turn), out: map<Id, Drawn>)
    returns (out': map<Id, Drawn>)
    requires id in f.byId && mine == PlacedAt(plan, dir, f.parentOf, id)
    ensures PlacedOn(plan, dir, f, out, out', SubAll(f, f.children[id]))
    decreases Room(f, id), 0
  {
    out' := out;
    var kids := f.children[id];
    ghost var done: set<Id> := {};
    for i := 0 to |kids|
      invariant done == SubAll(f, kids[..i]) && PlacedOn(plan, dir, f, out, out', done)
    {
      NextToPlace(plan, dir, f, id, i);
      ghost var before := out';
      out' := PlaceTree(plan, dir, f, kids[i], Some((id, mine.0.at, mine.1)), out');
      PlacedTwice(plan, dir, f, out, before, out', done, Sub(f, kids[i]));
      done := done + Sub(f, kids[i]);
    }
    TakeAll(kids);
  }

  method PlaceTree(plan: Plan, dir: Direction, f: Forest, id: Id, above: Option<(Id, Point, Turn)>, out: map<Id, Drawn>)
    returns (out': map<Id, Drawn>)
    requires id in f.byId && PlaceNode(plan, dir, id, above) == PlacedAt(plan, dir, f.parentOf, id)
    ensures PlacedOn(plan, dir, f, out, out', Sub(f, id))
    decreases Room(f, id), 1
  {
    var mine := PlaceNode(plan, dir, id, above);
    out' := PlaceBelow(plan, dir, f, id, mine, out[id := mine.0]);
    SubSplits(f, id);
    PlacedTwice(plan, dir, f, out, out[id := mine.0], out', {id}, SubAll(f, f.children[id]));
  }

  /** `id` is in a tree whose root the layout placed. */
  ghost predicate InPlacedTree(plan: Plan, f: Forest, id: Id) {
    id in f.byId && exists r :: r in f.roots && r in plan.auto && Reaches(f.parentOf, id, r)
  }

  function Leftover(plan: Plan, id: Id): Drawn
    requires id in plan.auto
  {
    if id in plan.stored then
      Drawn(ToPage(Point(plan.stored[id].x, plan.stored[id].y), plan.cell), plan.stored[id].pinned, true)
    else Drawn(plan.auto[id], false, false)
  }

  method ArrangePositions(plan: Plan, dir: Direction, f: Forest) returns (out: map<Id, Drawn>)
    ensures forall id :: id in out <==> id in plan.auto || InPlacedTree(plan, f, id)
    ensures forall id :: InPlacedTree(plan, f, id) ==> out[id] == PlacedAt(plan, dir, f.parentOf, id).0
    ensures forall id :: id in plan.auto && !InPlacedTree(plan, f, id) ==> out[id] == Leftover(plan, id)
    ensures forall id :: id in plan.auto && !InPlacedTree(plan, f, id) ==>
      (if id in plan.stored
       then out[id] == Drawn(Point(plan.stored[id].x * plan.cell.w, plan.stored[id].y * plan.cell.h),
                             plan.stored[id].pinned, true)
       else out[id] == Drawn(plan.auto[id], false, false))
  {
    out := map[];
    ghost var done: set<Id> := {};
    ghost var ids: seq<Id> := [];
    for i := 0 to |f.roots|
      invariant forall r :: r in ids <==> r in f.roots[..i] && r in plan.auto
      invariant done == SubAll(f, ids) && out.Keys == done && AllPlaced(plan, dir, f, out, done)
    {
      var r := f.roots[i];
      assert r in f.roots;
      TakeMore(f.roots, i);
      if r in plan.auto {
        assert Grounded(f.parentOf, r);
        SubAllPlus(f, ids, r);
        out := PlaceTree(plan, dir, f, r, None, out);
        done := done + Sub(f, r);
        ids := ids + [r];
      }
    }
    TakeAll(f.roots);
    assert forall id :: id in done <==> InPlacedTree(plan, f, id);
    out := AddLeftovers(plan, out);
  }

  method AddLeftovers(plan: Plan, placed: map<Id, Drawn>) returns (out: map<Id, Drawn>)
    ensures out.Keys == placed.Keys + plan.auto.Keys
    ensures forall id :: id in placed ==> out[id] == placed[id]
    ensures forall id :: id in plan.auto && id !in placed ==> out[id] == Leftover(plan, id)
  {
    out := placed;
    var todo := plan.auto.Keys;
    while todo != {}
      invariant todo <= plan.auto.Keys && out.Keys == placed.Keys + (plan.auto.Keys - todo)
      invariant forall id :: id in placed ==> out[id] == placed[id]
      invariant forall id :: id in plan.auto && id !in todo && id !in placed ==> out[id] == Leftover(plan, id)
      decreases todo
    {
      var id :| id in todo;
      if id !in out { out := out[id := Leftover(plan, id)]; }
      todo := todo - {id};
    }
  }

  /* ---------- Groups move rigidly ---------- */

  /** A node that does not follow the one above it: it has a stored place, or the layout has none above. */
  predicate IsAnchor(plan: Plan, parentOf: map<Id, Id>, id: Id) {
    id in plan.stored || id !in parentOf || parentOf[id] !in plan.auto
  }

  /** The nearest node at or above `id` that does not follow the one above it. */
  ghost function Anchor(plan: Plan, parentOf: map<Id, Id>, id: Id): (a: Id)
    requires Grounded(parentOf, id)
    ensures Grounded(parentOf, a) && IsAnchor(plan, parentOf, a)
    decreases Depth(parentOf, id)
  {
    DepthStep(parentOf, id);
    if IsAnchor(plan, parentOf, id) then id else Anchor(plan, parentOf, parentOf[id])
  }

  ghost function TurnAt(plan: Plan, dir: Direction, parentOf: map<Id, Id>, id: Id): Turn
    requires Grounded(parentOf, id)
  {
    PlacedAt(plan, dir, parentOf, id).1
  }

  /** Where the node is drawn, in cells. */
  ghost function CellAt(plan: Plan, dir: Direction, parentOf: map<Id, Id>, id: Id): Point
    requires Grounded(parentOf, id)
  {
    ToCells(PlacedAt(plan, dir, parentOf, id).0.at, plan.cell)
  }

  /** Where the layout put it, in cells. */
  function AutoCell(plan: Plan, id: Id): Point { ToCells(Base(plan, id), plan.cell) }

  lemma Cancel(x: real, w: real)
    requires w > 0.0
    ensures x * w / w == x && x / w * w == x
  {
  }

  lemma PageAndBack(p: Point, cell: Cell)
    ensures ToCells(ToPage(p, cell), cell) == p && ToPage(ToCells(p, cell), cell) == p
  {
    Cancel(p.x, cell.w);
    Cancel(p.y, cell.h);
  }

  lemma RotatePlus(t: Turn, a: Point, b: Point)
    ensures Plus(Rotate(t, a), Rotate(t, b)) == Rotate(t, Plus(a, b))
  {
    var p, q := Rotate(t, a), Rotate(t, b);
    assert (a.x + b.x) * t.c == a.x * t.c + b.x * t.c && (a.y + b.y) * t.s == a.y * t.s + b.y * t.s;
    assert (a.x + b.x) * t.s == a.x * t.s + b.x * t.s && (a.y + b.y) * t.c == a.y * t.c + b.y * t.c;
  }

  lemma FollowStep(plan: Plan, dir: Direction, parentOf: map<Id, Id>, id: Id)
    requires Grounded(parentOf, id) && !IsAnchor(plan, parentOf, id)
    ensures Grounded(parentOf, parentOf[id])
    ensures TurnAt(plan, dir, parentOf, id) == TurnAt(plan, dir, parentOf, parentOf[id])
    ensures CellAt(plan, dir, parentOf, id)
         == Plus(CellAt(plan, dir, parentOf, parentOf[id]),
                 Rotate(TurnAt(plan, dir, parentOf, parentOf[id]),
                   Minus(AutoCell(plan, id), AutoCell(plan, parentOf[id]))))
  {
    DepthStep(parentOf, id);
    var up := PlacedAt(plan, dir, parentOf, parentOf[id]);
    var away := Minus(AutoCell(plan, id), AutoCell(plan, parentOf[id]));
    PageAndBack(Plus(ToCells(up.0.at, plan.cell), Rotate(up.1, away)), plan.cell);
  }

  lemma AddDifferences(at: Point, t: Turn, a: Point, p: Point, x: Point)
    ensures Plus(Plus(at, Rotate(t, Minus(p, a))), Rotate(t, Minus(x, p))) == Plus(at, Rotate(t, Minus(x, a)))
  {
    RotatePlus(t, Minus(p, a), Minus(x, p));
    assert Plus(Minus(p, a), Minus(x, p)) == Minus(x, a);
  }

  /**
   * What hangs from a node that is stored, down to the next that is, makes one group with it: the layout's
   * own group turned about that node and set down where it is: `id` is where turning takes it.
   */
  lemma {:induction false} GroupMovesRigidly(plan: Plan, dir: Direction, parentOf: map<Id, Id>, id: Id)
    requires Grounded(parentOf, id)
    ensures var a := Anchor(plan, parentOf, id); var t := TurnAt(plan, dir, parentOf, a);
      && TurnAt(plan, dir, parentOf, id) == t
      && CellAt(plan, dir, parentOf, id)
         == Plus(CellAt(plan, dir, parentOf, a), Rotate(t, Minus(AutoCell(plan, id), AutoCell(plan, a))))
    decreases Depth(parentOf, id)
  {
    var a := Anchor(plan, parentOf, id);
    if a == id || IsAnchor(plan, parentOf, id) {
      assert Rotate(TurnAt(plan, dir, parentOf, id), Minus(AutoCell(plan, id), AutoCell(plan, id))) == Point(0.0, 0.0);
    } else {
      DepthStep(parentOf, id);
      FollowStep(plan, dir, parentOf, id);
      GroupMovesRigidly(plan, dir, parentOf, parentOf[id]);
      AddDifferences(CellAt(plan, dir, parentOf, a), TurnAt(plan, dir, parentOf, a),
                     AutoCell(plan, a), AutoCell(plan, parentOf[id]), AutoCell(plan, id));
    }
  }

  lemma {:induction false} TurnsAreTurns(plan: Plan, dir: Direction, parentOf: map<Id, Id>, id: Id)
    requires Grounded(parentOf, id) && TellsDirection(dir)
    ensures IsTurn(TurnAt(plan, dir, parentOf, id))
    decreases Depth(parentOf, id)
  {
    DepthStep(parentOf, id);
    if id in parentOf { TurnsAreTurns(plan, dir, parentOf, parentOf[id]); }
    forall was: Turn, now: Turn | IsTurn(was) && IsTurn(now) ensures IsTurn(TurnBetween(was, now)) {
      BetweenIsTurn(was, now);
    }
  }

  lemma BetweenIsTurn(was: Turn, now: Turn)
    requires IsTurn(was) && IsTurn(now)
    ensures IsTurn(TurnBetween(was, now))
  {
    var a, b, c, d := now.c, now.s, was.c, was.s;
    assert (a * c + b * d) * (a * c + b * d) + (b * c - a * d) * (b * c - a * d) == (a * a + b * b) * (c * c + d * d);
  }

  lemma RotateKeepsDot(t: Turn, u: Point, v: Point)
    requires IsTurn(t)
    ensures Dot(Rotate(t, u), Rotate(t, v)) == Dot(u, v)
  {
    var a, b, c, d := u.x, u.y, v.x, v.y;
    assert (a * t.c - b * t.s) * (c * t.c - d * t.s) + (a * t.s + b * t.c) * (c * t.s + d * t.c)
        == (a * c + b * d) * (t.c * t.c + t.s * t.s);
  }

  /** Any two nodes of a group stay as far apart as the layout put them. */
  lemma DistancesKept(plan: Plan, dir: Direction, parentOf: map<Id, Id>, x: Id, y: Id)
    requires Grounded(parentOf, x) && Grounded(parentOf, y) && TellsDirection(dir)
    requires Anchor(plan, parentOf, x) == Anchor(plan, parentOf, y)
    ensures var d := Minus(CellAt(plan, dir, parentOf, x), CellAt(plan, dir, parentOf, y));
      var auto := Minus(AutoCell(plan, x), AutoCell(plan, y));
      Dot(d, d) == Dot(auto, auto)
  {
    var a := Anchor(plan, parentOf, x);
    GroupMovesRigidly(plan, dir, parentOf, x);
    GroupMovesRigidly(plan, dir, parentOf, y);
    TurnsAreTurns(plan, dir, parentOf, a);
    TurnedDistance(CellAt(plan, dir, parentOf, a), TurnAt(plan, dir, parentOf, a),
                   AutoCell(plan, a), AutoCell(plan, x), AutoCell(plan, y));
  }

  lemma TurnedDistance(at: Point, t: Turn, a: Point, x: Point, y: Point)
    requires IsTurn(t)
    ensures var d := Minus(Plus(at, Rotate(t, Minus(x, a))), Plus(at, Rotate(t, Minus(y, a))));
      Dot(d, d) == Dot(Minus(x, y), Minus(x, y))
  {
    RotatePlus(t, Minus(x, y), Minus(y, a));
    assert Plus(Minus(x, y), Minus(y, a)) == Minus(x, a);
    assert Minus(Plus(at, Rotate(t, Minus(x, a))), Plus(at, Rotate(t, Minus(y, a)))) == Rotate(t, Minus(x, y));
    RotateKeepsDot(t, Minus(x, y), Minus(x, y));
  }

  /** What is stored is drawn exactly where it is stored. */
  lemma StoredIsKept(plan: Plan, dir: Direction, parentOf: map<Id, Id>, id: Id)
    requires Grounded(parentOf, id) && id in plan.stored
    ensures CellAt(plan, dir, parentOf, id) == Point(plan.stored[id].x, plan.stored[id].y)
    ensures PlacedAt(plan, dir, parentOf, id).0.pinned == plan.stored[id].pinned
  {
    PageAndBack(Point(plan.stored[id].x, plan.stored[id].y), plan.cell);
  }

  /** A moved node's group is turned so that it faces the way the node now hangs from the one above it. */
  lemma GroupFacesAway(plan: Plan, dir: Direction, parentOf: map<Id, Id>, id: Id)
    requires Grounded(parentOf, id) && TellsDirection(dir)
    requires id in plan.stored && id in parentOf && parentOf[id] in plan.auto
    ensures Grounded(parentOf, parentOf[id])
    ensures var was := dir(Minus(AutoCell(plan, id), AutoCell(plan, parentOf[id])));
      var now := dir(Minus(CellAt(plan, dir, parentOf, id), CellAt(plan, dir, parentOf, parentOf[id])));
      Rotate(TurnAt(plan, dir, parentOf, id), Point(was.c, was.s)) == Point(now.c, now.s)
  {
    DepthStep(parentOf, id);
    var was := dir(Minus(AutoCell(plan, id), AutoCell(plan, parentOf[id])));
    var now := dir(Minus(CellAt(plan, dir, parentOf, id), CellAt(plan, dir, parentOf, parentOf[id])));
    BetweenTurnsWas(was, now);
  }

  lemma BetweenTurnsWas(was: Turn, now: Turn)
    requires IsTurn(was)
    ensures Rotate(TurnBetween(was, now), Point(was.c, was.s)) == Point(now.c, now.s)
  {
    var a, b, c, d := now.c, now.s, was.c, was.s;
    assert c * (a * c + b * d) - d * (b * c - a * d) == a * (c * c + d * d);
    assert c * (b * c - a * d) + d * (a * c + b * d) == b * (c * c + d * d);
  }

  lemma PageOf(p: Point, cell: Cell, c: Point)
    requires c == ToCells(p, cell)
    ensures p == Point(c.x * cell.w, c.y * cell.h)
  {
    PageAndBack(p, cell);
  }

  lemma MarkedAs(plan: Plan, dir: Direction, id: Id, above: Option<(Id, Point, Turn)>)
    ensures var d := PlaceNode(plan, dir, id, above).0;
      d.stored == (id in plan.stored) && d.pinned == (id in plan.stored && plan.stored[id].pinned)
  {
  }

  /** On the page a node is where its place in cells says, and it is marked as stored and as pinned when it is. */
  lemma DrawnAs(plan: Plan, dir: Direction, parentOf: map<Id, Id>, id: Id, d: Drawn, c: Point)
    requires Grounded(parentOf, id) && d == PlacedAt(plan, dir, parentOf, id).0 && c == CellAt(plan, dir, parentOf, id)
    ensures d.at == Point(c.x * plan.cell.w, c.y * plan.cell.h)
    ensures d.stored == (id in plan.stored) && d.pinned == (id in plan.stored && plan.stored[id].pinned)
  {
    PageOf(d.at, plan.cell, c);
    DepthStep(parentOf, id);
    if id in parentOf {
      var up := PlacedAt(plan, dir, parentOf, parentOf[id]);
      MarkedAs(plan, dir, id, Some((parentOf[id], up.0.at, up.1)));
    } else {
      MarkedAs(plan, dir, id, None);
    }
  }

  /**
   * A node with nothing to follow is not turned: it is at its stored place, or where the layout put it, and so
   * its group stands beside it as the layout has it.
   */
  lemma NothingToFollow(plan: Plan, dir: Direction, parentOf: map<Id, Id>, id: Id)
    requires Grounded(parentOf, id) && (id !in parentOf || parentOf[id] !in plan.auto)
    ensures TurnAt(plan, dir, parentOf, id) == Turn(1.0, 0.0)
    ensures id !in plan.stored && id in plan.auto ==> PlacedAt(plan, dir, parentOf, id).0.at == plan.auto[id]
  {
    DepthStep(parentOf, id);
  }

  lemma RotateKeepsCross(t: Turn, u: Point, v: Point)
    requires IsTurn(t)
    ensures Cross(Rotate(t, u), Rotate(t, v)) == Cross(u, v)
  {
    var a, b, c, d := u.x, u.y, v.x, v.y;
    assert (a * t.c - b * t.s) * (c * t.s + d * t.c) - (a * t.s + b * t.c) * (c * t.c - d * t.s)
        == (a * d - b * c) * (t.c * t.c + t.s * t.s);
  }

  /** A group is turned, never mirrored: seen from the node it follows, what was on the left is on the left. */
  lemma NeverMirrored(plan: Plan, dir: Direction, parentOf: map<Id, Id>, x: Id, y: Id)
    requires Grounded(parentOf, x) && Grounded(parentOf, y) && TellsDirection(dir)
    requires Anchor(plan, parentOf, x) == Anchor(plan, parentOf, y)
    ensures var a := Anchor(plan, parentOf, x); var at := CellAt(plan, dir, parentOf, a);
      Cross(Minus(CellAt(plan, dir, parentOf, x), at), Minus(CellAt(plan, dir, parentOf, y), at)) ==
        Cross(Minus(AutoCell(plan, x), AutoCell(plan, a)), Minus(AutoCell(plan, y), AutoCell(plan, a)))
  {
    var a := Anchor(plan, parentOf, x);
    var t, at := TurnAt(plan, dir, parentOf, a), CellAt(plan, dir, parentOf, a);
    GroupMovesRigidly(plan, dir, parentOf, x);
    GroupMovesRigidly(plan, dir, parentOf, y);
    TurnsAreTurns(plan, dir, parentOf, a);
    var u, v := Minus(AutoCell(plan, x), AutoCell(plan, a)), Minus(AutoCell(plan, y), AutoCell(plan, a));
    PlusMinus(at, Rotate(t, u));
    PlusMinus(at, Rotate(t, v));
    RotateKeepsCross(t, u, v);
  }

  lemma PlusMinus(at: Point, v: Point)
    ensures Minus(Plus(at, v), at) == v
  {
  }

  /** With nothing stored, every node is where the layout put it. */
  lemma {:induction false} NothingStoredIsAuto(plan: Plan, dir: Direction, parentOf: map<Id, Id>, id: Id)
    requires Grounded(parentOf, id) && plan.stored == map[]
    ensures PlacedAt(plan, dir, parentOf, id) == (Drawn(Base(plan, id), false, false), NO_TURN)
    decreases Depth(parentOf, id)
  {
    DepthStep(parentOf, id);
    if id in parentOf {
      var p := parentOf[id];
      NothingStoredIsAuto(plan, dir, parentOf, p);
      var away := Minus(AutoCell(plan, id), AutoCell(plan, p));
      assert Plus(AutoCell(plan, p), Rotate(NO_TURN, away)) == AutoCell(plan, id);
      PageAndBack(Base(plan, id), plan.cell);
    }
  }
}
