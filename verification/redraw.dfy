/** Drawing again what a tidy-up left (tidyUnpinned, then arrangePositions, in web/netmap.js). */
module Redraw {
  import opened Wrappers
  import opened Chains
  import opened Forests
  import opened Trees
  import opened Arrange
  import opened Tidying

  /** The arrangement as the tidy-up of these pins leaves it. */
  ghost function Tidy(f: Forest, auto: map<Id, Point>, cell: Cell, dir: Direction, gap: Spacing, pins: Places): Tidied
    requires TriesNone(gap)
  {
    var start := Tidied(StartAt(Plan(auto, cell, pins), dir, f), map[], {});
    TidyAll(f, pins, cell, gap, start, TopDownAll(f, |f.roots|))
  }

  /** What the tidy-up has done to where it started: what it turned it remembers, the rest it left. */
  ghost predicate Remembers(cell: Cell, start: map<Id, Drawn>, at: map<Id, Drawn>, kept: Places) {
    && at.Keys == start.Keys && kept.Keys <= at.Keys
    && (forall k :: k in at && k !in kept ==> at[k] == start[k])
    && (forall k :: k in kept ==> kept[k] == KeptPlace(at[k].at, cell))
  }

  /** With a node all of its group is given a place. */
  ghost predicate KeptWhole(f: Forest, pins: Places, kept: Places, k: Id) {
    exists id :: id in pins && Carried(f, pins, id, k) && GroupOf(f, pins, id) <= kept.Keys
  }

  ghost predicate AllWhole(f: Forest, pins: Places, kept: Places) {
    forall k :: k in kept ==> KeptWhole(f, pins, kept, k)
  }

  ghost predicate Tracks(f: Forest, pins: Places, cell: Cell, start: map<Id, Drawn>, st: Tidied) {
    Remembers(cell, start, st.at, st.kept) && AllWhole(f, pins, st.kept)
  }

  lemma NoTurnNoMove(st: Tidied, cell: Cell, id: Id, group: set<Id>)
    requires id in st.at && group <= st.at.Keys
    ensures TurnGroup(st, cell, id, group, NO_TURN, false).at == st.at
    ensures TurnGroup(st, cell, id, group, NO_TURN, false).kept == st.kept
  {
    var placed := TurnedPlaces(st.at, cell, id, group, NO_TURN);
    forall k | k in group ensures placed[k] == st.at[k].at { NoTurnStays(st.at, cell, id, k); }
  }

  lemma MovedRemembers(cell: Cell, start: map<Id, Drawn>, st: Tidied, id: Id, placed: map<Id, Point>)
    requires Remembers(cell, start, st.at, st.kept) && placed.Keys <= st.at.Keys
    ensures var after := Moved(st, cell, id, placed, true);
      Remembers(cell, start, after.at, after.kept) && after.kept.Keys == st.kept.Keys + placed.Keys
  {
    var after := Moved(st, cell, id, placed, true);
    assert after.kept.Keys == st.kept.Keys + placed.Keys;
    assert after.at.Keys == st.at.Keys;
  }

  lemma TurnTracks(f: Forest, pins: Places, cell: Cell, start: map<Id, Drawn>, st: Tidied, id: Id, t: Turn)
    requires Tracks(f, pins, cell, start, st) && id in pins && id in st.at && GroupOf(f, pins, id) <= st.at.Keys
    ensures Tracks(f, pins, cell, start, TurnGroup(st, cell, id, GroupOf(f, pins, id), t, true))
  {
    var group := GroupOf(f, pins, id);
    var after := TurnGroup(st, cell, id, group, t, true);
    MovedRemembers(cell, start, st, id, TurnedPlaces(st.at, cell, id, group, t));
    AllStillWhole(f, pins, st.kept, after.kept, id);
  }

  lemma AllStillWhole(f: Forest, pins: Places, kept: Places, more: Places, id: Id)
    requires AllWhole(f, pins, kept) && id in pins && more.Keys == kept.Keys + GroupOf(f, pins, id)
    ensures AllWhole(f, pins, more)
  {
    forall k | k in more ensures KeptWhole(f, pins, more, k) {
      if k in GroupOf(f, pins, id) {
        assert Carried(f, pins, id, k);
      } else {
        assert KeptWhole(f, pins, kept, k);
      }
    }
  }

  lemma OneTracks(f: Forest, pins: Places, cell: Cell, gap: Spacing, start: map<Id, Drawn>, st: Tidied, id: Id)
    requires TriesNone(gap) && Tracks(f, pins, cell, start, st)
    ensures Tracks(f, pins, cell, start, TidyOne(f, pins, cell, gap, st, id))
  {
    var group := GroupOf(f, pins, id);
    if id in pins && group != {} && id in st.at && group <= st.at.Keys {
      var best := BestOf(Move(st.at, cell, gap, id, group, Others(f, pins, st, group + {id})), |gap.turns|);
      if best == 0 {
        NoTurnNoMove(st, cell, id, group);
      } else {
        TurnTracks(f, pins, cell, start, st, id, gap.turns[best]);
      }
    }
  }

  lemma {:induction false} AllTrack(f: Forest, pins: Places, cell: Cell, gap: Spacing, st: Tidied, order: seq<Id>)
    requires TriesNone(gap) && st.kept == map[]
    ensures Tracks(f, pins, cell, st.at, TidyAll(f, pins, cell, gap, st, order))
    decreases |order|
  {
    if order != [] {
      var earlier := order[..|order| - 1];
      AllTrack(f, pins, cell, gap, st, earlier);
      OneTracks(f, pins, cell, gap, st.at, TidyAll(f, pins, cell, gap, st, earlier), order[|order| - 1]);
    }
  }

  /* ---------- The same node to follow ---------- */

  /** The pins, and places for whole groups of them. */
  ghost predicate PinsAndGroups(f: Forest, pins: Places, places: Places) {
    && (forall k :: k in pins ==> k in places && places[k] == pins[k] && pins[k].pinned)
    && (forall k :: k in places && k !in pins ==>
          exists id :: id in pins && Carried(f, pins, id, k) && forall x :: Carried(f, pins, id, x) ==> x in places)
  }

  /** What hangs, unpinned, from a node with a place of its own that is no pin has one too. */
  lemma PlacedBelow(f: Forest, pins: Places, places: Places, k: Id)
    requires PinsAndGroups(f, pins, places) && k in f.parentOf && !Pinned(pins, k)
    requires f.parentOf[k] in places && f.parentOf[k] !in pins
    ensures k in places
  {
    var p := f.parentOf[k];
    var id :| id in pins && Carried(f, pins, id, p) && forall x :: Carried(f, pins, id, x) ==> x in places;
    ParentShallower(f, k);
    assert Carried(f, pins, id, k);
  }

  lemma {:induction false} SameAnchor(f: Forest, auto: map<Id, Point>, cell: Cell, pins: Places, places: Places, k: Id)
    requires PinsAndGroups(f, pins, places) && k in f.byId && (k !in places || k in pins)
    ensures Grounded(f.parentOf, k)
    ensures var a := Anchor(Plan(auto, cell, pins), f.parentOf, k);
      Anchor(Plan(auto, cell, places), f.parentOf, k) == a && a in f.byId && (a !in places || a in pins)
    decreases DepthOf(f, k)
  {
    assert Grounded(f.parentOf, k);
    if !IsAnchor(Plan(auto, cell, pins), f.parentOf, k) {
      ParentShallower(f, k);
      if f.parentOf[k] in places && f.parentOf[k] !in pins { PlacedBelow(f, pins, places, k); }
      SameAnchor(f, auto, cell, pins, places, f.parentOf[k]);
    }
  }

  /* ---------- Turned alike ---------- */

  /** Two turns take a vector to the same place only if they are one turn, or there is nothing to turn. */
  lemma TurnedAlike(t: Turn, u: Turn, v: Point)
    ensures Rotate(t, v) == Rotate(u, v) <==> t == u || v == Point(0.0, 0.0)
  {
    if Rotate(t, v) == Rotate(u, v) { Twist(t.c - u.c, t.s - u.s, v.x, v.y); }
  }

  lemma Twist(c: real, s: real, x: real, y: real)
    requires c * x - s * y == 0.0 && c * y + s * x == 0.0
    ensures (c == 0.0 && s == 0.0) || (x == 0.0 && y == 0.0)
  {
    var r := x * x + y * y;
    assert c * r == (c * x - s * y) * x + (c * y + s * x) * y;
    assert s * r == (c * y + s * x) * x - (c * x - s * y) * y;
    NoProduct(c, r);
    NoProduct(s, r);
    NoSquares(x, y);
  }

  lemma NoProduct(a: real, b: real)
    ensures a * b == 0.0 <==> a == 0.0 || b == 0.0
  {
  }

  lemma NoSquares(x: real, y: real)
    ensures x * x + y * y == 0.0 <==> x == 0.0 && y == 0.0
  {
    assert x * x >= 0.0 && y * y >= 0.0;
    NoProduct(x, x);
    NoProduct(y, y);
  }

  lemma BetweenTells(was: Turn, now: Turn, next: Turn)
    requires IsTurn(was)
    ensures TurnBetween(was, now) == TurnBetween(was, next) <==> now == next
  {
    BetweenTurnsWas(was, now);
    BetweenTurnsWas(was, next);
  }

  lemma PlusTells(at: Point, u: Point, v: Point)
    ensures Plus(at, u) == Plus(at, v) <==> u == v
  {
  }

  /** The direction in which a node hangs from the one above it. */
  ghost function Hangs(plan: Plan, dir: Direction, parentOf: map<Id, Id>, id: Id): Turn
    requires Grounded(parentOf, id) && id in parentOf
  {
    DepthStep(parentOf, id);
    dir(Minus(CellAt(plan, dir, parentOf, id), CellAt(plan, dir, parentOf, parentOf[id])))
  }

  /** A stored node's group is turned by the direction it hangs in; any other that is not to follow, not at all. */
  lemma AnchorTurn(plan: Plan, dir: Direction, parentOf: map<Id, Id>, a: Id)
    requires Grounded(parentOf, a) && IsAnchor(plan, parentOf, a)
    ensures TurnAt(plan, dir, parentOf, a) ==
      if a in plan.stored && a in parentOf && parentOf[a] in plan.auto
      then TurnBetween(dir(Minus(AutoCell(plan, a), AutoCell(plan, parentOf[a]))), Hangs(plan, dir, parentOf, a))
      else NO_TURN
  {
    DepthStep(parentOf, a);
  }

  lemma AnchorStays(auto: map<Id, Point>, cell: Cell, dir: Direction, parentOf: map<Id, Id>, pins: Places,
                    places: Places, a: Id)
    requires Grounded(parentOf, a) && IsAnchor(Plan(auto, cell, pins), parentOf, a)
    requires if a in pins then a in places && places[a] == pins[a] else a !in places
    ensures CellAt(Plan(auto, cell, places), dir, parentOf, a) == CellAt(Plan(auto, cell, pins), dir, parentOf, a)
  {
    DepthStep(parentOf, a);
  }

  /** The node a group follows hangs as it did, or does not turn its group at all. */
  ghost predicate HangsAlike(auto: map<Id, Point>, cell: Cell, dir: Direction, parentOf: map<Id, Id>, pins: Places,
                             places: Places, a: Id)
    requires Grounded(parentOf, a)
  {
    a in pins && a in parentOf && parentOf[a] in auto ==>
      Hangs(Plan(auto, cell, places), dir, parentOf, a) == Hangs(Plan(auto, cell, pins), dir, parentOf, a)
  }

  lemma TurnsTell(auto: map<Id, Point>, cell: Cell, dir: Direction, parentOf: map<Id, Id>, pins: Places,
                  places: Places, a: Id)
    requires Grounded(parentOf, a) && IsAnchor(Plan(auto, cell, pins), parentOf, a) && TellsDirection(dir)
    requires if a in pins then a in places else a !in places
    ensures TurnAt(Plan(auto, cell, places), dir, parentOf, a) == TurnAt(Plan(auto, cell, pins), dir, parentOf, a)
      <==> HangsAlike(auto, cell, dir, parentOf, pins, places, a)
  {
    var before, after := Plan(auto, cell, pins), Plan(auto, cell, places);
    AnchorTurn(before, dir, parentOf, a);
    AnchorTurn(after, dir, parentOf, a);
    if a in pins && a in parentOf && parentOf[a] in auto {
      var was := dir(Minus(AutoCell(before, a), AutoCell(before, parentOf[a])));
      assert IsTurn(was);
      BetweenTells(was, Hangs(after, dir, parentOf, a), Hangs(before, dir, parentOf, a));
    }
  }

  /**
   * A node without a place of its own is drawn where it was exactly if what it follows hangs alike, or the
   * layout has the two in one place.
   */
  lemma FollowerStays(f: Forest, auto: map<Id, Point>, cell: Cell, dir: Direction, pins: Places, places: Places, k: Id)
    requires PinsAndGroups(f, pins, places) && TellsDirection(dir) && k in f.byId && k !in places
    ensures Grounded(f.parentOf, k)
    ensures var before, after := Plan(auto, cell, pins), Plan(auto, cell, places);
      var a := Anchor(before, f.parentOf, k);
      CellAt(after, dir, f.parentOf, k) == CellAt(before, dir, f.parentOf, k) <==>
        AutoCell(before, k) == AutoCell(before, a) || HangsAlike(auto, cell, dir, f.parentOf, pins, places, a)
  {
    var before, after := Plan(auto, cell, pins), Plan(auto, cell, places);
    SameAnchor(f, auto, cell, pins, places, k);
    var a := Anchor(before, f.parentOf, k);
    GroupMovesRigidly(before, dir, f.parentOf, k);
    GroupMovesRigidly(after, dir, f.parentOf, k);
    AnchorStays(auto, cell, dir, f.parentOf, pins, places, a);
    var away := Minus(AutoCell(before, k), AutoCell(before, a));
    var t, u := TurnAt(after, dir, f.parentOf, a), TurnAt(before, dir, f.parentOf, a);
    PlusTells(CellAt(before, dir, f.parentOf, a), Rotate(t, away), Rotate(u, away));
    TurnedAlike(t, u, away);
    TurnsTell(auto, cell, dir, f.parentOf, pins, places, a);
  }

  /* ---------- Redrawing ---------- */

  lemma TidyGroups(f: Forest, auto: map<Id, Point>, cell: Cell, dir: Direction, gap: Spacing, pins: Places)
    requires TriesNone(gap) && pins == PinsOf(pins)
    ensures var start := StartAt(Plan(auto, cell, pins), dir, f); var tidied := Tidy(f, auto, cell, dir, gap, pins);
      && Tracks(f, pins, cell, start, tidied)
      && TidyPlaces(f, auto, cell, dir, gap, pins) == tidied.kept + pins
      && PinsAndGroups(f, pins, tidied.kept + pins)
  {
    var start := Tidied(StartAt(Plan(auto, cell, pins), dir, f), map[], {});
    AllTrack(f, pins, cell, gap, start, TopDownAll(f, |f.roots|));
    var kept := Tidy(f, auto, cell, dir, gap, pins).kept;
    forall k | k in kept + pins && k !in pins
      ensures exists id ::
        id in pins && Carried(f, pins, id, k) && forall x :: Carried(f, pins, id, x) ==> x in kept + pins
    {
      var id :| id in pins && Carried(f, pins, id, k) && GroupOf(f, pins, id) <= kept.Keys;
      forall x | Carried(f, pins, id, x) ensures x in kept + pins { assert x in GroupOf(f, pins, id); }
    }
  }

  /**
   * What the tidy-up turned is drawn next where it was left, rounded to a tenth of a cell. What it did not
   * turn is drawn where it was left exactly if the node it follows still hangs in the same direction, or
   * the layout has the two in one place: a pin whose parent was moved takes its group round with it.
   */
  lemma RedrawnWhereLeft(f: Forest, auto: map<Id, Point>, cell: Cell, dir: Direction, gap: Spacing, pins: Places, k: Id)
    requires TriesNone(gap) && pins == PinsOf(pins) && TellsDirection(dir)
    requires InPlacedTree(Plan(auto, cell, pins), f, k)
    ensures var left := Tidy(f, auto, cell, dir, gap, pins).at; var places := TidyPlaces(f, auto, cell, dir, gap, pins);
      var after := Plan(auto, cell, places); var a := Anchor(Plan(auto, cell, pins), f.parentOf, k);
      && k in left
      && (k in places && k !in pins ==>
            CellAt(after, dir, f.parentOf, k) ==
              Point(Tenth(ToCells(left[k].at, cell).x), Tenth(ToCells(left[k].at, cell).y)))
      && (k !in places ==>
            (CellAt(after, dir, f.parentOf, k) == ToCells(left[k].at, cell) <==>
              AutoCell(after, k) == AutoCell(after, a) || HangsAlike(auto, cell, dir, f.parentOf, pins, places, a)))
  {
    var places := TidyPlaces(f, auto, cell, dir, gap, pins);
    TidyGroups(f, auto, cell, dir, gap, pins);
    assert Grounded(f.parentOf, k);
    if k in places && k !in pins { StoredIsKept(Plan(auto, cell, places), dir, f.parentOf, k); }
    if k !in places { FollowerStays(f, auto, cell, dir, pins, places, k); }
  }
}
