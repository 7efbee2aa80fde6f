/** The tidy tree layout of a network map (the tree part of layoutMap in web/netmap.js). */
module TreeLayout {
  import opened Wrappers
  import opened Ordering
  import opened Chains
  import opened Forests
  import opened Trees

  /** `slot` runs across, `level` down from the roots. */
  datatype Spot = Spot(slot: real, level: real)

  type Layout = map<Id, Spot>

  function Abs(x: real): real { if x < 0.0 then -x else x }

  /* ---------- What a tidy tree is ---------- */

  /** All of `x`'s tree is at least a slot to the left of all of `y`'s. */
  ghost predicate Apart(f: Forest, pos: Layout, x: Id, y: Id) {
    forall u, v {:trigger u in Sub(f, x), v in Sub(f, y)} ::
      u in Sub(f, x) && v in Sub(f, y) && u in pos && v in pos ==> pos[u].slot + 1.0 <= pos[v].slot
  }

  ghost predicate AllApart(f: Forest, pos: Layout, ids: seq<Id>) {
    forall i, j {:trigger Apart(f, pos, ids[i], ids[j])} :: 0 <= i < j < |ids| ==> Apart(f, pos, ids[i], ids[j])
  }

  ghost predicate Midway(f: Forest, pos: Layout, u: Id)
    requires u in f.children && u in pos
  {
    var kids := f.children[u];
    kids != [] ==>
      kids[0] in pos && kids[|kids| - 1] in pos && pos[u].slot == (pos[kids[0]].slot + pos[kids[|kids| - 1]].slot) / 2.0
  }

  /** `u` is on the level of its depth, midway over its children, whose trees are apart. */
  ghost predicate TidyAt(f: Forest, pos: Layout, u: Id)
    requires u in f.byId
  {
    u in pos && pos[u].level == DepthOf(f, u) as real && Midway(f, pos, u) && AllApart(f, pos, f.children[u])
  }

  ghost predicate Tidy(f: Forest, pos: Layout, s: set<Id>)
    requires s <= f.byId.Keys
  {
    forall u {:trigger TidyAt(f, pos, u)} :: u in s ==> TidyAt(f, pos, u)
  }

  ghost predicate InBand(pos: Layout, s: set<Id>, lo: real, hi: real) {
    forall u {:trigger u in s} :: u in s ==> u in pos && lo <= pos[u].slot <= hi - 1.0
  }

  ghost predicate Extends(pos: Layout, more: Layout, added: set<Id>) {
    more.Keys == pos.Keys + added && forall x :: x in pos ==> more[x] == pos[x]
  }

  ghost predicate DownClosed(f: Forest, s: set<Id>) {
    s <= f.byId.Keys && forall u {:trigger Sub(f, u)} :: u in s ==> Sub(f, u) <= s
  }

  lemma SubInSub(f: Forest, id: Id, u: Id)
    requires u in Sub(f, id)
    ensures Sub(f, u) <= Sub(f, id)
  {
    forall x | x in Sub(f, u) ensures x in Sub(f, id) { ReachesTrans(f.parentOf, x, u, id); }
  }

  lemma SubAllClosed(f: Forest, ids: seq<Id>)
    ensures DownClosed(f, SubAll(f, ids))
  {
    forall u | u in SubAll(f, ids) ensures Sub(f, u) <= SubAll(f, ids) {
      var k :| k in ids && Reaches(f.parentOf, u, k);
      forall x | x in Sub(f, u) ensures x in SubAll(f, ids) { ReachesTrans(f.parentOf, x, u, k); }
    }
  }

  /** What is laid out stays tidy while more is laid out. */
  lemma TidyStays(f: Forest, pos: Layout, more: Layout, s: set<Id>)
    requires DownClosed(f, s) && s <= pos.Keys && Tidy(f, pos, s)
    requires forall x :: x in pos ==> x in more && more[x] == pos[x]
    ensures Tidy(f, more, s)
  {
    forall u | u in s ensures TidyAt(f, more, u) {
      assert TidyAt(f, pos, u);
      AllChildrenBelow(f, u);
      var kids := f.children[u];
      forall i, j | 0 <= i < j < |kids| ensures Apart(f, more, kids[i], kids[j]) {
        assert Apart(f, pos, kids[i], kids[j]);
        ApartStays(f, pos, more, u, kids[i], kids[j], s);
      }
    }
  }

  lemma ApartStays(f: Forest, pos: Layout, more: Layout, u: Id, x: Id, y: Id, s: set<Id>)
    requires DownClosed(f, s) && s <= pos.Keys && u in s
    requires HangsFrom(f.parentOf, u, x) && HangsFrom(f.parentOf, u, y) && Apart(f, pos, x, y)
    requires forall z :: z in pos ==> z in more && more[z] == pos[z]
    ensures Apart(f, more, x, y)
  {
    KidInSub(f, u, x);
    KidInSub(f, u, y);
  }

  lemma KidInSub(f: Forest, u: Id, k: Id)
    requires HangsFrom(f.parentOf, u, k)
    ensures k in Sub(f, u) && Sub(f, k) <= Sub(f, u)
  {
    assert k in f.byId by { assert f.parentOf[k] in f.byId; }
    ReachesSelf(f.parentOf, u);
    ReachesParent(f.parentOf, k, u);
    SubInSub(f, u, k);
  }

  /* ---------- Placing one tree ---------- */

  /** What laying out the trees of `kids[..i]` from slot `lo` to slot `hi` has done. */
  ghost predicate Laid(f: Forest, pos: Layout, kids: seq<Id>, lo: real, hi: real) {
    && lo <= hi && (kids != [] ==> lo + 1.0 <= hi)
    && SubAll(f, kids) <= pos.Keys && InBand(pos, SubAll(f, kids), lo, hi)
    && Tidy(f, pos, SubAll(f, kids)) && AllApart(f, pos, kids)
  }

  /** A tree laid out between two slots. */
  ghost predicate TreeLaid(f: Forest, pos: Layout, id: Id, lo: real, hi: real) {
    && id in f.byId && lo + 1.0 <= hi && Sub(f, id) <= pos.Keys
    && InBand(pos, Sub(f, id), lo, hi) && Tidy(f, pos, Sub(f, id))
  }

  /** One more tree to the right of those laid out. */
  lemma LayOneMore(f: Forest, pos: Layout, more: Layout, kids: seq<Id>, k: Id, lo: real, mid: real, from: real,
                   hi: real)
    requires Laid(f, pos, kids, lo, mid) && mid <= from && k in f.byId
    requires forall x :: x in pos ==> x in more && more[x] == pos[x]
    requires TreeLaid(f, more, k, from, hi)
    ensures Laid(f, more, kids + [k], lo, hi)
  {
    var all := kids + [k];
    SubAllPlus(f, kids, k);
    SubAllClosed(f, kids);
    TidyStays(f, pos, more, SubAll(f, kids));
    forall i, j | 0 <= i < j < |all| ensures Apart(f, more, all[i], all[j]) {
      if j < |kids| {
        assert Apart(f, pos, kids[i], kids[j]);
        assert Sub(f, kids[i]) <= SubAll(f, kids) && Sub(f, kids[j]) <= SubAll(f, kids);
      } else {
        assert Sub(f, kids[i]) <= SubAll(f, kids);
      }
    }
  }

  lemma RootOverKids(f: Forest, pos: Layout, id: Id, level: int, lo: real, hi: real, slot: real)
    requires id in f.byId && level == DepthOf(f, id) && id !in pos && f.children[id] != [] &&
      Laid(f, pos, f.children[id], lo, hi)
    requires var kids := f.children[id];
      kids[0] in pos && kids[|kids| - 1] in pos && slot == (pos[kids[0]].slot + pos[kids[|kids| - 1]].slot) / 2.0
    requires lo <= slot <= hi - 1.0
    ensures TreeLaid(f, pos[id := Spot(slot, level as real)], id, lo, hi)
  {
    var more, kids := pos[id := Spot(slot, level as real)], f.children[id];
    SubSplits(f, id);
    SubAllClosed(f, kids);
    TidyStays(f, pos, more, SubAll(f, kids));
    forall i, j | 0 <= i < j < |kids| ensures Apart(f, more, kids[i], kids[j]) {
      assert Apart(f, pos, kids[i], kids[j]);
      assert Sub(f, kids[i]) <= SubAll(f, kids) && Sub(f, kids[j]) <= SubAll(f, kids);
    }
  }

  lemma Leaf(f: Forest, id: Id)
    requires id in f.byId && f.children[id] == []
    ensures Sub(f, id) == {id}
  {
    SubSplits(f, id);
    assert SubAll(f, []) == {};
  }

  lemma KidsPlaced(f: Forest, pos: Layout, id: Id, lo: real, hi: real)
    requires id in f.byId && f.children[id] != [] && Laid(f, pos, f.children[id], lo, hi)
    ensures forall k :: k in f.children[id] ==> k in pos && lo <= pos[k].slot <= hi - 1.0
  {
    forall k | k in f.children[id] ensures k in SubAll(f, f.children[id]) {
      ChildBelow(f, id, k);
      ReachesSelf(f.parentOf, k);
    }
  }

  lemma LeafLaid(f: Forest, pos: Layout, id: Id, level: int, lo: real, hi: real)
    requires id in f.byId && f.children[id] == [] && level == DepthOf(f, id) && hi == lo + 1.0
    ensures Sub(f, id) == {id}
    ensures TreeLaid(f, pos[id := Spot(lo, level as real)], id, lo, hi)
  {
    Leaf(f, id);
  }

  /** The trees of `ids` have been placed, one after another. */
  ghost predicate Placed(f: Forest, ids: seq<Id>, pos: Layout, pos': Layout, next: real, next': real, was: int,
                         now: int) {
    Extends(pos, pos', SubAll(f, ids)) && Laid(f, pos', ids, next, next') && DeepestIs(f, 0, was, now, SubAll(f, ids))
  }

  lemma NonePlaced(f: Forest, pos: Layout, next: real, deepest: int)
    ensures Placed(f, [], pos, pos, next, next, deepest, deepest)
  {
    assert SubAll(f, []) == {};
  }

  lemma OnePlaced(f: Forest, ids: seq<Id>, k: Id, pos: Layout, before: Layout, after: Layout,
                  next: real, mid: real, from: real, to: real, was: int, before': int, after': int)
    requires Placed(f, ids, pos, before, next, mid, was, before') && mid <= from
    requires TreeLaid(f, after, k, from, to)
    requires Extends(before, after, Sub(f, k)) && DeepestIs(f, 0, before', after', Sub(f, k))
    ensures Placed(f, ids + [k], pos, after, next, to, was, after')
  {
    SubAllPlus(f, ids, k);
    LayOneMore(f, before, after, ids, k, next, mid, from, to);
    DeepestTwice(f, 0, was, before', after', SubAll(f, ids), Sub(f, k));
  }

  lemma NextKid(f: Forest, id: Id, i: nat, pos: Layout, before: Layout)
    requires id in f.byId && i < |f.children[id]| && Sub(f, id) !! pos.Keys
    requires before.Keys == pos.Keys + SubAll(f, f.children[id][..i])
    ensures var k := f.children[id][i];
      k in f.byId && DepthOf(f, k) == DepthOf(f, id) + 1 && Room(f, k) < Room(f, id) && Sub(f, k) !! before.Keys
  {
    ChildBelow(f, id, f.children[id][i]);
    SubAllSnoc(f, id, i);
    KidInSub(f, id, f.children[id][i]);
  }

  /* ---------- How many slots trees take ---------- */

  ghost function LeavesOf(f: Forest, s: set<Id>): set<Id> { set x | x in s && x in f.children && f.children[x] == [] }

  /** The nodes with nothing below them. */
  ghost function Leaves(f: Forest, s: set<Id>): nat { |LeavesOf(f, s)| }

  lemma LeavesAdd(f: Forest, a: set<Id>, b: set<Id>)
    requires a !! b
    ensures Leaves(f, a + b) == Leaves(f, a) + Leaves(f, b)
  {
    assert LeavesOf(f, a + b) == LeavesOf(f, a) + LeavesOf(f, b);
  }

  lemma LeavesOver(f: Forest, id: Id)
    requires id in f.byId
    ensures Leaves(f, Sub(f, id)) == if f.children[id] == [] then 1 else Leaves(f, SubAll(f, f.children[id]))
  {
    SubSplits(f, id);
    if f.children[id] == [] {
      Leaf(f, id);
      assert LeavesOf(f, Sub(f, id)) == {id};
    } else {
      assert LeavesOf(f, Sub(f, id)) == LeavesOf(f, SubAll(f, f.children[id]));
    }
  }

  lemma LeavesOfKids(f: Forest, id: Id, i: nat)
    requires id in f.byId && i < |f.children[id]|
    ensures var kids := f.children[id];
      Leaves(f, SubAll(f, kids[..i + 1])) == Leaves(f, SubAll(f, kids[..i])) + Leaves(f, Sub(f, kids[i]))
  {
    SubAllSnoc(f, id, i);
    LeavesAdd(f, SubAll(f, f.children[id][..i]), Sub(f, f.children[id][i]));
  }

  lemma NoLeaves(f: Forest)
    ensures Leaves(f, SubAll(f, [])) == 0
  {
    assert SubAll(f, []) == {};
  }

  /** Places the trees of the children, one after another. */
  method PlaceKids(f: Forest, id: Id, level: int, pos: Layout, next: real, deepest: int)
    returns (pos': Layout, next': real, deepest': int)
    requires id in f.byId && level == DepthOf(f, id) + 1 && Sub(f, id) !! pos.Keys
    ensures Placed(f, f.children[id], pos, pos', next, next', deepest, deepest')
    ensures next' == next + Leaves(f, SubAll(f, f.children[id])) as real
    decreases Room(f, id), 0
  {
    pos', next', deepest' := pos, next, deepest;
    var kids := f.children[id];
    ghost var done: seq<Id> := [];
    NonePlaced(f, pos, next, deepest);
    NoLeaves(f);
    for i := 0 to |kids|
      invariant done == kids[..i]
      invariant Placed(f, done, pos, pos', next, next', deepest, deepest')
      invariant next' == next + Leaves(f, SubAll(f, done)) as real
    {
      NextKid(f, id, i, pos, pos');
      LeavesOfKids(f, id, i);
      ghost var before, from, depth := pos', next', deepest';
      pos', next', deepest' := Place(f, kids[i], level, pos', next', deepest');
      OnePlaced(f, done, kids[i], pos, before, pos', next, from, from, next', deepest, depth, deepest');
      TakeMore(kids, i);
      done := done + [kids[i]];
    }
    TakeAll(kids);
  }

  method Place(f: Forest, id: Id, level: int, pos: Layout, next: real, deepest: int)
    returns (pos': Layout, next': real, deepest': int)
    requires id in f.byId && level == DepthOf(f, id) && Sub(f, id) !! pos.Keys
    ensures Extends(pos, pos', Sub(f, id))
    ensures TreeLaid(f, pos', id, next, next')
    ensures DeepestIs(f, 0, deepest, deepest', Sub(f, id))
    ensures next' == next + Leaves(f, Sub(f, id)) as real
    decreases Room(f, id), 1
  {
    LeavesOver(f, id);
    var reached := if deepest < level then level else deepest;
    var kids := f.children[id];
    if |kids| == 0 {
      pos', next', deepest' := pos[id := Spot(next, level as real)], next + 1.0, reached;
      LeafLaid(f, pos, id, level, next, next');
      return;
    }
    pos', next', deepest' := PlaceKids(f, id, level + 1, pos, next, reached);
    EndsPlaced(f, id, pos', next, next');
    var first, last := pos'[kids[0]].slot, pos'[kids[|kids| - 1]].slot;
    var slot := (first + last) / 2.0;
    OverKids(f, id, level, pos, pos', next, next', slot);
    ReachedOver(f, id, deepest, reached, deepest');
    pos' := pos'[id := Spot(slot, level as real)];
  }

  lemma EndsPlaced(f: Forest, id: Id, pos: Layout, lo: real, hi: real)
    requires id in f.byId && f.children[id] != [] && Laid(f, pos, f.children[id], lo, hi)
    ensures var kids := f.children[id]; kids[0] in pos && kids[|kids| - 1] in pos
    ensures var kids := f.children[id]; lo <= (pos[kids[0]].slot + pos[kids[|kids| - 1]].slot) / 2.0 <= hi - 1.0
  {
    KidsPlaced(f, pos, id, lo, hi);
  }

  /** A node set midway over its children's trees completes its own. */
  lemma OverKids(f: Forest, id: Id, level: int, pos: Layout, under: Layout, lo: real, hi: real, slot: real)
    requires id in f.byId && level == DepthOf(f, id) && Sub(f, id) !! pos.Keys && f.children[id] != []
    requires Extends(pos, under, SubAll(f, f.children[id])) && Laid(f, under, f.children[id], lo, hi) &&
      lo <= slot <= hi - 1.0
    requires var kids := f.children[id];
      kids[0] in under && kids[|kids| - 1] in under &&
        slot == (under[kids[0]].slot + under[kids[|kids| - 1]].slot) / 2.0
    ensures Extends(pos, under[id := Spot(slot, level as real)], Sub(f, id))
    ensures TreeLaid(f, under[id := Spot(slot, level as real)], id, lo, hi)
  {
    SubSplits(f, id);
    RootOverKids(f, under, id, level, lo, hi, slot);
  }

  lemma ReachedOver(f: Forest, id: Id, deepest: int, reached: int, deepest': int)
    requires id in f.byId && reached == (if deepest < DepthOf(f, id) then DepthOf(f, id) else deepest)
    requires DeepestIs(f, 0, reached, deepest', SubAll(f, f.children[id]))
    ensures DeepestIs(f, 0, deepest, deepest', Sub(f, id))
  {
    SubSplits(f, id);
    assert DeepestIs(f, 0, deepest, reached, {id});
    DeepestTwice(f, 0, deepest, reached, deepest', {id}, SubAll(f, f.children[id]));
  }

  /* ---------- All the trees ---------- */

  lemma RootsDisjoint(f: Forest, trees: seq<Id>, i: nat)
    requires NoDup(trees) && i < |trees| && forall r :: r in trees ==> r in f.roots
    ensures trees[i] in f.byId && DepthOf(f, trees[i]) == 0
    ensures Sub(f, trees[i]) !! SubAll(f, trees[..i])
  {
    assert trees[i] in trees;
    DepthStep(f.parentOf, trees[i]);
    forall x | x in Sub(f, trees[i]) && x in SubAll(f, trees[..i]) ensures false {
      var k :| k in trees[..i] && Reaches(f.parentOf, x, k);
      assert k in f.roots;
      DepthStep(f.parentOf, k);
      SubDisjoint(f, trees[i], k);
    }
  }

  /** A tree and the next have half a slot more between them than two neighbours of one tree. */
  ghost predicate WellApart(f: Forest, pos: Layout, x: Id, y: Id) {
    forall u, v {:trigger u in Sub(f, x), v in Sub(f, y)} ::
      u in Sub(f, x) && v in Sub(f, y) && u in pos && v in pos ==> pos[u].slot + 1.5 <= pos[v].slot
  }

  ghost predicate AllWellApart(f: Forest, pos: Layout, ids: seq<Id>) {
    forall i, j {:trigger WellApart(f, pos, ids[i], ids[j])} :: 0 <= i < j < |ids| ==> WellApart(f, pos, ids[i], ids[j])
  }

  lemma OneMoreApart(f: Forest, pos: Layout, more: Layout, trees: seq<Id>, k: Id, mid: real, from: real, hi: real)
    requires Laid(f, pos, trees, 0.0, mid) && AllWellApart(f, pos, trees) && (trees != [] ==> from >= mid + 0.5)
    requires forall x :: x in pos ==> x in more && more[x] == pos[x]
    requires TreeLaid(f, more, k, from, hi)
    ensures AllWellApart(f, more, trees + [k])
  {
    var all := trees + [k];
    forall i, j | 0 <= i < j < |all| ensures WellApart(f, more, all[i], all[j]) {
      assert Sub(f, trees[i]) <= SubAll(f, trees);
      if j < |trees| {
        assert WellApart(f, pos, trees[i], trees[j]);
        assert Sub(f, trees[j]) <= SubAll(f, trees);
      }
    }
  }

  /** What is known of the trees placed so far. */
  ghost predicate TreesPlaced(f: Forest, trees: seq<Id>, pos: Layout, next: real, start: int, deepest: int) {
    Placed(f, trees, map[], pos, 0.0, next, start, deepest) && AllWellApart(f, pos, trees)
  }

  lemma OneTreeMore(f: Forest, trees: seq<Id>, i: nat, before: Layout, after: Layout,
                    mid: real, from: real, to: real, start: int, was: int, now: int)
    requires i < |trees| && TreesPlaced(f, trees[..i], before, mid, start, was) &&
      from == (if i > 0 then mid + 0.5 else mid)
    requires TreeLaid(f, after, trees[i], from, to)
    requires Extends(before, after, Sub(f, trees[i])) && DeepestIs(f, 0, was, now, Sub(f, trees[i]))
    ensures TreesPlaced(f, trees[..i + 1], after, to, start, now)
  {
    OneMoreApart(f, before, after, trees[..i], trees[i], mid, from, to);
    OnePlaced(f, trees[..i], trees[i], map[], before, after, 0.0, mid, from, to, start, was, now);
    TakeMore(trees, i);
  }

  /** Where the first `i` trees end: a slot for each leaf, and half a one between two trees. */
  ghost function EndOf(f: Forest, trees: seq<Id>, i: nat): real
    requires i <= |trees|
  {
    Leaves(f, SubAll(f, trees[..i])) as real + if i == 0 then 0.0 else (i - 1) as real * 0.5
  }

  lemma EndOfNext(f: Forest, trees: seq<Id>, i: nat)
    requires NoDup(trees) && i < |trees| && forall r :: r in trees ==> r in f.roots
    ensures EndOf(f, trees, i + 1) ==
      EndOf(f, trees, i) + Leaves(f, Sub(f, trees[i])) as real + if i == 0 then 0.0 else 0.5
  {
    RootsDisjoint(f, trees, i);
    TakeMore(trees, i);
    SubAllPlus(f, trees[..i], trees[i]);
    LeavesAdd(f, SubAll(f, trees[..i]), Sub(f, trees[i]));
  }

  /** The next tree, half a slot after those before it. */
  method PlaceTree(f: Forest, trees: seq<Id>, i: nat, pos: Layout, next: real, deepest: int, ghost start: int)
    returns (pos': Layout, next': real, deepest': int)
    requires NoDup(trees) && i < |trees| && forall r :: r in trees ==> r in f.roots
    requires TreesPlaced(f, trees[..i], pos, next, start, deepest) == true  // not split into its parts
    requires next == EndOf(f, trees, i)
    ensures TreesPlaced(f, trees[..i + 1], pos', next', start, deepest') && next' == EndOf(f, trees, i + 1)
  {
    RootsDisjoint(f, trees, i);
    EndOfNext(f, trees, i);
    var from := if i > 0 then next + 0.5 else next;
    pos', next', deepest' := Place(f, trees[i], 0, pos, from, deepest);
    OneTreeMore(f, trees, i, pos, pos', next, from, next', start, deepest, deepest');
  }

  lemma NoTreesYet(f: Forest, trees: seq<Id>, deepest: int)
    ensures TreesPlaced(f, trees[..0], map[], 0.0, deepest, deepest) && EndOf(f, trees, 0) == 0.0
  {
    assert trees[..0] == [];
    NonePlaced(f, map[], 0.0, deepest);
    NoLeaves(f);
  }

  method PlaceTrees(f: Forest, trees: seq<Id>) returns (pos: Layout, next: real, deepest: int)
    requires NoDup(trees) && forall r :: r in trees ==> r in f.roots
    ensures Placed(f, trees, map[], pos, 0.0, next, if trees == [] then -1 else 0, deepest)
    ensures AllWellApart(f, pos, trees) && next == EndOf(f, trees, |trees|)
  {
    pos, next, deepest := map[], 0.0, if |trees| > 0 then 0 else -1;
    ghost var start := deepest;
    NoTreesYet(f, trees, deepest);
    for i := 0 to |trees|
      invariant next == EndOf(f, trees, i)
      invariant TreesPlaced(f, trees[..i], pos, next, start, deepest) == true  // not split into its parts
    {
      pos, next, deepest := PlaceTree(f, trees, i, pos, next, deepest, start);
    }
    TakeAll(trees);
  }

  /* ---------- What a finished layout promises ---------- */

  lemma TreeOf(f: Forest, trees: seq<Id>, x: Id)
    requires x in SubAll(f, trees) && forall r :: r in trees ==> r in f.roots
    ensures x in f.parentOf ==> f.parentOf[x] in SubAll(f, trees)
    ensures x !in f.parentOf ==> x in trees
  {
    var k :| k in trees && Reaches(f.parentOf, x, k);
    ReachesParent(f.parentOf, x, k);
    assert k in f.roots;
    if x in f.parentOf { assert f.parentOf[x] in f.byId; }
  }

  /** Two nodes neither of which is above the other have their trees apart. */
  lemma UnrelatedApart(f: Forest, pos: Layout, trees: seq<Id>, lo: real, hi: real, x: Id, y: Id)
    requires Laid(f, pos, trees, lo, hi) && forall r :: r in trees ==> r in f.roots
    requires x in SubAll(f, trees) && y in SubAll(f, trees) && x !in Sub(f, y) && y !in Sub(f, x)
    ensures Apart(f, pos, x, y) || Apart(f, pos, y, x)
    decreases DepthOf(f, x) + DepthOf(f, y)
  {
    if DepthOf(f, x) < DepthOf(f, y) {
      UnrelatedHigher(f, pos, trees, lo, hi, y, x);
    } else {
      UnrelatedHigher(f, pos, trees, lo, hi, x, y);
    }
  }

  lemma UnrelatedHigher(f: Forest, pos: Layout, trees: seq<Id>, lo: real, hi: real, x: Id, y: Id)
    requires Laid(f, pos, trees, lo, hi) && forall r :: r in trees ==> r in f.roots
    requires x in SubAll(f, trees) && y in SubAll(f, trees) && x !in Sub(f, y) && y !in Sub(f, x)
    requires DepthOf(f, x) >= DepthOf(f, y)
    ensures Apart(f, pos, x, y) || Apart(f, pos, y, x)
    decreases DepthOf(f, x) + DepthOf(f, y), 0
  {
    TreeOf(f, trees, x);
    TreeOf(f, trees, y);
    DepthStep(f.parentOf, x);
    DepthStep(f.parentOf, y);
    SubSelf(f, x);
    if x !in f.parentOf {
      var i :| 0 <= i < |trees| && trees[i] == x;
      var j :| 0 <= j < |trees| && trees[j] == y;
      assert if i < j then Apart(f, pos, trees[i], trees[j]) else Apart(f, pos, trees[j], trees[i]);
    } else {
      var p := f.parentOf[x];
      assert HangsFrom(f.parentOf, p, x);
      KidInSub(f, p, x);
      if y in Sub(f, p) {
        SubDeeper(f, p, y);
        SubDeeper(f, p, f.parentOf[y]);
        Siblings(f, pos, trees, p, x, y);
      } else {
        if p in Sub(f, y) { SubInSub(f, y, p); }
        UnrelatedApart(f, pos, trees, lo, hi, p, y);
      }
    }
  }

  lemma Siblings(f: Forest, pos: Layout, trees: seq<Id>, p: Id, x: Id, y: Id)
    requires p in SubAll(f, trees) && Tidy(f, pos, SubAll(f, trees))
    requires HangsFrom(f.parentOf, p, x) && HangsFrom(f.parentOf, p, y) && x != y
    ensures Apart(f, pos, x, y) || Apart(f, pos, y, x)
  {
    assert TidyAt(f, pos, p);
    var kids := f.children[p];
    assert x in kids && y in kids;
    var i :| 0 <= i < |kids| && kids[i] == x;
    var j :| 0 <= j < |kids| && kids[j] == y;
    assert if i < j then Apart(f, pos, kids[i], kids[j]) else Apart(f, pos, kids[j], kids[i]);
  }

  /** A slot or a level between the two. */
  predicate Clear(a: Spot, b: Spot) { Abs(a.slot - b.slot) >= 1.0 || Abs(a.level - b.level) >= 1.0 }

  ghost predicate NoOverlap(pos: Layout) {
    forall x, y {:trigger Clear(pos[x], pos[y])} :: x in pos && y in pos && x != y ==> Clear(pos[x], pos[y])
  }

  /** A child is one level below its parent, which is midway between its first and its last child. */
  ghost predicate HangsTidily(f: Forest, pos: Layout, id: Id)
    requires id in f.byId
  {
    var kids := f.children[id];
    && id in pos && (forall i :: 0 <= i < |kids| ==> kids[i] in pos && pos[kids[i]].level == pos[id].level + 1.0)
    && Midway(f, pos, id)
    && (forall i, j {:trigger kids[i], kids[j]} :: 0 <= i < j < |kids| ==> pos[kids[i]].slot + 1.0 <= pos[kids[j]].slot)
  }

  /** Where the line from slot `from` to slot `to` is, `t` of the way down. */
  function Along(from: real, to: real, t: real): real { (1.0 - t) * from + t * to }

  /** The lines into `c` and `d`, `t` of the way down, keep this far apart. */
  ghost predicate LinesApart(f: Forest, pos: Layout, c: Id, d: Id, t: real)
    requires c in f.parentOf && d in f.parentOf
  {
    {c, d, f.parentOf[c], f.parentOf[d]} <= pos.Keys &&
    var p, q := f.parentOf[c], f.parentOf[d];
    Abs(Along(pos[p].slot, pos[c].slot, t) - Along(pos[q].slot, pos[d].slot, t)) >= if p == q then t else 1.0
  }

  lemma ProductNotNegative(x: real, y: real)
    requires x >= 0.0 && y >= 0.0
    ensures x * y >= 0.0
  {
  }

  lemma AlongApart(a: real, b: real, c: real, d: real, gap: real, t: real)
    requires 0.0 <= t <= 1.0 && a + gap <= b && c + 1.0 <= d && gap >= 0.0
    ensures Along(a, c, t) + (1.0 - t) * gap + t <= Along(b, d, t)
  {
    var u := 1.0 - t;
    ProductNotNegative(u, b - a - gap);
    ProductNotNegative(t, d - c - 1.0);
    assert u * (b - a - gap) == u * b - u * a - u * gap;
    assert t * (d - c - 1.0) == t * d - t * c - t;
  }

  /** Lines between the same two levels never cross: at any height they keep their distance. */
  lemma LinesNeverCross(f: Forest, pos: Layout, trees: seq<Id>, lo: real, hi: real, c: Id, d: Id, t: real)
    requires Laid(f, pos, trees, lo, hi) && forall r :: r in trees ==> r in f.roots
    requires c in SubAll(f, trees) && d in SubAll(f, trees) && c != d && DepthOf(f, c) == DepthOf(f, d)
    requires c in f.parentOf && d in f.parentOf && 0.0 <= t <= 1.0
    ensures LinesApart(f, pos, c, d, t)
  {
    var p, q := f.parentOf[c], f.parentOf[d];
    TreeOf(f, trees, c);
    TreeOf(f, trees, d);
    DepthStep(f.parentOf, c);
    DepthStep(f.parentOf, d);
    SubSelf(f, c);
    SubSelf(f, d);
    if p == q {
      Siblings(f, pos, trees, p, c, d);
      if Apart(f, pos, c, d) {
        AlongApart(pos[p].slot, pos[q].slot, pos[c].slot, pos[d].slot, 0.0, t);
      } else {
        AlongApart(pos[q].slot, pos[p].slot, pos[d].slot, pos[c].slot, 0.0, t);
      }
    } else {
      SubSelf(f, p);
      SubSelf(f, q);
      SubDisjoint(f, p, q);
      KidInSub(f, p, c);
      KidInSub(f, q, d);
      UnrelatedApart(f, pos, trees, lo, hi, p, q);
      if Apart(f, pos, p, q) {
        AlongApart(pos[p].slot, pos[q].slot, pos[c].slot, pos[d].slot, 1.0, t);
      } else {
        AlongApart(pos[q].slot, pos[p].slot, pos[d].slot, pos[c].slot, 1.0, t);
      }
    }
  }

  lemma TreesNoOverlap(f: Forest, pos: Layout, trees: seq<Id>, lo: real, hi: real, x: Id, y: Id)
    requires Laid(f, pos, trees, lo, hi) && forall r :: r in trees ==> r in f.roots
    requires x in SubAll(f, trees) && y in SubAll(f, trees) && x != y
    ensures Clear(pos[x], pos[y])
  {
    assert TidyAt(f, pos, x) && TidyAt(f, pos, y);
    if DepthOf(f, x) == DepthOf(f, y) {
      SubSelf(f, x);
      SubSelf(f, y);
      SubDisjoint(f, x, y);
      UnrelatedApart(f, pos, trees, lo, hi, x, y);
    }
  }

  lemma TreesHangTidily(f: Forest, pos: Layout, trees: seq<Id>, lo: real, hi: real, id: Id)
    requires Laid(f, pos, trees, lo, hi) && id in SubAll(f, trees)
    ensures HangsTidily(f, pos, id)
  {
    var kids := f.children[id];
    assert TidyAt(f, pos, id);
    SubAllClosed(f, trees);
    SubSelf(f, id);
    forall k | k in kids ensures k in SubAll(f, trees) && TidyAt(f, pos, k) && k in Sub(f, k) {
      ChildBelow(f, id, k);
      KidInSub(f, id, k);
      SubSelf(f, k);
    }
    forall k | k in kids ensures pos[k].level == pos[id].level + 1.0 {
      assert TidyAt(f, pos, k);
      ChildBelow(f, id, k);
    }
    forall i, j | 0 <= i < j < |kids| ensures pos[kids[i]].slot + 1.0 <= pos[kids[j]].slot {
      assert Apart(f, pos, kids[i], kids[j]);
      assert kids[i] in kids && kids[j] in kids;
    }
  }

  /* ---------- The block of nodes with no link, and the whole layout ---------- */

  predicate IsLinked(f: Forest, id: Id) { id in f.parentOf || id in f.parentOf.Values }

  function SizeOf(f: Forest, id: Id): nat { if id in f.byId then SubtreeSize(f, id) else 0 }

  function BySize(f: Forest): Comparator<Id> { (a, b) => SizeOf(f, b) - SizeOf(f, a) }

  /** Largest tree first, then by name. */
  function LargestFirst(f: Forest, collate: Comparator<string>): Comparator<Id> {
    (a, b) =>
      var d := SizeOf(f, b) - SizeOf(f, a);
      if d != 0 then d else collate(NameOf(f.byId, a), NameOf(f.byId, b))
  }

  lemma LargestFirstOrders(f: Forest, collate: Comparator<string>)
    requires Collates(collate)
    ensures Collates(LargestFirst(f, collate))
  {
    NamesOrder(collate, NamesIn(f.byId), Names(f.byId, collate));
    assert Collates(BySize(f));
    ThenOrders(BySize(f), Names(f.byId, collate), LargestFirst(f, collate));
  }

  /** Of two trees drawn the larger is the one further left. */
  ghost predicate LargestLeft(f: Forest, pos: Layout) {
    forall r, q {:trigger Apart(f, pos, r, q)} ::
      r in f.roots && q in f.roots && IsLinked(f, r) && IsLinked(f, q) && SizeOf(f, r) > SizeOf(f, q) ==>
        Apart(f, pos, r, q)
  }

  lemma SortedIsLargestLeft(f: Forest, trees: seq<Id>, pos: Layout, next: real, collate: Comparator<string>)
    requires Laid(f, pos, trees, 0.0, next) && Sorted(trees, LargestFirst(f, collate))
    requires forall r :: r in f.roots && IsLinked(f, r) ==> r in trees
    ensures LargestLeft(f, pos)
  {
    forall r, q | r in f.roots && q in f.roots && IsLinked(f, r) && IsLinked(f, q) && SizeOf(f, r) > SizeOf(f, q)
      ensures Apart(f, pos, r, q)
    {
      var i :| 0 <= i < |trees| && trees[i] == r;
      var j :| 0 <= j < |trees| && trees[j] == q;
      if j < i { SortedAt(trees, LargestFirst(f, collate), j, i); }
      assert Apart(f, pos, trees[i], trees[j]);
    }
  }

  lemma LinkedRoots(f: Forest, trees: seq<Id>, isolated: seq<Id>)
    requires forall r :: r in trees <==> r in f.roots && IsLinked(f, r)
    requires forall r :: r in isolated <==> r in f.roots && !IsLinked(f, r)
    ensures SubAll(f, trees) == set id | id in f.byId && IsLinked(f, id)
    ensures SubAll(f, trees) + Elements(isolated) == f.byId.Keys
    ensures SubAll(f, trees) !! Elements(isolated)
  {
    forall id | id in f.byId
      ensures if IsLinked(f, id) then id in SubAll(f, trees) && id !in isolated
              else id in isolated && id !in SubAll(f, trees)
    {
      var root := InOneTree(f, id);
      assert root in f.roots;
      if id == root {
        if id in SubAll(f, trees) { TreeOf(f, trees, id); }
      } else {
        SubDeeper(f, root, id);
        RootLinked(f, root, id);
      }
    }
  }

  lemma RootLinked(f: Forest, root: Id, id: Id)
    requires root in f.byId && id in Sub(f, root) && id != root
    ensures IsLinked(f, root) && IsLinked(f, id)
  {
    SubDeeper(f, root, id);
    var n: nat :| Up(f.parentOf, id, n) == Some(root);
    UpStep(f.parentOf, id, n - 1);
    var k := Up(f.parentOf, id, n - 1).value;
    assert f.parentOf[k] in f.parentOf.Values;
  }

  function Ceil(x: real): (n: int)
    ensures n as real - 1.0 < x <= n as real
  {
    if x.Floor as real == x then x.Floor else x.Floor + 1
  }

  /** The least k from `k` up with k * k >= n: the square root of n, rounded up. */
  function CeilSqrt(n: nat, k: nat): (r: nat)
    requires k == 0 || (k - 1) * (k - 1) < n
    ensures r * r >= n && (r == 0 || (r - 1) * (r - 1) < n)
    decreases n - k * k
  {
    if k * k >= n then k else CeilSqrt(n, k + 1)
  }

  /** A row of `m` is as wide as the trees; where there are none, its square is twice the number of nodes or more. */
  predicate RowWillDo(m: int, slots: real, count: nat) {
    if slots > 0.0 then m as real >= slots else m * m >= 2 * count
  }

  /** How many nodes go in a row: as many as asked for, or else the fewest from four on that will do. */
  function PerRow(isolatedPerRow: int, slots: real, count: nat): (n: int)
    requires slots >= 0.0
    ensures n >= 1
    ensures isolatedPerRow != 0 ==> n == if isolatedPerRow > 1 then isolatedPerRow else 1
    ensures isolatedPerRow == 0 ==>
      n >= 4 && RowWillDo(n, slots, count) && (n == 4 || !RowWillDo(n - 1, slots, count))
  {
    var across := if Ceil(slots) != 0 then Ceil(slots) else CeilSqrt(count * 2, 0);
    var want := if isolatedPerRow != 0 then isolatedPerRow else if across > 4 then across else 4;
    Squares(across, 4);
    if want > 1 then want else 1
  }

  lemma Squares(a: nat, b: nat)
    ensures a <= b ==> a * a <= b * b
  {
    if a <= b { assert b * b - a * a == (b - a) * (b + a); }
  }

  /** The row and the column of the block's `i`-th node, counting off a row at a time. */
  function RowOf(i: nat, perRow: int): nat
    requires perRow >= 1
  {
    if i < perRow then 0 else 1 + RowOf(i - perRow, perRow)
  }

  function ColumnOf(i: nat, perRow: int): nat
    requires perRow >= 1
  {
    if i < perRow then i else ColumnOf(i - perRow, perRow)
  }

  lemma {:induction false} RowAndColumn(i: nat, perRow: int)
    requires perRow >= 1
    ensures i == perRow * RowOf(i, perRow) + ColumnOf(i, perRow) && ColumnOf(i, perRow) < perRow
  {
    if i >= perRow {
      RowAndColumn(i - perRow, perRow);
      var r := RowOf(i - perRow, perRow);
      assert perRow * (1 + r) == perRow + perRow * r;
    } else {
      assert perRow * 0 == 0;
    }
  }

  /** Counting off rows is dividing: the row is the quotient and the column the remainder. */
  lemma RowIsQuotient(i: nat, perRow: int)
    requires perRow >= 1
    ensures RowOf(i, perRow) == i / perRow && ColumnOf(i, perRow) == i % perRow
  {
    RowAndColumn(i, perRow);
    QuotientIs(i, perRow, RowOf(i, perRow), ColumnOf(i, perRow));
  }

  lemma QuotientIs(i: nat, n: int, q: nat, r: nat)
    requires n >= 1 && i == n * q + r && r < n
    ensures q == i / n && r == i % n
  {
    var d := q - i / n;
    assert n * d == i % n - r;
    assert d >= 1 ==> n * (d - 1) >= 0;
    assert d <= -1 ==> n * (-1 - d) >= 0;
  }

  lemma {:induction false} LaterInBlock(i: nat, j: nat, perRow: int)
    requires perRow >= 1 && i < j
    ensures RowOf(i, perRow) < RowOf(j, perRow) ||
      (RowOf(i, perRow) == RowOf(j, perRow) && ColumnOf(i, perRow) < ColumnOf(j, perRow))
    decreases i
  {
    if i >= perRow { LaterInBlock(i - perRow, j - perRow, perRow); }
  }

  /** Where the `i`-th node of the block goes. */
  function BlockSpot(i: nat, perRow: int, top: real): Spot
    requires perRow >= 1
  {
    Spot(ColumnOf(i, perRow) as real, top + RowOf(i, perRow) as real)
  }

  lemma BlockSpots(i: nat, j: nat, perRow: int, top: real)
    requires perRow >= 1 && i != j
    ensures Clear(BlockSpot(i, perRow, top), BlockSpot(j, perRow, top))
  {
    if i < j { LaterInBlock(i, j, perRow); } else { LaterInBlock(j, i, perRow); }
  }

  lemma AtMost(a: real, b: real, q: real)
    requires b > 0.0 && a / b <= q
    ensures a <= b * q
  {
    assert a == b * (a / b);
    assert b * (q - a / b) >= 0.0;
  }

  /** The block's `i`-th node is within the rows and columns the block is said to take. */
  lemma BlockFits(i: nat, perRow: int, count: nat, rows: int)
    requires perRow >= 1 && i < count && rows == Ceil(count as real / perRow as real)
    ensures RowOf(i, perRow) + 1 <= rows && ColumnOf(i, perRow) + 1 <= perRow && ColumnOf(i, perRow) + 1 <= count
  {
    RowAndColumn(i, perRow);
    MoreRows(RowOf(i, perRow), perRow, count);
  }

  lemma MoreRows(q: int, perRow: int, count: int)
    requires perRow >= 1 && perRow * q < count
    ensures q < Ceil(count as real / perRow as real)
  {
    var a, b, p := count as real, perRow as real, q as real;
    assert (perRow * q) as real == b * p;
    if a / b <= p { AtMost(a, b, p); }
  }

  method PlaceBlock(isolated: seq<Id>, perRow: int, top: real, trees: Layout) returns (pos: Layout)
    requires NoDup(isolated) && perRow >= 1 && trees.Keys !! Elements(isolated)
    ensures Extends(trees, pos, Elements(isolated))
    ensures forall i :: 0 <= i < |isolated| ==> pos[isolated[i]] == BlockSpot(i, perRow, top)
  {
    pos := trees;
    for i := 0 to |isolated|
      invariant pos.Keys == trees.Keys + Elements(isolated[..i])
      invariant forall x :: x in trees ==> pos[x] == trees[x]
      invariant forall j :: 0 <= j < i ==> isolated[j] in pos && pos[isolated[j]] == BlockSpot(j, perRow, top)
    {
      TakeMore(isolated, i);
      assert isolated[i] in isolated;
      pos := pos[isolated[i] := BlockSpot(i, perRow, top)];
    }
    TakeAll(isolated);
  }

  /** Every node is between the first and the last slot and level. */
  ghost predicate InFrame(pos: Layout, slots: real, levels: real) {
    forall x {:trigger pos[x]} :: x in pos ==>
      0.0 <= pos[x].slot <= slots - 1.0 && 0.0 <= pos[x].level <= levels - 1.0
  }

  lemma TreesInFrame(f: Forest, trees: seq<Id>, pos: Layout, next: real, deepest: int)
    requires Placed(f, trees, map[], pos, 0.0, next, if trees == [] then -1 else 0, deepest)
    ensures InFrame(pos, next, (deepest + 1) as real)
    ensures forall x :: x in pos ==> pos[x].level <= deepest as real
  {
    forall x | x in pos ensures 0.0 <= pos[x].slot <= next - 1.0 && 0.0 <= pos[x].level <= deepest as real {
      assert x in SubAll(f, trees);
      assert TidyAt(f, pos, x);
    }
  }

  /** The spots of the block, none on another and none above the top. */
  ghost predicate BlockOf(isolated: seq<Id>, pos: Layout, spots: seq<Spot>, top: real) {
    && |spots| == |isolated|
    && (forall i {:trigger isolated[i]} :: 0 <= i < |isolated| ==> isolated[i] in pos && pos[isolated[i]] == spots[i])
    && (forall i, j {:trigger spots[i], spots[j]} :: 0 <= i < |spots| && 0 <= j < |spots| && i != j ==>
      Clear(spots[i], spots[j]))
    && (forall i {:trigger spots[i]} :: 0 <= i < |spots| ==> spots[i].level >= top)
  }

  lemma SpotsAreBlock(isolated: seq<Id>, pos: Layout, spots: seq<Spot>, perRow: int, top: real)
    requires perRow >= 1 && |spots| == |isolated| && forall i :: 0 <= i < |spots| ==>
      spots[i] == BlockSpot(i, perRow, top)
    requires forall i :: 0 <= i < |isolated| ==> isolated[i] in pos && pos[isolated[i]] == spots[i]
    ensures BlockOf(isolated, pos, spots, top)
  {
    forall i, j | 0 <= i < |spots| && 0 <= j < |spots| && i != j ensures Clear(spots[i], spots[j]) {
      BlockSpots(i, j, perRow, top);
    }
  }

  lemma BlockClear(trees: Layout, pos: Layout, isolated: seq<Id>, spots: seq<Spot>, top: real, below: real)
    requires Extends(trees, pos, Elements(isolated)) && trees.Keys !! Elements(isolated)
    requires BlockOf(isolated, pos, spots, top)
    requires NoOverlap(trees) && forall x {:trigger trees[x]} :: x in trees ==> trees[x].level <= below
    requires trees.Keys != {} ==> top >= below + 1.0
    ensures NoOverlap(pos)
  {
    forall x, y | x in pos && y in pos && x != y ensures Clear(pos[x], pos[y]) {
      if x in trees && y in trees {
        assert Clear(trees[x], trees[y]);
      } else if x in trees {
        var j := BlockIndex(trees, pos, isolated, y);
        assert trees[x].level <= below && spots[j].level >= top;
      } else if y in trees {
        var i := BlockIndex(trees, pos, isolated, x);
        assert trees[y].level <= below && spots[i].level >= top;
      } else {
        var i := BlockIndex(trees, pos, isolated, x);
        var j := BlockIndex(trees, pos, isolated, y);
        assert Clear(spots[i], spots[j]);
      }
    }
  }

  lemma BlockIndex(trees: Layout, pos: Layout, isolated: seq<Id>, x: Id) returns (i: nat)
    requires Extends(trees, pos, Elements(isolated)) && x in pos && x !in trees
    ensures i < |isolated| && isolated[i] == x
  {
    assert x in Elements(isolated);
    i :| 0 <= i < |isolated| && isolated[i] == x;
  }

  /** Lines between the same two levels keep apart all the way down. */
  ghost predicate LinesClear(f: Forest, pos: Layout) {
    forall c, d, t: real {:trigger LinesApart(f, pos, c, d, t)} ::
      c in f.parentOf && d in f.parentOf && c != d && DepthOf(f, c) == DepthOf(f, d) && 0.0 <= t <= 1.0
      ==> LinesApart(f, pos, c, d, t)
  }

  ghost predicate AllHangTidily(f: Forest, pos: Layout) {
    forall id {:trigger HangsTidily(f, pos, id)} :: id in f.byId && id in pos ==> HangsTidily(f, pos, id)
  }

  /** Layout `pos` is of the trees of the linked nodes. */
  ghost predicate TreesOf(f: Forest, trees: seq<Id>, pos: Layout, next: real) {
    && Laid(f, pos, trees, 0.0, next) && pos.Keys == SubAll(f, trees)
    && (forall r :: r in trees <==> r in f.roots && IsLinked(f, r))
    && pos.Keys == (set id | id in f.byId && IsLinked(f, id))
  }

  lemma TreesLinesClear(f: Forest, trees: seq<Id>, pos: Layout, next: real)
    requires TreesOf(f, trees, pos, next)
    ensures LinesClear(f, pos)
  {
    forall c, d, t: real |
      c in f.parentOf && d in f.parentOf && c != d && DepthOf(f, c) == DepthOf(f, d) && 0.0 <= t <= 1.0
      ensures LinesApart(f, pos, c, d, t)
    {
      assert IsLinked(f, c) && IsLinked(f, d);
      assert c in pos && d in pos;
      LinesNeverCross(f, pos, trees, 0.0, next, c, d, t);
    }
  }

  lemma TreesAllHangTidily(f: Forest, trees: seq<Id>, pos: Layout, next: real)
    requires TreesOf(f, trees, pos, next)
    ensures AllHangTidily(f, pos)
  {
    forall id | id in f.byId && id in pos ensures HangsTidily(f, pos, id) {
      TreesHangTidily(f, pos, trees, 0.0, next, id);
    }
  }

  /** All linked nodes, and only they, are placed in `pos`, and stay there in `more`. */
  ghost predicate LinkedStay(f: Forest, pos: Layout, more: Layout) {
    && pos.Keys == (set id | id in f.byId && IsLinked(f, id))
    && (forall x {:trigger x in pos} :: x in pos ==> x in more && more[x] == pos[x])
  }

  lemma LinesStayClear(f: Forest, pos: Layout, more: Layout)
    requires LinkedStay(f, pos, more) && LinesClear(f, pos)
    ensures LinesClear(f, more)
  {
    forall c, d, t: real |
      c in f.parentOf && d in f.parentOf && c != d && DepthOf(f, c) == DepthOf(f, d) && 0.0 <= t <= 1.0
      ensures LinesApart(f, more, c, d, t)
    {
      assert LinesApart(f, pos, c, d, t);
    }
  }

  lemma HangTidilyStill(f: Forest, pos: Layout, more: Layout)
    requires LinkedStay(f, pos, more) && AllHangTidily(f, pos)
    ensures AllHangTidily(f, more)
  {
    forall id | id in f.byId && id in more ensures HangsTidily(f, more, id) {
      if id in pos {
        assert HangsTidily(f, pos, id);
      } else {
        if f.children[id] != [] { KidMakesLinked(f, id, f.children[id][0]); }
      }
    }
  }

  lemma LargestStayLeft(f: Forest, pos: Layout, more: Layout)
    requires LinkedStay(f, pos, more) && LargestLeft(f, pos)
    ensures LargestLeft(f, more)
  {
    forall r, q | r in f.roots && q in f.roots && IsLinked(f, r) && IsLinked(f, q) && SizeOf(f, r) > SizeOf(f, q)
      ensures Apart(f, more, r, q)
    {
      assert Apart(f, pos, r, q);
      LinkedBelow(f, r);
      LinkedBelow(f, q);
    }
  }

  lemma LinkedBelow(f: Forest, root: Id)
    requires root in f.byId && IsLinked(f, root)
    ensures forall u :: u in Sub(f, root) ==> u in f.byId && IsLinked(f, u)
  {
    forall u | u in Sub(f, root) ensures IsLinked(f, u) {
      if u != root { RootLinked(f, root, u); }
    }
  }

  lemma KidMakesLinked(f: Forest, id: Id, k: Id)
    requires id in f.byId && k in f.children[id]
    ensures IsLinked(f, id)
  {
    assert HangsFrom(f.parentOf, id, k);
    assert f.parentOf[k] in f.parentOf.Values;
  }

  /** One of `keys` hangs from another node, and `id` is either of the two. */
  ghost predicate LinkedAmong(f: Forest, keys: seq<Id>, id: Id) {
    exists k :: k in keys && k in f.parentOf && (id == k || id == f.parentOf[k])
  }

  method CollectLinked(f: Forest) returns (linked: set<Id>)
    ensures forall id :: id in linked <==> IsLinked(f, id)
  {
    linked := {};
    for i := 0 to |f.keys|
      invariant forall id :: id in linked <==> LinkedAmong(f, f.keys[..i], id)
    {
      TakeMore(f.keys, i);
      var k := f.keys[i];
      if k in f.parentOf { linked := linked + {k, f.parentOf[k]}; }
    }
    TakeAll(f.keys);
    forall id | IsLinked(f, id) ensures LinkedAmong(f, f.keys, id) {
      var k :| k in f.parentOf && (k == id || f.parentOf[k] == id);
      assert f.parentOf[k] in f.byId;
      assert k in f.keys;
    }
  }

  /** The first row of the block: right at the top, or a fifth of a level below the trees. */
  function BlockTop(height: int): real { if height == 0 then 0.0 else height as real + 0.2 }

  /** Row by row, from left to right and from the top down. */
  ghost predicate BlockDrawn(pos: Layout, isolated: seq<Id>, perRow: int, height: int)
    requires perRow >= 1
  {
    forall i {:trigger isolated[i]} :: 0 <= i < |isolated| ==>
      && isolated[i] in pos && pos[isolated[i]].slot == (i % perRow) as real
      && pos[isolated[i]].level == BlockTop(height) + (i / perRow) as real
  }

  function BlockSlots(next: real, count: nat, perRow: int): real {
    var across := (if perRow < count then perRow else count) as real;
    if next > across then next else across
  }

  function BlockLevels(height: int, count: nat, perRow: int): real
    requires perRow >= 1
  {
    BlockTop(height) + Ceil(count as real / perRow as real) as real
  }

  lemma SpotsAreDrawn(pos: Layout, isolated: seq<Id>, perRow: int, height: int)
    requires perRow >= 1
    requires forall i :: 0 <= i < |isolated| ==>
      isolated[i] in pos && pos[isolated[i]] == BlockSpot(i, perRow, BlockTop(height))
    ensures BlockDrawn(pos, isolated, perRow, height)
  {
    forall i | 0 <= i < |isolated|
      ensures pos[isolated[i]].slot == (i % perRow) as real
      ensures pos[isolated[i]].level == BlockTop(height) + (i / perRow) as real
    {
      RowIsQuotient(i, perRow);
    }
  }

  /** The unlinked nodes become a block of rows under what is placed already. */
  method AddBlock(isolated: seq<Id>, isolatedPerRow: int, placed: Layout, next: real, deepest: int)
    returns (pos: Layout, slots: real, levels: real)
    requires NoDup(isolated) && isolated != [] && placed.Keys !! Elements(isolated)
    requires NoOverlap(placed) && InFrame(placed, next, (deepest + 1) as real) && next >= 0.0 && deepest >= -1
    requires deepest == -1 ==> placed.Keys == {}
    ensures Extends(placed, pos, Elements(isolated)) && NoOverlap(pos) && InFrame(pos, slots, levels)
    ensures BlockDrawn(pos, isolated, PerRow(isolatedPerRow, next, |isolated|), deepest + 1)
    ensures slots == BlockSlots(next, |isolated|, PerRow(isolatedPerRow, next, |isolated|))
    ensures levels == BlockLevels(deepest + 1, |isolated|, PerRow(isolatedPerRow, next, |isolated|))
  {
    slots, levels := next, (deepest + 1) as real;
    var perRow := PerRow(isolatedPerRow, slots, |isolated|);
    var top := levels + if levels != 0.0 then 0.2 else 0.0;
    pos := PlaceBlock(isolated, perRow, top, placed);
    ghost var spots := seq(|isolated|, i requires 0 <= i => BlockSpot(i, perRow, top));
    SpotsAreBlock(isolated, pos, spots, perRow, top);
    BlockClear(placed, pos, isolated, spots, top, deepest as real);
    var across := if perRow < |isolated| then perRow else |isolated|;
    var rows := Ceil(|isolated| as real / perRow as real);
    slots := if slots > across as real then slots else across as real;
    levels := top + rows as real;
    BlockFits(0, perRow, |isolated|, rows);
    SpotsInFrame(spots, perRow, top, slots, levels);
    BlockInFrame(isolated, spots, placed, pos, next, (deepest + 1) as real, slots, levels);
    SpotsAreDrawn(pos, isolated, perRow, deepest + 1);
  }

  ghost predicate Within(s: Spot, slots: real, levels: real) {
    0.0 <= s.slot <= slots - 1.0 && 0.0 <= s.level <= levels - 1.0
  }

  lemma SpotsInFrame(spots: seq<Spot>, perRow: int, top: real, slots: real, levels: real)
    requires perRow >= 1 && top >= 0.0 && forall i :: 0 <= i < |spots| ==> spots[i] == BlockSpot(i, perRow, top)
    requires slots >= (if perRow < |spots| then perRow else |spots|) as real
    requires levels == top + Ceil(|spots| as real / perRow as real) as real
    ensures forall i :: 0 <= i < |spots| ==> Within(spots[i], slots, levels)
  {
    forall i | 0 <= i < |spots| ensures Within(spots[i], slots, levels) {
      BlockFits(i, perRow, |spots|, Ceil(|spots| as real / perRow as real));
    }
  }

  lemma BlockInFrame(isolated: seq<Id>, spots: seq<Spot>, placed: Layout, pos: Layout, next: real, above: real,
                     slots: real, levels: real)
    requires isolated != [] && |spots| == |isolated| && Extends(placed, pos, Elements(isolated))
    requires forall i :: 0 <= i < |isolated| ==> pos[isolated[i]] == spots[i] && Within(spots[i], slots, levels)
    requires InFrame(placed, next, above) && slots >= next && levels >= above
    ensures InFrame(pos, slots, levels)
  {
    forall x | x in pos ensures Within(pos[x], slots, levels) {
      if x in placed {
        assert pos[x] == placed[x];
      } else {
        var i := BlockIndex(placed, pos, isolated, x);
        assert pos[isolated[i]] == spots[i];
      }
    }
  }

  function LinkedIn(f: Forest): Id -> bool { id => IsLinked(f, id) }
  function UnlinkedIn(f: Forest): Id -> bool { id => !IsLinked(f, id) }

  /** The roots that have something below them, largest tree first, and those that stand alone. */
  method SplitRoots(f: Forest, collate: Comparator<string>) returns (trees: seq<Id>, isolated: seq<Id>)
    ensures NoDup(trees) && NoDup(isolated)
    ensures trees == SortBy(Filter(f.roots, LinkedIn(f)), LargestFirst(f, collate))
    ensures forall r :: r in trees <==> r in f.roots && IsLinked(f, r)
    ensures Collates(collate) ==> Sorted(trees, LargestFirst(f, collate))
    ensures SubAll(f, trees) == set id | id in f.byId && IsLinked(f, id)
    ensures isolated == Filter(f.roots, UnlinkedIn(f))
    ensures forall id :: id in isolated <==> id in f.byId && !IsLinked(f, id)
  {
    var linked := CollectLinked(f);
    trees := SortBy(Filter(f.roots, r => r in linked), LargestFirst(f, collate));
    isolated := Filter(f.roots, r => r !in linked);
    FilterAgrees(f.roots, r => r in linked, LinkedIn(f));
    FilterAgrees(f.roots, r => r !in linked, UnlinkedIn(f));
    SplitAre(f, trees, isolated, collate);
  }

  lemma SplitAre(f: Forest, trees: seq<Id>, isolated: seq<Id>, collate: Comparator<string>)
    requires trees == SortBy(Filter(f.roots, LinkedIn(f)), LargestFirst(f, collate))
    requires isolated == Filter(f.roots, UnlinkedIn(f))
    ensures NoDup(trees) && NoDup(isolated)
    ensures forall r :: r in trees <==> r in f.roots && IsLinked(f, r)
    ensures Collates(collate) ==> Sorted(trees, LargestFirst(f, collate))
    ensures SubAll(f, trees) == set id | id in f.byId && IsLinked(f, id)
    ensures forall id :: id in isolated <==> id in f.byId && !IsLinked(f, id)
  {
    FilterNoDup(f.roots, LinkedIn(f));
    FilterNoDup(f.roots, UnlinkedIn(f));
    SortKeeps(Filter(f.roots, LinkedIn(f)), LargestFirst(f, collate));
    if Collates(collate) {
      LargestFirstOrders(f, collate);
      SortSorts(Filter(f.roots, LinkedIn(f)), LargestFirst(f, collate));
    }
    LinkedRoots(f, trees, isolated);
    forall id | id in f.byId && !IsLinked(f, id) ensures id in isolated {
      assert id in SubAll(f, trees) + Elements(isolated);
    }
  }

  /** What drawing the trees gives: the linked nodes, laid out and in the frame. */
  ghost predicate Drawn(f: Forest, pos: Layout, next: real, deepest: int) {
    && LinkedStay(f, pos, pos) && NoOverlap(pos) && LinesClear(f, pos) && AllHangTidily(f, pos)
    && InFrame(pos, next, (deepest + 1) as real) && next >= 0.0 && deepest >= -1 && (deepest == -1 ==> pos.Keys == {})
  }

  lemma TreesDrawn(f: Forest, trees: seq<Id>, pos: Layout, next: real, deepest: int)
    requires TreesOf(f, trees, pos, next)
    requires InFrame(pos, next, (deepest + 1) as real) && next >= 0.0 && deepest >= -1 &&
      (deepest == -1 ==> pos.Keys == {})
    ensures Drawn(f, pos, next, deepest)
  {
    TreesNoOverlapAll(f, trees, pos, next);
    TreesLinesClear(f, trees, pos, next);
    TreesAllHangTidily(f, trees, pos, next);
  }

  /* ---------- Where exactly the trees are ---------- */

  /** As many slots as the trees have leaves, and half a one between two trees. */
  ghost function TreesWidth(f: Forest): real {
    var roots, linked := set r | r in f.roots && IsLinked(f, r), set id | id in f.byId && IsLinked(f, id);
    Leaves(f, linked) as real + if roots == {} then 0.0 else (|roots| - 1) as real * 0.5
  }

  /** The trees have `h` levels. */
  ghost predicate TreesHigh(f: Forest, h: int) {
    && (forall x :: x in f.byId && IsLinked(f, x) ==> DepthOf(f, x) < h)
    && (if h == 0 then forall x :: x in f.byId ==> !IsLinked(f, x)
        else exists x :: x in f.byId && IsLinked(f, x) && DepthOf(f, x) + 1 == h)
  }

  ghost predicate AtDepths(f: Forest, pos: Layout) {
    forall x {:trigger pos[x]} {:trigger x in pos} :: x in f.byId && IsLinked(f, x) ==>
      x in pos && pos[x].level == DepthOf(f, x) as real
  }

  /** The trees of a node's children are laid out from left to right in their order. */
  ghost predicate KidsInTurn(f: Forest, pos: Layout) {
    forall p {:trigger f.children[p]} :: p in f.byId ==> AllApart(f, pos, f.children[p])
  }

  /** Larger trees come first, then by name, then as the roots are listed. */
  ghost predicate TreeBefore(f: Forest, collate: Comparator<string>, r: Id, q: Id) {
    && r in f.roots && q in f.roots && IsLinked(f, r) && IsLinked(f, q)
    && (assert r in f.byId && q in f.byId; var byName := collate(f.byId[r].name, f.byId[q].name);
        SubtreeSize(f, r) > SubtreeSize(f, q) ||
          (SubtreeSize(f, r) == SubtreeSize(f, q) && (byName < 0 || (byName == 0 && Precedes(f.roots, r, q)))))
  }

  ghost predicate TreesInTurn(f: Forest, pos: Layout, collate: Comparator<string>) {
    forall r, q {:trigger WellApart(f, pos, r, q)} :: TreeBefore(f, collate, r, q) ==> WellApart(f, pos, r, q)
  }

  /**
   * The trees are on the levels of their depths and in turn from left to right, in no more slots than they
   * have leaves (and half a one between two trees).
   */
  ghost predicate AsDrawn(f: Forest, pos: Layout, collate: Comparator<string>) {
    && AtDepths(f, pos) && KidsInTurn(f, pos) && (Collates(collate) ==> TreesInTurn(f, pos, collate))
    && forall x {:trigger pos[x]} :: x in f.byId && IsLinked(f, x) ==>
      x in pos && 0.0 <= pos[x].slot <= TreesWidth(f) - 1.0
  }

  lemma WidthIs(f: Forest, trees: seq<Id>)
    requires NoDup(trees) && forall r :: r in trees <==> r in f.roots && IsLinked(f, r)
    requires SubAll(f, trees) == set id | id in f.byId && IsLinked(f, id)
    ensures EndOf(f, trees, |trees|) == TreesWidth(f)
  {
    TakeAll(trees);
    NoDupSize(trees);
    assert Elements(trees) == set r | r in f.roots && IsLinked(f, r);
  }

  lemma HeightIsReached(f: Forest, trees: seq<Id>, deepest: int)
    requires forall r :: r in trees <==> r in f.roots && IsLinked(f, r)
    requires SubAll(f, trees) == set id | id in f.byId && IsLinked(f, id)
    requires DeepestIs(f, 0, if trees == [] then -1 else 0, deepest, SubAll(f, trees))
    ensures TreesHigh(f, deepest + 1)
  {
    forall x | x in f.byId && IsLinked(f, x) ensures DepthOf(f, x) <= deepest { assert x in SubAll(f, trees); }
    if trees == [] {
      assert SubAll(f, trees) == {};
    } else {
      var x := DeepestTree(f, trees, deepest);
      assert x in SubAll(f, trees);
    }
  }

  lemma DeepestTree(f: Forest, trees: seq<Id>, deepest: int) returns (x: Id)
    requires trees != [] && (forall r :: r in trees ==> r in f.roots)
    requires DeepestIs(f, 0, 0, deepest, SubAll(f, trees))
    ensures x in SubAll(f, trees) && DepthOf(f, x) == deepest
  {
    if deepest == 0 {
      x := trees[0];
      assert x in trees && x in f.roots && x in f.byId;
      DepthStep(f.parentOf, x);
      ReachesSelf(f.parentOf, x);
    } else {
      x :| x in SubAll(f, trees) && 0 + DepthOf(f, x) == deepest;
    }
  }

  /** How two roots compare: sizes are told apart first, and then names. */
  lemma SizesThenNames(f: Forest, collate: Comparator<string>, q: Id, r: Id)
    requires q in f.byId && r in f.byId
    ensures var d, c := SubtreeSize(f, r) - SubtreeSize(f, q), collate(f.byId[q].name, f.byId[r].name);
      LargestFirst(f, collate)(q, r) == if d != 0 then d else c
  {
    var d := SizeOf(f, r) - SizeOf(f, q);
    var c := collate(NameOf(f.byId, q), NameOf(f.byId, r));
    assert LargestFirst(f, collate)(q, r) == if d != 0 then d else c;
    assert SizeOf(f, r) == SubtreeSize(f, r);
    assert SizeOf(f, q) == SubtreeSize(f, q);
  }

  lemma NotBefore(f: Forest, trees: seq<Id>, collate: Comparator<string>, j: nat, i: nat)
    requires trees == SortBy(Filter(f.roots, LinkedIn(f)), LargestFirst(f, collate)) && Collates(collate)
    requires j < i < |trees|
    ensures !TreeBefore(f, collate, trees[i], trees[j])
  {
    var roots := Filter(f.roots, LinkedIn(f));
    LargestFirstOrders(f, collate);
    FilterNoDup(f.roots, LinkedIn(f));
    SortKeeps(roots, LargestFirst(f, collate));
    SortKeepsOrder(roots, LargestFirst(f, collate), j, i);
    assert trees[j] in trees && trees[i] in trees;
    LaterIsNotBefore(f, collate, trees[j], trees[i]);
  }

  lemma LaterIsNotBefore(f: Forest, collate: Comparator<string>, q: Id, r: Id)
    requires q in f.roots && r in f.roots && IsLinked(f, q) && IsLinked(f, r) && Collates(collate)
    requires var c := LargestFirst(f, collate)(q, r); c < 0 || (c == 0 && Precedes(Filter(f.roots, LinkedIn(f)), q, r))
    ensures !TreeBefore(f, collate, r, q)
  {
    FilterPrecedes(f.roots, LinkedIn(f), q, r);
    NotBothWays(f.roots, q, r);
    SizesThenNames(f, collate, q, r);
    BothWays(collate, f.byId[q].name, f.byId[r].name);
  }

  lemma NotBothWays(s: seq<Id>, a: Id, b: Id)
    requires NoDup(s)
    ensures Precedes(s, a, b) ==> !Precedes(s, b, a) && a != b
  {
  }

  lemma NotBeforeItself(f: Forest, collate: Comparator<string>, r: Id)
    requires Collates(collate)
    ensures !TreeBefore(f, collate, r, r)
  {
    NotBothWays(f.roots, r, r);
    if r in f.byId { assert collate(f.byId[r].name, f.byId[r].name) <= 0; }
  }

  /** Trees drawn in a sorted order are in turn. */
  lemma SortedInTurn(f: Forest, trees: seq<Id>, pos: Layout, collate: Comparator<string>)
    requires trees == SortBy(Filter(f.roots, LinkedIn(f)), LargestFirst(f, collate)) && AllWellApart(f, pos, trees)
    requires Collates(collate)
    ensures TreesInTurn(f, pos, collate)
  {
    var roots := Filter(f.roots, LinkedIn(f));
    LargestFirstOrders(f, collate);
    SortKeeps(roots, LargestFirst(f, collate));
    FilterNoDup(f.roots, LinkedIn(f));
    forall r, q | TreeBefore(f, collate, r, q) ensures WellApart(f, pos, r, q) {
      assert r in trees && q in trees;
      var i :| 0 <= i < |trees| && trees[i] == r;
      var j :| 0 <= j < |trees| && trees[j] == q;
      if j < i { NotBefore(f, trees, collate, j, i); }
      if i == j { NotBeforeItself(f, collate, r); }
      assert WellApart(f, pos, trees[i], trees[j]);
    }
  }

  lemma TreesAsDrawn(f: Forest, trees: seq<Id>, pos: Layout, next: real, start: int, deepest: int,
                     collate: Comparator<string>)
    requires trees == SortBy(Filter(f.roots, LinkedIn(f)), LargestFirst(f, collate)) && NoDup(trees)
    requires forall r :: r in trees <==> r in f.roots && IsLinked(f, r)
    requires SubAll(f, trees) == set id | id in f.byId && IsLinked(f, id)
    requires Placed(f, trees, map[], pos, 0.0, next, start, deepest) && start == if trees == [] then -1 else 0
    requires AllWellApart(f, pos, trees) && next == EndOf(f, trees, |trees|)
    ensures AsDrawn(f, pos, collate) && next == TreesWidth(f) && TreesHigh(f, deepest + 1)
  {
    WidthIs(f, trees);
    HeightIsReached(f, trees, deepest);
    if Collates(collate) { SortedInTurn(f, trees, pos, collate); }
    forall x | x in f.byId && IsLinked(f, x)
      ensures x in pos && 0.0 <= pos[x].slot <= next - 1.0 && pos[x].level == DepthOf(f, x) as real
    {
      assert x in SubAll(f, trees) && TidyAt(f, pos, x);
    }
    TreesKidsInTurn(f, trees, pos);
  }

  lemma TreesKidsInTurn(f: Forest, trees: seq<Id>, pos: Layout)
    requires Tidy(f, pos, SubAll(f, trees)) && SubAll(f, trees) == set id | id in f.byId && IsLinked(f, id)
    ensures KidsInTurn(f, pos)
  {
    forall p | p in f.byId ensures AllApart(f, pos, f.children[p]) {
      if f.children[p] != [] {
        KidMakesLinked(f, p, f.children[p][0]);
        assert p in SubAll(f, trees) && TidyAt(f, pos, p);
      }
    }
  }

  /** All that is known of trees that were placed in their order. */
  lemma PlacedAsDrawn(f: Forest, trees: seq<Id>, pos: Layout, next: real, deepest: int, collate: Comparator<string>)
    requires trees == SortBy(Filter(f.roots, LinkedIn(f)), LargestFirst(f, collate)) && NoDup(trees)
    requires forall r :: r in trees <==> r in f.roots && IsLinked(f, r)
    requires SubAll(f, trees) == set id | id in f.byId && IsLinked(f, id)
    requires Placed(f, trees, map[], pos, 0.0, next, if trees == [] then -1 else 0, deepest)
    requires AllWellApart(f, pos, trees) && next == EndOf(f, trees, |trees|)
    ensures Drawn(f, pos, next, deepest)
    ensures Collates(collate) ==> LargestLeft(f, pos)
    ensures AsDrawn(f, pos, collate) && next == TreesWidth(f) && TreesHigh(f, deepest + 1)
  {
    TreesInFrame(f, trees, pos, next, deepest);
    TreesDrawn(f, trees, pos, next, deepest);
    TreesAsDrawn(f, trees, pos, next, if trees == [] then -1 else 0, deepest, collate);
    if Collates(collate) {
      LargestFirstOrders(f, collate);
      SortSorts(Filter(f.roots, LinkedIn(f)), LargestFirst(f, collate));
      SortedIsLargestLeft(f, trees, pos, next, collate);
    }
  }

  method DrawTrees(f: Forest, collate: Comparator<string>)
    returns (pos: Layout, next: real, deepest: int, isolated: seq<Id>)
    ensures Drawn(f, pos, next, deepest) && pos.Keys == set id | id in f.byId && IsLinked(f, id)
    ensures isolated == Filter(f.roots, UnlinkedIn(f))
    ensures NoDup(isolated) && forall id :: id in isolated <==> id in f.byId && !IsLinked(f, id)
    ensures WellDrawn(f, pos, collate) && next == TreesWidth(f) && TreesHigh(f, deepest + 1)
  {
    var trees;
    trees, isolated := SplitRoots(f, collate);
    pos, next, deepest := PlaceTrees(f, trees);
    PlacedAsDrawn(f, trees, pos, next, deepest, collate);
  }

  /** What is apart stays so when only unlinked nodes are added. */
  lemma AsDrawnStill(f: Forest, pos: Layout, more: Layout, collate: Comparator<string>)
    requires LinkedStay(f, pos, more) && AsDrawn(f, pos, collate)
    ensures AsDrawn(f, more, collate)
  {
    forall x | x in f.byId && IsLinked(f, x) ensures x in more && x in pos && more[x] == pos[x] {
      assert x in pos.Keys;
    }
    forall p | p in f.byId ensures AllApart(f, more, f.children[p]) {
      var kids := f.children[p];
      forall i, j | 0 <= i < j < |kids| ensures Apart(f, more, kids[i], kids[j]) {
        assert Apart(f, pos, kids[i], kids[j]);
        KidsLinkedBelow(f, p, kids[i]);
        KidsLinkedBelow(f, p, kids[j]);
      }
    }
    if Collates(collate) { InTurnStill(f, pos, more, collate); }
  }

  lemma InTurnStill(f: Forest, pos: Layout, more: Layout, collate: Comparator<string>)
    requires LinkedStay(f, pos, more) && TreesInTurn(f, pos, collate)
    ensures TreesInTurn(f, more, collate)
  {
    forall r, q | TreeBefore(f, collate, r, q) ensures WellApart(f, more, r, q) {
      assert WellApart(f, pos, r, q);
      LinkedBelow(f, r);
      LinkedBelow(f, q);
    }
  }

  lemma KidsLinkedBelow(f: Forest, p: Id, k: Id)
    requires p in f.byId && k in f.children[p]
    ensures forall u :: u in Sub(f, k) ==> u in f.byId && IsLinked(f, u)
  {
    ChildBelow(f, p, k);
    LinkedBelow(f, k);
  }

  /** The nodes of the block change nothing about the trees. */
  lemma BlockBeside(f: Forest, pos: Layout, next: real, deepest: int, more: Layout, isolated: seq<Id>)
    requires Drawn(f, pos, next, deepest) && Extends(pos, more, Elements(isolated))
    ensures LinesClear(f, more) && AllHangTidily(f, more)
    ensures LargestLeft(f, pos) ==> LargestLeft(f, more)
  {
    LinesStayClear(f, pos, more);
    HangTidilyStill(f, pos, more);
    if LargestLeft(f, pos) { LargestStayLeft(f, pos, more); }
  }

  /** Nothing overlaps or crosses, and all is where it is to be. */
  ghost predicate WellDrawn(f: Forest, pos: Layout, collate: Comparator<string>) {
    && NoOverlap(pos) && LinesClear(f, pos) && AllHangTidily(f, pos)
    && (Collates(collate) ==> LargestLeft(f, pos)) && AsDrawn(f, pos, collate)
  }

  /** The block, drawn under the trees. */
  method DrawBlock(f: Forest, isolated: seq<Id>, isolatedPerRow: int, placed: Layout, next: real, deepest: int,
                   ghost collate: Comparator<string>)
    returns (pos: Layout, slots: real, levels: real)
    // Neither is split into its parts.
    requires Drawn(f, placed, next, deepest) == true && WellDrawn(f, placed, collate) == true
    requires NoDup(isolated) && isolated != [] && forall id :: id in isolated <==> id in f.byId && !IsLinked(f, id)
    ensures pos.Keys == f.byId.Keys && WellDrawn(f, pos, collate) && InFrame(pos, slots, levels)
    ensures BlockDrawn(pos, isolated, PerRow(isolatedPerRow, next, |isolated|), deepest + 1)
    ensures slots == BlockSlots(next, |isolated|, PerRow(isolatedPerRow, next, |isolated|))
    ensures levels == BlockLevels(deepest + 1, |isolated|, PerRow(isolatedPerRow, next, |isolated|))
  {
    assert placed.Keys == set id | id in f.byId && IsLinked(f, id);
    pos, slots, levels := AddBlock(isolated, isolatedPerRow, placed, next, deepest);
    BlockBeside(f, placed, next, deepest, pos, isolated);
    AsDrawnStill(f, placed, pos, collate);
  }

  function AtLeastOne(x: real): real { if x > 1.0 then x else 1.0 }

  /**
   * Where each node goes: trees first, then the block of the unlinked nodes, in rows under them. `height` is
   * how many levels the trees have.
   */
  method LayoutMap(f: Forest, onlyLinked: bool, isolatedPerRow: int, collate: Comparator<string>)
    returns (pos: Layout, slots: real, levels: real, isolated: seq<Id>, ghost height: int)
    ensures pos.Keys == set id | id in f.byId && (IsLinked(f, id) || !onlyLinked)
    ensures forall id :: id in isolated <==> id in f.byId && !IsLinked(f, id) && !onlyLinked
    ensures WellDrawn(f, pos, collate) == true  // not split into its parts
    ensures InFrame(pos, slots, levels)
    ensures TreesHigh(f, height) && height >= 0 && TreesWidth(f) >= 0.0
    ensures isolated == if onlyLinked then [] else Filter(f.roots, UnlinkedIn(f))
    ensures isolated == [] ==> slots == AtLeastOne(TreesWidth(f)) && levels == AtLeastOne(height as real)
    ensures isolated != [] ==>
      (var perRow := PerRow(isolatedPerRow, TreesWidth(f), |isolated|);
       && BlockDrawn(pos, isolated, perRow, height)
       && slots == AtLeastOne(BlockSlots(TreesWidth(f), |isolated|, perRow))
       && levels == AtLeastOne(BlockLevels(height, |isolated|, perRow)))
  {
    var placed, next, deepest;
    placed, next, deepest, isolated := DrawTrees(f, collate);
    height := deepest + 1;
    pos, slots, levels := placed, next, (deepest + 1) as real;
    if onlyLinked { isolated := []; }
    if |isolated| > 0 {
      pos, slots, levels := DrawBlock(f, isolated, isolatedPerRow, placed, next, deepest, collate);
    }
    AllAreDrawn(f, pos, onlyLinked, isolated);
    FrameGrows(pos, slots, levels);
    slots, levels := AtLeastOne(slots), AtLeastOne(levels);
  }

  lemma AllAreDrawn(f: Forest, pos: Layout, onlyLinked: bool, isolated: seq<Id>)
    requires forall id :: id in isolated <==> id in f.byId && !IsLinked(f, id) && !onlyLinked
    requires pos.Keys == if isolated != [] then f.byId.Keys else set id | id in f.byId && IsLinked(f, id)
    ensures pos.Keys == set id | id in f.byId && (IsLinked(f, id) || !onlyLinked)
  {
    if isolated != [] { assert isolated[0] in isolated; }
  }

  lemma FrameGrows(pos: Layout, slots: real, levels: real)
    requires InFrame(pos, slots, levels)
    ensures InFrame(pos, AtLeastOne(slots), AtLeastOne(levels))
  {
  }

  lemma TreesNoOverlapAll(f: Forest, trees: seq<Id>, pos: Layout, next: real)
    requires TreesOf(f, trees, pos, next)
    ensures NoOverlap(pos)
  {
    forall x, y | x in pos && y in pos && x != y ensures Clear(pos[x], pos[y]) {
      TreesNoOverlap(f, pos, trees, 0.0, next, x, y);
    }
  }
}
