/** The drawing of the trees is the only one of its kind (layoutMap in web/netmap.js). */
module OneDrawing {
  import opened Wrappers
  import opened Ordering
  import opened Chains
  import opened Forests
  import opened Trees
  import opened TreeLayout

  /* ---------- Drawings, and trees side by side ---------- */

  datatype Picture = Picture(f: Forest, pos: Layout)

  /** The linked nodes on the levels of their depths, midway over their children, whose trees are in turn. */
  ghost predicate IsDrawing(d: Picture) {
    && KidsInTurn(d.f, d.pos)
    && forall x {:trigger IsLinked(d.f, x)} :: x in d.f.byId && IsLinked(d.f, x) ==>
      x in d.pos && Midway(d.f, d.pos, x) && d.pos[x].level == DepthOf(d.f, x) as real
  }

  type Drawing = d: Picture | IsDrawing(d)
    ghost witness Picture(ForestData([], map[], map[], map[], [], []), map[])

  /** All of `x`'s tree is at least so much to the left of all of `y`'s. */
  ghost predicate ApartBy(d: Picture, x: Id, y: Id, gap: real) {
    forall u, v {:trigger u in Sub(d.f, x), v in Sub(d.f, y)} ::
      u in Sub(d.f, x) && v in Sub(d.f, y) ==> u in d.pos && v in d.pos && d.pos[u].slot + gap <= d.pos[v].slot
  }

  /** Trees side by side, so much between two of them; `bound` is more than any has levels below it. */
  datatype TreeRow = TreeRow(d: Drawing, ids: seq<Id>, gap: real, bound: nat)

  ghost predicate IsRow(r: TreeRow) {
    && (forall i {:trigger r.ids[i]} :: 0 <= i < |r.ids| ==>
          r.ids[i] in r.d.f.byId && IsLinked(r.d.f, r.ids[i]) && Room(r.d.f, r.ids[i]) < r.bound)
    && forall i, j {:trigger ApartBy(r.d, r.ids[i], r.ids[j], r.gap)} :: 0 <= i < j < |r.ids| ==>
      ApartBy(r.d, r.ids[i], r.ids[j], r.gap)
  }

  type Row = r: TreeRow | IsRow(r)
    ghost witness TreeRow(Picture(ForestData([], map[], map[], map[], [], []), map[]), [], 1.0, 0)

  lemma RowTree(r: Row, i: nat)
    requires i < |r.ids|
    ensures r.ids[i] in r.d.f.byId && IsLinked(r.d.f, r.ids[i]) && Room(r.d.f, r.ids[i]) < r.bound
  {
    assert IsRow(r);
  }

  lemma RowApart(r: Row, i: nat, u: Id, v: Id)
    requires i + 1 < |r.ids| && u in Sub(r.d.f, r.ids[i]) && v in Sub(r.d.f, r.ids[i + 1])
    ensures u in r.d.pos && v in r.d.pos && r.d.pos[u].slot + r.gap <= r.d.pos[v].slot
  {
    assert IsRow(r);
    assert ApartBy(r.d, r.ids[i], r.ids[i + 1], r.gap);
  }

  lemma KidAt(f: Forest, id: Id, i: nat)
    requires id in f.byId && i < |f.children[id]|
    ensures f.children[id][i] in f.byId && Sub(f, f.children[id][i]) <= Sub(f, id)
    ensures IsLinked(f, f.children[id][i]) && Room(f, f.children[id][i]) < Room(f, id)
  {
    ChildBelow(f, id, f.children[id][i]);
    KidInSub(f, id, f.children[id][i]);
  }

  lemma LinkedDrawn(d: Drawing, id: Id)
    requires id in d.f.byId && IsLinked(d.f, id)
    ensures id in d.pos && Midway(d.f, d.pos, id) && d.pos[id].level == DepthOf(d.f, id) as real
  {
    assert IsDrawing(d);
  }

  lemma KidsApart(d: Drawing, id: Id, i: nat, j: nat)
    requires id in d.f.byId && i < j < |d.f.children[id]|
    ensures ApartBy(d, d.f.children[id][i], d.f.children[id][j], 1.0)
  {
    var x, y := d.f.children[id][i], d.f.children[id][j];
    assert IsDrawing(d);
    assert AllApart(d.f, d.pos, d.f.children[id]);
    assert Apart(d.f, d.pos, x, y);
    forall u, v | u in Sub(d.f, x) && v in Sub(d.f, y)
      ensures u in d.pos && v in d.pos && d.pos[u].slot + 1.0 <= d.pos[v].slot
    {
      KidsLinkedBelow(d.f, id, x);
      KidsLinkedBelow(d.f, id, y);
      LinkedDrawn(d, u);
      LinkedDrawn(d, v);
    }
  }

  /** The trees of a node's children. */
  lemma KidsRow(d: Drawing, id: Id) returns (r: Row)
    requires id in d.f.byId
    ensures r == TreeRow(d, d.f.children[id], 1.0, Room(d.f, id))
  {
    var row, kids := TreeRow(d, d.f.children[id], 1.0, Room(d.f, id)), d.f.children[id];
    forall i | 0 <= i < |kids|
      ensures kids[i] in d.f.byId && IsLinked(d.f, kids[i]) && Room(d.f, kids[i]) < Room(d.f, id)
    {
      KidAt(d.f, id, i);
    }
    forall i, j | 0 <= i < j < |kids| ensures ApartBy(d, kids[i], kids[j], 1.0) { KidsApart(d, id, i, j); }
    assert IsRow(row);
    r := row;
  }

  /* ---------- How wide they are ---------- */

  /** How many leaves the trees of `ids[i..j]` have. */
  ghost function LeavesIn(f: Forest, ids: seq<Id>, i: nat, j: nat): nat
    requires i <= j <= |ids|
    decreases j
  {
    if i == j then 0 else LeavesIn(f, ids, i, j - 1) + Leaves(f, Sub(f, ids[j - 1]))
  }

  ghost function Gaps(n: nat, gap: real): real { if n == 0 then 0.0 else Gaps(n - 1, gap) + gap }

  lemma {:induction false} GapsAdd(m: nat, n: nat, gap: real)
    ensures Gaps(m + n, gap) == Gaps(m, gap) + Gaps(n, gap)
  {
    if n > 0 {
      GapsAdd(m, n - 1, gap);
      assert m + n - 1 == m + (n - 1);
    }
  }

  lemma {:induction false} Ones(n: nat)
    ensures Gaps(n, 1.0) == n as real
  {
    if n > 0 { Ones(n - 1); }
  }

  lemma {:induction false} LeavesInAdd(f: Forest, ids: seq<Id>, i: nat, j: nat, k: nat)
    requires i <= j <= k <= |ids|
    ensures LeavesIn(f, ids, i, k) == LeavesIn(f, ids, i, j) + LeavesIn(f, ids, j, k)
    decreases k
  {
    if j < k { LeavesInAdd(f, ids, i, j, k - 1); }
  }

  lemma {:induction false} LeavesOfRow(f: Forest, id: Id, n: nat)
    requires id in f.byId && n <= |f.children[id]|
    ensures LeavesIn(f, f.children[id], 0, n) == Leaves(f, SubAll(f, f.children[id][..n]))
  {
    if n == 0 {
      NoLeaves(f);
    } else {
      LeavesOfRow(f, id, n - 1);
      LeavesOfKids(f, id, n - 1);
    }
  }

  lemma LeavesOfAll(f: Forest, id: Id)
    requires id in f.byId
    ensures var kids := f.children[id];
      Leaves(f, Sub(f, id)) == if kids == [] then 1 else LeavesIn(f, kids, 0, |kids|)
  {
    LeavesOver(f, id);
    LeavesOfRow(f, id, |f.children[id]|);
    TakeAll(f.children[id]);
  }

  /** From the first to the last of the leaves of trees side by side, a slot between two of one tree. */
  ghost function Width(leaves: nat, trees: nat, gap: real): real
    requires trees > 0
  {
    (leaves - trees) as real + Gaps(trees - 1, gap)
  }

  /** Two nodes so far apart. */
  ghost predicate Spans(d: Picture, x: Id, y: Id, u: Id, v: Id, width: real) {
    && u in Sub(d.f, x) && v in Sub(d.f, y) && u in d.pos && v in d.pos
    && d.pos[v].slot - d.pos[u].slot >= width
  }

  lemma WiderStill(r: Row, i: nat, j: nat, u: Id, w: Id, x: Id, v: Id)
    requires i + 1 < j <= |r.ids|
    requires Spans(r.d, r.ids[i], r.ids[j - 2], u, w, Width(LeavesIn(r.d.f, r.ids, i, j - 1), j - 1 - i, r.gap))
    requires Spans(r.d, r.ids[j - 1], r.ids[j - 1], x, v, (Leaves(r.d.f, Sub(r.d.f, r.ids[j - 1])) - 1) as real)
    ensures Spans(r.d, r.ids[i], r.ids[j - 1], u, v, Width(LeavesIn(r.d.f, r.ids, i, j), j - i, r.gap))
  {
    RowApart(r, j - 2, w, x);
  }

  /** A tree is as wide as its leaves are many: two of its nodes are that far apart. */
  lemma {:induction false} TreeIsWide(d: Drawing, id: Id) returns (u: Id, v: Id)
    requires id in d.f.byId && IsLinked(d.f, id)
    ensures Spans(d, id, id, u, v, (Leaves(d.f, Sub(d.f, id)) - 1) as real)
    decreases Room(d.f, id), |d.f.children[id]| + 1
  {
    var n := |d.f.children[id]|;
    LeavesOfAll(d.f, id);
    if n == 0 {
      LinkedDrawn(d, id);
      SubSelf(d.f, id);
      u, v := id, id;
    } else {
      var r := KidsRow(d, id);
      u, v := RowIsWide(r, 0, n);
      Ones(n - 1);
      KidAt(d.f, id, 0);
      KidAt(d.f, id, n - 1);
    }
  }

  /** So are trees side by side, with the gaps between them. */
  lemma {:induction false} RowIsWide(r: Row, i: nat, j: nat) returns (u: Id, v: Id)
    requires i < j <= |r.ids|
    ensures Spans(r.d, r.ids[i], r.ids[j - 1], u, v, Width(LeavesIn(r.d.f, r.ids, i, j), j - i, r.gap))
    decreases r.bound, j - i
  {
    RowTree(r, j - 1);
    var x;
    x, v := TreeIsWide(r.d, r.ids[j - 1]);
    if j == i + 1 {
      u := x;
      assert LeavesIn(r.d.f, r.ids, i, i) == 0;
    } else {
      var w;
      u, w := RowIsWide(r, i, j - 1);
      WiderStill(r, i, j, u, w, x, v);
    }
  }

  /* ---------- With no room to spare ---------- */

  ghost predicate Between(d: Picture, id: Id, lo: real, hi: real) {
    forall x {:trigger d.pos[x]} {:trigger x in Sub(d.f, id)} :: x in Sub(d.f, id) ==>
      x in d.pos && lo <= d.pos[x].slot <= hi
  }

  ghost predicate AllBetween(r: TreeRow, lo: real, hi: real) {
    forall i {:trigger r.ids[i]} :: 0 <= i < |r.ids| ==> Between(r.d, r.ids[i], lo, hi)
  }

  /** Where the `i`-th of trees side by side begins, if the first begins at `lo`. */
  ghost function From(r: TreeRow, lo: real, i: nat): real
    requires i <= |r.ids|
  {
    lo + (LeavesIn(r.d.f, r.ids, 0, i) - i) as real + Gaps(i, r.gap)
  }

  ghost function To(r: TreeRow, lo: real, i: nat): real
    requires i < |r.ids|
  {
    From(r, lo, i) + (Leaves(r.d.f, Sub(r.d.f, r.ids[i])) - 1) as real
  }

  ghost function End(r: TreeRow, lo: real): real
    requires r.ids != []
  {
    lo + Width(LeavesIn(r.d.f, r.ids, 0, |r.ids|), |r.ids|, r.gap)
  }

  lemma NotSooner(r: Row, lo: real, i: nat, x: Id)
    requires i < |r.ids| && AllBetween(r, lo, End(r, lo)) && x in Sub(r.d.f, r.ids[i])
    ensures x in r.d.pos && r.d.pos[x].slot >= From(r, lo, i)
  {
    assert Between(r.d, r.ids[i], lo, End(r, lo)) && Between(r.d, r.ids[0], lo, End(r, lo));
    if i > 0 {
      var u, v := RowIsWide(r, 0, i);
      RowApart(r, i - 1, v, x);
    }
  }

  /** What there is between where a tree ends and where the last one does. */
  lemma RestIsWide(r: Row, lo: real, i: nat)
    requires i + 1 < |r.ids|
    ensures var n := |r.ids|;
      End(r, lo) == To(r, lo, i) + r.gap + Width(LeavesIn(r.d.f, r.ids, i + 1, n), n - 1 - i, r.gap)
  {
    var n := |r.ids|;
    LeavesInAdd(r.d.f, r.ids, 0, i + 1, n);
    GapsAdd(i + 1, n - 2 - i, r.gap);
    assert i + 1 + (n - 2 - i) == n - 1;
  }

  lemma NotLater(r: Row, lo: real, i: nat, x: Id)
    requires i < |r.ids| && AllBetween(r, lo, End(r, lo)) && x in Sub(r.d.f, r.ids[i])
    ensures x in r.d.pos && r.d.pos[x].slot <= To(r, lo, i)
  {
    var n := |r.ids|;
    assert Between(r.d, r.ids[i], lo, End(r, lo)) && Between(r.d, r.ids[n - 1], lo, End(r, lo));
    if i < n - 1 {
      var u, v := RowIsWide(r, i + 1, n);
      RowApart(r, i, x, u);
      RestIsWide(r, lo, i);
    }
  }

  /** Each tree of a row has its own stretch of slots. */
  lemma EachHasItsPlace(r: Row, lo: real, i: nat)
    requires i < |r.ids| && AllBetween(r, lo, End(r, lo))
    ensures Between(r.d, r.ids[i], From(r, lo, i), To(r, lo, i))
  {
    forall x | x in Sub(r.d.f, r.ids[i])
      ensures x in r.d.pos && From(r, lo, i) <= r.d.pos[x].slot <= To(r, lo, i)
    {
      NotSooner(r, lo, i, x);
      NotLater(r, lo, i, x);
    }
  }

  /* ---------- Two drawings ---------- */

  ghost predicate Agree(p: Picture, q: Picture, id: Id) {
    forall x {:trigger x in Sub(p.f, id)} :: x in Sub(p.f, id) ==> x in p.pos && x in q.pos && p.pos[x] == q.pos[x]
  }

  /** As wide as it has to be. */
  ghost predicate Tight(d: Picture, id: Id, lo: real) {
    id in d.f.byId && Between(d, id, lo, lo + (Leaves(d.f, Sub(d.f, id)) - 1) as real)
  }

  lemma KidIsTight(d: Drawing, id: Id, lo: real, i: nat)
    requires Tight(d, id, lo) && i < |d.f.children[id]|
    ensures Tight(d, d.f.children[id][i], lo + LeavesIn(d.f, d.f.children[id], 0, i) as real)
  {
    var r := KidsRow(d, id);
    var n := |d.f.children[id]|;
    LeavesOfAll(d.f, id);
    Ones(n - 1);
    Ones(i);
    forall j | 0 <= j < n ensures Between(d, r.ids[j], lo, End(r, lo)) { KidAt(d.f, id, j); }
    EachHasItsPlace(r, lo, i);
    KidAt(d.f, id, i);
  }

  lemma {:induction false} TreesAgree(p: Drawing, q: Drawing, id: Id, lo: real)
    requires p.f == q.f && Tight(p, id, lo) && Tight(q, id, lo) && IsLinked(p.f, id)
    ensures Agree(p, q, id)
    decreases Room(p.f, id)
  {
    var kids := p.f.children[id];
    LeavesOfAll(p.f, id);
    LinkedDrawn(p, id);
    LinkedDrawn(q, id);
    SubSelf(p.f, id);
    if kids == [] {
      Leaf(p.f, id);
    } else {
      forall i | 0 <= i < |kids| ensures Agree(p, q, kids[i]) {
        KidAt(p.f, id, i);
        KidIsTight(p, id, lo, i);
        KidIsTight(q, id, lo, i);
        TreesAgree(p, q, kids[i], lo + LeavesIn(p.f, kids, 0, i) as real);
      }
      ParentAgrees(p, q, id);
    }
  }

  lemma ParentAgrees(p: Drawing, q: Drawing, id: Id)
    requires p.f == q.f && id in p.f.byId && IsLinked(p.f, id) && p.f.children[id] != []
    requires forall i :: 0 <= i < |p.f.children[id]| ==> Agree(p, q, p.f.children[id][i])
    ensures Agree(p, q, id)
  {
    var kids := p.f.children[id];
    LinkedDrawn(p, id);
    LinkedDrawn(q, id);
    KidAt(p.f, id, 0);
    KidAt(p.f, id, |kids| - 1);
    KidAgrees(p, q, kids[0]);
    KidAgrees(p, q, kids[|kids| - 1]);
    SubSplits(p.f, id);
    forall x | x in Sub(p.f, id) && x != id ensures x in p.pos && x in q.pos && p.pos[x] == q.pos[x] {
      var k :| k in kids && Reaches(p.f.parentOf, x, k);
      var i :| 0 <= i < |kids| && kids[i] == k;
      assert Agree(p, q, kids[i]) && x in Sub(p.f, kids[i]);
    }
  }

  lemma KidAgrees(p: Drawing, q: Drawing, k: Id)
    requires k in p.f.byId && Agree(p, q, k)
    ensures k in p.pos && k in q.pos && p.pos[k] == q.pos[k]
  {
    SubSelf(p.f, k);
  }

  /* ---------- The whole of it ---------- */

  ghost function SortedTrees(f: Forest, collate: Comparator<string>): seq<Id> {
    SortBy(Filter(f.roots, LinkedIn(f)), LargestFirst(f, collate))
  }

  lemma EarlierIsBefore(f: Forest, collate: Comparator<string>, i: nat, j: nat)
    requires Collates(collate) && i < j < |SortedTrees(f, collate)|
    ensures TreeBefore(f, collate, SortedTrees(f, collate)[i], SortedTrees(f, collate)[j])
  {
    var roots, trees := Filter(f.roots, LinkedIn(f)), SortedTrees(f, collate);
    LargestFirstOrders(f, collate);
    FilterNoDup(f.roots, LinkedIn(f));
    SortKeeps(roots, LargestFirst(f, collate));
    SortKeepsOrder(roots, LargestFirst(f, collate), i, j);
    assert trees[i] in trees && trees[j] in trees;
    FilterPrecedes(f.roots, LinkedIn(f), trees[i], trees[j]);
    SizesThenNames(f, collate, trees[i], trees[j]);
  }

  lemma TreesApart(f: Forest, pos: Layout, collate: Comparator<string>, i: nat, j: nat)
    requires WellDrawn(f, pos, collate) && Collates(collate) && i < j < |SortedTrees(f, collate)|
    ensures ApartBy(Picture(f, pos), SortedTrees(f, collate)[i], SortedTrees(f, collate)[j], 1.5)
  {
    var x, y := SortedTrees(f, collate)[i], SortedTrees(f, collate)[j];
    EarlierIsBefore(f, collate, i, j);
    assert WellApart(f, pos, x, y);
    LinkedBelow(f, x);
    LinkedBelow(f, y);
    forall u, v | u in Sub(f, x) && v in Sub(f, y) ensures u in pos && v in pos && pos[u].slot + 1.5 <= pos[v].slot {
      InPicture(f, pos, collate, u);
      InPicture(f, pos, collate, v);
    }
  }

  lemma InPicture(f: Forest, pos: Layout, collate: Comparator<string>, x: Id)
    requires WellDrawn(f, pos, collate) && x in f.byId && IsLinked(f, x)
    ensures x in pos && 0.0 <= pos[x].slot <= TreesWidth(f) - 1.0
    ensures Midway(f, pos, x) && pos[x].level == DepthOf(f, x) as real
  {
    assert AsDrawn(f, pos, collate) && AtDepths(f, pos);
    assert x in pos && pos[x].slot <= TreesWidth(f) - 1.0;
    assert HangsTidily(f, pos, x);
  }

  /** The trees, as they are drawn. */
  lemma TreesRow(f: Forest, pos: Layout, collate: Comparator<string>) returns (r: Row)
    requires WellDrawn(f, pos, collate) && Collates(collate)
    ensures r.d == Picture(f, pos) && r.ids == SortedTrees(f, collate) && r.gap == 1.5
  {
    var d, trees := Picture(f, pos), SortedTrees(f, collate);
    forall x | x in f.byId && IsLinked(f, x)
      ensures x in pos && Midway(f, pos, x) && pos[x].level == DepthOf(f, x) as real
    {
      InPicture(f, pos, collate, x);
    }
    assert IsDrawing(d);
    SplitAre(f, trees, Filter(f.roots, UnlinkedIn(f)), collate);
    forall i | 0 <= i < |trees|
      ensures trees[i] in f.byId && IsLinked(f, trees[i]) && Room(f, trees[i]) < MaxDepth(f, f.byId.Keys) + 1
    {
      assert trees[i] in trees;
    }
    forall i, j | 0 <= i < j < |trees| ensures ApartBy(d, trees[i], trees[j], 1.5) {
      TreesApart(f, pos, collate, i, j);
    }
    r := TreeRow(d, trees, 1.5, MaxDepth(f, f.byId.Keys) + 1);
  }

  lemma {:induction false} EndInLeaves(f: Forest, trees: seq<Id>, n: nat)
    requires NoDup(trees) && n <= |trees| && forall r :: r in trees ==> r in f.roots
    ensures EndOf(f, trees, n) == LeavesIn(f, trees, 0, n) as real + if n == 0 then 0.0 else (n - 1) as real * 0.5
  {
    if n == 0 {
      NoLeaves(f);
    } else {
      EndInLeaves(f, trees, n - 1);
      EndOfNext(f, trees, n - 1);
    }
  }

  lemma {:induction false} OnesAndHalves(n: nat)
    ensures Gaps(n, 1.5) == n as real + n as real * 0.5
  {
    if n > 0 { OnesAndHalves(n - 1); }
  }

  lemma FillTheWidth(f: Forest, pos: Layout, collate: Comparator<string>, r: Row)
    requires WellDrawn(f, pos, collate) && Collates(collate)
    requires r.d == Picture(f, pos) && r.ids == SortedTrees(f, collate) && r.gap == 1.5 && r.ids != []
    ensures AllBetween(r, 0.0, End(r, 0.0))
  {
    var trees := SortedTrees(f, collate);
    SplitAre(f, trees, Filter(f.roots, UnlinkedIn(f)), collate);
    WidthIs(f, trees);
    EndInLeaves(f, trees, |trees|);
    OnesAndHalves(|trees| - 1);
    assert End(r, 0.0) == TreesWidth(f) - 1.0;
    forall i | 0 <= i < |trees| ensures Between(r.d, trees[i], 0.0, End(r, 0.0)) {
      assert trees[i] in trees;
      LinkedBelow(f, trees[i]);
      forall x | x in Sub(f, trees[i]) ensures x in pos && 0.0 <= pos[x].slot <= End(r, 0.0) {
        InPicture(f, pos, collate, x);
      }
    }
  }

  lemma RowsAgree(p: Row, q: Row, i: nat)
    requires p.d.f == q.d.f && p.ids == q.ids && p.gap == q.gap && i < |p.ids|
    requires AllBetween(p, 0.0, End(p, 0.0)) && AllBetween(q, 0.0, End(q, 0.0))
    ensures Agree(p.d, q.d, p.ids[i])
  {
    EachHasItsPlace(p, 0.0, i);
    EachHasItsPlace(q, 0.0, i);
    RowTree(p, i);
    TreesAgree(p.d, q.d, p.ids[i], From(p, 0.0, i));
  }

  lemma InSomeTree(f: Forest, collate: Comparator<string>, x: Id) returns (i: nat)
    requires x in f.byId && IsLinked(f, x)
    ensures i < |SortedTrees(f, collate)| && x in Sub(f, SortedTrees(f, collate)[i])
  {
    var trees := SortedTrees(f, collate);
    SplitAre(f, trees, Filter(f.roots, UnlinkedIn(f)), collate);
    assert x in SubAll(f, trees);
    var t :| t in trees && x in Sub(f, t);
    i :| 0 <= i < |trees| && trees[i] == t;
  }

  /** However the trees are drawn as they should be, they are drawn alike. */
  lemma OneWayToDraw(f: Forest, p: Layout, q: Layout, collate: Comparator<string>, x: Id)
    requires WellDrawn(f, p, collate) && WellDrawn(f, q, collate) && Collates(collate)
    requires x in f.byId && IsLinked(f, x)
    ensures x in p && x in q && p[x] == q[x]
  {
    var i := InSomeTree(f, collate, x);
    var rp := TreesRow(f, p, collate);
    var rq := TreesRow(f, q, collate);
    FillTheWidth(f, p, collate, rp);
    FillTheWidth(f, q, collate, rq);
    RowsAgree(rp, rq, i);
    assert x in Sub(rp.d.f, rp.ids[i]);
  }
}
