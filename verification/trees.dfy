/** What holds of every forest: its loops, its trees, and the walks up and down them. */
module Trees {
  import opened Wrappers
  import opened Chains
  import opened Forests
  import opened Ordering

  /* ---------- Loops ---------- */

  /** Each loop of the links given lost exactly one link; where it was is told by `ClosesAt`. */
  lemma EachLoopLosesOneLink(f: Forest, links: map<Id, Id>, x: Id) returns (d: Id)
    requires OneLinkPerLoop(links, f.parentOf, f.cycles)
    requires OnLoop(links, x) && x in f.byId
    ensures d in f.cycles && SameLoop(links, x, d)
    ensures forall e :: e in f.cycles && SameLoop(links, x, e) ==> e == d
  {
    assert Grounded(f.parentOf, x);
    var n: nat :| Up(f.parentOf, x, n) == None;
    LoopEndless(links, x, n);
    var e := Break(f.parentOf, links, x, n);
    d := Up(links, x, e).value;
    LoopEndless(links, x, e);
    forall c | c in f.cycles && SameLoop(links, x, c) ensures c == d {
      ReachesTrans(links, d, x, c);
    }
  }

  /** A set of nodes without loops loses no link. */
  lemma LoopFreeLosesNothing(f: Forest, links: map<Id, Id>)
    requires OneLinkPerLoop(links, f.parentOf, f.cycles)
    requires forall x :: !OnLoop(links, x)
    ensures f.parentOf == links && f.cycles == []
  {
    NoDupSize(f.cycles);
    assert Elements(f.cycles) == {};
  }

  /** `entry` is the first node of `d`'s loop that is met, the keys being followed upwards in their order. */
  ghost predicate FirstMet(keys: seq<Id>, links: map<Id, Id>, d: Id, entry: Id) {
    exists i :: 0 <= i < |keys| && NoneReach(keys, links, i, d) && FirstOnLoop(links, keys[i], entry)
  }

  /**
   * The first node of a loop that is met keeps its link (and so hangs from its parent); the node
   * that becomes a root is the one that depends on it. The comment at web/netmap.js:256 has it
   * the other way round, and is never right.
   */
  lemma FirstMetKeepsItsLink(f: Forest, links: map<Id, Id>, d: Id)
    requires OneLinkPerLoop(links, f.parentOf, f.cycles) && DroppedWhereClosed(f.keys, links, f.cycles)
    requires forall x :: x in links ==> links[x] != x
    requires d in f.cycles
    ensures d in links && d !in f.parentOf
    ensures FirstMet(f.keys, links, d, links[d])
    ensures links[d] in f.parentOf && f.parentOf[links[d]] == links[links[d]]
  {
    assert ClosesAt(f.keys, links, d);
    var entry := links[d];
    ReachesParent(links, d, entry);
    ReachesSelf(links, entry);
    ReachesOnLoop(links, d, entry);
    LoopEndless(links, entry, 1);
  }

  lemma PairIsLoop(links: map<Id, Id>, a: Id, b: Id)
    requires a in links && b in links && links[a] == b && links[b] == a
    ensures OnLoop(links, a) && Reaches(links, a, a) && Reaches(links, a, b)
  {
    assert Up(links, b, 0) == Some(b) && Up(links, a, 0) == Some(a);
    assert Up(links, b, 1) == Some(a) && Up(links, a, 1) == Some(b);
    assert Up(links, a, 2) == Some(a);
  }

  /** A walk from a node of a loop meets that node first. */
  lemma FirstIsItself(links: map<Id, Id>, from: Id, entry: Id)
    requires OnLoop(links, from) && FirstOnLoop(links, from, entry)
    ensures entry == from
  {
    assert Up(links, from, 0) == Some(from);
  }

  lemma PairClosesAt(links: map<Id, Id>, a: Id, b: Id, d: Id)
    requires a != b && links == map[a := b, b := a] && ClosesAt([a, b], links, d)
    ensures d == b
  {
    var keys := [a, b];
    PairIsLoop(links, a, b);
    var i :| 0 <= i < |keys| && NoneReach(keys, links, i, d) && FirstOnLoop(links, keys[i], links[d]);
    assert Reaches(links, keys[0], d);
    assert i == 0;
    FirstIsItself(links, a, links[d]);
  }

  /** The smallest case: of two nodes that depend on each other the second is the root, whatever they are called. */
  lemma TwoNodeLoop(f: Forest, a: Node, b: Node, collate: Comparator<string>)
    requires a.id != b.id && a.dependsOn == Some(b.id) && b.dependsOn == Some(a.id)
    requires BuiltFrom(f, [a, b], collate)
    ensures f.cycles == [b.id] && f.parentOf == map[a.id := b.id]
  {
    TwoNodes(a, b);
    PairLinks(f.byId, a, b);
    PairLosesOne(f, Links(f.byId), a.id, b.id);
  }

  lemma PairLinks(byId: map<Id, Node>, a: Node, b: Node)
    requires a.id != b.id && a.dependsOn == Some(b.id) && b.dependsOn == Some(a.id) && byId == map[a.id := a, b.id := b]
    ensures Links(byId) == map[a.id := b.id, b.id := a.id]
  {
    assert Linked(byId, a.id) && Linked(byId, b.id);
  }

  lemma PairLosesOne(f: Forest, links: map<Id, Id>, a: Id, b: Id)
    requires a != b && links == map[a := b, b := a] && f.keys == [a, b] && a in f.byId
    requires OneLinkPerLoop(links, f.parentOf, f.cycles) && DroppedWhereClosed(f.keys, links, f.cycles)
    ensures f.cycles == [b] && f.parentOf == map[a := b]
  {
    PairIsLoop(links, a, b);
    var d := EachLoopLosesOneLink(f, links, a);
    forall e | e in f.cycles ensures e == b { PairClosesAt(links, a, b, e); }
    assert d == b && b !in f.parentOf && a in f.parentOf;
    NoDupSize(f.cycles);
    assert Elements(f.cycles) == {b};
  }

  lemma TwoNodes(a: Node, b: Node)
    requires a.id != b.id
    ensures IdsOf([a, b]) == [a.id, b.id] && ById([a, b]) == map[a.id := a, b.id := b]
  {
    assert [a, b] == [] + [a] + [b];
    IdsOfSnoc([], a);
    IdsOfSnoc([] + [a], b);
  }

  /* ---------- Up and down ---------- */

  ghost function DepthOf(f: Forest, id: Id): nat
    requires id in f.byId
  {
    Depth(f.parentOf, id)
  }

  ghost function MaxDepth(f: Forest, ids: set<Id>): nat
    requires ids <= f.byId.Keys
  {
    if ids == {} then 0
    else
      var x :| x in ids;
      var rest := MaxDepth(f, ids - {x});
      if DepthOf(f, x) > rest then DepthOf(f, x) else rest
  }

  lemma MaxDepthBounds(f: Forest, ids: set<Id>, id: Id)
    requires ids <= f.byId.Keys && id in ids
    ensures DepthOf(f, id) <= MaxDepth(f, ids)
    decreases ids
  {
    var x :| x in ids
      && var rest := MaxDepth(f, ids - {x});
         MaxDepth(f, ids) == if DepthOf(f, x) > rest then DepthOf(f, x) else rest;
    if id != x { MaxDepthBounds(f, ids - {x}, id); }
  }

  /** Falls with every step down, so it bounds every walk down the forest. */
  ghost function Room(f: Forest, id: Id): nat
    requires id in f.byId
  {
    MaxDepthBounds(f, f.byId.Keys, id);
    MaxDepth(f, f.byId.Keys) - DepthOf(f, id)
  }

  lemma ChildBelow(f: Forest, id: Id, k: Id)
    requires id in f.byId && k in f.children[id]
    ensures k in f.byId && k in f.parentOf && f.parentOf[k] == id
    ensures DepthOf(f, k) == DepthOf(f, id) + 1
    ensures Room(f, k) < Room(f, id)
  {
    assert HangsFrom(f.parentOf, id, k);
    DepthStep(f.parentOf, k);
    MaxDepthBounds(f, f.byId.Keys, k);
  }

  lemma AllChildrenBelow(f: Forest, id: Id)
    requires id in f.byId
    ensures forall k :: k in f.children[id] ==>
      k in f.byId && HangsFrom(f.parentOf, id, k) && DepthOf(f, k) == DepthOf(f, id) + 1 && Room(f, k) < Room(f, id)
  {
    forall k | k in f.children[id] ensures k in f.byId && HangsFrom(f.parentOf, id, k)
      && DepthOf(f, k) == DepthOf(f, id) + 1 && Room(f, k) < Room(f, id) { ChildBelow(f, id, k); }
  }

  /** `id` and everything below it. */
  ghost function Sub(f: Forest, id: Id): set<Id> {
    set x | x in f.byId && Reaches(f.parentOf, x, id)
  }

  ghost function Below(f: Forest, id: Id): set<Id> { Sub(f, id) - {id} }

  /** The trees of the first `n` of a list of nodes. */
  ghost function SubAll(f: Forest, ids: seq<Id>): set<Id> {
    set x | x in f.byId && exists k :: k in ids && Reaches(f.parentOf, x, k)
  }

  lemma SubSelf(f: Forest, id: Id)
    requires id in f.byId
    ensures id in Sub(f, id)
  {
    ReachesSelf(f.parentOf, id);
  }

  lemma SubDeeper(f: Forest, id: Id, x: Id)
    requires id in f.byId && x in Sub(f, id)
    ensures DepthOf(f, x) >= DepthOf(f, id)
    ensures DepthOf(f, x) == DepthOf(f, id) ==> x == id
    ensures x != id ==> x in f.parentOf && f.parentOf[x] in Sub(f, id)
  {
    ReachesDistance(f.parentOf, x, id);
    ReachesParent(f.parentOf, x, id);
  }

  /** A tree is its root and its children's trees. */
  lemma SubSplits(f: Forest, id: Id)
    requires id in f.byId
    ensures Sub(f, id) == {id} + SubAll(f, f.children[id])
    ensures id !in SubAll(f, f.children[id])
  {
    SubSelf(f, id);
    forall x | x in Sub(f, id) && x != id ensures x in SubAll(f, f.children[id]) {
      var n: nat :| Up(f.parentOf, x, n) == Some(id);
      UpStep(f.parentOf, x, n - 1);
      var k := Up(f.parentOf, x, n - 1).value;
      assert HangsFrom(f.parentOf, id, k);
      assert Reaches(f.parentOf, x, k);
    }
    forall x | x in SubAll(f, f.children[id]) ensures x in Sub(f, id) && x != id {
      var k :| k in f.children[id] && Reaches(f.parentOf, x, k);
      ChildBelow(f, id, k);
      ReachesParent(f.parentOf, k, id);
      ReachesSelf(f.parentOf, id);
      ReachesTrans(f.parentOf, x, k, id);
      SubDeeper(f, k, x);
    }
  }

  /** Nodes at the same depth have nothing below them in common. */
  lemma SubDisjoint(f: Forest, a: Id, b: Id)
    requires a in f.byId && b in f.byId && a != b && DepthOf(f, a) == DepthOf(f, b)
    ensures Sub(f, a) !! Sub(f, b)
  {
    forall x | x in Sub(f, a) && x in Sub(f, b) ensures false {
      ReachesDistance(f.parentOf, x, a);
      ReachesDistance(f.parentOf, x, b);
    }
  }

  /** The root `id` hangs from, through however many links. */
  lemma InOneTree(f: Forest, id: Id) returns (root: Id)
    requires id in f.byId
    ensures root in f.roots && id in Sub(f, root)
    ensures forall r :: r in f.roots && id in Sub(f, r) ==> r == root
  {
    DepthUp(f.parentOf, id, DepthOf(f, id));
    root := Up(f.parentOf, id, DepthOf(f, id)).value;
    UpInForest(f, id, DepthOf(f, id));
    DepthStep(f.parentOf, root);
    forall r | r in f.roots && id in Sub(f, r) ensures r == root {
      DepthStep(f.parentOf, r);
      ReachesDistance(f.parentOf, id, r);
    }
  }

  lemma RootsHaveAll(f: Forest)
    ensures SubAll(f, f.roots) == f.byId.Keys
  {
    forall id | id in f.byId ensures id in SubAll(f, f.roots) { var root := InOneTree(f, id); }
  }

  lemma SubAllPlus(f: Forest, kids: seq<Id>, k: Id)
    ensures SubAll(f, kids + [k]) == SubAll(f, kids) + Sub(f, k)
  {
    assert forall c :: c in kids + [k] <==> c in kids || c == k;
  }

  lemma {:induction false} UpInForest(f: Forest, id: Id, n: nat)
    requires id in f.byId && Up(f.parentOf, id, n).Some?
    ensures Up(f.parentOf, id, n).value in f.byId
    decreases n
  {
    if n > 0 { UpInForest(f, f.parentOf[id], n - 1); }
  }

  /** `now` is the greatest of `was` and the depths, counted from `off`, of the nodes added. */
  ghost predicate DeepestIs(f: Forest, off: int, was: int, now: int, added: set<Id>)
    requires added <= f.byId.Keys
  {
    && was <= now && (forall u {:trigger u in added} :: u in added ==> off + DepthOf(f, u) <= now)
    && (now == was || exists u :: u in added && off + DepthOf(f, u) == now)
  }

  lemma DeepestTwice(f: Forest, off: int, a: int, b: int, c: int, s: set<Id>, t: set<Id>)
    requires s + t <= f.byId.Keys && DeepestIs(f, off, a, b, s) && DeepestIs(f, off, b, c, t)
    ensures DeepestIs(f, off, a, c, s + t)
  {
    if c != a {
      if c != b { var u :| u in t && off + DepthOf(f, u) == c; assert u in s + t; }
      else { var u :| u in s && off + DepthOf(f, u) == b; assert u in s + t; }
    }
  }

  /* ---------- subtreeSize ---------- */

  function SubtreeSize(f: Forest, id: Id): (n: nat)
    requires id in f.byId
    ensures n == |Sub(f, id)|
    decreases Room(f, id), |f.children[id]| + 1
  {
    AllChildrenBelow(f, id);
    SubSplits(f, id);
    assert f.children[id][..|f.children[id]|] == f.children[id];
    1 + SizeOfFirst(f, id, |f.children[id]|)
  }

  function SizeOfFirst(f: Forest, id: Id, i: nat): (n: nat)
    requires id in f.byId && i <= |f.children[id]|
    ensures n == |SubAll(f, f.children[id][..i])|
    decreases Room(f, id), i
  {
    FirstChildren(f, id, i);
    if i == 0 then 0 else SizeOfFirst(f, id, i - 1) + SubtreeSize(f, f.children[id][i - 1])
  }

  lemma FirstChildren(f: Forest, id: Id, i: nat)
    requires id in f.byId && i <= |f.children[id]|
    ensures SubAll(f, f.children[id][..0]) == {}
    ensures i > 0 ==>
      && f.children[id][i - 1] in f.byId && Room(f, f.children[id][i - 1]) < Room(f, id)
      && |SubAll(f, f.children[id][..i])| == |SubAll(f, f.children[id][..i - 1])| + |Sub(f, f.children[id][i - 1])|
  {
    if i > 0 {
      ChildBelow(f, id, f.children[id][i - 1]);
      OneChildMore(f, id, i - 1);
    }
  }

  lemma OneChildMore(f: Forest, id: Id, i: nat)
    requires id in f.byId && i < |f.children[id]|
    ensures |SubAll(f, f.children[id][..i + 1])| == |SubAll(f, f.children[id][..i])| + |Sub(f, f.children[id][i])|
  {
    SubAllSnoc(f, id, i);
    SizesAdd(SubAll(f, f.children[id][..i]), Sub(f, f.children[id][i]));
  }

  lemma SizesAdd(a: set<Id>, b: set<Id>)
    requires a !! b
    ensures |a + b| == |a| + |b|
  {
  }

  lemma SubAllSnoc(f: Forest, id: Id, i: nat)
    requires id in f.byId && i < |f.children[id]|
    ensures SubAll(f, f.children[id][..i + 1]) == SubAll(f, f.children[id][..i]) + Sub(f, f.children[id][i])
    ensures SubAll(f, f.children[id][..i]) !! Sub(f, f.children[id][i])
  {
    var kids := f.children[id];
    AllChildrenBelow(f, id);
    assert kids[..i + 1] == kids[..i] + [kids[i]];
    forall x | x in SubAll(f, kids[..i]) && x in Sub(f, kids[i]) ensures false {
      var k :| k in kids[..i] && Reaches(f.parentOf, x, k);
      var j :| 0 <= j < i && kids[j] == k;
      assert kids[j] != kids[i];
      SubDisjoint(f, k, kids[i]);
    }
  }

  /* ---------- ancestorsOf, descendantsOf ---------- */

  /** The chain above `id`, nearest first. */
  ghost predicate IsChainAbove(parentOf: map<Id, Id>, id: Id, out: seq<Id>) {
    && (forall n :: 0 <= n < |out| ==> Up(parentOf, id, n + 1) == Some(out[n]))
    && Up(parentOf, id, |out| + 1) == None
  }

  method AncestorsOf(f: Forest, id: Id) returns (out: seq<Id>)
    ensures IsChainAbove(f.parentOf, id, out)
    ensures forall a :: a in out <==> a != id && Reaches(f.parentOf, id, a)
  {
    OutsideGrounded(f, id);
    out := [];
    var p := if id in f.parentOf then Some(f.parentOf[id]) else None;
    DepthUp(f.parentOf, id, 1);
    while p.Some? && p.value !in out
      invariant forall n :: 0 <= n < |out| ==> Up(f.parentOf, id, n + 1) == Some(out[n])
      invariant p == Up(f.parentOf, id, |out| + 1)
      decreases Depth(f.parentOf, id) + 1 - |out|
    {
      DepthUp(f.parentOf, id, |out| + 1);
      UpStep(f.parentOf, id, |out| + 1);
      out := out + [p.value];
      p := if p.value in f.parentOf then Some(f.parentOf[p.value]) else None;
    }
    if p.Some? {
      var j :| 0 <= j < |out| && out[j] == p.value;
      DepthUp(f.parentOf, id, j + 1);
      DepthUp(f.parentOf, id, |out| + 1);
      assert false;
    }
    forall a ensures a in out <==> a != id && Reaches(f.parentOf, id, a) {
      ChainAboveIsAncestors(f.parentOf, id, out, a);
    }
  }

  lemma OutsideGrounded(f: Forest, id: Id)
    ensures Grounded(f.parentOf, id)
  {
    if id !in f.byId { assert Up(f.parentOf, id, 1) == None; }
  }

  lemma ChainAboveIsAncestors(parentOf: map<Id, Id>, id: Id, out: seq<Id>, a: Id)
    requires Grounded(parentOf, id) && IsChainAbove(parentOf, id, out)
    ensures a in out <==> a != id && Reaches(parentOf, id, a)
  {
    if a in out {
      var n :| 0 <= n < |out| && out[n] == a;
      DepthUp(parentOf, id, n + 1);
    }
    if a != id && Reaches(parentOf, id, a) {
      var n: nat :| Up(parentOf, id, n) == Some(a);
      DepthUp(parentOf, id, n);
      DepthUp(parentOf, id, |out| + 1);
      assert out[n - 1] == a;
    }
  }

  ghost predicate NearestFirst(f: Forest, s: seq<Id>)
    requires forall x :: x in s ==> x in f.byId
  {
    forall i, j :: 0 <= i < j < |s| ==> DepthOf(f, s[i]) <= DepthOf(f, s[j])
  }

  /** What is in the queue once those `out` of it were followed. */
  ghost predicate QueueHolds(f: Forest, id: Id, queue: seq<Id>, out: seq<Id>) {
    forall x :: x in queue <==> x in f.parentOf && (f.parentOf[x] == id || f.parentOf[x] in out)
  }

  ghost predicate QueueOrdered(f: Forest, queue: seq<Id>, i: nat)
    requires forall x :: x in queue ==> x in f.byId
  {
    && NearestFirst(f, queue)
    && (i < |queue| ==> forall k :: i <= k < |queue| ==> DepthOf(f, queue[k]) <= DepthOf(f, queue[i]) + 1)
  }

  /** The queue of the nodes below `id`, of which `out` were taken off. */
  ghost predicate Queued(f: Forest, id: Id, queue: seq<Id>, out: seq<Id>) {
    && out <= queue && NoDup(queue) && QueueHolds(f, id, queue, out)
    && (forall x :: x in queue ==> x in Below(f, id))
    && QueueOrdered(f, queue, |out|)
  }

  /** The children of these nodes, one node's after another's. */
  function KidsOf(f: Forest, ids: seq<Id>): seq<Id> {
    if ids == [] then []
    else
      var last := ids[|ids| - 1];
      KidsOf(f, ids[..|ids| - 1]) + if last in f.children then f.children[last] else []
  }

  /** The queue is the children of `id`, and then those of each node taken off, in turn. */
  ghost predicate InTurn(f: Forest, id: Id, queue: seq<Id>, out: seq<Id>) {
    id in f.children && queue == f.children[id] + KidsOf(f, out)
  }

  lemma InTurnMore(f: Forest, id: Id, queue: seq<Id>, out: seq<Id>, x: Id)
    requires InTurn(f, id, queue, out) && x in f.children
    ensures InTurn(f, id, queue + f.children[x], out + [x])
  {
    assert (out + [x])[..|out|] == out;
    assert f.children[id] + KidsOf(f, out) + f.children[x] == f.children[id] + (KidsOf(f, out) + f.children[x]);
  }

  method FollowQueue(f: Forest, id: Id) returns (out: seq<Id>)
    requires id in f.byId
    ensures Queued(f, id, out, out) && InTurn(f, id, out, out)
  {
    out := [];
    var queue := f.children[id];
    StartQueue(f, id);
    assert queue + [] == queue;
    var i := 0;
    while i < |queue|
      invariant 0 <= i == |out| <= |queue| && Queued(f, id, queue, out)
      invariant InTurn(f, id, queue, out)
      decreases |Below(f, id)| - i
    {
      QueueFits(f, id, queue, out);
      GrowQueue(f, id, queue, out);
      InTurnMore(f, id, queue, out, queue[i]);
      out := out + [queue[i]];
      queue := queue + f.children[queue[i]];
      i := i + 1;
    }
    assert out == queue;
  }

  /**
   * Everything below `id`, nearest first, found with a queue: its children, and then the children of each node
   * found, in that order.
   */
  method DescendantsOf(f: Forest, id: Id) returns (out: seq<Id>)
    ensures NoDup(out)
    ensures forall x :: x in out <==> x in f.byId && x != id && Reaches(f.parentOf, x, id)
    ensures NearestFirst(f, out)
    ensures id in f.byId ==> |out| == SubtreeSize(f, id) - 1
    ensures id in f.byId ==> out == f.children[id] + KidsOf(f, out)
  {
    if id in f.byId {
      out := FollowQueue(f, id);
      QueueComplete(f, id, out);
    } else {
      out := [];
      NothingBelowOutside(f, id);
    }
  }

  lemma NothingBelowOutside(f: Forest, id: Id)
    requires id !in f.byId
    ensures forall x :: x in f.byId ==> !Reaches(f.parentOf, x, id)
  {
    forall x | x in f.byId ensures !Reaches(f.parentOf, x, id) {
      if Reaches(f.parentOf, x, id) {
        var n: nat :| Up(f.parentOf, x, n) == Some(id);
        UpInForest(f, x, n);
      }
    }
  }

  lemma QueueFits(f: Forest, id: Id, queue: seq<Id>, out: seq<Id>)
    requires |out| < |queue| && Queued(f, id, queue, out)
    ensures |out| < |Below(f, id)|
  {
    NoDupSize(queue);
    FewerThan(Elements(queue), Below(f, id));
  }

  lemma FewerThan(s: set<Id>, t: set<Id>)
    requires s <= t
    ensures |s| <= |t|
  {
    if s != {} { var x :| x in s; FewerThan(s - {x}, t - {x}); }
  }

  lemma StartQueue(f: Forest, id: Id)
    requires id in f.byId
    ensures Queued(f, id, f.children[id], [])
  {
    AllChildrenBelow(f, id);
    forall x | x in f.children[id] ensures x in Below(f, id) {
      ReachesSelf(f.parentOf, id);
      ReachesParent(f.parentOf, x, id);
    }
  }

  lemma KidIsNew(f: Forest, id: Id, queue: seq<Id>, out: seq<Id>, k: Id)
    requires id in f.byId && |out| < |queue| && Queued(f, id, queue, out)
    requires var x := queue[|out|]; x in f.byId && k in f.children[x]
    ensures k !in queue && k in Below(f, id) && DepthOf(f, k) == DepthOf(f, queue[|out|]) + 1
  {
    var x := queue[|out|];
    assert x in queue && x !in out;
    ChildBelow(f, x, k);
    ReachesParent(f.parentOf, k, id);
    SubDeeper(f, id, x);
    SubDeeper(f, id, k);
  }

  lemma KidsAreNew(f: Forest, id: Id, queue: seq<Id>, out: seq<Id>)
    requires id in f.byId && |out| < |queue| && Queued(f, id, queue, out)
    ensures queue[|out|] in f.byId && forall k :: k in f.children[queue[|out|]] ==>
      k !in queue && k in Below(f, id) && DepthOf(f, k) == DepthOf(f, queue[|out|]) + 1
  {
    assert queue[|out|] in queue;
    forall k | k in f.children[queue[|out|]]
      ensures k !in queue && k in Below(f, id) && DepthOf(f, k) == DepthOf(f, queue[|out|]) + 1
    {
      KidIsNew(f, id, queue, out, k);
    }
  }

  lemma GrowOrder(f: Forest, queue: seq<Id>, kids: seq<Id>, i: nat)
    requires i < |queue| && (forall x :: x in queue + kids ==> x in f.byId) && QueueOrdered(f, queue, i)
    requires forall k :: k in kids ==> DepthOf(f, k) == DepthOf(f, queue[i]) + 1
    ensures QueueOrdered(f, queue + kids, i + 1)
  {
    var grown := queue + kids;
    assert forall k :: |queue| <= k < |grown| ==> grown[k] in kids;
    forall a, b | 0 <= a < b < |grown| ensures DepthOf(f, grown[a]) <= DepthOf(f, grown[b]) {
      if b < |queue| {
      } else if a < i {
        assert DepthOf(f, queue[a]) <= DepthOf(f, queue[i]);
      }
    }
    if i + 1 < |grown| { assert DepthOf(f, grown[i]) <= DepthOf(f, grown[i + 1]); }
  }

  lemma GrowHolds(f: Forest, id: Id, queue: seq<Id>, out: seq<Id>, x: Id, kids: seq<Id>)
    requires QueueHolds(f, id, queue, out) && forall k :: k in kids <==> HangsFrom(f.parentOf, x, k)
    ensures QueueHolds(f, id, queue + kids, out + [x])
  {
  }

  lemma NoDupJoined<T(!new)>(s: seq<T>, t: seq<T>)
    requires NoDup(s) && NoDup(t) && forall x :: x in t ==> x !in s
    ensures NoDup(s + t)
  {
    assert forall k :: |s| <= k < |s + t| ==> (s + t)[k] == t[k - |s|] && t[k - |s|] in t;
  }

  lemma GrowQueue(f: Forest, id: Id, queue: seq<Id>, out: seq<Id>)
    requires id in f.byId && |out| < |queue| && Queued(f, id, queue, out)
    ensures var x := queue[|out|]; x in f.byId && Queued(f, id, queue + f.children[x], out + [x])
  {
    KidsAreNew(f, id, queue, out);
    var x := queue[|out|];
    NoDupJoined(queue, f.children[x]);
    GrowHolds(f, id, queue, out, x, f.children[x]);
    GrowOrder(f, queue, f.children[x], |out|);
  }

  /** When the queue runs out, nothing below `id` is missing from it. */
  lemma {:induction false} QueueHas(f: Forest, id: Id, queue: seq<Id>, x: Id, n: nat)
    requires forall y :: y in f.parentOf && (f.parentOf[y] == id || f.parentOf[y] in queue) ==> y in queue
    requires Up(f.parentOf, x, n) == Some(id) && x != id
    ensures x in queue
    decreases n
  {
    if f.parentOf[x] != id { QueueHas(f, id, queue, f.parentOf[x], n - 1); }
  }

  lemma QueueComplete(f: Forest, id: Id, queue: seq<Id>)
    requires id in f.byId && Queued(f, id, queue, queue)
    ensures forall x :: x in queue <==> x in f.byId && x != id && Reaches(f.parentOf, x, id)
    ensures NoDup(queue) && NearestFirst(f, queue)
    ensures |queue| == SubtreeSize(f, id) - 1
  {
    forall x | x in Below(f, id) ensures x in queue {
      var n: nat :| Up(f.parentOf, x, n) == Some(id);
      QueueHas(f, id, queue, x, n);
    }
    NoDupSize(queue);
    assert Elements(queue) == Below(f, id);
    SubSelf(f, id);
  }
}
