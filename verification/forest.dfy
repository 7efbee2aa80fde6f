/**
 * The dependency forest of a network map: arbitrary "depends on" links, loops included,
 * turned into trees (buildForest in web/netmap.js).
 */
module Forests {
  import opened Wrappers
  import opened Ordering
  import opened Chains

  datatype Node = Node(id: Id, name: string, dependsOn: Option<Id>, enabled: bool)

  /** `keys` is the order in which `byId` was filled, which is the order it is walked in. */
  datatype ForestData = ForestData(
    keys: seq<Id>, byId: map<Id, Node>, parentOf: map<Id, Id>,
    children: map<Id, seq<Id>>, roots: seq<Id>, cycles: seq<Id>)

  /* ---------- What the input says ---------- */

  /** The ids of a list of nodes, each where it first appears. */
  function IdsOf(nodes: seq<Node>): (ids: seq<Id>)
    ensures NoDup(ids)
  {
    if nodes == [] then []
    else
      var before := IdsOf(nodes[..|nodes| - 1]);
      var last := nodes[|nodes| - 1];
      if last.id in before then before else before + [last.id]
  }

  /** What each id stands for: the last node with it. */
  function ById(nodes: seq<Node>): map<Id, Node> {
    if nodes == [] then map[] else ById(nodes[..|nodes| - 1])[nodes[|nodes| - 1].id := nodes[|nodes| - 1]]
  }

  lemma {:induction false} IdsAndNodes(nodes: seq<Node>)
    ensures forall id :: id in IdsOf(nodes) <==> id in ById(nodes)
    ensures forall id :: id in ById(nodes) ==> ById(nodes)[id] in nodes && ById(nodes)[id].id == id
    ensures forall n :: n in nodes ==> n.id in ById(nodes)
  {
    if nodes != [] {
      IdsAndNodes(nodes[..|nodes| - 1]);
      assert nodes == nodes[..|nodes| - 1] + [nodes[|nodes| - 1]];
    }
  }

  lemma IdsOfSnoc(nodes: seq<Node>, n: Node)
    ensures IdsOf(nodes + [n]) == if n.id in IdsOf(nodes) then IdsOf(nodes) else IdsOf(nodes) + [n.id]
    ensures ById(nodes + [n]) == ById(nodes)[n.id := n]
  {
    var s := nodes + [n];
    assert s[..|s| - 1] == nodes;
  }

  /** A node depends on another node of the set, and not on itself. */
  predicate Linked(byId: map<Id, Node>, id: Id) {
    id in byId && byId[id].dependsOn.Some? && byId[id].dependsOn.value != id && byId[id].dependsOn.value in byId
  }

  function Links(byId: map<Id, Node>): map<Id, Id> {
    map id | id in byId && Linked(byId, id) :: byId[id].dependsOn.value
  }

  /** By name, then by id. A missing node has an empty name. */
  function ByName(byId: map<Id, Node>, collate: Comparator<string>): Comparator<Id> {
    (a, b) =>
      var c := collate(NameOf(byId, a), NameOf(byId, b));
      if c != 0 then c else collate(a.text, b.text)
  }

  function NameOf(byId: map<Id, Node>, id: Id): string { if id in byId then byId[id].name else "" }

  predicate HangsFrom(parentOf: map<Id, Id>, p: Id, id: Id) { id in parentOf && parentOf[id] == p }

  function ChildOf(parentOf: map<Id, Id>, p: Id): Id -> bool { id => HangsFrom(parentOf, p, id) }

  function TopOf(parentOf: map<Id, Id>): Id -> bool { id => id !in parentOf }

  function ChildList(keys: seq<Id>, parentOf: map<Id, Id>, p: Id, cmp: Comparator<Id>): seq<Id> {
    SortBy(Filter(keys, ChildOf(parentOf, p)), cmp)
  }

  function RootList(keys: seq<Id>, parentOf: map<Id, Id>, cmp: Comparator<Id>): seq<Id> {
    SortBy(Filter(keys, TopOf(parentOf)), cmp)
  }

  /* ---------- What a forest is ---------- */

  ghost predicate WellFormed(f: ForestData) {
    && NoDup(f.keys) && (forall id {:trigger id in f.keys} :: id in f.keys <==> id in f.byId)
    && (forall id {:trigger f.parentOf[id]} :: id in f.parentOf ==> id in f.byId && f.parentOf[id] in f.byId)
    && f.children.Keys == f.byId.Keys
  }

  ghost predicate ChildrenInvert(f: ForestData) {
    forall p {:trigger f.children[p]} :: p in f.children ==>
      NoDup(f.children[p]) &&
        (forall c {:trigger c in f.children[p]} :: c in f.children[p] <==> HangsFrom(f.parentOf, p, c))
  }

  ghost predicate RootsComplete(f: ForestData) {
    NoDup(f.roots) && (forall r {:trigger r in f.roots} :: r in f.roots <==> r in f.byId && r !in f.parentOf)
  }

  ghost predicate AllGrounded(f: ForestData) {
    forall id {:trigger Grounded(f.parentOf, id)} :: id in f.byId ==> Grounded(f.parentOf, id)
  }

  /** A forest: no chain is endless, children undo parentOf, roots are what has no parent. */
  ghost predicate Valid(f: ForestData) {
    WellFormed(f) && ChildrenInvert(f) && RootsComplete(f) && AllGrounded(f)
  }

  type Forest = f: ForestData | Valid(f) witness ForestData([], map[], map[], map[], [], [])

  /* ---------- Which links are dropped ---------- */

  /** Nothing among the first `i` keys leads to the loop `d` is on. */
  ghost predicate NoneReach(keys: seq<Id>, links: map<Id, Id>, i: nat, d: Id) {
    forall j :: 0 <= j < i && j < |keys| ==> !Reaches(links, keys[j], d)
  }

  /** Going up from `from`, `entry` is the first node met that lies on a loop. */
  ghost predicate FirstOnLoop(links: map<Id, Id>, from: Id, entry: Id) {
    exists n: nat :: Up(links, from, n) == Some(entry) && OnLoop(links, entry)
      && forall m: nat :: m < n ==> Up(links, from, m).Some? && !OnLoop(links, Up(links, from, m).value)
  }

  /**
   * `d` is the node whose link is dropped for its loop: the first key (in order) that leads to
   * the loop enters it at the node `d` depends on, so the walk closes at `d`.
   */
  ghost predicate ClosesAt(keys: seq<Id>, links: map<Id, Id>, d: Id) {
    && OnLoop(links, d) && d in links
    && exists i :: 0 <= i < |keys| && NoneReach(keys, links, i, d) && FirstOnLoop(links, keys[i], links[d])
  }

  /** The links left are the links given, less exactly one of each loop: those of `cycles`. */
  ghost predicate OneLinkPerLoop(links: map<Id, Id>, parentOf: map<Id, Id>, cycles: seq<Id>) {
    && SubLinks(parentOf, links)
    && (forall x :: x in links && x !in parentOf <==> x in cycles)
    && NoDup(cycles)
    && (forall d :: d in cycles ==> OnLoop(links, d))
    && (forall d, e :: d in cycles && e in cycles && d != e ==> !Reaches(links, d, e))
  }

  ghost predicate DroppedWhereClosed(keys: seq<Id>, links: map<Id, Id>, cycles: seq<Id>) {
    forall d :: d in cycles ==> ClosesAt(keys, links, d)
  }

  /* ---------- Building it ---------- */

  /** A walk up the links that has met no node twice. */
  ghost predicate Walk(parent: map<Id, Id>, path: seq<Id>) {
    && path != [] && NoDup(path)
    && forall k :: 0 <= k < |path| - 1 ==> path[k] in parent && parent[path[k]] == path[k + 1]
  }

  lemma {:induction false} WalkUp(parent: map<Id, Id>, path: seq<Id>, k: nat)
    requires Walk(parent, path) && k < |path|
    ensures Up(parent, path[0], k) == Some(path[k])
  {
    if k > 0 {
      WalkUp(parent, path, k - 1);
      UpStep(parent, path[0], k - 1);
    }
  }

  lemma {:induction false} WalkUpFrom(parent: map<Id, Id>, path: seq<Id>, i: nat, k: nat)
    requires Walk(parent, path) && i <= k < |path|
    ensures Up(parent, path[i], k - i) == Some(path[k])
  {
    assert Walk(parent, path[i..]);
    WalkUp(parent, path[i..], k - i);
  }

  /** Once a walk meets a node again, what it met before that node was on no loop. */
  lemma TailOffLoop(parent: map<Id, Id>, path: seq<Id>, m: nat, j: nat)
    requires Walk(parent, path) && j < m < |path|
    requires path[|path| - 1] in parent && parent[path[|path| - 1]] == path[m]
    ensures !OnLoop(parent, path[j])
  {
    if OnLoop(parent, path[j]) {
      WalkUpFrom(parent, path, j, m);
      ReachesOnLoop(parent, path[j], path[m]);
      var n: nat :| Up(parent, path[m], n) == Some(path[j]);
      StaysInLoop(parent, path, m, n);
    }
  }

  lemma {:induction false} StaysInLoop(parent: map<Id, Id>, path: seq<Id>, m: nat, n: nat)
    requires Walk(parent, path) && m < |path|
    requires path[|path| - 1] in parent && parent[path[|path| - 1]] == path[m]
    ensures Up(parent, path[m], n).Some? && Up(parent, path[m], n).value in path[m..]
  {
    if n == 0 {
      assert path[m..][0] == path[m];
    } else {
      StaysInLoop(parent, path, m, n - 1);
      UpStep(parent, path[m], n - 1);
      var x := Up(parent, path[m], n - 1).value;
      var k :| 0 <= k < |path[m..]| && path[m..][k] == x;
      if k + m == |path| - 1 { assert path[m..][0] == path[m]; } else { assert path[m..][k + 1] == path[m + k + 1]; }
    }
  }

  /** The loop a walk closes was whole until now, so none of its links was dropped before. */
  lemma ClosingIsNew(parent: map<Id, Id>, links: map<Id, Id>, cycles: seq<Id>, cur: Id)
    requires SubLinks(parent, links) && OnLoop(parent, cur)
    requires forall x :: x in links && x !in parent <==> x in cycles
    requires forall d :: d in cycles ==> OnLoop(links, d)
    ensures forall d :: d in cycles ==> !Reaches(links, cur, d) && !Reaches(links, d, cur)
  {
    forall d | d in cycles ensures !Reaches(links, cur, d) && !Reaches(links, d, cur) {
      if Reaches(links, d, cur) { ReachesOnLoop(links, d, cur); }
      if Reaches(links, cur, d) { LoopIntact(parent, links, cur, d); }
    }
  }

  /** A node whose chain now ends never led to a loop that is still whole. */
  lemma EndedNeverReaches(parent: map<Id, Id>, links: map<Id, Id>, cycles: seq<Id>, x: Id, cur: Id)
    requires SubLinks(parent, links) && OnLoop(parent, cur) && Grounded(parent, x)
    requires forall y :: y in links && y !in parent <==> y in cycles
    requires forall d :: d in cycles ==> OnLoop(links, d)
    ensures !Reaches(links, x, cur)
  {
    if Reaches(links, x, cur) {
      var k: nat :| Up(links, x, k) == Some(cur);
      if Up(parent, x, k).Some? {
        UpWithin(parent, links, x, k);
        GroundedUp(parent, x, cur);
        LoopNotGrounded(parent, cur);
      } else {
        var e := Break(parent, links, x, k);
        var y := Up(links, x, e).value;
        ClosingIsNew(parent, links, cycles, cur);
        UpAdd(links, x, e, k - e);
      }
    }
  }

  /** Where a chain that goes on in `links` ends in `parent`. */
  lemma {:induction false} Break(parent: map<Id, Id>, links: map<Id, Id>, x: Id, k: nat) returns (e: nat)
    requires SubLinks(parent, links) && Up(parent, x, k) == None && Up(links, x, k).Some?
    ensures e < k && Up(links, x, e).Some?
    ensures Up(links, x, e).value in links && Up(links, x, e).value !in parent
    decreases k
  {
    if x in parent {
      e := Break(parent, links, parent[x], k - 1);
      e := e + 1;
    } else {
      e := 0;
    }
  }

  /** The walk from key `i` closes at its last node: what that says about the links given. */
  lemma WalkCloses(keys: seq<Id>, links: map<Id, Id>, parent: map<Id, Id>, cycles: seq<Id>, i: nat, path: seq<Id>,
                   m: nat)
    requires i < |keys| && SubLinks(parent, links) && Walk(parent, path) && path[0] == keys[i] && m < |path|
    requires path[|path| - 1] in parent && parent[path[|path| - 1]] == path[m]
    requires forall x :: x in links && x !in parent <==> x in cycles
    requires forall d :: d in cycles ==> OnLoop(links, d)
    requires forall j :: 0 <= j < i ==> Grounded(parent, keys[j])
    ensures OnLoop(parent, path[|path| - 1])
    ensures ClosesAt(keys, links, path[|path| - 1])
  {
    var cur, entry := path[|path| - 1], path[m];
    WalkUpFrom(parent, path, m, |path| - 1);
    assert Up(parent, cur, 1 + (|path| - 1 - m)) == Some(cur);
    LoopWithin(parent, links, cur);
    forall j | 0 <= j < i ensures !Reaches(links, keys[j], cur) {
      EndedNeverReaches(parent, links, cycles, keys[j], cur);
    }
    assert NoneReach(keys, links, i, cur);
    assert Walk(links, path);
    WalkUp(links, path, m);
    ReachesParent(links, cur, entry);
    ReachesSelf(links, entry);
    ReachesOnLoop(links, cur, entry);
    forall j: nat | j < m ensures Up(links, keys[i], j).Some? && !OnLoop(links, Up(links, keys[i], j).value) {
      WalkUp(links, path, j);
      TailOffLoop(links, path, m, j);
    }
    assert FirstOnLoop(links, keys[i], entry);
  }

  /** Dropping the link of a loop just closed keeps every earlier promise. */
  lemma DropOne(links: map<Id, Id>, parent: map<Id, Id>, cycles: seq<Id>, cur: Id)
    requires OneLinkPerLoop(links, parent, cycles)
    requires cur in parent && OnLoop(parent, cur) && OnLoop(links, cur)
    ensures OneLinkPerLoop(links, parent - {cur}, cycles + [cur])
    ensures forall x :: Grounded(parent, x) ==> Grounded(parent - {cur}, x)
  {
    ClosingIsNew(parent, links, cycles, cur);
    forall x | Grounded(parent, x) ensures Grounded(parent - {cur}, x) { GroundedWithin(parent - {cur}, parent, x); }
  }

  /**
   * Follows one node's chain upwards: either it ends (at `cur`), or it comes round, and then
   * `cur` is the node it comes round from.
   */
  method FollowUp(parent: map<Id, Id>, id: Id) returns (round: bool, cur: Id, ghost path: seq<Id>, ghost m: nat)
    ensures Walk(parent, path) && path[0] == id && cur == path[|path| - 1]
    ensures round ==> cur in parent && m < |path| && parent[cur] == path[m]
    ensures !round ==> cur !in parent
  {
    var seen := {id};
    cur, path, m := id, [id], 0;
    ghost var left := parent.Keys;
    while cur in parent
      invariant Walk(parent, path) && path[0] == id && cur == path[|path| - 1]
      invariant forall x :: x in seen <==> x in path
      invariant forall x :: x in left <==> x in parent && (x == cur || x !in seen)
      decreases left
    {
      var up := parent[cur];
      if up in seen {
        m :| 0 <= m < |path| && path[m] == up;
        return true, cur, path, m;
      }
      WalkExtends(parent, path);
      left := left - {cur};
      seen, cur, path := seen + {up}, up, path + [up];
    }
    round := false;
  }

  lemma WalkExtends(parent: map<Id, Id>, path: seq<Id>)
    requires Walk(parent, path) && path[|path| - 1] in parent && parent[path[|path| - 1]] !in path
    ensures Walk(parent, path + [parent[path[|path| - 1]]])
  {
  }

  lemma WalkEnds(parent: map<Id, Id>, path: seq<Id>)
    requires Walk(parent, path) && path[|path| - 1] !in parent
    ensures Grounded(parent, path[0])
  {
    WalkUp(parent, path, |path| - 1);
    UpStep(parent, path[0], |path| - 1);
    assert Up(parent, path[0], |path|) == None;
  }

  lemma WalkSurvives(parent: map<Id, Id>, path: seq<Id>)
    requires Walk(parent, path)
    ensures Walk(parent - {path[|path| - 1]}, path)
  {
  }

  /** Walks up from each node in turn; a walk that comes round loses its last link. */
  method BreakLoops(keys: seq<Id>, links: map<Id, Id>) returns (parentOf: map<Id, Id>, cycles: seq<Id>)
    requires NoDup(keys)
    ensures OneLinkPerLoop(links, parentOf, cycles) && DroppedWhereClosed(keys, links, cycles)
    ensures forall id :: id in keys ==> Grounded(parentOf, id)
  {
    parentOf, cycles := links, [];
    for i := 0 to |keys|
      invariant OneLinkPerLoop(links, parentOf, cycles) && DroppedWhereClosed(keys, links, cycles)
      invariant forall j :: 0 <= j < i ==> Grounded(parentOf, keys[j])
    {
      var round, cur, path, m := FollowUp(parentOf, keys[i]);
      if round {
        WalkCloses(keys, links, parentOf, cycles, i, path, m);
        DropOne(links, parentOf, cycles, cur);
        WalkSurvives(parentOf, path);
        parentOf := parentOf - {cur};
        cycles := cycles + [cur];
      }
      WalkEnds(parentOf, path);
    }
  }

  lemma ChildListIs(keys: seq<Id>, parentOf: map<Id, Id>, p: Id, cmp: Comparator<Id>)
    requires NoDup(keys) && forall id :: id in parentOf ==> id in keys
    ensures NoDup(ChildList(keys, parentOf, p, cmp))
    ensures forall c :: c in ChildList(keys, parentOf, p, cmp) <==> HangsFrom(parentOf, p, c)
  {
    FilterNoDup(keys, ChildOf(parentOf, p));
    SortKeeps(Filter(keys, ChildOf(parentOf, p)), cmp);
  }

  lemma RootListIs(keys: seq<Id>, parentOf: map<Id, Id>, cmp: Comparator<Id>)
    requires NoDup(keys)
    ensures NoDup(RootList(keys, parentOf, cmp))
    ensures forall r :: r in RootList(keys, parentOf, cmp) <==> r in keys && r !in parentOf
  {
    FilterNoDup(keys, TopOf(parentOf));
    SortKeeps(Filter(keys, TopOf(parentOf)), cmp);
  }

  /** Links broken at every loop, with the lists made from them, are a forest. */
  lemma Assembled(f: ForestData, links: map<Id, Id>, cmp: Comparator<Id>)
    requires NoDup(f.keys) && (forall id :: id in f.keys <==> id in f.byId)
    requires SubLinks(f.parentOf, links) && links == Links(f.byId)
    requires forall id :: id in f.keys ==> Grounded(f.parentOf, id)
    requires f.children.Keys == f.byId.Keys
    requires forall p :: p in f.children ==> f.children[p] == ChildList(f.keys, f.parentOf, p, cmp)
    requires f.roots == RootList(f.keys, f.parentOf, cmp)
    ensures Valid(f)
  {
    assert WellFormed(f);
    forall p | p in f.children
      ensures NoDup(f.children[p]) && (forall c :: c in f.children[p] <==> HangsFrom(f.parentOf, p, c))
    {
      ChildListIs(f.keys, f.parentOf, p, cmp);
    }
    RootListIs(f.keys, f.parentOf, cmp);
  }

  method CollectNodes(nodes: seq<Node>) returns (keys: seq<Id>, byId: map<Id, Node>)
    ensures keys == IdsOf(nodes) && byId == ById(nodes)
  {
    keys, byId := [], map[];
    for i := 0 to |nodes|
      invariant keys == IdsOf(nodes[..i]) && byId == ById(nodes[..i])
    {
      TakeMore(nodes, i);
      IdsOfSnoc(nodes[..i], nodes[i]);
      IdsAndNodes(nodes[..i]);
      if nodes[i].id !in byId { keys := keys + [nodes[i].id]; }
      byId := byId[nodes[i].id := nodes[i]];
    }
    TakeAll(nodes);
  }

  method CollectLinks(keys: seq<Id>, byId: map<Id, Node>) returns (parentOf: map<Id, Id>)
    requires forall id :: id in keys <==> id in byId
    ensures parentOf == Links(byId)
  {
    parentOf := map[];
    for i := 0 to |keys|
      invariant forall id :: id in parentOf <==> id in keys[..i] && Linked(byId, id)
      invariant forall id :: id in parentOf ==> parentOf[id] == byId[id].dependsOn.value
    {
      if Linked(byId, keys[i]) { parentOf := parentOf[keys[i] := byId[keys[i]].dependsOn.value]; }
    }
    assert keys[..|keys|] == keys;
  }

  method CollectChildren(keys: seq<Id>, parentOf: map<Id, Id>, ids: set<Id>) returns (children: map<Id, seq<Id>>)
    requires forall id :: id in parentOf ==> parentOf[id] in ids
    ensures children.Keys == ids
    ensures forall p :: p in ids ==> children[p] == Filter(keys, ChildOf(parentOf, p))
  {
    children := map id | id in ids :: [];
    for i := 0 to |keys|
      invariant children.Keys == ids
      invariant forall p :: p in ids ==> children[p] == Filter(keys[..i], ChildOf(parentOf, p))
    {
      var id := keys[i];
      assert keys[..i + 1] == keys[..i] + [id];
      forall p | p in ids
        ensures Filter(keys[..i + 1], ChildOf(parentOf, p))
             == children[p] + if HangsFrom(parentOf, p, id) then [id] else []
      {
        FilterSnoc(keys[..i], id, ChildOf(parentOf, p));
      }
      if id in parentOf { children := children[parentOf[id] := children[parentOf[id]] + [id]]; }
    }
    assert keys[..|keys|] == keys;
  }

  /** The forest of a list of nodes: the links that are left, and lists of children and roots by name. */
  ghost predicate BuiltFrom(f: Forest, nodes: seq<Node>, collate: Comparator<string>) {
    && f.keys == IdsOf(nodes) && f.byId == ById(nodes)
    && OneLinkPerLoop(Links(f.byId), f.parentOf, f.cycles) && DroppedWhereClosed(f.keys, Links(f.byId), f.cycles)
    && (forall p :: p in f.byId ==> f.children[p] == ChildList(f.keys, f.parentOf, p, ByName(f.byId, collate)))
    && f.roots == RootList(f.keys, f.parentOf, ByName(f.byId, collate))
  }

  method BuildForest(nodes: seq<Node>, collate: Comparator<string>) returns (f: Forest)
    ensures BuiltFrom(f, nodes, collate)
  {
    var keys, byId := CollectNodes(nodes);
    IdsAndNodes(nodes);
    var links := CollectLinks(keys, byId);
    var parentOf, cycles := BreakLoops(keys, links);
    var cmp := ByName(byId, collate);
    var lists := CollectChildren(keys, parentOf, byId.Keys);
    var children := map p | p in lists :: SortBy(lists[p], cmp);
    var roots := SortBy(Filter(keys, TopOf(parentOf)), cmp);
    var built := ForestData(keys, byId, parentOf, children, roots, cycles);
    Assembled(built, links, cmp);
    f := built;
  }

  /* ---------- What is built, told from the nodes ---------- */

  /** Of several nodes with one id the last is the one the map knows. */
  lemma {:induction false} LastNodeCounts(nodes: seq<Node>, i: nat)
    requires i < |nodes| && forall j :: i < j < |nodes| ==> nodes[j].id != nodes[i].id
    ensures nodes[i].id in ById(nodes) && ById(nodes)[nodes[i].id] == nodes[i]
    decreases |nodes|
  {
    if i < |nodes| - 1 { LastNodeCounts(nodes[..|nodes| - 1], i); }
  }

  /** Ids are walked in the order in which they first appear. */
  lemma {:induction false} KeysAsMet(nodes: seq<Node>, i: nat, j: nat)
    requires i < j < |nodes| && forall k :: 0 <= k < j ==> nodes[k].id != nodes[j].id
    ensures Precedes(IdsOf(nodes), nodes[i].id, nodes[j].id)
    decreases |nodes|
  {
    var before, last := nodes[..|nodes| - 1], nodes[|nodes| - 1];
    IdsAndNodes(before);
    PrecedesMore(IdsOf(before), nodes[i].id, nodes[j].id, last.id);
    if j < |nodes| - 1 {
      KeysAsMet(before, i, j);
    } else {
      assert before[i] in before;
      NotMet(before, last.id);
    }
  }

  lemma NotMet(nodes: seq<Node>, id: Id)
    requires forall k :: 0 <= k < |nodes| ==> nodes[k].id != id
    ensures id !in IdsOf(nodes)
  {
    IdsAndNodes(nodes);
  }

  /** A node hangs from the one it depends on, if that is another node of the map and no loop was broken there. */
  lemma HangsFromWhatItDependsOn(f: Forest, nodes: seq<Node>, collate: Comparator<string>, id: Id, p: Id)
    requires BuiltFrom(f, nodes, collate)
    ensures id in f.parentOf && f.parentOf[id] == p <==>
      id in f.byId && p in f.byId && f.byId[id].dependsOn == Some(p) && p != id && id !in f.cycles
    ensures id in f.cycles ==>
      (id in f.roots && f.byId[id].dependsOn.Some? && f.byId[id].dependsOn.value in f.byId &&
      f.byId[id].dependsOn.value != id)
  {
    assert id in Links(f.byId) <==> Linked(f.byId, id);
  }

  /* ---------- In what order the lists are ---------- */

  lemma ByNameOrders(byId: map<Id, Node>, collate: Comparator<string>)
    requires Collates(collate)
    ensures Collates(ByName(byId, collate))
  {
    NamesOrder(collate, NamesIn(byId), Names(byId, collate));
    NamesOrder(collate, TextOfId(), IdTexts(collate));
    ThenOrders(Names(byId, collate), IdTexts(collate), ByName(byId, collate));
  }

  function NamesIn(byId: map<Id, Node>): Id -> string { id => NameOf(byId, id) }
  function TextOfId(): Id -> string { (id: Id) => id.text }
  function Names(byId: map<Id, Node>, collate: Comparator<string>): Comparator<Id> {
    (a, b) => collate(NameOf(byId, a), NameOf(byId, b))
  }
  function IdTexts(collate: Comparator<string>): Comparator<Id> { (a: Id, b: Id) => collate(a.text, b.text) }

  /** `a` is listed before `b`: by name, by id where names are the same, and as they were given where ids are, too. */
  ghost predicate ListedBefore(f: Forest, collate: Comparator<string>, a: Id, b: Id) {
    a in f.byId && b in f.byId &&
    var byName, byId := collate(f.byId[a].name, f.byId[b].name), collate(a.text, b.text);
    byName < 0 || (byName == 0 && (byId < 0 || (byId == 0 && Precedes(f.keys, a, b))))
  }

  ghost predicate InOrder(f: Forest, collate: Comparator<string>, list: seq<Id>) {
    forall i, j {:trigger list[i], list[j]} :: 0 <= i < j < |list| ==> ListedBefore(f, collate, list[i], list[j])
  }

  lemma PairInOrder(f: Forest, collate: Comparator<string>, keep: Id -> bool, a: Id, b: Id)
    requires a in f.keys && b in f.keys && keep(a) && keep(b)
    requires var c := ByName(f.byId, collate)(a, b); c < 0 || (c == 0 && Precedes(Filter(f.keys, keep), a, b))
    ensures ListedBefore(f, collate, a, b)
  {
    FilterPrecedes(f.keys, keep, a, b);
  }

  lemma SortedInOrder(f: Forest, collate: Comparator<string>, keep: Id -> bool, list: seq<Id>)
    requires Collates(collate) && list == SortBy(Filter(f.keys, keep), ByName(f.byId, collate))
    ensures InOrder(f, collate, list)
  {
    var some, cmp := Filter(f.keys, keep), ByName(f.byId, collate);
    ByNameOrders(f.byId, collate);
    FilterNoDup(f.keys, keep);
    SortKeeps(some, cmp);
    forall i, j | 0 <= i < j < |list| ensures ListedBefore(f, collate, list[i], list[j]) {
      assert list[i] in list && list[j] in list;
      SortKeepsOrder(some, cmp, i, j);
      PairInOrder(f, collate, keep, list[i], list[j]);
    }
  }

  /**
   * With a collation that is an order, children and roots are sorted by name, by id where names are the same,
   * and otherwise as they were given.
   */
  lemma ListsAreByName(f: Forest, nodes: seq<Node>, collate: Comparator<string>)
    requires BuiltFrom(f, nodes, collate) && Collates(collate)
    ensures InOrder(f, collate, f.roots)
    ensures forall p :: p in f.children ==> InOrder(f, collate, f.children[p])
  {
    SortedInOrder(f, collate, TopOf(f.parentOf), f.roots);
    forall p | p in f.children ensures InOrder(f, collate, f.children[p]) {
      SortedInOrder(f, collate, ChildOf(f.parentOf, p), f.children[p]);
    }
  }
}
