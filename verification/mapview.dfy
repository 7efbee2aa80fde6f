/** Which nodes a network map draws: the filter with its chain upwards, and folded clusters (web/netmap.js). */
module MapView {
  import opened Wrappers
  import opened Ordering
  import opened Chains
  import opened Forests
  import opened Trees
  import opened PartLoops

  /* ---------- The filter ---------- */

  /** A node the map draws; `context` when it is drawn only for the chain above a matching one. */
  datatype Shown = Shown(node: Node, context: bool)

  /** Every "depends on" that names an entry of the list, one naming itself included. */
  function UpLinks(byId: map<Id, Node>): map<Id, Id> {
    map id | id in byId && byId[id].dependsOn.Some? && byId[id].dependsOn.value in byId :: byId[id].dependsOn.value
  }

  ghost predicate Matching(nodes: seq<Node>, match_: Node -> bool, id: Id) {
    exists n :: n in nodes && n.id == id && match_(n)
  }

  /** `id` is on the chain above `n`. */
  ghost predicate Upstream(byId: map<Id, Node>, n: Node, id: Id) {
    n.dependsOn.Some? && n.dependsOn.value in byId && Reaches(UpLinks(byId), n.dependsOn.value, id)
  }

  /** `id` matches, or something that matches depends on it, however far down. */
  ghost predicate Wanted(nodes: seq<Node>, byId: map<Id, Node>, match_: Node -> bool, id: Id) {
    exists n :: n in nodes && match_(n) && (n.id == id || Upstream(byId, n, id))
  }

  /** Closed under "depends on". */
  ghost predicate UpClosed(byId: map<Id, Node>, s: set<Id>) {
    forall id :: id in s && id in UpLinks(byId) ==> UpLinks(byId)[id] in s
  }

  lemma {:induction false} ClosedHasAll(links: map<Id, Id>, s: set<Id>, p: Id, n: nat)
    requires p in s && forall x :: x in s && x in links ==> links[x] in s
    requires Up(links, p, n).Some?
    ensures Up(links, p, n).value in s
    decreases n
  {
    if n > 0 { ClosedHasAll(links, s, links[p], n - 1); }
  }

  lemma OneUp(links: map<Id, Id>, start: Id, id: Id)
    requires Reaches(links, start, id) && id in links
    ensures Reaches(links, start, links[id])
  {
    ReachesSelf(links, links[id]);
    ReachesParent(links, id, links[id]);
    ReachesTrans(links, start, id, links[id]);
  }

  /** Going up from `start` the nodes `seen` were met, and `p` is what the last of them depends on. */
  ghost predicate Climbed(byId: map<Id, Node>, start: Id, seen: set<Id>, p: Option<Id>) {
    var links := UpLinks(byId);
    && seen <= byId.Keys && (forall id :: id in seen ==> Reaches(links, start, id))
    && (start in seen || p == Some(start))
    && (p.Some? && p.value in byId ==> Reaches(links, start, p.value))
    && (forall id :: id in seen && id in links ==> links[id] in seen || p == Some(links[id]))
  }

  lemma ClimbOne(byId: map<Id, Node>, start: Id, seen: set<Id>, id: Id)
    requires Climbed(byId, start, seen, Some(id)) && id in byId
    ensures Climbed(byId, start, seen + {id}, byId[id].dependsOn)
  {
    if id in UpLinks(byId) { OneUp(UpLinks(byId), start, id); }
  }

  lemma ClimbEnds(byId: map<Id, Node>, start: Id, seen: set<Id>, p: Option<Id>)
    requires Climbed(byId, start, seen, p) && start in byId && (p.None? || p.value !in byId || p.value in seen)
    ensures forall id :: id in seen <==> Reaches(UpLinks(byId), start, id)
  {
    forall id | Reaches(UpLinks(byId), start, id) ensures id in seen {
      var m: nat :| Up(UpLinks(byId), start, m) == Some(id);
      ClosedHasAll(UpLinks(byId), seen, start, m);
    }
  }

  /** `out'` draws the nodes `seen` besides what `out` draws: context, unless the node matches itself. */
  ghost predicate DrawnAbove(byId: map<Id, Node>, match_: Node -> bool, seen: set<Id>, keys': seq<Id>,
                             out: map<Id, Shown>, out': map<Id, Shown>) {
    && NoDup(keys') && (forall id :: id in keys' <==> id in out')
    && (forall id :: id in out' <==> id in out || id in seen)
    && (forall id :: id in out ==> out'[id] == out[id])
    && (forall id :: id in out' && id !in out ==> id in byId && out'[id] == Shown(byId[id], !match_(byId[id])))
  }

  lemma DrawOneAbove(byId: map<Id, Node>, match_: Node -> bool, seen: set<Id>, keys': seq<Id>, out: map<Id, Shown>,
                     out': map<Id, Shown>, id: Id)
    requires DrawnAbove(byId, match_, seen, keys', out, out') && id in byId
    ensures id in out' ==> DrawnAbove(byId, match_, seen + {id}, keys', out, out')
    ensures id !in out' ==>
      DrawnAbove(byId, match_, seen + {id}, keys' + [id], out, out'[id := Shown(byId[id], !match_(byId[id]))])
  {
  }

  /* ---------- In what order nodes are first drawn ---------- */

  /** Going up from what `n` depends on `a` is met, and `b` not before it. */
  ghost predicate MetBefore(byId: map<Id, Node>, n: Node, a: Id, b: Id) {
    Upstream(byId, n, a) && Upstream(byId, n, b) &&
    exists m: nat :: Up(UpLinks(byId), n.dependsOn.value, m) == Some(a) && NotMetBy(byId, n.dependsOn.value, b, m)
  }

  ghost predicate NotMetBy(byId: map<Id, Node>, start: Id, b: Id, m: nat) {
    forall k: nat :: k <= m ==> Up(UpLinks(byId), start, k) != Some(b)
  }

  function NotAmong(keys: seq<Id>): Id -> bool { id => id !in keys }

  /** The nodes met going up, in order, each once, and those of them drawn that were not drawn before. */
  ghost predicate PathDrawn(byId: map<Id, Node>, start: Id, seen: set<Id>, path: seq<Id>, keys: seq<Id>,
                            keys': seq<Id>) {
    && NoDup(path) && (forall id :: id in seen <==> id in path)
    && (forall m :: 0 <= m < |path| ==> Up(UpLinks(byId), start, m) == Some(path[m]))
    && keys' == keys + Filter(path, NotAmong(keys))
  }

  lemma PathStarts(byId: map<Id, Node>, start: Id, keys: seq<Id>)
    ensures PathDrawn(byId, start, {}, [], keys, keys)
  {
    assert keys + [] == keys;
  }

  lemma PathGoesOn(byId: map<Id, Node>, start: Id, seen: set<Id>, path: seq<Id>, keys: seq<Id>, keys': seq<Id>, id: Id)
    requires PathDrawn(byId, start, seen, path, keys, keys') && id !in seen
    requires Up(UpLinks(byId), start, |path|) == Some(id)
    ensures PathDrawn(byId, start, seen + {id}, path + [id], keys, if id in keys' then keys' else keys' + [id])
  {
    FilterSnoc(path, id, NotAmong(keys));
    var more := path + [id];
    forall m | 0 <= m < |more| ensures Up(UpLinks(byId), start, m) == Some(more[m]) {
      if m < |path| { assert more[m] == path[m]; }
    }
    assert id in keys' <==> id in keys;
    assert keys + (Filter(path, NotAmong(keys)) + [id]) == keys' + [id];
    assert Filter(path, NotAmong(keys)) + [] == Filter(path, NotAmong(keys));
  }

  lemma MetNoLater(byId: map<Id, Node>, start: Id, path: seq<Id>, i: nat, m: nat)
    requires NoDup(path) && i < |path| && Up(UpLinks(byId), start, m) == Some(path[i])
    requires forall k :: 0 <= k < |path| ==> Up(UpLinks(byId), start, k) == Some(path[k])
    ensures i <= m
  {
    assert m < |path| ==> Up(UpLinks(byId), start, m) == Some(path[m]);
  }

  lemma PathInOrder(byId: map<Id, Node>, n: Node, seen: set<Id>, path: seq<Id>, keys: seq<Id>, keys': seq<Id>, a: Id,
                    b: Id)
    requires MetBefore(byId, n, a, b) && PathDrawn(byId, n.dependsOn.value, seen, path, keys, keys')
    requires a in seen && b in seen && a !in keys && b !in keys
    ensures Precedes(keys', a, b)
  {
    var start := n.dependsOn.value;
    var m: nat :| Up(UpLinks(byId), start, m) == Some(a) && NotMetBy(byId, start, b, m);
    var i :| 0 <= i < |path| && path[i] == a;
    var j :| 0 <= j < |path| && path[j] == b;
    MetNoLater(byId, start, path, i, m);
    assert Precedes(path, a, b);
    FilterPrecedes(path, NotAmong(keys), a, b);
    PrecedesAfter(keys, Filter(path, NotAmong(keys)), a, b);
  }

  lemma PrecedesAfter(s: seq<Id>, t: seq<Id>, a: Id, b: Id)
    ensures Precedes(t, a, b) ==> Precedes(s + t, a, b)
    ensures Precedes(s, a, b) ==> Precedes(s + t, a, b)
    ensures a in s && b in t ==> Precedes(s + t, a, b)
  {
    var all := s + t;
    if Precedes(t, a, b) {
      var i, j :| 0 <= i < j < |t| && t[i] == a && t[j] == b;
      assert all[|s| + i] == a && all[|s| + j] == b;
    }
    if Precedes(s, a, b) {
      var i, j :| 0 <= i < j < |s| && s[i] == a && s[j] == b;
      assert all[i] == a && all[j] == b;
    }
    if a in s && b in t {
      var i :| 0 <= i < |s| && s[i] == a;
      var j :| 0 <= j < |t| && t[j] == b;
      assert all[i] == a && all[|s| + j] == b;
    }
  }

  /** Part of the way up: what was met, what of it is drawn, and what is to be met next. */
  ghost predicate Climbing(byId: map<Id, Node>, match_: Node -> bool, start: Id, seen: set<Id>, p: Option<Id>,
                           path: seq<Id>, keys: seq<Id>, keys': seq<Id>, out: map<Id, Shown>, out': map<Id, Shown>) {
    && Climbed(byId, start, seen, p) && DrawnAbove(byId, match_, seen, keys', out, out')
    && PathDrawn(byId, start, seen, path, keys, keys')
    && (p.Some? && p.value in byId ==> Up(UpLinks(byId), start, |path|) == p)
  }

  lemma ClimbStarts(byId: map<Id, Node>, match_: Node -> bool, start: Id, keys: seq<Id>, out: map<Id, Shown>)
    requires start in byId && NoDup(keys) && (forall id :: id in keys <==> id in out)
    ensures Climbing(byId, match_, start, {}, Some(start), [], keys, keys, out, out)
  {
    ReachesSelf(UpLinks(byId), start);
    PathStarts(byId, start, keys);
  }

  lemma ClimbGoesOn(byId: map<Id, Node>, match_: Node -> bool, start: Id, seen: set<Id>, id: Id, path: seq<Id>,
                    keys: seq<Id>, keys': seq<Id>, out: map<Id, Shown>, out': map<Id, Shown>)
    requires Climbing(byId, match_, start, seen, Some(id), path, keys, keys', out, out') && id in byId && id !in seen
    ensures Climbing(byId, match_, start, seen + {id}, byId[id].dependsOn, path + [id], keys,
      if id in out' then keys' else keys' + [id], out,
      if id in out' then out' else out'[id := Shown(byId[id], !match_(byId[id]))])
  {
    ClimbOne(byId, start, seen, id);
    DrawOneAbove(byId, match_, seen, keys', out, out', id);
    PathGoesOn(byId, start, seen, path, keys, keys', id);
    UpStep(UpLinks(byId), start, |path|);
  }

  lemma ClimbDone(n: Node, byId: map<Id, Node>, match_: Node -> bool, seen: set<Id>, p: Option<Id>, path: seq<Id>,
                  keys: seq<Id>, keys': seq<Id>, out: map<Id, Shown>, out': map<Id, Shown>)
    requires n.dependsOn.Some? && n.dependsOn.value in byId
    requires Climbing(byId, match_, n.dependsOn.value, seen, p, path, keys, keys', out, out')
    requires p.None? || p.value !in byId || p.value in seen
    ensures NoDup(keys') && (forall id :: id in keys' <==> id in out')
    ensures forall id :: id in out' <==> id in out || Upstream(byId, n, id)
    ensures forall id :: id in out ==> out'[id] == out[id]
    ensures forall id :: id in out' && id !in out ==> id in byId && out'[id] == Shown(byId[id], !match_(byId[id]))
    ensures keys <= keys'
    ensures forall a, b :: MetBefore(byId, n, a, b) && a !in keys && b !in keys ==> Precedes(keys', a, b)
  {
    ClimbEnds(byId, n.dependsOn.value, seen, p);
    forall a, b | MetBefore(byId, n, a, b) && a !in keys && b !in keys ensures Precedes(keys', a, b) {
      PathInOrder(byId, n, seen, path, keys, keys', a, b);
    }
  }

  /** Draws what is above `n`: each node found there, once, unless it is drawn already, the nearest first. */
  method ClimbFrom(n: Node, byId: map<Id, Node>, match_: Node -> bool, keys: seq<Id>, out: map<Id, Shown>)
    returns (keys': seq<Id>, out': map<Id, Shown>)
    requires NoDup(keys) && (forall id :: id in keys <==> id in out)
    ensures NoDup(keys') && (forall id :: id in keys' <==> id in out')
    ensures forall id :: id in out' <==> id in out || Upstream(byId, n, id)
    ensures forall id :: id in out ==> out'[id] == out[id]
    ensures forall id :: id in out' && id !in out ==> id in byId && out'[id] == Shown(byId[id], !match_(byId[id]))
    ensures keys <= keys'
    ensures forall a, b :: MetBefore(byId, n, a, b) && a !in keys && b !in keys ==> Precedes(keys', a, b)
  {
    keys', out' := keys, out;
    var p := n.dependsOn;
    var seen: set<Id> := {};
    if p.None? || p.value !in byId { return; }
    ghost var start := p.value;
    ghost var path: seq<Id> := [];
    ClimbStarts(byId, match_, start, keys, out);
    while p.Some? && p.value in byId && p.value !in seen
      invariant seen <= byId.Keys
      invariant Climbing(byId, match_, start, seen, p, path, keys, keys', out, out') == true  // not split
      decreases byId.Keys - seen
    {
      var id := p.value;
      ClimbGoesOn(byId, match_, start, seen, id, path, keys, keys', out, out');
      path := path + [id];
      seen := seen + {id};
      var up := byId[id];
      if id !in out' {
        keys', out' := keys' + [id], out'[id := Shown(up, !match_(up))];
      }
      p := up.dependsOn;
    }
    ClimbDone(n, byId, match_, seen, p, path, keys, keys', out, out');
  }

  lemma WantedMore(nodes: seq<Node>, n: Node, byId: map<Id, Node>, match_: Node -> bool)
    ensures forall id {:trigger Wanted(nodes + [n], byId, match_, id)} ::
      (Wanted(nodes + [n], byId, match_, id)
       <==> Wanted(nodes, byId, match_, id) || (match_(n) && (n.id == id || Upstream(byId, n, id))))
    ensures forall id {:trigger Matching(nodes + [n], match_, id)} ::
      (Matching(nodes + [n], match_, id) <==> Matching(nodes, match_, id) || (match_(n) && n.id == id))
    ensures forall id {:trigger Matching(nodes, match_, id)} :: Matching(nodes, match_, id) ==>
      Wanted(nodes, byId, match_, id)
  {
    var more := nodes + [n];
    assert forall m :: m in more <==> m in nodes || m == n;
  }

  /** The last of the entries with this id that matches. */
  ghost predicate LastMatch(done: seq<Node>, match_: Node -> bool, id: Id, n: Node) {
    exists i :: 0 <= i < |done| && done[i] == n && n.id == id && match_(n) && NoLaterMatch(done, match_, id, i)
  }

  ghost predicate NoLaterMatch(done: seq<Node>, match_: Node -> bool, id: Id, i: int) {
    forall j :: 0 <= i < j < |done| ==> done[j].id != id || !match_(done[j])
  }

  lemma LastMatchMore(done: seq<Node>, match_: Node -> bool, id: Id, m: Node, n: Node)
    ensures LastMatch(done, match_, id, m) && (n.id != id || !match_(n)) ==> LastMatch(done + [n], match_, id, m)
    ensures n.id == id && match_(n) ==> LastMatch(done + [n], match_, id, n)
  {
    var all := done + [n];
    if LastMatch(done, match_, id, m) && (n.id != id || !match_(n)) {
      var i :| 0 <= i < |done| && done[i] == m && NoLaterMatch(done, match_, id, i);
      assert all[i] == m && NoLaterMatch(all, match_, id, i);
    }
    if n.id == id && match_(n) { assert all[|done|] == n && NoLaterMatch(all, match_, id, |done|); }
  }

  /** What is drawn for the entries `done`: their own nodes as matches, the rest as context. */
  ghost predicate DrawnFor(done: seq<Node>, byId: map<Id, Node>, match_: Node -> bool, out: map<Id, Shown>) {
    && (forall id {:trigger id in out} {:trigger Wanted(done, byId, match_, id)} :: id in out <==>
      Wanted(done, byId, match_, id))
    && (forall id {:trigger out[id]} :: id in out ==>
          if Matching(done, match_, id) then !out[id].context && LastMatch(done, match_, id, out[id].node)
          else id in byId && out[id] == Shown(byId[id], !match_(byId[id])))
  }

  lemma DrawnMore(done: seq<Node>, n: Node, byId: map<Id, Node>, match_: Node -> bool, out: map<Id, Shown>,
                  out': map<Id, Shown>)
    requires DrawnFor(done, byId, match_, out) && match_(n)
    requires forall id :: id in out' <==> id in out || id == n.id || Upstream(byId, n, id)
    requires n.id in out' && out'[n.id] == Shown(n, false)
    requires forall id :: id in out && id != n.id ==> out'[id] == out[id]
    requires forall id :: id in out' && id !in out && id != n.id ==>
      id in byId && out'[id] == Shown(byId[id], !match_(byId[id]))
    ensures DrawnFor(done + [n], byId, match_, out')
  {
    WantedMore(done, n, byId, match_);
    forall id | id in out' ensures
      if Matching(done + [n], match_, id) then !out'[id].context && LastMatch(done + [n], match_, id, out'[id].node)
      else id in byId && out'[id] == Shown(byId[id], !match_(byId[id]))
    {
      LastMatchMore(done, match_, id, out'[id].node, n);
      if id != n.id && id in out { assert out'[id] == out[id]; }
    }
  }

  lemma DrawnPast(done: seq<Node>, n: Node, byId: map<Id, Node>, match_: Node -> bool, out: map<Id, Shown>)
    requires DrawnFor(done, byId, match_, out) && !match_(n)
    ensures DrawnFor(done + [n], byId, match_, out)
  {
    WantedMore(done, n, byId, match_);
    forall id | id in out && Matching(done, match_, id) ensures LastMatch(done + [n], match_, id, out[id].node) {
      LastMatchMore(done, match_, id, out[id].node, n);
    }
  }

  /** `n` matches, and is `id` or below it. */
  ghost predicate Draws(byId: map<Id, Node>, match_: Node -> bool, n: Node, id: Id) {
    match_(n) && (n.id == id || Upstream(byId, n, id))
  }

  /** The `i`-th entry is the first for which `id` is drawn. */
  ghost predicate DrawsFirst(nodes: seq<Node>, byId: map<Id, Node>, match_: Node -> bool, i: nat, id: Id) {
    i < |nodes| && Draws(byId, match_, nodes[i], id) && forall j :: 0 <= j < i ==> !Draws(byId, match_, nodes[j], id)
  }

  /** `a` is drawn for an earlier entry than `b`, or for the same one, as that itself or as the nearer above it. */
  ghost predicate DrawnBefore(nodes: seq<Node>, byId: map<Id, Node>, match_: Node -> bool, a: Id, b: Id) {
    exists i: nat, j: nat ::
      DrawsFirst(nodes, byId, match_, i, a) && DrawsFirst(nodes, byId, match_, j, b) &&
      (i < j || (i == j && ComesFirst(byId, nodes[i], a, b)))
  }

  ghost predicate ComesFirst(byId: map<Id, Node>, n: Node, a: Id, b: Id) {
    b != a && b != n.id && (a == n.id || MetBefore(byId, n, a, b))
  }

  ghost predicate InTurn(nodes: seq<Node>, byId: map<Id, Node>, match_: Node -> bool, keys: seq<Id>) {
    forall a, b :: DrawnBefore(nodes, byId, match_, a, b) ==> Precedes(keys, a, b)
  }

  lemma DrawsWanted(done: seq<Node>, byId: map<Id, Node>, match_: Node -> bool, i: nat, id: Id)
    ensures DrawsFirst(done, byId, match_, i, id) ==> Wanted(done, byId, match_, id)
    ensures (forall j :: 0 <= j < |done| ==> !Draws(byId, match_, done[j], id)) ==> !Wanted(done, byId, match_, id)
  {
  }

  lemma DrawsFirstMore(done: seq<Node>, n: Node, byId: map<Id, Node>, match_: Node -> bool, i: nat, id: Id)
    requires DrawsFirst(done + [n], byId, match_, i, id)
    ensures if i < |done| then DrawsFirst(done, byId, match_, i, id) && Wanted(done, byId, match_, id)
      else i == |done| && Draws(byId, match_, n, id) && !Wanted(done, byId, match_, id)
  {
    var all := done + [n];
    assert forall j :: 0 <= j < |done| ==> all[j] == done[j];
    DrawsWanted(done, byId, match_, i, id);
  }

  lemma PrecedesInPrefix(keys: seq<Id>, keys': seq<Id>, a: Id, b: Id)
    requires keys <= keys'
    ensures Precedes(keys, a, b) ==> Precedes(keys', a, b)
    ensures a in keys && b in keys' && b !in keys ==> Precedes(keys', a, b)
  {
    var rest := keys'[|keys|..];
    assert keys' == keys + rest;
    PrecedesAfter(keys, rest, a, b);
  }

  /** One more entry that matches: itself, if it is new, and then what is new above it. */
  lemma InTurnMore(done: seq<Node>, n: Node, byId: map<Id, Node>, match_: Node -> bool, keys: seq<Id>, mid: seq<Id>,
                   keys': seq<Id>)
    requires InTurn(done, byId, match_, keys) && match_(n) && keys <= mid <= keys'
    requires forall id :: id in keys <==> Wanted(done, byId, match_, id)
    requires forall id :: id in mid <==> id in keys || id == n.id
    requires forall id :: id in keys' <==> id in mid || Upstream(byId, n, id)
    requires forall a, b :: MetBefore(byId, n, a, b) && a !in mid && b !in mid ==> Precedes(keys', a, b)
    ensures InTurn(done + [n], byId, match_, keys')
  {
    forall a, b | DrawnBefore(done + [n], byId, match_, a, b) ensures Precedes(keys', a, b) {
      var i: nat, j: nat :|
        DrawsFirst(done + [n], byId, match_, i, a) && DrawsFirst(done + [n], byId, match_, j, b) &&
        (i < j || (i == j && ComesFirst(byId, (done + [n])[i], a, b)));
      DrawsFirstMore(done, n, byId, match_, i, a);
      DrawsFirstMore(done, n, byId, match_, j, b);
      PrecedesInPrefix(keys, keys', a, b);
      PrecedesInPrefix(mid, keys', a, b);
      if j < |done| {
        assert (done + [n])[i] == done[i];
        assert DrawnBefore(done, byId, match_, a, b);
      } else if i == |done| {
        assert (done + [n])[i] == n;
      }
    }
  }

  lemma InTurnPast(done: seq<Node>, n: Node, byId: map<Id, Node>, match_: Node -> bool, keys: seq<Id>)
    requires InTurn(done, byId, match_, keys) && !match_(n)
    ensures InTurn(done + [n], byId, match_, keys)
  {
    forall a, b | DrawnBefore(done + [n], byId, match_, a, b) ensures Precedes(keys, a, b) {
      var i: nat, j: nat :|
        DrawsFirst(done + [n], byId, match_, i, a) && DrawsFirst(done + [n], byId, match_, j, b) &&
        (i < j || (i == j && ComesFirst(byId, (done + [n])[i], a, b)));
      DrawsFirstMore(done, n, byId, match_, i, a);
      DrawsFirstMore(done, n, byId, match_, j, b);
      assert (done + [n])[i] == done[i];
      assert DrawnBefore(done, byId, match_, a, b);
    }
  }

  /**
   * The entries a map draws: those that match and what is above them, in the order of the first entry each is
   * drawn for.
   */
  method MapEntries(nodes: seq<Node>, match_: Node -> bool) returns (keys: seq<Id>, out: map<Id, Shown>)
    ensures NoDup(keys) && (forall id :: id in keys <==> id in out)
    ensures forall id :: id in out <==> Wanted(nodes, ById(nodes), match_, id)
    ensures forall id :: id in out ==> out[id].context == !Matching(nodes, match_, id)
    ensures forall id :: id in out ==> out[id].node in nodes && out[id].node.id == id
    ensures forall id :: id in out ==>
      if Matching(nodes, match_, id) then LastMatch(nodes, match_, id, out[id].node)
      else id in ById(nodes) && out[id].node == ById(nodes)[id]
    ensures InTurn(nodes, ById(nodes), match_, keys)
  {
    var byId := ById(nodes);
    keys, out := [], map[];
    for i := 0 to |nodes|
      invariant NoDup(keys) && (forall id :: id in keys <==> id in out)
      invariant DrawnFor(nodes[..i], byId, match_, out) == true  // not split into its parts
      invariant InTurn(nodes[..i], byId, match_, keys)
    {
      var n := nodes[i];
      TakeMore(nodes, i);
      ghost var before, were := out, keys;
      if match_(n) {
        if n.id !in out { keys := keys + [n.id]; }
        out := out[n.id := Shown(n, false)];
        ghost var mid := keys;
        keys, out := ClimbFrom(n, byId, match_, keys, out);
        DrawnMore(nodes[..i], n, byId, match_, before, out);
        InTurnMore(nodes[..i], n, byId, match_, were, mid, keys);
      } else {
        DrawnPast(nodes[..i], n, byId, match_, out);
        InTurnPast(nodes[..i], n, byId, match_, keys);
      }
    }
    TakeAll(nodes);
    DrawnForAll(nodes, match_, out);
  }

  lemma DrawnForAll(nodes: seq<Node>, match_: Node -> bool, out: map<Id, Shown>)
    requires DrawnFor(nodes, ById(nodes), match_, out)
    ensures forall id :: id in out ==> out[id].context == !Matching(nodes, match_, id)
    ensures forall id :: id in out ==> out[id].node in nodes && out[id].node.id == id
    ensures forall id :: id in out ==>
      if Matching(nodes, match_, id) then LastMatch(nodes, match_, id, out[id].node)
      else id in ById(nodes) && out[id].node == ById(nodes)[id]
  {
    IdsAndNodes(nodes);
    forall id | id in out
      ensures out[id].context == !Matching(nodes, match_, id) && out[id].node in nodes && out[id].node.id == id
    {
      if !Matching(nodes, match_, id) { assert ById(nodes)[id] in nodes; }
    }
  }

  ghost predicate AboveOne(nodes: seq<Node>, byId: map<Id, Node>, match_: Node -> bool, id: Id) {
    exists n :: n in nodes && match_(n) && Upstream(byId, n, id)
  }

  /** Every node a match depends on is in `s`. */
  ghost predicate HoldsStarts(nodes: seq<Node>, byId: map<Id, Node>, match_: Node -> bool, s: set<Id>) {
    forall n :: n in nodes && match_(n) && n.dependsOn.Some? && n.dependsOn.value in byId ==> n.dependsOn.value in s
  }

  lemma AboveFollows(nodes: seq<Node>, byId: map<Id, Node>, match_: Node -> bool, id: Id)
    requires AboveOne(nodes, byId, match_, id) && id in UpLinks(byId)
    ensures AboveOne(nodes, byId, match_, UpLinks(byId)[id])
  {
    var n :| n in nodes && match_(n) && Upstream(byId, n, id);
    OneUp(UpLinks(byId), n.dependsOn.value, id);
    assert Upstream(byId, n, UpLinks(byId)[id]);
  }

  lemma AboveWithin(nodes: seq<Node>, byId: map<Id, Node>, match_: Node -> bool, s: set<Id>, id: Id)
    requires UpClosed(byId, s) && HoldsStarts(nodes, byId, match_, s) && AboveOne(nodes, byId, match_, id)
    ensures id in s
  {
    var n :| n in nodes && match_(n) && Upstream(byId, n, id);
    var m: nat :| Up(UpLinks(byId), n.dependsOn.value, m) == Some(id);
    ClosedHasAll(UpLinks(byId), s, n.dependsOn.value, m);
  }

  /**
   * Whatever the list, ids repeated or not: besides the matches are drawn the nodes of the least set that
   * holds what the matches depend on and is closed under "depends on".
   */
  lemma AboveIsLeast(nodes: seq<Node>, match_: Node -> bool, above: set<Id>, s: set<Id>)
    requires var byId := ById(nodes); forall id :: id in above <==> AboveOne(nodes, byId, match_, id)
    ensures var byId := ById(nodes);
      && (forall id :: Wanted(nodes, byId, match_, id) <==> Matching(nodes, match_, id) || id in above)
      && HoldsStarts(nodes, byId, match_, above) && UpClosed(byId, above)
      && (HoldsStarts(nodes, byId, match_, s) && UpClosed(byId, s) ==> above <= s)
  {
    var byId := ById(nodes);
    forall n | n in nodes && match_(n) && n.dependsOn.Some? && n.dependsOn.value in byId
      ensures n.dependsOn.value in above {
      ReachesSelf(UpLinks(byId), n.dependsOn.value);
      assert Upstream(byId, n, n.dependsOn.value);
    }
    forall id | id in above && id in UpLinks(byId) ensures UpLinks(byId)[id] in above {
      AboveFollows(nodes, byId, match_, id);
    }
    if HoldsStarts(nodes, byId, match_, s) && UpClosed(byId, s) {
      forall id | id in above ensures id in s { AboveWithin(nodes, byId, match_, s, id); }
    }
  }

  /* ---------- Folded clusters ---------- */

  ghost predicate Folded(f: Forest, collapsed: seq<Id>, x: Id) {
    exists c :: c in collapsed && x != c && Reaches(f.parentOf, x, c)
  }

  /** The folded nodes of the map, each once: those of the stored list that have something below them. */
  function FoldedHere(f: Forest, stored: seq<Id>): (here: seq<Id>)
    ensures forall c :: c in here <==> c in stored && c in f.children && f.children[c] != []
  {
    if stored == [] then []
    else
      var before, last := FoldedHere(f, stored[..|stored| - 1]), stored[|stored| - 1];
      assert stored == stored[..|stored| - 1] + [last];
      if last in f.children && f.children[last] != [] && last !in before then before + [last] else before
  }

  /** Hides what is below each folded node, skipping those already hidden. */
  method HiddenBy(f: Forest, collapsed: seq<Id>) returns (hidden: set<Id>)
    ensures forall x :: x in hidden <==> x in f.byId && Folded(f, collapsed, x)
  {
    hidden := {};
    for i := 0 to |collapsed|
      invariant forall x :: x in hidden <==> x in f.byId && Folded(f, collapsed[..i], x)
    {
      TakeMore(collapsed, i);
      FoldedMore(f, collapsed[..i], collapsed[i]);
      if collapsed[i] !in hidden {
        var below := DescendantsOf(f, collapsed[i]);
        hidden := hidden + Elements(below);
      }
    }
    TakeAll(collapsed);
  }

  /** What is below a hidden node is hidden already. */
  lemma FoldedMore(f: Forest, collapsed: seq<Id>, c: Id)
    ensures forall x {:trigger Folded(f, collapsed + [c], x)} ::
      (Folded(f, collapsed + [c], x) <==> Folded(f, collapsed, x) || (x != c && Reaches(f.parentOf, x, c)))
    ensures Folded(f, collapsed, c) && c in f.byId ==>
      forall x {:trigger Folded(f, collapsed + [c], x)} :: Folded(f, collapsed + [c], x) ==> Folded(f, collapsed, x)
  {
    assert forall k :: k in collapsed + [c] <==> k in collapsed || k == c;
    if Folded(f, collapsed, c) && c in f.byId {
      var k :| k in collapsed && c != k && Reaches(f.parentOf, c, k);
      forall x | x != c && Reaches(f.parentOf, x, c) ensures Folded(f, collapsed, x) {
        ReachesTrans(f.parentOf, x, c, k);
        OutsideGrounded(f, x);
        ReachesDistance(f.parentOf, x, c);
        ReachesDistance(f.parentOf, c, k);
      }
    }
  }

  /** Nothing is hidden above what is shown. */
  lemma ShownAbove(f: Forest, collapsed: seq<Id>, x: Id)
    requires x in f.parentOf
    ensures Folded(f, collapsed, x) <==> f.parentOf[x] in collapsed || Folded(f, collapsed, f.parentOf[x])
  {
    var p := f.parentOf[x];
    assert x in f.byId && p in f.byId && Grounded(f.parentOf, x);
    DepthStep(f.parentOf, x);
    if Folded(f, collapsed, x) {
      var c :| c in collapsed && x != c && Reaches(f.parentOf, x, c);
      ReachesParent(f.parentOf, x, c);
    }
    if p in collapsed { ReachesSelf(f.parentOf, p); ReachesParent(f.parentOf, x, p); }
    if Folded(f, collapsed, p) {
      var c :| c in collapsed && p != c && Reaches(f.parentOf, p, c);
      ReachesParent(f.parentOf, x, c);
      ReachesDistance(f.parentOf, p, c);
    }
  }

  function NotIn(hidden: set<Id>): Id -> bool { id => id !in hidden }

  /** The nodes that are not folded away. */
  function Visible(nodes: seq<Node>, hidden: set<Id>): seq<Node> {
    if nodes == [] then []
    else
      var rest := Visible(nodes[..|nodes| - 1], hidden);
      if nodes[|nodes| - 1].id in hidden then rest else rest + [nodes[|nodes| - 1]]
  }

  lemma VisibleMore(before: seq<Node>, last: Node, hidden: set<Id>)
    ensures Visible(before + [last], hidden) == if last.id in hidden then Visible(before, hidden)
      else Visible(before, hidden) + [last]
  {
    var all := before + [last];
    assert all[..|all| - 1] == before;
  }

  lemma {:induction false} IdsOfVisible(nodes: seq<Node>, hidden: set<Id>)
    ensures IdsOf(Visible(nodes, hidden)) == Filter(IdsOf(nodes), NotIn(hidden))
  {
    if nodes != [] {
      var before, last := nodes[..|nodes| - 1], nodes[|nodes| - 1];
      assert nodes == before + [last];
      IdsOfVisible(before, hidden);
      VisibleMore(before, last, hidden);
      IdsOfSnoc(before, last);
      IdsOfSnoc(Visible(before, hidden), last);
      FilterMore(IdsOf(before), last.id, hidden);
    }
  }

  lemma FilterMore(ids: seq<Id>, id: Id, hidden: set<Id>)
    ensures Filter(ids + [id], NotIn(hidden)) == if id in hidden then Filter(ids, NotIn(hidden))
      else Filter(ids, NotIn(hidden)) + [id]
  {
    FilterSnoc(ids, id, NotIn(hidden));
  }

  lemma {:induction false} ByIdVisible(nodes: seq<Node>, hidden: set<Id>)
    ensures ById(Visible(nodes, hidden)) == ById(nodes) - hidden
  {
    if nodes != [] {
      var before, last := nodes[..|nodes| - 1], nodes[|nodes| - 1];
      assert nodes == before + [last];
      ByIdVisible(before, hidden);
      VisibleMore(before, last, hidden);
      IdsOfSnoc(before, last);
      IdsOfSnoc(Visible(before, hidden), last);
      UpdateLess(ById(before), last, hidden);
    }
  }

  lemma UpdateLess(m: map<Id, Node>, n: Node, hidden: set<Id>)
    ensures m[n.id := n] - hidden == if n.id in hidden then m - hidden else (m - hidden)[n.id := n]
  {
  }

  /** `g` is the part of `f` that is not folded away, with the folded clusters empty. */
  ghost predicate IsFolding(f: Forest, g: Forest, collapsed: seq<Id>) {
    && (forall id {:trigger id in g.byId} :: id in g.byId <==> id in f.byId && !Folded(f, collapsed, id))
    && (forall id {:trigger g.byId[id]} :: id in g.byId ==> g.byId[id] == f.byId[id])
    && (forall id {:trigger id in g.parentOf} :: id in g.parentOf <==> id in f.parentOf && id in g.byId)
    && (forall id {:trigger g.parentOf[id]} :: id in g.parentOf ==> g.parentOf[id] == f.parentOf[id])
    && (forall p {:trigger g.children[p]} :: p in g.byId ==>
      g.children[p] == if p in collapsed then [] else f.children[p])
    && g.roots == f.roots
  }

  /**
   * The forest of what stays visible is the forest with those clusters folded exactly when every loop that
   * is visible whole is entered, by the first visible node that leads to it, where it was entered before.
   */
  lemma FoldingRestricts(f: Forest, g: Forest, nodes: seq<Node>, collapsed: seq<Id>, hidden: set<Id>,
                         collate: Comparator<string>)
    requires BuiltFrom(f, nodes, collate) && BuiltFrom(g, Visible(nodes, hidden), collate)
    requires forall x :: x in hidden <==> x in f.byId && Folded(f, collapsed, x)
    ensures IsFolding(f, g, collapsed) <==> ClosesAlike(f, Filter(f.keys, NotIn(hidden)), Links(f.byId), hidden)
  {
    IdsOfVisible(nodes, hidden);
    ByIdVisible(nodes, hidden);
    assert g.byId == f.byId - hidden && g.keys == Filter(f.keys, NotIn(hidden));
    VisiblePart(f, g, collapsed, hidden);
    DropsAgree(f, g, hidden, Links(f.byId), Links(g.byId));
    if DropAlike(f, g, Links(g.byId)) { DropsRestrict(f, g, collapsed, hidden, collate); }
    if IsFolding(f, g, collapsed) { RestrictsDrops(f, g, collapsed, hidden); }
  }

  lemma FoldedHangBelow(f: Forest, collapsed: seq<Id>, hidden: set<Id>)
    requires forall x :: x in hidden <==> x in f.byId && Folded(f, collapsed, x)
    ensures HiddenBelow(f, hidden)
  {
    forall x | x in hidden ensures x in f.parentOf {
      var c :| c in collapsed && x != c && Reaches(f.parentOf, x, c);
      ReachesParent(f.parentOf, x, c);
    }
    forall x | x in f.parentOf && f.parentOf[x] in hidden ensures x in hidden {
      ShownAbove(f, collapsed, x);
      assert x in f.byId;
    }
  }

  lemma VisibleLinks(all: map<Id, Node>, shown: map<Id, Node>, hidden: set<Id>)
    requires shown == all - hidden
    ensures forall x :: x in Links(shown) <==> x in Links(all) && x !in hidden && Links(all)[x] !in hidden
    ensures SubLinks(Links(shown), Links(all))
    ensures forall x :: x in Links(all) ==> x in all && Links(all)[x] in all
  {
    forall x ensures Linked(shown, x) <==> Linked(all, x) && x !in hidden && all[x].dependsOn.value !in hidden {
    }
  }

  lemma VisiblePart(f: Forest, g: Forest, collapsed: seq<Id>, hidden: set<Id>)
    requires g.byId == f.byId - hidden && forall x :: x in hidden <==> x in f.byId && Folded(f, collapsed, x)
    requires OneLinkPerLoop(Links(f.byId), f.parentOf, f.cycles) && OneLinkPerLoop(Links(g.byId), g.parentOf, g.cycles)
    requires DroppedWhereClosed(g.keys, Links(g.byId), g.cycles)
    ensures IsPart(f, g, hidden, Links(f.byId), Links(g.byId))
  {
    FoldedHangBelow(f, collapsed, hidden);
    VisibleLinks(f.byId, g.byId, hidden);
  }

  lemma DropsRestrict(f: Forest, g: Forest, collapsed: seq<Id>, hidden: set<Id>, collate: Comparator<string>)
    requires IsPart(f, g, hidden, Links(f.byId), Links(g.byId)) && DropAlike(f, g, Links(g.byId))
    requires g.keys == Filter(f.keys, NotIn(hidden)) && forall x :: x in hidden <==>
      x in f.byId && Folded(f, collapsed, x)
    requires forall p :: p in f.byId ==> f.children[p] == ChildList(f.keys, f.parentOf, p, ByName(f.byId, collate))
    requires forall p :: p in g.byId ==> g.children[p] == ChildList(g.keys, g.parentOf, p, ByName(g.byId, collate))
    requires f.roots == RootList(f.keys, f.parentOf, ByName(f.byId, collate))
    requires g.roots == RootList(g.keys, g.parentOf, ByName(g.byId, collate))
    ensures IsFolding(f, g, collapsed)
  {
    ParentsRestrict(f, g, hidden, Links(f.byId), Links(g.byId));
    forall p | p in g.byId ensures g.children[p] == if p in collapsed then [] else f.children[p] {
      ChildrenRestrict(f, g, collapsed, hidden, collate, p);
    }
    RootsRestrict(f, g, collapsed, hidden, collate);
  }

  lemma RestrictsDrops(f: Forest, g: Forest, collapsed: seq<Id>, hidden: set<Id>)
    requires IsPart(f, g, hidden, Links(f.byId), Links(g.byId)) && IsFolding(f, g, collapsed)
    ensures DropAlike(f, g, Links(g.byId))
  {
    forall x | x in Links(g.byId) ensures x in g.cycles <==> x in f.cycles {
      assert x in Links(f.byId) && x in g.byId;
      assert x in g.parentOf <==> x in f.parentOf;
    }
  }

  lemma ParentsRestrict(f: Forest, g: Forest, hidden: set<Id>, all: map<Id, Id>, shown: map<Id, Id>)
    requires IsPart(f, g, hidden, all, shown) && DropAlike(f, g, shown)
    ensures forall id :: id in g.parentOf <==> id in f.parentOf && id in g.byId
    ensures forall id :: id in g.parentOf ==> g.parentOf[id] == f.parentOf[id]
  {
    forall id | id in f.parentOf && id in g.byId ensures id in g.parentOf {
      assert id in shown && id !in f.cycles;
    }
    forall id | id in g.parentOf ensures id in f.parentOf && id in g.byId && g.parentOf[id] == f.parentOf[id] {
      assert id in shown && id !in g.cycles;
    }
  }

  lemma ChildrenRestrict(f: Forest, g: Forest, collapsed: seq<Id>, hidden: set<Id>, collate: Comparator<string>, p: Id)
    requires g.byId == f.byId - hidden && g.keys == Filter(f.keys, NotIn(hidden))
    requires forall x :: x in hidden <==> x in f.byId && Folded(f, collapsed, x)
    requires forall id :: id in g.parentOf <==> id in f.parentOf && id in g.byId
    requires forall id :: id in g.parentOf ==> g.parentOf[id] == f.parentOf[id]
    requires p in g.byId && f.children[p] == ChildList(f.keys, f.parentOf, p, ByName(f.byId, collate))
    requires g.children[p] == ChildList(g.keys, g.parentOf, p, ByName(g.byId, collate))
    ensures g.children[p] == if p in collapsed then [] else f.children[p]
  {
    if p in collapsed {
      forall c ensures c !in g.children[p] {
        if c in g.children[p] { ShownAbove(f, collapsed, c); }
      }
      EmptyOrNot(g.children[p]);
    } else {
      forall id | id in f.keys
        ensures (NotIn(hidden)(id) && ChildOf(g.parentOf, p)(id)) == ChildOf(f.parentOf, p)(id)
      {
        if HangsFrom(f.parentOf, p, id) { ShownAbove(f, collapsed, id); }
      }
      FilterTwice(f.keys, NotIn(hidden), ChildOf(g.parentOf, p), ChildOf(f.parentOf, p));
      SortAgrees(f, g, Filter(f.keys, ChildOf(f.parentOf, p)), collate);
    }
  }

  lemma RootsRestrict(f: Forest, g: Forest, collapsed: seq<Id>, hidden: set<Id>, collate: Comparator<string>)
    requires g.byId == f.byId - hidden && g.keys == Filter(f.keys, NotIn(hidden))
    requires forall x :: x in hidden <==> x in f.byId && Folded(f, collapsed, x)
    requires forall id :: id in g.parentOf <==> id in f.parentOf && id in g.byId
    requires f.roots == RootList(f.keys, f.parentOf, ByName(f.byId, collate))
    requires g.roots == RootList(g.keys, g.parentOf, ByName(g.byId, collate))
    ensures g.roots == f.roots
  {
    forall id | id in f.keys ensures (NotIn(hidden)(id) && TopOf(g.parentOf)(id)) == TopOf(f.parentOf)(id) {
      if id !in f.parentOf && Folded(f, collapsed, id) {
        var c :| c in collapsed && id != c && Reaches(f.parentOf, id, c);
        ReachesParent(f.parentOf, id, c);
      }
    }
    FilterTwice(f.keys, NotIn(hidden), TopOf(g.parentOf), TopOf(f.parentOf));
    SortAgrees(f, g, Filter(f.keys, TopOf(f.parentOf)), collate);
  }

  /** Names are what they were, so what is visible sorts as it did. */
  lemma SortAgrees(f: Forest, g: Forest, s: seq<Id>, collate: Comparator<string>)
    requires forall id :: id in s ==> id in f.byId && id in g.byId && f.byId[id] == g.byId[id]
    ensures SortBy(s, ByName(f.byId, collate)) == SortBy(s, ByName(g.byId, collate))
  {
    assert forall id :: id in s ==> NameOf(f.byId, id) == NameOf(g.byId, id);
    SortCongruent(s, ByName(f.byId, collate), ByName(g.byId, collate));
  }

  lemma LoopFreeFolds(f: Forest, keys: seq<Id>, hidden: set<Id>)
    requires OneLinkPerLoop(Links(f.byId), f.parentOf, f.cycles) && forall x :: !OnLoop(Links(f.byId), x)
    ensures ClosesAlike(f, keys, Links(f.byId), hidden)
  {
    LoopFreeLosesNothing(f, Links(f.byId));
  }

  /** The forest of every entry, what is folded away, and the forest that is drawn. */
  method DrawnForest(nodes: seq<Node>, stored: seq<Id>, collate: Comparator<string>)
    returns (all: Forest, hidden: set<Id>, drawn: Forest)
    ensures BuiltFrom(all, nodes, collate) && BuiltFrom(drawn, Visible(nodes, hidden), collate)
    ensures forall x :: x in hidden <==> x in all.byId && Folded(all, FoldedHere(all, stored), x)
    ensures IsFolding(all, drawn, FoldedHere(all, stored))
      <==> ClosesAlike(all, Filter(all.keys, NotIn(hidden)), Links(all.byId), hidden)
    ensures (forall x :: !OnLoop(Links(all.byId), x)) ==> IsFolding(all, drawn, FoldedHere(all, stored))
  {
    all := BuildForest(nodes, collate);
    hidden := HiddenBy(all, FoldedHere(all, stored));
    drawn := BuildForest(Visible(nodes, hidden), collate);
    FoldingRestricts(all, drawn, nodes, FoldedHere(all, stored), hidden, collate);
    if forall x :: !OnLoop(Links(all.byId), x) { LoopFreeFolds(all, Filter(all.keys, NotIn(hidden)), hidden); }
  }

  /**
   * Two nodes that depend on each other, and a third that is met first and leads into the second of them:
   * folding that one away moves the root to the other.
   */
  lemma FoldingMovesRoot(f: Forest, g: Forest, x: Node, b: Node, a: Node, collate: Comparator<string>)
    requires x.id != a.id && x.id != b.id && a.id != b.id
    requires x.dependsOn == Some(a.id) && b.dependsOn == Some(a.id) && a.dependsOn == Some(b.id)
    requires BuiltFrom(f, [x, b, a], collate) && BuiltFrom(g, Visible([x, b, a], {x.id}), collate)
    ensures forall y :: Folded(f, [a.id], y) <==> y == x.id
    ensures !ClosesAlike(f, Filter(f.keys, NotIn({x.id})), Links(f.byId), {x.id})
    ensures b.id in f.roots && a.id !in f.roots && a.id in g.roots && b.id !in g.roots
  {
    ThreeNodes(x, b, a);
    ThreeLinks(f.byId, x, b, a);
    ThreeLoseOne(f, Links(f.byId), x.id, b.id, a.id);
    OnlyFirstFolded(f, x.id, b.id, a.id);
    FilterThree(x.id, b.id, a.id);
    MetElsewhere(Links(f.byId), x.id, b.id, a.id);
    assert b.id in f.cycles;
    TwoVisible(x, b, a);
    RootAmong(f, b.id, a.id);
    RootOfTwo(g, b, a, collate);
  }

  lemma RootAmong(f: Forest, root: Id, k: Id)
    requires root in f.byId && root !in f.parentOf && k in f.parentOf
    ensures root in f.roots && k !in f.roots
  {
  }

  lemma RootOfTwo(g: Forest, b: Node, a: Node, collate: Comparator<string>)
    requires b.id != a.id && b.dependsOn == Some(a.id) && a.dependsOn == Some(b.id) && BuiltFrom(g, [b, a], collate)
    ensures a.id in g.roots && b.id !in g.roots
  {
    TwoNodeLoop(g, b, a, collate);
    TwoNodes(b, a);
    RootAmong(g, a.id, b.id);
  }

  lemma TwoVisible(x: Node, b: Node, a: Node)
    requires x.id != a.id && x.id != b.id
    ensures Visible([x, b, a], {x.id}) == [b, a]
  {
    VisibleMore([x, b], a, {x.id});
    VisibleMore([x], b, {x.id});
    VisibleMore([], x, {x.id});
    assert [x, b] + [a] == [x, b, a] && [x] + [b] == [x, b] && [] + [x] == [x];
  }

  lemma ThreeNodes(x: Node, b: Node, a: Node)
    requires x.id != a.id && x.id != b.id && a.id != b.id
    ensures IdsOf([x, b, a]) == [x.id, b.id, a.id]
    ensures ById([x, b, a]) == map[x.id := x, b.id := b, a.id := a]
  {
    TwoNodes(x, b);
    assert [x, b, a] == [x, b] + [a];
    IdsOfSnoc([x, b], a);
  }

  lemma ThreeLinks(byId: map<Id, Node>, x: Node, b: Node, a: Node)
    requires x.id != a.id && x.id != b.id && a.id != b.id
    requires x.dependsOn == Some(a.id) && b.dependsOn == Some(a.id) && a.dependsOn == Some(b.id)
    requires byId == map[x.id := x, b.id := b, a.id := a]
    ensures Links(byId) == map[x.id := a.id, b.id := a.id, a.id := b.id]
  {
    assert Linked(byId, x.id) && Linked(byId, b.id) && Linked(byId, a.id);
  }

  lemma ThreeMet(links: map<Id, Id>, x: Id, b: Id, a: Id, e: Id)
    requires x != a && x != b && a != b && links == map[x := a, b := a, a := b]
    requires e in links && OnLoop(links, e) && ClosesAt([x, b, a], links, e)
    ensures e == b
  {
    var keys := [x, b, a];
    var n: nat :| n > 0 && Up(links, e, n) == Some(e);
    UpStep(links, e, n - 1);
    PairIsLoop(links, a, b);
    PairIsLoop(links, b, a);
    ReachesParent(links, x, e);
    var i :| 0 <= i < |keys| && NoneReach(keys, links, i, e) && FirstOnLoop(links, keys[i], links[e]);
    assert Reaches(links, keys[0], e);
    assert i == 0;
    assert Up(links, a, 0) == Some(a);
    assert Up(links, x, 1) == Some(a) && Up(links, x, 0) == Some(x);
  }

  lemma ThreeLoseOne(f: Forest, links: map<Id, Id>, x: Id, b: Id, a: Id)
    requires x != a && x != b && a != b && links == map[x := a, b := a, a := b] && f.keys == [x, b, a]
    requires OneLinkPerLoop(links, f.parentOf, f.cycles) && DroppedWhereClosed(f.keys, links, f.cycles)
    ensures b in f.cycles && f.parentOf == map[x := a, a := b]
  {
    PairIsLoop(links, a, b);
    assert a in f.keys;
    var d := EachLoopLosesOneLink(f, links, a);
    forall e | e in f.cycles ensures e == b { ThreeMet(links, x, b, a, e); }
    assert x !in f.cycles && a !in f.cycles;
  }

  lemma OnlyFirstFolded(f: Forest, x: Id, b: Id, a: Id)
    requires x != a && x != b && a != b && f.parentOf == map[x := a, a := b]
    ensures forall y :: Folded(f, [a], y) <==> y == x
  {
    forall y ensures Folded(f, [a], y) <==> y == x {
      ReachesParent(f.parentOf, y, a);
      ReachesParent(f.parentOf, b, a);
      ReachesSelf(f.parentOf, a);
      assert [a][0] == a;
    }
  }

  lemma FilterThree(x: Id, b: Id, a: Id)
    requires x != a && x != b && a != b
    ensures Filter([x, b, a], NotIn({x})) == [b, a]
  {
    FilterMore([x, b], a, {x});
    FilterMore([x], b, {x});
    FilterMore([], x, {x});
    assert [x, b] + [a] == [x, b, a] && [x] + [b] == [x, b] && [] + [x] == [x];
  }

  lemma MetElsewhere(links: map<Id, Id>, x: Id, b: Id, a: Id)
    requires a != b && x != a && x != b && links == map[x := a, b := a, a := b]
    ensures !FirstMet([b, a], links, b, a)
  {
    PairIsLoop(links, b, a);
    if FirstMet([b, a], links, b, a) {
      var keys := [b, a];
      var i :| 0 <= i < |keys| && NoneReach(keys, links, i, b) && FirstOnLoop(links, keys[i], a);
      assert Reaches(links, keys[0], b);
      FirstIsItself(links, b, a);
    }
  }

  /* ---------- Folding and unfolding ---------- */

  /** Adds `id` to the folded list, or takes it out; without a wish, the other way round from now. */
  function ToggleFolded(collapsed: seq<Id>, id: Id, fold: Option<bool>): (r: seq<Id>)
    ensures id in r <==> if fold.Some? then fold.value else id !in collapsed
    ensures forall x :: x != id ==> (x in r <==> x in collapsed)
  {
    var want := if fold.Some? then fold.value else id !in collapsed;
    if want then if id in collapsed then collapsed else collapsed + [id]
    else Filter(collapsed, x => x != id)
  }

  /**
   * Toggling twice folds the same nodes as before. The list itself is as before from an unfolded node, and
   * from a folded one if that is the list's last; elsewhere it goes to the end.
   */
  lemma ToggleTwice(collapsed: seq<Id>, id: Id)
    ensures var twice := ToggleFolded(ToggleFolded(collapsed, id, None), id, None);
      && (forall x :: x in twice <==> x in collapsed)
      && (twice == collapsed <==> id !in collapsed || LastOnly(collapsed, id))
  {
    if id !in collapsed {
      FilterSnoc(collapsed, id, x => x != id);
      FilterAllOrNone(collapsed, x => x != id);
    } else {
      var once := ToggleFolded(collapsed, id, None);
      assert ToggleFolded(once, id, None) == once + [id];
      if LastOnly(collapsed, id) {
        var before := collapsed[..|collapsed| - 1];
        assert collapsed == before + [id];
        UnfoldLast(before, id);
      }
      LastIs(once, id);
    }
  }

  lemma UnfoldLast(before: seq<Id>, id: Id)
    requires id !in before
    ensures Filter(before + [id], x => x != id) == before
  {
    FilterSnoc(before, id, x => x != id);
    FilterAllOrNone(before, x => x != id);
  }

  lemma LastIs(once: seq<Id>, id: Id)
    requires id !in once
    ensures LastOnly(once + [id], id)
  {
    assert (once + [id])[..|once|] == once;
  }

  ghost predicate LastOnly(collapsed: seq<Id>, id: Id) {
    collapsed != [] && collapsed[|collapsed| - 1] == id && id !in collapsed[..|collapsed| - 1]
  }
}
