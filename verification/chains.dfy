/** Chains of "depends on" links: a partial map from a node to the node above it. */
module Chains {
  import opened Wrappers

  /** Node ids, as the map compares them: by their text. */
  datatype Id = Id(text: string)

  /** The node `n` links above `id`, if the chain is that long. */
  ghost function Up(parent: map<Id, Id>, id: Id, n: nat): Option<Id>
    decreases n
  {
    if n == 0 then Some(id)
    else if id in parent then Up(parent, parent[id], n - 1)
    else None
  }

  /** The chain above `id` comes to an end. */
  ghost predicate Grounded(parent: map<Id, Id>, id: Id) {
    exists n: nat :: Up(parent, id, n) == None
  }

  ghost predicate Reaches(parent: map<Id, Id>, id: Id, above: Id) {
    exists n: nat :: Up(parent, id, n) == Some(above)
  }

  ghost predicate OnLoop(parent: map<Id, Id>, id: Id) {
    exists n: nat :: n > 0 && Up(parent, id, n) == Some(id)
  }

  /** Two nodes of the same loop reach each other. */
  ghost predicate SameLoop(parent: map<Id, Id>, x: Id, y: Id) {
    OnLoop(parent, x) && OnLoop(parent, y) && Reaches(parent, x, y)
  }

  ghost predicate SubLinks(small: map<Id, Id>, big: map<Id, Id>) {
    forall x :: x in small ==> x in big && big[x] == small[x]
  }

  lemma {:induction false} UpAdd(parent: map<Id, Id>, id: Id, m: nat, n: nat)
    ensures Up(parent, id, m + n)
         == (if Up(parent, id, m).Some? then Up(parent, Up(parent, id, m).value, n) else None)
    decreases m
  {
    if m > 0 && id in parent { UpAdd(parent, parent[id], m - 1, n); }
  }

  lemma UpStep(parent: map<Id, Id>, id: Id, n: nat)
    ensures Up(parent, id, n + 1)
         == (if Up(parent, id, n).Some? && Up(parent, id, n).value in parent
             then Some(parent[Up(parent, id, n).value]) else None)
  {
    UpAdd(parent, id, n, 1);
    if Up(parent, id, n).Some? {
      var x := Up(parent, id, n).value;
      if x in parent { assert Up(parent, parent[x], 0) == Some(parent[x]); }
    }
  }

  lemma {:induction false} UpEnded(parent: map<Id, Id>, id: Id, m: nat, n: nat)
    requires m <= n && Up(parent, id, m) == None
    ensures Up(parent, id, n) == None
  {
    UpAdd(parent, id, m, n - m);
  }

  lemma {:induction false} UpWithin(small: map<Id, Id>, big: map<Id, Id>, id: Id, n: nat)
    requires SubLinks(small, big) && Up(small, id, n).Some?
    ensures Up(big, id, n) == Up(small, id, n)
    decreases n
  {
    if n > 0 { UpWithin(small, big, small[id], n - 1); }
  }

  lemma ReachesTrans(parent: map<Id, Id>, x: Id, y: Id, z: Id)
    requires Reaches(parent, x, y) && Reaches(parent, y, z)
    ensures Reaches(parent, x, z)
  {
    var m: nat :| Up(parent, x, m) == Some(y);
    var n: nat :| Up(parent, y, n) == Some(z);
    UpAdd(parent, x, m, n);
  }

  lemma ReachesSelf(parent: map<Id, Id>, x: Id)
    ensures Reaches(parent, x, x)
  {
    assert Up(parent, x, 0) == Some(x);
  }

  lemma ReachesParent(parent: map<Id, Id>, x: Id, z: Id)
    ensures Reaches(parent, x, z) <==> x == z || (x in parent && Reaches(parent, parent[x], z))
  {
    ReachesSelf(parent, x);
    if Reaches(parent, x, z) {
      var n: nat :| Up(parent, x, n) == Some(z);
      if n > 0 { assert Up(parent, parent[x], n - 1) == Some(z); }
    }
    if x in parent && Reaches(parent, parent[x], z) {
      var n: nat :| Up(parent, parent[x], n) == Some(z);
      assert Up(parent, x, n + 1) == Some(z);
    }
  }

  /** Removing links never makes a chain endless. */
  lemma GroundedWithin(small: map<Id, Id>, big: map<Id, Id>, id: Id)
    requires SubLinks(small, big) && Grounded(big, id)
    ensures Grounded(small, id)
  {
    var n: nat :| Up(big, id, n) == None;
    if Up(small, id, n).Some? { UpWithin(small, big, id, n); }
  }

  lemma GroundedParent(parent: map<Id, Id>, id: Id)
    requires id in parent
    ensures Grounded(parent, id) <==> Grounded(parent, parent[id])
  {
    if Grounded(parent, id) {
      var n: nat :| Up(parent, id, n) == None;
      assert Up(parent, parent[id], n - 1) == None;
    }
    if Grounded(parent, parent[id]) {
      var n: nat :| Up(parent, parent[id], n) == None;
      assert Up(parent, id, n + 1) == None;
    }
  }

  lemma GroundedUp(parent: map<Id, Id>, id: Id, above: Id)
    requires Grounded(parent, id) && Reaches(parent, id, above)
    ensures Grounded(parent, above)
  {
    var n: nat :| Up(parent, id, n) == None;
    var m: nat :| Up(parent, id, m) == Some(above);
    if n <= m { UpEnded(parent, id, n, m); }
    UpAdd(parent, id, m, n - m);
  }

  /* ---------- Loops ---------- */

  lemma {:induction false} LoopRepeats(parent: map<Id, Id>, id: Id, n: nat, k: nat)
    requires Up(parent, id, n) == Some(id)
    ensures Up(parent, id, k * n) == Some(id)
  {
    if k > 0 {
      LoopRepeats(parent, id, n, k - 1);
      UpAdd(parent, id, (k - 1) * n, n);
      assert (k - 1) * n + n == k * n;
    }
  }

  /** A chain that has come round once never ends. */
  lemma LoopEndless(parent: map<Id, Id>, id: Id, k: nat)
    requires OnLoop(parent, id)
    ensures Up(parent, id, k).Some?
    ensures OnLoop(parent, Up(parent, id, k).value)
    ensures Reaches(parent, Up(parent, id, k).value, id)
  {
    var n: nat :| n > 0 && Up(parent, id, n) == Some(id);
    LoopRepeats(parent, id, n, k);
    assert k * n >= k by { assert k * n == k + k * (n - 1); }
    if Up(parent, id, k) == None { UpEnded(parent, id, k, k * n); }
    var y := Up(parent, id, k).value;
    UpAdd(parent, id, k, k * n - k);
    assert Up(parent, y, k * n - k) == Some(id);
    UpAdd(parent, id, n, k);
    UpAdd(parent, id, k, n);
    assert Up(parent, y, n) == Some(y);
  }

  lemma LoopNotGrounded(parent: map<Id, Id>, id: Id)
    requires OnLoop(parent, id)
    ensures !Grounded(parent, id)
  {
    if Grounded(parent, id) {
      var n: nat :| Up(parent, id, n) == None;
      LoopEndless(parent, id, n);
    }
  }

  lemma LoopWithin(small: map<Id, Id>, big: map<Id, Id>, id: Id)
    requires SubLinks(small, big) && OnLoop(small, id)
    ensures OnLoop(big, id)
  {
    var n: nat :| n > 0 && Up(small, id, n) == Some(id);
    UpWithin(small, big, id, n);
  }

  lemma ReachesOnLoop(parent: map<Id, Id>, x: Id, y: Id)
    requires OnLoop(parent, x) && Reaches(parent, x, y)
    ensures OnLoop(parent, y) && Reaches(parent, y, x)
  {
    var n: nat :| Up(parent, x, n) == Some(y);
    LoopEndless(parent, x, n);
  }

  /** A loop that is whole in `small` holds no link that `small` has lost. */
  lemma LoopIntact(small: map<Id, Id>, big: map<Id, Id>, x: Id, y: Id)
    requires SubLinks(small, big) && OnLoop(small, x) && Reaches(big, x, y)
    ensures y in small && Reaches(small, x, y) && OnLoop(small, y)
  {
    var n: nat :| Up(big, x, n) == Some(y);
    LoopEndless(small, x, n);
    UpWithin(small, big, x, n);
    LoopEndless(small, x, n + 1);
    UpStep(small, x, n);
  }

  /* ---------- Depth ---------- */

  ghost function DepthWithin(parent: map<Id, Id>, id: Id, n: nat): nat
    requires Up(parent, id, n) == None
    decreases n
  {
    if id in parent then 1 + DepthWithin(parent, parent[id], n - 1) else 0
  }

  lemma {:induction false} DepthWithinSame(parent: map<Id, Id>, id: Id, m: nat, n: nat)
    requires Up(parent, id, m) == None && Up(parent, id, n) == None
    ensures DepthWithin(parent, id, m) == DepthWithin(parent, id, n)
    decreases m
  {
    if id in parent { DepthWithinSame(parent, parent[id], m - 1, n - 1); }
  }

  /** How many nodes are above `id`. */
  ghost function Depth(parent: map<Id, Id>, id: Id): nat
    requires Grounded(parent, id)
  {
    var n: nat :| Up(parent, id, n) == None;
    DepthWithin(parent, id, n)
  }

  lemma DepthStep(parent: map<Id, Id>, id: Id)
    requires Grounded(parent, id)
    ensures id in parent ==> Grounded(parent, parent[id]) && Depth(parent, id) == 1 + Depth(parent, parent[id])
    ensures id !in parent ==> Depth(parent, id) == 0
  {
    var n: nat :| Up(parent, id, n) == None;
    DepthIs(parent, id, n);
    if id in parent {
      GroundedParent(parent, id);
      DepthIs(parent, parent[id], n - 1);
    }
  }

  lemma DepthIs(parent: map<Id, Id>, id: Id, n: nat)
    requires Up(parent, id, n) == None
    ensures Grounded(parent, id)
    ensures Depth(parent, id) == DepthWithin(parent, id, n)
  {
    var m: nat :| Up(parent, id, m) == None && Depth(parent, id) == DepthWithin(parent, id, m);
    DepthWithinSame(parent, id, m, n);
  }

  /** Where a chain is after `n` links tells how deep it started. */
  lemma {:induction false} DepthUp(parent: map<Id, Id>, id: Id, n: nat)
    requires Grounded(parent, id)
    ensures Up(parent, id, n).Some? <==> n <= Depth(parent, id)
    ensures Up(parent, id, n).Some?
            ==> (Grounded(parent, Up(parent, id, n).value)
                 && Depth(parent, Up(parent, id, n).value) == Depth(parent, id) - n)
    decreases n
  {
    DepthStep(parent, id);
    if n > 0 && id in parent { DepthUp(parent, parent[id], n - 1); }
  }

  /** Without loops a node reaches another at one distance only. */
  lemma ReachesDistance(parent: map<Id, Id>, x: Id, y: Id)
    requires Grounded(parent, x) && Reaches(parent, x, y)
    ensures Grounded(parent, y) && Depth(parent, y) <= Depth(parent, x)
    ensures Up(parent, x, Depth(parent, x) - Depth(parent, y)) == Some(y)
    ensures Depth(parent, x) == Depth(parent, y) ==> x == y
  {
    var n: nat :| Up(parent, x, n) == Some(y);
    DepthUp(parent, x, n);
  }

  /** Of two nodes above `x`, one is above the other. */
  lemma ReachesLinear(parent: map<Id, Id>, x: Id, y: Id, z: Id)
    requires Reaches(parent, x, y) && Reaches(parent, x, z)
    ensures Reaches(parent, y, z) || Reaches(parent, z, y)
  {
    var m: nat :| Up(parent, x, m) == Some(y);
    var n: nat :| Up(parent, x, n) == Some(z);
    if m <= n { UpAdd(parent, x, m, n - m); } else { UpAdd(parent, x, n, m - n); }
  }
}
