/** Loops among part of the nodes of a forest: which of their links are dropped (buildForest in web/netmap.js). */
module PartLoops {
  import opened Wrappers
  import opened Chains
  import opened Forests
  import opened Trees

  /** What is hidden has a parent, and what hangs from something hidden is hidden. */
  ghost predicate HiddenBelow(f: Forest, hidden: set<Id>) {
    && (forall x :: x in hidden ==> x in f.parentOf)
    && (forall x :: x in f.parentOf && f.parentOf[x] in hidden ==> x in hidden)
  }

  /** `g` is built of the nodes of `f` that are not hidden; `all` and `shown` are the links given to each. */
  ghost predicate IsPart(f: Forest, g: Forest, hidden: set<Id>, all: map<Id, Id>, shown: map<Id, Id>) {
    && HiddenBelow(f, hidden) && g.byId == f.byId - hidden
    && (forall x :: x in shown <==> x in all && x !in hidden && all[x] !in hidden) && SubLinks(shown, all)
    && (forall x :: x in all ==> x in f.byId && all[x] in f.byId)
    && OneLinkPerLoop(all, f.parentOf, f.cycles) && OneLinkPerLoop(shown, g.parentOf, g.cycles)
    && DroppedWhereClosed(g.keys, shown, g.cycles)
  }

  /** Every loop that is still whole is entered, by the first key left that leads to it, where it was entered before. */
  ghost predicate ClosesAlike(f: Forest, keys: seq<Id>, all: map<Id, Id>, hidden: set<Id>) {
    forall d :: d in f.cycles && d in all && all[d] !in hidden ==> FirstMet(keys, all, d, all[d])
  }

  /* ---------- Walks in the part ---------- */

  /** Links that start outside `hidden` stay outside, and `shown` has them. */
  ghost predicate Shows(links: map<Id, Id>, shown: map<Id, Id>, hidden: set<Id>) {
    forall x {:trigger x in links} :: x in links && x !in hidden ==>
      links[x] !in hidden && x in shown && shown[x] == links[x]
  }

  lemma {:induction false} ShownUp(links: map<Id, Id>, shown: map<Id, Id>, hidden: set<Id>, x: Id, n: nat)
    requires Shows(links, shown, hidden) && x !in hidden && Up(links, x, n).Some?
    ensures Up(shown, x, n) == Up(links, x, n)
    decreases n
  {
    if n > 0 { ShownUp(links, shown, hidden, links[x], n - 1); }
  }

  /** A node that leads to a loop hangs, in the forest, from the node whose link the loop lost. */
  lemma HangsFromDropped(f: Forest, all: map<Id, Id>, x: Id, d: Id)
    requires OneLinkPerLoop(all, f.parentOf, f.cycles) && x in f.byId && d in f.cycles && Reaches(all, x, d)
    ensures Reaches(f.parentOf, x, d)
  {
    var root := InOneTree(f, x);
    var n: nat :| Up(f.parentOf, x, n) == Some(root);
    UpWithin(f.parentOf, all, x, n);
    ReachesLinear(all, x, root, d);
    if Reaches(all, d, root) { ReachesOnLoop(all, d, root); }
    if root != d { ReachesParent(all, root, d); }
  }

  lemma ReachesAlike(f: Forest, g: Forest, hidden: set<Id>, all: map<Id, Id>, shown: map<Id, Id>, x: Id, d: Id)
    requires IsPart(f, g, hidden, all, shown) && x in g.byId && d in f.cycles
    ensures Reaches(shown, x, d) <==> Reaches(all, x, d)
  {
    if Reaches(shown, x, d) {
      var n: nat :| Up(shown, x, n) == Some(d);
      UpWithin(shown, all, x, n);
    }
    if Reaches(all, x, d) {
      HangsFromDropped(f, all, x, d);
      var n: nat :| Up(f.parentOf, x, n) == Some(d);
      ShownUp(f.parentOf, shown, hidden, x, n);
    }
  }

  /** A loop is whole in the part when the link it lost in the whole is there. */
  lemma StillLoop(f: Forest, g: Forest, hidden: set<Id>, all: map<Id, Id>, shown: map<Id, Id>, d: Id)
    requires IsPart(f, g, hidden, all, shown) && d in f.cycles && d in shown
    ensures OnLoop(shown, d) && OnLoop(shown, shown[d]) && Reaches(shown, shown[d], d)
  {
    var p := all[d];
    ReachesParent(all, d, p);
    ReachesSelf(all, p);
    ReachesOnLoop(all, d, p);
    ReachesAlike(f, g, hidden, all, shown, p, d);
    var n: nat :| Up(shown, p, n) == Some(d);
    assert Up(shown, d, n + 1) == Some(d);
    LoopEndless(shown, d, 1);
    assert Up(shown, p, 0) == Some(p);
  }

  /** Off the loops nothing was dropped. */
  ghost predicate ShowsTails(all: map<Id, Id>, shown: map<Id, Id>, hidden: set<Id>) {
    forall x {:trigger x in all} :: x in all && x !in hidden && !OnLoop(all, x) ==> all[x] !in hidden && x in shown
  }

  ghost predicate OffLoops(links: map<Id, Id>, x: Id, n: nat) {
    forall m: nat {:trigger Up(links, x, m)} :: m < n ==> Up(links, x, m).Some? && !OnLoop(links, Up(links, x, m).value)
  }

  lemma OffLoopsAt(links: map<Id, Id>, x: Id, n: nat, m: nat)
    requires OffLoops(links, x, n) && m < n
    ensures Up(links, x, m).Some? && !OnLoop(links, Up(links, x, m).value)
  {
  }

  lemma OffLoopsAbove(links: map<Id, Id>, x: Id, n: nat)
    requires n > 0 && OffLoops(links, x, n)
    ensures !OnLoop(links, x) && (x in links ==> OffLoops(links, links[x], n - 1))
  {
    assert Up(links, x, 0) == Some(x);
    if x in links {
      forall m: nat | m < n - 1 ensures Up(links, links[x], m).Some? && !OnLoop(links, Up(links, links[x], m).value) {
        assert Up(links, x, m + 1) == Up(links, links[x], m);
      }
    }
  }

  lemma {:induction false} TailShown(all: map<Id, Id>, shown: map<Id, Id>, hidden: set<Id>, x: Id, n: nat)
    requires ShowsTails(all, shown, hidden) && SubLinks(shown, all) && x !in hidden && Up(all, x, n).Some? &&
      OffLoops(all, x, n)
    ensures Up(shown, x, n) == Up(all, x, n)
    decreases n
  {
    if n > 0 {
      OffLoopsAbove(all, x, n);
      TailShown(all, shown, hidden, all[x], n - 1);
    }
  }

  lemma FirstAlike(f: Forest, g: Forest, hidden: set<Id>, all: map<Id, Id>, shown: map<Id, Id>, x: Id, d: Id)
    requires IsPart(f, g, hidden, all, shown) && x in g.byId && d in f.cycles && d in shown
    ensures FirstOnLoop(shown, x, all[d]) <==> FirstOnLoop(all, x, all[d])
  {
    var p := all[d];
    StillLoop(f, g, hidden, all, shown, d);
    LoopWithin(shown, all, p);
    if FirstOnLoop(all, x, p) { FirstInPart(all, shown, hidden, x, p); }
    if FirstOnLoop(shown, x, p) { FirstInAll(all, shown, x, p); }
  }

  lemma FirstInPart(all: map<Id, Id>, shown: map<Id, Id>, hidden: set<Id>, x: Id, p: Id)
    requires ShowsTails(all, shown, hidden) && SubLinks(shown, all) && x !in hidden && FirstOnLoop(all, x, p) &&
      OnLoop(shown, p)
    ensures FirstOnLoop(shown, x, p)
  {
    var n: nat :| Up(all, x, n) == Some(p) && OffLoops(all, x, n);
    TailShown(all, shown, hidden, x, n);
    forall m: nat | m < n ensures Up(shown, x, m).Some? && !OnLoop(shown, Up(shown, x, m).value) {
      assert OffLoops(all, x, m);
      TailShown(all, shown, hidden, x, m);
      if OnLoop(shown, Up(all, x, m).value) { LoopWithin(shown, all, Up(all, x, m).value); }
    }
  }

  lemma FirstInAll(all: map<Id, Id>, shown: map<Id, Id>, x: Id, p: Id)
    requires SubLinks(shown, all) && FirstOnLoop(shown, x, p)
    ensures FirstOnLoop(all, x, p)
  {
    var n: nat :| Up(shown, x, n) == Some(p) && OnLoop(shown, p) && OffLoops(shown, x, n);
    UpWithin(shown, all, x, n);
    LoopWithin(shown, all, p);
    forall m: nat | m < n ensures Up(all, x, m).Some? && !OnLoop(all, Up(all, x, m).value) {
      OffLoopsAt(shown, x, n, m);
      UpWithin(shown, all, x, m);
      StillOffLoops(all, shown, x, p, m, n);
    }
  }

  lemma StillOffLoops(all: map<Id, Id>, shown: map<Id, Id>, x: Id, p: Id, m: nat, n: nat)
    requires SubLinks(shown, all) && m < n && Up(all, x, n) == Some(p) && Up(all, x, m).Some? && OnLoop(shown, p)
    ensures OnLoop(all, Up(all, x, m).value) ==> OnLoop(shown, Up(all, x, m).value)
  {
    var z := Up(all, x, m).value;
    if OnLoop(all, z) {
      UpAdd(all, x, m, n - m);
      assert Reaches(all, z, p);
      ReachesOnLoop(all, z, p);
      LoopIntact(shown, all, p, z);
    }
  }

  lemma NoneAlike(f: Forest, g: Forest, hidden: set<Id>, all: map<Id, Id>, shown: map<Id, Id>, d: Id, i: nat)
    requires IsPart(f, g, hidden, all, shown) && d in f.cycles
    ensures NoneReach(g.keys, all, i, d) <==> NoneReach(g.keys, shown, i, d)
  {
    forall j | 0 <= j < |g.keys| ensures Reaches(shown, g.keys[j], d) == Reaches(all, g.keys[j], d) {
      assert g.keys[j] in g.keys;
      ReachesAlike(f, g, hidden, all, shown, g.keys[j], d);
    }
  }

  lemma MetAlike(f: Forest, g: Forest, hidden: set<Id>, all: map<Id, Id>, shown: map<Id, Id>, d: Id)
    requires IsPart(f, g, hidden, all, shown) && d in f.cycles && d in shown
    ensures FirstMet(g.keys, all, d, all[d]) <==> ClosesAt(g.keys, shown, d)
  {
    StillLoop(f, g, hidden, all, shown, d);
    if FirstMet(g.keys, all, d, all[d]) {
      var i :| 0 <= i < |g.keys| && NoneReach(g.keys, all, i, d) && FirstOnLoop(all, g.keys[i], all[d]);
      KeyAlike(f, g, hidden, all, shown, d, i);
    }
    if ClosesAt(g.keys, shown, d) {
      var i :| 0 <= i < |g.keys| && NoneReach(g.keys, shown, i, d) && FirstOnLoop(shown, g.keys[i], shown[d]);
      KeyAlike(f, g, hidden, all, shown, d, i);
    }
  }

  lemma KeyAlike(f: Forest, g: Forest, hidden: set<Id>, all: map<Id, Id>, shown: map<Id, Id>, d: Id, i: nat)
    requires IsPart(f, g, hidden, all, shown) && d in f.cycles && d in shown && i < |g.keys|
    ensures NoneReach(g.keys, all, i, d) <==> NoneReach(g.keys, shown, i, d)
    ensures FirstOnLoop(all, g.keys[i], all[d]) <==> FirstOnLoop(shown, g.keys[i], shown[d])
  {
    assert g.keys[i] in g.keys;
    NoneAlike(f, g, hidden, all, shown, d, i);
    FirstAlike(f, g, hidden, all, shown, g.keys[i], d);
  }

  /* ---------- A loop closes in one place ---------- */

  /** On a loop a node is depended on by one node only. */
  lemma {:induction false} OnePredecessor(links: map<Id, Id>, p: Id, d: Id, e: Id, m: nat, k: nat)
    requires d in links && e in links && links[d] == links[e] == p && Up(links, p, m) == Some(d) &&
      Up(links, p, k) == Some(e)
    ensures d == e
    decreases m + k
  {
    if k < m {
      UpStep(links, p, k);
      UpAdd(links, p, k + 1, m - k - 1);
      OnePredecessor(links, p, d, e, m - k - 1, k);
    } else if m < k {
      UpStep(links, p, m);
      UpAdd(links, p, m + 1, k - m - 1);
      OnePredecessor(links, p, d, e, m, k - m - 1);
    }
  }

  lemma FirstIsOne(links: map<Id, Id>, x: Id, p: Id, q: Id)
    requires FirstOnLoop(links, x, p) && FirstOnLoop(links, x, q)
    ensures p == q
  {
    var m: nat :| Up(links, x, m) == Some(p)
      && forall i: nat :: i < m ==> Up(links, x, i).Some? && !OnLoop(links, Up(links, x, i).value);
    var n: nat :| Up(links, x, n) == Some(q)
      && forall i: nat :: i < n ==> Up(links, x, i).Some? && !OnLoop(links, Up(links, x, i).value);
    assert m == n;
  }

  /** A key that enters a loop reaches all of it. */
  lemma EntersAll(links: map<Id, Id>, x: Id, d: Id, e: Id)
    requires SameLoop(links, d, e) && d in links && FirstOnLoop(links, x, links[d])
    ensures Reaches(links, x, d) && Reaches(links, x, e)
  {
    ReachesSelf(links, links[d]);
    ReachesParent(links, d, links[d]);
    ReachesOnLoop(links, d, links[d]);
    ReachesTrans(links, x, links[d], d);
    ReachesTrans(links, x, d, e);
  }

  lemma ClosesOnce(keys: seq<Id>, links: map<Id, Id>, d: Id, e: Id)
    requires ClosesAt(keys, links, d) && ClosesAt(keys, links, e) && SameLoop(links, d, e)
    ensures d == e
  {
    var i :| 0 <= i < |keys| && NoneReach(keys, links, i, d) && FirstOnLoop(links, keys[i], links[d]);
    var j :| 0 <= j < |keys| && NoneReach(keys, links, j, e) && FirstOnLoop(links, keys[j], links[e]);
    ReachesOnLoop(links, d, e);
    EntersAll(links, keys[i], d, e);
    EntersAll(links, keys[j], e, d);
    assert i == j;
    FirstIsOne(links, keys[i], links[d], links[e]);
    var m := BackRound(links, d);
    var k := BackRound(links, e);
    OnePredecessor(links, links[d], d, e, m, k);
  }

  lemma BackRound(links: map<Id, Id>, d: Id) returns (m: nat)
    requires OnLoop(links, d) && d in links
    ensures Up(links, links[d], m) == Some(d)
  {
    var n: nat :| n > 0 && Up(links, d, n) == Some(d);
    m := n - 1;
  }

  /* ---------- The links dropped ---------- */

  ghost predicate DropAlike(f: Forest, g: Forest, shown: map<Id, Id>) {
    forall x :: x in shown ==> (x in g.cycles <==> x in f.cycles)
  }

  lemma ClosedAsBefore(f: Forest, g: Forest, hidden: set<Id>, all: map<Id, Id>, shown: map<Id, Id>, d: Id)
    requires IsPart(f, g, hidden, all, shown) && ClosesAlike(f, g.keys, all, hidden) && d in f.cycles && d in shown
    ensures d in g.cycles
  {
    MetAlike(f, g, hidden, all, shown, d);
    StillLoop(f, g, hidden, all, shown, d);
    var e := EachLoopLosesOneLink(g, shown, d);
    ClosesOnce(g.keys, shown, d, e);
  }

  lemma ClosedNowhereElse(f: Forest, g: Forest, hidden: set<Id>, all: map<Id, Id>, shown: map<Id, Id>, x: Id)
    requires IsPart(f, g, hidden, all, shown) && ClosesAlike(f, g.keys, all, hidden) && x in g.cycles
    ensures x in f.cycles
  {
    LoopWithin(shown, all, x);
    var d := EachLoopLosesOneLink(f, all, x);
    LoopIntact(shown, all, x, d);
    MetAlike(f, g, hidden, all, shown, d);
    ClosesOnce(g.keys, shown, x, d);
  }

  /** The part drops the links of the whole that it has exactly when its loops close alike. */
  lemma DropsAgree(f: Forest, g: Forest, hidden: set<Id>, all: map<Id, Id>, shown: map<Id, Id>)
    requires IsPart(f, g, hidden, all, shown)
    ensures DropAlike(f, g, shown) <==> ClosesAlike(f, g.keys, all, hidden)
  {
    if DropAlike(f, g, shown) {
      forall d | d in f.cycles && d in all && all[d] !in hidden ensures FirstMet(g.keys, all, d, all[d]) {
        assert d in shown;
        MetAlike(f, g, hidden, all, shown, d);
      }
    }
    if ClosesAlike(f, g.keys, all, hidden) {
      forall x | x in shown ensures x in g.cycles <==> x in f.cycles {
        if x in f.cycles { ClosedAsBefore(f, g, hidden, all, shown, x); }
        if x in g.cycles { ClosedNowhereElse(f, g, hidden, all, shown, x); }
      }
    }
  }
}
