/** Bringing a container's children in line with a list of items, by key (renderKeyed in web/components.js). */
module Keyed {
  import opened Wrappers

  datatype Key = Key(text: string)

  /** An element of the page: which one it is, not what it holds. */
  datatype Element = Element(number: nat)

  /* ---------- Sequences of distinct things ---------- */

  function Not<T(==)>(x: T): T -> bool { y => y != x }

  function Without<T(==, !new)>(s: seq<T>, x: T): seq<T> { Filter(s, Not(x)) }

  lemma {:induction false} WithoutAbsent<T(!new)>(s: seq<T>, x: T)
    requires x !in s
    ensures Without(s, x) == s
  {
    if s != [] { WithoutAbsent(s[1..], x); }
  }

  lemma {:induction false} WithoutJoins<T(!new)>(s: seq<T>, t: seq<T>, x: T)
    ensures Without(s + t, x) == Without(s, x) + Without(t, x)
  {
    if s == [] {
      assert s + t == t;
    } else {
      assert (s + t)[1..] == s[1..] + t;
      WithoutJoins(s[1..], t, x);
    }
  }

  /* ---------- The moves ---------- */

  /** The survivors of `was` that are yet to be met in `next`, in their old order. */
  ghost function Remaining(was: seq<Element>, met: set<Element>): seq<Element> { Filter(was, Unmet(met)) }

  function Unmet(met: set<Element>): Element -> bool { e => e !in met }

  lemma RemainingLess(was: seq<Element>, met: set<Element>, e: Element)
    ensures Remaining(was, met + {e}) == Without(Remaining(was, met), e)
  {
    FilterTwice(was, Unmet(met), Not(e), Unmet(met + {e}));
  }

  /** `e` ends up before something that used to be before it. */
  ghost predicate Overtakes(was: seq<Element>, next: seq<Element>, e: Element) {
    exists t :: Precedes(was, t, e) && Precedes(next, e, t)
  }

  /** Where the walk is: everything met is in place, and what remains follows in its old order. */
  ghost predicate InPlace(was: seq<Element>, next: seq<Element>, i: nat, children: seq<Element>, moved: set<Element>) {
    && i <= |next|
    && children == next[..i] + Remaining(was, Elements(next[..i]))
    && (forall e :: e in moved <==> e in was && e in next[..i] && Overtakes(was, next, e))
  }

  lemma TakeHas(s: seq<Element>, i: nat)
    requires i <= |s|
    ensures forall j :: 0 <= j < i ==> s[j] in s[..i]
  {
    forall j | 0 <= j < i ensures s[j] in s[..i] { assert s[..i][j] == s[j]; }
  }

  /** The first that remains overtakes nothing; any other that remains overtakes the first. */
  lemma WhoMoves(was: seq<Element>, next: seq<Element>, i: nat)
    requires NoDup(was) && NoDup(next) && i < |next| && (forall e :: e in was ==> e in next) && next[i] in was
    ensures var left := Remaining(was, Elements(next[..i]));
      left != [] && next[i] in left && (Overtakes(was, next, next[i]) <==> left[0] != next[i])
  {
    var e, met := next[i], Elements(next[..i]);
    var left := Remaining(was, met);
    assert e !in met;
    assert e in left;
    FilterNoDup(was, Unmet(met));
    var first := left[0];
    assert first in left;
    if first != e {
      HeadFirst(left, first, e);
      FilterPrecedes(was, Unmet(met), first, e);
      var j :| 0 <= j < |next| && next[j] == first;
      TakeHas(next, i);
      assert Precedes(next, e, first);
    } else if Overtakes(was, next, e) {
      var t :| Precedes(was, t, e) && Precedes(next, e, t);
      var j, k :| 0 <= j < k < |next| && next[j] == e && next[k] == t;
      assert t in was && t !in next[..i];
      assert Unmet(met)(t) && t in left;
      HeadFirst(left, t, e);
      FilterPrecedes(was, Unmet(met), t, e);
    }
  }

  /** `e` put before `cursor`, or at the end when there is none. */
  function InsertedBefore(s: seq<Element>, e: Element, cursor: Option<Element>): seq<Element> {
    if s == [] || Some(s[0]) == cursor then [e] + s else [s[0]] + InsertedBefore(s[1..], e, cursor)
  }

  lemma {:induction false} InsertedAfter(s: seq<Element>, t: seq<Element>, e: Element, cursor: Option<Element>)
    requires forall x :: x in s ==> Some(x) != cursor
    requires cursor == if t == [] then None else Some(t[0])
    ensures InsertedBefore(s + t, e, cursor) == s + [e] + t
  {
    if s == [] {
      assert s + t == t;
    } else {
      assert (s + t)[1..] == s[1..] + t;
      InsertedAfter(s[1..], t, e, cursor);
    }
  }

  /** What one step of the walk starts from. */
  lemma StepFrom(was: seq<Element>, next: seq<Element>, i: nat)
    requires NoDup(was) && NoDup(next) && i < |next| && (forall e :: e in was ==> e in next)
    ensures var e := next[i]; var left := Remaining(was, Elements(next[..i]));
      && next[..i + 1] == next[..i] + [e] && Elements(next[..i + 1]) == Elements(next[..i]) + {e}
      && Remaining(was, Elements(next[..i + 1])) == Without(left, e)
      && NoDup(left) && e !in next[..i] && (e in left <==> e in was)
      && (e in was ==> left != [] && (Overtakes(was, next, e) <==> left[0] != e))
  {
    var e, met := next[i], Elements(next[..i]);
    TakeMore(next, i);
    assert Elements(next[..i + 1]) == met + {e};
    RemainingLess(was, met, e);
    FilterNoDup(was, Unmet(met));
    assert e !in next[..i];
    if e in was { WhoMoves(was, next, i); }
  }

  /** The next element is where the walk is: nothing moves. */
  lemma StepStays(was: seq<Element>, next: seq<Element>, i: nat, children: seq<Element>, moved: set<Element>)
    requires NoDup(was) && NoDup(next) && i < |next| && (forall e :: e in was ==> e in next)
    requires InPlace(was, next, i, children, moved) && CursorOf(was, next, i) == Some(next[i])
    ensures InPlace(was, next, i + 1, children, moved) && CursorOf(was, next, i + 1) == NextSibling(children, next[i])
  {
    var left := Remaining(was, Elements(next[..i]));
    StepFrom(was, next, i);
    HeadGone(left);
    assert left == [next[i]] + left[1..];
    assert children == next[..i + 1] + left[1..];
    SiblingOf(next[..i], left);
  }

  /** The next element is elsewhere, or new: it is put before the cursor. */
  lemma StepMoves(was: seq<Element>, next: seq<Element>, i: nat, children: seq<Element>, moved: set<Element>,
                  cursor: Option<Element>)
    requires NoDup(was) && NoDup(next) && i < |next| && (forall e :: e in was ==> e in next)
    requires InPlace(was, next, i, children, moved) && cursor == CursorOf(was, next, i) != Some(next[i])
    ensures InPlace(was, next, i + 1, InsertedBefore(Without(children, next[i]), next[i], cursor),
                    moved + if next[i] in children then {next[i]} else {})
    ensures CursorOf(was, next, i + 1) == cursor
  {
    var e, left := next[i], Remaining(was, Elements(next[..i]));
    StepFrom(was, next, i);
    WithoutJoins(next[..i], left, e);
    WithoutAbsent(next[..i], e);
    if left != [] {
      assert left[0] in left;
      WithoutHead(left, e);
    }
    InsertedAfter(next[..i], Without(left, e), e, cursor);
  }

  lemma HeadGone(s: seq<Element>)
    requires NoDup(s) && s != []
    ensures Without(s, s[0]) == s[1..]
  {
    assert s[0] !in s[1..];
    WithoutAbsent(s[1..], s[0]);
  }

  lemma WithoutHead(s: seq<Element>, e: Element)
    requires s != [] && s[0] != e
    ensures Without(s, e) != [] && Without(s, e)[0] == s[0]
  {
  }

  /** The first of what remains, where the walk's cursor is. */
  ghost function CursorOf(was: seq<Element>, next: seq<Element>, i: nat): Option<Element>
    requires i <= |next|
  {
    var left := Remaining(was, Elements(next[..i]));
    if left == [] then None else Some(left[0])
  }

  /** The element after the first `e`, if there is one. */
  function NextSibling(s: seq<Element>, e: Element): Option<Element> {
    if s == [] then None
    else if s[0] == e then if |s| > 1 then Some(s[1]) else None
    else NextSibling(s[1..], e)
  }

  lemma {:induction false} SiblingOf(s: seq<Element>, t: seq<Element>)
    requires t != [] && t[0] !in s
    ensures NextSibling(s + t, t[0]) == if |t| > 1 then Some(t[1]) else None
  {
    if s == [] {
      assert s + t == t;
    } else {
      assert (s + t)[1..] == s[1..] + t;
      SiblingOf(s[1..], t);
    }
  }

  /* ---------- Elements by key ---------- */

  function Swapped(s: seq<Element>, e: Element, swapped: Element): seq<Element> {
    seq(|s|, i requires 0 <= i < |s| => if s[i] == e then swapped else s[i])
  }

  type ByKey = map<Key, Element>

  function AllOf(ks: seq<Key>, m: ByKey): seq<Element>
    requires forall k :: k in ks ==> k in m
  {
    if ks == [] then [] else [m[ks[0]]] + AllOf(ks[1..], m)
  }

  lemma {:induction false} AllOfAt(ks: seq<Key>, m: ByKey)
    requires forall k :: k in ks ==> k in m
    ensures |AllOf(ks, m)| == |ks| && forall i :: 0 <= i < |ks| ==> AllOf(ks, m)[i] == m[ks[i]]
  {
    if ks != [] { AllOfAt(ks[1..], m); }
  }

  predicate Differ(a: Element, b: Element) { a != b }

  ghost predicate OneEach(m: ByKey) {
    forall a, b {:trigger Differ(m[a], m[b])} :: a in m && b in m && a != b ==> Differ(m[a], m[b])
  }

  lemma Distinct(m: ByKey)
    requires OneEach(m)
    ensures forall a, b :: a in m && b in m && a != b ==> m[a] != m[b]
  {
    forall a, b | a in m && b in m && a != b ensures m[a] != m[b] { assert Differ(m[a], m[b]); }
  }

  lemma AllOfDistinct(ks: seq<Key>, m: ByKey)
    requires (forall k :: k in ks ==> k in m) && OneEach(m) && NoDup(ks)
    ensures NoDup(AllOf(ks, m))
    ensures forall k :: k in m ==> (m[k] in AllOf(ks, m) <==> k in ks)
  {
    AllOfAt(ks, m);
    Distinct(m);
    forall k | k in m && m[k] in AllOf(ks, m) ensures k in ks {
      var i :| 0 <= i < |ks| && AllOf(ks, m)[i] == m[k];
      assert ks[i] in ks;
    }
    forall k | k in ks ensures m[k] in AllOf(ks, m) {
      var i :| 0 <= i < |ks| && ks[i] == k;
      assert AllOf(ks, m)[i] == m[k];
    }
    forall i, j | 0 <= i < j < |ks| ensures AllOf(ks, m)[i] != AllOf(ks, m)[j] { assert ks[i] in ks && ks[j] in ks; }
  }

  lemma AllOfPrecedes(ks: seq<Key>, m: ByKey, a: Key, b: Key)
    requires (forall k :: k in ks ==> k in m) && OneEach(m) && a in m && b in m
    ensures Precedes(AllOf(ks, m), m[a], m[b]) <==> Precedes(ks, a, b)
  {
    AllOfAt(ks, m);
    Distinct(m);
    if Precedes(AllOf(ks, m), m[a], m[b]) {
      var i, j :| 0 <= i < j < |ks| && AllOf(ks, m)[i] == m[a] && AllOf(ks, m)[j] == m[b];
      assert ks[i] in ks && ks[j] in ks;
    }
    if Precedes(ks, a, b) {
      var i, j :| 0 <= i < j < |ks| && ks[i] == a && ks[j] == b;
      assert AllOf(ks, m)[i] == m[a] && AllOf(ks, m)[j] == m[b];
    }
  }

  lemma {:induction false} AllOfSame(ks: seq<Key>, m: ByKey, n: ByKey)
    requires forall k :: k in ks ==> k in m && k in n && m[k] == n[k]
    ensures AllOf(ks, m) == AllOf(ks, n)
  {
    AllOfAt(ks, m);
    AllOfAt(ks, n);
    assert forall i :: 0 <= i < |ks| ==> ks[i] in ks;
  }

  lemma SwapOne(ks: seq<Key>, m: ByKey, k: Key, e: Element)
    requires (forall x :: x in ks ==> x in m) && OneEach(m) && k in m
    ensures Swapped(AllOf(ks, m), m[k], e) == AllOf(ks, m[k := e])
  {
    Distinct(m);
    AllOfAt(ks, m);
    AllOfAt(ks, m[k := e]);
    assert forall i :: 0 <= i < |ks| ==> ks[i] in ks;
  }

  lemma {:induction false} RemoveOne(ks: seq<Key>, m: ByKey, k: Key)
    requires (forall x :: x in ks ==> x in m) && OneEach(m) && k in m
    ensures forall x :: x in Without(ks, k) ==> x in m
    ensures Without(AllOf(ks, m), m[k]) == AllOf(Without(ks, k), m)
  {
    Distinct(m);
    if ks != [] {
      RemoveOne(ks[1..], m, k);
      assert AllOf(ks, m)[1..] == AllOf(ks[1..], m);
      if ks[0] != k { assert Without(ks, k)[1..] == Without(ks[1..], k); }
    }
  }

  /* ---------- The items ---------- */

  /** The keys of the items in order, each where it first appears. Nothing (None) is skipped. */
  function KeysOf(items: seq<Option<Key>>): (ks: seq<Key>)
    ensures NoDup(ks)
    ensures forall k :: k in ks <==> Some(k) in items
  {
    if items == [] then []
    else
      var before, last := KeysOf(items[..|items| - 1]), items[|items| - 1];
      assert items == items[..|items| - 1] + [last];
      if last.None? || last.value in before then before else before + [last.value]
  }

  /** Where a key first appears. */
  function FirstAt(items: seq<Option<Key>>, k: Key): (i: nat)
    requires Some(k) in items
    ensures i < |items| && items[i] == Some(k) && forall j :: 0 <= j < i ==> items[j] != Some(k)
  {
    if items[0] == Some(k) then 0 else 1 + FirstAt(items[1..], k)
  }

  /** What the caller's callbacks return for item `i`: a new element, or a swap for the one kept, if any. */
  datatype Callbacks = Callbacks(render: nat -> Element, update: nat -> Option<Element>)

  /** Every element the callbacks return is a new one. */
  ghost predicate AllNew(cb: Callbacks, children: seq<Element>) {
    && (forall i {:trigger cb.render(i)} :: cb.render(i) !in children)
    && (forall i {:trigger cb.update(i)} :: cb.update(i).Some? ==> cb.update(i).value !in children)
    && (forall i, j {:trigger cb.render(i), cb.render(j)} :: i != j ==> cb.render(i) != cb.render(j))
    && (forall i, j {:trigger cb.update(i), cb.update(j)} :: i != j && cb.update(i).Some? ==>
      cb.update(i) != cb.update(j))
    && (forall i, j {:trigger cb.update(i), cb.render(j)} :: cb.update(i) != Some(cb.render(j)))
  }

  /** The element shown for a key: the one kept (or what it was swapped for), or a new one. */
  function ElementFor(items: seq<Option<Key>>, cb: Callbacks, was: ByKey, k: Key): Element
    requires Some(k) in items
  {
    var i := FirstAt(items, k);
    if k in was then if cb.update(i).Some? then cb.update(i).value else was[k] else cb.render(i)
  }

  function ElementsFor(items: seq<Option<Key>>, cb: Callbacks, was: ByKey): ByKey {
    map k | k in KeysOf(items) :: ElementFor(items, cb, was, k)
  }

  /** The children that have a key no earlier child has, and their keys. */
  function FirstKeys(children: seq<Element>, keyOf: map<Element, Key>): (ks: seq<Key>)
    ensures NoDup(ks)
  {
    if children == [] then []
    else
      var before, last := FirstKeys(children[..|children| - 1], keyOf), children[|children| - 1];
      if last in keyOf && keyOf[last] !in before then before + [keyOf[last]] else before
  }

  function FirstByKey(children: seq<Element>, keyOf: map<Element, Key>): ByKey {
    if children == [] then map[]
    else
      var before, last := FirstByKey(children[..|children| - 1], keyOf), children[|children| - 1];
      if last in keyOf && keyOf[last] !in before then before[keyOf[last] := last] else before
  }

  lemma {:induction false} FirstKeysMatch(children: seq<Element>, keyOf: map<Element, Key>)
    requires NoDup(children)
    ensures var m := FirstByKey(children, keyOf);
      && (forall k :: k in FirstKeys(children, keyOf) <==> k in m)
      && (forall k :: k in m ==> m[k] in children && m[k] in keyOf && keyOf[m[k]] == k)
      && OneEach(m)
  {
    if children != [] {
      var before, last := children[..|children| - 1], children[|children| - 1];
      assert NoDup(before) && children == before + [last] && last !in before;
      FirstKeysMatch(before, keyOf);
    }
  }

  lemma {:induction false} AllOfSnoc(ks: seq<Key>, k: Key, m: ByKey)
    requires (forall x :: x in ks ==> x in m) && k in m
    ensures AllOf(ks + [k], m) == AllOf(ks, m) + [m[k]]
  {
    if ks == [] {
      assert ks + [k] == [k];
    } else {
      assert (ks + [k])[1..] == ks[1..] + [k];
      AllOfSnoc(ks[1..], k, m);
    }
  }

  lemma FirstKeysSnoc(children: seq<Element>, e: Element, keyOf: map<Element, Key>)
    ensures FirstKeys(children + [e], keyOf)
         == FirstKeys(children, keyOf)
            + if e in keyOf && keyOf[e] !in FirstKeys(children, keyOf) then [keyOf[e]] else []
    ensures FirstByKey(children + [e], keyOf)
         == if e in keyOf && keyOf[e] !in FirstByKey(children, keyOf) then FirstByKey(children, keyOf)[keyOf[e] := e]
            else FirstByKey(children, keyOf)
  {
    assert (children + [e])[..|children|] == children;
  }

  lemma SplitDistinct(done: seq<Element>, e: Element, rest: seq<Element>)
    requires NoDup(done + [e] + rest)
    ensures NoDup(done) && e !in done && e !in rest
  {
    var all := done + [e] + rest;
    assert forall j :: 0 <= j < |done| ==> all[j] == done[j];
    assert all[|done|] == e;
    assert forall j :: 0 <= j < |rest| ==> all[|done| + 1 + j] == rest[j];
  }

  /** A child that is not wanted is taken out of what is left of the children. */
  lemma DropNext(done: seq<Element>, e: Element, rest: seq<Element>, keyOf: map<Element, Key>)
    requires NoDup(done + [e] + rest)
    ensures var ks, m := FirstKeys(done, keyOf), FirstByKey(done, keyOf);
      (forall k :: k in ks <==> k in m) && Without(AllOf(ks, m) + [e] + rest, e) == AllOf(ks, m) + rest
  {
    SplitDistinct(done, e, rest);
    KeptAreChildren(done, keyOf);
    WithoutMiddle(AllOf(FirstKeys(done, keyOf), FirstByKey(done, keyOf)), e, rest);
  }

  lemma KeptAreChildren(done: seq<Element>, keyOf: map<Element, Key>)
    requires NoDup(done)
    ensures var ks, m := FirstKeys(done, keyOf), FirstByKey(done, keyOf);
      (forall k :: k in ks <==> k in m) && forall e :: e in AllOf(ks, m) ==> e in done
  {
    FirstKeysMatch(done, keyOf);
    AllOfAt(FirstKeys(done, keyOf), FirstByKey(done, keyOf));
  }

  lemma WithoutMiddle(s: seq<Element>, e: Element, t: seq<Element>)
    requires e !in s && e !in t
    ensures Without(s + [e] + t, e) == s + t
  {
    WithoutJoins(s + [e], t, e);
    WithoutJoins(s, [e], e);
    WithoutAbsent(s, e);
    WithoutAbsent(t, e);
    EmptyOrNot(Without([e], e));
  }

  lemma AddNext(ks: seq<Key>, m: ByKey, k: Key, e: Element)
    requires (forall x :: x in ks <==> x in m) && k !in m
    ensures AllOf(ks + [k], m[k := e]) == AllOf(ks, m) + [e]
  {
    AllOfSame(ks, m, m[k := e]);
    AllOfSnoc(ks, k, m[k := e]);
  }

  /** One child looked at: what is kept, and what is left of the children. */
  lemma KeepStep(done: seq<Element>, e: Element, rest: seq<Element>, keyOf: map<Element, Key>)
    requires NoDup(done + [e] + rest)
    ensures var ks, m := FirstKeys(done, keyOf), FirstByKey(done, keyOf);
      var ks1, m1 := FirstKeys(done + [e], keyOf), FirstByKey(done + [e], keyOf);
      && (forall k :: k in ks <==> k in m) && (forall k :: k in ks1 <==> k in m1)
      && if e !in keyOf || keyOf[e] in m
         then m1 == m && Without(AllOf(ks, m) + ([e] + rest), e) == AllOf(ks1, m1) + rest
         else m1 == m[keyOf[e] := e] && AllOf(ks, m) + ([e] + rest) == AllOf(ks1, m1) + rest
  {
    var ks, m := FirstKeys(done, keyOf), FirstByKey(done, keyOf);
    DropNext(done, e, rest, keyOf);
    FirstKeysSnoc(done, e, keyOf);
    assert AllOf(ks, m) + ([e] + rest) == AllOf(ks, m) + [e] + rest;
    if e in keyOf && keyOf[e] !in m { AddNext(ks, m, keyOf[e], e); }
  }

  lemma SplitAt(s: seq<Element>, i: nat)
    requires i < |s|
    ensures s[i..] == [s[i]] + s[i + 1..] && s[..i + 1] == s[..i] + [s[i]] && s[..i] + [s[i]] + s[i + 1..] == s
  {
  }

  function NotAmong(gone: set<Key>): Key -> bool { k => k !in gone }

  /** What each key that was shown shows once the items `seen` are dealt with. */
  function NowShown(was: ByKey, target: ByKey, seen: set<Key>): ByKey
    requires seen <= target.Keys
  {
    map k | k in was :: if k in seen then target[k] else was[k]
  }

  lemma NoneShown(was: ByKey, target: ByKey)
    ensures NowShown(was, target, {}) == was
  {
  }

  /** No two keys ever show the same element, before, during or after. */
  ghost predicate Distinguish(was: ByKey, target: ByKey) {
    && OneEach(was) && OneEach(target)
    && forall a, b {:trigger Differ(was[a], target[b])} :: a in was && b in target && a != b ==>
      Differ(was[a], target[b])
  }

  lemma ShowMore(was: ByKey, target: ByKey, seen: set<Key>, k: Key)
    requires Distinguish(was, target) && seen <= target.Keys && k in target && k !in seen
    ensures var now := NowShown(was, target, seen);
      && now.Keys == was.Keys && OneEach(now) && (k in was ==> now[k] == was[k])
      && NowShown(was, target, seen + {k}) == if k in now then now[k := target[k]] else now
  {
  }

  /** Each element shown for the keys `seen` remembers its key. */
  ghost predicate ShownUnder(target: ByKey, keyOf: map<Element, Key>, seen: set<Key>) {
    forall k :: k in seen && k in target ==> target[k] in keyOf && keyOf[target[k]] == k
  }

  lemma KeyOneMore(target: ByKey, keyOf: map<Element, Key>, seen: set<Key>, k: Key)
    requires OneEach(target) && ShownUnder(target, keyOf, seen) && k in target
    ensures ShownUnder(target, keyOf[target[k] := k], seen + {k})
  {
    Distinct(target);
  }

  /** What showing one more key changes. */
  lemma MatchMore(was: ByKey, target: ByKey, seen: set<Key>, ks: seq<Key>, k: Key, keyOf: map<Element, Key>)
    requires Distinguish(was, target) && seen <= target.Keys && k in target && k !in seen
    requires ShownUnder(target, keyOf, seen) && forall x :: x in ks ==> x in target
    ensures was - (seen + {k}) == (was - seen) - {k}
    ensures AllOf(ks + [k], target) == AllOf(ks, target) + [target[k]]
    ensures ShownUnder(target, keyOf[target[k] := k], seen + {k})
    ensures var now := NowShown(was, target, seen);
      && now.Keys == was.Keys && OneEach(now) && (k in was ==> now[k] == was[k])
      && NowShown(was, target, seen + {k}) == if k in now then now[k := target[k]] else now
  {
    AllOfSnoc(ks, k, target);
    KeyOneMore(target, keyOf, seen, k);
    ShowMore(was, target, seen, k);
  }

  /** The elements for the items are all different, and a new one is none of those kept. */
  lemma TargetsDistinct(items: seq<Option<Key>>, cb: Callbacks, was: ByKey, children: seq<Element>)
    requires AllNew(cb, children) && OneEach(was) && forall k :: k in was ==> was[k] in children
    ensures Distinguish(was, ElementsFor(items, cb, was))
  {
    var m := ElementsFor(items, cb, was);
    Distinct(was);
    forall a, b | a in m && b in m && a != b ensures Differ(m[a], m[b]) {
      assert FirstAt(items, a) != FirstAt(items, b);
    }
  }

  lemma KeysOfSnoc(items: seq<Option<Key>>, item: Option<Key>)
    ensures KeysOf(items + [item])
         == KeysOf(items) + if item.Some? && item.value !in KeysOf(items) then [item.value] else []
  {
    assert (items + [item])[..|items|] == items;
  }

  /** The first item with a key not met before is the first with that key. */
  lemma MetFirst(items: seq<Option<Key>>, i: nat)
    requires i < |items| && items[i].Some?
    ensures items[i].value in KeysOf(items)
    ensures items[i].value !in KeysOf(items[..i]) ==> FirstAt(items, items[i].value) == i
  {
    assert items[i] in items;
    var j := FirstAt(items, items[i].value);
    if j < i { assert items[..i][j] == items[j]; }
  }

  /* ---------- What is moved ---------- */

  /** The keys that were shown before and still are. */
  predicate Stays(ks: seq<Key>, keys: seq<Key>, k: Key) { k in ks && k in keys }

  /** A key that stays, and ends up before another that does and used to be before it. */
  ghost predicate KeyOvertakes(ks: seq<Key>, keys: seq<Key>, k: Key) {
    Stays(ks, keys, k) && exists t :: Stays(ks, keys, t) && Precedes(ks, t, k) && Precedes(keys, k, t)
  }

  ghost predicate MovedAre(moved: set<Element>, ks: seq<Key>, keys: seq<Key>, target: ByKey) {
    forall e :: e in moved <==> exists k :: k in target && target[k] == e && KeyOvertakes(ks, keys, k)
  }

  lemma ShownIsDistinct(was: ByKey, target: ByKey)
    requires Distinguish(was, target)
    ensures var now := NowShown(was, target, target.Keys);
      now.Keys == was.Keys && OneEach(now) && forall k :: k in was ==>
        now[k] == if k in target then target[k] else was[k]
  {
  }

  /** What stays, in its old order, as keys and as elements. */
  lemma WhatStays(ks: seq<Key>, keys: seq<Key>, was: ByKey, target: ByKey, left: set<Key>)
    requires (forall k :: k in ks <==> k in was) && (forall k :: k in keys <==> k in target)
    requires left == was.Keys - target.Keys && NoDup(ks) && NoDup(keys) && Distinguish(was, target)
    ensures var stay := Filter(ks, NotAmong(left));
      && NoDup(stay) && AreStaying(ks, keys, left, stay) && (forall k :: k in stay ==> k in target)
      && AllOf(stay, NowShown(was, target, target.Keys)) == AllOf(stay, target)
      && NoDup(AllOf(stay, target)) && NoDup(AllOf(keys, target))
      && forall e :: e in AllOf(stay, target) ==> e in AllOf(keys, target)
  {
    var stay := Filter(ks, NotAmong(left));
    FilterNoDup(ks, NotAmong(left));
    assert forall k :: k in stay <==> Stays(ks, keys, k);
    ShownIsDistinct(was, target);
    AllOfSame(stay, NowShown(was, target, target.Keys), target);
    AllOfDistinct(stay, target);
    AllOfDistinct(keys, target);
    AllOfAt(stay, target);
    forall e | e in AllOf(stay, target) ensures e in AllOf(keys, target) {
      var i :| 0 <= i < |stay| && AllOf(stay, target)[i] == e;
      assert stay[i] in stay;
    }
  }

  ghost predicate AreStaying(ks: seq<Key>, keys: seq<Key>, left: set<Key>, stay: seq<Key>) {
    stay == Filter(ks, NotAmong(left)) && NoDup(ks)
    && forall k {:trigger k in stay} {:trigger Stays(ks, keys, k)} :: k in stay <==> Stays(ks, keys, k)
  }

  /** Elements overtake one another as their keys do. */
  lemma OvertakesByKey(ks: seq<Key>, keys: seq<Key>, target: ByKey, left: set<Key>, stay: seq<Key>, k: Key)
    requires AreStaying(ks, keys, left, stay) && (forall x :: x in keys <==> x in target) && OneEach(target) &&
      k in target
    requires forall x :: x in stay ==> x in target
    ensures target[k] in AllOf(stay, target) && Overtakes(AllOf(stay, target), AllOf(keys, target), target[k])
       <==> KeyOvertakes(ks, keys, k)
  {
    var s, next := AllOf(stay, target), AllOf(keys, target);
    AllOfAt(stay, target);
    StayIn(stay, target, k);
    if k in stay {
      if Overtakes(s, next, target[k]) {
        var e :| Precedes(s, e, target[k]) && Precedes(next, target[k], e);
        var i :| 0 <= i < |s| && s[i] == e;
        var t := stay[i];
        assert t in stay && target[t] == e;
        AllOfPrecedes(stay, target, t, k);
        AllOfPrecedes(keys, target, k, t);
        FilterPrecedes(ks, NotAmong(left), t, k);
        assert KeyOvertakes(ks, keys, k);
      }
      if KeyOvertakes(ks, keys, k) {
        var t :| Stays(ks, keys, t) && Precedes(ks, t, k) && Precedes(keys, k, t);
        assert t in stay;
        AllOfPrecedes(stay, target, t, k);
        AllOfPrecedes(keys, target, k, t);
        FilterPrecedes(ks, NotAmong(left), t, k);
      }
    }
  }

  lemma StayIn(stay: seq<Key>, target: ByKey, k: Key)
    requires (forall x :: x in stay ==> x in target) && OneEach(target) && k in target
    ensures target[k] in AllOf(stay, target) <==> k in stay
  {
    AllOfAt(stay, target);
    Distinct(target);
    if target[k] in AllOf(stay, target) {
      var i :| 0 <= i < |stay| && AllOf(stay, target)[i] == target[k];
      assert stay[i] in stay;
    }
    if k in stay {
      var i :| 0 <= i < |stay| && stay[i] == k;
      assert AllOf(stay, target)[i] == target[k];
    }
  }

  lemma MovedByKey(ks: seq<Key>, keys: seq<Key>, target: ByKey, left: set<Key>, stay: seq<Key>, moved: set<Element>)
    requires AreStaying(ks, keys, left, stay) && (forall x :: x in keys <==> x in target) && OneEach(target)
    requires forall x :: x in stay ==> x in target
    requires forall e :: e in moved <==>
      e in AllOf(stay, target) && Overtakes(AllOf(stay, target), AllOf(keys, target), e)
    ensures MovedAre(moved, ks, keys, target)
  {
    AllOfAt(stay, target);
    forall e ensures e in moved <==> exists k :: k in target && target[k] == e && KeyOvertakes(ks, keys, k) {
      if e in moved {
        var i :| 0 <= i < |stay| && AllOf(stay, target)[i] == e;
        assert stay[i] in stay;
        OvertakesByKey(ks, keys, target, left, stay, stay[i]);
      }
      if exists k :: k in target && target[k] == e && KeyOvertakes(ks, keys, k) {
        var k :| k in target && target[k] == e && KeyOvertakes(ks, keys, k);
        OvertakesByKey(ks, keys, target, left, stay, k);
      }
    }
  }

  /** When the keys that stay keep their order, no element is moved. */
  lemma InOrderMovesNothing(moved: set<Element>, ks: seq<Key>, keys: seq<Key>, target: ByKey)
    requires MovedAre(moved, ks, keys, target) && NoDup(keys)
    requires forall a, b :: Stays(ks, keys, a) && Stays(ks, keys, b) && Precedes(ks, a, b) ==> Precedes(keys, a, b)
    ensures moved == {}
  {
    forall k ensures !KeyOvertakes(ks, keys, k) {
      forall t | Stays(ks, keys, k) && Stays(ks, keys, t) && Precedes(ks, t, k) ensures !Precedes(keys, k, t) {
        OneWay(keys, t, k);
      }
    }
  }

  lemma OneWay(s: seq<Key>, a: Key, b: Key)
    requires NoDup(s) && Precedes(s, a, b)
    ensures !Precedes(s, b, a)
  {
  }

  /* ---------- What is shown, told from items and children alone ---------- */

  /** Item `i` is the first with its key. */
  ghost predicate FirstItem(items: seq<Option<Key>>, i: nat) {
    i < |items| && items[i].Some? && forall j :: 0 <= j < i ==> items[j] != items[i]
  }

  /** Child `c` is the first that was last rendered under `k`. */
  ghost predicate ChildOf(children: seq<Element>, keyOf: map<Element, Key>, k: Key, c: nat) {
    && c < |children| && children[c] in keyOf && keyOf[children[c]] == k
    && forall d :: 0 <= d < c ==> children[d] !in keyOf || keyOf[children[d]] != k
  }

  /** What item `i` shows: its key's child, unless `update` gives another for that, or what `render` gives. */
  ghost predicate ShownFor(items: seq<Option<Key>>, cb: Callbacks, children: seq<Element>, keyOf: map<Element, Key>,
                           i: nat, e: Element) {
    && FirstItem(items, i)
    && (forall c: nat :: ChildOf(children, keyOf, items[i].value, c) ==>
          e == if cb.update(i).Some? then cb.update(i).value else children[c])
    && ((forall c: nat :: !ChildOf(children, keyOf, items[i].value, c)) ==> e == cb.render(i))
  }

  /** The element for item `i` is there, and remembers its key. */
  ghost predicate IsShown(items: seq<Option<Key>>, cb: Callbacks, children: seq<Element>, keyOf: map<Element, Key>,
                          now: seq<Element>, keyOf': map<Element, Key>, i: nat) {
    exists e ::
      (e in now && ShownFor(items, cb, children, keyOf, i, e) && e in keyOf' && keyOf'[e] == items[i].value)
  }

  /** One element for each first item, in the items' order. */
  ghost predicate Shows(items: seq<Option<Key>>, cb: Callbacks, children: seq<Element>, keyOf: map<Element, Key>,
                        now: seq<Element>, keyOf': map<Element, Key>) {
    && NoDup(now)
    && (forall e :: e in now ==> exists i: nat :: ShownFor(items, cb, children, keyOf, i, e))
    && (forall i: nat :: FirstItem(items, i) ==> IsShown(items, cb, children, keyOf, now, keyOf', i))
    && (forall i: nat, j: nat, a, b {:trigger ShownFor(items, cb, children, keyOf, i, a),
          ShownFor(items, cb, children, keyOf, j, b)} ::
          i < j && ShownFor(items, cb, children, keyOf, i, a) && ShownFor(items, cb, children, keyOf, j, b) ==>
            Precedes(now, a, b))
  }

  lemma {:induction false} KeysInOrder(items: seq<Option<Key>>, i: nat, j: nat)
    requires i < j && FirstItem(items, i) && FirstItem(items, j)
    ensures Precedes(KeysOf(items), items[i].value, items[j].value)
    decreases |items|
  {
    var before, last := items[..|items| - 1], items[|items| - 1];
    assert items == before + [last];
    KeysOfSnoc(before, last);
    assert before[i] == items[i] && before[i] in before;
    if last.Some? { PrecedesMore(KeysOf(before), items[i].value, items[j].value, last.value); }
    if j < |before| {
      assert forall k :: 0 <= k < |before| ==> before[k] == items[k];
      KeysInOrder(before, i, j);
    } else {
      assert forall k :: 0 <= k < |before| ==> before[k] == items[k] != last;
      assert last !in before;
    }
  }

  lemma {:induction false} FirstChildIs(children: seq<Element>, keyOf: map<Element, Key>, k: Key, c: nat)
    requires ChildOf(children, keyOf, k, c)
    ensures k in FirstByKey(children, keyOf) && FirstByKey(children, keyOf)[k] == children[c]
    decreases |children|
  {
    var before, last := children[..|children| - 1], children[|children| - 1];
    assert children == before + [last];
    if c < |before| {
      assert ChildOf(before, keyOf, k, c);
      FirstChildIs(before, keyOf, k, c);
    } else {
      NoChild(before, keyOf, k);
    }
  }

  lemma {:induction false} NoChild(children: seq<Element>, keyOf: map<Element, Key>, k: Key)
    requires forall d :: 0 <= d < |children| ==> children[d] !in keyOf || keyOf[children[d]] != k
    ensures k !in FirstByKey(children, keyOf)
  {
    if children != [] { NoChild(children[..|children| - 1], keyOf, k); }
  }

  lemma {:induction false} HasFirstChild(children: seq<Element>, keyOf: map<Element, Key>, k: Key) returns (c: nat)
    requires k in FirstByKey(children, keyOf)
    ensures ChildOf(children, keyOf, k, c) && FirstByKey(children, keyOf)[k] == children[c]
  {
    var before, last := children[..|children| - 1], children[|children| - 1];
    assert children == before + [last];
    if k in FirstByKey(before, keyOf) {
      c := HasFirstChild(before, keyOf, k);
      assert forall d :: 0 <= d <= c ==> children[d] == before[d];
    } else {
      c := |before|;
      forall d | 0 <= d < c ensures children[d] !in keyOf || keyOf[children[d]] != k {
        assert before[d] == children[d];
        if before[d] in keyOf && keyOf[before[d]] == k { EarlierChild(before, keyOf, k, d); }
      }
    }
  }

  lemma {:induction false} EarlierChild(children: seq<Element>, keyOf: map<Element, Key>, k: Key, d: nat)
    requires d < |children| && children[d] in keyOf && keyOf[children[d]] == k
    ensures k in FirstByKey(children, keyOf)
  {
    var before := children[..|children| - 1];
    if d < |before| { EarlierChild(before, keyOf, k, d); }
  }

  /** The element shown for a key is the one its first item shows. */
  lemma ElementIsShown(items: seq<Option<Key>>, cb: Callbacks, children: seq<Element>, keyOf: map<Element, Key>,
                       i: nat, e: Element)
    requires FirstItem(items, i)
    ensures Some(items[i].value) in items
    ensures ShownFor(items, cb, children, keyOf, i, e) <==>
      e == ElementFor(items, cb, FirstByKey(children, keyOf), items[i].value)
  {
    var k, was := items[i].value, FirstByKey(children, keyOf);
    assert items[i] in items;
    FirstAtIs(items, i);
    if k in was {
      var c := HasFirstChild(children, keyOf, k);
      forall d: nat | ChildOf(children, keyOf, k, d) ensures d == c { }
    } else {
      forall c: nat ensures !ChildOf(children, keyOf, k, c) {
        if ChildOf(children, keyOf, k, c) { FirstChildIs(children, keyOf, k, c); }
      }
    }
  }

  lemma FirstAtIs(items: seq<Option<Key>>, i: nat)
    requires FirstItem(items, i)
    ensures items[i] in items && FirstAt(items, items[i].value) == i
  {
    assert items[i] in items;
  }

  lemma FirstItemOf(items: seq<Option<Key>>, k: Key) returns (i: nat)
    requires k in KeysOf(items)
    ensures FirstItem(items, i) && items[i] == Some(k)
  {
    i := FirstAt(items, k);
  }

  lemma ShownHere(items: seq<Option<Key>>, cb: Callbacks, children: seq<Element>, keyOf: map<Element, Key>,
                      target: ByKey, now: seq<Element>, e: Element) returns (i: nat)
    requires target == ElementsFor(items, cb, FirstByKey(children, keyOf)) && OneEach(target)
    requires now == AllOf(KeysOf(items), target)
    requires e in now
    ensures ShownFor(items, cb, children, keyOf, i, e)
  {
    var keys := KeysOf(items);
    AllOfAt(keys, target);
    var p :| 0 <= p < |now| && now[p] == e;
    assert keys[p] in keys;
    i := FirstItemOf(items, keys[p]);
    ElementIsShown(items, cb, children, keyOf, i, e);
  }

  lemma ItemIsShown(items: seq<Option<Key>>, cb: Callbacks, children: seq<Element>, keyOf: map<Element, Key>,
                      target: ByKey, now: seq<Element>, keyOf': map<Element, Key>, i: nat)
    requires target == ElementsFor(items, cb, FirstByKey(children, keyOf)) && OneEach(target)
    requires now == AllOf(KeysOf(items), target)
    requires ShownUnder(target, keyOf', Elements(KeysOf(items))) && FirstItem(items, i)
    ensures IsShown(items, cb, children, keyOf, now, keyOf', i)
  {
    assert items[i] in items;
    var e := target[items[i].value];
    AllOfDistinct(KeysOf(items), target);
    ElementIsShown(items, cb, children, keyOf, i, e);
  }

  lemma ShownInTurn(items: seq<Option<Key>>, cb: Callbacks, children: seq<Element>, keyOf: map<Element, Key>,
                      target: ByKey, now: seq<Element>, i: nat, j: nat, a: Element,
                    b: Element)
    requires target == ElementsFor(items, cb, FirstByKey(children, keyOf)) && OneEach(target)
    requires now == AllOf(KeysOf(items), target)
    requires i < j && ShownFor(items, cb, children, keyOf, i, a) && ShownFor(items, cb, children, keyOf, j, b)
    ensures Precedes(now, a, b)
  {
    ElementIsShown(items, cb, children, keyOf, i, a);
    ElementIsShown(items, cb, children, keyOf, j, b);
    KeysInOrder(items, i, j);
    AllOfPrecedes(KeysOf(items), target, items[i].value, items[j].value);
  }

  /** What is rendered shows the items. */
  lemma RenderedShows(items: seq<Option<Key>>, cb: Callbacks, children: seq<Element>, keyOf: map<Element, Key>,
                      target: ByKey, now: seq<Element>, keyOf': map<Element, Key>)
    requires target == ElementsFor(items, cb, FirstByKey(children, keyOf)) && OneEach(target)
    requires now == AllOf(KeysOf(items), target)
    requires ShownUnder(target, keyOf', Elements(KeysOf(items)))
    ensures Shows(items, cb, children, keyOf, now, keyOf')
  {
    AllOfDistinct(KeysOf(items), target);
    forall e | e in now ensures exists i: nat :: ShownFor(items, cb, children, keyOf, i, e) {
      var i := ShownHere(items, cb, children, keyOf, target, now, e);
    }
    forall i: nat | FirstItem(items, i) ensures IsShown(items, cb, children, keyOf, now, keyOf', i) {
      ItemIsShown(items, cb, children, keyOf, target, now, keyOf', i);
    }
    forall i: nat, j: nat, a, b |
      i < j && ShownFor(items, cb, children, keyOf, i, a) && ShownFor(items, cb, children, keyOf, j, b)
      ensures Precedes(now, a, b)
    {
      ShownInTurn(items, cb, children, keyOf, target, now, i, j, a, b);
    }
  }

  lemma {:induction false} FirstKeysInOrder(children: seq<Element>, keyOf: map<Element, Key>, k: Key, c: nat, t: Key,
                                            d: nat)
    requires c < d && ChildOf(children, keyOf, k, c) && ChildOf(children, keyOf, t, d) && NoDup(children)
    ensures Precedes(FirstKeys(children, keyOf), k, t)
    decreases |children|
  {
    var before, last := children[..|children| - 1], children[|children| - 1];
    assert children == before + [last];
    FirstKeysSnoc(before, last, keyOf);
    FirstKeysMatch(before, keyOf);
    assert ChildOf(before, keyOf, k, c);
    FirstChildIs(before, keyOf, k, c);
    PrecedesMore(FirstKeys(before, keyOf), k, t, if last in keyOf then keyOf[last] else k);
    if d < |before| {
      assert ChildOf(before, keyOf, t, d);
      FirstKeysInOrder(before, keyOf, k, c, t, d);
    } else {
      NoChild(before, keyOf, t);
    }
  }

  /** Item `i` shows a child that was behind that of a later item. */
  ghost predicate Overtaker(items: seq<Option<Key>>, children: seq<Element>, keyOf: map<Element, Key>, i: nat) {
    FirstItem(items, i) &&
    exists j: nat, c: nat, d: nat ::
      i < j && d < c && FirstItem(items, j) && ChildOf(children, keyOf, items[i].value, c) &&
      ChildOf(children, keyOf, items[j].value, d)
  }

  ghost predicate OvertakersMoved(items: seq<Option<Key>>, cb: Callbacks, children: seq<Element>,
                                  keyOf: map<Element, Key>, moved: set<Element>) {
    forall e :: e in moved <==>
      exists i: nat :: Overtaker(items, children, keyOf, i) && ShownFor(items, cb, children, keyOf, i, e)
  }

  lemma NotBoth(s: seq<Key>, a: Key, b: Key)
    requires NoDup(s) && Precedes(s, a, b)
    ensures a != b && !Precedes(s, b, a)
  {
  }

  lemma OvertakesAsItem(items: seq<Option<Key>>, children: seq<Element>, keyOf: map<Element, Key>, i: nat)
    requires FirstItem(items, i) && NoDup(children)
    ensures KeyOvertakes(FirstKeys(children, keyOf), KeysOf(items), items[i].value) <==>
      Overtaker(items, children, keyOf, i)
  {
    var ks, keys, k := FirstKeys(children, keyOf), KeysOf(items), items[i].value;
    FirstKeysMatch(children, keyOf);
    assert items[i] in items;
    if KeyOvertakes(ks, keys, k) {
      var t :| Stays(ks, keys, t) && Precedes(ks, t, k) && Precedes(keys, k, t);
      var c := HasFirstChild(children, keyOf, k);
      var d := HasFirstChild(children, keyOf, t);
      var j := FirstItemOf(items, t);
      NotBoth(ks, t, k);
      NotBoth(keys, k, t);
      if c < d { FirstKeysInOrder(children, keyOf, k, c, t, d); }
      if j < i { KeysInOrder(items, j, i); }
      assert i < j && d < c;
    }
    if Overtaker(items, children, keyOf, i) {
      var j: nat, c: nat, d: nat :|
        i < j && d < c && FirstItem(items, j) && ChildOf(children, keyOf, k, c) &&
        ChildOf(children, keyOf, items[j].value, d);
      assert items[j] in items;
      FirstChildIs(children, keyOf, k, c);
      FirstChildIs(children, keyOf, items[j].value, d);
      FirstKeysInOrder(children, keyOf, items[j].value, d, k, c);
      KeysInOrder(items, i, j);
      assert Stays(ks, keys, k) && Stays(ks, keys, items[j].value);
    }
  }

  lemma MovedAsItems(items: seq<Option<Key>>, cb: Callbacks, children: seq<Element>, keyOf: map<Element, Key>,
                     target: ByKey, moved: set<Element>)
    requires NoDup(children) && target == ElementsFor(items, cb, FirstByKey(children, keyOf))
    requires MovedAre(moved, FirstKeys(children, keyOf), KeysOf(items), target)
    ensures OvertakersMoved(items, cb, children, keyOf, moved)
  {
    forall e ensures e in moved <==>
      exists i: nat :: Overtaker(items, children, keyOf, i) && ShownFor(items, cb, children, keyOf, i, e)
    {
      if e in moved {
        var k :| k in target && target[k] == e && KeyOvertakes(FirstKeys(children, keyOf), KeysOf(items), k);
        var i := FirstItemOf(items, k);
        OvertakesAsItem(items, children, keyOf, i);
        ElementIsShown(items, cb, children, keyOf, i, e);
      }
      if i: nat :| Overtaker(items, children, keyOf, i) && ShownFor(items, cb, children, keyOf, i, e) {
        OvertakesAsItem(items, children, keyOf, i);
        ElementIsShown(items, cb, children, keyOf, i, e);
        assert items[i].value in target;
      }
    }
  }

  /* ---------- The container ---------- */

  class Container {
    var children: seq<Element>
    // The key each element was last rendered under.
    var keyOf: map<Element, Key>
    // Every element that has been taken from one place in the container and put in another.
    ghost var moved: set<Element>

    constructor ()
      ensures children == [] && keyOf == map[] && moved == {}
    {
      children, keyOf, moved := [], map[], {};
    }

    method Remove(e: Element)
      modifies this`children
      ensures children == Without(old(children), e)
    {
      children := Filter(children, Not(e));
    }

    method ReplaceWith(e: Element, swapped: Element)
      modifies this`children
      ensures children == Swapped(old(children), e, swapped)
    {
      var swap := Swapped(children, e, swapped);
      children := swap;
    }

    method InsertBefore(e: Element, cursor: Option<Element>)
      modifies this`children, this`moved
      ensures children == InsertedBefore(Without(old(children), e), e, cursor)
      ensures moved == old(moved) + if e in old(children) then {e} else {}
    {
      if e in children { moved := moved + {e}; }
      children := InsertedBefore(Filter(children, Not(e)), e, cursor);
    }

    /** Puts the elements of `next` in order, moving only those that are not where the cursor is. */
    method PlaceInOrder(next: seq<Element>)
      requires NoDup(children) && NoDup(next) && (forall e :: e in children ==> e in next) && moved == {}
      modifies this`children, this`moved
      ensures children == next
      ensures forall e :: e in moved <==> e in old(children) && Overtakes(old(children), next, e)
    {
      ghost var was := children;
      var cursor := if |children| > 0 then Some(children[0]) else None;
      NothingMet(was);
      assert Elements(next[..0]) == {} && next[..0] + was == was;
      for i := 0 to |next|
        invariant InPlace(was, next, i, children, moved) && cursor == CursorOf(was, next, i)
      {
        var e := next[i];
        if Some(e) == cursor {
          StepStays(was, next, i, children, moved);
          cursor := NextSibling(children, e);
        } else {
          StepMoves(was, next, i, children, moved, cursor);
          InsertBefore(e, cursor);
        }
      }
      TakeAll(next);
      EmptyOrNot(Remaining(was, Elements(next)));
    }

    /** Takes out every child without a key, or with a key an earlier child has. */
    method KeepFirstOfEachKey() returns (byKey: ByKey)
      requires NoDup(children)
      modifies this`children
      ensures byKey == FirstByKey(old(children), keyOf)
      ensures forall k :: k in FirstKeys(old(children), keyOf) <==> k in byKey
      ensures children == AllOf(FirstKeys(old(children), keyOf), byKey)
    {
      var all := children;
      byKey := map[];
      assert all[..0] == [] && all[0..] == all;
      for i := 0 to |all|
        invariant byKey == FirstByKey(all[..i], keyOf)
        invariant forall k :: k in FirstKeys(all[..i], keyOf) <==> k in byKey
        invariant children == AllOf(FirstKeys(all[..i], keyOf), byKey) + all[i..]
      {
        var e := all[i];
        SplitAt(all, i);
        KeepStep(all[..i], e, all[i + 1..], keyOf);
        if e !in keyOf || keyOf[e] in byKey {
          Remove(e);
        } else {
          byKey := byKey[keyOf[e] := e];
        }
      }
      TakeAll(all);
    }

    /** The element for the first item with a key: the one kept, perhaps swapped, or a new one. */
    method ShowItem(i: nat, k: Key, left: ByKey, cb: Callbacks, ghost ks: seq<Key>, ghost now: ByKey)
      returns (e: Element)
      requires (forall x :: x in ks <==> x in now) && OneEach(now) && children == AllOf(ks, now)
      requires k in left <==> k in now
      requires k in left ==> left[k] == now[k]
      modifies this`children, this`keyOf
      ensures keyOf == old(keyOf)[e := k]
      ensures e == if k in left then if cb.update(i).Some? then cb.update(i).value else left[k] else cb.render(i)
      ensures children == AllOf(ks, if k in now then now[k := e] else now)
    {
      if k in left {
        e := left[k];
        var swapped := cb.update(i);
        if swapped.Some? && swapped.value != e {
          SwapOne(ks, now, k, swapped.value);
          ReplaceWith(e, swapped.value);
          e := swapped.value;
        }
        assert now[k := now[k]] == now;
      } else {
        e := cb.render(i);
      }
      keyOf := keyOf[e := k];
    }

    /** Brings what is shown in line with the items: returns what is to be shown, and what is left over. */
    method MatchItems(items: seq<Option<Key>>, cb: Callbacks, ghost ks: seq<Key>, was: ByKey)
      returns (next: seq<Element>, left: ByKey)
      requires (forall k :: k in ks <==> k in was) && children == AllOf(ks, was)
      requires Distinguish(was, ElementsFor(items, cb, was))
      modifies this`children, this`keyOf
      ensures next == AllOf(KeysOf(items), ElementsFor(items, cb, was))
      ensures left == was - Elements(KeysOf(items))
      ensures children == AllOf(ks, NowShown(was, ElementsFor(items, cb, was), Elements(KeysOf(items))))
      ensures ShownUnder(ElementsFor(items, cb, was), keyOf, Elements(KeysOf(items)))
    {
      ghost var target := ElementsFor(items, cb, was);
      next, left := [], was;
      var seen: set<Key> := {};
      ghost var done: seq<Option<Key>> := [];
      NoneShown(was, target);
      for i := 0 to |items|
        invariant done == items[..i] && (forall k :: k in seen <==> k in KeysOf(done)) && seen <= target.Keys
        invariant next == AllOf(KeysOf(done), target)
        invariant left == was - seen
        invariant children == AllOf(ks, NowShown(was, target, seen))
        invariant ShownUnder(target, keyOf, seen)
      {
        TakeMore(items, i);
        KeysOfSnoc(done, items[i]);
        if items[i].Some? && items[i].value !in seen {
          var k := items[i].value;
          MetFirst(items, i);
          MatchMore(was, target, seen, KeysOf(done), k, keyOf);
          var e := ShowItem(i, k, left, cb, ks, NowShown(was, target, seen));
          left := left - {k};
          next := next + [e];
          seen := seen + {k};
        }
        done := done + [items[i]];
      }
      TakeAll(items);
      assert seen == Elements(KeysOf(items));
    }

    /** Takes out what no item asked for. */
    method RemoveLeft(left: ByKey, ghost ks: seq<Key>, ghost now: ByKey)
      requires (forall k :: k in ks ==> k in now) && OneEach(now) && children == AllOf(ks, now)
      requires forall k :: k in left ==> k in now && now[k] == left[k]
      modifies this`children
      ensures forall k :: k in Filter(ks, NotAmong(left.Keys)) ==> k in now
      ensures children == AllOf(Filter(ks, NotAmong(left.Keys)), now)
    {
      var todo := left.Keys;
      ghost var kept := ks;
      FilterAllOrNone(ks, NotAmong({}));
      assert left.Keys - todo == {};
      while todo != {}
        invariant todo <= left.Keys
        invariant kept == Filter(ks, NotAmong(left.Keys - todo)) && (forall k :: k in kept ==> k in now)
        invariant children == AllOf(kept, now)
        decreases todo
      {
        var k :| k in todo;
        RemoveOne(kept, now, k);
        FilterTwice(ks, NotAmong(left.Keys - todo), Not(k), NotAmong(left.Keys - (todo - {k})));
        Remove(left[k]);
        kept := Without(kept, k);
        todo := todo - {k};
      }
      assert left.Keys - todo == left.Keys;
    }

    /**
     * Afterwards the children are one element per key of the items, in order: the one that was there
     * under that key, what `update` swapped for it, or a new one. An element is moved exactly when it
     * ends up before one that stays and used to be before it.
     */
    method RenderKeyed(items: seq<Option<Key>>, cb: Callbacks)
      requires NoDup(children) && AllNew(cb, children) && moved == {}
      modifies this
      ensures Shows(items, cb, old(children), old(keyOf), children, keyOf)
      ensures OvertakersMoved(items, cb, old(children), old(keyOf), moved)
      ensures children == AllOf(KeysOf(items), ElementsFor(items, cb, FirstByKey(old(children), old(keyOf))))
      ensures ShownUnder(ElementsFor(items, cb, FirstByKey(old(children), old(keyOf))), keyOf, Elements(KeysOf(items)))
      ensures MovedAre(moved, FirstKeys(old(children), old(keyOf)), KeysOf(items),
                       ElementsFor(items, cb, FirstByKey(old(children), old(keyOf))))
    {
      ghost var ks := FirstKeys(children, keyOf);
      FirstKeysMatch(children, keyOf);
      ghost var before, remembered := children, keyOf;
      var was := KeepFirstOfEachKey();
      ghost var target := ElementsFor(items, cb, was);
      TargetsDistinct(items, cb, was, before);
      var next, left := MatchItems(items, cb, ks, was);
      ghost var now := NowShown(was, target, target.Keys);
      ShownIsDistinct(was, target);
      RemoveLeft(left, ks, now);
      WhatStays(ks, KeysOf(items), was, target, left.Keys);
      PlaceInOrder(next);
      MovedByKey(ks, KeysOf(items), target, left.Keys, Filter(ks, NotAmong(left.Keys)), moved);
      RenderedShows(items, cb, before, remembered, target, children, keyOf);
      MovedAsItems(items, cb, before, remembered, target, moved);
    }
  }

  lemma NothingMet(was: seq<Element>)
    ensures Remaining(was, {}) == was
  {
    FilterAllOrNone(was, Unmet({}));
  }
}
