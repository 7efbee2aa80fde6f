/**
 * Stable sorting with a three-way comparator, as Array.prototype.sort does it. The comparator
 * (the platform's collation of names) is a parameter wherever it is needed.
 */
module Ordering {
  import opened Wrappers

  type Comparator<!T> = (T, T) -> int

  /** Puts `x` before the first element that does not sort before it. */
  function Insert<T(!new)>(cmp: Comparator<T>, x: T, s: seq<T>): seq<T> {
    if s == [] || cmp(x, s[0]) <= 0 then [x] + s else [s[0]] + Insert(cmp, x, s[1..])
  }

  function SortBy<T(!new)>(s: seq<T>, cmp: Comparator<T>): seq<T> {
    if s == [] then [] else Insert(cmp, s[0], SortBy(s[1..], cmp))
  }

  /** What a comparator must be for sorting to mean anything. */
  ghost predicate TotalPreorder<T(!new)>(cmp: Comparator<T>) {
    && (forall x, y :: cmp(x, y) <= 0 || cmp(y, x) <= 0)
    && (forall x, y, z :: cmp(x, y) <= 0 && cmp(y, z) <= 0 ==> cmp(x, z) <= 0)
  }

  /** An order that says the same both ways round, as a collation of names does. */
  ghost predicate Collates<T(!new)>(cmp: Comparator<T>) {
    TotalPreorder(cmp) && forall x, y {:trigger cmp(x, y)} :: cmp(x, y) <= 0 <==> cmp(y, x) >= 0
  }

  lemma BothWays<T(!new)>(cmp: Comparator<T>, x: T, y: T)
    requires Collates(cmp)
    ensures (cmp(x, y) < 0 <==> cmp(y, x) > 0) && (cmp(x, y) == 0 <==> cmp(y, x) == 0)
  {
    assert cmp(x, y) <= 0 <==> cmp(y, x) >= 0;
    assert cmp(y, x) <= 0 <==> cmp(x, y) >= 0;
  }

  /** Comparing what two things are called is an order when comparing names is. */
  lemma NamesOrder<T(!new), U(!new)>(cmp: Comparator<U>, name: T -> U, named: Comparator<T>)
    requires Collates(cmp) && forall x, y :: named(x, y) == cmp(name(x), name(y))
    ensures Collates(named)
  {
    forall x, y ensures named(x, y) <= 0 || named(y, x) <= 0 {
      assert cmp(name(x), name(y)) <= 0 || cmp(name(y), name(x)) <= 0;
    }
    forall x, y ensures named(x, y) <= 0 <==> named(y, x) >= 0 {
      assert cmp(name(x), name(y)) <= 0 <==> cmp(name(y), name(x)) >= 0;
    }
    forall x, y, z | named(x, y) <= 0 && named(y, z) <= 0 ensures named(x, z) <= 0 {
      assert cmp(name(x), name(y)) <= 0 && cmp(name(y), name(z)) <= 0;
    }
  }

  /** Deciding by one order, and by another where that one does not tell, is an order. */
  lemma ThenOrders<T(!new)>(first: Comparator<T>, second: Comparator<T>, both: Comparator<T>)
    requires Collates(first) && Collates(second)
    requires forall x, y :: both(x, y) == if first(x, y) != 0 then first(x, y) else second(x, y)
    ensures Collates(both)
  {
    forall x, y ensures both(x, y) <= 0 <==> both(y, x) >= 0 {
      assert first(x, y) <= 0 <==> first(y, x) >= 0;
      assert first(y, x) <= 0 <==> first(x, y) >= 0;
    }
    forall x, y, z | both(x, y) <= 0 && both(y, z) <= 0 ensures both(x, z) <= 0 {
      assert first(x, y) <= 0 && first(y, z) <= 0 && first(x, z) <= 0;
      if first(x, z) == 0 {
        assert first(z, x) == 0;
        assert first(z, y) <= 0 && first(y, x) <= 0;
        assert first(x, y) == 0 && first(y, z) == 0;
      }
    }
  }

  ghost predicate Sorted<T(!new)>(s: seq<T>, cmp: Comparator<T>) {
    s == [] || ((forall y :: y in s[1..] ==> cmp(s[0], y) <= 0) && Sorted(s[1..], cmp))
  }

  lemma {:induction false} InsertPermutes<T(!new)>(cmp: Comparator<T>, x: T, s: seq<T>)
    ensures multiset(Insert(cmp, x, s)) == multiset([x] + s)
  {
    if s != [] && cmp(x, s[0]) > 0 {
      InsertPermutes(cmp, x, s[1..]);
      assert s == [s[0]] + s[1..];
    }
  }

  lemma {:induction false} SortPermutes<T(!new)>(s: seq<T>, cmp: Comparator<T>)
    ensures multiset(SortBy(s, cmp)) == multiset(s)
  {
    if s != [] {
      SortPermutes(s[1..], cmp);
      InsertPermutes(cmp, s[0], SortBy(s[1..], cmp));
      assert s == [s[0]] + s[1..];
    }
  }

  lemma {:induction false} MultisetNoDup<T(!new)>(s: seq<T>)
    ensures NoDup(s) <==> forall x :: multiset(s)[x] <= 1
  {
    if s != [] {
      MultisetNoDup(s[1..]);
      assert s == [s[0]] + s[1..];
      assert NoDup(s) <==> NoDup(s[1..]) && s[0] !in s[1..] by { NoDupCons(s); }
      assert multiset(s)[s[0]] == 1 + multiset(s[1..])[s[0]];
      assert multiset(s[1..])[s[0]] > 0 <==> s[0] in s[1..];
      if forall x :: multiset(s)[x] <= 1 {
        forall x ensures multiset(s[1..])[x] <= 1 { assert multiset(s)[x] <= 1; }
      }
    }
  }

  /** Sorting changes neither which elements there are nor that they are distinct. */
  lemma SortKeeps<T(!new)>(s: seq<T>, cmp: Comparator<T>)
    ensures |SortBy(s, cmp)| == |s|
    ensures forall x :: x in SortBy(s, cmp) <==> x in s
    ensures NoDup(s) ==> NoDup(SortBy(s, cmp))
  {
    var t := SortBy(s, cmp);
    SortPermutes(s, cmp);
    assert |t| == |multiset(t)| == |multiset(s)| == |s|;
    forall x ensures x in t <==> x in s { assert x in multiset(t) <==> x in multiset(s); }
    MultisetNoDup(s);
    MultisetNoDup(t);
  }

  lemma InsertMembers<T(!new)>(cmp: Comparator<T>, x: T, s: seq<T>)
    ensures forall y :: y in Insert(cmp, x, s) <==> y == x || y in s
  {
    InsertPermutes(cmp, x, s);
    forall y ensures y in Insert(cmp, x, s) <==> y == x || y in s {
      assert y in multiset(Insert(cmp, x, s)) <==> y in multiset([x] + s);
    }
  }

  lemma {:induction false} InsertSorted<T(!new)>(cmp: Comparator<T>, x: T, s: seq<T>)
    requires TotalPreorder(cmp) && Sorted(s, cmp)
    ensures Sorted(Insert(cmp, x, s), cmp)
  {
    if s == [] {
    } else if cmp(x, s[0]) <= 0 {
      assert ([x] + s)[1..] == s;
      assert forall y :: y in s ==> y == s[0] || y in s[1..];
    } else {
      InsertSorted(cmp, x, s[1..]);
      InsertMembers(cmp, x, s[1..]);
      assert Insert(cmp, x, s)[1..] == Insert(cmp, x, s[1..]);
    }
  }

  lemma {:induction false} SortSorts<T(!new)>(s: seq<T>, cmp: Comparator<T>)
    requires TotalPreorder(cmp)
    ensures Sorted(SortBy(s, cmp), cmp)
  {
    if s != [] {
      SortSorts(s[1..], cmp);
      InsertSorted(cmp, s[0], SortBy(s[1..], cmp));
    }
  }

  lemma {:induction false} InsertCongruent<T(!new)>(a: Comparator<T>, b: Comparator<T>, x: T, s: seq<T>)
    requires forall y :: y in s ==> a(x, y) == b(x, y)
    ensures Insert(a, x, s) == Insert(b, x, s)
  {
    if s != [] { assert s[0] in s; InsertCongruent(a, b, x, s[1..]); }
  }

  lemma {:induction false} SortCongruent<T(!new)>(s: seq<T>, a: Comparator<T>, b: Comparator<T>)
    requires forall x, y :: x in s && y in s ==> a(x, y) == b(x, y)
    ensures SortBy(s, a) == SortBy(s, b)
  {
    if s != [] {
      SortCongruent(s[1..], a, b);
      SortKeeps(s[1..], a);
      assert s[0] in s;
      InsertCongruent(a, b, s[0], SortBy(s[1..], a));
    }
  }

  lemma {:induction false} SortedAt<T(!new)>(s: seq<T>, cmp: Comparator<T>, i: nat, j: nat)
    requires Sorted(s, cmp) && i < j < |s|
    ensures cmp(s[i], s[j]) <= 0
  {
    if i == 0 {
      assert s[j] == s[1..][j - 1];
    } else {
      SortedAt(s[1..], cmp, i - 1, j - 1);
    }
  }

  /** What the order does not tell from `x`. */
  function Alike<T(!new)>(cmp: Comparator<T>, x: T): T -> bool { y => cmp(x, y) == 0 }

  lemma {:induction false} InsertKeeps<T(!new)>(cmp: Comparator<T>, x: T, s: seq<T>, p: T -> bool)
    requires forall y :: y in s && cmp(x, y) > 0 ==> !p(x) || !p(y)
    ensures Filter(Insert(cmp, x, s), p) == Filter([x] + s, p)
  {
    assert ([x] + s)[1..] == s;
    if s != [] && cmp(x, s[0]) > 0 {
      assert s[0] in s;
      InsertKeeps(cmp, x, s[1..], p);
      assert Insert(cmp, x, s)[1..] == Insert(cmp, x, s[1..]);
      assert ([x] + s[1..])[1..] == s[1..];
    }
  }

  /** What the order does not tell apart stays as it was. */
  lemma {:induction false} SortIsStable<T(!new)>(s: seq<T>, cmp: Comparator<T>, x: T)
    requires Collates(cmp)
    ensures Filter(SortBy(s, cmp), Alike(cmp, x)) == Filter(s, Alike(cmp, x))
  {
    if s != [] {
      var p, rest := Alike(cmp, x), SortBy(s[1..], cmp);
      SortIsStable(s[1..], cmp, x);
      forall y | y in rest && cmp(s[0], y) > 0 ensures !p(s[0]) || !p(y) { AlikeBoth(cmp, x, s[0], y); }
      InsertKeeps(cmp, s[0], rest, p);
      assert ([s[0]] + rest)[1..] == rest;
    }
  }

  lemma AlikeBoth<T(!new)>(cmp: Comparator<T>, x: T, a: T, b: T)
    requires Collates(cmp) && cmp(a, b) > 0
    ensures cmp(x, a) != 0 || cmp(x, b) != 0
  {
    assert cmp(x, a) == 0 ==> cmp(a, x) <= 0;
    assert cmp(a, x) <= 0 && cmp(x, b) <= 0 ==> cmp(a, b) <= 0;
  }

  /** Of two that the order does not tell apart the one sorted first was first. */
  lemma SortKeepsOrder<T(!new)>(s: seq<T>, cmp: Comparator<T>, i: nat, j: nat)
    requires Collates(cmp) && NoDup(s) && i < j < |SortBy(s, cmp)|
    ensures var t := SortBy(s, cmp); cmp(t[i], t[j]) < 0 || (cmp(t[i], t[j]) == 0 && Precedes(s, t[i], t[j]))
  {
    var t := SortBy(s, cmp);
    SortSorts(s, cmp);
    SortKeeps(s, cmp);
    SortedAt(t, cmp, i, j);
    var a, b := t[i], t[j];
    assert a in t && b in t;
    if cmp(a, b) == 0 {
      assert cmp(a, a) == 0;
      SortIsStable(s, cmp, a);
      assert Precedes(t, a, b);
      FilterPrecedes(t, Alike(cmp, a), a, b);
      FilterPrecedes(s, Alike(cmp, a), a, b);
    }
  }
}
