/** Option and Result, and the few facts about sequences the other modules share. */
module Wrappers {

  datatype Option<+T> = None | Some(value: T)

  datatype Result<+T, +E> = Ok(value: T) | Err(error: E)

  ghost predicate NoDup<T>(s: seq<T>) {
    forall i, j :: 0 <= i < j < |s| ==> s[i] != s[j]
  }

  function Least(a: nat, b: nat): nat { if a < b then a else b }

  function Most(a: nat, b: nat): nat { if a < b then b else a }

  function Elements<T(==, !new)>(s: seq<T>): (r: set<T>)
    ensures forall x :: x in r <==> x in s
  {
    set x | x in s
  }

  /** The elements of `s` that satisfy `keep`, in order. */
  function Filter<T(!new)>(s: seq<T>, keep: T -> bool): (r: seq<T>)
    ensures forall x :: x in r <==> x in s && keep(x)
  {
    if s == [] then []
    else
      var rest := Filter(s[1..], keep);
      if keep(s[0]) then [s[0]] + rest else rest
  }

  lemma {:induction false} FilterNoDup<T(!new)>(s: seq<T>, keep: T -> bool)
    requires NoDup(s)
    ensures NoDup(Filter(s, keep))
  {
    if s != [] {
      assert NoDup(s[1..]);
      FilterNoDup(s[1..], keep);
      assert s[0] !in s[1..];
    }
  }

  lemma {:induction false} FilterSnoc<T(!new)>(s: seq<T>, x: T, keep: T -> bool)
    ensures Filter(s + [x], keep) == Filter(s, keep) + if keep(x) then [x] else []
  {
    if s == [] {
      assert s + [x] == [x];
    } else {
      assert (s + [x])[1..] == s[1..] + [x];
      FilterSnoc(s[1..], x, keep);
    }
  }

  lemma {:induction false} FilterTwice<T(!new)>(s: seq<T>, p: T -> bool, q: T -> bool, both: T -> bool)
    requires forall x :: x in s ==> (p(x) && q(x)) == both(x)
    ensures Filter(Filter(s, p), q) == Filter(s, both)
  {
    if s != [] {
      FilterTwice(s[1..], p, q, both);
      if p(s[0]) { assert Filter(s, p)[1..] == Filter(s[1..], p); }
    }
  }

  lemma {:induction false} FilterAgrees<T(!new)>(s: seq<T>, p: T -> bool, q: T -> bool)
    requires forall x :: x in s ==> p(x) == q(x)
    ensures Filter(s, p) == Filter(s, q)
  {
    if s != [] {
      assert s[0] in s;
      FilterAgrees(s[1..], p, q);
    }
  }

  lemma {:induction false} FilterJoined<T(!new)>(s: seq<T>, t: seq<T>, keep: T -> bool)
    ensures Filter(s + t, keep) == Filter(s, keep) + Filter(t, keep)
  {
    if s == [] {
      assert s + t == t;
    } else {
      assert (s + t)[1..] == s[1..] + t;
      FilterJoined(s[1..], t, keep);
    }
  }

  lemma {:induction false} FilterAllOrNone<T(!new)>(s: seq<T>, keep: T -> bool)
    ensures (forall x :: x in s ==> keep(x)) ==> Filter(s, keep) == s
    ensures (forall x :: x in s ==> !keep(x)) ==> Filter(s, keep) == []
  {
    if s != [] {
      FilterAllOrNone(s[1..], keep);
      assert s[0] in s && s == [s[0]] + s[1..];
    }
  }

  lemma NoDupCons<T(!new)>(s: seq<T>)
    requires s != []
    ensures NoDup(s) <==> NoDup(s[1..]) && s[0] !in s[1..]
  {
    assert forall k :: 0 <= k < |s| - 1 ==> s[1..][k] == s[k + 1];
    assert forall k :: 1 <= k < |s| ==> s[k] == s[1..][k - 1];
  }

  lemma NoDupSize<T(!new)>(s: seq<T>)
    requires NoDup(s)
    ensures |s| == |Elements(s)|
  {
    if s != [] {
      NoDupSize(s[1..]);
      assert s[0] !in s[1..];
      assert Elements(s) == {s[0]} + Elements(s[1..]);
    }
  }

  lemma TakeMore<T>(s: seq<T>, i: nat)
    requires i < |s|
    ensures s[..i + 1] == s[..i] + [s[i]]
  {
  }

  lemma TakeAll<T>(s: seq<T>)
    ensures s[..|s|] == s
  {
  }

  lemma DropTwice<T>(s: seq<T>, i: nat, j: nat)
    requires i + j <= |s|
    ensures s[i..][j..] == s[i + j..]
  {
  }

  lemma DropPast<T>(s: seq<T>, t: seq<T>, i: nat)
    requires |s| <= i <= |s| + |t|
    ensures (s + t)[i..] == t[i - |s|..]
  {
  }

  lemma EmptyOrNot<T(!new)>(s: seq<T>)
    ensures s == [] || exists x :: x in s
  {
    if s != [] { assert s[0] in s; }
  }

  /** `a` comes before `b` in the list. */
  ghost predicate Precedes<T>(s: seq<T>, a: T, b: T) { exists i, j :: 0 <= i < j < |s| && s[i] == a && s[j] == b }

  lemma PrecedesMore<T(!new)>(s: seq<T>, a: T, b: T, x: T)
    ensures Precedes(s, a, b) ==> Precedes(s + [x], a, b)
    ensures a in s ==> Precedes(s + [x], a, x)
  {
    var t := s + [x];
    if Precedes(s, a, b) {
      var i, j :| 0 <= i < j < |s| && s[i] == a && s[j] == b;
      assert t[i] == a && t[j] == b;
    }
    if a in s {
      var i :| 0 <= i < |s| && s[i] == a;
      assert t[i] == a && t[|s|] == x;
    }
  }

  lemma {:induction false} FilterPrecedes<T(!new)>(s: seq<T>, keep: T -> bool, a: T, b: T)
    requires NoDup(s) && a in s && b in s && keep(a) && keep(b)
    ensures Precedes(Filter(s, keep), a, b) <==> Precedes(s, a, b)
  {
    var f := Filter(s, keep);
    assert NoDup(s[1..]);
    if s[0] == a || s[0] == b || a == b {
      FilterNoDup(s, keep);
      HeadFirst(s, a, b);
      HeadFirst(f, a, b);
      if s[0] != a && s[0] != b {
      } else {
        assert f[0] == s[0];
      }
    } else {
      FilterPrecedes(s[1..], keep, a, b);
      TailPrecedes(s, a, b);
      if keep(s[0]) { assert f[1..] == Filter(s[1..], keep); TailPrecedes(f, a, b); }
    }
  }

  lemma HeadFirst<T>(s: seq<T>, a: T, b: T)
    requires NoDup(s) && a in s && b in s
    ensures a == b ==> !Precedes(s, a, b)
    ensures a != b && s[0] == a ==> Precedes(s, a, b)
    ensures s[0] == b ==> !Precedes(s, a, b)
  {
    var i :| 0 <= i < |s| && s[i] == a;
    var j :| 0 <= j < |s| && s[j] == b;
  }

  lemma TailPrecedes<T>(s: seq<T>, a: T, b: T)
    requires s != [] && s[0] != a
    ensures Precedes(s, a, b) <==> Precedes(s[1..], a, b)
  {
    if Precedes(s, a, b) {
      var i, j :| 0 <= i < j < |s| && s[i] == a && s[j] == b;
      assert s[1..][i - 1] == a && s[1..][j - 1] == b;
    }
    if Precedes(s[1..], a, b) {
      var i, j :| 0 <= i < j < |s[1..]| && s[1..][i] == a && s[1..][j] == b;
      assert s[i + 1] == a && s[j + 1] == b;
    }
  }
}
