/** Plain text: the few operations on strings the other modules share. */
module Text {

  predicate IsDigit(c: char) { '0' <= c <= '9' }

  predicate IsSpace(c: char) { c in {' ', '\t', '\n', '\r', 0x0b as char, 0x0c as char} }

  function TrimLeft(s: string): string {
    if s != [] && IsSpace(s[0]) then TrimLeft(s[1..]) else s
  }

  function TrimRight(s: string): string {
    if s != [] && IsSpace(s[|s| - 1]) then TrimRight(s[..|s| - 1]) else s
  }

  /** The text without the white space at either end. */
  function Trim(s: string): string { TrimRight(TrimLeft(s)) }

  lemma TrimNothing(s: string)
    requires s != [] ==> !IsSpace(s[0]) && !IsSpace(s[|s| - 1])
    ensures Trim(s) == s
  {
  }

  /** How many characters at the front are digits. */
  function DigitRun(s: string): (n: nat)
    ensures n <= |s| && (forall i :: 0 <= i < n ==> IsDigit(s[i])) && (n < |s| ==> !IsDigit(s[n]))
  {
    if s != [] && IsDigit(s[0]) then 1 + DigitRun(s[1..]) else 0
  }

  function DigitOf(n: nat): (c: char)
    requires n < 10
    ensures IsDigit(c) && c as int - '0' as int == n
  {
    ('0' as int + n) as char
  }

  /** A natural number in decimal, with no zeros in front. */
  function Digits(n: nat): (s: string)
    ensures s != [] && forall c :: c in s ==> IsDigit(c)
  {
    if n < 10 then [DigitOf(n)] else Digits(n / 10) + [DigitOf(n % 10)]
  }

  function Itoa(n: int): string { if n < 0 then "-" + Digits(-n) else Digits(n) }

  /** What a run of digits is worth. */
  function Worth(s: string): (n: nat)
    requires forall c :: c in s ==> IsDigit(c)
  {
    if s == [] then 0
    else assert IsDigit(s[|s| - 1]); Worth(s[..|s| - 1]) * 10 + (s[|s| - 1] as int - '0' as int)
  }

  lemma {:induction false} DigitsWorth(n: nat)
    ensures Worth(Digits(n)) == n
  {
    if n >= 10 {
      DigitsWorth(n / 10);
      var s := Digits(n);
      assert s[..|s| - 1] == Digits(n / 10);
    } else {
      assert Digits(n)[..0] == [];
    }
  }

  lemma {:induction false} DigitRunOf(s: string, t: string)
    requires (forall c :: c in s ==> IsDigit(c)) && (t != [] ==> !IsDigit(t[0]))
    ensures DigitRun(s + t) == |s| && (s + t)[..|s|] == s && (s + t)[|s|..] == t
  {
    if s == [] {
      assert s + t == t;
    } else {
      assert (s + t)[1..] == s[1..] + t && (s + t)[0] == s[0] && s[0] in s;
      DigitRunOf(s[1..], t);
    }
  }

  /** Character by character; a prefix comes first. */
  function CompareText(a: string, b: string): int {
    if a == [] && b == [] then 0
    else if a == [] then -1
    else if b == [] then 1
    else if a[0] < b[0] then -1
    else if b[0] < a[0] then 1
    else CompareText(a[1..], b[1..])
  }

  lemma {:induction false} CompareSame(a: string, b: string)
    ensures CompareText(a, b) == 0 <==> a == b
    ensures CompareText(a, b) <= 0 <==> CompareText(b, a) >= 0
    decreases |a|
  {
    if a != [] && b != [] && a[0] == b[0] {
      CompareSame(a[1..], b[1..]);
      assert a == [a[0]] + a[1..] && b == [b[0]] + b[1..];
    }
  }

  lemma {:induction false} CompareTransitive(a: string, b: string, c: string)
    requires CompareText(a, b) <= 0 && CompareText(b, c) <= 0
    ensures CompareText(a, c) <= 0
    decreases |a|
  {
    if a != [] && b != [] && c != [] && a[0] == b[0] == c[0] { CompareTransitive(a[1..], b[1..], c[1..]); }
  }

  /** Up to `i` the two are alike, and there `a` ends or has the smaller character. */
  ghost predicate SmallerAt(a: string, b: string, i: nat) {
    i <= |a| && i < |b| && a[..i] == b[..i] && (i < |a| ==> a[i] < b[i])
  }

  /** `a` is the beginning of `b`, or smaller where they first differ. */
  ghost predicate ComesBefore(a: string, b: string) { exists i: nat :: SmallerAt(a, b, i) }

  lemma FirstDiffers(a: string, b: string)
    requires a != [] && b != [] && a[0] != b[0]
    ensures ComesBefore(a, b) <==> a[0] < b[0]
  {
    assert SmallerAt(a, b, 0) <==> a[0] < b[0] by { assert a[..0] == b[..0]; }
    forall i: nat ensures SmallerAt(a, b, i) <==> i == 0 && a[0] < b[0] {
      if 0 < i <= |a| && i < |b| { assert a[..i][0] == a[0] && b[..i][0] == b[0]; }
    }
  }

  lemma {:induction false} ComparesAsText(a: string, b: string)
    ensures CompareText(a, b) < 0 <==> ComesBefore(a, b)
    decreases |a|
  {
    if a != [] && b != [] && a[0] == b[0] {
      ComparesAsText(a[1..], b[1..]);
      if ComesBefore(a[1..], b[1..]) {
        var i: nat :| SmallerAt(a[1..], b[1..], i);
        assert a[..i + 1] == [a[0]] + a[1..][..i] && b[..i + 1] == [b[0]] + b[1..][..i];
        assert SmallerAt(a, b, i + 1);
      }
      if ComesBefore(a, b) {
        var i: nat :| SmallerAt(a, b, i);
        assert a[1..][..i - 1] == a[..i][1..] && b[1..][..i - 1] == b[..i][1..];
        assert SmallerAt(a[1..], b[1..], i - 1);
      }
    } else if a != [] && b != [] {
      FirstDiffers(a, b);
    } else if b != [] {
      assert SmallerAt(a, b, 0);
    }
  }

  /** Trimming takes white space off both ends, and all that is there. */
  lemma TrimIs(s: string) returns (front: string, back: string)
    ensures s == front + Trim(s) + back && forall c :: c in front + back ==> IsSpace(c)
    ensures Trim(s) != [] ==> !IsSpace(Trim(s)[0]) && !IsSpace(Trim(s)[|Trim(s)| - 1])
  {
    front := TrimLeftIs(s);
    back := TrimRightIs(TrimLeft(s));
  }

  lemma {:induction false} TrimLeftIs(s: string) returns (front: string)
    ensures s == front + TrimLeft(s) && forall c :: c in front ==> IsSpace(c)
    ensures TrimLeft(s) != [] ==> !IsSpace(TrimLeft(s)[0])
  {
    front := [];
    if s != [] && IsSpace(s[0]) {
      front := TrimLeftIs(s[1..]);
      front := [s[0]] + front;
    }
  }

  lemma {:induction false} TrimRightIs(s: string) returns (back: string)
    ensures s == TrimRight(s) + back && forall c :: c in back ==> IsSpace(c)
    ensures TrimRight(s) != [] ==> !IsSpace(TrimRight(s)[|TrimRight(s)| - 1]) && TrimRight(s)[0] == s[0]
  {
    back := [];
    if s != [] && IsSpace(s[|s| - 1]) {
      var n := |s| - 1;
      back := TrimRightIs(s[..n]);
      assert s == s[..n] + [s[n]];
      back := back + [s[n]];
    }
  }

  lemma TrimTwice(s: string)
    ensures Trim(Trim(s)) == Trim(s)
  {
    var front, back := TrimIs(s);
    TrimNothing(Trim(s));
  }

  function TenTo(n: nat): nat { if n == 0 then 1 else 10 * TenTo(n - 1) }

  lemma WorthSnoc(s: string, c: char)
    requires (forall d :: d in s ==> IsDigit(d)) && IsDigit(c)
    ensures (forall d :: d in s + [c] ==> IsDigit(d)) && Worth(s + [c]) == Worth(s) * 10 + (c as int - '0' as int)
  {
    assert (s + [c])[..|s|] == s;
  }

  /** Each digit counts ten times what the one after it does. */
  lemma {:induction false} WorthJoined(s: string, t: string)
    requires (forall c :: c in s ==> IsDigit(c)) && forall c :: c in t ==> IsDigit(c)
    ensures (forall c :: c in s + t ==> IsDigit(c)) && Worth(s + t) == Worth(s) * TenTo(|t|) + Worth(t)
  {
    if t == [] {
      assert s + t == s;
    } else {
      var n := |t| - 1;
      var c := t[n];
      assert c in t && t == t[..n] + [c] && s + t == (s + t[..n]) + [c];
      WorthJoined(s, t[..n]);
      WorthSnoc(s + t[..n], c);
      WorthSnoc(t[..n], c);
      TenTimes(Worth(s), TenTo(n));
    }
  }

  lemma TenTimes(w: nat, z: nat)
    ensures w * z * 10 == w * (10 * z)
  {
  }
}
