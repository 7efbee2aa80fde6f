/** Round numbers for a chart's axis (niceNum and niceTicks in web/charts.js), over the reals. */
module Ticks {
  import opened Wrappers

  /** A number as a caller may pass it. */
  datatype Number = Finite(value: real) | NotFinite

  /** The axis: from and to, the ticks on it, and the step between them where there is one. */
  datatype Scale = Scale(min: real, max: real, ticks: seq<real>, step: Option<real>)

  function Abs(n: int): nat { if n < 0 then -n else n }

  function Pow10(e: int): (p: real)
    ensures p > 0.0
    decreases Abs(e)
  {
    if e == 0 then 1.0 else if e > 0 then 10.0 * Pow10(e - 1) else Pow10(e + 1) / 10.0
  }

  lemma Pow10Next(e: int)
    ensures Pow10(e + 1) == 10.0 * Pow10(e)
  {
  }

  lemma TenthIsLess(x: real)
    requires x > 1.0
    ensures 0 <= (x / 10.0).Floor < x.Floor
  {
  }

  /** How far a number is from lying between 1 and 10. */
  function Away(x: real): nat
    requires x > 0.0
  {
    if x >= 1.0 then x.Floor else (1.0 / x).Floor + 1
  }

  /** The whole part of the decimal logarithm. */
  function FloorLog10(x: real): (e: int)
    requires x > 0.0
    ensures Pow10(e) <= x < Pow10(e + 1)
    decreases x < 1.0, Away(x)
  {
    if x >= 10.0 then
      TenthIsLess(x);
      var e := FloorLog10(x / 10.0);
      Pow10Next(e);
      Pow10Next(e + 1);
      e + 1
    else if x < 1.0 then
      TenthIsLess(1.0 / x);
      InverseTenth(x);
      var e := FloorLog10(x * 10.0);
      Pow10Next(e - 1);
      Pow10Next(e);
      e - 1
    else
      Pow10Next(0);
      0
  }

  lemma InverseTenth(x: real)
    requires x > 0.0
    ensures 1.0 / (x * 10.0) == (1.0 / x) / 10.0
    ensures x < 1.0 ==> 1.0 / x > 1.0
  {
    var y := 1.0 / x;
    assert y * x == 1.0;
    assert (y / 10.0) * (x * 10.0) == 1.0;
  }

  /** A one, a two or a five with zeros after or before it. */
  ghost predicate Round(x: real) { exists e: int :: RoundAt(x, e) }

  ghost predicate RoundAt(x: real, e: int) {
    x == Pow10(e) || x == 2.0 * Pow10(e) || x == 5.0 * Pow10(e)
  }

  ghost predicate Multiple(x: real, step: real) { exists k: int :: MultipleAt(x, step, k) }

  ghost predicate MultipleAt(x: real, step: real, k: int) { x == k as real * step }

  function Leading(f: real, round: bool): real {
    if round then
      if f < 1.5 then 1.0 else if f < 3.0 then 2.0 else if f < 7.0 then 5.0 else 10.0
    else
      if f <= 1.0 then 1.0 else if f <= 2.0 then 2.0 else if f <= 5.0 then 5.0 else 10.0
  }

  function NiceNum(range: real, round: bool): real
    requires range > 0.0
  {
    NiceFor(range, Pow10(FloorLog10(range)), round)
  }

  function NiceFor(range: real, p: real, round: bool): real
    requires p > 0.0
  {
    Leading(range / p, round) * p
  }

  lemma LogIs(range: real)
    requires range > 0.0
    ensures var p := Pow10(FloorLog10(range)); 0.0 < p <= range < 10.0 * p
  {
    Pow10Next(FloorLog10(range));
  }

  /**
   * A round number near `range`: the nearest kind never takes off a third or more nor adds more than
   * two, and the other kind is never below and never two and a half times as much.
   */
  lemma NiceNumIs(range: real, round: bool)
    requires range > 0.0
    ensures var r := NiceNum(range, round);
      && r > 0.0 && Round(r)
      && (round ==> 2.0 * range < 3.0 * r <= 5.0 * range)
      && (!round ==> range <= r && 2.0 * r < 5.0 * range)
  {
    LogIs(range);
    NiceAt(range, FloorLog10(range), Pow10(FloorLog10(range)), round, NiceNum(range, round));
  }

  lemma NiceAt(range: real, exp: int, p: real, round: bool, r: real)
    requires p == Pow10(exp) && 0.0 < p <= range < 10.0 * p && r == NiceFor(range, p, round)
    ensures r > 0.0 && Round(r)
    ensures round ==> 2.0 * range < 3.0 * r <= 5.0 * range
    ensures !round ==> range <= r && 2.0 * r < 5.0 * range
  {
    var f := range / p;
    Scaled(range, p, f);
    Kept(f, Leading(f, round), p, range, r, round);
    RoundOf(exp, Leading(f, round), r);
  }

  /** 1, 2, 5 or 10 times `p`: for the nearest kind up to 1.5, 3 and 7 times it, else the first that is no smaller. */
  function RoundFrom(range: real, p: real, round: bool): real {
    if round then
      if range < 1.5 * p then p else if range < 3.0 * p then 2.0 * p else if range < 7.0 * p then 5.0 * p else 10.0 * p
    else
      if range <= p then p else if range <= 2.0 * p then 2.0 * p else if range <= 5.0 * p then 5.0 * p else 10.0 * p
  }

  lemma LeadsTo(f: real, p: real, range: real, round: bool, lead: real, r: real)
    requires p > 0.0 && range == f * p && lead == Leading(f, round) && r == lead * p
    ensures r == RoundFrom(range, p, round)
  {
    if round {
      Bound(f, 1.5, p, range, 1.5 * p);
      Bound(f, 3.0, p, range, 3.0 * p);
      Bound(f, 7.0, p, range, 7.0 * p);
    } else {
      Bound(f, 1.0, p, range, p);
      Bound(f, 2.0, p, range, 2.0 * p);
      Bound(f, 5.0, p, range, 5.0 * p);
    }
  }

  lemma ExactAt(range: real, p: real, round: bool, r: real)
    requires 0.0 < p <= range < 10.0 * p && r == NiceFor(range, p, round)
    ensures r == RoundFrom(range, p, round)
  {
    var f := range / p;
    Scaled(range, p, f);
    LeadsTo(f, p, range, round, Leading(f, round), r);
  }

  /** Which round number it is, told from the power of ten at or below the range. */
  lemma NiceNumExactly(range: real, round: bool, e: int)
    requires Pow10(e) <= range < Pow10(e + 1)
    ensures NiceNum(range, round) == RoundFrom(range, Pow10(e), round)
  {
    Pow10Next(e);
    SameLog(range, e, FloorLog10(range));
    ExactAt(range, Pow10(e), round, NiceNum(range, round));
  }

  lemma Bound(f: real, b: real, p: real, range: real, bp: real)
    requires p > 0.0 && range == f * p && bp == b * p
    ensures (f < b <==> range < bp) && (f <= b <==> range <= bp)
  {
    Times(f, b, p, range, bp);
    Times(b, f, p, bp, range);
  }

  lemma {:induction false} TensGrow(a: int, b: int)
    requires a <= b
    ensures Pow10(a) <= Pow10(b)
    decreases b - a
  {
    if a < b {
      TensGrow(a, b - 1);
      Pow10Next(b - 1);
    }
  }

  lemma SameLog(range: real, a: int, b: int)
    requires Pow10(a) <= range < Pow10(a + 1) && Pow10(b) <= range < Pow10(b + 1)
    ensures a == b
  {
    if a < b { TensGrow(a + 1, b); }
    if b < a { TensGrow(b + 1, a); }
  }

  /** Multiplying keeps the order; the products are named by whoever needs them. */
  lemma Times(a: real, b: real, p: real, ap: real, bp: real)
    requires p > 0.0 && ap == a * p && bp == b * p
    ensures (a <= b ==> ap <= bp) && (a < b ==> ap < bp)
  {
    assert (b - a) * p == bp - ap;
    if a < b { assert (b - a) * p > 0.0; }
  }

  lemma Scaled(range: real, p: real, f: real)
    requires p > 0.0 && p <= range < 10.0 * p && f == range / p
    ensures 1.0 <= f < 10.0 && range == f * p
  {
    assert f * p == range;
    Times(f, 1.0, p, range, p);
    Times(10.0, f, p, 10.0 * p, range);
  }

  lemma Kept(f: real, nf: real, p: real, range: real, r: real, round: bool)
    requires p > 0.0 && 1.0 <= f < 10.0 && nf == Leading(f, round) && range == f * p && r == nf * p
    ensures r > 0.0
    ensures round ==> 2.0 * range < 3.0 * r <= 5.0 * range
    ensures !round ==> range <= r && 2.0 * r < 5.0 * range
  {
    assert 0.0 == 0.0 * p;
    Times(0.0, nf, p, 0.0, r);
    if round {
      var two, three, five := 2.0 * f, 3.0 * nf, 5.0 * f;
      assert two * p == 2.0 * range && three * p == 3.0 * r && five * p == 5.0 * range;
      Times(two, three, p, 2.0 * range, 3.0 * r);
      Times(three, five, p, 3.0 * r, 5.0 * range);
    } else {
      var two, five := 2.0 * nf, 5.0 * f;
      assert two * p == 2.0 * r && five * p == 5.0 * range;
      Times(f, nf, p, range, r);
      Times(two, five, p, 2.0 * r, 5.0 * range);
    }
  }

  lemma RoundOf(exp: int, nf: real, r: real)
    requires nf in {1.0, 2.0, 5.0, 10.0} && r == nf * Pow10(exp)
    ensures Round(r)
  {
    if nf == 10.0 {
      Pow10Next(exp);
      assert RoundAt(r, exp + 1);
    } else {
      assert RoundAt(r, exp);
    }
  }

  function Ceiling(x: real): (k: int)
    ensures k as real - 1.0 < x <= k as real
  {
    -((-x).Floor)
  }

  lemma FloorStep(x: real, step: real, k: int, at: real)
    requires step > 0.0 && k == (x / step).Floor && at == k as real * step
    ensures at <= x < at + step
  {
    var a := x / step;
    var next := k as real + 1.0;
    assert a * step == x;
    assert next * step == at + step;
    Times(k as real, a, step, at, x);
    Times(a, next, step, x, at + step);
  }

  lemma CeilingStep(x: real, step: real, k: int, at: real)
    requires step > 0.0 && k == Ceiling(x / step) && at == k as real * step
    ensures at - step < x <= at
  {
    var a := x / step;
    var previous := k as real - 1.0;
    assert a * step == x;
    assert previous * step == at - step;
    Times(a, k as real, step, x, at);
    Times(previous, a, step, at - step, x);
  }

  lemma StepsRise(from: real, to: real, step: real)
    requires step > 0.0 && from < to
    ensures (from / step).Floor < Ceiling(to / step)
  {
    var a, b := from / step, to / step;
    assert a * step == from && b * step == to;
    Times(b, a, step, to, from);
  }

  /** `n` steps, one after another. */
  function Steps(n: nat, step: real): real { if n == 0 then 0.0 else Steps(n - 1, step) + step }

  lemma {:induction false} StepsAre(n: nat, step: real)
    ensures Steps(n, step) == n as real * step
  {
    if n > 0 {
      StepsAre(n - 1, step);
      var k := (n - 1) as real;
      assert n as real == k + 1.0;
      assert (k + 1.0) * step == k * step + step;
    }
  }

  lemma {:induction false} StepsGrow(n: nat, m: nat, step: real)
    requires step > 0.0
    ensures n <= m ==> Steps(n, step) <= Steps(m, step)
    ensures n > m ==> Steps(n, step) >= Steps(m, step) + step
    decreases n + m
  {
    if n < m {
      StepsGrow(n, m - 1, step);
    } else if n > m + 1 {
      StepsGrow(n - 1, m, step);
    }
  }

  /** There are neither too many steps nor far too few. */
  lemma StepsCounted(span: real, range: real, each: real, step: real, parts: nat, n: nat)
    requires span > 0.0 && parts >= 1 && step > 0.0 && range == Steps(parts, each)
    requires span <= range && 2.0 * range < 5.0 * span
    requires 2.0 * each < 3.0 * step <= 5.0 * each
    requires span <= Steps(n, step) < span + 2.0 * step
    ensures n as real < 1.5 * parts as real + 2.0
    ensures 6.0 * parts as real < 25.0 * n as real
  {
    StepsAre(parts, each);
    StepsAre(n, step);
    Counted(span, range, each, step, parts as real, n as real, Steps(n, step));
  }

  lemma Counted(span: real, range: real, each: real, step: real, parts: real, n: real, length: real)
    requires span > 0.0 && parts >= 1.0 && step > 0.0 && length == n * step && range == parts * each
    requires span <= range && 2.0 * range < 5.0 * span
    requires 2.0 * each < 3.0 * step <= 5.0 * each
    requires span <= length < span + 2.0 * step
    ensures n < 1.5 * parts + 2.0
    ensures 6.0 * parts < 25.0 * n
  {
    var sp := step * parts;
    Spread(range, each, step, parts, sp);
    var most := 1.5 * parts + 2.0;
    assert most * step == 1.5 * sp + 2.0 * step;
    Times(most, n, step, 1.5 * sp + 2.0 * step, length);
    var least := 0.24 * parts;
    assert least * step == 0.24 * sp;
    Times(n, least, step, length, 0.24 * sp);
  }

  lemma Spread(range: real, each: real, step: real, parts: real, sp: real)
    requires parts >= 1.0 && sp == step * parts && range == parts * each
    requires 2.0 * each < 3.0 * step <= 5.0 * each
    ensures 2.0 * range < 3.0 * sp <= 5.0 * range
  {
    var two, three, five := 2.0 * each, 3.0 * step, 5.0 * each;
    assert two * parts == 2.0 * range;
    assert three * parts == 3.0 * sp;
    assert five * parts == 5.0 * range;
    Times(two, three, parts, 2.0 * range, 3.0 * sp);
    Times(three, five, parts, 3.0 * sp, 5.0 * range);
  }

  /** What an axis is for: round evenly spaced ticks, round the data and not far beyond it, and few enough to read. */
  ghost predicate Fits(s: Scale, min: real, max: real, maxTicks: int) {
    && s.step.Some? && s.step.value > 0.0 && Round(s.step.value)
    && |s.ticks| >= 2 && s.ticks[0] == s.min && s.ticks[|s.ticks| - 1] == s.max
    && (forall i :: 0 <= i < |s.ticks| - 1 ==> s.ticks[i + 1] == s.ticks[i] + s.step.value)
    && Multiple(s.min, s.step.value)
    && s.min <= min < s.min + s.step.value && s.max - s.step.value < max <= s.max
    && 6.0 * (maxTicks - 1) as real < 25.0 * (|s.ticks| - 1) as real
    && |s.ticks| as real < 1.5 * (maxTicks - 1) as real + 3.0
  }

  /** A round number near `range`, by what it promises. */
  method NiceOf(range: real, round: bool) returns (r: real)
    requires range > 0.0
    ensures RoundOfRange(range, round, r)
    ensures r > 0.0 && Round(r)
    ensures round ==> 2.0 * range < 3.0 * r <= 5.0 * range
    ensures !round ==> range <= r && 2.0 * r < 5.0 * range
  {
    NiceNumIs(range, round);
    NiceNumExactly(range, round, FloorLog10(range));
    r := NiceNum(range, round);
  }

  /** `r` is the round number for the range, told from the power of ten at or below it. */
  ghost predicate RoundOfRange(range: real, round: bool, r: real) {
    exists e: int :: Pow10(e) <= range < Pow10(e + 1) && r == RoundFrom(range, Pow10(e), round)
  }

  /** The step for a span in so many parts: the span is made round and shared out, and that is made round. */
  ghost predicate IsStep(span: real, parts: nat, step: real) {
    exists range, each: real ::
      RoundOfRange(span, false, range) && range == Steps(parts, each) && RoundOfRange(each, true, step)
  }

  method StepFor(span: real, parts: nat) returns (step: real, ghost range: real, ghost each: real)
    requires span > 0.0 && parts >= 1
    ensures IsStep(span, parts, step) && step > 0.0 && Round(step)
    ensures range == Steps(parts, each) && span <= range && 2.0 * range < 5.0 * span
    ensures 2.0 * each < 3.0 * step <= 5.0 * each
  {
    var rounded := NiceOf(span, false);
    var share := Share(rounded, parts);
    step := NiceOf(share, true);
    range, each := rounded, share;
  }

  method TicksBetween(from: real, to: real, maxTicks: int) returns (s: Scale)
    requires maxTicks >= 2 && from < to
    ensures Fits(s, from, to, maxTicks) && s.step.Some? && IsStep(to - from, maxTicks - 1, s.step.value)
  {
    var step, range, each := StepFor(to - from, maxTicks - 1);
    s := PlaceTicks(from, to, step);
    StepsCounted(to - from, range, each, step, maxTicks - 1, |s.ticks| - 1);
  }

  method NiceTicks(min: Number, max: Number, maxTicks: int) returns (s: Scale)
    requires maxTicks >= 2 && (min.Finite? && max.Finite? ==> min.value <= max.value)
    ensures min.NotFinite? || max.NotFinite? ==> s == Scale(0.0, 1.0, [0.0, 1.0], None)
    // Not split into its parts. A range of nothing is made one wide.
    ensures min.Finite? && max.Finite? ==>
      Fits(s, min.value, if max.value == min.value then min.value + 1.0 else max.value, maxTicks) == true
    ensures min.Finite? && max.Finite? ==> s.step.Some?
    ensures min.Finite? && max.Finite? && max.value != min.value ==>
      IsStep(max.value - min.value, maxTicks - 1, s.step.value)
    ensures min.Finite? && max == min ==> IsStep(1.0, maxTicks - 1, s.step.value)
  {
    if min.NotFinite? || max.NotFinite? { return Scale(0.0, 1.0, [0.0, 1.0], None); }
    var from, to := min.value, max.value;
    if to == from { to := from + 1.0; }
    s := TicksBetween(from, to, maxTicks);
  }

  /** A range shared out evenly. */
  method Share(range: real, parts: nat) returns (each: real)
    requires range > 0.0 && parts >= 1
    ensures each > 0.0 && range == Steps(parts, each)
  {
    each := range / parts as real;
    StepsAre(parts, each);
  }

  /** Every multiple of the step from the last one not above the range to the first one not below it. */
  method PlaceTicks(from: real, to: real, step: real) returns (s: Scale)
    requires step > 0.0 && from < to
    ensures s.step == Some(step) && |s.ticks| >= 2 && s.ticks[0] == s.min && s.ticks[|s.ticks| - 1] == s.max
    ensures forall i :: 0 <= i < |s.ticks| - 1 ==> s.ticks[i + 1] == s.ticks[i] + step
    ensures Multiple(s.min, step) && s.min <= from < s.min + step && s.max - step < to <= s.max
    ensures s.max - s.min == Steps(|s.ticks| - 1, step)
  {
    var lo, hi := (from / step).Floor, Ceiling(to / step);
    var nmin, nmax := lo as real * step, hi as real * step;
    StepsRise(from, to, step);
    FloorStep(from, step, lo, nmin);
    CeilingStep(to, step, hi, nmax);
    StepsBetween(lo, hi, step, nmin, nmax);
    var ticks := EveryStep(nmin, nmax, step, hi - lo);
    s := Scale(nmin, nmax, ticks, Some(step));
    assert MultipleAt(s.min, step, lo);
  }

  lemma StepsBetween(lo: int, hi: int, step: real, nmin: real, nmax: real)
    requires lo <= hi && nmin == lo as real * step && nmax == hi as real * step
    ensures nmax - nmin == Steps(hi - lo, step)
  {
    StepsAre(hi - lo, step);
    Spans(hi as real, lo as real, (hi - lo) as real, step);
  }

  lemma Spans(a: real, b: real, d: real, step: real)
    requires d == a - b
    ensures d * step == a * step - b * step
  {
  }

  method EveryStep(nmin: real, nmax: real, step: real, ghost count: nat) returns (ticks: seq<real>)
    requires step > 0.0 && nmax == nmin + Steps(count, step)
    ensures |ticks| == count + 1 && ticks[0] == nmin && ticks[count] == nmax
    ensures forall i :: 0 <= i < count ==> ticks[i + 1] == ticks[i] + step
  {
    ticks := [];
    var v := nmin;
    StepsGrow(0, count, step);
    while v <= nmax + step * 0.5
      invariant |ticks| <= count + 1 && v == nmin + Steps(|ticks|, step)
      invariant v <= nmax + step * 0.5 <==> |ticks| <= count
      invariant forall i {:trigger ticks[i]} :: 0 <= i < |ticks| ==> ticks[i] == nmin + Steps(i, step)
      decreases count + 1 - |ticks|
    {
      ticks, v := ticks + [v], v + step;
      StepsGrow(|ticks|, count, step);
    }
  }
}
