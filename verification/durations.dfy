/** Durations as they are written in the agent's file (formatDuration and parseDurationJSON in configfile.go). */
module Durations {
  import opened Wrappers
  import opened Text

  /* Nanoseconds, as the platform counts them. */
  const SECOND := 1_000_000_000
  const MINUTE := 60 * SECOND
  const HOUR := 60 * MINUTE
  const TWO_TO_63 := 0x8000_0000_0000_0000

  predicate IsInt64(n: int) { -TWO_TO_63 <= n < TWO_TO_63 }

  /** A duration that is not a whole number of seconds is written by the platform, which is not modelled. */
  function FormatDuration(d: int): Option<string> {
    if d == 0 then Some("0s")
    else if d % HOUR == 0 then Some(Itoa(d / HOUR) + "h")
    else if d % MINUTE == 0 then Some(Itoa(d / MINUTE) + "m")
    else if d % SECOND == 0 then Some(Itoa(d / SECOND) + "s")
    else None
  }

  function UnitOf(u: string): Option<nat> {
    if u == "ns" then Some(1)
    else if u == "us" then Some(1_000)
    else if u == "ms" then Some(1_000_000)
    else if u == "s" then Some(SECOND)
    else if u == "m" then Some(MINUTE)
    else if u == "h" then Some(HOUR)
    else None
  }

  /** How many characters come before the next number. */
  function UnitRun(s: string): (n: nat)
    ensures n <= |s|
  {
    if s == [] || IsDigit(s[0]) || s[0] == '.' then 0 else 1 + UnitRun(s[1..])
  }

  /** A run of numbers, each with its unit, added to what was read before. */
  function ParseParts(s: string, sum: nat): (total: Option<nat>)
    ensures sum <= TWO_TO_63 && total.Some? ==> total.value <= TWO_TO_63
    decreases |s|
  {
    if s == [] then Some(sum)
    else
      var n := DigitRun(s);
      var rest := s[n..];
      var i := UnitRun(rest);
      if n == 0 || i == 0 || UnitOf(rest[..i]).None? then None
      else
        var v, unit := Worth(s[..n]), UnitOf(rest[..i]).value;
        if v > TWO_TO_63 / unit || sum + v * unit > TWO_TO_63 then None
        else ParseParts(rest[i..], sum + v * unit)
  }

  /** A signed run of whole numbers with units: "90s", "1h30m", "-15m". */
  function ParseDuration(s: string): (d: Option<int>)
    ensures d.Some? ==> IsInt64(d.value)
  {
    var neg := s != [] && s[0] == '-';
    var t := Unsigned(s);
    if t == ['0'] then Some(0)
    else if t == [] then None
    else
      var sum := ParseParts(t, 0);
      if sum.None? then None else Signed(neg, sum.value)
  }

  function Unsigned(s: string): string { if s != [] && (s[0] == '-' || s[0] == '+') then s[1..] else s }

  function Signed(neg: bool, d: int): Option<int> {
    if neg then Some(-d) else if d < TWO_TO_63 then Some(d) else None
  }

  /** A whole number, read as so many seconds. */
  function ParseSeconds(s: string): Option<int> {
    var neg := s != [] && s[0] == '-';
    var t := Unsigned(s);
    if t != [] && DigitRun(t) == |t| then
      var w: int := Worth(t);
      Some((if neg then -w else w) * SECOND)
    else None
  }

  datatype Json = JsonText(text: string) | JsonNumber(whole: int) | JsonOther

  function ParseDurationJson(v: Json): Option<int> {
    match v
    case JsonText(s) =>
      var t := Trim(s);
      if ParseDuration(t).Some? then ParseDuration(t) else ParseSeconds(t)
    case JsonNumber(n) => Some(n * SECOND)
    case JsonOther => None
  }

  lemma Fits(n: nat, unit: nat, top: nat)
    requires unit > 0 && n * unit <= top
    ensures n <= top / unit
  {
    var q := top / unit;
    assert top < (q + 1) * unit;
    Mono(q + 1, n, unit);
  }

  lemma Mono(a: nat, b: nat, c: nat)
    ensures a <= b ==> a * c <= b * c
  {
    if a <= b { assert (b - a) * c >= 0; }
  }

  lemma OnePart(n: nat, u: string, unit: nat)
    requires UnitOf(u) == Some(unit) && n * unit <= TWO_TO_63
    ensures ParseParts(Digits(n) + u, 0) == Some(n * unit)
  {
    assert !IsDigit(u[0]) && UnitRun(u) == |u| && unit > 0;
    DigitRunOf(Digits(n), u);
    DigitsWorth(n);
    Fits(n, unit, TWO_TO_63);
    assert u[..|u|] == u && u[|u|..] == [];
  }

  /** The sign of a written number, and what is left without it. */
  lemma SignOf(n: int, u: string)
    ensures var s := Itoa(n) + u; var ds := Digits(if n < 0 then -n else n);
      && s != [] && (s[0] == '-' <==> n < 0) && Unsigned(s) == ds + u && IsDigit(ds[0]) && IsDigit(ds[|ds| - 1])
      && !IsSpace(s[0])
  {
    var ds := Digits(if n < 0 then -n else n);
    assert ds[0] in ds && ds[|ds| - 1] in ds;
    if n < 0 { assert (Itoa(n) + u)[1..] == ds + u; }
  }

  lemma NumberAndUnit(n: int, u: string, unit: nat)
    requires |u| == 1 && !IsSpace(u[0]) && UnitOf(u) == Some(unit) && IsInt64(n * unit)
    ensures ParseDuration(Itoa(n) + u) == Some(n * unit)
    ensures Trim(Itoa(n) + u) == Itoa(n) + u
  {
    var magnitude: nat := if n < 0 then -n else n;
    SignOf(n, u);
    SignTimes(n, unit);
    OnePart(magnitude, u, unit);
    assert |Digits(magnitude) + u| > 1;
    TrimNothing(Itoa(n) + u);
  }

  lemma SignTimes(n: int, unit: nat)
    ensures (-n) * unit == -(n * unit)
    ensures n >= 0 ==> n * unit >= 0
  {
  }

  lemma WholeUnits(d: int, unit: nat)
    requires unit > 0 && d % unit == 0
    ensures d / unit * unit == d
  {
  }

  /** A whole number of seconds, written and read back, is the same duration. */
  lemma DurationReadsBack(d: int)
    requires IsInt64(d) && d % SECOND == 0
    ensures FormatDuration(d).Some? && ParseDurationJson(JsonText(FormatDuration(d).value)) == Some(d)
  {
    if d == 0 {
      NumberAndUnit(0, "s", SECOND);
      assert Itoa(0) + "s" == "0s";
    } else if d % HOUR == 0 {
      WholeUnits(d, HOUR);
      NumberAndUnit(d / HOUR, "h", HOUR);
    } else if d % MINUTE == 0 {
      WholeUnits(d, MINUTE);
      NumberAndUnit(d / MINUTE, "m", MINUTE);
    } else {
      WholeUnits(d, SECOND);
      NumberAndUnit(d / SECOND, "s", SECOND);
    }
  }

  /** A bare whole number, as text or as a number, is so many seconds, as far as a duration can count them. */
  lemma BareSeconds(n: int)
    requires IsInt64(n * SECOND)
    ensures ParseDurationJson(JsonText(Itoa(n))) == Some(n * SECOND)
    ensures ParseDurationJson(JsonNumber(n)) == Some(n * SECOND) && ParseDurationJson(JsonOther) == None
  {
    var magnitude: nat := if n < 0 then -n else n;
    SignOf(n, []);
    assert Itoa(n) + [] == Itoa(n) && Digits(magnitude) + [] == Digits(magnitude);
    TrimNothing(Itoa(n));
    DigitRunOf(Digits(magnitude), []);
    DigitsWorth(magnitude);
    BareIsNoDuration(Itoa(n), Digits(magnitude), magnitude);
    BareIsSeconds(Itoa(n), n, Digits(magnitude));
  }

  lemma BareIsSeconds(s: string, n: int, ds: string)
    requires s != [] && (s[0] == '-' <==> n < 0) && Unsigned(s) == ds && ds != [] && DigitRun(ds) == |ds|
    requires (forall c :: c in ds ==> IsDigit(c)) && Worth(ds) == if n < 0 then -n else n
    ensures ParseSeconds(s) == Some(n * SECOND)
  {
  }

  /** Digits with no unit after them are not a duration, but for a lone zero. */
  lemma BareIsNoDuration(s: string, ds: string, magnitude: nat)
    requires Unsigned(s) == ds && ds != [] && DigitRun(ds) == |ds|
    requires (forall c :: c in ds ==> IsDigit(c)) && Worth(ds) == magnitude
    ensures ParseDuration(s) == None || (ParseDuration(s) == Some(0) && magnitude == 0)
  {
    assert ds[|ds|..] == [];
    assert ParseParts(ds, 0) == None;
    if ds == ['0'] { assert ds[..0] == []; }
  }

  lemma WholeUnit(n: int, unit: nat)
    requires unit > 0
    ensures n * unit % unit == 0 && n * unit / unit == n
  {
    var q, r := n * unit / unit, n * unit % unit;
    assert n * unit == q * unit + r;
    SameUnits(n, q, unit, r);
  }

  lemma SameUnits(n: int, q: int, unit: nat, r: nat)
    requires unit > 0 && n * unit == q * unit + r && r < unit
    ensures n == q && r == 0
  {
    assert (n - q) * unit == r;
    if n > q { Mono(1, n - q, unit); }
    if n < q { Mono(1, q - n, unit); }
  }

  /** A number of units that does not fill larger ones is no number of those. */
  lemma NotWhole(n: int, unit: nat, k: nat, larger: nat)
    requires unit > 0 && k > 0 && larger == k * unit && n % k != 0
    ensures n * unit % larger != 0
  {
    if n * unit % larger == 0 {
      var q := n * unit / larger;
      assert n * unit == q * larger == (q * k) * unit;
      SameUnits(n, q * k, unit, 0);
      WholeUnit(q, k);
    }
  }

  /** The largest unit a duration is a whole number of is the one it is written in. */
  lemma WrittenInUnits(n: int)
    ensures FormatDuration(0) == Some("0s")
    ensures n != 0 ==> FormatDuration(n * 3_600_000_000_000) == Some(Itoa(n) + "h")
    ensures n % 60 != 0 ==> FormatDuration(n * 60_000_000_000) == Some(Itoa(n) + "m")
    ensures n % 60 != 0 ==> FormatDuration(n * 1_000_000_000) == Some(Itoa(n) + "s")
  {
    WholeUnit(n, HOUR);
    WholeUnit(n, MINUTE);
    WholeUnit(n, SECOND);
    if n % 60 != 0 {
      NotWhole(n, MINUTE, 60, HOUR);
      NotWhole(n, SECOND, 60, MINUTE);
      SixtyTimes(n);
      NotWhole(n, SECOND, 3600, HOUR);
    }
  }

  lemma SixtyTimes(n: int)
    requires n % 60 != 0
    ensures n % 3600 != 0
  {
  }

  lemma UnitThen(u: string, rest: string)
    requires u in {"h", "m", "s"} && (rest != [] ==> IsDigit(rest[0]))
    ensures UnitRun(u + rest) == 1 && (u + rest)[..1] == u && (u + rest)[1..] == rest && !IsDigit((u + rest)[0])
  {
    assert (u + rest)[1..] == rest;
  }

  /** One number and its unit, and more after it. */
  lemma PartThen(n: nat, u: string, unit: nat, rest: string, sum: nat)
    requires u in {"h", "m", "s"} && UnitOf(u) == Some(unit) && (rest != [] ==> IsDigit(rest[0]))
    requires sum + n * unit <= TWO_TO_63
    ensures ParseParts(Digits(n) + (u + rest), sum) == ParseParts(rest, sum + n * unit)
  {
    UnitThen(u, rest);
    DigitRunOf(Digits(n), u + rest);
    DigitsWorth(n);
    Fits(n, unit, TWO_TO_63);
  }

  lemma LastPart(n: nat, part: string, sum: nat)
    requires part == Digits(n) + ("s" + []) && sum + n * 1_000_000_000 <= TWO_TO_63
    ensures ParseParts(part, sum) == Some(sum + n * 1_000_000_000) && IsDigit(part[0])
  {
    assert Digits(n)[0] in Digits(n);
    PartThen(n, "s", 1_000_000_000, [], sum);
  }

  lemma PartBefore(n: nat, u: string, unit: nat, rest: string, part: string, sum: nat, total: nat)
    requires u in {"h", "m"} && UnitOf(u) == Some(unit) && part == Digits(n) + (u + rest)
    requires rest != [] && IsDigit(rest[0]) && sum + n * unit <= TWO_TO_63
    requires ParseParts(rest, sum + n * unit) == Some(total)
    ensures ParseParts(part, sum) == Some(total) && |part| > 1 && IsDigit(part[0])
  {
    assert Digits(n)[0] in Digits(n);
    PartThen(n, u, unit, rest, sum);
  }

  lemma Joined(h: string, m: string, s: string)
    ensures h + ("h" + (m + ("m" + (s + ("s" + []))))) == h + "h" + m + "m" + s + "s"
  {
  }

  /** Digits first, and more than one character: no sign, and no lone zero. */
  lemma NoSign(t: string, d: int)
    requires |t| > 1 && IsDigit(t[0]) && ParseParts(t, 0) == Some(d) && 0 <= d < TWO_TO_63
    ensures ParseDuration(t) == Some(d)
  {
  }

  function Seconds(s: nat): string { Digits(s) + ("s" + []) }
  function Minutes(m: nat, s: nat): string { Digits(m) + ("m" + Seconds(s)) }

  /** Hours, minutes and seconds after one another. */
  function Clock(h: nat, m: nat, s: nat): string { Digits(h) + ("h" + Minutes(m, s)) }

  lemma MinutesOn(m: nat, s: nat, sum: nat)
    requires sum + m * 60_000_000_000 + s * 1_000_000_000 <= TWO_TO_63
    ensures ParseParts(Minutes(m, s), sum) == Some(sum + m * 60_000_000_000 + s * 1_000_000_000)
    ensures Minutes(m, s) != [] && IsDigit(Minutes(m, s)[0])
  {
    var seconds, minutes, after := Seconds(s), Minutes(m, s), sum + m * 60_000_000_000;
    LastPart(s, seconds, after);
    PartBefore(m, "m", 60_000_000_000, seconds, minutes, sum, after + s * 1_000_000_000);
  }

  lemma HourPart(h: nat, minutes: string, hours: string, total: nat)
    requires minutes != [] && IsDigit(minutes[0]) && hours == Digits(h) + ("h" + minutes)
    requires ParseParts(minutes, h * 3_600_000_000_000) == Some(total) && h * 3_600_000_000_000 <= TWO_TO_63
    ensures ParseParts(hours, 0) == Some(total) && |hours| > 1 && IsDigit(hours[0])
  {
    assert UnitOf("h") == Some(3_600_000_000_000);
    PartBefore(h, "h", 3_600_000_000_000, minutes, hours, 0, total);
  }

  lemma HoursOn(h: nat, minutes: string, hours: string, total: nat)
    requires minutes != [] && IsDigit(minutes[0]) && hours == Digits(h) + ("h" + minutes)
    requires ParseParts(minutes, h * 3_600_000_000_000) == Some(total) && h * 3_600_000_000_000 <= total < TWO_TO_63
    ensures ParseDuration(hours) == Some(total)
  {
    HourPart(h, minutes, hours, total);
    NoSign(hours, total);
  }

  lemma ClockIs(h: nat, m: nat, s: nat)
    ensures Clock(h, m, s) == Digits(h) + "h" + Digits(m) + "m" + Digits(s) + "s"
  {
    Joined(Digits(h), Digits(m), Digits(s));
  }

  /** Hours, minutes and seconds in one text are added up. */
  lemma PartsAddUp(h: nat, m: nat, s: nat)
    requires h * 3_600_000_000_000 + m * 60_000_000_000 + s * 1_000_000_000 < TWO_TO_63
    ensures ParseDuration(Digits(h) + "h" + Digits(m) + "m" + Digits(s) + "s") ==
      Some(h * 3_600_000_000_000 + m * 60_000_000_000 + s * 1_000_000_000)
  {
    ClockIs(h, m, s);
    ClockAddsUp(h, m, s);
  }

  lemma ClockAddsUp(h: nat, m: nat, s: nat)
    requires h * 3_600_000_000_000 + m * 60_000_000_000 + s * 1_000_000_000 < TWO_TO_63
    ensures ParseDuration(Clock(h, m, s)) == Some(h * 3_600_000_000_000 + m * 60_000_000_000 + s * 1_000_000_000)
  {
    MinutesOn(m, s, h * 3_600_000_000_000);
    HoursOn(h, Minutes(m, s), Clock(h, m, s), h * 3_600_000_000_000 + m * 60_000_000_000 + s * 1_000_000_000);
  }

  /** A sign before a duration counts, and a lone zero needs no unit. */
  lemma SignCounts(s: string)
    requires s != [] && IsDigit(s[0])
    ensures ParseDuration("0") == Some(0)
    ensures ParseDuration("+" + s) == ParseDuration(s)
    ensures ParseDuration(s).Some? ==>
      ParseDuration("-" + s) == Some(-ParseDuration(s).value) && ParseDuration(s).value >= 0
  {
    assert Unsigned("+" + s) == s && Unsigned("-" + s) == s && Unsigned(s) == s;
    assert ("+" + s)[0] == '+' && ("-" + s)[0] == '-';
  }
}
