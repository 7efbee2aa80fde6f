/** The series a chart is configured with (isBuiltinMetric, seriesKey and normalizeSeries in web/chart-config.js). */
module SeriesConfig {
  import opened Wrappers
  import opened Text

  /** A series as it may be stored: no check id when what is there is no number. */
  datatype RawSeries = RawSeries(checkId: Option<int>, metric: string, named: bool)

  /** A series after cleaning: `named` tells the check's own metrics from built-in ones. */
  datatype Spec = Spec(checkId: nat, metric: string, named: bool)

  predicate IsBuiltin(metric: string) { metric in {"avg", "min", "max", "jitter", "loss", "availability"} }

  predicate IsBuiltinMetric(s: Spec) { !s.named && IsBuiltin(s.metric) }

  function MetricPart(s: Spec): string { (if IsBuiltinMetric(s) then ":" else ":m:") + s.metric }

  function SeriesKey(s: Spec): string { Digits(s.checkId) + MetricPart(s) }

  /** One stored series made clean, if anything can be made of it. */
  function Clean(raw: RawSeries): Option<Spec> {
    if raw.checkId.None? || raw.checkId.value <= 0 then None
    else
      var metric := if Trim(raw.metric) == "" then "avg" else Trim(raw.metric);
      Some(Spec(raw.checkId.value, metric, raw.named || !IsBuiltin(metric)))
  }

  function Stored(s: Spec): RawSeries { RawSeries(Some(s.checkId), s.metric, s.named) }
  function StoredAll(specs: seq<Spec>): seq<RawSeries> {
    if specs == [] then [] else StoredAll(specs[..|specs| - 1]) + [Stored(specs[|specs| - 1])]
  }

  function KeySet(specs: seq<Spec>): (r: set<string>)
    ensures forall k :: k in r <==> exists s :: s in specs && SeriesKey(s) == k
  {
    set s | s in specs :: SeriesKey(s)
  }

  function Normalized(list: seq<RawSeries>): seq<Spec> {
    if list == [] then []
    else
      var before := Normalized(list[..|list| - 1]);
      var c := Clean(list[|list| - 1]);
      if c.None? || SeriesKey(c.value) in KeySet(before) then before else before + [c.value]
  }

  method NormalizeSeries(list: seq<RawSeries>) returns (out: seq<Spec>)
    ensures out == Normalized(list)
  {
    out := [];
    var seen: set<string> := {};
    for i := 0 to |list|
      invariant out == Normalized(list[..i]) && seen == KeySet(out)
    {
      assert list[..i + 1][..i] == list[..i];
      var c := Clean(list[i]);
      if c.Some? && SeriesKey(c.value) !in seen {
        out, seen := out + [c.value], seen + {SeriesKey(c.value)};
      }
    }
    TakeAll(list);
  }

  // ---------------------------------------------------------------------------------------------
  // A key is a series
  // ---------------------------------------------------------------------------------------------

  /** A clean series: what cleaning leaves alone. */
  ghost predicate Proper(s: Spec) {
    s.checkId > 0 && s.metric != "" && Trim(s.metric) == s.metric && (s.named || IsBuiltin(s.metric))
  }

  lemma CleanIsProper(raw: RawSeries)
    requires Clean(raw).Some?
    ensures Proper(Clean(raw).value) && Clean(Stored(Clean(raw).value)) == Clean(raw)
  {
    TrimTwice(raw.metric);
    var avg := "avg";
    TrimNothing(avg);
  }

  lemma BuiltinsAreShort(metric: string)
    requires IsBuiltin(metric)
    ensures |metric| >= 2 && !(metric[0] == 'm' && metric[1] == ':')
  {
  }

  /** Two clean series have the same key only if they are the same series: an OID called avg is not the latency. */
  lemma KeyTellsApart(a: Spec, b: Spec)
    requires Proper(a) && Proper(b)
    ensures SeriesKey(a) == SeriesKey(b) <==> a == b
  {
    if SeriesKey(a) == SeriesKey(b) {
      assert MetricPart(a)[0] == ':' && MetricPart(b)[0] == ':';
      DigitsThen(a.checkId, MetricPart(a), b.checkId, MetricPart(b));
      SameMetric(a, b);
    }
  }

  /** A number and what follows it can be told apart. */
  lemma DigitsThen(n: nat, t: string, m: nat, u: string)
    requires t != [] && u != [] && !IsDigit(t[0]) && !IsDigit(u[0]) && Digits(n) + t == Digits(m) + u
    ensures n == m && t == u
  {
    DigitRunOf(Digits(n), t);
    DigitRunOf(Digits(m), u);
    DigitsWorth(n);
    DigitsWorth(m);
  }

  lemma SameMetric(a: Spec, b: Spec)
    requires Proper(a) && Proper(b) && MetricPart(a) == MetricPart(b)
    ensures a.metric == b.metric && a.named == b.named
  {
    var t := MetricPart(a);
    if IsBuiltinMetric(a) { BuiltinsAreShort(a.metric); }
    if IsBuiltinMetric(b) { BuiltinsAreShort(b.metric); }
    assert t[1..] == (if IsBuiltinMetric(a) then a.metric else "m:" + a.metric);
    assert t[1..] == (if IsBuiltinMetric(b) then b.metric else "m:" + b.metric);
    if !IsBuiltinMetric(a) && !IsBuiltinMetric(b) {
      assert t[3..] == a.metric && t[3..] == b.metric;
    }
  }

  // ---------------------------------------------------------------------------------------------
  // The list
  // ---------------------------------------------------------------------------------------------

  /** Every series that can be made clean is in the list, once, and nothing else is. */
  lemma {:induction false} NormalizedIs(list: seq<RawSeries>)
    ensures NoDup(Normalized(list))
    ensures forall s :: s in Normalized(list) ==> Proper(s)
    ensures forall s :: s in Normalized(list) <==> exists raw :: raw in list && Clean(raw) == Some(s)
  {
    if list != [] {
      var n := |list| - 1;
      var before := Normalized(list[..n]);
      var c := Clean(list[n]);
      NormalizedIs(list[..n]);
      TakeAll(list);
      TakeMore(list, n);
      assert forall raw :: raw in list <==> raw in list[..n] || raw == list[n];
      if c.Some? {
        CleanIsProper(list[n]);
        forall s | s in before ensures SeriesKey(s) == SeriesKey(c.value) <==> s == c.value {
          KeyTellsApart(s, c.value);
        }
        assert SeriesKey(c.value) in KeySet(before) <==> c.value in before;
      }
    }
  }

  /**
   * What becomes of a stored series: a check id above nought is needed, a missing metric is the latency, and a
   * metric is the check's own when it says so or is none of the built-in ones.
   */
  lemma CleanedIs(raw: RawSeries)
    ensures Clean(raw).Some? <==> raw.checkId.Some? && raw.checkId.value > 0
    ensures Clean(raw).Some? ==>
      (var s := Clean(raw).value;
       && s.checkId == raw.checkId.value && s.metric == (if Trim(raw.metric) == "" then "avg" else Trim(raw.metric))
       && (s.named <==> raw.named || s.metric !in ["avg", "min", "max", "jitter", "loss", "availability"]))
  {
  }

  /** `list[i]` is the first that becomes the series it does. */
  ghost predicate FirstOfSeries(list: seq<RawSeries>, i: nat) {
    i < |list| && Clean(list[i]).Some? && forall k :: 0 <= k < i ==> Clean(list[k]) != Clean(list[i])
  }

  lemma Listed(list: seq<RawSeries>, i: nat)
    requires i < |list| && Clean(list[i]).Some?
    ensures Clean(list[i]).value in Normalized(list)
  {
    NormalizedIs(list);
  }

  lemma NotListed(list: seq<RawSeries>, s: Spec)
    requires forall k :: 0 <= k < |list| ==> Clean(list[k]) != Some(s)
    ensures s !in Normalized(list)
  {
    NormalizedIs(list);
  }

  lemma NextListed(list: seq<RawSeries>, raw: RawSeries)
    ensures Clean(raw).Some? && Clean(raw).value !in Normalized(list) ==>
      Normalized(list + [raw]) == Normalized(list) + [Clean(raw).value]
    ensures Normalized(list + [raw]) == Normalized(list) ||
      (Clean(raw).Some? && Normalized(list + [raw]) == Normalized(list) + [Clean(raw).value])
  {
    OneMore(list, raw);
    NormalizedIs(list);
    if Clean(raw).Some? {
      CleanIsProper(raw);
      forall s | s in Normalized(list) ensures SeriesKey(s) == SeriesKey(Clean(raw).value) <==> s == Clean(raw).value {
        KeyTellsApart(s, Clean(raw).value);
      }
    }
  }

  /** Series stay in the order in which they first appear. */
  lemma {:induction false} SeriesInOrder(list: seq<RawSeries>, i: nat, j: nat)
    requires i < j && FirstOfSeries(list, i) && FirstOfSeries(list, j)
    ensures Precedes(Normalized(list), Clean(list[i]).value, Clean(list[j]).value)
    decreases |list|
  {
    var before, last := list[..|list| - 1], list[|list| - 1];
    assert before[i] == list[i] && list == before + [last];
    var a, b := Clean(before[i]).value, Clean(list[j]).value;
    NextListed(before, last);
    PrecedesMore(Normalized(before), a, b, if Clean(last).Some? then Clean(last).value else a);
    if j < |before| {
      SeriesInOrder(before, i, j);
    } else {
      Listed(before, i);
      NotListed(before, b);
    }
  }

  /** Cleaning a clean list changes nothing. */
  lemma {:induction false} NormalizedTwice(list: seq<RawSeries>)
    ensures Normalized(StoredAll(Normalized(list))) == Normalized(list)
  {
    NormalizedIs(list);
    CleanStays(Normalized(list));
  }

  lemma {:induction false} CleanStays(specs: seq<Spec>)
    requires NoDup(specs) && forall s :: s in specs ==> Proper(s)
    ensures Normalized(StoredAll(specs)) == specs
  {
    if specs != [] {
      var n := |specs| - 1;
      var init, last := specs[..n], specs[n];
      assert last in specs && last !in init && forall s :: s in init ==> s in specs;
      CleanStays(init);
      assert Clean(Stored(last)) == Some(last);
      forall s | s in init ensures SeriesKey(s) != SeriesKey(last) { KeyTellsApart(s, last); }
      OneMore(StoredAll(init), Stored(last));
      TakeMore(specs, n);
      TakeAll(specs);
    }
  }

  lemma OneMore(list: seq<RawSeries>, raw: RawSeries)
    ensures var before := Normalized(list); var c := Clean(raw);
      Normalized(list + [raw]) == if c.None? || SeriesKey(c.value) in KeySet(before) then before else before + [c.value]
  {
    assert (list + [raw])[..|list|] == list;
  }
}
