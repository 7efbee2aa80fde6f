/**
 * Which series go on which chart and on which of its two axes (groupByUnits and LineChart.setData in
 * web/charts.js, the plan of renderConfiguredChart in web/chart-config.js).
 */
module ChartPlan {
  import opened Wrappers

  datatype Unit = Unit(text: string)

  /** A line to plot; a node without an id (None; a nought counts as none) is known by its name. */
  datatype Series = Series(name: string, unit: Option<Unit>, checkId: int, nodeId: Option<int>, nodeName: string)

  datatype Group = Group(units: seq<Unit>, series: seq<Series>)

  const PER_CHART := 2

  function UnitOf(s: Series, fallback: Unit): Unit { if s.unit.Some? then s.unit.value else fallback }

  function InUnits(units: seq<Unit>, fallback: Unit): Series -> bool { s => UnitOf(s, fallback) in units }
  function AmongUnits(units: seq<Unit>): Unit -> bool { u => u in units }

  /** The units in the order they first appear. */
  function UnitsOf(series: seq<Series>, fallback: Unit): seq<Unit> {
    if series == [] then []
    else
      var before := UnitsOf(series[..|series| - 1], fallback);
      var u := UnitOf(series[|series| - 1], fallback);
      if u in before then before else before + [u]
  }

  function Chunks(units: seq<Unit>, per: nat): seq<seq<Unit>>
    requires per > 0
    decreases |units|
  {
    if units == [] then []
    else
      var n := Least(per, |units|);
      [units[..n]] + Chunks(units[n..], per)
  }

  function GroupsFor(series: seq<Series>, chunks: seq<seq<Unit>>, fallback: Unit): seq<Group> {
    if chunks == [] then []
    else [Group(chunks[0], Filter(series, InUnits(chunks[0], fallback)))] + GroupsFor(series, chunks[1..], fallback)
  }

  /** The groups from unit `i` on, a chart's worth of units at a time. */
  function GroupsFrom(series: seq<Series>, units: seq<Unit>, i: nat, perChart: nat, fallback: Unit): seq<Group>
    requires perChart > 0
    decreases |units| - i
  {
    if i >= |units| then []
    else
      var want := units[i..i + Least(perChart, |units| - i)];
      [Group(want, Filter(series, InUnits(want, fallback)))] +
        GroupsFrom(series, units, i + perChart, perChart, fallback)
  }

  function Groups(series: seq<Series>, fallback: Unit, perChart: nat): seq<Group>
    requires perChart > 0
  {
    var groups := GroupsFrom(series, UnitsOf(series, fallback), 0, perChart, fallback);
    if groups == [] then [Group([fallback], [])] else groups
  }

  method FindUnits(series: seq<Series>, fallback: Unit) returns (units: seq<Unit>)
    ensures units == UnitsOf(series, fallback)
  {
    units := [];
    for i := 0 to |series|
      invariant units == UnitsOf(series[..i], fallback)
    {
      assert series[..i + 1][..i] == series[..i];
      var u := UnitOf(series[i], fallback);
      if u !in units { units := units + [u]; }
    }
    TakeAll(series);
  }

  method GroupByUnits(series: seq<Series>, fallback: Unit, perChart: nat) returns (groups: seq<Group>)
    requires perChart > 0
    ensures groups == Groups(series, fallback, perChart)
  {
    var units := FindUnits(series, fallback);
    groups := [];
    var i := 0;
    while i < |units|
      invariant groups + GroupsFrom(series, units, i, perChart, fallback) ==
        GroupsFrom(series, units, 0, perChart, fallback)
      decreases |units| - i
    {
      var want := units[i..i + Least(perChart, |units| - i)];
      var g := Group(want, Filter(series, InUnits(want, fallback)));
      Regrouped(groups, g, GroupsFrom(series, units, i + perChart, perChart, fallback));
      groups := groups + [g];
      i := i + perChart;
    }
    if groups == [] { groups := [Group([fallback], [])]; }
  }

  lemma Regrouped(a: seq<Group>, g: Group, b: seq<Group>)
    ensures a + ([g] + b) == a + [g] + b
  {
  }

  lemma {:induction false} GroupsForAre(series: seq<Series>, chunks: seq<seq<Unit>>, fallback: Unit, g: Group)
    ensures |GroupsFor(series, chunks, fallback)| == |chunks|
    ensures g in GroupsFor(series, chunks, fallback) ==>
      g.units in chunks && g.series == Filter(series, InUnits(g.units, fallback))
  {
    if chunks != [] { GroupsForAre(series, chunks[1..], fallback, g); }
  }

  /** Stepping through the units is cutting them into chunks. */
  lemma {:induction false} GroupsFromChunks(series: seq<Series>, units: seq<Unit>, i: nat, per: nat, fallback: Unit)
    requires per > 0 && i <= |units|
    ensures GroupsFrom(series, units, i, per, fallback) == GroupsFor(series, Chunks(units[i..], per), fallback)
    decreases |units| - i
  {
    if i < |units| {
      var n := Least(per, |units| - i);
      assert units[i..][..n] == units[i..i + n];
      DropTwice(units, i, n);
      FirstGroup(series, units[i..i + n], Chunks(units[i + n..], per), fallback);
      if i + per <= |units| {
        GroupsFromChunks(series, units, i + per, per, fallback);
      } else {
        assert units[i + n..] == [];
      }
    }
  }

  lemma GroupsAre(series: seq<Series>, fallback: Unit, per: nat)
    requires per > 0
    ensures Groups(series, fallback, per) ==
      if series == [] then [Group([fallback], [])]
        else GroupsFor(series, Chunks(UnitsOf(series, fallback), per), fallback)
  {
    var units := UnitsOf(series, fallback);
    GroupsFromChunks(series, units, 0, per, fallback);
    assert units[0..] == units;
    UnitsAre(series, fallback);
    EmptyOrNot(series);
  }

  lemma FirstGroup(series: seq<Series>, want: seq<Unit>, rest: seq<seq<Unit>>, fallback: Unit)
    ensures GroupsFor(series, [want] + rest, fallback) ==
      [Group(want, Filter(series, InUnits(want, fallback)))] + GroupsFor(series, rest, fallback)
  {
    assert ([want] + rest)[1..] == rest;
  }

  // ---------------------------------------------------------------------------------------------
  // Units and chunks
  // ---------------------------------------------------------------------------------------------

  lemma {:induction false} UnitsAre(series: seq<Series>, fallback: Unit)
    ensures NoDup(UnitsOf(series, fallback))
    ensures forall s :: s in series ==> UnitOf(s, fallback) in UnitsOf(series, fallback)
    ensures forall u :: u in UnitsOf(series, fallback) ==> exists s :: s in series && UnitOf(s, fallback) == u
  {
    if series != [] {
      var n := |series| - 1;
      UnitsAre(series[..n], fallback);
      TakeAll(series);
      TakeMore(series, n);
      assert series[n] in series && forall s :: s in series[..n] ==> s in series;
      assert forall s :: s in series ==> s in series[..n] || s == series[n];
    }
  }

  lemma UnitsSnoc(series: seq<Series>, s: Series, fallback: Unit)
    ensures var before := UnitsOf(series, fallback); var u := UnitOf(s, fallback);
      UnitsOf(series + [s], fallback) == if u in before then before else before + [u]
  {
    assert (series + [s])[..|series|] == series;
  }

  /** `series[i]` is the first with its unit. */
  ghost predicate FirstOfUnit(series: seq<Series>, fallback: Unit, i: nat) {
    i < |series| && forall k :: 0 <= k < i ==> UnitOf(series[k], fallback) != UnitOf(series[i], fallback)
  }

  lemma NotNamed(series: seq<Series>, fallback: Unit, u: Unit)
    requires forall k :: 0 <= k < |series| ==> UnitOf(series[k], fallback) != u
    ensures u !in UnitsOf(series, fallback)
  {
    UnitsAre(series, fallback);
  }

  lemma Named(series: seq<Series>, fallback: Unit, i: nat)
    requires i < |series|
    ensures UnitOf(series[i], fallback) in UnitsOf(series, fallback)
  {
    UnitsAre(series, fallback);
  }

  /** Units are in the order in which series first name them. */
  lemma {:induction false} UnitsInOrder(series: seq<Series>, fallback: Unit, i: nat, j: nat)
    requires i < j && FirstOfUnit(series, fallback, i) && FirstOfUnit(series, fallback, j)
    ensures Precedes(UnitsOf(series, fallback), UnitOf(series[i], fallback), UnitOf(series[j], fallback))
    decreases |series|
  {
    var before, last := series[..|series| - 1], series[|series| - 1];
    assert before[i] == series[i];
    PrecedesMore(UnitsOf(before, fallback), UnitOf(before[i], fallback), UnitOf(series[j], fallback),
                 UnitOf(last, fallback));
    if j < |before| {
      UnitsInOrder(before, fallback, i, j);
    } else {
      Named(before, fallback, i);
      NotNamed(before, fallback, UnitOf(last, fallback));
    }
  }

  lemma {:induction false} FirstUnit(series: seq<Series>, fallback: Unit)
    requires series != []
    ensures UnitsOf(series, fallback) != [] && UnitsOf(series, fallback)[0] == UnitOf(series[0], fallback)
  {
    if |series| > 1 { FirstUnit(series[..|series| - 1], fallback); }
  }

  /** The group has the stretch of units from `from` on, as many as a chart takes, and all series with one of them. */
  ghost predicate IsStretch(series: seq<Series>, fallback: Unit, per: nat, g: Group, from: int) {
    var units := UnitsOf(series, fallback);
    && 0 <= from < |units| && g.units == units[from..from + Least(per, |units| - from)]
    && g.series == Filter(series, InUnits(g.units, fallback))
  }

  lemma {:induction false} GroupsFromAt(series: seq<Series>, i: nat, per: nat, fallback: Unit, k: nat)
    requires per > 0 && k < |GroupsFrom(series, UnitsOf(series, fallback), i, per, fallback)|
    ensures IsStretch(series, fallback, per, GroupsFrom(series, UnitsOf(series, fallback), i, per, fallback)[k],
                      i + Repeated(k, per))
    decreases k
  {
    if k > 0 { GroupsFromAt(series, i + per, per, fallback, k - 1); }
  }

  lemma {:induction false} RepeatedIs(k: nat, per: nat)
    ensures Repeated(k, per) == k * per
  {
    if k > 0 {
      RepeatedIs(k - 1, per);
      assert per + (k - 1) * per == k * per;
    } else {
      assert 0 * per == 0;
    }
  }

  lemma NamedGroups(series: seq<Series>, fallback: Unit, per: nat)
    requires per > 0 && series != []
    ensures Groups(series, fallback, per) == GroupsFrom(series, UnitsOf(series, fallback), 0, per, fallback)
  {
    Named(series, fallback, 0);
  }

  /** The groups are the stretches of the units, a chart's worth each, one after another. */
  lemma GroupsAreStretches(series: seq<Series>, fallback: Unit, per: nat, k: nat)
    requires per > 0 && series != [] && k < |Groups(series, fallback, per)|
    ensures IsStretch(series, fallback, per, Groups(series, fallback, per)[k], k * per)
  {
    NamedGroups(series, fallback, per);
    GroupsFromAt(series, 0, per, fallback, k);
    RepeatedIs(k, per);
  }

  /** Taking some of the units out of the series takes them out of the list of units, and no more. */
  lemma {:induction false} UnitsOfSome(series: seq<Series>, fallback: Unit, want: seq<Unit>)
    ensures UnitsOf(Filter(series, InUnits(want, fallback)), fallback) ==
      Filter(UnitsOf(series, fallback), AmongUnits(want))
  {
    if series != [] {
      var n := |series| - 1;
      var s := series[n];
      var u := UnitOf(s, fallback);
      var before := UnitsOf(series[..n], fallback);
      var kept := Filter(series[..n], InUnits(want, fallback));
      UnitsOfSome(series[..n], fallback, want);
      TakeAll(series);
      TakeMore(series, n);
      FilterSnoc(series[..n], s, InUnits(want, fallback));
      FilterSnoc(before, u, AmongUnits(want));
      var all := Filter(series, InUnits(want, fallback));
      if u in want {
        assert all == kept + [s];
        UnitsSnoc(kept, s, fallback);
      } else {
        assert all == kept && Filter(before + [u], AmongUnits(want)) == Filter(before, AmongUnits(want));
      }
    }
  }

  lemma NoDupParts(s: seq<Unit>, n: nat)
    requires NoDup(s) && n <= |s|
    ensures NoDup(s[..n]) && NoDup(s[n..]) && s == s[..n] + s[n..]
    ensures forall u :: u in s <==> u in s[..n] || u in s[n..]
    ensures forall u :: u in s[..n] ==> u !in s[n..]
  {
  }

  /** Each chunk is a stretch of the list: the units in it, in the list's order, are the chunk. */
  lemma {:induction false} ChunkIsStretch(units: seq<Unit>, per: nat, c: seq<Unit>)
    requires per > 0 && NoDup(units) && c in Chunks(units, per)
    ensures Filter(units, AmongUnits(c)) == c && 0 < |c| <= per && forall u :: u in c ==> u in units
    decreases |units|
  {
    var n := Least(per, |units|);
    NoDupParts(units, n);
    FilterJoined(units[..n], units[n..], AmongUnits(c));
    if c == units[..n] {
      FilterAllOrNone(units[..n], AmongUnits(c));
      FilterAllOrNone(units[n..], AmongUnits(c));
    } else {
      ChunkIsStretch(units[n..], per, c);
      FilterAllOrNone(units[..n], AmongUnits(c));
    }
  }

  function TimesIn(chunks: seq<seq<Unit>>, u: Unit): nat {
    if chunks == [] then 0 else (if u in chunks[0] then 1 else 0) + TimesIn(chunks[1..], u)
  }

  function Repeated(times: nat, n: nat): nat { if times == 0 then 0 else n + Repeated(times - 1, n) }

  lemma {:induction false} InOneChunk(units: seq<Unit>, per: nat, u: Unit)
    requires per > 0 && NoDup(units)
    ensures TimesIn(Chunks(units, per), u) == if u in units then 1 else 0
    decreases |units|
  {
    if units != [] {
      var n := Least(per, |units|);
      NoDupParts(units, n);
      InOneChunk(units[n..], per, u);
      assert Chunks(units, per)[1..] == Chunks(units[n..], per);
    }
  }

  /** As few chunks as will do. */
  lemma {:induction false} ChunksAreFew(units: seq<Unit>, per: nat)
    requires per > 0
    ensures |units| <= Repeated(|Chunks(units, per)|, per) < |units| + per
    decreases |units|
  {
    if units != [] { ChunksAreFew(units[Least(per, |units|)..], per); }
  }

  /** No more charts than the units need, each with room for `perChart` of them. */
  lemma GroupsAreFew(series: seq<Series>, fallback: Unit, perChart: nat)
    requires perChart > 0 && series != []
    ensures var units := UnitsOf(series, fallback);
      |units| <= |Groups(series, fallback, perChart)| * perChart < |units| + perChart
  {
    var chunks := Chunks(UnitsOf(series, fallback), perChart);
    GroupsAre(series, fallback, perChart);
    GroupsForAre(series, chunks, fallback, Group([], []));
    ChunksAreFew(UnitsOf(series, fallback), perChart);
    RepeatedIs(|chunks|, perChart);
  }

  // ---------------------------------------------------------------------------------------------
  // Every series once
  // ---------------------------------------------------------------------------------------------

  function AllSeries(groups: seq<Group>): seq<Series> {
    if groups == [] then [] else groups[0].series + AllSeries(groups[1..])
  }

  lemma AllSeriesFirst(g: Group, rest: seq<Group>)
    ensures AllSeries([g] + rest) == g.series + AllSeries(rest)
  {
    assert ([g] + rest)[1..] == rest;
  }

  lemma {:induction false} AllSeriesJoined(a: seq<Group>, b: seq<Group>)
    ensures AllSeries(a + b) == AllSeries(a) + AllSeries(b)
  {
    if a == [] {
      assert a + b == b;
    } else {
      assert (a + b)[1..] == a[1..] + b;
      AllSeriesJoined(a[1..], b);
    }
  }

  lemma {:induction false} CountKept<T(!new)>(s: seq<T>, keep: T -> bool, x: T)
    ensures multiset(Filter(s, keep))[x] == if keep(x) then multiset(s)[x] else 0
  {
    if s != [] {
      CountKept(s[1..], keep, x);
      assert s == [s[0]] + s[1..];
    }
  }

  lemma CountJoined(a: seq<Series>, b: seq<Series>, s: Series)
    ensures multiset(a + b)[s] == multiset(a)[s] + multiset(b)[s]
  {
  }

  lemma {:induction false} CountGrouped(series: seq<Series>, chunks: seq<seq<Unit>>, fallback: Unit, s: Series)
    ensures multiset(AllSeries(GroupsFor(series, chunks, fallback)))[s] ==
      Repeated(TimesIn(chunks, UnitOf(s, fallback)), multiset(series)[s])
  {
    if chunks != [] {
      var want, rest := chunks[0], GroupsFor(series, chunks[1..], fallback);
      CountGrouped(series, chunks[1..], fallback, s);
      CountInGroup(series, want, fallback, rest, s);
      OneMoreChunk(chunks, UnitOf(s, fallback), multiset(series)[s]);
    }
  }

  lemma CountInGroup(series: seq<Series>, want: seq<Unit>, fallback: Unit, rest: seq<Group>, s: Series)
    ensures multiset(AllSeries([Group(want, Filter(series, InUnits(want, fallback)))] + rest))[s] ==
      (if UnitOf(s, fallback) in want then multiset(series)[s] else 0) + multiset(AllSeries(rest))[s]
  {
    var kept := Filter(series, InUnits(want, fallback));
    CountKept(series, InUnits(want, fallback), s);
    AllSeriesFirst(Group(want, kept), rest);
    CountJoined(kept, AllSeries(rest), s);
  }

  lemma OneMoreChunk(chunks: seq<seq<Unit>>, u: Unit, n: nat)
    requires chunks != []
    ensures Repeated(TimesIn(chunks, u), n) == (if u in chunks[0] then n else 0) + Repeated(TimesIn(chunks[1..], u), n)
  {
  }

  /** Grouping by units puts every series in exactly one group. */
  lemma {:induction false} EachInOneGroup(series: seq<Series>, fallback: Unit, perChart: nat)
    requires perChart > 0
    ensures multiset(AllSeries(Groups(series, fallback, perChart))) == multiset(series)
  {
    GroupsAre(series, fallback, perChart);
    if series == [] {
      var none := Groups(series, fallback, perChart);
      assert none[1..] == [];
      assert AllSeries(none) == [];
    } else {
      var units := UnitsOf(series, fallback);
      UnitsAre(series, fallback);
      forall s ensures multiset(AllSeries(Groups(series, fallback, perChart)))[s] == multiset(series)[s] {
        CountGrouped(series, Chunks(units, perChart), fallback, s);
        InOneChunk(units, perChart, UnitOf(s, fallback));
        assert UnitOf(s, fallback) !in units ==> s !in series;
        assert s !in series ==> multiset(series)[s] == 0;
      }
    }
  }

  // ---------------------------------------------------------------------------------------------
  // The chart
  // ---------------------------------------------------------------------------------------------

  /** A series as the chart keeps it: its unit, and 0 for the left axis or 1 for the right. */
  datatype Placed = Placed(series: Series, unit: Unit, axis: nat)

  function AxisOf(units: seq<Unit>, u: Unit): nat { if units != [] && u == units[0] then 0 else 1 }

  class LineChart {
    const unit: Unit
    var units: seq<Unit>
    var placed: seq<Placed>

    constructor (unit: Unit)
      ensures this.unit == unit && units == [] && placed == []
    {
      this.unit, units, placed := unit, [], [];
    }

    /** The first unit named is the left axis; every other is on the right. */
    method SetData(series: seq<Series>)
      modifies this
      ensures units == (if series == [] then [unit] else UnitsOf(series, unit)) && |placed| == |series|
      ensures forall i :: 0 <= i < |series| ==>
        placed[i] == Placed(series[i], UnitOf(series[i], unit), AxisOf(units, UnitOf(series[i], unit)))
      ensures forall i :: 0 <= i < |series| ==>
        (placed[i].axis == 0 <==> placed[i].unit == placed[0].unit) && placed[i].axis <= 1 &&
        placed[i].unit == if series[i].unit.Some? then series[i].unit.value else unit
    {
      if series != [] { FirstUnit(series, unit); }
      var found := FindUnits(series, unit);
      UnitsAre(series, unit);
      EmptyOrNot(series);
      if found == [] { found := [unit]; }
      var told: seq<Placed> := [];
      for i := 0 to |series|
        invariant |told| == i
        invariant forall k :: 0 <= k < i ==>
          told[k] == Placed(series[k], UnitOf(series[k], unit), AxisOf(found, UnitOf(series[k], unit)))
      {
        var u := UnitOf(series[i], unit);
        told := told + [Placed(series[i], u, AxisOf(found, u))];
      }
      units, placed := found, told;
    }
  }

  ghost predicate AxesTellUnits(series: seq<Series>, unit: Unit) {
    forall s, t :: s in series && t in series ==>
      (AxisOf(UnitsOf(series, unit), UnitOf(s, unit)) == AxisOf(UnitsOf(series, unit), UnitOf(t, unit)) <==>
        UnitOf(s, unit) == UnitOf(t, unit))
  }

  /** Sharing an axis means sharing a unit exactly as long as there are no more than two units. */
  lemma AxesTellUnitsUpToTwo(series: seq<Series>, unit: Unit)
    ensures AxesTellUnits(series, unit) <==> |UnitsOf(series, unit)| <= 2
  {
    var units := UnitsOf(series, unit);
    UnitsAre(series, unit);
    if |units| > 2 {
      assert units[1] in units && units[2] in units && units[1] != units[2] && units[0] != units[1] &&
        units[0] != units[2];
      var s :| s in series && UnitOf(s, unit) == units[1];
      var t :| t in series && UnitOf(t, unit) == units[2];
      assert AxisOf(units, UnitOf(s, unit)) == AxisOf(units, UnitOf(t, unit));
    } else {
      forall s, t | s in series && t in series
        ensures AxisOf(units, UnitOf(s, unit)) == AxisOf(units, UnitOf(t, unit)) <==>
          UnitOf(s, unit) == UnitOf(t, unit) {
        assert UnitOf(s, unit) in units && UnitOf(t, unit) in units;
      }
    }
  }

  /** A chart given a group works out the group's own units again, in the same order. */
  lemma ChartAgreesWithGroup(series: seq<Series>, fallback: Unit, perChart: nat, g: Group, unit: Unit)
    requires perChart > 0 && series != [] && g in Groups(series, fallback, perChart)
    requires forall s :: s in series ==> s.unit.Some?
    ensures g.series != [] && 0 < |g.units| <= perChart && UnitsOf(g.series, unit) == g.units
    ensures forall s :: s in g.series ==> s in series
  {
    var units := UnitsOf(series, fallback);
    var chunks := Chunks(units, perChart);
    UnitsAre(series, fallback);
    GroupsAre(series, fallback, perChart);
    GroupsForAre(series, chunks, fallback, g);
    ChunkIsStretch(units, perChart, g.units);
    UnitsOfSome(series, fallback, g.units);
    SameUnits(g.series, fallback, unit);
  }

  lemma {:induction false} SameUnits(series: seq<Series>, a: Unit, b: Unit)
    requires forall s :: s in series ==> s.unit.Some?
    ensures UnitsOf(series, a) == UnitsOf(series, b)
  {
    if series != [] {
      assert series[|series| - 1] in series;
      SameUnits(series[..|series| - 1], a, b);
    }
  }

  // ---------------------------------------------------------------------------------------------
  // The plan
  // ---------------------------------------------------------------------------------------------

  datatype SplitBy = Nothing | Node | Check

  datatype Key = Everything | OfCheck(id: int) | OfNode(id: int) | OfName(name: string)

  function KeyOf(s: Series, split: SplitBy): Key {
    match split
    case Nothing => Everything
    case Check => OfCheck(s.checkId)
    case Node => if s.nodeId.Some? then OfNode(s.nodeId.value) else OfName(s.nodeName)
  }

  /** Two series belong together: of one check, or of one node, known by its number or, without one, by its name. */
  ghost predicate Together(s: Series, t: Series, split: SplitBy) {
    match split
    case Nothing => true
    case Check => s.checkId == t.checkId
    case Node =>
      if s.nodeId.Some? then s.nodeId == t.nodeId else t.nodeId.None? && s.nodeName == t.nodeName
  }

  lemma KeysTell(s: Series, t: Series, split: SplitBy)
    ensures KeyOf(s, split) == KeyOf(t, split) <==> Together(s, t, split)
  {
  }

  function HasKey(split: SplitBy, k: Key): Series -> bool { s => KeyOf(s, split) == k }

  function KeysOf(series: seq<Series>, split: SplitBy): seq<Key> {
    if series == [] then []
    else
      var before := KeysOf(series[..|series| - 1], split);
      var k := KeyOf(series[|series| - 1], split);
      if k in before then before else before + [k]
  }

  function PlanFor(series: seq<Series>, split: SplitBy, keys: seq<Key>, primary: Unit): seq<Group> {
    if keys == [] then []
    else Groups(Filter(series, HasKey(split, keys[0])), primary, PER_CHART) + PlanFor(series, split, keys[1..], primary)
  }

  /** The charts, in order: one set for each check or node when asked, no more than two units on any. */
  function Plan(series: seq<Series>, split: SplitBy): seq<Group>
    requires series != []
  {
    PlanFor(series, split, KeysOf(series, split), UnitOf(series[0], Unit("ms")))
  }

  lemma {:induction false} KeysAre(series: seq<Series>, split: SplitBy)
    ensures NoDup(KeysOf(series, split))
    ensures forall s :: s in series ==> KeyOf(s, split) in KeysOf(series, split)
    ensures forall k :: k in KeysOf(series, split) ==> exists s :: s in series && KeyOf(s, split) == k
  {
    if series != [] {
      var n := |series| - 1;
      KeysAre(series[..n], split);
      TakeAll(series);
      TakeMore(series, n);
      assert series[n] in series && forall s :: s in series[..n] ==> s in series;
      assert forall s :: s in series ==> s in series[..n] || s == series[n];
    }
  }

  lemma {:induction false} CountPlanned(series: seq<Series>, split: SplitBy, keys: seq<Key>, primary: Unit, s: Series)
    requires NoDup(keys)
    ensures multiset(AllSeries(PlanFor(series, split, keys, primary)))[s] ==
      if KeyOf(s, split) in keys then multiset(series)[s] else 0
  {
    if keys != [] {
      var mine := Filter(series, HasKey(split, keys[0]));
      NoDupCons(keys);
      CountPlanned(series, split, keys[1..], primary, s);
      EachInOneGroup(mine, primary, PER_CHART);
      CountKept(series, HasKey(split, keys[0]), s);
      AllSeriesJoined(Groups(mine, primary, PER_CHART), PlanFor(series, split, keys[1..], primary));
    }
  }

  lemma {:induction false} PlannedFor(series: seq<Series>, split: SplitBy, keys: seq<Key>, primary: Unit, g: Group)
    returns (k: Key)
    requires g in PlanFor(series, split, keys, primary)
    ensures k in keys && g in Groups(Filter(series, HasKey(split, k)), primary, PER_CHART)
  {
    if g in Groups(Filter(series, HasKey(split, keys[0])), primary, PER_CHART) {
      k := keys[0];
    } else {
      k := PlannedFor(series, split, keys[1..], primary, g);
    }
  }

  /** Every series is on exactly one chart, however the series are split. */
  lemma EverySeriesOnce(series: seq<Series>, split: SplitBy)
    requires series != []
    ensures multiset(AllSeries(Plan(series, split))) == multiset(series)
  {
    KeysAre(series, split);
    forall s ensures multiset(AllSeries(Plan(series, split)))[s] == multiset(series)[s] {
      CountPlanned(series, split, KeysOf(series, split), UnitOf(series[0], Unit("ms")), s);
      assert s !in series ==> multiset(series)[s] == 0;
    }
  }

  lemma ChartsAreOfOneKey(series: seq<Series>, split: SplitBy, g: Group) returns (k: Key)
    requires series != [] && g in Plan(series, split)
    ensures g in Groups(Filter(series, HasKey(split, k)), UnitOf(series[0], Unit("ms")), PER_CHART)
    ensures Filter(series, HasKey(split, k)) != []
  {
    KeysAre(series, split);
    k := PlannedFor(series, split, KeysOf(series, split), UnitOf(series[0], Unit("ms")), g);
    var s :| s in series && KeyOf(s, split) == k;
    assert s in Filter(series, HasKey(split, k));
  }

  ghost predicate OfOneKey(series: seq<Series>, split: SplitBy, k: Key) {
    forall s :: s in series ==> KeyOf(s, split) == k
  }

  ghost predicate AllTogether(series: seq<Series>, split: SplitBy) {
    forall s, t :: s in series && t in series ==> Together(s, t, split)
  }

  /**
   * No chart is empty or has more than two units, all its series are of one check or node when split by
   * that, and the axes its chart gives them tell their units apart.
   */
  lemma EveryChartIsReadable(series: seq<Series>, split: SplitBy, g: Group, unit: Unit)
    requires series != [] && g in Plan(series, split) && forall s :: s in series ==> s.unit.Some?
    ensures g.series != [] && 0 < |g.units| <= 2 && UnitsOf(g.series, unit) == g.units && AxesTellUnits(g.series, unit)
    ensures AllTogether(g.series, split)
  {
    var k := ChartsAreOfOneKey(series, split, g);
    ReadableChart(series, split, k, g, UnitOf(series[0], Unit("ms")), unit);
    forall s, t | s in g.series && t in g.series ensures Together(s, t, split) { KeysTell(s, t, split); }
  }

  lemma {:induction false} PlanJoined(series: seq<Series>, split: SplitBy, a: seq<Key>, b: seq<Key>, primary: Unit)
    ensures PlanFor(series, split, a + b, primary) ==
      PlanFor(series, split, a, primary) + PlanFor(series, split, b, primary)
  {
    if a == [] {
      assert a + b == b;
    } else {
      assert (a + b)[1..] == a[1..] + b;
      PlanJoined(series, split, a[1..], b, primary);
    }
  }

  /** `series[i]` is the first of those it belongs with. */
  ghost predicate FirstOfKey(series: seq<Series>, split: SplitBy, i: nat) {
    i < |series| && forall k :: 0 <= k < i ==> !Together(series[k], series[i], split)
  }

  lemma NotMet(series: seq<Series>, split: SplitBy, s: Series)
    requires forall k :: 0 <= k < |series| ==> !Together(series[k], s, split)
    ensures KeyOf(s, split) !in KeysOf(series, split)
  {
    KeysAre(series, split);
    if t :| t in series && KeyOf(t, split) == KeyOf(s, split) { KeysTell(t, s, split); }
  }

  lemma Met(series: seq<Series>, split: SplitBy, i: nat)
    requires i < |series|
    ensures KeyOf(series[i], split) in KeysOf(series, split)
  {
    KeysAre(series, split);
  }

  lemma {:induction false} KeysInOrder(series: seq<Series>, split: SplitBy, i: nat, j: nat)
    requires i < j && FirstOfKey(series, split, i) && FirstOfKey(series, split, j)
    ensures Precedes(KeysOf(series, split), KeyOf(series[i], split), KeyOf(series[j], split))
    decreases |series|
  {
    var before, last := series[..|series| - 1], series[|series| - 1];
    assert before[i] == series[i];
    PrecedesMore(KeysOf(before, split), KeyOf(before[i], split), KeyOf(series[j], split), KeyOf(last, split));
    if j < |before| {
      KeysInOrder(before, split, i, j);
    } else {
      Met(before, split, i);
      NotMet(before, split, last);
    }
  }

  /**
   * The charts of what belongs together follow one another, and come before those of what is first met later:
   * `before` and `after` are the charts of the rest.
   */
  lemma ChartsInOrder(series: seq<Series>, split: SplitBy, i: nat, j: nat)
    returns (before: seq<Group>, between: seq<Group>, after: seq<Group>)
    requires i < j && FirstOfKey(series, split, i) && FirstOfKey(series, split, j)
    ensures var primary := UnitOf(series[0], Unit("ms"));
      Plan(series, split) == before + ChartsOf(series, split, series[i], primary) + between +
        ChartsOf(series, split, series[j], primary) + after
  {
    var keys, primary := KeysOf(series, split), UnitOf(series[0], Unit("ms"));
    KeysInOrder(series, split, i, j);
    var p, q :| 0 <= p < q < |keys| && keys[p] == KeyOf(series[i], split) && keys[q] == KeyOf(series[j], split);
    before, between, after := PlanAt(series, split, keys, primary, p, q);
  }

  /** The charts of all series that belong with `s`. */
  function ChartsOf(series: seq<Series>, split: SplitBy, s: Series, primary: Unit): seq<Group> {
    Groups(Filter(series, HasKey(split, KeyOf(s, split))), primary, PER_CHART)
  }

  lemma InRow<T>(a: seq<T>, x: seq<T>, b: seq<T>, y: seq<T>, c: seq<T>)
    ensures a + (x + (b + (y + c))) == a + x + b + y + c
  {
  }

  lemma PlanAt(series: seq<Series>, split: SplitBy, keys: seq<Key>, primary: Unit, p: nat, q: nat)
    returns (before: seq<Group>, between: seq<Group>, after: seq<Group>)
    requires p < q < |keys|
    ensures PlanFor(series, split, keys, primary) ==
      before + Groups(Filter(series, HasKey(split, keys[p])), primary, PER_CHART) + between +
        Groups(Filter(series, HasKey(split, keys[q])), primary, PER_CHART) + after
  {
    var a, x, b, y, c := keys[..p], [keys[p]], keys[p + 1..q], [keys[q]], keys[q + 1..];
    assert keys == a + (x + (b + (y + c)));
    before, between, after := PlanInRow(series, split, primary, a, x, b, y, c);
    OneKeyPlan(series, split, keys[p], primary);
    OneKeyPlan(series, split, keys[q], primary);
  }

  lemma PlanInRow(series: seq<Series>, split: SplitBy, primary: Unit, a: seq<Key>, x: seq<Key>, b: seq<Key>,
                  y: seq<Key>, c: seq<Key>)
    returns (before: seq<Group>, between: seq<Group>, after: seq<Group>)
    ensures PlanFor(series, split, a + (x + (b + (y + c))), primary) ==
      before + PlanFor(series, split, x, primary) + between + PlanFor(series, split, y, primary) + after
  {
    PlanJoined(series, split, a, x + (b + (y + c)), primary);
    PlanJoined(series, split, x, b + (y + c), primary);
    PlanJoined(series, split, b, y + c, primary);
    PlanJoined(series, split, y, c, primary);
    before, between, after :=
      PlanFor(series, split, a, primary), PlanFor(series, split, b, primary), PlanFor(series, split, c, primary);
    InRow(before, PlanFor(series, split, x, primary), between, PlanFor(series, split, y, primary), after);
  }

  lemma OneKeyPlan(series: seq<Series>, split: SplitBy, k: Key, primary: Unit)
    ensures PlanFor(series, split, [k], primary) == Groups(Filter(series, HasKey(split, k)), primary, PER_CHART)
  {
    assert [k][1..] == [];
  }

  lemma ReadableChart(series: seq<Series>, split: SplitBy, k: Key, g: Group, primary: Unit, unit: Unit)
    requires var mine := Filter(series, HasKey(split, k)); mine != [] && g in Groups(mine, primary, PER_CHART)
    requires forall s :: s in series ==> s.unit.Some?
    ensures g.series != [] && 0 < |g.units| <= 2 && UnitsOf(g.series, unit) == g.units && AxesTellUnits(g.series, unit)
    ensures OfOneKey(g.series, split, k)
  {
    var mine := Filter(series, HasKey(split, k));
    ChartAgreesWithGroup(mine, primary, PER_CHART, g, unit);
    AxesTellUnitsUpToTwo(g.series, unit);
  }
}
