/** `increase_over`: how much each counter grew over the newest windows of a ring. */
module IncreaseOver {
  import opened Wrappers
  import opened Keyed
  import opened Snapshot
  import opened Series
  import opened MetricsQuery
  import opened Gathering
  import opened ReaderStates

  /** Where the span starts in a ring of `n` windows. */
  function Start(n: nat, windows: nat): nat {
    if n >= windows then n - windows else 0
  }

  /** The running total just before the span: zero where there is no such window, no
      such series in it, or the series is not a counter. */
  function BaselineTotal(baseline: Option<MetricSet>, id: Id): nat {
    if baseline.None? then 0
    else
      var p := PointOf(baseline.value, id);
      if p.Some? && p.value.value.Counter? then p.value.value.cumulative else 0
  }

  function SaturatingSub(a: nat, b: nat): nat {
    if a >= b then a - b else 0
  }

  /** A counter's span increase, in place of its running total. */
  function Increased(item: Item, baseline: Option<MetricSet>, now: Instant): Item
    requires item.point.value.Counter?
  {
    var grown := SaturatingSub(item.point.value.cumulative, BaselineTotal(baseline, item.id));
    item.(point := Stamped(Point(Counter(grown, None), item.point.timestamp), now))
  }

  /** The increases of a component's counters; what is not a counter is skipped. */
  ghost function Increases(items: seq<Item>, baseline: Option<MetricSet>, now: Instant): seq<Item> {
    if items == [] then []
    else
      var before, last := Increases(items[..|items| - 1], baseline, now), items[|items| - 1];
      if last.point.value.Counter? then before + [Increased(last, baseline, now)] else before
  }

  lemma {:induction false} IncreasesSnoc(items: seq<Item>, last: Item, baseline: Option<MetricSet>, now: Instant)
    ensures Increases(items + [last], baseline, now) ==
            Increases(items, baseline, now) +
            if last.point.value.Counter? then [Increased(last, baseline, now)] else []
  {
    assert (items + [last])[..|items|] == items;
  }

  lemma {:induction false} IncreasesConcat(x: seq<Item>, y: seq<Item>, baseline: Option<MetricSet>, now: Instant)
    ensures Increases(x + y, baseline, now) == Increases(x, baseline, now) + Increases(y, baseline, now)
  {
    if y == [] {
      assert x + y == x;
    } else {
      var init, last := y[..|y| - 1], y[|y| - 1];
      assert x + y == (x + init) + [last] && y == init + [last];
      IncreasesConcat(x, init, baseline, now);
      IncreasesSnoc(x + init, last, baseline, now);
      IncreasesSnoc(init, last, baseline, now);
    }
  }

  /** A component's newest windows folded over time. */
  ghost function PerItems(ring: seq<MetricSet>, start: nat, q: Selection, now: Instant): seq<Item>
    requires start <= |ring|
  {
    FamiliesItems(FoldItems([], Items(ring[start..]), q, now, Coalescing))
  }

  /** The window just before the span, if the ring reaches that far back. */
  function Baseline(ring: seq<MetricSet>, start: nat): Option<MetricSet>
    requires start <= |ring|
  {
    if start == 0 then None else Some(ring[start - 1])
  }

  /** What a component contributes: the increases of its counters over the span. */
  ghost function Contribution(ring: seq<MetricSet>, windows: nat, q: Selection, now: Instant, span: Duration): seq<Item> {
    var start := Start(|ring|, windows);
    Increases(PerItems(ring, start, q, now), Baseline(ring, start), now)
  }

  // ---------------------------------------------------------------------
  // The loops
  // ---------------------------------------------------------------------

  method AddFamilyIncreases(out: MetricSet, name: string, f: Family, baseline: Option<MetricSet>, ghost sig: Signature)
    returns (res: MetricSet)
    requires Fits(out, sig) && FitsFamily(f, sig(name))
    ensures res.families == FoldItems(out.families, Increases(FamilyItems(name, f, |f.metrics|), baseline, out.capturedAt),
                                      EVERYTHING, out.capturedAt, Aggregating)
    ensures res.capturedAt == out.capturedAt && Fits(res, sig)
  {
    res := out;
    var now := out.capturedAt;
    for i := 0 to |f.metrics|
      invariant res.families == FoldItems(out.families, Increases(FamilyItems(name, f, i), baseline, now),
                                          EVERYTHING, now, Aggregating)
      invariant res.capturedAt == now && Fits(res, sig)
    {
      var item := Item(Id(name, f.metrics[i].key), f.kind, f.metrics[i].val);
      assert FamilyItems(name, f, i + 1) == FamilyItems(name, f, i) + [item];
      ghost var before := Increases(FamilyItems(name, f, i), baseline, now);
      IncreasesSnoc(FamilyItems(name, f, i), item, baseline, now);
      if item.point.value.Counter? {
        var inc := Increased(item, baseline, now);
        FoldItemsSnoc(out.families, before, inc, EVERYTHING, now, Aggregating);
        res := InsertMetricWithMode(res, inc.id, inc.kind, inc.point, Aggregating, sig);
      } else {
        assert before + [] == before;
      }
    }
  }

  lemma {:induction false} NextFamilyFolds(base: seq<Entry<string, Family>>, families: seq<Entry<string, Family>>, j: nat,
                                           baseline: Option<MetricSet>, now: Instant)
    requires j < |families|
    ensures var before := FoldItems(base, Increases(FamiliesItems(families[..j]), baseline, now), EVERYTHING, now, Aggregating);
      var f := families[j].val;
      FoldItems(base, Increases(FamiliesItems(families[..j + 1]), baseline, now), EVERYTHING, now, Aggregating) ==
      FoldItems(before, Increases(FamilyItems(families[j].key, f, |f.metrics|), baseline, now), EVERYTHING, now, Aggregating)
  {
    var name, f := families[j].key, families[j].val;
    var done, items := FamiliesItems(families[..j]), FamilyItems(name, f, |f.metrics|);
    assert families[..j + 1][..j] == families[..j];
    IncreasesConcat(done, items, baseline, now);
    FoldItemsConcat(base, Increases(done, baseline, now), Increases(items, baseline, now), EVERYTHING, now, Aggregating);
  }

  method AddIncreases(out: MetricSet, per: MetricSet, baseline: Option<MetricSet>, ghost sig: Signature)
    returns (res: MetricSet)
    requires Fits(out, sig) && Fits(per, sig)
    ensures res.families == FoldItems(out.families, Increases(FamiliesItems(per.families), baseline, out.capturedAt),
                                      EVERYTHING, out.capturedAt, Aggregating)
    ensures res.capturedAt == out.capturedAt && Fits(res, sig)
  {
    res := out;
    var now := out.capturedAt;
    for j := 0 to |per.families|
      invariant res.families == FoldItems(out.families, Increases(FamiliesItems(per.families[..j]), baseline, now),
                                          EVERYTHING, now, Aggregating)
      invariant res.capturedAt == now && Fits(res, sig)
    {
      NextFamilyFolds(out.families, per.families, j, baseline, now);
      res := AddFamilyIncreases(res, per.families[j].key, per.families[j].val, baseline, sig);
    }
    assert per.families[..|per.families|] == per.families;
  }

  /** The contributions of the first `n` components folded together. */
  ghost function Aggregated(rings: seq<seq<MetricSet>>, n: nat, windows: nat, q: Selection, now: Instant, span: Duration)
    : seq<Entry<string, Family>>
    requires n <= |rings|
  {
    if n == 0 then []
    else FoldItems(Aggregated(rings, n - 1, windows, q, now, span), Contribution(rings[n - 1], windows, q, now, span),
                   EVERYTHING, now, Aggregating)
  }

  /** One query over all components. */
  ghost function Answers(rings: seq<seq<MetricSet>>, windows: nat, q: Selection, now: Instant, span: Duration): MetricSet {
    Empty(now, span).(families := Aggregated(rings, |rings|, windows, q, now, span))
  }

  /** One component's increases added to the result; an empty ring has none. */
  method AddRing(out: MetricSet, ring: seq<MetricSet>, windows: nat, q: Selection, span: Duration, ghost sig: Signature)
    returns (res: MetricSet)
    requires Fits(out, sig) && AllFit(ring, sig)
    ensures res.families == FoldItems(out.families, Contribution(ring, windows, q, out.capturedAt, span), EVERYTHING,
                                      out.capturedAt, Aggregating)
    ensures res.capturedAt == out.capturedAt && Fits(res, sig)
  {
    if ring == [] {
      assert Contribution(ring, windows, q, out.capturedAt, span) == [];
      return out;
    }
    var start := Start(|ring|, windows);
    var per := Gather(Empty(out.capturedAt, span), ring[start..], q, Coalescing, sig);
    res := AddIncreases(out, per, Baseline(ring, start), sig);
  }

  /** The published rings of one layer. */
  function RingsAt(r: ReaderState, paths: seq<string>, layer: nat): (rings: seq<seq<MetricSet>>)
    ensures |rings| == |paths| && forall i :: 0 <= i < |paths| ==> rings[i] == ViewAt(r, paths[i], layer).ring
  {
    seq(|paths|, i requires 0 <= i < |paths| => ViewAt(r, paths[i], layer).ring)
  }

  /** `increase_over` at the layer chosen for the span; `paths` are the published components. */
  method IncreaseOver(r: ReaderState, paths: seq<string>, layer: nat, windows: nat, q: Selection, now: Instant, span: Duration,
                      ghost sig: Signature)
    returns (out: MetricSet)
    requires forall i :: 0 <= i < |paths| ==> AllFit(ViewAt(r, paths[i], layer).ring, sig)
    ensures out.families == Answers(RingsAt(r, paths, layer), windows, q, now, span).families
  {
    out := Empty(now, span);
    ghost var rings := RingsAt(r, paths, layer);
    for i := 0 to |paths|
      invariant out.families == Aggregated(rings, i, windows, q, now, span)
      invariant out.capturedAt == now && Fits(out, sig)
    {
      out := AddRing(out, ViewAt(r, paths[i], layer).ring, windows, q, span, sig);
    }
  }

  // ---------------------------------------------------------------------
  // What the increase is
  // ---------------------------------------------------------------------

  /** The series' running total in a window; -1 where it has no timed counter point. */
  ghost function Total(s: MetricSet, id: Id): int {
    var p := PointOf(s, id);
    if p.Some? && p.value.value.Counter? && p.value.timestamp.Some? then p.value.value.cumulative else -1
  }

  ghost function Time(s: MetricSet, id: Id): int {
    var p := PointOf(s, id);
    if p.Some? && p.value.timestamp.Some? then p.value.timestamp.value else -1
  }

  /** Every window carries the counter, and neither it nor its timestamp ever goes back. */
  ghost predicate Rising(ring: seq<MetricSet>, id: Id) {
    (forall i :: 0 <= i < |ring| ==> Total(ring[i], id) >= 0) &&
    (forall i, j :: 0 <= i <= j < |ring| ==>
       Total(ring[i], id) <= Total(ring[j], id) && Time(ring[i], id) <= Time(ring[j], id))
  }

  lemma {:induction false} RisingPoints(ring: seq<MetricSet>, id: Id)
    requires Rising(ring, id)
    ensures |Points(ring, id)| == |ring|
    ensures forall i :: 0 <= i < |ring| ==> Some(Points(ring, id)[i]) == PointOf(ring[i], id)
  {
    if ring != [] {
      RisingPoints(ring[..|ring| - 1], id);
      assert Total(ring[|ring| - 1], id) >= 0;
    }
  }

  lemma {:induction false} RisingTimes(ring: seq<MetricSet>, id: Id)
    requires ring != [] && Rising(ring, id)
    ensures |Points(ring, id)| == |ring|
    ensures var ps := Points(ring, id);
      forall i :: 0 <= i < |ps| ==> ps[i].timestamp.Some? && AtMost(ps[i].timestamp, ps[|ps| - 1].timestamp)
    ensures Some(Points(ring, id)[|ring| - 1]) == PointOf(ring[|ring| - 1], id)
  {
    var ps, m := Points(ring, id), |ring| - 1;
    RisingPoints(ring, id);
    assert Total(ring[m], id) >= 0;
    forall i | 0 <= i < |ps|
      ensures ps[i].timestamp.Some? && AtMost(ps[i].timestamp, ps[m].timestamp)
    {
      assert Total(ring[i], id) >= 0 && Time(ring[i], id) <= Time(ring[m], id);
    }
  }

  /** Coalescing a rising stretch keeps its last total. */
  lemma {:induction false} RisingFold(ring: seq<MetricSet>, now: Instant, sig: Signature, id: Id)
    requires ring != [] && Rising(ring, id) && AllFit(ring, sig)
    ensures sig(id.family).shape == CounterShape
    ensures var ps := StampAll(Points(ring, id), now);
      ps != [] && FoldPoints(ps, Coalescing).value.Counter? && FoldPoints(ps, Coalescing).timestamp.Some?
      && FoldPoints(ps, Coalescing).value.cumulative == Total(ring[|ring| - 1], id)
  {
    var ps := Points(ring, id);
    RisingTimes(ring, id);
    PointsFit(ring, sig, id);
    assert Total(ring[|ring| - 1], id) >= 0;
    assert StampAll(ps, now) == ps;
    NewestIsLast(ps);
    FoldKeepsNewest(ps, CounterShape);
    FoldFitsShape(ps, Coalescing, CounterShape);
  }

  lemma {:induction false} NewestIsLast(ps: seq<Point>)
    requires ps != [] && forall i :: 0 <= i < |ps| ==> AtMost(ps[i].timestamp, ps[|ps| - 1].timestamp)
    ensures NewestIndex(ps) == |ps| - 1
  {
    var at := NewestIndex(ps);
    assert AtMost(ps[|ps| - 1].timestamp, ps[at].timestamp);
  }

  /** One query over one component. */
  ghost function Answer(ring: seq<MetricSet>, windows: nat, q: Selection, now: Instant, span: Duration): MetricSet {
    Empty(now, span).(families := FoldItems([], Contribution(ring, windows, q, now, span), EVERYTHING, now, Aggregating))
  }

  /** The increase reported for a series; -1 when none is. */
  ghost function Increase(ring: seq<MetricSet>, windows: nat, q: Selection, now: Instant, span: Duration, id: Id): int {
    var p := PointOf(Answer(ring, windows, q, now, span), id);
    if p.Some? && p.value.value.Counter? then p.value.value.cumulative else -1
  }

  lemma {:induction false} IncreasePoints(items: seq<Item>, baseline: Option<MetricSet>, now: Instant, id: Id)
    requires |ItemPoints(items, id)| <= 1
    ensures ItemPoints(Increases(items, baseline, now), id) ==
            var ps := ItemPoints(items, id);
            if ps != [] && ps[0].value.Counter?
            then [Stamped(Point(Counter(SaturatingSub(ps[0].value.cumulative, BaselineTotal(baseline, id)), None),
                                ps[0].timestamp), now)]
            else []
  {
    if items != [] {
      var init, last := items[..|items| - 1], items[|items| - 1];
      assert items == init + [last];
      IncreasePoints(init, baseline, now, id);
      IncreasesSnoc(init, last, baseline, now);
      var before := Increases(init, baseline, now);
      if last.point.value.Counter? {
        var inc := Increased(last, baseline, now);
        assert (before + [inc])[..|before|] == before;
      } else {
        assert before + [] == before;
      }
      if last.id == id {
        assert ItemPoints(init, id) == [];
      }
    }
  }

  lemma {:induction false} IncreasesFit(items: seq<Item>, baseline: Option<MetricSet>, now: Instant, sig: Signature)
    requires ItemsFit(items, sig)
    ensures ItemsFit(Increases(items, baseline, now), sig)
  {
    if items != [] {
      IncreasesFit(items[..|items| - 1], baseline, now, sig);
    }
  }

  lemma {:induction false} RisingSlice(ring: seq<MetricSet>, from_: nat, to: nat, sig: Signature, id: Id)
    requires from_ <= to <= |ring| && Rising(ring, id) && AllFit(ring, sig)
    ensures Rising(ring[from_..to], id) && AllFit(ring[from_..to], sig)
  {
    var slice := ring[from_..to];
    assert forall i :: 0 <= i < |slice| ==> slice[i] == ring[from_ + i];
  }

  /** A component's own fold over its newest windows has the last total of the series. */
  lemma {:induction false} PerComponentTotal(ring: seq<MetricSet>, start: nat, q: Selection, now: Instant, span: Duration, sig: Signature,
                          id: Id)
    requires start < |ring| && AllFit(ring, sig) && Rising(ring, id) && Selects(q, id)
    ensures sig(id.family).shape == CounterShape
    ensures var items := PerItems(ring, start, q, now);
      var ps := ItemPoints(items, id);
      ItemsFit(items, sig) && |ps| == 1 && ps[0].timestamp.Some? && ps[0].value.Counter?
      && ps[0].value.cumulative == Total(ring[|ring| - 1], id)
  {
    var tail := ring[start..];
    RisingSlice(ring, start, |ring|, sig, id);
    assert ring[start..|ring|] == tail;
    var per := Empty(now, span).(families := FoldItems([], Items(tail), q, now, Coalescing));
    GatherSpec(Empty(now, span), tail, q, now, Coalescing, sig, id);
    RisingFold(tail, now, sig, id);
    FamiliesPoints(per.families, id);
    FamiliesItemsFit(per.families, sig);
  }

  lemma {:induction false} BaselineIsTotal(s: MetricSet, id: Id)
    requires Total(s, id) >= 0
    ensures BaselineTotal(Some(s), id) == Total(s, id)
  {
  }

  ghost function Base(ring: seq<MetricSet>, windows: nat, id: Id): int {
    if |ring| > windows then Total(ring[|ring| - windows - 1], id) else 0
  }

  lemma {:induction false} BaselineIsBase(ring: seq<MetricSet>, windows: nat, id: Id)
    requires Rising(ring, id) && ring != [] && windows > 0
    ensures var start := Start(|ring|, windows);
      BaselineTotal(Baseline(ring, start), id) == Base(ring, windows, id)
    ensures Total(ring[|ring| - 1], id) >= Base(ring, windows, id) >= 0
  {
    var start := Start(|ring|, windows);
    assert Total(ring[|ring| - 1], id) >= 0;
    if start > 0 {
      assert 0 <= Total(ring[start - 1], id) <= Total(ring[|ring| - 1], id);
      BaselineIsTotal(ring[start - 1], id);
    }
  }

  lemma {:induction false} OneIncrease(items: seq<Item>, baseline: Option<MetricSet>, now: Instant, id: Id, total: nat, base: nat)
    requires var ps := ItemPoints(items, id);
      |ps| == 1 && ps[0].timestamp.Some? && ps[0].value.Counter? && ps[0].value.cumulative == total
    requires BaselineTotal(baseline, id) == base <= total
    ensures var ps := ItemPoints(Increases(items, baseline, now), id);
      |ps| == 1 && ps[0].timestamp.Some? && ps[0].value == Counter(total - base, None)
  {
    IncreasePoints(items, baseline, now, id);
  }

  /** The one point a component contributes. */
  lemma {:induction false} ContributionPoints(ring: seq<MetricSet>, windows: nat, q: Selection, now: Instant, span: Duration, sig: Signature,
                           id: Id)
    requires AllFit(ring, sig) && Rising(ring, id) && ring != [] && windows > 0 && Selects(q, id)
    ensures ItemsFit(Contribution(ring, windows, q, now, span), sig)
    ensures Total(ring[|ring| - 1], id) >= Base(ring, windows, id) >= 0
    ensures var ps := ItemPoints(Contribution(ring, windows, q, now, span), id);
      |ps| == 1 && ps[0].timestamp.Some?
      && ps[0].value == Counter(Total(ring[|ring| - 1], id) - Base(ring, windows, id), None)
  {
    var start := Start(|ring|, windows);
    PerComponentTotal(ring, start, q, now, span, sig, id);
    BaselineIsBase(ring, windows, id);
    OneIncrease(PerItems(ring, start, q, now), Baseline(ring, start), now, id,
                Total(ring[|ring| - 1], id), Base(ring, windows, id));
    IncreasesFit(PerItems(ring, start, q, now), Baseline(ring, start), now, sig);
  }

  /** The increase over the newest `windows` windows is the last total less the total just
      before them, or less nothing when the ring is no longer than that. */
  lemma {:induction false} IncreaseIsDifference(ring: seq<MetricSet>, windows: nat, q: Selection, now: Instant, span: Duration,
                             sig: Signature, id: Id)
    requires AllFit(ring, sig) && Rising(ring, id) && ring != [] && windows > 0 && Selects(q, id)
    ensures Increase(ring, windows, q, now, span, id) == Total(ring[|ring| - 1], id) - Base(ring, windows, id)
  {
    var items := Contribution(ring, windows, q, now, span);
    ContributionPoints(ring, windows, q, now, span, sig, id);
    FoldItemsSeries(Empty(now, span), items, EVERYTHING, now, Aggregating, sig, id);
  }

  /** The window does not have the series, or not as a counter; or there is no window. */
  predicate NotCounted(baseline: Option<MetricSet>, id: Id) {
    baseline.Some? ==> PointOf(baseline.value, id).None? || !PointOf(baseline.value, id).value.value.Counter?
  }

  lemma {:induction false} WholeContribution(ring: seq<MetricSet>, windows: nat, q: Selection, now: Instant, span: Duration,
                                             sig: Signature, id: Id)
    requires AllFit(ring, sig) && windows > 0 && ring != [] && Selects(q, id)
    requires Rising(ring[Start(|ring|, windows)..], id)
    requires NotCounted(Baseline(ring, Start(|ring|, windows)), id)
    ensures ItemsFit(Contribution(ring, windows, q, now, span), sig) && Total(ring[|ring| - 1], id) >= 0
    ensures var ps := ItemPoints(Contribution(ring, windows, q, now, span), id);
      |ps| == 1 && ps[0].timestamp.Some? && ps[0].value == Counter(Total(ring[|ring| - 1], id), None)
  {
    var start := Start(|ring|, windows);
    TailTotal(ring, start, q, now, span, sig, id);
    OneIncrease(PerItems(ring, start, q, now), Baseline(ring, start), now, id, Total(ring[|ring| - 1], id), 0);
    IncreasesFit(PerItems(ring, start, q, now), Baseline(ring, start), now, sig);
  }

  /** Where the window before the span does not have the series, or not as a counter, the increase is
      the whole last total: only the span's own windows need carry it. */
  lemma {:induction false} IncreaseFromNothing(ring: seq<MetricSet>, windows: nat, q: Selection, now: Instant, span: Duration,
                                               sig: Signature, id: Id)
    requires AllFit(ring, sig) && windows > 0 && ring != [] && Selects(q, id)
    requires Rising(ring[Start(|ring|, windows)..], id)
    requires NotCounted(Baseline(ring, Start(|ring|, windows)), id)
    ensures Total(ring[|ring| - 1], id) >= 0
    ensures Increase(ring, windows, q, now, span, id) == Total(ring[|ring| - 1], id)
  {
    WholeContribution(ring, windows, q, now, span, sig, id);
    FoldItemsSeries(Empty(now, span), Contribution(ring, windows, q, now, span), EVERYTHING, now, Aggregating, sig, id);
  }

  lemma {:induction false} TailTotal(ring: seq<MetricSet>, start: nat, q: Selection, now: Instant, span: Duration, sig: Signature,
                                     id: Id)
    requires start < |ring| && AllFit(ring, sig) && Rising(ring[start..], id) && Selects(q, id)
    ensures Total(ring[|ring| - 1], id) >= 0
    ensures var items := PerItems(ring, start, q, now);
      var ps := ItemPoints(items, id);
      ItemsFit(items, sig) && |ps| == 1 && ps[0].timestamp.Some? && ps[0].value.Counter?
      && ps[0].value.cumulative == Total(ring[|ring| - 1], id)
  {
    var tail := ring[start..];
    assert tail[|tail| - 1] == ring[|ring| - 1];
    PerComponentTotal(tail, 0, q, now, span, sig, id);
    assert tail[0..] == tail;
    assert Total(tail[|tail| - 1], id) >= 0;
  }

  // ---------------------------------------------------------------------
  // Telescoping
  // ---------------------------------------------------------------------

  /** An increase reported when a ring held a number of windows, over its newest few. */
  type Report = (nat, nat) -> int

  /** Every report is the last total less the one just before the span. */
  ghost predicate IsDifference(report: Report, totals: seq<int>) {
    forall m, windows {:trigger report(m, windows)} :: 0 < m <= |totals| && windows > 0 ==>
      report(m, windows) == totals[m - 1] - if m > windows then totals[m - windows - 1] else 0
  }

  /** The increases of windows `m - n` to `m`, each taken when it was the newest. */
  ghost function SumOfSteps(report: Report, m: nat, n: nat): int
    requires n <= m
  {
    if n == 0 then 0 else SumOfSteps(report, m - 1, n - 1) + report(m, 1)
  }

  lemma {:induction false} StepsTelescope(report: Report, totals: seq<int>, m: nat, n: nat)
    requires IsDifference(report, totals) && 0 < n < m <= |totals|
    ensures SumOfSteps(report, m, n) == report(m, n)
  {
    if n > 1 {
      StepsTelescope(report, totals, m - 1, n - 1);
    } else {
      assert SumOfSteps(report, m - 1, 0) == 0;
    }
  }

  /** What the query reports of a series for each earlier state of a ring. */
  ghost function Reporting(ring: seq<MetricSet>, q: Selection, now: Instant, span: Duration, id: Id): Report {
    (m: nat, windows: nat) => if m <= |ring| then Increase(ring[..m], windows, q, now, span, id) else 0
  }

  ghost function Totals(ring: seq<MetricSet>, id: Id): (t: seq<int>)
    ensures |t| == |ring| && forall i :: 0 <= i < |ring| ==> t[i] == Total(ring[i], id)
  {
    seq(|ring|, i requires 0 <= i < |ring| => Total(ring[i], id))
  }

  lemma {:induction false} ReportingIsDifference(ring: seq<MetricSet>, q: Selection, now: Instant, span: Duration, sig: Signature, id: Id)
    requires AllFit(ring, sig) && Rising(ring, id) && Selects(q, id)
    ensures IsDifference(Reporting(ring, q, now, span, id), Totals(ring, id))
  {
    var totals := Totals(ring, id);
    forall m: nat, windows: nat | 0 < m <= |ring| && windows > 0
      ensures Increase(ring[..m], windows, q, now, span, id) ==
              totals[m - 1] - if m > windows then totals[m - windows - 1] else 0
    {
      RisingSlice(ring, 0, m, sig, id);
      assert ring[..m] == ring[0..m];
      IncreaseIsDifference(ring[..m], windows, q, now, span, sig, id);
    }
  }

  /** The increase over a span is the sum of its windows' own increases, and the increases
      over adjacent spans add up. */
  lemma {:induction false} IncreaseTelescopes(ring: seq<MetricSet>, a: nat, b: nat, q: Selection, now: Instant, span: Duration,
                           sig: Signature, id: Id)
    requires AllFit(ring, sig) && Rising(ring, id) && a > 0 && b > 0 && |ring| > a + b && Selects(q, id)
    ensures var report := Reporting(ring, q, now, span, id);
      report(|ring|, a) == SumOfSteps(report, |ring|, a) &&
      report(|ring|, a + b) == report(|ring| - b, a) + report(|ring|, b)
  {
    ReportingIsDifference(ring, q, now, span, sig, id);
    DifferencesAdd(Reporting(ring, q, now, span, id), Totals(ring, id), a, b);
  }

  lemma {:induction false} DifferencesAdd(report: Report, totals: seq<int>, a: nat, b: nat)
    requires IsDifference(report, totals) && a > 0 && b > 0 && |totals| > a + b
    ensures var m := |totals|;
      report(m, a) == SumOfSteps(report, m, a) && report(m, a + b) == report(m - b, a) + report(m, b)
  {
    StepsTelescope(report, totals, |totals|, a);
  }
}
