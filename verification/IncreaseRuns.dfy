/** `increase_over` over any number of components, each with its own run: what it reports of a
    counter, in terms of what was ingested. */
module IncreaseRuns {
  import opened Wrappers
  import opened Keyed
  import opened Snapshot
  import opened Series
  import opened Windows
  import opened Cascade
  import opened CascadeKeeps
  import opened Retention
  import opened Partition
  import opened Runs
  import opened WellTyped
  import opened RingRuns
  import opened RingOrder
  import opened MetricsQuery
  import opened Gathering
  import opened IncreaseOver

  // ---------------------------------------------------------------------
  // Several components
  // ---------------------------------------------------------------------

  /** The increase of one component: none if its windows lack the series. */
  ghost function IncreaseOf(ring: seq<MetricSet>, windows: nat, id: Id): Option<nat> {
    if ring != [] && Rising(ring, id) && Total(ring[|ring| - 1], id) >= Base(ring, windows, id)
    then Some(Total(ring[|ring| - 1], id) - Base(ring, windows, id))
    else None
  }

  ghost function IncreasesOf(rings: seq<seq<MetricSet>>, windows: nat, id: Id): (r: seq<Option<nat>>)
    ensures |r| == |rings| && forall i :: 0 <= i < |r| ==> r[i] == IncreaseOf(rings[i], windows, id)
  {
    seq(|rings|, i requires 0 <= i < |rings| => IncreaseOf(rings[i], windows, id))
  }

  /** A component's ring carries the counter in every window, or in none. */
  ghost predicate RisesOrLacks(ring: seq<MetricSet>, id: Id) {
    Lacks(ring, id) || (ring != [] && Rising(ring, id))
  }

  ghost predicate AllRiseOrLack(rings: seq<seq<MetricSet>>, sig: Signature, id: Id) {
    forall i :: 0 <= i < |rings| ==> AllFit(rings[i], sig) && RisesOrLacks(rings[i], id)
  }

  ghost function Contributions(rings: seq<seq<MetricSet>>, windows: nat, q: Selection, now: Instant, span: Duration): seq<Item> {
    if rings == [] then []
    else Contributions(rings[..|rings| - 1], windows, q, now, span) + Contribution(rings[|rings| - 1], windows, q, now, span)
  }

  lemma {:induction false} ContributionsStep(rings: seq<seq<MetricSet>>, n: nat, windows: nat, q: Selection, now: Instant,
                                             span: Duration)
    requires 0 < n <= |rings|
    ensures Contributions(rings[..n], windows, q, now, span) ==
            Contributions(rings[..n - 1], windows, q, now, span) + Contribution(rings[n - 1], windows, q, now, span)
  {
    assert rings[..n][..n - 1] == rings[..n - 1];
  }

  lemma {:induction false} AggregatedIsFold(rings: seq<seq<MetricSet>>, n: nat, windows: nat, q: Selection, now: Instant,
                                            span: Duration)
    requires n <= |rings|
    ensures Aggregated(rings, n, windows, q, now, span) ==
            FoldItems([], Contributions(rings[..n], windows, q, now, span), EVERYTHING, now, Aggregating)
  {
    if n > 0 {
      AggregatedIsFold(rings, n - 1, windows, q, now, span);
      var before, more := Contributions(rings[..n - 1], windows, q, now, span), Contribution(rings[n - 1], windows, q, now, span);
      FoldItemsConcat([], before, more, EVERYTHING, now, Aggregating);
      assert Contributions(rings[..n], windows, q, now, span) == before + more by {
        ContributionsStep(rings, n, windows, q, now, span);
      }
    }
  }

  /** A component without the series contributes nothing to it. */
  lemma {:induction false} LackingContribution(ring: seq<MetricSet>, windows: nat, q: Selection, now: Instant, span: Duration,
                                               sig: Signature, id: Id)
    requires AllFit(ring, sig) && Lacks(ring, id)
    ensures var items := Contribution(ring, windows, q, now, span); ItemsFit(items, sig) && ItemPoints(items, id) == []
  {
    var start := Start(|ring|, windows);
    var tail := ring[start..];
    var per := Empty(now, span).(families := FoldItems([], Items(tail), q, now, Coalescing));
    PointsOfLacking(tail, id);
    GatherSpec(Empty(now, span), tail, q, now, Coalescing, sig, id);
    FamiliesPoints(per.families, id);
    FamiliesItemsFit(per.families, sig);
    IncreasePoints(PerItems(ring, start, q, now), Baseline(ring, start), now, id);
    IncreasesFit(PerItems(ring, start, q, now), Baseline(ring, start), now, sig);
  }

  /** The points these items have for the series are the readings there are. */
  ghost predicate Amounts(items: seq<Item>, id: Id, readings: seq<Option<nat>>) {
    |ItemPoints(items, id)| == Present(readings) && SumLatched(ItemPoints(items, id)) == Sum(readings)
  }

  lemma {:induction false} RingAmounts(ring: seq<MetricSet>, windows: nat, q: Selection, now: Instant, span: Duration,
                                       sig: Signature, id: Id)
    requires AllFit(ring, sig) && RisesOrLacks(ring, id) && windows > 0 && Selects(q, id)
    ensures var items := Contribution(ring, windows, q, now, span);
      Comes(items, id, [IncreaseOf(ring, windows, id)], sig)
  {
    var items, one := Contribution(ring, windows, q, now, span), [IncreaseOf(ring, windows, id)];
    assert one[..0] == [];
    assert Present(one[..0]) == 0 && Sum(one[..0]) == 0;
    if Lacks(ring, id) {
      LackingContribution(ring, windows, q, now, span, sig, id);
      LackingDoesNotRise(ring, windows, id);
    } else {
      ContributionPoints(ring, windows, q, now, span, sig, id);
      assert ItemPoints(items, id)[..0] == [];
      assert SumLatched(ItemPoints(items, id)[..0]) == 0;
    }
  }

  lemma {:induction false} LackingDoesNotRise(ring: seq<MetricSet>, windows: nat, id: Id)
    requires Lacks(ring, id)
    ensures IncreaseOf(ring, windows, id).None?
  {
    if ring != [] {
      assert PointOf(ring[0], id).None?;
      assert Total(ring[0], id) == -1;
    }
  }

  lemma {:induction false} SumLatchedConcat(x: seq<Point>, y: seq<Point>)
    ensures SumLatched(x + y) == SumLatched(x) + SumLatched(y)
  {
    if y == [] {
      assert x + y == x;
    } else {
      assert (x + y)[..|x + y| - 1] == x + y[..|y| - 1];
      SumLatchedConcat(x, y[..|y| - 1]);
    }
  }

  /** These items fit and come to these readings. */
  ghost predicate Comes(items: seq<Item>, id: Id, readings: seq<Option<nat>>, sig: Signature) {
    ItemsFit(items, sig) && Amounts(items, id, readings)
  }

  lemma {:induction false} ComesSnoc(items: seq<Item>, more: seq<Item>, id: Id, readings: seq<Option<nat>>, last: Option<nat>,
                                     sig: Signature)
    requires Comes(items, id, readings, sig) && Comes(more, id, [last], sig)
    ensures Comes(items + more, id, readings + [last], sig)
  {
    ItemPointsConcat(items, more, id);
    SumLatchedConcat(ItemPoints(items, id), ItemPoints(more, id));
    assert (readings + [last])[..|readings|] == readings;
    assert [last][..0] == [];
    assert Present([last][..0]) == 0 && Sum([last][..0]) == 0;
  }

  lemma {:induction false} IncreasesOfSnoc(rings: seq<seq<MetricSet>>, windows: nat, id: Id)
    requires rings != []
    ensures var n := |rings| - 1;
      IncreasesOf(rings, windows, id) == IncreasesOf(rings[..n], windows, id) + [IncreaseOf(rings[n], windows, id)]
  {
  }

  lemma {:induction false} RingsAmount(rings: seq<seq<MetricSet>>, windows: nat, q: Selection, now: Instant, span: Duration,
                                       sig: Signature, id: Id)
    requires AllRiseOrLack(rings, sig, id) && windows > 0 && Selects(q, id)
    ensures Comes(Contributions(rings, windows, q, now, span), id, IncreasesOf(rings, windows, id), sig)
  {
    if rings != [] {
      var n := |rings| - 1;
      var items, more := Contributions(rings[..n], windows, q, now, span), Contribution(rings[n], windows, q, now, span);
      var readings, last := IncreasesOf(rings[..n], windows, id), IncreaseOf(rings[n], windows, id);
      assert Comes(items + more, id, readings + [last], sig) by {
        RingsAmount(rings[..n], windows, q, now, span, sig, id);
        RingAmounts(rings[n], windows, q, now, span, sig, id);
        ComesSnoc(items, more, id, readings, last, sig);
      }
      IncreasesOfSnoc(rings, windows, id);
    }
  }

  lemma {:induction false} ItemPointsFit(items: seq<Item>, sig: Signature, id: Id)
    requires ItemsFit(items, sig)
    ensures AllPointsFit(ItemPoints(items, id), sig(id.family).shape)
  {
    if items != [] {
      ItemPointsFit(items[..|items| - 1], sig, id);
    }
  }

  /** Over several components the answer for a counter is the sum, saturating, of the increases
      of those whose windows carry it; without any it is absent. */
  lemma {:induction false} IncreasesAdd(rings: seq<seq<MetricSet>>, windows: nat, q: Selection, now: Instant, span: Duration,
                                        sig: Signature, id: Id)
    requires AllRiseOrLack(rings, sig, id) && windows > 0 && Selects(q, id) && sig(id.family).shape == CounterShape
    ensures var increases := IncreasesOf(rings, windows, id);
      ReadingOf(Answers(rings, windows, q, now, span), id) ==
      if Present(increases) == 0 then None else Some(Added(Present(increases), Sum(increases)))
  {
    var items := Contributions(rings, windows, q, now, span);
    var ps := ItemPoints(items, id);
    AggregatedIsFold(rings, |rings|, windows, q, now, span);
    assert rings[..|rings|] == rings;
    RingsAmount(rings, windows, q, now, span, sig, id);
    FoldItemsSeries(Empty(now, span), items, EVERYTHING, now, Aggregating, sig, id);
    if ps != [] {
      ItemPointsFit(items, sig, id);
      StampKeepsFit(ps, now, CounterShape);
      StampKeepsTotals(ps, now);
      FoldAdds(StampAll(ps, now), CounterShape);
    }
  }

  // ---------------------------------------------------------------------
  // A layer's ring rises with what is ingested
  // ---------------------------------------------------------------------

  /** Both show the counter at the same total and time. */
  ghost predicate ShowsTheSame(a: MetricSet, b: MetricSet, id: Id) {
    Total(a, id) == Total(b, id) && Time(a, id) == Time(b, id)
  }

  /** A block of a rising history shows what its last snapshot shows. */
  lemma {:induction false} BlockShowsLast(block: seq<MetricSet>, sig: Signature, id: Id)
    requires block != [] && AllFit(block, sig) && Rising(block, id)
    ensures ShowsTheSame(Coalesce(block, Coalescing, 0), block[|block| - 1], id)
  {
    var ps := Points(block, id);
    RisingTimes(block, id);
    PointsFit(block, sig, id);
    NewestIsLast(ps);
    FoldKeepsNewest(ps, sig(id.family).shape);
    FoldFitsShape(ps, Coalescing, sig(id.family).shape);
    SeriesOfCoalesce(block, Coalescing, 0, sig, id);
    assert Total(block[|block| - 1], id) >= 0;
  }

  lemma {:induction false} SameFamiliesShowTheSame(a: MetricSet, b: MetricSet, id: Id)
    requires a.families == b.families
    ensures ShowsTheSame(a, b, id)
  {
  }

  lemma {:induction false} RisingPart(history: seq<MetricSet>, lo: nat, hi: nat, id: Id)
    requires lo <= hi <= |history| && Rising(history, id)
    ensures Rising(history[lo..hi], id)
  {
    var part := history[lo..hi];
    assert forall i :: 0 <= i < |part| ==> part[i] == history[lo + i];
  }

  lemma {:induction false} RisingSnoc(windows: seq<MetricSet>, w: MetricSet, id: Id)
    requires Rising(windows, id) && Total(w, id) >= 0
    requires windows != [] ==>
      Total(windows[|windows| - 1], id) <= Total(w, id) && Time(windows[|windows| - 1], id) <= Time(w, id)
    ensures Rising(windows + [w], id)
  {
    var all, m := windows + [w], |windows|;
    forall i, j | 0 <= i <= j < |all|
      ensures Total(all[i], id) <= Total(all[j], id) && Time(all[i], id) <= Time(all[j], id)
    {
      if i < m == j {
        assert Total(windows[i], id) <= Total(windows[m - 1], id) && Time(windows[i], id) <= Time(windows[m - 1], id);
      }
    }
  }

  /** The last of the windows shows what the last of the history shows. */
  ghost predicate EndTogether(windows: seq<MetricSet>, history: seq<MetricSet>, id: Id) {
    windows != [] ==> history != [] && ShowsTheSame(windows[|windows| - 1], history[|history| - 1], id)
  }

  lemma {:induction false} LastTileShows(windows: seq<MetricSet>, history: seq<MetricSet>, n: nat, sig: Signature, id: Id)
    requires windows != [] && n < |history| && LastTile(windows, history, n, sig) && Rising(history, id)
    ensures Fits(windows[|windows| - 1], sig) && Rising(history[..n], id)
    ensures ShowsTheSame(windows[|windows| - 1], history[|history| - 1], id)
  {
    RisingPart(history, 0, n, id);
    RisingPart(history, n, |history|, id);
    assert history[0..n] == history[..n] && history[n..|history|] == history[n..];
    BlockShowsLast(history[n..], sig, id);
    SameFamiliesShowTheSame(windows[|windows| - 1], Coalesce(history[n..], Coalescing, 0), id);
  }

  lemma {:induction false} AllFitSnoc(windows: seq<MetricSet>, sig: Signature)
    requires windows != [] && AllFit(windows[..|windows| - 1], sig) && Fits(windows[|windows| - 1], sig)
    ensures AllFit(windows, sig)
  {
  }

  /** Windows that partition a rising history rise, and end where it ends. */
  lemma {:induction false} TilesRise(windows: seq<MetricSet>, history: seq<MetricSet>, sig: Signature, id: Id)
    requires Tiles(windows, history, sig) && Rising(history, id)
    ensures AllFit(windows, sig) && Rising(windows, id) && EndTogether(windows, history, id)
  {
    if windows != [] {
      var n := TilesNonEmpty(windows, history, sig);
      LastTileShows(windows, history, n, sig, id);
      TilesRise(windows[..|windows| - 1], history[..n], sig, id);
      AllFitSnoc(windows, sig);
      LastShows(history, n, windows, id);
    }
  }

  lemma {:induction false} LastShows(history: seq<MetricSet>, n: nat, windows: seq<MetricSet>, id: Id)
    requires n < |history| && Rising(history, id) && windows != []
    requires Rising(windows[..|windows| - 1], id) && EndTogether(windows[..|windows| - 1], history[..n], id)
    requires ShowsTheSame(windows[|windows| - 1], history[|history| - 1], id)
    ensures Rising(windows, id)
  {
    var init, w, last := windows[..|windows| - 1], windows[|windows| - 1], history[|history| - 1];
    assert Total(last, id) >= 0;
    if init != [] {
      assert Total(history[n - 1], id) <= Total(last, id) && Time(history[n - 1], id) <= Time(last, id);
    }
    RisingSnoc(init, w, id);
    assert windows == init + [w];
  }

  // ---------------------------------------------------------------------
  // Ageing leaves counters alone
  // ---------------------------------------------------------------------

  lemma {:induction false} DropKeepsLookup(families: seq<Entry<string, Family>>, name: string)
    requires Distinct(families)
    requires forall e :: e in families && e.key == name ==> !IsDistribution(e.val)
    ensures Lookup(DropDistributions(families), name) == Lookup(families, name)
  {
    var kept := DropDistributions(families);
    DropKeepsDistinct(families);
    if i :| 0 <= i < |families| && families[i].key == name {
      StripKeepsOthers(families, families[i]);
      var j :| 0 <= j < |kept| && kept[j] == families[i];
      LookupAt(families, i);
      LookupAt(kept, j);
    } else {
      forall j | 0 <= j < |kept|
        ensures kept[j].key != name
      {
        StripKeepsOthers(families, kept[j]);
        var i :| 0 <= i < |families| && families[i] == kept[j];
      }
    }
  }

  /** Nothing a series of another type says is lost when distributions are stripped. */
  lemma {:induction false} StrippedShowsTheSame(w: MetricSet, sig: Signature, id: Id)
    requires Fits(w, sig) && sig(id.family).kind == CounterType
    ensures Fits(WithoutDistributions(w), sig) && PointOf(WithoutDistributions(w), id) == PointOf(w, id)
  {
    StripFits(w, sig);
    forall e | e in w.families && e.key == id.family
      ensures !IsDistribution(e.val)
    {
      var j :| 0 <= j < |w.families| && w.families[j] == e;
    }
    DropKeepsLookup(w.families, id.family);
  }

  /** The ring is a late part of the log and has the counter as the log has it. */
  ghost predicate TailOf(ring: seq<MetricSet>, log: seq<MetricSet>, id: Id) {
    |ring| <= |log| &&
    forall i :: 0 <= i < |ring| ==> PointOf(ring[i], id) == PointOf(log[|log| - |ring| + i], id)
  }

  lemma {:induction false} AgedShowsTheSame(w: MetricSet, newest: Instant, histRetain: Duration, sig: Signature, id: Id)
    requires Fits(w, sig) && sig(id.family).kind == CounterType
    ensures Fits(Aged(w, newest, histRetain), sig) && PointOf(Aged(w, newest, histRetain), id) == PointOf(w, id)
  {
    StrippedShowsTheSame(w, sig, id);
  }

  lemma {:induction false} AgedAllShows(s: seq<MetricSet>, newest: Instant, histRetain: Duration, sig: Signature, id: Id)
    requires AllFit(s, sig) && sig(id.family).kind == CounterType
    ensures AllFit(AgedAll(s, newest, histRetain), sig)
    ensures forall i :: 0 <= i < |s| ==> PointOf(AgedAll(s, newest, histRetain)[i], id) == PointOf(s[i], id)
  {
    forall i | 0 <= i < |s|
      ensures Fits(AgedAll(s, newest, histRetain)[i], sig) && PointOf(AgedAll(s, newest, histRetain)[i], id) == PointOf(s[i], id)
    {
      AgedShowsTheSame(s[i], newest, histRetain, sig, id);
    }
  }

  lemma {:induction false} RingIsTail(log: seq<MetricSet>, retain: Duration, histRetain: Duration, sig: Signature, id: Id)
    requires AllFit(log, sig) && sig(id.family).kind == CounterType
    ensures AllFit(RingOf(log, retain, histRetain), sig) && TailOf(RingOf(log, retain, histRetain), log, id)
  {
    if log != [] {
      AgedAllShows(log[RingStart(log, retain)..], log[|log| - 1].capturedAt, histRetain, sig, id);
    }
  }

  lemma {:induction false} TailRises(ring: seq<MetricSet>, log: seq<MetricSet>, id: Id)
    requires TailOf(ring, log, id) && Rising(log, id)
    ensures Rising(ring, id)
  {
    var start := |log| - |ring|;
    forall i, j | 0 <= i <= j < |ring|
      ensures Total(ring[i], id) >= 0 && Total(ring[i], id) <= Total(ring[j], id) && Time(ring[i], id) <= Time(ring[j], id)
    {
      assert PointOf(ring[i], id) == PointOf(log[start + i], id) && PointOf(ring[j], id) == PointOf(log[start + j], id);
      assert Total(log[start + i], id) <= Total(log[start + j], id);
    }
  }

  // ---------------------------------------------------------------------
  // Runs
  // ---------------------------------------------------------------------

  lemma {:induction false} TilesExtend(y: seq<MetricSet>, a: seq<MetricSet>, b: seq<MetricSet>, sig: Signature)
    requires y != [] && Tiles(y[..|y| - 1], a, sig) && Holds(y[|y| - 1], b, sig)
    ensures Tiles(y, a + b, sig)
  {
    assert (a + b)[..|a|] == a && (a + b)[|a|..] == b;
    assert LastTile(y, a + b, |a|, sig);
  }

  lemma {:induction false} TilesLast(x: seq<MetricSet>, y: seq<MetricSet>, history: seq<MetricSet>, sig: Signature)
    returns (p: nat)
    requires y != [] && Tiles(x + y, history, sig)
    ensures p <= |history| && Tiles(x + y[..|y| - 1], history[..p], sig) && Holds(y[|y| - 1], history[p..], sig)
  {
    var all := x + y;
    p := TilesNonEmpty(all, history, sig);
    assert all[..|all| - 1] == x + y[..|y| - 1];
  }

  lemma {:induction false} Slices<T>(s: seq<T>, p: nat, n: nat)
    requires n <= p <= |s|
    ensures s[..p][..n] == s[..n] && s[..p][n..] + s[p..] == s[n..]
  {
  }

  lemma {:induction false} TilesSplit(x: seq<MetricSet>, y: seq<MetricSet>, history: seq<MetricSet>, sig: Signature)
    returns (n: nat)
    requires Tiles(x + y, history, sig)
    ensures n <= |history| && Tiles(x, history[..n], sig) && Tiles(y, history[n..], sig)
  {
    if y == [] {
      n := |history|;
      assert x + y == x && history[..n] == history;
    } else {
      var p := TilesLast(x, y, history, sig);
      var before, block := history[..p], history[p..];
      n := TilesSplit(x, y[..|y| - 1], before, sig);
      TilesExtend(y, before[n..], block, sig);
      Slices(history, p, n);
    }
  }

  /** Where the layers up to it divide each other and a counter rises as it is ingested in capture
      order, a layer's ring rises, and shows what the newest of all that layer has sealed show. */
  lemma {:induction false} RunRingRises(layers: seq<Duration>, ops: seq<Op>, j: nat, sig: Signature, id: Id)
    requires DividingTo(layers, j) && Legal(ops, sig) && j < |layers|
    requires Ordered(Run(layers, ops).history) && Rising(Run(layers, ops).history, id) && sig(id.family).kind == CounterType
    ensures var p := Run(layers, ops);
      AllFit(p.ws[j].ring, sig) && Rising(p.ws[j].ring, id) && TailOf(p.ws[j].ring, p.logs[j], id)
  {
    var p := Run(layers, ops);
    var n := SealedTiles(layers, ops, j, sig);
    RisingPart(p.history, 0, n, id);
    assert p.history[0..n] == p.history[..n];
    TilesRise(p.logs[j], p.history[..n], sig, id);
    RingMatchesHistory(layers, ops, j);
    SealedIsLogged(layers, ops, j);
    RingIsTail(p.logs[j], p.ws[j].retain, p.ws[j].histRetain, sig, id);
    TailRises(p.ws[j].ring, p.logs[j], id);
  }

  /** A layer's sealed windows hold a first stretch of the history. */
  lemma {:induction false} SealedTiles(layers: seq<Duration>, ops: seq<Op>, j: nat, sig: Signature) returns (n: nat)
    requires DividingTo(layers, j) && Legal(ops, sig) && j < |layers|
    ensures var p := Run(layers, ops); n <= |p.history| && Tiles(p.logs[j], p.history[..n], sig)
  {
    var p := Run(layers, ops);
    RunPartition(layers, ops, j, sig);
    n := TilesSplit(p.logs[j], Open(p.ws, j, 0), p.history, sig);
  }

  /** The total ingested by the time `n` snapshots were. */
  ghost function IngestedTotal(history: seq<MetricSet>, n: nat, id: Id): int
    requires n <= |history|
  {
    if n == 0 then 0 else Total(history[n - 1], id)
  }

  /** The newest windows hold the ingests from `lo` to `hi`, which is all the layer has sealed. */
  ghost predicate Spans(log: seq<MetricSet>, windows: nat, history: seq<MetricSet>, lo: nat, hi: nat, sig: Signature) {
    lo <= hi <= |history| && windows <= |log| &&
    Tiles(log[..|log| - windows], history[..lo], sig) && Tiles(log[|log| - windows..], history[lo..hi], sig)
  }

  lemma {:induction false} FindSpan(log: seq<MetricSet>, windows: nat, history: seq<MetricSet>, hi: nat, sig: Signature)
    returns (lo: nat)
    requires windows <= |log| && hi <= |history| && Tiles(log, history[..hi], sig)
    ensures Spans(log, windows, history, lo, hi, sig)
  {
    var x, y := log[..|log| - windows], log[|log| - windows..];
    assert log == x + y;
    lo := TilesSplit(x, y, history[..hi], sig);
    assert history[..hi][..lo] == history[..lo] && history[..hi][lo..] == history[lo..hi];
  }

  lemma {:induction false} EndShows(windows: seq<MetricSet>, history: seq<MetricSet>, n: nat, sig: Signature, id: Id)
    requires n <= |history| && windows != [] && Tiles(windows, history[..n], sig) && Rising(history, id)
    ensures n > 0 && Total(windows[|windows| - 1], id) == IngestedTotal(history, n, id)
  {
    RisingPart(history, 0, n, id);
    assert history[0..n] == history[..n];
    TilesRise(windows, history[..n], sig, id);
  }

  /** What the increase says: the total at the end of what has been sealed, less the one just
      before the newest windows, or less nothing where the ring is no longer than the span. */
  ghost predicate Accounts(ring: seq<MetricSet>, log: seq<MetricSet>, windows: nat, increase: int, history: seq<MetricSet>,
                           lo: nat, hi: nat, sig: Signature, id: Id)
  {
    hi <= |history| && Tiles(log, history[..hi], sig) &&
    if |ring| > windows then
      Spans(log, windows, history, lo, hi, sig) &&
      increase == IngestedTotal(history, hi, id) - IngestedTotal(history, lo, id)
    else increase == IngestedTotal(history, hi, id)
  }

  lemma {:induction false} TailShows(ring: seq<MetricSet>, log: seq<MetricSet>, k: nat, id: Id)
    requires TailOf(ring, log, id) && k < |ring|
    ensures Total(ring[|ring| - 1 - k], id) == Total(log[|log| - 1 - k], id)
  {
    assert PointOf(ring[|ring| - 1 - k], id) == PointOf(log[|log| - |ring| + (|ring| - 1 - k)], id);
  }

  lemma {:induction false} BaseShows(ring: seq<MetricSet>, log: seq<MetricSet>, windows: nat, history: seq<MetricSet>, lo: nat,
                                     hi: nat, sig: Signature, id: Id)
    requires TailOf(ring, log, id) && Rising(history, id) && |ring| > windows && Spans(log, windows, history, lo, hi, sig)
    ensures Base(ring, windows, id) == IngestedTotal(history, lo, id)
  {
    TailShows(ring, log, windows, id);
    EndShows(log[..|log| - windows], history, lo, sig, id);
  }

  lemma {:induction false} TailAccounts(ring: seq<MetricSet>, log: seq<MetricSet>, windows: nat, history: seq<MetricSet>, hi: nat,
                                        sig: Signature, id: Id)
    returns (lo: nat)
    requires ring != [] && TailOf(ring, log, id) && Rising(history, id) && windows > 0
    requires hi <= |history| && Tiles(log, history[..hi], sig)
    ensures Accounts(ring, log, windows, Total(ring[|ring| - 1], id) - Base(ring, windows, id), history, lo, hi, sig, id)
  {
    lo := 0;
    TailShows(ring, log, 0, id);
    EndShows(log, history, hi, sig, id);
    if |ring| > windows {
      lo := FindSpan(log, windows, history, hi, sig);
      BaseShows(ring, log, windows, history, lo, hi, sig, id);
    }
  }

  /** The increase a query reports for one component is the difference of two ingested totals. */
  lemma {:induction false} RunIncrease(layers: seq<Duration>, ops: seq<Op>, j: nat, windows: nat, q: Selection, now: Instant,
                                       span: Duration, sig: Signature, id: Id)
    returns (lo: nat, hi: nat)
    requires DividingTo(layers, j) && Legal(ops, sig) && j < |layers| && windows > 0 && Selects(q, id)
    requires Ordered(Run(layers, ops).history) && Rising(Run(layers, ops).history, id) && sig(id.family).kind == CounterType
    requires Run(layers, ops).ws[j].ring != []
    ensures var p := Run(layers, ops);
      var ring := p.ws[j].ring;
      Accounts(ring, p.logs[j], windows, Increase(ring, windows, q, now, span, id), p.history, lo, hi, sig, id)
  {
    var p := Run(layers, ops);
    RunRingRises(layers, ops, j, sig, id);
    hi := SealedTiles(layers, ops, j, sig);
    IncreaseIsDifference(p.ws[j].ring, windows, q, now, span, sig, id);
    lo := TailAccounts(p.ws[j].ring, p.logs[j], windows, p.history, hi, sig, id);
  }

  // ---------------------------------------------------------------------
  // Several runs
  // ---------------------------------------------------------------------

  lemma {:induction false} TailLacks(ring: seq<MetricSet>, log: seq<MetricSet>, id: Id)
    requires TailOf(ring, log, id) && Lacks(log, id)
    ensures Lacks(ring, id)
  {
    forall i | 0 <= i < |ring|
      ensures PointOf(ring[i], id).None?
    {
      assert PointOf(ring[i], id) == PointOf(log[|log| - |ring| + i], id);
    }
  }

  lemma {:induction false} RunRingLacks(layers: seq<Duration>, ops: seq<Op>, j: nat, sig: Signature, id: Id)
    requires DividingTo(layers, j) && Legal(ops, sig) && j < |layers|
    requires Ordered(Run(layers, ops).history) && Lacks(Run(layers, ops).history, id) && sig(id.family).kind == CounterType
    ensures AllFit(Run(layers, ops).ws[j].ring, sig) && Lacks(Run(layers, ops).ws[j].ring, id)
  {
    var p := Run(layers, ops);
    var n := SealedTiles(layers, ops, j, sig);
    TilesLack(p.logs[j], p.history[..n], sig, id);
    SealedFits(p.logs[j], p.history[..n], sig);
    RingMatchesHistory(layers, ops, j);
    SealedIsLogged(layers, ops, j);
    RingIsTail(p.logs[j], p.ws[j].retain, p.ws[j].histRetain, sig, id);
    TailLacks(p.ws[j].ring, p.logs[j], id);
  }

  lemma {:induction false} SealedFits(log: seq<MetricSet>, history: seq<MetricSet>, sig: Signature)
    requires Tiles(log, history, sig)
    ensures AllFit(log, sig)
  {
    if log != [] {
      var n := TilesNonEmpty(log, history, sig);
      SealedFits(log[..|log| - 1], history[..n], sig);
      AllFitSnoc(log, sig);
    }
  }

  function Rings(layers: seq<Duration>, runs: seq<seq<Op>>, j: nat): (r: seq<seq<MetricSet>>)
    requires j < |layers|
    ensures |r| == |runs| && forall i :: 0 <= i < |r| ==> r[i] == Run(layers, runs[i]).ws[j].ring
  {
    seq(|runs|, i requires 0 <= i < |runs| => Run(layers, runs[i]).ws[j].ring)
  }

  /** A run was given its snapshots in capture order, with the counter rising or never there. */
  ghost predicate Steady(history: seq<MetricSet>, id: Id) {
    Ordered(history) && (Rising(history, id) || Lacks(history, id))
  }

  ghost predicate AllSteady(layers: seq<Duration>, runs: seq<seq<Op>>, id: Id) {
    forall i :: 0 <= i < |runs| ==> Steady(Run(layers, runs[i]).history, id)
  }

  /** A component's increase, if it has one, is the difference of two totals it was given. */
  ghost predicate Explained(ring: seq<MetricSet>, log: seq<MetricSet>, windows: nat, history: seq<MetricSet>, sig: Signature, id: Id) {
    var increase := IncreaseOf(ring, windows, id);
    increase.Some? ==> exists lo: nat, hi: nat :: Accounts(ring, log, windows, increase.value, history, lo, hi, sig, id)
  }

  lemma {:induction false} RisingExplained(ring: seq<MetricSet>, log: seq<MetricSet>, windows: nat, history: seq<MetricSet>, hi: nat,
                                           sig: Signature, id: Id)
    requires TailOf(ring, log, id) && Rising(history, id) && windows > 0
    requires hi <= |history| && Tiles(log, history[..hi], sig)
    ensures Explained(ring, log, windows, history, sig, id)
  {
    if ring != [] {
      var lo := TailAccounts(ring, log, windows, history, hi, sig, id);
    }
  }

  lemma {:induction false} RunExplained(layers: seq<Duration>, ops: seq<Op>, j: nat, windows: nat, sig: Signature, id: Id)
    requires DividingTo(layers, j) && Legal(ops, sig) && j < |layers| && windows > 0
    requires Steady(Run(layers, ops).history, id) && sig(id.family).kind == CounterType
    ensures var p := Run(layers, ops); Explained(p.ws[j].ring, p.logs[j], windows, p.history, sig, id)
  {
    var p := Run(layers, ops);
    if Lacks(p.history, id) {
      RunRingLacks(layers, ops, j, sig, id);
      LackingDoesNotRise(p.ws[j].ring, windows, id);
    } else {
      RunRingRises(layers, ops, j, sig, id);
      var hi := SealedTiles(layers, ops, j, sig);
      RisingExplained(p.ws[j].ring, p.logs[j], windows, p.history, hi, sig, id);
    }
  }

  lemma {:induction false} RunSteady(layers: seq<Duration>, ops: seq<Op>, j: nat, sig: Signature, id: Id)
    requires DividingTo(layers, j) && Legal(ops, sig) && j < |layers|
    requires Steady(Run(layers, ops).history, id) && sig(id.family).kind == CounterType
    ensures AllFit(Run(layers, ops).ws[j].ring, sig) && RisesOrLacks(Run(layers, ops).ws[j].ring, id)
  {
    if Lacks(Run(layers, ops).history, id) {
      RunRingLacks(layers, ops, j, sig, id);
    } else {
      RunRingRises(layers, ops, j, sig, id);
    }
  }

  /** Over the runs of several components the answer for a counter is the sum, saturating, of
      their increases, each the difference of two totals its component was given. */
  lemma {:induction false} RunsIncreasesAdd(layers: seq<Duration>, runs: seq<seq<Op>>, j: nat, windows: nat, q: Selection,
                                            now: Instant, span: Duration, sig: Signature, id: Id)
    requires DividingTo(layers, j) && AllLegal(runs, sig) && j < |layers| && windows > 0 && Selects(q, id)
    requires AllSteady(layers, runs, id) && sig(id.family) == FamilyType(CounterType, CounterShape)
    ensures var increases := IncreasesOf(Rings(layers, runs, j), windows, id);
      ReadingOf(Answers(Rings(layers, runs, j), windows, q, now, span), id) ==
      if Present(increases) == 0 then None else Some(Added(Present(increases), Sum(increases)))
    ensures forall i :: 0 <= i < |runs| ==>
      var p := Run(layers, runs[i]); Explained(p.ws[j].ring, p.logs[j], windows, p.history, sig, id)
  {
    var rings := Rings(layers, runs, j);
    forall i | 0 <= i < |runs|
      ensures AllFit(rings[i], sig) && RisesOrLacks(rings[i], id)
      ensures var p := Run(layers, runs[i]); Explained(p.ws[j].ring, p.logs[j], windows, p.history, sig, id)
    {
      RunSteady(layers, runs[i], j, sig, id);
      RunExplained(layers, runs[i], j, windows, sig, id);
    }
    IncreasesAdd(rings, windows, q, now, span, sig, id);
  }
}
