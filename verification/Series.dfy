/** One series, named by its family and labels, across snapshots: what coalescing keeps
    of it, stated without the fold. */
module Series {
  import opened Wrappers
  import opened Keyed
  import opened Labels
  import opened Snapshot
  import opened Partition

  datatype Id = Id(family: string, labels: Labels)

  function PointOf(s: MetricSet, id: Id): Option<Point> {
    var f := Lookup(s.families, id.family);
    if f.None? then None else Lookup(f.value.metrics, id.labels)
  }

  /** Merging snapshots merges each series on its own. */
  lemma {:induction false} PointOfMerge(a: MetricSet, b: MetricSet, mode: CombineMode, sig: Signature, id: Id)
    requires Fits(a, sig) && Fits(b, sig)
    ensures PointOf(MergeSets(a, b, mode), id) == Both(PointOf(a, id), PointOf(b, id), PointOp(mode))
  {
    MergeLookup(a.families, b.families, FamilyOp(mode), id.family);
    var x, y := Lookup(a.families, id.family), Lookup(b.families, id.family);
    if x.Some? && y.Some? {
      MergeLookup(x.value.metrics, y.value.metrics, PointOp(mode), id.labels);
    }
  }

  lemma {:induction false} PointOfFits(s: MetricSet, sig: Signature, id: Id)
    requires Fits(s, sig)
    ensures PointOf(s, id).Some? ==> FitsPoint(PointOf(s, id).value, sig(id.family).shape)
  {
  }

  // ---------------------------------------------------------------------
  // Histogram samples are conserved
  // ---------------------------------------------------------------------

  /** The samples a snapshot holds for a series, by HDR bucket. */
  function Samples(s: MetricSet, id: Id): multiset<nat> {
    var p := PointOf(s, id);
    if p.Some? && p.value.value.Histogram? then p.value.value.reservoir else multiset{}
  }

  function TotalSamples(snaps: seq<MetricSet>, id: Id): multiset<nat> {
    if snaps == [] then multiset{}
    else TotalSamples(snaps[..|snaps| - 1], id) + Samples(snaps[|snaps| - 1], id)
  }

  lemma {:induction false} SamplesOfMerge(a: MetricSet, b: MetricSet, mode: CombineMode, sig: Signature, id: Id)
    requires Fits(a, sig) && Fits(b, sig)
    ensures Samples(MergeSets(a, b, mode), id) == Samples(a, id) + Samples(b, id)
  {
    PointOfMerge(a, b, mode, sig, id);
    PointOfFits(a, sig, id);
    PointOfFits(b, sig, id);
  }

  lemma {:induction false} SamplesOfCoalesce(block: seq<MetricSet>, mode: CombineMode, now: Instant, sig: Signature, id: Id)
    requires block != [] && AllFit(block, sig)
    ensures Samples(Coalesce(block, mode, now), id) == TotalSamples(block, id)
  {
    var init, last := block[..|block| - 1], block[|block| - 1];
    if init != [] {
      SamplesOfCoalesce(init, mode, now, sig, id);
      CoalesceFits(init, mode, now, sig);
      SamplesOfMerge(Coalesce(init, mode, now), last, mode, sig, id);
    }
  }

  lemma {:induction false} TotalSamplesConcat(x: seq<MetricSet>, y: seq<MetricSet>, id: Id)
    ensures TotalSamples(x + y, id) == TotalSamples(x, id) + TotalSamples(y, id)
  {
    if y == [] {
      assert x + y == x;
    } else {
      assert (x + y)[..|x + y| - 1] == x + y[..|y| - 1];
      TotalSamplesConcat(x, y[..|y| - 1], id);
    }
  }

  lemma {:induction false} SameFamiliesSameSamples(a: MetricSet, b: MetricSet, id: Id)
    requires a.families == b.families
    ensures Samples(a, id) == Samples(b, id)
  {
  }

  /** Windows that partition a history hold each of its samples exactly once. */
  lemma {:induction false} TilesConserveSamples(windows: seq<MetricSet>, history: seq<MetricSet>, sig: Signature, id: Id)
    requires Tiles(windows, history, sig)
    ensures TotalSamples(windows, id) == TotalSamples(history, id)
  {
    if windows != [] {
      var n := TilesNonEmpty(windows, history, sig);
      TilesConserveSamples(windows[..|windows| - 1], history[..n], sig, id);
      SamplesOfCoalesce(history[n..], Coalescing, 0, sig, id);
      assert history[..n] + history[n..] == history;
      TotalSamplesConcat(history[..n], history[n..], id);
      SameFamiliesSameSamples(windows[|windows| - 1], Coalesce(history[n..], Coalescing, 0), id);
    }
  }

  // ---------------------------------------------------------------------
  // The fold of one series
  // ---------------------------------------------------------------------

  function OptPoint(p: Option<Point>): seq<Point> {
    if p.None? then [] else [p.value]
  }

  /** The points a series has across snapshots, where it is present. */
  function Points(snaps: seq<MetricSet>, id: Id): seq<Point> {
    if snaps == [] then []
    else Points(snaps[..|snaps| - 1], id) + OptPoint(PointOf(snaps[|snaps| - 1], id))
  }

  function FoldPoints(ps: seq<Point>, mode: CombineMode): Point
    requires ps != []
  {
    if |ps| == 1 then ps[0] else Combined(FoldPoints(ps[..|ps| - 1], mode), ps[|ps| - 1], mode)
  }

  lemma {:induction false} FoldSnoc(ps: seq<Point>, p: Point, mode: CombineMode)
    requires ps != []
    ensures FoldPoints(ps + [p], mode) == Combined(FoldPoints(ps, mode), p, mode)
  {
    assert (ps + [p])[..|ps|] == ps;
  }

  /** A series of a coalesced snapshot is the fold of the series' own points. */
  lemma {:induction false} SeriesOfCoalesce(snaps: seq<MetricSet>, mode: CombineMode, now: Instant, sig: Signature, id: Id)
    requires snaps != [] && AllFit(snaps, sig)
    ensures PointOf(Coalesce(snaps, mode, now), id) ==
            if Points(snaps, id) == [] then None else Some(FoldPoints(Points(snaps, id), mode))
  {
    var init, last := snaps[..|snaps| - 1], snaps[|snaps| - 1];
    var ps, p := Points(init, id), PointOf(last, id);
    assert Points(snaps, id) == ps + OptPoint(p);
    if init == [] {
      assert ps == [];
    } else {
      SeriesOfCoalesce(init, mode, now, sig, id);
      CoalesceFits(init, mode, now, sig);
      PointOfMerge(Coalesce(init, mode, now), last, mode, sig, id);
      if p.None? {
        assert ps + OptPoint(p) == ps;
      } else if ps == [] {
        assert ps + OptPoint(p) == [p.value];
      } else {
        FoldSnoc(ps, p.value, mode);
      }
    }
  }

  ghost predicate AllPointsFit(ps: seq<Point>, shape: Shape) {
    forall i :: 0 <= i < |ps| ==> FitsPoint(ps[i], shape)
  }

  lemma {:induction false} PointsFit(snaps: seq<MetricSet>, sig: Signature, id: Id)
    requires AllFit(snaps, sig)
    ensures AllPointsFit(Points(snaps, id), sig(id.family).shape)
  {
    if snaps != [] {
      PointsFit(snaps[..|snaps| - 1], sig, id);
      PointOfFits(snaps[|snaps| - 1], sig, id);
    }
  }

  lemma {:induction false} FoldFitsShape(ps: seq<Point>, mode: CombineMode, shape: Shape)
    requires ps != [] && AllPointsFit(ps, shape)
    ensures FitsPoint(FoldPoints(ps, mode), shape)
  {
    if |ps| > 1 {
      FoldFitsShape(ps[..|ps| - 1], mode, shape);
      CombineFits(FoldPoints(ps[..|ps| - 1], mode), ps[|ps| - 1], mode, shape);
    }
  }

  /** The running total, reading or lifetime count of a value: what is kept, not added. */
  function Latched(v: Value): nat {
    match v
    case Counter(total, _) => total
    case Gauge(reading) => reading.bits
    case Histogram(_, total, _) => total
    case Bucketed(_, _, total, _) => total
    case _ => 0
  }

  /** The last point among those with the greatest timestamp, a missing timestamp coming
      before every other. */
  function NewestIndex(ps: seq<Point>): (at: nat)
    requires ps != []
    ensures at < |ps|
    ensures forall i :: 0 <= i < |ps| ==>
      AtMost(ps[i].timestamp, ps[at].timestamp) && (i > at ==> ps[i].timestamp != ps[at].timestamp)
  {
    var n := |ps| - 1;
    if n == 0 then 0
    else
      var at := NewestIndex(ps[..n]);
      assert forall i :: 0 <= i < n ==> ps[i] == ps[..n][i];
      if AtMost(ps[at].timestamp, ps[n].timestamp) then n else at
  }

  lemma {:induction false} CombineLatches(a: Point, b: Point, shape: Shape)
    requires FitsPoint(a, shape) && FitsPoint(b, shape)
    ensures var kept, newer := Combined(a, b, Coalescing), if AtMost(a.timestamp, b.timestamp) then b else a;
      kept.timestamp == newer.timestamp && Latched(kept.value) == Latched(newer.value)
  {
    CombineFits(a, b, Coalescing, shape);
  }

  /** Coalescing in time keeps what the newest point said. */
  lemma {:induction false} FoldKeepsNewest(ps: seq<Point>, shape: Shape)
    requires ps != [] && AllPointsFit(ps, shape)
    ensures var kept, newest := FoldPoints(ps, Coalescing), ps[NewestIndex(ps)];
      kept.timestamp == newest.timestamp && Latched(kept.value) == Latched(newest.value)
  {
    var n := |ps| - 1;
    if n > 0 {
      FoldKeepsNewest(ps[..n], shape);
      FoldFitsShape(ps[..n], Coalescing, shape);
      CombineLatches(FoldPoints(ps[..n], Coalescing), ps[n], shape);
    }
  }

  function SumLatched(ps: seq<Point>): nat {
    if ps == [] then 0 else SumLatched(ps[..|ps| - 1]) + Latched(ps[|ps| - 1].value)
  }

  /** The values that carry a running total: counters, and histograms with their lifetime count. */
  predicate Totalled(shape: Shape) {
    shape.CounterShape? || shape.HistogramShape? || shape.BucketedShape?
  }

  lemma {:induction false} CombineAdds(a: Point, b: Point, shape: Shape)
    requires Totalled(shape) && FitsPoint(a, shape) && FitsPoint(b, shape)
    ensures Latched(Combined(a, b, Aggregating).value) == Min(Latched(a.value) + Latched(b.value), U64_MAX)
  {
    CombineFits(a, b, Aggregating, shape);
  }

  /** Aggregating across components adds running totals, a histogram's lifetime count like a
      counter's, saturating. */
  lemma {:induction false} FoldAddsTotals(ps: seq<Point>, shape: Shape)
    requires |ps| >= 2 && Totalled(shape) && AllPointsFit(ps, shape)
    ensures Latched(FoldPoints(ps, Aggregating).value) == Min(SumLatched(ps), U64_MAX)
  {
    var init := ps[..|ps| - 1];
    FoldFitsShape(init, Aggregating, shape);
    CombineAdds(FoldPoints(init, Aggregating), ps[|ps| - 1], shape);
    if |init| >= 2 {
      FoldAddsTotals(init, shape);
    } else {
      assert init[..|init| - 1] == [];
      assert SumLatched(init) == Latched(init[0].value);
    }
  }

  function SumSamples(ps: seq<Point>): multiset<nat> {
    if ps == [] then multiset{}
    else
      var v := ps[|ps| - 1].value;
      SumSamples(ps[..|ps| - 1]) + if v.Histogram? then v.reservoir else multiset{}
  }

  /** Folding histogram points adds their reservoirs, in either mode. */
  lemma {:induction false} FoldAddsSamples(ps: seq<Point>, mode: CombineMode)
    requires ps != [] && AllPointsFit(ps, HistogramShape)
    ensures FoldPoints(ps, mode).value.Histogram? && FoldPoints(ps, mode).value.reservoir == SumSamples(ps)
  {
    var init := ps[..|ps| - 1];
    if init != [] {
      FoldAddsSamples(init, mode);
      FoldFitsShape(init, mode, HistogramShape);
    }
  }

  // ---------------------------------------------------------------------
  // Several components
  // ---------------------------------------------------------------------

  /** No snapshot has the series. */
  ghost predicate Lacks(snaps: seq<MetricSet>, id: Id) {
    forall i :: 0 <= i < |snaps| ==> PointOf(snaps[i], id).None?
  }

  lemma {:induction false} PointsOfLacking(snaps: seq<MetricSet>, id: Id)
    requires Lacks(snaps, id)
    ensures Points(snaps, id) == []
  {
    if snaps != [] {
      PointsOfLacking(snaps[..|snaps| - 1], id);
    }
  }

  function ReadingOf(s: MetricSet, id: Id): Option<nat> {
    var p := PointOf(s, id);
    if p.None? then None else Some(Latched(p.value.value))
  }

  function Readings(pers: seq<MetricSet>, id: Id): (r: seq<Option<nat>>)
    ensures |r| == |pers| && forall i :: 0 <= i < |r| ==> r[i] == ReadingOf(pers[i], id)
  {
    seq(|pers|, i requires 0 <= i < |pers| => ReadingOf(pers[i], id))
  }

  lemma {:induction false} SameFamiliesSamePoint(a: MetricSet, b: MetricSet, id: Id)
    requires a.families == b.families
    ensures PointOf(a, id) == PointOf(b, id)
  {
  }

  /** A block of snapshots without the series coalesces to one without it. */
  lemma {:induction false} TilesLack(windows: seq<MetricSet>, history: seq<MetricSet>, sig: Signature, id: Id)
    requires Tiles(windows, history, sig) && Lacks(history, id)
    ensures Lacks(windows, id)
  {
    if windows != [] {
      var n := TilesNonEmpty(windows, history, sig);
      var block := history[n..];
      TilesLack(windows[..|windows| - 1], history[..n], sig, id);
      PointsOfLacking(block, id);
      SeriesOfCoalesce(block, Coalescing, 0, sig, id);
      SameFamiliesSamePoint(windows[|windows| - 1], Coalesce(block, Coalescing, 0), id);
      assert windows == windows[..|windows| - 1] + [windows[|windows| - 1]];
    }
  }

  /** How many of the readings there are, and what they come to. */
  function Present(readings: seq<Option<nat>>): nat {
    if readings == [] then 0 else Present(readings[..|readings| - 1]) + if readings[|readings| - 1].Some? then 1 else 0
  }

  function Sum(readings: seq<Option<nat>>): nat {
    if readings == [] then 0
    else Sum(readings[..|readings| - 1]) + if readings[|readings| - 1].Some? then readings[|readings| - 1].value else 0
  }

  lemma {:induction false} PointsAreReadings(pers: seq<MetricSet>, id: Id)
    ensures |Points(pers, id)| == Present(Readings(pers, id))
    ensures SumLatched(Points(pers, id)) == Sum(Readings(pers, id))
  {
    if pers != [] {
      var init, per := pers[..|pers| - 1], pers[|pers| - 1];
      PointsAreReadings(init, id);
      assert Readings(pers, id)[..|pers| - 1] == Readings(init, id);
      SumLatchedOpt(Points(init, id), PointOf(per, id));
    }
  }

  lemma {:induction false} SumLatchedOpt(ps: seq<Point>, p: Option<Point>)
    ensures SumLatched(ps + OptPoint(p)) == SumLatched(ps) + if p.Some? then Latched(p.value.value) else 0
  {
    if p.Some? {
      assert (ps + [p.value])[..|ps|] == ps;
    } else {
      assert ps + [] == ps;
    }
  }

  /** Totals added across components: one alone is as it is, more saturate at 64 bits. */
  function Added(components: nat, total: nat): nat {
    if components <= 1 then total else Min(total, U64_MAX)
  }

  lemma {:induction false} FoldAdds(ps: seq<Point>, shape: Shape)
    requires ps != [] && Totalled(shape) && AllPointsFit(ps, shape)
    ensures Latched(FoldPoints(ps, Aggregating).value) == Added(|ps|, SumLatched(ps))
  {
    if |ps| >= 2 {
      FoldAddsTotals(ps, shape);
    } else {
      assert ps[..0] == [];
      assert SumLatched(ps[..0]) == 0;
    }
  }
}
