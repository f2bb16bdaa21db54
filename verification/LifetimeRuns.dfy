/** `session_lifetime` over any number of components, each with its own run: what it reports
    of a series, in terms of what was ingested. */
module LifetimeRuns {
  import opened Wrappers
  import opened Snapshot
  import opened Series
  import opened Windows
  import opened Cascade
  import opened Runs
  import opened MetricsQuery
  import opened Gathering
  import opened SessionLifetime

  /** The windows each component's run has left. */
  function Views(layers: seq<Duration>, runs: seq<seq<Op>>): (views: seq<seq<Window>>)
    ensures |views| == |runs| && forall i :: 0 <= i < |runs| ==> views[i] == Run(layers, runs[i]).ws
  {
    seq(|runs|, i requires 0 <= i < |runs| => Run(layers, runs[i]).ws)
  }

  lemma {:induction false} PerComponentFits(layers: seq<Duration>, ops: seq<Op>, q: Selection, now: Instant, age: Duration,
                                            sig: Signature, id: Id)
    requires Dividing(layers) && Legal(ops, sig)
    ensures Fits(PerComponent(Run(layers, ops).ws, q, now, age), sig)
  {
    var ws := Run(layers, ops).ws;
    RunFits(layers, ops, sig);
    SourcesFit(ws, |ws|, sig);
    GatherSpec(Empty(now, age), Sources(ws, |ws|), q, now, Coalescing, sig, id);
  }

  /** One series of the result is the fold of what each component has of it. */
  lemma {:induction false} LifetimeSeries(layers: seq<Duration>, runs: seq<seq<Op>>, q: Selection, now: Instant, age: Duration,
                                          sig: Signature, id: Id)
    requires Dividing(layers) && AllLegal(runs, sig)
    ensures var pers := PerComponents(Views(layers, runs), q, now, age);
      AllFit(pers, sig) &&
      PointOf(Lifetime(Views(layers, runs), q, now, age), id) ==
      FoldedSeries(StampAll(Points(pers, id), now), Aggregating)
  {
    var pers := PerComponents(Views(layers, runs), q, now, age);
    forall i | 0 <= i < |pers|
      ensures Fits(pers[i], sig)
    {
      PerComponentFits(layers, runs[i], q, now, age, sig, id);
    }
    GatherSpec(Empty(now, age), pers, EVERYTHING, now, Aggregating, sig, id);
  }

  // ---------------------------------------------------------------------
  // Histograms
  // ---------------------------------------------------------------------

  function SumAll(parts: seq<multiset<nat>>): multiset<nat> {
    if parts == [] then multiset{} else SumAll(parts[..|parts| - 1]) + parts[|parts| - 1]
  }

  lemma {:induction false} SumsAdd(a: seq<multiset<nat>>, b: seq<multiset<nat>>, c: seq<multiset<nat>>)
    requires |a| == |b| == |c| && forall i :: 0 <= i < |c| ==> a[i] + b[i] == c[i]
    ensures SumAll(a) + SumAll(b) == SumAll(c)
  {
    if c != [] {
      var n := |c| - 1;
      SumsAdd(a[..n], b[..n], c[..n]);
      assert a[n] + b[n] == c[n];
    }
  }

  ghost function EachIngested(layers: seq<Duration>, runs: seq<seq<Op>>, id: Id): (r: seq<multiset<nat>>)
    ensures |r| == |runs| && forall i :: 0 <= i < |r| ==> r[i] == TotalSamples(Run(layers, runs[i]).history, id)
  {
    seq(|runs|, i requires 0 <= i < |runs| => TotalSamples(Run(layers, runs[i]).history, id))
  }

  ghost function EachOlder(layers: seq<Duration>, runs: seq<seq<Op>>, id: Id): (r: seq<multiset<nat>>)
    requires layers != []
    ensures |r| == |runs|
    ensures forall i :: 0 <= i < |r| ==> r[i] == TotalSamples(Older(Run(layers, runs[i]).logs[|layers| - 1]), id)
  {
    seq(|runs|, i requires 0 <= i < |runs| => TotalSamples(Older(Run(layers, runs[i]).logs[|layers| - 1]), id))
  }

  /** All samples the components have ingested for a series. */
  ghost function Ingested(layers: seq<Duration>, runs: seq<seq<Op>>, id: Id): multiset<nat> {
    SumAll(EachIngested(layers, runs, id))
  }

  /** The samples of the windows the top layers sealed before their latest. */
  ghost function OlderSamples(layers: seq<Duration>, runs: seq<seq<Op>>, id: Id): multiset<nat>
    requires layers != []
  {
    SumAll(EachOlder(layers, runs, id))
  }

  function EachSamples(pers: seq<MetricSet>, id: Id): (r: seq<multiset<nat>>)
    ensures |r| == |pers| && forall i :: 0 <= i < |r| ==> r[i] == Samples(pers[i], id)
  {
    seq(|pers|, i requires 0 <= i < |pers| => Samples(pers[i], id))
  }

  lemma {:induction false} TotalIsSumAll(pers: seq<MetricSet>, id: Id)
    ensures TotalSamples(pers, id) == SumAll(EachSamples(pers, id))
  {
    if pers != [] {
      TotalIsSumAll(pers[..|pers| - 1], id);
      assert EachSamples(pers, id)[..|pers| - 1] == EachSamples(pers[..|pers| - 1], id);
    }
  }

  lemma {:induction false} ComponentsSamples(layers: seq<Duration>, runs: seq<seq<Op>>, q: Selection, now: Instant, age: Duration,
                                             sig: Signature, id: Id)
    requires Dividing(layers) && layers != [] && AllLegal(runs, sig)
    requires Selects(q, id) && sig(id.family).shape == HistogramShape
    ensures TotalSamples(PerComponents(Views(layers, runs), q, now, age), id) + OlderSamples(layers, runs, id) ==
            Ingested(layers, runs, id)
  {
    var pers := PerComponents(Views(layers, runs), q, now, age);
    var each, older, all := EachSamples(pers, id), EachOlder(layers, runs, id), EachIngested(layers, runs, id);
    forall i | 0 <= i < |runs|
      ensures each[i] + older[i] == all[i]
    {
      LifetimeHistogram(layers, runs[i], q, now, age, sig, id);
    }
    SumsAdd(each, older, all);
    TotalIsSumAll(pers, id);
  }

  lemma {:induction false} FoldedSamples(pers: seq<MetricSet>, now: Instant, sig: Signature, id: Id, out: MetricSet)
    requires AllFit(pers, sig) && sig(id.family).shape == HistogramShape
    requires PointOf(out, id) == FoldedSeries(StampAll(Points(pers, id), now), Aggregating)
    ensures Samples(out, id) == TotalSamples(pers, id)
  {
    var ps := Points(pers, id);
    TotalIsSum(pers, sig, id);
    StampKeepsSamples(ps, now);
    if ps != [] {
      PointsFit(pers, sig, id);
      StampKeepsFit(ps, now, HistogramShape);
      FoldAddsSamples(StampAll(ps, now), Aggregating);
    }
  }

  /** No top layer has sealed more than one window. */
  ghost predicate Young(layers: seq<Duration>, runs: seq<seq<Op>>)
    requires layers != []
  {
    forall i :: 0 <= i < |runs| ==> |Run(layers, runs[i]).logs[|layers| - 1]| <= 1
  }

  lemma {:induction false} SumOfNothing(parts: seq<multiset<nat>>)
    requires forall i :: 0 <= i < |parts| ==> parts[i] == multiset{}
    ensures SumAll(parts) == multiset{}
  {
    if parts != [] {
      SumOfNothing(parts[..|parts| - 1]);
    }
  }

  lemma {:induction false} YoungHasNoOlder(layers: seq<Duration>, runs: seq<seq<Op>>, id: Id)
    requires layers != [] && Young(layers, runs)
    ensures OlderSamples(layers, runs, id) == multiset{}
  {
    forall i | 0 <= i < |runs|
      ensures EachOlder(layers, runs, id)[i] == multiset{}
    {
      assert Older(Run(layers, runs[i]).logs[|layers| - 1]) == [];
    }
    SumOfNothing(EachOlder(layers, runs, id));
  }

  /** Across components a lifetime histogram, with what the top layers sealed before their latest
      windows, holds exactly what they all ingested; while none has sealed more than one, the
      lifetime histogram alone does. */
  lemma {:induction false} LifetimeHistograms(layers: seq<Duration>, runs: seq<seq<Op>>, q: Selection, now: Instant, age: Duration,
                                              sig: Signature, id: Id)
    requires Dividing(layers) && layers != [] && AllLegal(runs, sig)
    requires Selects(q, id) && sig(id.family).shape == HistogramShape
    ensures var lifetime := Samples(Lifetime(Views(layers, runs), q, now, age), id);
      lifetime + OlderSamples(layers, runs, id) == Ingested(layers, runs, id) &&
      (Young(layers, runs) ==> lifetime == Ingested(layers, runs, id))
  {
    var views := Views(layers, runs);
    LifetimeSeries(layers, runs, q, now, age, sig, id);
    ComponentsSamples(layers, runs, q, now, age, sig, id);
    FoldedSamples(PerComponents(views, q, now, age), now, sig, id, Lifetime(views, q, now, age));
    if Young(layers, runs) {
      YoungHasNoOlder(layers, runs, id);
    }
  }

  // ---------------------------------------------------------------------
  // Counters
  // ---------------------------------------------------------------------

  /** The component was given the series in every snapshot, at increasing times. */
  ghost predicate Carries(history: seq<MetricSet>, id: Id) {
    history != [] && Ticking(history, id)
  }

  ghost function LastTotal(history: seq<MetricSet>, id: Id): nat
    requires Carries(history, id)
  {
    assert When(history[|history| - 1], id) >= 0;
    Latched(PointOf(history[|history| - 1], id).value.value)
  }

  /** What each component's run was given. */
  function Histories(layers: seq<Duration>, runs: seq<seq<Op>>): (h: seq<seq<MetricSet>>)
    ensures |h| == |runs| && forall i :: 0 <= i < |runs| ==> h[i] == Run(layers, runs[i]).history
  {
    seq(|runs|, i requires 0 <= i < |runs| => Run(layers, runs[i]).history)
  }

  /** Each component always has the series or never does. */
  ghost predicate AllCarryOrLack(histories: seq<seq<MetricSet>>, id: Id) {
    forall i :: 0 <= i < |histories| ==> Carries(histories[i], id) || Lacks(histories[i], id)
  }

  /** What one component contributes: its last total if it has the series. */
  ghost function LastOf(history: seq<MetricSet>, id: Id): Option<nat> {
    if Carries(history, id) then Some(LastTotal(history, id)) else None
  }

  ghost function Lasts(histories: seq<seq<MetricSet>>, id: Id): (r: seq<Option<nat>>)
    ensures |r| == |histories| && forall i :: 0 <= i < |r| ==> r[i] == LastOf(histories[i], id)
  {
    seq(|histories|, i requires 0 <= i < |histories| => LastOf(histories[i], id))
  }

  lemma {:induction false} LacksEnd(x: seq<MetricSet>, y: seq<MetricSet>, id: Id)
    requires Lacks(x + y, id)
    ensures Lacks(Reverse(y), id)
  {
    forall i | 0 <= i < |y|
      ensures PointOf(y[i], id).None?
    {
      assert y[i] == (x + y)[|x| + i];
    }
  }

  lemma {:induction false} LackingRecent(layers: seq<Duration>, ops: seq<Op>, sig: Signature, id: Id)
    requires Dividing(layers) && layers != [] && Legal(ops, sig) && Lacks(Run(layers, ops).history, id)
    ensures Points(Reverse(Recent(Run(layers, ops).ws)), id) == []
  {
    var p := Run(layers, ops);
    var older, recent := Older(p.logs[|layers| - 1]), Recent(p.ws);
    RecentEndsPartition(layers, ops, sig);
    TilesLack(older + recent, p.history, sig, id);
    LacksEnd(older, recent, id);
    PointsOfLacking(Reverse(recent), id);
  }

  lemma {:induction false} LackingComponent(layers: seq<Duration>, ops: seq<Op>, q: Selection, now: Instant, age: Duration,
                                            sig: Signature, id: Id)
    requires Dividing(layers) && layers != [] && Legal(ops, sig) && Selects(q, id)
    requires Lacks(Run(layers, ops).history, id)
    ensures PointOf(PerComponent(Run(layers, ops).ws, q, now, age), id).None?
  {
    LackingRecent(layers, ops, sig, id);
    RunFits(layers, ops, sig);
    ComponentReads(Run(layers, ops).ws, q, now, age, sig, id);
  }

  lemma {:induction false} ComponentTotal(layers: seq<Duration>, ops: seq<Op>, q: Selection, now: Instant, age: Duration,
                                          sig: Signature, id: Id)
    requires Dividing(layers) && layers != [] && Legal(ops, sig) && Selects(q, id)
    requires Carries(Run(layers, ops).history, id) || Lacks(Run(layers, ops).history, id)
    ensures ReadingOf(PerComponent(Run(layers, ops).ws, q, now, age), id) == LastOf(Run(layers, ops).history, id)
  {
    if Carries(Run(layers, ops).history, id) {
      LifetimeCounter(layers, ops, q, now, age, sig, id);
    } else {
      LackingComponent(layers, ops, q, now, age, sig, id);
    }
  }

  lemma {:induction false} ReadingsAreLasts(layers: seq<Duration>, runs: seq<seq<Op>>, q: Selection, now: Instant, age: Duration,
                                            sig: Signature, id: Id)
    requires Dividing(layers) && layers != [] && AllLegal(runs, sig) && AllCarryOrLack(Histories(layers, runs), id)
    requires Selects(q, id)
    ensures Readings(PerComponents(Views(layers, runs), q, now, age), id) == Lasts(Histories(layers, runs), id)
  {
    var pers, histories := PerComponents(Views(layers, runs), q, now, age), Histories(layers, runs);
    forall i | 0 <= i < |pers|
      ensures ReadingOf(pers[i], id) == LastOf(histories[i], id)
    {
      assert histories[i] == Run(layers, runs[i]).history;
      ComponentTotal(layers, runs[i], q, now, age, sig, id);
    }
  }

  lemma {:induction false} FoldedTotals(pers: seq<MetricSet>, now: Instant, sig: Signature, id: Id, out: MetricSet)
    requires AllFit(pers, sig) && Totalled(sig(id.family).shape)
    requires PointOf(out, id) == FoldedSeries(StampAll(Points(pers, id), now), Aggregating)
    ensures var n := Present(Readings(pers, id));
      ReadingOf(out, id) == if n == 0 then None else Some(Added(n, Sum(Readings(pers, id))))
  {
    var ps := Points(pers, id);
    PointsAreReadings(pers, id);
    if ps != [] {
      PointsFit(pers, sig, id);
      StampKeepsFit(ps, now, sig(id.family).shape);
      StampKeepsTotals(ps, now);
      FoldAdds(StampAll(ps, now), sig(id.family).shape);
    }
  }

  /** Across components a lifetime counter, or a histogram's lifetime count, is the sum, saturating,
      of the running totals last ingested for those that have the series; without any it is absent. */
  lemma {:induction false} LifetimeCounters(layers: seq<Duration>, runs: seq<seq<Op>>, q: Selection, now: Instant, age: Duration,
                                            sig: Signature, id: Id)
    requires Dividing(layers) && layers != [] && AllLegal(runs, sig) && AllCarryOrLack(Histories(layers, runs), id)
    requires Selects(q, id) && Totalled(sig(id.family).shape)
    ensures var lasts := Lasts(Histories(layers, runs), id);
      ReadingOf(Lifetime(Views(layers, runs), q, now, age), id) ==
      if Present(lasts) == 0 then None else Some(Added(Present(lasts), Sum(lasts)))
  {
    var views := Views(layers, runs);
    LifetimeSeries(layers, runs, q, now, age, sig, id);
    ReadingsAreLasts(layers, runs, q, now, age, sig, id);
    FoldedTotals(PerComponents(views, q, now, age), now, sig, id, Lifetime(views, q, now, age));
  }
}
