/** `session_lifetime` against the raw ingest history. */
module SessionLifetime {
  import opened Wrappers
  import opened Keyed
  import opened Snapshot
  import opened Series
  import opened Windows
  import opened Cascade
  import opened CascadeKeeps
  import opened Partition
  import opened Runs
  import opened WellTyped
  import opened RingRuns
  import opened MetricsQuery
  import opened Gathering
  import opened ReaderStates

  // ---------------------------------------------------------------------
  // The reader
  // ---------------------------------------------------------------------

  /** What is read of a component: each layer's prebuffer, and the top layer's latest. */
  ghost function Sources(ws: seq<Window>, n: nat): seq<MetricSet>
    requires n <= |ws|
  {
    if n == 0 then []
    else Sources(ws, n - 1) + Opt(ws[n - 1].prebuffer) + if n == |ws| then Opt(ws[n - 1].latest) else []
  }

  /** The same, read off a published state: the first `n` of a path's layers. */
  ghost function Seen(r: ReaderState, path: string, layers: nat, n: nat): seq<MetricSet> {
    if n == 0 then []
    else
      var view := ViewAt(r, path, n - 1);
      Seen(r, path, layers, n - 1) + Opt(view.prebuffer) + if n == layers then Opt(view.latest) else []
  }

  ghost predicate WindowsFit(ws: seq<Window>, sig: Signature) {
    forall k :: 0 <= k < |ws| ==>
      (ws[k].prebuffer.Some? ==> Fits(ws[k].prebuffer.value, sig)) &&
      (ws[k].latest.Some? ==> Fits(ws[k].latest.value, sig))
  }

  ghost predicate SeenFit(r: ReaderState, path: string, layers: nat, sig: Signature) {
    AllFit(Seen(r, path, layers, layers), sig)
  }

  /** Sources folded over time. */
  ghost function OverTime(sources: seq<MetricSet>, q: Selection, now: Instant, age: Duration): MetricSet {
    Empty(now, age).(families := FoldItems([], Items(sources), q, now, Coalescing))
  }

  ghost function PerComponent(ws: seq<Window>, q: Selection, now: Instant, age: Duration): MetricSet {
    OverTime(Sources(ws, |ws|), q, now, age)
  }

  ghost function PerComponents(views: seq<seq<Window>>, q: Selection, now: Instant, age: Duration): (r: seq<MetricSet>)
    ensures |r| == |views| && forall i :: 0 <= i < |views| ==> r[i] == PerComponent(views[i], q, now, age)
  {
    seq(|views|, i requires 0 <= i < |views| => PerComponent(views[i], q, now, age))
  }

  ghost function PerPaths(r: ReaderState, paths: seq<string>, layers: nat, q: Selection, now: Instant, age: Duration)
    : (pers: seq<MetricSet>)
    ensures |pers| == |paths|
    ensures forall i :: 0 <= i < |paths| ==> pers[i] == OverTime(Seen(r, paths[i], layers, layers), q, now, age)
  {
    seq(|paths|, i requires 0 <= i < |paths| => OverTime(Seen(r, paths[i], layers, layers), q, now, age))
  }

  lemma {:induction false} SourcesFit(ws: seq<Window>, n: nat, sig: Signature)
    requires n <= |ws| && WindowsFit(ws, sig)
    ensures AllFit(Sources(ws, n), sig)
  {
    if n > 0 {
      SourcesFit(ws, n - 1, sig);
    }
  }

  method CollectSources(r: ReaderState, path: string, layers: nat) returns (sources: seq<MetricSet>)
    ensures sources == Seen(r, path, layers, layers)
  {
    sources := [];
    for k := 0 to layers
      invariant sources == Seen(r, path, layers, k)
    {
      ghost var below := sources;
      var view := ViewAt(r, path, k);
      if view.prebuffer.Some? {
        sources := sources + [view.prebuffer.value];
      }
      if k + 1 == layers && view.latest.Some? {
        sources := sources + [view.latest.value];
      }
      assert sources == below + Opt(view.prebuffer) + if k + 1 == layers then Opt(view.latest) else [];
    }
  }

  /** Fold one component over time and add it to the result. */
  method AddComponent(out: MetricSet, r: ReaderState, path: string, layers: nat, q: Selection, age: Duration,
                      ghost sig: Signature)
    returns (res: MetricSet)
    requires SeenFit(r, path, layers, sig) && Fits(out, sig)
    ensures res.families == FoldItems(out.families,
                                      FamiliesItems(OverTime(Seen(r, path, layers, layers), q, out.capturedAt, age).families),
                                      EVERYTHING, out.capturedAt, Aggregating)
    ensures res.capturedAt == out.capturedAt && Fits(res, sig)
  {
    var now := out.capturedAt;
    var sources := CollectSources(r, path, layers);
    if sources == [] {
      assert FamiliesItems(OverTime(sources, q, now, age).families) == [];
      return out;
    }
    var gathered := Gather(Empty(now, age), sources, q, Coalescing, sig);
    res := GatherSource(out, gathered, EVERYTHING, Aggregating, sig);
  }

  /** The first `n` component results folded across components. */
  ghost function Aggregated(pers: seq<MetricSet>, n: nat, now: Instant): seq<Entry<string, Family>>
    requires n <= |pers|
  {
    if n == 0 then []
    else FoldItems(Aggregated(pers, n - 1, now), FamiliesItems(pers[n - 1].families), EVERYTHING, now, Aggregating)
  }

  lemma {:induction false} AggregatedIsFold(pers: seq<MetricSet>, n: nat, now: Instant)
    requires n <= |pers|
    ensures Aggregated(pers, n, now) == FoldItems([], Items(pers[..n]), EVERYTHING, now, Aggregating)
  {
    if n > 0 {
      AggregatedIsFold(pers, n - 1, now);
      assert pers[..n][..n - 1] == pers[..n - 1];
      FoldItemsConcat([], Items(pers[..n - 1]), FamiliesItems(pers[n - 1].families), EVERYTHING, now, Aggregating);
    }
  }

  /** Component results folded across components. */
  ghost function Across(pers: seq<MetricSet>, now: Instant, age: Duration): MetricSet {
    Empty(now, age).(families := FoldItems([], Items(pers), EVERYTHING, now, Aggregating))
  }

  /** One query over all components. */
  ghost function Lifetime(views: seq<seq<Window>>, q: Selection, now: Instant, age: Duration): MetricSet {
    Across(PerComponents(views, q, now, age), now, age)
  }

  /** Per component fold time, then fold components together: `paths` are the published components,
      in whatever order they come. */
  method SessionLifetime(r: ReaderState, paths: seq<string>, layers: nat, q: Selection, now: Instant, age: Duration,
                         ghost sig: Signature)
    returns (out: MetricSet)
    requires forall i :: 0 <= i < |paths| ==> SeenFit(r, paths[i], layers, sig)
    ensures out.families == Across(PerPaths(r, paths, layers, q, now, age), now, age).families
  {
    out := Empty(now, age);
    ghost var pers := PerPaths(r, paths, layers, q, now, age);
    for i := 0 to |paths|
      invariant out.families == Aggregated(pers, i, now)
      invariant out.capturedAt == now && Fits(out, sig)
    {
      out := AddComponent(out, r, paths[i], layers, q, age, sig);
    }
    AggregatedIsFold(pers, |pers|, now);
    assert pers[..|pers|] == pers;
  }

  // ---------------------------------------------------------------------
  // Sources, as a reversed stretch of the partition
  // ---------------------------------------------------------------------

  function Reverse<T>(s: seq<T>): (r: seq<T>)
    ensures |r| == |s| && forall i :: 0 <= i < |s| ==> r[i] == s[|s| - 1 - i]
  {
    seq(|s|, i requires 0 <= i < |s| => s[|s| - 1 - i])
  }

  lemma {:induction false} ReverseConcat<T>(x: seq<T>, y: seq<T>)
    ensures Reverse(x + y) == Reverse(y) + Reverse(x)
  {
  }

  lemma {:induction false} ReverseOpt(m: Option<MetricSet>)
    ensures Reverse(Opt(m)) == Opt(m)
  {
  }

  /** The open prebuffers below layer `j`. */
  function Under(ws: seq<Window>, j: nat, k: nat): seq<MetricSet>
    requires j < |ws|
  {
    if j > 0 then Open(ws, j - 1, k) else []
  }

  lemma {:induction false} OpenTop(ws: seq<Window>, j: nat, k: nat)
    requires j < |ws| && k <= j
    ensures Open(ws, j, k) == Opt(ws[j].prebuffer) + Under(ws, j, k)
    decreases j - k
  {
    if k < j {
      OpenTop(ws, j, k + 1);
      Reassociate(Opt(ws[j].prebuffer), Under(ws, j, k + 1), Opt(ws[k].prebuffer));
    } else {
      assert Open(ws, j, k) == [] + Opt(ws[j].prebuffer);
      assert Under(ws, j, k) == [];
    }
  }

  lemma {:induction false} Reassociate<T>(x: seq<T>, y: seq<T>, z: seq<T>)
    ensures (x + y) + z == x + (y + z)
  {
  }

  lemma {:induction false} SourcesBelow(ws: seq<Window>, n: nat)
    requires n < |ws|
    ensures Sources(ws, n) == Reverse(Under(ws, n, 0))
  {
    if n > 0 {
      var pre, under := Opt(ws[n - 1].prebuffer), Under(ws, n - 1, 0);
      SourcesBelow(ws, n - 1);
      OpenTop(ws, n - 1, 0);
      ReverseConcat(pre, under);
      ReverseOpt(ws[n - 1].prebuffer);
      assert Sources(ws, n) == Sources(ws, n - 1) + pre + [];
    }
  }

  /** The unread part of the partition: the top layer's last window and all that is open. */
  ghost function Recent(ws: seq<Window>): seq<MetricSet>
    requires ws != []
  {
    Opt(ws[|ws| - 1].latest) + Open(ws, |ws| - 1, 0)
  }

  lemma {:induction false} SourcesAreRecent(ws: seq<Window>)
    requires ws != []
    ensures Sources(ws, |ws|) == Reverse(Recent(ws))
  {
    var top := |ws| - 1;
    var latest, pre, under := Opt(ws[top].latest), Opt(ws[top].prebuffer), Under(ws, top, 0);
    SourcesBelow(ws, top);
    OpenTop(ws, top, 0);
    ReverseConcat(latest, pre + under);
    ReverseConcat(pre, under);
    ReverseOpt(ws[top].latest);
    ReverseOpt(ws[top].prebuffer);
  }

  // ---------------------------------------------------------------------
  // Histograms: every sample exactly once
  // ---------------------------------------------------------------------

  lemma {:induction false} TotalOfOne(s: MetricSet, id: Id)
    ensures TotalSamples([s], id) == Samples(s, id)
  {
    assert [s][..0] == [];
  }

  lemma {:induction false} TotalOfReverse(s: seq<MetricSet>, id: Id)
    ensures TotalSamples(Reverse(s), id) == TotalSamples(s, id)
  {
    if s != [] {
      var init, last := s[..|s| - 1], s[|s| - 1];
      TotalOfReverse(init, id);
      assert s == init + [last] && Reverse([last]) == [last];
      ReverseConcat(init, [last]);
      TotalOfOne(last, id);
      TotalSamplesConcat([last], Reverse(init), id);
    }
  }

  lemma {:induction false} TotalIsSum(sources: seq<MetricSet>, sig: Signature, id: Id)
    requires AllFit(sources, sig)
    ensures TotalSamples(sources, id) == SumSamples(Points(sources, id))
  {
    if sources != [] {
      var init, last := sources[..|sources| - 1], sources[|sources| - 1];
      TotalIsSum(init, sig, id);
      SumSamplesOpt(Points(init, id), PointOf(last, id));
    }
  }

  lemma {:induction false} SumSamplesOpt(ps: seq<Point>, p: Option<Point>)
    ensures SumSamples(ps + OptPoint(p)) ==
            SumSamples(ps) + if p.Some? && p.value.value.Histogram? then p.value.value.reservoir else multiset{}
  {
    if p.Some? {
      assert (ps + [p.value])[..|ps|] == ps;
    } else {
      assert ps + [] == ps;
    }
  }

  /** A selected histogram of one component holds exactly the samples of its sources. */
  lemma {:induction false} ComponentSamples(ws: seq<Window>, q: Selection, now: Instant, age: Duration, sig: Signature, id: Id)
    requires WindowsFit(ws, sig) && Selects(q, id) && sig(id.family).shape == HistogramShape
    ensures Samples(PerComponent(ws, q, now, age), id) == TotalSamples(Sources(ws, |ws|), id)
  {
    var sources := Sources(ws, |ws|);
    var ps := Points(sources, id);
    SourcesFit(ws, |ws|, sig);
    GatherSpec(Empty(now, age), sources, q, now, Coalescing, sig, id);
    TotalIsSum(sources, sig, id);
    StampKeepsSamples(ps, now);
    if ps != [] {
      PointsFit(sources, sig, id);
      StampKeepsFit(ps, now, HistogramShape);
      FoldAddsSamples(StampAll(ps, now), Coalescing);
    }
  }

  lemma {:induction false} TilesFit(windows: seq<MetricSet>, history: seq<MetricSet>, sig: Signature)
    requires Tiles(windows, history, sig)
    ensures AllFit(windows, sig)
  {
    if windows != [] {
      var n := TilesNonEmpty(windows, history, sig);
      TilesFit(windows[..|windows| - 1], history[..n], sig);
    }
  }

  /** After any run under any plan the published windows are well typed. */
  lemma {:induction false} RunFits(layers: seq<Duration>, ops: seq<Op>, sig: Signature)
    requires IngestsFit(ops, sig)
    ensures WindowsFit(Run(layers, ops).ws, sig)
  {
    RunTyped(layers, ops, sig);
    assert forall k :: 0 <= k < |layers| ==> Typed(Run(layers, ops).ws[k], sig);
  }

  function Older(log: seq<MetricSet>): seq<MetricSet> {
    if log == [] then [] else log[..|log| - 1]
  }

  lemma {:induction false} LogEnds(log: seq<MetricSet>, latest: Option<MetricSet>, open: seq<MetricSet>)
    requires latest == if log == [] then None else Some(log[|log| - 1])
    ensures Older(log) + (Opt(latest) + open) == log + open
  {
    if log != [] {
      assert log == Older(log) + [log[|log| - 1]];
    }
  }

  /** The windows a query reads are the newest end of the partition of the history. */
  lemma {:induction false} RecentEndsPartition(layers: seq<Duration>, ops: seq<Op>, sig: Signature)
    requires Dividing(layers) && layers != [] && Legal(ops, sig)
    ensures var p := Run(layers, ops);
      Tiles(Older(p.logs[|layers| - 1]) + Recent(p.ws), p.history, sig)
  {
    var p, top := Run(layers, ops), |layers| - 1;
    RecentEndsLog(layers, ops, sig);
    RunPartition(layers, ops, top, sig);
    TilesSame(p.logs[top] + Open(p.ws, top, 0), Older(p.logs[top]) + Recent(p.ws), p.history, sig);
  }

  lemma {:induction false} TilesSame(x: seq<MetricSet>, y: seq<MetricSet>, history: seq<MetricSet>, sig: Signature)
    requires Tiles(x, history, sig) && x == y
    ensures Tiles(y, history, sig)
  {
  }

  lemma {:induction false} RecentEnds(ws: seq<Window>, log: seq<MetricSet>)
    requires ws != [] && LatestIsLast(ws[|ws| - 1], log)
    ensures Older(log) + Recent(ws) == log + Open(ws, |ws| - 1, 0)
  {
    LogEnds(log, ws[|ws| - 1].latest, Open(ws, |ws| - 1, 0));
  }

  lemma {:induction false} TopEndsLog(layers: seq<Duration>, ops: seq<Op>, top: nat)
    requires DividingTo(layers, top) && top + 1 == |layers| && NonEmpty(ops)
    ensures var p := Run(layers, ops);
      Older(p.logs[top]) + Recent(p.ws) == p.logs[top] + Open(p.ws, top, 0)
  {
    DividingLatest(layers, ops, top);
    RecentEnds(Run(layers, ops).ws, Run(layers, ops).logs[top]);
  }

  lemma {:induction false} RecentEndsLog(layers: seq<Duration>, ops: seq<Op>, sig: Signature)
    requires Dividing(layers) && layers != [] && Legal(ops, sig)
    ensures var p, top := Run(layers, ops), |layers| - 1;
      Older(p.logs[top]) + Recent(p.ws) == p.logs[top] + Open(p.ws, top, 0)
  {
    TopEndsLog(layers, ops, |layers| - 1);
  }

  /** What a query finds of a histogram is what its recent windows hold. */
  lemma {:induction false} RecentSamples(layers: seq<Duration>, ops: seq<Op>, q: Selection, now: Instant, age: Duration, sig: Signature,
                      id: Id)
    requires Dividing(layers) && layers != [] && Legal(ops, sig)
    requires Selects(q, id) && sig(id.family).shape == HistogramShape
    ensures var ws := Run(layers, ops).ws;
      Samples(PerComponent(ws, q, now, age), id) == TotalSamples(Recent(ws), id)
  {
    var ws := Run(layers, ops).ws;
    RunFits(layers, ops, sig);
    ComponentSamples(ws, q, now, age, sig, id);
    SourcesAreRecent(ws);
    TotalOfReverse(Recent(ws), id);
  }

  /** A component's lifetime histogram plus what the top layer sealed before its last
      window is exactly what was ingested; while the top layer has sealed at most one
      window, the lifetime histogram alone is. */
  lemma {:induction false} LifetimeHistogram(layers: seq<Duration>, ops: seq<Op>, q: Selection, now: Instant, age: Duration, sig: Signature,
                          id: Id)
    requires Dividing(layers) && layers != [] && Legal(ops, sig)
    requires Selects(q, id) && sig(id.family).shape == HistogramShape
    ensures var p := Run(layers, ops);
      var log, lifetime := p.logs[|layers| - 1], Samples(PerComponent(p.ws, q, now, age), id);
      TotalSamples(Older(log), id) + lifetime == TotalSamples(p.history, id) &&
      (|log| <= 1 ==> lifetime == TotalSamples(p.history, id))
  {
    var p := Run(layers, ops);
    var older, recent := Older(p.logs[|layers| - 1]), Recent(p.ws);
    RecentSamples(layers, ops, q, now, age, sig, id);
    RecentEndsPartition(layers, ops, sig);
    TilesConserveSamples(older + recent, p.history, sig, id);
    TotalSamplesConcat(older, recent, id);
  }

  // ---------------------------------------------------------------------
  // Counters: the last ingested running total
  // ---------------------------------------------------------------------

  /** When the series was last written, or -1 when it is absent or untimed. */
  ghost function When(s: MetricSet, id: Id): int {
    var p := PointOf(s, id);
    if p.Some? && p.value.timestamp.Some? then p.value.timestamp.value else -1
  }

  /** The series is in every snapshot, at strictly increasing timestamps. */
  ghost predicate Ticking(snaps: seq<MetricSet>, id: Id) {
    (forall i :: 0 <= i < |snaps| ==> When(snaps[i], id) >= 0) &&
    (forall i, j :: 0 <= i < j < |snaps| ==> When(snaps[i], id) < When(snaps[j], id))
  }

  lemma {:induction false} PointsOfTicking(snaps: seq<MetricSet>, id: Id)
    requires Ticking(snaps, id)
    ensures |Points(snaps, id)| == |snaps|
    ensures forall i :: 0 <= i < |snaps| ==> Points(snaps, id)[i] == PointOf(snaps[i], id).value
  {
    if snaps != [] {
      PointsOfTicking(snaps[..|snaps| - 1], id);
    }
  }

  /** A block of a ticking history coalesces to its last point. */
  lemma {:induction false} BlockKeepsLast(block: seq<MetricSet>, sig: Signature, id: Id)
    requires block != [] && AllFit(block, sig) && Ticking(block, id)
    ensures var c, last := PointOf(Coalesce(block, Coalescing, 0), id), PointOf(block[|block| - 1], id).value;
      c.Some? && c.value.timestamp == last.timestamp && Latched(c.value.value) == Latched(last.value)
  {
    SeriesOfCoalesce(block, Coalescing, 0, sig, id);
    PointsOfTicking(block, id);
    PointsFit(block, sig, id);
    FoldKeepsNewest(Points(block, id), sig(id.family).shape);
  }

  /** The last window of a partition says what the history's last snapshot says. */
  ghost predicate EndsAlike(windows: seq<MetricSet>, history: seq<MetricSet>, id: Id) {
    windows != [] ==>
      history != [] && SaysTheSame(windows[|windows| - 1], history[|history| - 1], id)
  }

  ghost predicate SaysTheSame(a: MetricSet, b: MetricSet, id: Id) {
    var p, q := PointOf(a, id), PointOf(b, id);
    When(a, id) == When(b, id) && p.Some? && q.Some? && Latched(p.value.value) == Latched(q.value.value)
  }

  lemma {:induction false} LastTileEndsAlike(windows: seq<MetricSet>, history: seq<MetricSet>, n: nat, sig: Signature, id: Id)
    requires windows != [] && n < |history| && LastTile(windows, history, n, sig) && Ticking(history, id)
    ensures EndsAlike(windows, history, id) && Ticking(history[..n], id)
  {
    var block := history[n..];
    assert forall i :: 0 <= i < |block| ==> block[i] == history[n + i];
    BlockKeepsLast(block, sig, id);
    SameFamiliesSamePoint(windows[|windows| - 1], Coalesce(block, Coalescing, 0), id);
  }

  /** Windows that partition a ticking history tick too, and end where it ends. */
  lemma {:induction false} TilesTick(windows: seq<MetricSet>, history: seq<MetricSet>, sig: Signature, id: Id)
    requires Tiles(windows, history, sig) && Ticking(history, id)
    ensures Ticking(windows, id) && EndsAlike(windows, history, id)
  {
    if windows != [] {
      var n := TilesNonEmpty(windows, history, sig);
      LastTileEndsAlike(windows, history, n, sig, id);
      TilesTick(windows[..|windows| - 1], history[..n], sig, id);
      TickingSnoc(windows, history, n, id);
    }
  }

  lemma {:induction false} TickingSnoc(windows: seq<MetricSet>, history: seq<MetricSet>, n: nat, id: Id)
    requires windows != [] && n < |history| && Ticking(history, id)
    requires EndsAlike(windows, history, id)
    requires Ticking(windows[..|windows| - 1], id) && EndsAlike(windows[..|windows| - 1], history[..n], id)
    ensures Ticking(windows, id)
  {
    var init, m := windows[..|windows| - 1], |windows| - 1;
    assert windows == init + [windows[m]];
    assert When(windows[m], id) == When(history[|history| - 1], id);
    if m > 0 {
      assert When(init[m - 1], id) == When(history[n - 1], id);
    }
    TickingAppend(init, windows[m], id);
  }

  lemma {:induction false} TickingAppend(init: seq<MetricSet>, w: MetricSet, id: Id)
    requires Ticking(init, id) && When(w, id) >= 0
    requires init != [] ==> When(init[|init| - 1], id) < When(w, id)
    ensures Ticking(init + [w], id)
  {
    var all, m := init + [w], |init|;
    forall i, j | 0 <= i < j < |all|
      ensures When(all[i], id) < When(all[j], id)
    {
      assert all[i] == init[i];
      assert i < m - 1 ==> When(init[i], id) < When(init[m - 1], id);
    }
  }

  lemma {:induction false} TickingSuffix(x: seq<MetricSet>, y: seq<MetricSet>, id: Id)
    requires Ticking(x + y, id)
    ensures Ticking(y, id)
  {
    assert forall i :: 0 <= i < |y| ==> y[i] == (x + y)[|x| + i];
  }

  /** Reading a ticking stretch backwards finds its newest point first. */
  lemma {:induction false} PointsOfReverse(s: seq<MetricSet>, id: Id)
    requires Ticking(s, id)
    ensures |Points(Reverse(s), id)| == |s|
    ensures forall i :: 0 <= i < |s| ==> Points(Reverse(s), id)[i] == PointOf(s[|s| - 1 - i], id).value
  {
    if s != [] {
      var tail := s[1..];
      assert s == [s[0]] + tail;
      TickingSuffix([s[0]], tail, id);
      PointsOfReverse(tail, id);
      ReverseConcat([s[0]], tail);
      assert Reverse([s[0]]) == [s[0]];
      PointsSnoc(Reverse(tail), s[0], id);
      assert When(s[0], id) >= 0;
    }
  }

  lemma {:induction false} PointsSnoc(init: seq<MetricSet>, last: MetricSet, id: Id)
    ensures Points(init + [last], id) == Points(init, id) + OptPoint(PointOf(last, id))
  {
    assert (init + [last])[..|init|] == init;
  }

  lemma {:induction false} ReverseFits(s: seq<MetricSet>, sig: Signature)
    requires AllFit(s, sig)
    ensures AllFit(Reverse(s), sig)
  {
  }

  /** Points read newest first. */
  lemma {:induction false} NewestIsFirst(ps: seq<Point>)
    requires ps != []
    requires forall i :: 0 <= i < |ps| ==> ps[i].timestamp.Some?
    requires forall i :: 0 < i < |ps| ==> ps[i].timestamp.value < ps[0].timestamp.value
    ensures NewestIndex(ps) == 0
  {
    assert AtMost(ps[0].timestamp, ps[NewestIndex(ps)].timestamp);
  }

  /** Folding a ticking stretch backwards keeps what its newest window says. */
  lemma {:induction false} BackwardFold(recent: seq<MetricSet>, now: Instant, sig: Signature, id: Id)
    requires recent != [] && AllFit(recent, sig) && Ticking(recent, id)
    ensures var ps, last := StampAll(Points(Reverse(recent), id), now), PointOf(recent[|recent| - 1], id);
      ps != [] && last.Some? && Latched(FoldPoints(ps, Coalescing).value) == Latched(last.value.value)
  {
    var ps := Points(Reverse(recent), id);
    var m := |recent| - 1;
    PointsOfReverse(recent, id);
    ReverseFits(recent, sig);
    PointsFit(Reverse(recent), sig, id);
    forall i | 0 <= i < |ps|
      ensures ps[i].timestamp.Some? && (i > 0 ==> ps[i].timestamp.value < ps[0].timestamp.value)
    {
      assert When(recent[m - i], id) >= 0 && When(recent[m], id) >= 0;
      assert i > 0 ==> When(recent[m - i], id) < When(recent[m], id);
    }
    StampTimed(ps, now);
    NewestIsFirst(ps);
    FoldKeepsNewest(ps, sig(id.family).shape);
  }

  lemma {:induction false} SuffixFacts(older: seq<MetricSet>, recent: seq<MetricSet>, history: seq<MetricSet>, sig: Signature, id: Id)
    requires recent != [] && AllFit(older + recent, sig) && Ticking(older + recent, id)
    requires EndsAlike(older + recent, history, id)
    ensures AllFit(recent, sig) && Ticking(recent, id) && EndsAlike(recent, history, id)
  {
    TickingSuffix(older, recent, id);
    assert forall i :: 0 <= i < |recent| ==> recent[i] == (older + recent)[|older| + i];
  }

  /** The recent windows of a ticking history tick, and end where the history ends. */
  lemma {:induction false} RecentTicks(layers: seq<Duration>, ops: seq<Op>, sig: Signature, id: Id)
    requires Dividing(layers) && layers != [] && Legal(ops, sig)
    requires Run(layers, ops).history != [] && Ticking(Run(layers, ops).history, id)
    ensures var p := Run(layers, ops);
      AllFit(Recent(p.ws), sig) && Recent(p.ws) != [] && Ticking(Recent(p.ws), id)
      && EndsAlike(Recent(p.ws), p.history, id)
  {
    var p := Run(layers, ops);
    var older, recent := Older(p.logs[|layers| - 1]), Recent(p.ws);
    RecentEndsPartition(layers, ops, sig);
    RecentNonEmpty(layers, ops, sig);
    TilesFit(older + recent, p.history, sig);
    TilesTick(older + recent, p.history, sig, id);
    SuffixFacts(older, recent, p.history, sig, id);
  }

  lemma {:induction false} SomethingHeld(layers: seq<Duration>, ops: seq<Op>, j: nat, sig: Signature)
    requires DividingTo(layers, j) && j < |layers| && Legal(ops, sig) && Run(layers, ops).history != []
    ensures Run(layers, ops).logs[j] + Open(Run(layers, ops).ws, j, 0) != []
  {
    RunPartition(layers, ops, j, sig);
    NothingTilesNothing(Run(layers, ops).logs[j] + Open(Run(layers, ops).ws, j, 0), Run(layers, ops).history, sig);
  }

  lemma {:induction false} TopRecent(layers: seq<Duration>, ops: seq<Op>, top: nat, sig: Signature)
    requires DividingTo(layers, top) && top + 1 == |layers| && Legal(ops, sig) && Run(layers, ops).history != []
    ensures Recent(Run(layers, ops).ws) != []
  {
    DividingLatest(layers, ops, top);
    SomethingHeld(layers, ops, top, sig);
    SomeRecent(Run(layers, ops).ws, top, Run(layers, ops).logs[top]);
  }

  lemma {:induction false} RecentNonEmpty(layers: seq<Duration>, ops: seq<Op>, sig: Signature)
    requires Dividing(layers) && layers != [] && Legal(ops, sig) && Run(layers, ops).history != []
    ensures Recent(Run(layers, ops).ws) != []
  {
    TopRecent(layers, ops, |layers| - 1, sig);
  }

  lemma {:induction false} SomeRecent(ws: seq<Window>, top: nat, log: seq<MetricSet>)
    requires |ws| == top + 1 && LatestIsLast(ws[top], log) && log + Open(ws, top, 0) != []
    ensures Recent(ws) != []
  {
  }

  lemma {:induction false} NothingTilesNothing(windows: seq<MetricSet>, history: seq<MetricSet>, sig: Signature)
    requires Tiles(windows, history, sig) && history != []
    ensures windows != []
  {
  }

  /** A component's lifetime counter is the last running total ingested for it. */
  lemma {:induction false} LifetimeCounter(layers: seq<Duration>, ops: seq<Op>, q: Selection, now: Instant, age: Duration, sig: Signature,
                        id: Id)
    requires Dividing(layers) && layers != [] && Legal(ops, sig) && Selects(q, id)
    requires Run(layers, ops).history != [] && Ticking(Run(layers, ops).history, id)
    ensures var p := Run(layers, ops);
      var lifetime, last := PointOf(PerComponent(p.ws, q, now, age), id), PointOf(p.history[|p.history| - 1], id).value;
      lifetime.Some? && Latched(lifetime.value.value) == Latched(last.value)
  {
    var ws := Run(layers, ops).ws;
    RecentTicks(layers, ops, sig, id);
    BackwardFold(Recent(ws), now, sig, id);
    RunFits(layers, ops, sig);
    ComponentReads(ws, q, now, age, sig, id);
  }

  /** A selected series of one component is the fold of its recent windows, newest first. */
  lemma {:induction false} ComponentReads(ws: seq<Window>, q: Selection, now: Instant, age: Duration, sig: Signature, id: Id)
    requires ws != [] && WindowsFit(ws, sig) && Selects(q, id)
    ensures PointOf(PerComponent(ws, q, now, age), id) ==
            FoldedSeries(StampAll(Points(Reverse(Recent(ws)), id), now), Coalescing)
  {
    SourcesAreRecent(ws);
    SourcesFit(ws, |ws|, sig);
    GatherSpec(Empty(now, age), Sources(ws, |ws|), q, now, Coalescing, sig, id);
  }
}
