/** What the queries find in a published state, in terms of the commands the owner had applied. */
module PublishedReads {
  import opened Wrappers
  import opened Snapshot
  import opened Series
  import opened Windows
  import opened Cascade
  import opened Runs
  import opened WellTyped
  import opened Owner
  import opened OwnerTask
  import opened ReaderStates
  import opened MetricsQuery
  import opened SessionLifetime
  import opened LifetimeRuns
  import opened IncreaseOver
  import opened IncreaseRuns

  /** What each path was given by these commands. */
  function RunsOf(cmds: seq<Cmd>, paths: seq<string>): (runs: seq<seq<Op>>)
    ensures |runs| == |paths| && forall i :: 0 <= i < |paths| ==> runs[i] == OpsFor(cmds, paths[i])
  {
    seq(|paths|, i requires 0 <= i < |paths| => OpsFor(cmds, paths[i]))
  }

  /** Ingested snapshots are well typed and carry at least one family. */
  ghost predicate CmdsLegal(cmds: seq<Cmd>, sig: Signature) {
    forall i :: 0 <= i < |cmds| && cmds[i].IngestCmd? ==> Fits(cmds[i].snapshot, sig) && cmds[i].snapshot.families != []
  }

  lemma {:induction false} OpsLegal(cmds: seq<Cmd>, path: string, sig: Signature)
    requires CmdsLegal(cmds, sig)
    ensures Legal(OpsFor(cmds, path), sig)
  {
    if cmds != [] {
      var init, c := cmds[..|cmds| - 1], cmds[|cmds| - 1];
      OpsLegal(init, path, sig);
      assert c.IngestCmd? ==> Fits(c.snapshot, sig) && c.snapshot.families != [];
    }
  }

  lemma {:induction false} RunsLegal(cmds: seq<Cmd>, paths: seq<string>, sig: Signature)
    requires CmdsLegal(cmds, sig)
    ensures AllLegal(RunsOf(cmds, paths), sig)
  {
    forall i | 0 <= i < |paths|
      ensures Legal(RunsOf(cmds, paths)[i], sig)
    {
      OpsLegal(cmds, paths[i], sig);
    }
  }

  /** The state shown is the fold of these commands, and the paths are among its components. */
  ghost predicate Reads(r: ReaderState, layers: seq<Duration>, cmds: seq<Cmd>, paths: seq<string>) {
    Shows(r, Fold(layers, cmds), layers) &&
    forall i :: 0 <= i < |paths| ==> paths[i] in Fold(layers, cmds).paths
  }

  lemma {:induction false} FoldKeys(layers: seq<Duration>, cmds: seq<Cmd>)
    ensures Fold(layers, cmds).labels.Keys == Fold(layers, cmds).paths.Keys
  {
    if cmds != [] {
      FoldKeys(layers, cmds[..|cmds| - 1]);
    }
  }

  /** The published components are those with labels: all that were ever ingested under. */
  lemma {:induction false} ComponentsAreRead(r: ReaderState, layers: seq<Duration>, cmds: seq<Cmd>, paths: seq<string>)
    requires Shows(r, Fold(layers, cmds), layers) && forall i :: 0 <= i < |paths| ==> paths[i] in r.labels
    ensures Reads(r, layers, cmds, paths)
  {
    FoldKeys(layers, cmds);
    forall i | 0 <= i < |paths|
      ensures paths[i] in Fold(layers, cmds).paths
    {
      assert paths[i] in Fold(layers, cmds).labels.Keys;
    }
  }

  lemma {:induction false} WindowsOfPath(r: ReaderState, layers: seq<Duration>, cmds: seq<Cmd>, path: string, k: nat)
    requires Shows(r, Fold(layers, cmds), layers) && path in Fold(layers, cmds).paths && k < |layers|
    ensures var w := Run(layers, OpsFor(cmds, path)).ws[k];
      ViewAt(r, path, k).latest == w.latest && ViewAt(r, path, k).prebuffer == w.prebuffer && ViewAt(r, path, k).ring == w.ring
  {
    FoldIsRun(layers, cmds, path);
    ShownAt(r, Fold(layers, cmds), layers, path, k);
  }

  /** A path's sources depend only on what is seen of its windows. */
  lemma {:induction false} SeenIsSources(r: ReaderState, path: string, ws: seq<Window>, n: nat)
    requires n <= |ws|
    requires forall k: nat :: k < |ws| ==> ViewAt(r, path, k).latest == ws[k].latest && ViewAt(r, path, k).prebuffer == ws[k].prebuffer
    ensures Seen(r, path, |ws|, n) == Sources(ws, n)
  {
    if n > 0 {
      SeenIsSources(r, path, ws, n - 1);
    }
  }

  /** A component's sources, as published, are those of its run. */
  lemma {:induction false} SeenIsRead(r: ReaderState, layers: seq<Duration>, cmds: seq<Cmd>, path: string, n: nat)
    requires Shows(r, Fold(layers, cmds), layers) && path in Fold(layers, cmds).paths && n <= |layers|
    ensures Seen(r, path, |layers|, n) == Sources(Run(layers, OpsFor(cmds, path)).ws, n)
  {
    var ws := Run(layers, OpsFor(cmds, path)).ws;
    forall k: nat | k < |layers|
      ensures ViewAt(r, path, k).latest == ws[k].latest && ViewAt(r, path, k).prebuffer == ws[k].prebuffer
    {
      WindowsOfPath(r, layers, cmds, path, k);
    }
    SeenIsSources(r, path, ws, n);
  }

  lemma {:induction false} PersAreRead(r: ReaderState, layers: seq<Duration>, cmds: seq<Cmd>, paths: seq<string>, q: Selection,
                                       now: Instant, age: Duration)
    requires Reads(r, layers, cmds, paths)
    ensures PerPaths(r, paths, |layers|, q, now, age) ==
            PerComponents(Views(layers, RunsOf(cmds, paths)), q, now, age)
  {
    forall i | 0 <= i < |paths|
      ensures PerPaths(r, paths, |layers|, q, now, age)[i] ==
              PerComponents(Views(layers, RunsOf(cmds, paths)), q, now, age)[i]
    {
      SeenIsRead(r, layers, cmds, paths[i], |layers|);
    }
  }

  lemma {:induction false} RingsAreRead(r: ReaderState, layers: seq<Duration>, cmds: seq<Cmd>, paths: seq<string>, k: nat)
    requires Reads(r, layers, cmds, paths) && k < |layers|
    ensures RingsAt(r, paths, k) == Rings(layers, RunsOf(cmds, paths), k)
  {
    forall i | 0 <= i < |paths|
      ensures RingsAt(r, paths, k)[i] == Rings(layers, RunsOf(cmds, paths), k)[i]
    {
      WindowsOfPath(r, layers, cmds, paths[i], k);
    }
  }

  /** Under every plan what the queries read is well typed, as they ask. */
  lemma {:induction false} ReadsFit(r: ReaderState, layers: seq<Duration>, cmds: seq<Cmd>, path: string, k: nat, sig: Signature)
    requires CmdsLegal(cmds, sig) && k < |layers|
    requires Shows(r, Fold(layers, cmds), layers) && path in Fold(layers, cmds).paths
    ensures SeenFit(r, path, |layers|, sig) && AllFit(ViewAt(r, path, k).ring, sig)
  {
    var ws := Run(layers, OpsFor(cmds, path)).ws;
    OpsLegal(cmds, path, sig);
    RunFits(layers, OpsFor(cmds, path), sig);
    SourcesFit(ws, |ws|, sig);
    SeenIsRead(r, layers, cmds, path, |layers|);
    WindowsOfPath(r, layers, cmds, path, k);
    RunTyped(layers, OpsFor(cmds, path), sig);
    assert Typed(ws[k], sig);
  }

  /** `session_lifetime` over a published state: a counter, or a histogram's lifetime count, is the
      sum, saturating, of the totals last ingested for the components that have the series. */
  lemma {:induction false} PublishedTotals(r: ReaderState, layers: seq<Duration>, cmds: seq<Cmd>, paths: seq<string>, q: Selection,
                                           now: Instant, age: Duration, sig: Signature, id: Id)
    requires Reads(r, layers, cmds, paths) && CmdsLegal(cmds, sig) && Dividing(layers) && layers != []
    requires AllCarryOrLack(Histories(layers, RunsOf(cmds, paths)), id)
    requires Selects(q, id) && Totalled(sig(id.family).shape)
    ensures var lasts := Lasts(Histories(layers, RunsOf(cmds, paths)), id);
      ReadingOf(Across(PerPaths(r, paths, |layers|, q, now, age), now, age), id) ==
      if Present(lasts) == 0 then None else Some(Added(Present(lasts), Sum(lasts)))
  {
    RunsLegal(cmds, paths, sig);
    PersAreRead(r, layers, cmds, paths, q, now, age);
    LifetimeCounters(layers, RunsOf(cmds, paths), q, now, age, sig, id);
  }

  /** And a histogram, with what the top layers sealed before their latest windows, is everything
      the components were given; while none has sealed more than one, it alone is. */
  lemma {:induction false} PublishedSamples(r: ReaderState, layers: seq<Duration>, cmds: seq<Cmd>, paths: seq<string>, q: Selection,
                                            now: Instant, age: Duration, sig: Signature, id: Id)
    requires Reads(r, layers, cmds, paths) && CmdsLegal(cmds, sig) && Dividing(layers) && layers != []
    requires Selects(q, id) && sig(id.family).shape == HistogramShape
    ensures var runs := RunsOf(cmds, paths);
      var lifetime := Samples(Across(PerPaths(r, paths, |layers|, q, now, age), now, age), id);
      lifetime + OlderSamples(layers, runs, id) == Ingested(layers, runs, id) &&
      (Young(layers, runs) ==> lifetime == Ingested(layers, runs, id))
  {
    RunsLegal(cmds, paths, sig);
    PersAreRead(r, layers, cmds, paths, q, now, age);
    LifetimeHistograms(layers, RunsOf(cmds, paths), q, now, age, sig, id);
  }

  /** `increase_over` over a published state: the sum, saturating, of the components' increases,
      each the difference of two totals the component was given. */
  lemma {:induction false} PublishedIncreases(r: ReaderState, layers: seq<Duration>, cmds: seq<Cmd>, paths: seq<string>, k: nat,
                                              windows: nat, q: Selection, now: Instant, span: Duration, sig: Signature, id: Id)
    requires Reads(r, layers, cmds, paths) && CmdsLegal(cmds, sig) && k < |layers| && DividingTo(layers, k)
    requires AllSteady(layers, RunsOf(cmds, paths), id) && windows > 0
    requires Selects(q, id) && sig(id.family) == FamilyType(CounterType, CounterShape)
    ensures var runs := RunsOf(cmds, paths);
      var increases := IncreasesOf(Rings(layers, runs, k), windows, id);
      ReadingOf(Answers(RingsAt(r, paths, k), windows, q, now, span), id) ==
      (if Present(increases) == 0 then None else Some(Added(Present(increases), Sum(increases)))) &&
      forall i :: 0 <= i < |runs| ==>
        var p := Run(layers, runs[i]); Explained(p.ws[k].ring, p.logs[k], windows, p.history, sig, id)
  {
    RunsLegal(cmds, paths, sig);
    RingsAreRead(r, layers, cmds, paths, k);
    RunsIncreasesAdd(layers, RunsOf(cmds, paths), k, windows, q, now, span, sig, id);
  }
}
