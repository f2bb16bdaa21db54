/** In every run under every plan, each layer's ring and latest window are what its sealed
    history says. */
module RingRuns {
  import opened Wrappers
  import opened Snapshot
  import opened Windows
  import opened Cascade
  import opened Retention
  import opened Runs

  /** At most one window was published, and it alone moved the ring and the latest. */
  ghost predicate Published(w: Window, w': Window, sealed: seq<MetricSet>) {
    w'.retain == w.retain && w'.histRetain == w.histRetain &&
    (sealed == [] ==> w'.ring == w.ring && w'.latest == w.latest) &&
    (sealed != [] ==>
       |sealed| == 1 && w'.latest == Some(sealed[0]) &&
       w'.ring == Evict(w.ring + [sealed[0]], w.retain, w.histRetain))
  }

  lemma {:induction false} LayerPublishes(w: Window, s: MetricSet)
    ensures var (w', closed) := IngestStep(w, s); Published(w, w', Opt(closed))
  {
  }

  lemma {:induction false} ForceClosePublishes(w: Window, reason: CloseReason)
    ensures var (w', sealed) := ForceCloseStep(w, reason); Published(w, w', Opt(sealed))
  {
  }

  lemma {:induction false} IngestPublishes(ws: seq<Window>, k: nat, s: MetricSet, j: nat)
    requires k <= j < |ws|
    ensures Published(ws[j], IngestFrom(ws, k, s).0[j], Pick(IngestFrom(ws, k, s).1, j))
    decreases |ws| - k
  {
    var step := IngestStep(ws[k], s);
    var ws1 := ws[k := step.0];
    LayerPublishes(ws[k], s);
    if step.1.Some? {
      var closed := step.1.value;
      var rest := IngestFrom(ws1, k + 1, closed);
      IngestParts(ws, k, s, j);
      if k == j {
        IngestKeepsBelow(ws1, k + 1, closed, j);
      } else {
        IngestPublishes(ws1, k + 1, closed, j);
        assert [] + Pick(rest.1, j) == Pick(rest.1, j);
      }
    }
  }

  /** The window is what its sealed history makes it. */
  ghost predicate Maintained(w: Window, log: seq<MetricSet>) {
    w.histRetain <= w.retain &&
    w.latest == (if log == [] then None else Some(log[|log| - 1])) &&
    (Ordered(log) ==> w.ring == RingOf(log, w.retain, w.histRetain))
  }

  lemma {:induction false} PublishMaintains(w: Window, w': Window, log: seq<MetricSet>, sealed: seq<MetricSet>)
    requires Maintained(w, log) && Published(w, w', sealed)
    ensures Maintained(w', log + sealed)
  {
    if sealed == [] {
      assert log + sealed == log;
    } else {
      assert sealed == [sealed[0]];
      var all := log + sealed;
      if Ordered(all) {
        forall a, b | 0 <= a <= b < |log|
          ensures log[a].capturedAt <= log[b].capturedAt
        {
          assert all[a] == log[a] && all[b] == log[b];
        }
        RingRefinesHistory(log, sealed[0], w.retain, w.histRetain);
      }
    }
  }

  // ---------------------------------------------------------------------
  // Everything a layer has ever sealed
  // ---------------------------------------------------------------------

  /** What layer `j` seals during a close that has reached layer `k`: what the carry filled
      there, which goes no further, and what the close itself sealed. */
  function ClosedAt(ws: seq<Window>, k: nat, carry: Option<MetricSet>, reason: CloseReason, j: nat): seq<MetricSet>
    decreases |ws| - k
  {
    if k >= |ws| then []
    else
      var (w, sealed) := CloseLayer(ws[k], carry, reason);
      if k == j then Opt(Discarded(ws[k], carry)) + Opt(sealed)
      else ClosedAt(ws[k := w], k + 1, sealed, reason, j)
  }

  /** What layer `j` seals in one operation. */
  function StepSeals(p: Path, op: Op, j: nat): seq<MetricSet> {
    match op
    case IngestOp(s) => Pick(IngestFrom(p.ws, 0, s).1, j)
    case CloseOp(reason) => ClosedAt(p.ws, 0, None, reason, j)
  }

  /** All that layer `j` has sealed in a run, whether it was carried on or not. */
  function SealedBy(layers: seq<Duration>, ops: seq<Op>, j: nat): seq<MetricSet> {
    if ops == [] then []
    else SealedBy(layers, ops[..|ops| - 1], j) + StepSeals(Run(layers, ops[..|ops| - 1]), ops[|ops| - 1], j)
  }

  lemma {:induction false} CloseLayerMaintains(w: Window, carry: Option<MetricSet>, reason: CloseReason, log: seq<MetricSet>)
    requires Maintained(w, log)
    ensures Maintained(CloseLayer(w, carry, reason).0, log + (Opt(Discarded(w, carry)) + Opt(CloseLayer(w, carry, reason).1)))
  {
    var filled, sealed := Opt(Discarded(w, carry)), Opt(CloseLayer(w, carry, reason).1);
    var between := Carried(w, carry);
    if carry.Some? {
      LayerPublishes(w, carry.value);
    }
    PublishMaintains(w, between, log, filled);
    ForceClosePublishes(between, reason);
    PublishMaintains(between, CloseLayer(w, carry, reason).0, log + filled, sealed);
    assert (log + filled) + sealed == log + (filled + sealed);
  }

  lemma {:induction false} CloseMaintains(ws: seq<Window>, k: nat, carry: Option<MetricSet>, reason: CloseReason, j: nat,
                                          log: seq<MetricSet>)
    requires k <= j < |ws| && Maintained(ws[j], log)
    ensures Maintained(CloseFrom(ws, k, carry, reason).0[j], log + ClosedAt(ws, k, carry, reason, j))
    decreases |ws| - k
  {
    var step := CloseLayer(ws[k], carry, reason);
    if k == j {
      CloseLayerMaintains(ws[k], carry, reason, log);
      CloseKeepsBelow(ws[k := step.0], k + 1, step.1, reason, j);
    } else {
      CloseMaintains(ws[k := step.0], k + 1, step.1, reason, j, log);
    }
  }

  lemma {:induction false} StepMaintains(p: Path, op: Op, j: nat, log: seq<MetricSet>)
    requires j < |p.ws| == |p.logs| && Maintained(p.ws[j], log)
    ensures Maintained(Step(p, op).ws[j], log + StepSeals(p, op, j))
  {
    match op
    case IngestOp(s) =>
      IngestPublishes(p.ws, 0, s, j);
      PublishMaintains(p.ws[j], IngestFrom(p.ws, 0, s).0[j], log, Pick(IngestFrom(p.ws, 0, s).1, j));
    case CloseOp(reason) => CloseMaintains(p.ws, 0, None, reason, j, log);
  }

  /** In every run under every plan, a layer's ring and latest window are what all it has
      sealed makes them. */
  lemma {:induction false} RunMaintains(layers: seq<Duration>, ops: seq<Op>, j: nat)
    requires j < |layers|
    ensures Maintained(Run(layers, ops).ws[j], SealedBy(layers, ops, j))
  {
    if ops != [] {
      var init := ops[..|ops| - 1];
      RunMaintains(layers, init, j);
      StepMaintains(Run(layers, init), ops[|ops| - 1], j, SealedBy(layers, init, j));
    }
  }

  ghost predicate LatestIsLast(w: Window, log: seq<MetricSet>) {
    w.latest == if log == [] then None else Some(log[|log| - 1])
  }

  /** The latest window of a layer is the last one it sealed. */
  lemma {:induction false} RunLatest(layers: seq<Duration>, ops: seq<Op>, j: nat)
    requires j < |layers|
    ensures LatestIsLast(Run(layers, ops).ws[j], SealedBy(layers, ops, j))
  {
    RunMaintains(layers, ops, j);
    MaintainedLatest(Run(layers, ops).ws[j], SealedBy(layers, ops, j));
  }

  lemma {:induction false} MaintainedLatest(w: Window, log: seq<MetricSet>)
    requires Maintained(w, log)
    ensures LatestIsLast(w, log)
  {
  }

  // ---------------------------------------------------------------------
  // Where layers divide, all that is sealed is carried on
  // ---------------------------------------------------------------------

  lemma {:induction false} ClosedIsPicked(ws: seq<Window>, k: nat, carry: Option<MetricSet>, reason: CloseReason,
                                          layers: seq<Duration>, j: nat)
    requires k <= j < |ws| && DividingTo(layers, j) && AllAccounted(ws, layers)
    requires carry.Some? ==> 0 < k && carry.value.families != [] && carry.value.interval < layers[k - 1]
    ensures ClosedAt(ws, k, carry, reason, j) == Pick(CloseFrom(ws, k, carry, reason).1, j)
    decreases |ws| - k
  {
    var step := CloseLayer(ws[k], carry, reason);
    CloseLayerFits(ws[k], carry, reason, layers, k);
    CloseParts(ws, k, carry, reason, j);
    if k == j {
      CloseKeepsBelow(ws[k := step.0], k + 1, step.1, reason, j);
      assert [] + Opt(step.1) == Opt(step.1) + [];
    } else {
      CloseStepAccounts(ws, k, carry, reason, layers);
      ClosedIsPicked(ws[k := step.0], k + 1, step.1, reason, layers, j);
      var rest := CloseFrom(ws[k := step.0], k + 1, step.1, reason);
      assert [] + Pick(rest.1, j) == Pick(rest.1, j);
    }
  }

  lemma {:induction false} StepLogs(p: Path, op: Op, layers: seq<Duration>, j: nat)
    requires j < |p.ws| == |p.logs| && DividingTo(layers, j) && AllAccounted(p.ws, layers)
    ensures Step(p, op).logs[j] == p.logs[j] + StepSeals(p, op, j)
  {
    if op.CloseOp? {
      ClosedIsPicked(p.ws, 0, None, op.reason, layers, j);
    }
  }

  /** As long as the layers up to it divide each other, all that a layer seals is carried on. */
  lemma {:induction false} SealedIsLogged(layers: seq<Duration>, ops: seq<Op>, j: nat)
    requires DividingTo(layers, j) && NonEmpty(ops) && j < |layers|
    ensures SealedBy(layers, ops, j) == Run(layers, ops).logs[j]
  {
    if ops != [] {
      var init := ops[..|ops| - 1];
      SealedIsLogged(layers, init, j);
      RunAccounted(layers, init);
      StepLogs(Run(layers, init), ops[|ops| - 1], layers, j);
    }
  }

  /** The latest window is then the last of those carried on. */
  lemma {:induction false} DividingLatest(layers: seq<Duration>, ops: seq<Op>, j: nat)
    requires DividingTo(layers, j) && NonEmpty(ops) && j < |layers|
    ensures LatestIsLast(Run(layers, ops).ws[j], Run(layers, ops).logs[j])
  {
    RunLatest(layers, ops, j);
    SealedIsLogged(layers, ops, j);
  }
}
