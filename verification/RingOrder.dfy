/** Ingests in capture order are sealed in capture order at every layer, under every plan;
    so every ring is the one recomputed from the whole sealed history. */
module RingOrder {
  import opened Wrappers
  import opened Snapshot
  import opened Windows
  import opened Cascade
  import opened Retention
  import opened Runs
  import opened RingRuns

  /** When the latest sealed window was captured. */
  function Late(w: Window): Instant {
    if w.latest.None? then 0 else w.latest.value.capturedAt
  }

  /** When the newest data the layer has seen, and still has or has sealed, was captured. */
  function Front(w: Window): Instant {
    if w.prebuffer.None? then Late(w) else w.prebuffer.value.capturedAt
  }

  /** What a layer has is no older than what it sealed, and no newer than the latest the layer
      below sealed, or for layer `k` than `t`. */
  ghost predicate InFlow(ws: seq<Window>, j: nat, k: nat, t: Instant)
    requires k <= j < |ws|
  {
    Late(ws[j]) <= Front(ws[j]) <= if j == k then t else Late(ws[j - 1])
  }

  ghost predicate Flows(ws: seq<Window>, k: nat, t: Instant) {
    forall j :: k <= j < |ws| ==> InFlow(ws, j, k, t)
  }

  /** No layer's latest window goes back in time. */
  ghost predicate Later(ws: seq<Window>, ws': seq<Window>) {
    |ws'| == |ws| && forall j :: 0 <= j < |ws| ==> Late(ws[j]) <= Late(ws'[j])
  }

  lemma {:induction false} LayerFlows(w: Window, s: MetricSet)
    requires Late(w) <= Front(w) <= s.capturedAt
    ensures var (w', closed) := IngestStep(w, s);
      Late(w) <= Late(w') <= Front(w') == s.capturedAt &&
      (closed.Some? ==> Late(w') == closed.value.capturedAt == s.capturedAt && w'.prebuffer.None?)
  {
  }

  lemma {:induction false} ForceCloseFlows(w: Window, reason: CloseReason)
    requires Late(w) <= Front(w)
    ensures var (w', sealed) := ForceCloseStep(w, reason);
      Late(w) <= Late(w') == Front(w') <= Front(w) && (sealed.Some? ==> Late(w') == sealed.value.capturedAt)
  {
  }

  lemma {:induction false} CloseLayerFlows(w: Window, carry: Option<MetricSet>, reason: CloseReason, t: Instant)
    requires Late(w) <= Front(w) <= t && (carry.Some? ==> carry.value.capturedAt == t)
    ensures var (w', sealed) := CloseLayer(w, carry, reason);
      Late(w) <= Late(w') == Front(w') <= t && (sealed.Some? ==> Late(w') == sealed.value.capturedAt)
  {
    if carry.Some? {
      LayerFlows(w, carry.value);
    }
    ForceCloseFlows(Carried(w, carry), reason);
  }

  lemma {:induction false} FlowsAbove(ws: seq<Window>, k: nat, w: Window, t: Instant)
    requires k < |ws| && Flows(ws, k, t) && Late(ws[k]) <= Late(w)
    ensures Flows(ws[k := w], k + 1, Late(w))
  {
    var after, next, t' := ws[k := w], k + 1, Late(w);
    forall j | next <= j < |ws|
      ensures InFlow(after, j, next, t')
    {
      assert InFlow(ws, j, k, t);
    }
  }

  /** Layer `k` has become `w` and the layers above have done their part. */
  lemma {:induction false} FlowsThrough(ws: seq<Window>, k: nat, w: Window, rest: seq<Window>, t: Instant)
    requires k < |ws| && Late(ws[k]) <= Late(w) <= Front(w) <= t
    requires Later(ws[k := w], rest) && rest[k] == w && Flows(rest, k + 1, Late(w))
    ensures Flows(rest, k, t) && Later(ws, rest)
  {
    var next := k + 1;
    forall j | next <= j < |ws|
      ensures InFlow(rest, j, k, t)
    {
      assert InFlow(rest, j, next, Late(w));
    }
    forall j | 0 <= j < |ws|
      ensures Late(ws[j]) <= Late(rest[j])
    {
      assert Late(ws[k := w][j]) <= Late(rest[j]);
    }
  }

  lemma {:induction false} IngestFlows(ws: seq<Window>, k: nat, s: MetricSet)
    requires Flows(ws, k, s.capturedAt)
    ensures Flows(IngestFrom(ws, k, s).0, k, s.capturedAt) && Later(ws, IngestFrom(ws, k, s).0)
    decreases |ws| - k
  {
    if k < |ws| {
      var (w, closed) := IngestStep(ws[k], s);
      assert InFlow(ws, k, k, s.capturedAt);
      LayerFlows(ws[k], s);
      FlowsAbove(ws, k, w, s.capturedAt);
      var rest := ws[k := w];
      if closed.Some? {
        IngestFlows(ws[k := w], k + 1, closed.value);
        IngestKeepsBelow(ws[k := w], k + 1, closed.value, k);
        rest := IngestFrom(ws[k := w], k + 1, closed.value).0;
      }
      FlowsThrough(ws, k, w, rest, s.capturedAt);
    }
  }

  lemma {:induction false} CloseFlows(ws: seq<Window>, k: nat, carry: Option<MetricSet>, reason: CloseReason, t: Instant)
    requires Flows(ws, k, t) && (carry.Some? ==> carry.value.capturedAt == t)
    ensures Flows(CloseFrom(ws, k, carry, reason).0, k, t) && Later(ws, CloseFrom(ws, k, carry, reason).0)
    decreases |ws| - k
  {
    if k < |ws| {
      var (w, sealed) := CloseLayer(ws[k], carry, reason);
      assert InFlow(ws, k, k, t);
      CloseLayerFlows(ws[k], carry, reason, t);
      FlowsAbove(ws, k, w, t);
      CloseFlows(ws[k := w], k + 1, sealed, reason, Late(w));
      CloseKeepsBelow(ws[k := w], k + 1, sealed, reason, k);
      FlowsThrough(ws, k, w, CloseFrom(ws[k := w], k + 1, sealed, reason).0, t);
    }
  }

  // ---------------------------------------------------------------------
  // Runs
  // ---------------------------------------------------------------------

  /** At most one window is sealed by a layer in one operation, and it is then the latest. */
  ghost predicate SealsOne(sealed: seq<MetricSet>, w: Window) {
    sealed != [] ==> |sealed| == 1 && w.latest == Some(sealed[0])
  }

  lemma {:induction false} CloseLayerSealsOne(w: Window, carry: Option<MetricSet>, reason: CloseReason)
    ensures var (w', sealed) := CloseLayer(w, carry, reason); SealsOne(Opt(Discarded(w, carry)) + Opt(sealed), w')
  {
  }

  lemma {:induction false} ClosedAtOne(ws: seq<Window>, k: nat, carry: Option<MetricSet>, reason: CloseReason, j: nat)
    requires k <= j < |ws|
    ensures SealsOne(ClosedAt(ws, k, carry, reason, j), CloseFrom(ws, k, carry, reason).0[j])
    decreases |ws| - k
  {
    var step := CloseLayer(ws[k], carry, reason);
    var ws1 := ws[k := step.0];
    CloseParts(ws, k, carry, reason, j);
    if k == j {
      CloseLayerSealsOne(ws[k], carry, reason);
      CloseKeepsBelow(ws1, k + 1, step.1, reason, j);
      assert CloseFrom(ws, k, carry, reason).0[j] == step.0;
    } else {
      ClosedAtOne(ws1, k + 1, step.1, reason, j);
      assert ClosedAt(ws, k, carry, reason, j) == ClosedAt(ws1, k + 1, step.1, reason, j);
    }
  }

  lemma {:induction false} OrderedSnoc(log: seq<MetricSet>, sealed: seq<MetricSet>, w: Window, w': Window)
    requires Ordered(log) && LatestIsLast(w, log) && SealsOne(sealed, w') && Late(w) <= Late(w')
    ensures Ordered(log + sealed)
  {
    if sealed == [] {
      assert log + sealed == log;
    } else {
      var all := log + sealed;
      forall a, b | 0 <= a <= b < |all|
        ensures all[a].capturedAt <= all[b].capturedAt
      {
        assert a < |log| ==> log[a].capturedAt <= log[|log| - 1].capturedAt;
      }
    }
  }

  function LastCapture(history: seq<MetricSet>): Instant {
    if history == [] then 0 else history[|history| - 1].capturedAt
  }

  lemma {:induction false} FlowsOn(ws: seq<Window>, t: Instant, u: Instant)
    requires Flows(ws, 0, t) && t <= u
    ensures Flows(ws, 0, u)
  {
    forall j | 0 <= j < |ws|
      ensures InFlow(ws, j, 0, u)
    {
      assert InFlow(ws, j, 0, t);
    }
  }

  lemma {:induction false} OrderedPrefix(x: seq<MetricSet>, s: MetricSet)
    requires Ordered(x + [s])
    ensures Ordered(x) && LastCapture(x) <= s.capturedAt == LastCapture(x + [s])
  {
    var all := x + [s];
    forall a, b | 0 <= a <= b < |x|
      ensures x[a].capturedAt <= x[b].capturedAt
    {
      assert all[a].capturedAt <= all[b].capturedAt;
    }
    assert x != [] ==> all[|x| - 1].capturedAt <= all[|x|].capturedAt;
  }

  lemma {:induction false} RunFlows(layers: seq<Duration>, ops: seq<Op>)
    requires Ordered(Run(layers, ops).history)
    ensures Flows(Run(layers, ops).ws, 0, LastCapture(Run(layers, ops).history))
    ensures ops != [] ==>
              Ordered(Run(layers, ops[..|ops| - 1]).history) && Later(Run(layers, ops[..|ops| - 1]).ws, Run(layers, ops).ws)
  {
    if ops != [] {
      var init, op := ops[..|ops| - 1], ops[|ops| - 1];
      var p := Run(layers, init);
      if op.IngestOp? {
        OrderedPrefix(p.history, op.snapshot);
        RunFlows(layers, init);
        FlowsOn(p.ws, LastCapture(p.history), op.snapshot.capturedAt);
        IngestFlows(p.ws, 0, op.snapshot);
      } else {
        RunFlows(layers, init);
        CloseFlows(p.ws, 0, None, op.reason, LastCapture(p.history));
      }
    }
  }

  lemma {:induction false} StepSealsOne(p: Path, op: Op, j: nat)
    requires j < |p.ws| == |p.logs|
    ensures SealsOne(StepSeals(p, op, j), Step(p, op).ws[j])
  {
    match op
    case IngestOp(s) => IngestPublishes(p.ws, 0, s, j);
    case CloseOp(reason) => ClosedAtOne(p.ws, 0, None, reason, j);
  }

  /** Under every plan, what is ingested in capture order each layer seals in capture order. */
  lemma {:induction false} SealedInOrder(layers: seq<Duration>, ops: seq<Op>, j: nat)
    requires j < |layers| && Ordered(Run(layers, ops).history)
    ensures Ordered(SealedBy(layers, ops, j))
  {
    if ops != [] {
      var init, op := ops[..|ops| - 1], ops[|ops| - 1];
      var p := Run(layers, init);
      RunFlows(layers, ops);
      SealedInOrder(layers, init, j);
      RunLatest(layers, init, j);
      StepSealsOne(p, op, j);
      OrderedSnoc(SealedBy(layers, init, j), StepSeals(p, op, j), p.ws[j], Step(p, op).ws[j]);
    }
  }

  /** When snapshots are ingested in capture order, every layer's ring is at every moment the
      one recomputed from all it has ever sealed, and the newest of that is the latest. */
  lemma {:induction false} RingMatchesHistory(layers: seq<Duration>, ops: seq<Op>, j: nat)
    requires j < |layers| && Ordered(Run(layers, ops).history)
    ensures var w, log := Run(layers, ops).ws[j], SealedBy(layers, ops, j);
      w.ring == RingOf(log, w.retain, w.histRetain) && LatestIsLast(w, log)
  {
    SealedInOrder(layers, ops, j);
    RunMaintains(layers, ops, j);
  }
}
