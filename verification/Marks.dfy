/** Lifecycle marks: every window a close seals, at any layer, is partial and closed at least as
    strongly as the reason given; and no window is marked without cause. */
module Marks {
  import opened Wrappers
  import opened Snapshot
  import opened Windows
  import opened Cascade
  import opened Runs
  import opened RingRuns

  /** Partial, and closed for this reason or a stronger one. */
  predicate Marked(w: MetricSet, reason: CloseReason) {
    w.partial && Strength(w.close) >= Strength(Some(reason))
  }

  /** Marked no more than this: partial only if `partial` is set, closed at most this strongly. */
  predicate AtMostMarked(w: MetricSet, partial: bool, strength: nat) {
    (w.partial ==> partial) && Strength(w.close) <= strength
  }

  predicate AllMarked(ws: seq<MetricSet>, reason: CloseReason) {
    forall i :: 0 <= i < |ws| ==> Marked(ws[i], reason)
  }

  predicate AllAtMost(ws: seq<MetricSet>, partial: bool, strength: nat) {
    forall i :: 0 <= i < |ws| ==> AtMostMarked(ws[i], partial, strength)
  }

  // ---------------------------------------------------------------------
  // One layer
  // ---------------------------------------------------------------------

  /** What a forced close seals is the prebuffer but for its marks: partial, and of its own reason
      and the one given the stronger. */
  lemma {:induction false} ForceCloseMarks(w: Window, reason: CloseReason)
    ensures var (w', sealed) := ForceCloseStep(w, reason);
      (sealed.Some? <==> w.prebuffer.Some? && w.prebuffer.value.families != []) && w'.prebuffer.None? &&
      (sealed.Some? ==>
         sealed.value.partial && IsStronger(sealed.value.close, Some(reason), w.prebuffer.value.close) &&
         sealed.value.(partial := w.prebuffer.value.partial, close := w.prebuffer.value.close) == w.prebuffer.value)
  {
  }

  /** Folding a snapshot in keeps every mark there is and makes none. */
  lemma {:induction false} IngestMarks(w: Window, s: MetricSet)
    ensures var (w', closed) := IngestStep(w, s);
      var out := if closed.Some? then closed else w'.prebuffer;
      out.Some? && (closed.Some? ==> w'.prebuffer.None?) &&
      (out.value.partial <==> s.partial || (w.prebuffer.Some? && w.prebuffer.value.partial)) &&
      IsStronger(out.value.close, s.close, if w.prebuffer.Some? then w.prebuffer.value.close else None)
  {
  }

  lemma {:induction false} CloseLayerMarks(w: Window, carry: Option<MetricSet>, reason: CloseReason)
    requires carry.Some? ==> Marked(carry.value, reason)
    ensures AllMarked(Opt(Discarded(w, carry)) + Opt(CloseLayer(w, carry, reason).1), reason)
    ensures CloseLayer(w, carry, reason).1.Some? ==> Marked(CloseLayer(w, carry, reason).1.value, reason)
  {
    if carry.Some? {
      IngestMarks(w, carry.value);
    }
    ForceCloseMarks(Carried(w, carry), reason);
  }

  predicate BoundedBuffer(w: Window, partial: bool, strength: nat) {
    w.prebuffer.Some? ==> AtMostMarked(w.prebuffer.value, partial, strength)
  }

  lemma {:induction false} CloseLayerBounds(w: Window, carry: Option<MetricSet>, reason: CloseReason, strength: nat)
    requires BoundedBuffer(w, true, strength) && strength >= Strength(Some(reason))
    requires carry.Some? ==> AtMostMarked(carry.value, true, strength)
    ensures AllAtMost(Opt(Discarded(w, carry)) + Opt(CloseLayer(w, carry, reason).1), true, strength)
    ensures CloseLayer(w, carry, reason).0.prebuffer.None?
    ensures CloseLayer(w, carry, reason).1.Some? ==> AtMostMarked(CloseLayer(w, carry, reason).1.value, true, strength)
  {
    if carry.Some? {
      IngestMarks(w, carry.value);
    }
    ForceCloseMarks(Carried(w, carry), reason);
  }

  // ---------------------------------------------------------------------
  // A close
  // ---------------------------------------------------------------------

  lemma {:induction false} ClosedAtMarked(ws: seq<Window>, k: nat, carry: Option<MetricSet>, reason: CloseReason, j: nat)
    requires k <= j < |ws| && (carry.Some? ==> Marked(carry.value, reason))
    ensures AllMarked(ClosedAt(ws, k, carry, reason, j), reason)
    decreases |ws| - k
  {
    var step := CloseLayer(ws[k], carry, reason);
    CloseLayerMarks(ws[k], carry, reason);
    if k < j {
      ClosedAtMarked(ws[k := step.0], k + 1, step.1, reason, j);
    }
  }

  lemma {:induction false} ClosedAtBounded(ws: seq<Window>, k: nat, carry: Option<MetricSet>, reason: CloseReason, j: nat,
                                           strength: nat)
    requires k <= j < |ws| && strength >= Strength(Some(reason))
    requires forall l :: k <= l < |ws| ==> BoundedBuffer(ws[l], true, strength)
    requires carry.Some? ==> AtMostMarked(carry.value, true, strength)
    ensures AllAtMost(ClosedAt(ws, k, carry, reason, j), true, strength)
    decreases |ws| - k
  {
    var step := CloseLayer(ws[k], carry, reason);
    CloseLayerBounds(ws[k], carry, reason, strength);
    if k < j {
      ClosedAtBounded(ws[k := step.0], k + 1, step.1, reason, j, strength);
    }
  }

  lemma {:induction false} CloseLayerBare(w: Window, carry: Option<MetricSet>, reason: CloseReason)
    ensures CloseLayer(w, carry, reason).0.prebuffer.None?
  {
    ForceCloseMarks(Carried(w, carry), reason);
  }

  /** A close leaves nothing open. */
  lemma {:induction false} CloseBares(ws: seq<Window>, k: nat, carry: Option<MetricSet>, reason: CloseReason)
    ensures EmptyFrom(CloseFrom(ws, k, carry, reason).0, k)
    decreases |ws| - k
  {
    if k < |ws| {
      var step := CloseLayer(ws[k], carry, reason);
      var ws1 := ws[k := step.0];
      var rest := CloseFrom(ws1, k + 1, step.1, reason).0;
      CloseLayerBare(ws[k], carry, reason);
      CloseBares(ws1, k + 1, step.1, reason);
      CloseKeepsBelow(ws1, k + 1, step.1, reason, k);
      EmptyFromNext(rest, k);
      assert CloseFrom(ws, k, carry, reason).0 == rest;
    }
  }

  // ---------------------------------------------------------------------
  // An ingest
  // ---------------------------------------------------------------------

  predicate AllBounded(ws: seq<Window>, partial: bool, strength: nat) {
    forall l :: 0 <= l < |ws| ==> BoundedBuffer(ws[l], partial, strength)
  }

  lemma {:induction false} IngestLayerBounds(w: Window, s: MetricSet, partial: bool, strength: nat)
    requires BoundedBuffer(w, partial, strength) && AtMostMarked(s, partial, strength)
    ensures var (w', closed) := IngestStep(w, s);
      BoundedBuffer(w', partial, strength) && (closed.Some? ==> AtMostMarked(closed.value, partial, strength))
  {
    IngestMarks(w, s);
  }

  lemma {:induction false} IngestBounded(ws: seq<Window>, k: nat, s: MetricSet, partial: bool, strength: nat)
    requires AllBounded(ws, partial, strength) && AtMostMarked(s, partial, strength)
    ensures AllBounded(IngestFrom(ws, k, s).0, partial, strength)
    decreases |ws| - k
  {
    if k < |ws| {
      var (w, closed) := IngestStep(ws[k], s);
      IngestLayerBounds(ws[k], s, partial, strength);
      if closed.Some? {
        IngestBounded(ws[k := w], k + 1, closed.value, partial, strength);
      }
    }
  }

  lemma {:induction false} IngestSealsBounded(ws: seq<Window>, k: nat, s: MetricSet, j: nat, partial: bool, strength: nat)
    requires k <= j < |ws| && AllBounded(ws, partial, strength) && AtMostMarked(s, partial, strength)
    ensures AllAtMost(Pick(IngestFrom(ws, k, s).1, j), partial, strength)
    decreases |ws| - k
  {
    var (w, closed) := IngestStep(ws[k], s);
    var ws1 := ws[k := w];
    IngestLayerBounds(ws[k], s, partial, strength);
    if closed.Some? {
      IngestParts(ws, k, s, j);
      if k == j {
        IngestKeepsBelow(ws1, k + 1, closed.value, j);
        assert Pick(IngestFrom(ws, k, s).1, j) == [closed.value];
      } else {
        IngestSealsBounded(ws1, k + 1, closed.value, j, partial, strength);
        assert Pick(IngestFrom(ws, k, s).1, j) == Pick(IngestFrom(ws1, k + 1, closed.value).1, j);
      }
    }
  }

  // ---------------------------------------------------------------------
  // Runs
  // ---------------------------------------------------------------------

  /** Every ingested snapshot is marked at most this. */
  ghost predicate IngestsAtMost(ops: seq<Op>, partial: bool, strength: nat) {
    forall i :: 0 <= i < |ops| && ops[i].IngestOp? ==> AtMostMarked(ops[i].snapshot, partial, strength)
  }

  /** After any run, what is still open is marked only as much as what was ingested. */
  lemma {:induction false} RunOpenBounded(layers: seq<Duration>, ops: seq<Op>, partial: bool, strength: nat)
    requires IngestsAtMost(ops, partial, strength)
    ensures AllBounded(Run(layers, ops).ws, partial, strength)
  {
    if ops != [] {
      var init, op := ops[..|ops| - 1], ops[|ops| - 1];
      var ws := Run(layers, init).ws;
      match op
      case IngestOp(s) =>
        RunOpenBounded(layers, init, partial, strength);
        IngestBounded(ws, 0, s, partial, strength);
      case CloseOp(reason) => CloseBares(ws, 0, None, reason);
    }
  }

  /** In every run under every plan, each window a close seals at a layer, the discarded ones too,
      is partial and closed for its reason or a stronger one, and no more strongly than that reason
      and what was ingested. */
  lemma {:induction false} CloseSealsMarked(layers: seq<Duration>, ops: seq<Op>, reason: CloseReason, j: nat, strength: nat)
    requires j < |layers| && IngestsAtMost(ops, true, strength)
    ensures var sealed := StepSeals(Run(layers, ops), CloseOp(reason), j);
      AllMarked(sealed, reason) && AllAtMost(sealed, true, Max(strength, Strength(Some(reason))))
  {
    var p := Run(layers, ops);
    ClosedAtMarked(p.ws, 0, None, reason, j);
    RunOpenBounded(layers, ops, true, strength);
    ClosedAtBounded(p.ws, 0, None, reason, j, Max(strength, Strength(Some(reason))));
  }

  /** In every run under every plan, a window an ingest seals is marked only as much as something
      ingested: whatever was closed before, for whatever reason. */
  lemma {:induction false} IngestSealsUnmarked(layers: seq<Duration>, ops: seq<Op>, s: MetricSet, j: nat, partial: bool,
                                               strength: nat)
    requires j < |layers| && IngestsAtMost(ops, partial, strength) && AtMostMarked(s, partial, strength)
    ensures AllAtMost(StepSeals(Run(layers, ops), IngestOp(s), j), partial, strength)
  {
    RunOpenBounded(layers, ops, partial, strength);
    IngestSealsBounded(Run(layers, ops).ws, 0, s, j, partial, strength);
  }
}
