/** Every window stays well typed: what a run's windows hold open, latest and in their rings fits
    the signature everything ingested fits, under every plan. */
module WellTyped {
  import opened Wrappers
  import opened Keyed
  import opened Snapshot
  import opened Windows
  import opened Cascade
  import opened Runs

  ghost predicate Typed(w: Window, sig: Signature) {
    (w.prebuffer.Some? ==> Fits(w.prebuffer.value, sig)) && (w.latest.Some? ==> Fits(w.latest.value, sig)) &&
    AllFit(w.ring, sig)
  }

  ghost predicate AllTyped(ws: seq<Window>, sig: Signature) {
    forall k :: 0 <= k < |ws| ==> Typed(ws[k], sig)
  }

  // ---------------------------------------------------------------------
  // Stripping and eviction
  // ---------------------------------------------------------------------

  lemma {:induction false} DropKeepsDistinct(families: seq<Entry<string, Family>>)
    requires Distinct(families)
    ensures Distinct(DropDistributions(families))
  {
    if families != [] {
      DropKeepsDistinct(families[1..]);
      var rest := DropDistributions(families[1..]);
      forall i | 0 <= i < |rest|
        ensures rest[i].key != families[0].key
      {
        StripKeepsOthers(families[1..], rest[i]);
        var j :| 0 <= j < |families[1..]| && families[1..][j] == rest[i];
        assert families[j + 1].key != families[0].key;
      }
    }
  }

  lemma {:induction false} StripFits(w: MetricSet, sig: Signature)
    requires Fits(w, sig)
    ensures Fits(WithoutDistributions(w), sig)
  {
    var kept := DropDistributions(w.families);
    DropKeepsDistinct(w.families);
    forall i | 0 <= i < |kept|
      ensures FitsFamily(kept[i].val, sig(kept[i].key))
    {
      StripKeepsOthers(w.families, kept[i]);
      var j :| 0 <= j < |w.families| && w.families[j] == kept[i];
    }
  }

  lemma {:induction false} StripOlderFits(ring: seq<MetricSet>, cutoff: Instant, sig: Signature)
    requires AllFit(ring, sig)
    ensures AllFit(StripOlder(ring, cutoff), sig)
  {
    if ring != [] && ring[0].capturedAt < cutoff {
      StripFits(ring[0], sig);
      StripOlderFits(ring[1..], cutoff, sig);
    }
  }

  lemma {:induction false} DropOlderFits(ring: seq<MetricSet>, cutoff: Instant, sig: Signature)
    requires AllFit(ring, sig)
    ensures AllFit(DropOlder(ring, cutoff), sig)
  {
    if ring != [] && ring[0].capturedAt < cutoff {
      DropOlderFits(ring[1..], cutoff, sig);
    }
  }

  lemma {:induction false} DropExpiredFits(ring: seq<MetricSet>, newest: Instant, retain: Duration, sig: Signature)
    requires AllFit(ring, sig)
    ensures AllFit(DropExpired(ring, newest, retain), sig)
  {
    if newest >= retain {
      DropOlderFits(ring, newest - retain, sig);
    }
  }

  lemma {:induction false} CompactedFits(ring: seq<MetricSet>, newest: Instant, retain: Duration, histRetain: Duration,
                                         sig: Signature)
    requires AllFit(ring, sig)
    ensures AllFit(Compacted(ring, newest, retain, histRetain), sig)
  {
    if newest >= histRetain {
      StripOlderFits(ring, newest - histRetain, sig);
    }
  }

  lemma {:induction false} NewestFit(ring: seq<MetricSet>, cap: nat, sig: Signature)
    requires AllFit(ring, sig)
    ensures AllFit(KeepNewest(ring, cap), sig)
  {
  }

  lemma {:induction false} EvictFits(ring: seq<MetricSet>, retain: Duration, histRetain: Duration, sig: Signature)
    requires AllFit(ring, sig)
    ensures AllFit(Evict(ring, retain, histRetain), sig)
  {
    if ring != [] {
      var newest := ring[|ring| - 1].capturedAt;
      var kept := DropExpired(ring, newest, retain);
      DropExpiredFits(ring, newest, retain, sig);
      CompactedFits(kept, newest, retain, histRetain, sig);
      NewestFit(Compacted(kept, newest, retain, histRetain), HARD_RING_CAP, sig);
    }
  }

  // ---------------------------------------------------------------------
  // Steps
  // ---------------------------------------------------------------------

  lemma {:induction false} PublishTyped(w: Window, closed: MetricSet, sig: Signature)
    requires Typed(w, sig) && Fits(closed, sig)
    ensures Typed(Publish(w, closed), sig)
  {
    EvictFits(w.ring + [closed], w.retain, w.histRetain, sig);
  }

  lemma {:induction false} IngestTyped(w: Window, s: MetricSet, sig: Signature)
    requires Typed(w, sig) && Fits(s, sig)
    ensures var (w', closed) := IngestStep(w, s); Typed(w', sig) && (closed.Some? ==> Fits(closed.value, sig))
  {
    if w.prebuffer.Some? {
      MergeFits(w.prebuffer.value, s, Coalescing, sig);
    }
    if w.accumulated + s.interval >= w.cadence {
      PublishTyped(w, Restamp(Folded(w.prebuffer, s), w.cadence), sig);
    }
  }

  lemma {:induction false} ForceCloseTyped(w: Window, reason: CloseReason, sig: Signature)
    requires Typed(w, sig)
    ensures var (w', closed) := ForceCloseStep(w, reason); Typed(w', sig) && (closed.Some? ==> Fits(closed.value, sig))
  {
    if w.prebuffer.Some? && w.prebuffer.value.families != [] {
      PublishTyped(w, Mark(w.prebuffer.value, reason), sig);
    }
  }

  lemma {:induction false} CloseLayerTyped(w: Window, carry: Option<MetricSet>, reason: CloseReason, sig: Signature)
    requires Typed(w, sig) && (carry.Some? ==> Fits(carry.value, sig))
    ensures var (w', closed) := CloseLayer(w, carry, reason); Typed(w', sig) && (closed.Some? ==> Fits(closed.value, sig))
  {
    if carry.Some? {
      IngestTyped(w, carry.value, sig);
    }
    ForceCloseTyped(Carried(w, carry), reason, sig);
  }

  lemma {:induction false} IngestFromTyped(ws: seq<Window>, k: nat, s: MetricSet, sig: Signature)
    requires AllTyped(ws, sig) && Fits(s, sig)
    ensures AllTyped(IngestFrom(ws, k, s).0, sig)
    decreases |ws| - k
  {
    if k < |ws| {
      var (w, closed) := IngestStep(ws[k], s);
      IngestTyped(ws[k], s, sig);
      if closed.Some? {
        IngestFromTyped(ws[k := w], k + 1, closed.value, sig);
      }
    }
  }

  lemma {:induction false} CloseFromTyped(ws: seq<Window>, k: nat, carry: Option<MetricSet>, reason: CloseReason, sig: Signature)
    requires AllTyped(ws, sig) && (carry.Some? ==> Fits(carry.value, sig))
    ensures AllTyped(CloseFrom(ws, k, carry, reason).0, sig)
    decreases |ws| - k
  {
    if k < |ws| {
      var (w, sealed) := CloseLayer(ws[k], carry, reason);
      CloseLayerTyped(ws[k], carry, reason, sig);
      CloseFromTyped(ws[k := w], k + 1, sealed, reason, sig);
    }
  }

  /** What is ingested is well typed. */
  ghost predicate IngestsFit(ops: seq<Op>, sig: Signature) {
    forall i :: 0 <= i < |ops| && ops[i].IngestOp? ==> Fits(ops[i].snapshot, sig)
  }

  /** In every run under every plan all windows are well typed, whatever they hold. */
  lemma {:induction false} RunTyped(layers: seq<Duration>, ops: seq<Op>, sig: Signature)
    requires IngestsFit(ops, sig)
    ensures AllTyped(Run(layers, ops).ws, sig)
  {
    if ops != [] {
      var n := |ops| - 1;
      assert forall i :: 0 <= i < n ==> ops[..n][i] == ops[i];
      RunTyped(layers, ops[..n], sig);
      var ws := Run(layers, ops[..n]).ws;
      match ops[n]
      case IngestOp(s) => IngestFromTyped(ws, 0, s, sig);
      case CloseOp(reason) => CloseFromTyped(ws, 0, None, reason, sig);
    }
  }
}
