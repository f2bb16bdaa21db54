/** One component path at one cadence: the in-flight prebuffer, the latest sealed
    window and the time-bounded ring of past windows. */
module Windows {
  import opened Wrappers
  import opened Snapshot
  import opened CoalesceLoops

  const HISTORY_RING_CAP := 32
  const COUNTER_RETAIN_FLOOR: Duration := 60 * SECOND
  const HARD_RING_CAP := 200_000
  const DURATION_MAX: Duration := U64_MAX * SECOND + (SECOND - 1)

  /** The value of a window: everything the object below holds. */
  datatype Window = Window(cadence: Duration, accumulated: Duration, prebuffer: Option<MetricSet>,
                           latest: Option<MetricSet>, ring: seq<MetricSet>,
                           retain: Duration, histRetain: Duration)

  function HistRetain(cadence: Duration): Duration {
    Min(cadence * HISTORY_RING_CAP, DURATION_MAX)
  }

  function Fresh(cadence: Duration): Window {
    Window(cadence, 0, None, None, [],
           Max(COUNTER_RETAIN_FLOOR, HistRetain(cadence)), HistRetain(cadence))
  }

  // ---------------------------------------------------------------------
  // Retention, as the code's three passes
  // ---------------------------------------------------------------------

  function DropOlder(ring: seq<MetricSet>, cutoff: Instant): seq<MetricSet> {
    if ring != [] && ring[0].capturedAt < cutoff then DropOlder(ring[1..], cutoff) else ring
  }

  /** Strip windows from the front until one is at or past the cutoff. */
  function StripOlder(ring: seq<MetricSet>, cutoff: Instant): seq<MetricSet> {
    if ring == [] || ring[0].capturedAt >= cutoff then ring
    else [Stripped(ring[0])] + StripOlder(ring[1..], cutoff)
  }

  function Stripped(w: MetricSet): MetricSet {
    if HasDistributions(w) then WithoutDistributions(w) else w
  }

  function KeepNewest(ring: seq<MetricSet>, cap: nat): seq<MetricSet> {
    if |ring| <= cap then ring else ring[|ring| - cap..]
  }

  /** Whole windows past the counter horizon go. */
  function DropExpired(ring: seq<MetricSet>, newest: Instant, retain: Duration): seq<MetricSet> {
    if newest >= retain then DropOlder(ring, newest - retain) else ring
  }

  /** Windows past the shorter distribution horizon lose their distributions. */
  function Compacted(ring: seq<MetricSet>, newest: Instant, retain: Duration, histRetain: Duration): seq<MetricSet> {
    if retain > histRetain && newest >= histRetain then StripOlder(ring, newest - histRetain) else ring
  }

  function Evict(ring: seq<MetricSet>, retain: Duration, histRetain: Duration): seq<MetricSet> {
    if ring == [] then ring
    else
      var newest := ring[|ring| - 1].capturedAt;
      KeepNewest(Compacted(DropExpired(ring, newest, retain), newest, retain, histRetain), HARD_RING_CAP)
  }

  // ---------------------------------------------------------------------
  // Steps
  // ---------------------------------------------------------------------

  function Publish(w: Window, closed: MetricSet): Window {
    w.(accumulated := 0, prebuffer := None, latest := Some(closed),
       ring := Evict(w.ring + [closed], w.retain, w.histRetain))
  }

  function Folded(prebuffer: Option<MetricSet>, s: MetricSet): MetricSet {
    if prebuffer.None? then s else MergeSets(prebuffer.value, s, Coalescing)
  }

  function Restamp(s: MetricSet, interval: Duration): MetricSet {
    s.(interval := interval)
  }

  /** `ingest`: fold a snapshot in; seal and return the window once it is full. */
  function IngestStep(w: Window, s: MetricSet): (Window, Option<MetricSet>) {
    var buffer := Folded(w.prebuffer, s);
    if w.accumulated + s.interval >= w.cadence then
      var closed := Restamp(buffer, w.cadence);
      (Publish(w, closed), Some(closed))
    else
      (w.(accumulated := w.accumulated + s.interval, prebuffer := Some(buffer)), None)
  }

  /** `force_close`: seal whatever has accumulated. A prebuffer without families is
      dropped and the accumulated time is left as it was. */
  function ForceCloseStep(w: Window, reason: CloseReason): (Window, Option<MetricSet>) {
    if w.prebuffer.None? then (w, None)
    else if w.prebuffer.value.families == [] then (w.(prebuffer := None), None)
    else
      var closed := Mark(w.prebuffer.value, reason);
      (Publish(w, closed), Some(closed))
  }

  /** `StripOlder`, position by position: the leading `n` old windows are stripped. */
  lemma {:induction false} StripOlderAt(ring: seq<MetricSet>, cutoff: Instant, n: nat, out: seq<MetricSet>)
    requires n <= |ring| == |out|
    requires forall j :: 0 <= j < n ==> ring[j].capturedAt < cutoff && out[j] == Stripped(ring[j])
    requires forall j :: n <= j < |ring| ==> out[j] == ring[j]
    requires n < |ring| ==> ring[n].capturedAt >= cutoff
    ensures out == StripOlder(ring, cutoff)
  {
    if n > 0 {
      StripOlderAt(ring[1..], cutoff, n - 1, out[1..]);
      assert out == [out[0]] + out[1..];
    } else {
      assert out == ring;
    }
  }

  // ---------------------------------------------------------------------
  // The object
  // ---------------------------------------------------------------------

  class CadenceWindow {
    const cadence: Duration
    const retain: Duration
    const histRetain: Duration
    var accumulated: Duration
    var prebuffer: Option<MetricSet>
    var latest: Option<MetricSet>
    var ring: seq<MetricSet>

    function State(): Window
      reads this
    {
      Window(cadence, accumulated, prebuffer, latest, ring, retain, histRetain)
    }

    constructor (cadence: Duration)
      ensures State() == Fresh(cadence)
    {
      this.cadence := cadence;
      histRetain := HistRetain(cadence);
      retain := Max(COUNTER_RETAIN_FLOOR, HistRetain(cadence));
      accumulated, prebuffer, latest, ring := 0, None, None, [];
    }

    method DropOlderThan(cutoff: Instant)
      modifies this`ring
      ensures ring == DropOlder(old(ring), cutoff)
    {
      while ring != [] && ring[0].capturedAt < cutoff
        invariant DropOlder(ring, cutoff) == DropOlder(old(ring), cutoff)
        decreases |ring|
      {
        ring := ring[1..];
      }
    }

    method StripOlderThan(cutoff: Instant)
      modifies this`ring
      ensures ring == StripOlder(old(ring), cutoff)
    {
      ghost var before := ring;
      var i := 0;
      while i < |ring|
        invariant 0 <= i <= |ring| == |before|
        invariant forall j :: 0 <= j < i ==> before[j].capturedAt < cutoff && ring[j] == Stripped(before[j])
        invariant forall j :: i <= j < |ring| ==> ring[j] == before[j]
      {
        if ring[i].capturedAt >= cutoff {
          break;
        }
        if HasDistributions(ring[i]) {
          ring := ring[i := WithoutDistributions(ring[i])];
        }
        i := i + 1;
      }
      StripOlderAt(before, cutoff, i, ring);
    }

    method EnforceCap()
      modifies this`ring
      ensures ring == KeepNewest(old(ring), HARD_RING_CAP)
    {
      while |ring| > HARD_RING_CAP
        invariant |ring| <= |old(ring)| && ring == old(ring)[|old(ring)| - |ring|..]
        invariant |ring| < |old(ring)| ==> |ring| >= HARD_RING_CAP
        decreases |ring|
      {
        ring := ring[1..];
      }
    }

    method EvictAndCompact()
      modifies this`ring
      ensures ring == Evict(old(ring), retain, histRetain)
    {
      if ring == [] {
        return;
      }
      var newest := ring[|ring| - 1].capturedAt;
      // 1. Whole windows past the counter horizon.
      if newest >= retain {
        DropOlderThan(newest - retain);
      }
      assert ring == DropExpired(old(ring), newest, retain);
      // 2. Distributions past their shorter horizon.
      if retain > histRetain && newest >= histRetain {
        StripOlderThan(newest - histRetain);
      }
      assert ring == Compacted(DropExpired(old(ring), newest, retain), newest, retain, histRetain);
      // 3. Backstop.
      EnforceCap();
    }

    method Ingest(s: MetricSet, ghost sig: Signature) returns (closed: Option<MetricSet>)
      requires Fits(s, sig) && (prebuffer.Some? ==> Fits(prebuffer.value, sig))
      modifies this
      ensures (State(), closed) == IngestStep(old(State()), s)
      // Full or not, the prebuffer and the snapshot are coalesced; a full one is sealed.
      ensures var buffer := if old(prebuffer).None? then s else Coalesce([old(prebuffer).value, s], Coalescing, 0);
        var total := old(accumulated) + s.interval;
        if total >= cadence then
          closed == Some(buffer.(interval := cadence)) && latest == closed && prebuffer == None && accumulated == 0 &&
          ring == Evict(old(ring) + [closed.value], retain, histRetain)
        else
          closed == None && prebuffer == Some(buffer) && accumulated == total && latest == old(latest) && ring == old(ring)
    {
      accumulated := accumulated + s.interval;
      if prebuffer.None? {
        prebuffer := Some(s);
      } else {
        var merged := CoalesceWithMode([prebuffer.value, s], Coalescing, 0, sig);
        CoalesceSnoc([prebuffer.value], s, Coalescing, 0);
        assert [prebuffer.value] + [s] == [prebuffer.value, s];
        prebuffer := Some(merged);
      }
      if accumulated >= cadence {
        var sealed := Restamp(prebuffer.value, cadence);
        prebuffer := None;
        latest := Some(sealed);
        ring := ring + [sealed];
        EvictAndCompact();
        accumulated := 0;
        closed := Some(sealed);
      } else {
        closed := None;
      }
    }

    method ForceClose(reason: CloseReason) returns (closed: Option<MetricSet>)
      modifies this
      ensures (State(), closed) == ForceCloseStep(old(State()), reason)
      // What is sealed is the prebuffer, partial, with the stronger of the two reasons.
      ensures closed.Some? <==> old(prebuffer).Some? && old(prebuffer).value.families != []
      ensures closed.Some? ==>
                closed.value.partial && IsStronger(closed.value.close, Some(reason), old(prebuffer).value.close) &&
                closed.value.(partial := old(prebuffer).value.partial, close := old(prebuffer).value.close) ==
                old(prebuffer).value &&
                latest == closed && accumulated == 0 && ring == Evict(old(ring) + [closed.value], retain, histRetain)
      ensures closed.None? ==> latest == old(latest) && accumulated == old(accumulated) && ring == old(ring)
      ensures prebuffer == None
    {
      if prebuffer.None? {
        return None;
      }
      var buffer := prebuffer.value;
      prebuffer := None;
      if buffer.families == [] {
        return None;
      }
      var sealed := Mark(buffer, reason);
      latest := Some(sealed);
      ring := ring + [sealed];
      EvictAndCompact();
      accumulated := 0;
      closed := Some(sealed);
    }
  }
}
