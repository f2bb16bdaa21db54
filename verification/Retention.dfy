/** The ring maintained one window at a time equals the ring recomputed from the whole
    sealed history. */
module Retention {
  import opened Wrappers
  import opened Snapshot
  import opened Windows

  ghost predicate Ordered(log: seq<MetricSet>) {
    forall i, j :: 0 <= i <= j < |log| ==> log[i].capturedAt <= log[j].capturedAt
  }

  /** Index of the first window, from `i` on, that is at most `span` older than `newest`. */
  ghost function FirstWithin(log: seq<MetricSet>, i: nat, newest: Instant, span: Duration): (n: nat)
    requires i <= |log|
    ensures i <= n <= |log|
    ensures forall j :: i <= j < n ==> log[j].capturedAt + span < newest
    ensures n < |log| ==> log[n].capturedAt + span >= newest
    decreases |log| - i
  {
    if i < |log| && log[i].capturedAt + span < newest then FirstWithin(log, i + 1, newest, span) else i
  }

  /** How many leading windows are more than `span` older than `newest`. */
  ghost function OlderCount(log: seq<MetricSet>, newest: Instant, span: Duration): (n: nat)
    ensures n <= |log|
    ensures forall j :: 0 <= j < n ==> log[j].capturedAt + span < newest
    ensures n < |log| ==> log[n].capturedAt + span >= newest
  {
    FirstWithin(log, 0, newest, span)
  }

  ghost function Aged(w: MetricSet, newest: Instant, histRetain: Duration): MetricSet {
    if w.capturedAt + histRetain < newest then WithoutDistributions(w) else w
  }

  ghost function AgedAll(s: seq<MetricSet>, newest: Instant, histRetain: Duration): (r: seq<MetricSet>)
    ensures |r| == |s| && forall i :: 0 <= i < |s| ==> r[i] == Aged(s[i], newest, histRetain)
  {
    seq(|s|, i requires 0 <= i < |s| => Aged(s[i], newest, histRetain))
  }

  ghost function RingStart(log: seq<MetricSet>, retain: Duration): (n: nat)
    requires log != []
    ensures n <= |log|
  {
    Max(OlderCount(log, log[|log| - 1].capturedAt, retain), |log| - HARD_RING_CAP)
  }

  /** What the ring should hold: the newest windows that lie within `retain` of the last
      one, at most the hard cap of them, without distributions where they are older
      than `histRetain`. */
  ghost function RingOf(log: seq<MetricSet>, retain: Duration, histRetain: Duration): seq<MetricSet> {
    if log == [] then []
    else AgedAll(log[RingStart(log, retain)..], log[|log| - 1].capturedAt, histRetain)
  }

  /** `ring` is `base`, stripped at most where `newest` leaves a window too old. */
  ghost predicate Stripping(ring: seq<MetricSet>, base: seq<MetricSet>, newest: Instant, histRetain: Duration) {
    |ring| == |base| &&
    forall i :: 0 <= i < |ring| ==>
      ring[i] == base[i] || (ring[i] == WithoutDistributions(base[i]) && base[i].capturedAt + histRetain < newest)
  }

  lemma {:induction false} DropOlderAt(ring: seq<MetricSet>, cutoff: Instant, n: nat)
    requires n <= |ring|
    requires forall i :: 0 <= i < n ==> ring[i].capturedAt < cutoff
    requires n < |ring| ==> ring[n].capturedAt >= cutoff
    ensures DropOlder(ring, cutoff) == ring[n..]
  {
    if n > 0 {
      DropOlderAt(ring[1..], cutoff, n - 1);
    }
  }

  /** First pass: the windows past the horizon go, and no others. */
  lemma {:induction false} DropPass(ring: seq<MetricSet>, base: seq<MetricSet>, newest: Instant, retain: Duration, histRetain: Duration)
    requires Stripping(ring, base, newest, histRetain)
    ensures var n := OlderCount(base, newest, retain);
      DropExpired(ring, newest, retain) == ring[n..]
      && Stripping(ring[n..], base[n..], newest, histRetain)
  {
    if newest >= retain {
      DropOlderAt(ring, newest - retain, OlderCount(base, newest, retain));
    }
  }

  /** Second pass: what is left ends up stripped exactly where it is too old. */
  lemma {:induction false} StripPass(ring: seq<MetricSet>, base: seq<MetricSet>, newest: Instant, retain: Duration, histRetain: Duration)
    requires Ordered(base) && histRetain <= retain && Stripping(ring, base, newest, histRetain)
    requires base != [] ==> base[0].capturedAt + retain >= newest
    ensures Compacted(ring, newest, retain, histRetain) == AgedAll(base, newest, histRetain)
  {
    var n := OlderCount(base, newest, histRetain);
    var aged := AgedAll(base, newest, histRetain);
    forall i | 0 <= i < |base|
      ensures i < n ==> aged[i] == Stripped(ring[i])
      ensures i >= n ==> aged[i] == ring[i] == base[i]
    {
      StripIdempotent(base[i]);
      assert i >= n ==> base[n].capturedAt <= base[i].capturedAt;
    }
    if retain > histRetain && newest >= histRetain {
      StripOlderAt(ring, newest - histRetain, n, aged);
    } else {
      assert n == 0;
      assert aged == ring;
    }
  }

  lemma {:induction false} SuffixOfSuffix<T>(s: seq<T>, a: nat, b: nat)
    requires a + b <= |s|
    ensures s[a..][b..] == s[a + b..]
  {
  }

  lemma {:induction false} OlderCountSuffix(log: seq<MetricSet>, newest: Instant, span: Duration, start: nat)
    requires start <= |log| && Ordered(log)
    ensures start + OlderCount(log[start..], newest, span) == Max(start, OlderCount(log, newest, span))
    ensures log[start..][OlderCount(log[start..], newest, span)..] == log[Max(start, OlderCount(log, newest, span))..]
  {
    var n, m := OlderCount(log, newest, span), OlderCount(log[start..], newest, span);
    assert forall i :: 0 <= i < |log| - start ==> log[start..][i] == log[start + i];
    assert start + m == Max(start, n);
    SuffixOfSuffix(log, start, m);
  }

  /** The window the ring starts at only ever moves forward. */
  lemma {:induction false} StartAdvances(log: seq<MetricSet>, x: MetricSet, retain: Duration)
    requires log != [] && Ordered(log + [x])
    ensures RingStart(log, retain) <= RingStart(log + [x], retain)
  {
    var all := log + [x];
    assert all[|log| - 1].capturedAt <= all[|log|].capturedAt;
  }

  lemma {:induction false} RingIsStripping(log: seq<MetricSet>, x: MetricSet, retain: Duration, histRetain: Duration)
    requires Ordered(log + [x])
    ensures var start := if log == [] then 0 else RingStart(log, retain);
      Stripping(RingOf(log, retain, histRetain) + [x], (log + [x])[start..], x.capturedAt, histRetain)
  {
    var all := log + [x];
    if log != [] {
      assert all[|log| - 1].capturedAt <= all[|log|].capturedAt;
      assert all[RingStart(log, retain)..] == log[RingStart(log, retain)..] + [x];
    }
  }

  lemma {:induction false} KeepFrom(all: seq<MetricSet>, from_: nat, cap: nat)
    requires from_ <= |all|
    ensures KeepNewest(all[from_..], cap) == all[Max(from_, |all| - cap)..]
  {
  }

  /** Where the ring starts after one more window, from where it started before. */
  lemma {:induction false} StartAfterCap(log: seq<MetricSet>, x: MetricSet, retain: Duration)
    requires Ordered(log + [x])
    ensures var start, all := if log == [] then 0 else RingStart(log, retain), log + [x];
      KeepNewest(all[Max(start, OlderCount(all, x.capturedAt, retain))..], HARD_RING_CAP)
      == all[RingStart(all, retain)..]
  {
    var start, all := if log == [] then 0 else RingStart(log, retain), log + [x];
    assert start <= RingStart(all, retain) by {
      if log != [] {
        StartAdvances(log, x, retain);
      }
    }
    KeepFrom(all, Max(start, OlderCount(all, x.capturedAt, retain)), HARD_RING_CAP);
  }

  lemma {:induction false} CapPass(base: seq<MetricSet>, newest: Instant, histRetain: Duration)
    ensures KeepNewest(AgedAll(base, newest, histRetain), HARD_RING_CAP)
            == AgedAll(KeepNewest(base, HARD_RING_CAP), newest, histRetain)
  {
  }

  /** The three passes on a ring that lags behind its base. */
  lemma {:induction false} EvictPasses(ring: seq<MetricSet>, base: seq<MetricSet>, newest: Instant, retain: Duration, histRetain: Duration)
    requires ring != [] && ring[|ring| - 1].capturedAt == newest
    requires Ordered(base) && histRetain <= retain && Stripping(ring, base, newest, histRetain)
    ensures Evict(ring, retain, histRetain)
            == AgedAll(KeepNewest(base[OlderCount(base, newest, retain)..], HARD_RING_CAP), newest, histRetain)
  {
    var n := OlderCount(base, newest, retain);
    var kept, young := ring[n..], base[n..];
    DropPass(ring, base, newest, retain, histRetain);
    assert Ordered(young) && (young != [] ==> young[0] == base[n]);
    StripPass(kept, young, newest, retain, histRetain);
    CapPass(young, newest, histRetain);
  }

  /** The part of the history the ring reaches back to, cut as the first and last pass cut it. */
  lemma {:induction false} BaseCut(log: seq<MetricSet>, x: MetricSet, retain: Duration)
    requires Ordered(log + [x])
    ensures var start, all := if log == [] then 0 else RingStart(log, retain), log + [x];
      var base := all[start..];
      Ordered(base)
      && KeepNewest(base[OlderCount(base, x.capturedAt, retain)..], HARD_RING_CAP) == all[RingStart(all, retain)..]
  {
    var start, all := if log == [] then 0 else RingStart(log, retain), log + [x];
    OlderCountSuffix(all, x.capturedAt, retain, start);
    StartAfterCap(log, x, retain);
  }

  /** One more sealed window: evicting from the maintained ring gives the recomputed one. */
  lemma {:induction false} RingRefinesHistory(log: seq<MetricSet>, x: MetricSet, retain: Duration, histRetain: Duration)
    requires Ordered(log + [x]) && histRetain <= retain
    ensures Evict(RingOf(log, retain, histRetain) + [x], retain, histRetain) == RingOf(log + [x], retain, histRetain)
  {
    var start := if log == [] then 0 else RingStart(log, retain);
    BaseCut(log, x, retain);
    RingIsStripping(log, x, retain, histRetain);
    EvictPasses(RingOf(log, retain, histRetain) + [x], (log + [x])[start..], x.capturedAt, retain, histRetain);
  }
}
