/** What coalescing comes to, field by field, without reference to how it is folded. */
module CoalesceFacts {
  import opened Wrappers
  import opened Keyed
  import opened Snapshot
  import opened Series

  // ---------------------------------------------------------------------
  // The snapshot's own fields
  // ---------------------------------------------------------------------

  function SumIntervals(snaps: seq<MetricSet>): Duration {
    if snaps == [] then 0 else SumIntervals(snaps[..|snaps| - 1]) + snaps[|snaps| - 1].interval
  }

  ghost predicate IsNewest(at: Instant, snaps: seq<MetricSet>) {
    (exists i :: 0 <= i < |snaps| && snaps[i].capturedAt == at) &&
    forall i :: 0 <= i < |snaps| ==> snaps[i].capturedAt <= at
  }

  ghost predicate IsStrongest(close: Option<CloseReason>, snaps: seq<MetricSet>) {
    (exists i :: 0 <= i < |snaps| && snaps[i].close == close) &&
    forall i :: 0 <= i < |snaps| ==> Strength(snaps[i].close) <= Strength(close)
  }

  ghost predicate AnyPartial(snaps: seq<MetricSet>) {
    exists i :: 0 <= i < |snaps| && snaps[i].partial
  }

  lemma {:induction false} CoalescedHeader(snaps: seq<MetricSet>, mode: CombineMode, now: Instant)
    requires snaps != []
    ensures var c := Coalesce(snaps, mode, now);
      IsNewest(c.capturedAt, snaps) && c.interval == SumIntervals(snaps) &&
      (c.partial <==> AnyPartial(snaps)) && IsStrongest(c.close, snaps) && (|snaps| > 1 ==> c.scheduled.None?)
  {
    var n := |snaps| - 1;
    var init, last := snaps[..n], snaps[n];
    if n > 0 {
      CoalescedHeader(init, mode, now);
      assert forall i :: 0 <= i < n ==> init[i] == snaps[i];
      OneMore(init, last, Coalesce(init, mode, now), snaps);
    } else {
      assert SumIntervals(snaps[..0]) == 0;
    }
  }

  lemma {:induction false} OneMore(init: seq<MetricSet>, last: MetricSet, c: MetricSet, all: seq<MetricSet>)
    requires all == init + [last]
    requires IsNewest(c.capturedAt, init) && (c.partial <==> AnyPartial(init)) && IsStrongest(c.close, init)
    ensures IsNewest(Max(c.capturedAt, last.capturedAt), all)
    ensures c.partial || last.partial <==> AnyPartial(all)
    ensures IsStrongest(Strongest(c.close, last.close), all)
  {
    var n := |init|;
    assert all[n] == last && forall i :: 0 <= i < n ==> all[i] == init[i];
  }

  /** Family names are in the order they are first seen. */
  lemma {:induction false} CoalescedNames(snaps: seq<MetricSet>, s: MetricSet, mode: CombineMode, now: Instant, sig: Signature)
    requires snaps != [] && AllFit(snaps, sig) && Fits(s, sig)
    ensures var before, after := Coalesce(snaps, mode, now), Coalesce(snaps + [s], mode, now);
      Keys(after.families) == Keys(before.families) + Fresh(Keys(s.families), Keys(before.families))
  {
    CoalesceFits(snaps, mode, now, sig);
    CoalesceSnoc(snaps, s, mode, now);
    MergeKeys(Coalesce(snaps, mode, now).families, s.families, FamilyOp(mode));
  }

  /** The first snapshot that has the family says what type, unit and help it has. */
  function FirstFamily(snaps: seq<MetricSet>, name: string): Option<Family> {
    if snaps == [] then None
    else
      var before := FirstFamily(snaps[..|snaps| - 1], name);
      if before.Some? then before else Lookup(snaps[|snaps| - 1].families, name)
  }

  /** Both or neither there, with the same type, unit and help. */
  predicate SameDescriptor(f: Option<Family>, g: Option<Family>) {
    (f.Some? <==> g.Some?) &&
    (f.Some? ==> f.value.kind == g.value.kind && f.value.unit == g.value.unit && f.value.help == g.value.help)
  }

  lemma {:induction false} MergedDescriptor(a: seq<Entry<string, Family>>, b: seq<Entry<string, Family>>, mode: CombineMode,
                                            name: string)
    requires Distinct(a) && Distinct(b)
    ensures SameDescriptor(Lookup(Merge(a, b, FamilyOp(mode)), name),
                           if Lookup(a, name).Some? then Lookup(a, name) else Lookup(b, name))
  {
    MergeLookup(a, b, FamilyOp(mode), name);
  }

  lemma {:induction false} CoalescedDescriptors(snaps: seq<MetricSet>, mode: CombineMode, now: Instant, sig: Signature, name: string)
    requires snaps != [] && AllFit(snaps, sig)
    ensures SameDescriptor(Lookup(Coalesce(snaps, mode, now).families, name), FirstFamily(snaps, name))
  {
    var init, s := snaps[..|snaps| - 1], snaps[|snaps| - 1];
    if init != [] {
      CoalescedDescriptors(init, mode, now, sig, name);
      CoalesceFits(init, mode, now, sig);
      CoalesceSnoc(init, s, mode, now);
      assert init + [s] == snaps;
      MergedDescriptor(Coalesce(init, mode, now).families, s.families, mode, name);
    }
  }

  /** Within a family the series are in the order they are first seen. */
  lemma {:induction false} CoalescedSeries(snaps: seq<MetricSet>, s: MetricSet, mode: CombineMode, now: Instant, sig: Signature,
                                           name: string)
    requires snaps != [] && AllFit(snaps, sig) && Fits(s, sig)
    requires Lookup(Coalesce(snaps, mode, now).families, name).Some? && Lookup(s.families, name).Some?
    ensures var before, more := Lookup(Coalesce(snaps, mode, now).families, name), Lookup(s.families, name);
      var after := Lookup(Coalesce(snaps + [s], mode, now).families, name);
      after.Some? &&
      Keys(after.value.metrics) ==
      Keys(before.value.metrics) + Fresh(Keys(more.value.metrics), Keys(before.value.metrics))
  {
    var a := Coalesce(snaps, mode, now);
    CoalesceFits(snaps, mode, now, sig);
    CoalesceSnoc(snaps, s, mode, now);
    MergeLookup(a.families, s.families, FamilyOp(mode), name);
    MergeKeys(Lookup(a.families, name).value.metrics, Lookup(s.families, name).value.metrics, PointOp(mode));
  }

  // ---------------------------------------------------------------------
  // A series' points
  // ---------------------------------------------------------------------

  /** A gauge shows the newest reading, whether folded over time or across components. */
  lemma {:induction false} FoldedGauge(ps: seq<Point>, mode: CombineMode)
    requires ps != [] && AllPointsFit(ps, GaugeShape)
    ensures FoldPoints(ps, mode).value == ps[NewestIndex(ps)].value &&
            FoldPoints(ps, mode).timestamp == ps[NewestIndex(ps)].timestamp
  {
    var n := |ps| - 1;
    if n > 0 {
      FoldedGauge(ps[..n], mode);
    }
  }

  function CreatedAt(v: Value): Option<Instant> {
    match v
    case Counter(_, created) => created
    case Histogram(_, _, created) => created
    case Bucketed(_, _, _, created) => created
    case _ => None
  }

  /** The creation time is the earliest any point has. */
  lemma {:induction false} FoldedCreated(ps: seq<Point>, mode: CombineMode, shape: Shape)
    requires ps != [] && AllPointsFit(ps, shape)
    ensures var created := CreatedAt(FoldPoints(ps, mode).value);
      (exists i :: 0 <= i < |ps| && CreatedAt(ps[i].value) == created) &&
      forall i :: 0 <= i < |ps| && CreatedAt(ps[i].value).Some? ==>
        created.Some? && created.value <= CreatedAt(ps[i].value).value
  {
    var n := |ps| - 1;
    if n > 0 {
      FoldedCreated(ps[..n], mode, shape);
      FoldFitsShape(ps[..n], mode, shape);
      assert forall i :: 0 <= i < n ==> ps[..n][i] == ps[i];
      CombinedCreated(FoldPoints(ps[..n], mode), ps[n], mode, shape);
    }
  }

  lemma {:induction false} CombinedCreated(a: Point, b: Point, mode: CombineMode, shape: Shape)
    requires FitsPoint(a, shape) && FitsPoint(b, shape)
    ensures CreatedAt(Combined(a, b, mode).value) == Earliest(CreatedAt(a.value), CreatedAt(b.value))
  {
    CombineFits(a, b, mode, shape);
  }

  function SumBucket(ps: seq<Point>, i: nat): nat
    requires forall k :: 0 <= k < |ps| ==> ps[k].value.Bucketed? && i < |ps[k].value.buckets|
  {
    if ps == [] then 0 else SumBucket(ps[..|ps| - 1], i) + ps[|ps| - 1].value.buckets[i].1
  }

  lemma {:induction false} BucketedAlike(ps: seq<Point>, bounds: seq<BucketBound>)
    requires AllPointsFit(ps, BucketedShape(bounds))
    ensures forall k :: 0 <= k < |ps| ==> ps[k].value.Bucketed? && |ps[k].value.buckets| == |bounds|
  {
    forall k | 0 <= k < |ps|
      ensures ps[k].value.Bucketed? && |ps[k].value.buckets| == |bounds|
    {
      assert FitsPoint(ps[k], BucketedShape(bounds));
      assert |Bounds(ps[k].value.buckets)| == |ps[k].value.buckets|;
    }
  }

  /** Bucket by bucket the counts add, saturating; the bounds stay. */
  lemma {:induction false} FoldedBuckets(ps: seq<Point>, mode: CombineMode, bounds: seq<BucketBound>, i: nat)
    requires |ps| >= 2 && AllPointsFit(ps, BucketedShape(bounds)) && i < |bounds|
    requires forall k :: 0 <= k < |ps| ==> ps[k].value.Bucketed? && i < |ps[k].value.buckets|
    ensures var v := FoldPoints(ps, mode).value;
      v.Bucketed? && |v.buckets| == |bounds| && v.buckets[i] == (bounds[i], Min(SumBucket(ps, i), U64_MAX))
  {
    var n := |ps| - 1;
    var init := ps[..n];
    FoldFitsShape(init, mode, BucketedShape(bounds));
    FoldFitsShape(ps, mode, BucketedShape(bounds));
    BucketedAlike([FoldPoints(init, mode), FoldPoints(ps, mode), ps[n]], bounds);
    assert [FoldPoints(init, mode), FoldPoints(ps, mode), ps[n]][1] == FoldPoints(ps, mode);
    if n >= 2 {
      FoldedBuckets(init, mode, bounds, i);
    } else {
      assert init[..0] == [] && SumBucket(init, i) == init[0].value.buckets[i].1;
    }
    assert Bounds(FoldPoints(ps, mode).value.buckets)[i] == bounds[i];
  }

  function SumCounts(ps: seq<Point>): nat
    requires forall k :: 0 <= k < |ps| ==> ps[k].value.Bucketed?
  {
    if ps == [] then 0 else SumCounts(ps[..|ps| - 1]) + ps[|ps| - 1].value.count
  }

  /** A bucketed histogram's own count adds too, saturating, in both modes. */
  lemma {:induction false} FoldedCount(ps: seq<Point>, mode: CombineMode, bounds: seq<BucketBound>)
    requires |ps| >= 2 && AllPointsFit(ps, BucketedShape(bounds))
    requires forall k :: 0 <= k < |ps| ==> ps[k].value.Bucketed?
    ensures var v := FoldPoints(ps, mode).value; v.Bucketed? && v.count == Min(SumCounts(ps), U64_MAX)
  {
    var n := |ps| - 1;
    var init := ps[..n];
    FoldFitsShape(init, mode, BucketedShape(bounds));
    FoldFitsShape(ps, mode, BucketedShape(bounds));
    CombineFits(FoldPoints(init, mode), ps[n], mode, BucketedShape(bounds));
    if n >= 2 {
      FoldedCount(init, mode, bounds);
    } else {
      assert init[..0] == [] && SumCounts(init) == init[0].value.count;
    }
  }

  /** The time of a folded point is the greatest any of them has, a missing one coming before all. */
  lemma {:induction false} FoldedTime(ps: seq<Point>, mode: CombineMode, shape: Shape)
    requires ps != [] && AllPointsFit(ps, shape)
    ensures FoldPoints(ps, mode).timestamp == ps[NewestIndex(ps)].timestamp
  {
    var n := |ps| - 1;
    if n > 0 {
      FoldedTime(ps[..n], mode, shape);
      FoldFitsShape(ps[..n], mode, shape);
      CombineFits(FoldPoints(ps[..n], mode), ps[n], mode, shape);
    }
  }

  /** The last point that names a state, whatever its timestamp. */
  function LastState(ps: seq<Point>, name: string): Option<bool> {
    if ps == [] then None
    else
      var v := ps[|ps| - 1].value;
      if v.StateSet? && Lookup(v.states, name).Some? then Lookup(v.states, name) else LastState(ps[..|ps| - 1], name)
  }

  lemma {:induction false} FoldedStates(ps: seq<Point>, mode: CombineMode, name: string)
    requires ps != [] && AllPointsFit(ps, StateSetShape)
    ensures FoldPoints(ps, mode).value.StateSet? && Lookup(FoldPoints(ps, mode).value.states, name) == LastState(ps, name)
  {
    var n := |ps| - 1;
    if n > 0 {
      FoldedStates(ps[..n], mode, name);
      FoldFitsShape(ps[..n], mode, StateSetShape);
      MergeSpec(FoldPoints(ps[..n], mode).value.states, ps[n].value.states, OVERWRITE, name);
    } else {
      assert ps[..0] == [];
    }
  }
}
