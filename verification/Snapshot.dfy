/** Metric snapshots and the fold that coalesces them. */
module Snapshot {
  import opened Wrappers
  import opened Keyed
  import opened Labels

  /** Why a lifecycle boundary sealed a window, weakest reason first. */
  datatype CloseReason = Quiesce | ScopeClose | Shutdown
  {
    function Severity(): nat {
      match this
      case Quiesce => 0
      case ScopeClose => 1
      case Shutdown => 2
    }
  }

  datatype MetricType =
    CounterType | GaugeType | HistogramType | GaugeHistogramType | SummaryType | InfoType | StateSetType | UnknownType

  datatype CombineMode = Coalescing | Aggregating

  datatype CombineError = TypeMismatch

  /** A floating-point reading by its bit pattern: it is copied, never computed with. */
  datatype Reading = Reading(bits: nat)

  datatype BucketBound = Finite(le: nat) | PositiveInfinity

  datatype Value =
    | Counter(cumulative: nat, created: Option<Instant>)
    | Gauge(value: Reading)
      // The reservoir holds one element per recorded sample: the index of its HDR bucket.
    | Histogram(reservoir: multiset<nat>, cumulativeCount: nat, created: Option<Instant>)
    | Bucketed(buckets: seq<(BucketBound, nat)>, count: nat, cumulativeCount: nat, created: Option<Instant>)
    | Info
    | StateSet(states: seq<Entry<string, bool>>)

  datatype Point = Point(value: Value, timestamp: Option<Instant>)

  datatype Family = Family(kind: MetricType, unit: Option<string>, help: Option<string>,
                           metrics: seq<Entry<Labels, Point>>)

  datatype MetricSet = MetricSet(capturedAt: Instant, interval: Duration, partial: bool,
                                 close: Option<CloseReason>, scheduled: Option<Instant>,
                                 families: seq<Entry<string, Family>>)

  // ---------------------------------------------------------------------
  // Combining two points of one series
  // ---------------------------------------------------------------------

  /** The later point replaces the earlier one unless its timestamp is older. */
  predicate TakesSource(dst: Option<Instant>, src: Option<Instant>) {
    dst.None? || (src.Some? && dst.value <= src.value)
  }

  function Latest(dst: Option<Instant>, src: Option<Instant>): Option<Instant> {
    if src.None? then dst
    else if dst.Some? && dst.value >= src.value then dst
    else src
  }

  function Earliest(a: Option<Instant>, b: Option<Instant>): Option<Instant> {
    if a.Some? && b.Some? then Some(Min(a.value, b.value))
    else if a.Some? then a
    else b
  }

  function FoldCumulative(a: nat, b: nat, take: bool, mode: CombineMode): nat {
    match mode
    case Coalescing => if take then b else a
    case Aggregating => SaturatingAdd(a, b)
  }

  function AddBuckets(a: seq<(BucketBound, nat)>, b: seq<(BucketBound, nat)>): (r: seq<(BucketBound, nat)>)
    requires |a| == |b|
    ensures |r| == |a|
  {
    seq(|a|, i requires 0 <= i < |a| => (a[i].0, SaturatingAdd(a[i].1, b[i].1)))
  }

  function Bounds(b: seq<(BucketBound, nat)>): (r: seq<BucketBound>)
    ensures |r| == |b| && forall i :: 0 <= i < |b| ==> r[i] == b[i].0
  {
    seq(|b|, i requires 0 <= i < |b| => b[i].0)
  }

  const OVERWRITE: (bool, bool) -> bool := (old_, new_) => new_

  function CombineValues(a: Value, b: Value, take: bool, mode: CombineMode): Result<Value, CombineError> {
    match (a, b)
    case (Counter(ca, ta), Counter(cb, tb)) =>
      Success(Counter(FoldCumulative(ca, cb, take, mode), Earliest(ta, tb)))
    case (Gauge(_), Gauge(_)) =>
      Success(if take then b else a)
    case (Histogram(ra, ca, ta), Histogram(rb, cb, tb)) =>
      Success(Histogram(ra + rb, FoldCumulative(ca, cb, take, mode), Earliest(ta, tb)))
    case (Bucketed(ba, na, ca, ta), Bucketed(bb, nb, cb, tb)) =>
      if Bounds(ba) != Bounds(bb) then Failure(TypeMismatch)
      else
        assert |ba| == |Bounds(ba)| == |bb|;
        Success(Bucketed(AddBuckets(ba, bb), SaturatingAdd(na, nb),
                         FoldCumulative(ca, cb, take, mode), Earliest(ta, tb)))
    case (Info, Info) =>
      Success(Info)
    case (StateSet(sa), StateSet(sb)) =>
      Success(StateSet(Merge(sa, sb, OVERWRITE)))
    case _ =>
      Failure(TypeMismatch)
  }

  /** `combine_into`: fold `src` into `dst`, both of one series. */
  function CombineInto(dst: Point, src: Point, mode: CombineMode): Result<Point, CombineError> {
    match CombineValues(dst.value, src.value, TakesSource(dst.timestamp, src.timestamp), mode)
    case Success(v) => Success(Point(v, Latest(dst.timestamp, src.timestamp)))
    case Failure(e) => Failure(e)
  }

  // ---------------------------------------------------------------------
  // Typing: what lets two points of one series combine
  // ---------------------------------------------------------------------

  datatype Shape = CounterShape | GaugeShape | HistogramShape | BucketedShape(bounds: seq<BucketBound>)
                 | InfoShape | StateSetShape

  /** The type a family has and the shape of its series' points. */
  datatype FamilyType = FamilyType(kind: MetricType, shape: Shape)

  /** What each family name stands for. */
  type Signature = string -> FamilyType

  function ShapeOf(v: Value): Shape {
    match v
    case Counter(_, _) => CounterShape
    case Gauge(_) => GaugeShape
    case Histogram(_, _, _) => HistogramShape
    case Bucketed(b, _, _, _) => BucketedShape(Bounds(b))
    case Info => InfoShape
    case StateSet(_) => StateSetShape
  }

  ghost predicate FitsPoint(p: Point, shape: Shape) {
    ShapeOf(p.value) == shape && (p.value.StateSet? ==> Distinct(p.value.states))
  }

  ghost predicate FitsFamily(f: Family, t: FamilyType) {
    f.kind == t.kind && Distinct(f.metrics) &&
    forall i :: 0 <= i < |f.metrics| ==> FitsPoint(f.metrics[i].val, t.shape)
  }

  /** Family names are unique, label sets are unique within a family, and each
      family has the type and the point shape its name stands for: what `insert` and
      `insert_metric` assert. */
  ghost predicate Fits(s: MetricSet, sig: Signature) {
    Distinct(s.families) &&
    forall i :: 0 <= i < |s.families| ==> FitsFamily(s.families[i].val, sig(s.families[i].key))
  }

  ghost predicate AllFit(snaps: seq<MetricSet>, sig: Signature) {
    forall i :: 0 <= i < |snaps| ==> Fits(snaps[i], sig)
  }

  /** Two points of one family always combine. */
  lemma {:induction false} CombineFits(a: Point, b: Point, mode: CombineMode, shape: Shape)
    requires FitsPoint(a, shape) && FitsPoint(b, shape)
    ensures CombineInto(a, b, mode).Success? && FitsPoint(CombineInto(a, b, mode).value, shape)
  {
    match a.value
    case Bucketed(ba, _, _, _) =>
      assert Bounds(AddBuckets(ba, b.value.buckets)) == Bounds(ba);
    case StateSet(sa) =>
      MergeKeys(sa, b.value.states, OVERWRITE);
    case _ =>
  }

  /** The combined point, for points of one shape. */
  function Combined(a: Point, b: Point, mode: CombineMode): Point {
    match CombineInto(a, b, mode)
    case Success(p) => p
    case Failure(_) => a
  }

  /** Combining is associative, in both modes, for every kind of value. */
  lemma {:induction false} CombineAssociative(a: Point, b: Point, c: Point, mode: CombineMode, shape: Shape)
    requires FitsPoint(a, shape) && FitsPoint(b, shape) && FitsPoint(c, shape)
    ensures Combined(Combined(a, b, mode), c, mode) == Combined(a, Combined(b, c, mode), mode)
  {
    CombineFits(a, b, mode, shape);
    CombineFits(b, c, mode, shape);
    match a.value
    case Histogram(r, _, _) =>
      assert (r + b.value.reservoir) + c.value.reservoir == r + (b.value.reservoir + c.value.reservoir);
    case Bucketed(x, _, _, _) =>
      BucketsAssociative(x, b.value.buckets, c.value.buckets);
    case StateSet(s) =>
      MergeAssociative(s, b.value.states, c.value.states, OVERWRITE);
    case _ =>
  }

  lemma {:induction false} BucketsAssociative(a: seq<(BucketBound, nat)>, b: seq<(BucketBound, nat)>, c: seq<(BucketBound, nat)>)
    requires Bounds(a) == Bounds(b) == Bounds(c)
    ensures |a| == |b| == |c|
    ensures AddBuckets(AddBuckets(a, b), c) == AddBuckets(a, AddBuckets(b, c))
    ensures Bounds(AddBuckets(a, b)) == Bounds(a) && Bounds(AddBuckets(b, c)) == Bounds(b)
  {
    assert |a| == |Bounds(a)| == |b| == |c|;
  }

  // ---------------------------------------------------------------------
  // Coalescing snapshots
  // ---------------------------------------------------------------------

  function PointOp(mode: CombineMode): (Point, Point) -> Point {
    (a: Point, b: Point) => Combined(a, b, mode)
  }

  /** The first family's descriptors stay; its series absorb the second family's. */
  function MergeFamily(a: Family, b: Family, mode: CombineMode): Family {
    a.(metrics := Merge(a.metrics, b.metrics, PointOp(mode)))
  }

  function FamilyOp(mode: CombineMode): (Family, Family) -> Family {
    (a: Family, b: Family) => MergeFamily(a, b, mode)
  }

  function Strongest(a: Option<CloseReason>, b: Option<CloseReason>): Option<CloseReason> {
    if a.None? then b
    else if b.Some? && b.value.Severity() > a.value.Severity() then b
    else a
  }

  function MergeSets(a: MetricSet, b: MetricSet, mode: CombineMode): MetricSet {
    MetricSet(Max(a.capturedAt, b.capturedAt), a.interval + b.interval, a.partial || b.partial,
              Strongest(a.close, b.close), None, Merge(a.families, b.families, FamilyOp(mode)))
  }

  function Default(now: Instant): MetricSet {
    MetricSet(now, 0, false, None, None, [])
  }

  /** Coalescing as a left fold of pairwise merges; the reference for the method below. */
  function Coalesce(snaps: seq<MetricSet>, mode: CombineMode, now: Instant): MetricSet {
    if |snaps| == 0 then Default(now)
    else if |snaps| == 1 then snaps[0]
    else MergeSets(Coalesce(snaps[..|snaps| - 1], mode, now), snaps[|snaps| - 1], mode)
  }

  // ---------------------------------------------------------------------
  // Lifecycle marks and compaction
  // ---------------------------------------------------------------------

  /** How strong a close reason is; none is weaker than any. */
  function Strength(close: Option<CloseReason>): nat {
    if close.None? then 0 else 1 + close.value.Severity()
  }

  /** From weakest to strongest: none, quiesce, scope close, shutdown. */
  lemma {:induction false} StrengthOrder()
    ensures 0 == Strength(None) < Strength(Some(Quiesce)) < Strength(Some(ScopeClose)) < Strength(Some(Shutdown))
  {
  }

  /** `close` is one of the two and neither is stronger. */
  predicate IsStronger(close: Option<CloseReason>, a: Option<CloseReason>, b: Option<CloseReason>) {
    (close == a || close == b) && Strength(a) <= Strength(close) && Strength(b) <= Strength(close)
  }

  /** `mark_partial` then `mark_close`: what a boundary stamps on the window it seals. */
  function Mark(s: MetricSet, reason: CloseReason): MetricSet {
    s.(partial := true, close := Some(if s.close.None? || reason.Severity() > s.close.value.Severity()
                                      then reason else s.close.value))
  }

  predicate IsDistribution(f: Family) {
    f.kind == HistogramType || f.kind == GaugeHistogramType
  }

  predicate HasDistributions(s: MetricSet) {
    exists i :: 0 <= i < |s.families| && IsDistribution(s.families[i].val)
  }

  function DropDistributions(families: seq<Entry<string, Family>>): seq<Entry<string, Family>> {
    if families == [] then []
    else (if IsDistribution(families[0].val) then [] else [families[0]]) + DropDistributions(families[1..])
  }

  function WithoutDistributions(s: MetricSet): MetricSet {
    s.(families := DropDistributions(s.families))
  }

  lemma {:induction false} DropNothing(families: seq<Entry<string, Family>>)
    requires forall i :: 0 <= i < |families| ==> !IsDistribution(families[i].val)
    ensures DropDistributions(families) == families
  {
    if families != [] {
      DropNothing(families[1..]);
    }
  }

  lemma {:induction false} DropLeavesNone(families: seq<Entry<string, Family>>)
    ensures forall i :: 0 <= i < |DropDistributions(families)| ==> !IsDistribution(DropDistributions(families)[i].val)
  {
    if families != [] {
      DropLeavesNone(families[1..]);
    }
  }

  /** Stripping leaves no distribution, is the identity on a set that has none, and so
      can be repeated freely. */
  lemma {:induction false} StripIdempotent(s: MetricSet)
    ensures !HasDistributions(WithoutDistributions(s))
    ensures !HasDistributions(s) ==> WithoutDistributions(s) == s
    ensures WithoutDistributions(WithoutDistributions(s)) == WithoutDistributions(s)
  {
    DropLeavesNone(s.families);
    DropNothing(DropDistributions(s.families));
    if !HasDistributions(s) {
      DropNothing(s.families);
    }
  }

  /** Stripping keeps exactly the families that are not histograms or gauge histograms. */
  lemma {:induction false} StripKeepsOthers(families: seq<Entry<string, Family>>, e: Entry<string, Family>)
    ensures e in DropDistributions(families) <==>
            e in families && e.val.kind != HistogramType && e.val.kind != GaugeHistogramType
  {
    if families != [] {
      StripKeepsOthers(families[1..], e);
    }
  }

  lemma {:induction false} MergeFamilyFits(a: Family, b: Family, mode: CombineMode, t: FamilyType)
    requires FitsFamily(a, t) && FitsFamily(b, t)
    ensures FitsFamily(MergeFamily(a, b, mode), t)
  {
    var f := PointOp(mode);
    var m := Merge(a.metrics, b.metrics, f);
    MergeKeys(a.metrics, b.metrics, f);
    forall i | 0 <= i < |m|
      ensures FitsPoint(m[i].val, t.shape)
    {
      var k := m[i].key;
      LookupAt(m, i);
      MergeSpec(a.metrics, b.metrics, f, k);
      var pa, pb := Position(a.metrics, k), Position(b.metrics, k);
      if pa < |a.metrics| && pb < |b.metrics| {
        CombineFits(a.metrics[pa].val, b.metrics[pb].val, mode, t.shape);
      }
    }
  }

  lemma {:induction false} MergeFits(a: MetricSet, b: MetricSet, mode: CombineMode, sig: Signature)
    requires Fits(a, sig) && Fits(b, sig)
    ensures Fits(MergeSets(a, b, mode), sig)
  {
    var f := FamilyOp(mode);
    var m := Merge(a.families, b.families, f);
    MergeKeys(a.families, b.families, f);
    forall i | 0 <= i < |m|
      ensures FitsFamily(m[i].val, sig(m[i].key))
    {
      var k := m[i].key;
      LookupAt(m, i);
      MergeSpec(a.families, b.families, f, k);
      var pa, pb := Position(a.families, k), Position(b.families, k);
      if pa < |a.families| && pb < |b.families| {
        MergeFamilyFits(a.families[pa].val, b.families[pb].val, mode, sig(k));
      }
    }
  }

  lemma {:induction false} MergeFamilyAssociative(a: Family, b: Family, c: Family, mode: CombineMode, t: FamilyType)
    requires FitsFamily(a, t) && FitsFamily(b, t) && FitsFamily(c, t)
    ensures MergeFamily(MergeFamily(a, b, mode), c, mode) == MergeFamily(a, MergeFamily(b, c, mode), mode)
  {
    var f := PointOp(mode);
    forall k
      ensures AssociativeAt(a.metrics, b.metrics, c.metrics, f, k)
    {
      var x, y, z := Lookup(a.metrics, k), Lookup(b.metrics, k), Lookup(c.metrics, k);
      if x.Some? && y.Some? && z.Some? {
        CombineAssociative(x.value, y.value, z.value, mode, t.shape);
      }
    }
    MergeAssociative(a.metrics, b.metrics, c.metrics, f);
  }

  lemma {:induction false} FamiliesAssociative(a: MetricSet, b: MetricSet, c: MetricSet, mode: CombineMode, sig: Signature, k: string)
    requires Fits(a, sig) && Fits(b, sig) && Fits(c, sig)
    ensures AssociativeAt(a.families, b.families, c.families, FamilyOp(mode), k)
  {
    var x, y, z := Lookup(a.families, k), Lookup(b.families, k), Lookup(c.families, k);
    if x.Some? && y.Some? && z.Some? {
      MergeFamilyAssociative(x.value, y.value, z.value, mode, sig(k));
    }
  }

  lemma {:induction false} AllFamiliesAssociative(a: MetricSet, b: MetricSet, c: MetricSet, mode: CombineMode, sig: Signature)
    requires Fits(a, sig) && Fits(b, sig) && Fits(c, sig)
    ensures var f := FamilyOp(mode);
      Merge(Merge(a.families, b.families, f), c.families, f) == Merge(a.families, Merge(b.families, c.families, f), f)
  {
    forall k
      ensures AssociativeAt(a.families, b.families, c.families, FamilyOp(mode), k)
    {
      FamiliesAssociative(a, b, c, mode, sig, k);
    }
    MergeAssociative(a.families, b.families, c.families, FamilyOp(mode));
  }

  /** Merging whole snapshots is associative: same families and series in the same
      order, same values, timestamps, interval, partial flag and close reason. */
  lemma {:induction false} MergeSetsAssociative(a: MetricSet, b: MetricSet, c: MetricSet, mode: CombineMode, sig: Signature)
    requires Fits(a, sig) && Fits(b, sig) && Fits(c, sig)
    ensures MergeSets(MergeSets(a, b, mode), c, mode) == MergeSets(a, MergeSets(b, c, mode), mode)
  {
    AllFamiliesAssociative(a, b, c, mode, sig);
  }

  lemma {:induction false} CoalesceFits(snaps: seq<MetricSet>, mode: CombineMode, now: Instant, sig: Signature)
    requires AllFit(snaps, sig)
    ensures Fits(Coalesce(snaps, mode, now), sig)
  {
    if |snaps| > 1 {
      CoalesceFits(snaps[..|snaps| - 1], mode, now, sig);
      MergeFits(Coalesce(snaps[..|snaps| - 1], mode, now), snaps[|snaps| - 1], mode, sig);
    }
  }

  lemma {:induction false} CoalesceSnoc(xs: seq<MetricSet>, last: MetricSet, mode: CombineMode, now: Instant)
    requires xs != []
    ensures Coalesce(xs + [last], mode, now) == MergeSets(Coalesce(xs, mode, now), last, mode)
  {
    assert (xs + [last])[..|xs|] == xs;
  }

  /** Coalescing a concatenation is merging the two coalesced halves. */
  lemma {:induction false} CoalesceConcat(xs: seq<MetricSet>, ys: seq<MetricSet>, mode: CombineMode, now: Instant,
                                          sig: Signature)
    requires xs != [] && ys != [] && AllFit(xs, sig) && AllFit(ys, sig)
    ensures Coalesce(xs + ys, mode, now) == MergeSets(Coalesce(xs, mode, now), Coalesce(ys, mode, now), mode)
  {
    var init, last := ys[..|ys| - 1], ys[|ys| - 1];
    assert ys == init + [last];
    if init == [] {
      CoalesceSnoc(xs, last, mode, now);
    } else {
      assert xs + ys == (xs + init) + [last];
      CoalesceSnoc(xs + init, last, mode, now);
      CoalesceSnoc(init, last, mode, now);
      CoalesceConcat(xs, init, mode, now, sig);
      CoalesceFits(xs, mode, now, sig);
      CoalesceFits(init, mode, now, sig);
      MergeSetsAssociative(Coalesce(xs, mode, now), Coalesce(init, mode, now), last, mode, sig);
    }
  }

  function Flatten<T>(groups: seq<seq<T>>): seq<T> {
    if groups == [] then [] else Flatten(groups[..|groups| - 1]) + groups[|groups| - 1]
  }

  function CoalesceEach(groups: seq<seq<MetricSet>>, mode: CombineMode, now: Instant): (r: seq<MetricSet>)
    ensures |r| == |groups|
    ensures forall i :: 0 <= i < |groups| ==> r[i] == Coalesce(groups[i], mode, now)
  {
    seq(|groups|, i requires 0 <= i < |groups| => Coalesce(groups[i], mode, now))
  }

  /** Coalescing is a list homomorphism: however a list of snapshots is cut into
      non-empty groups, coalescing the coalesced groups gives what coalescing the
      whole list at once gives, in either mode. */
  lemma {:induction false} CoalesceGroups(groups: seq<seq<MetricSet>>, mode: CombineMode, now: Instant, sig: Signature)
    requires forall i :: 0 <= i < |groups| ==> groups[i] != [] && AllFit(groups[i], sig)
    ensures AllFit(Flatten(groups), sig)
    ensures Coalesce(CoalesceEach(groups, mode, now), mode, now) == Coalesce(Flatten(groups), mode, now)
  {
    if groups != [] {
      var init, last := groups[..|groups| - 1], groups[|groups| - 1];
      CoalesceGroups(init, mode, now, sig);
      assert CoalesceEach(groups, mode, now)[..|groups| - 1] == CoalesceEach(init, mode, now);
      if init == [] {
        assert Flatten(groups) == last;
      } else {
        FlattenNonEmpty(init);
        CoalesceConcat(Flatten(init), last, mode, now, sig);
      }
    }
  }

  lemma {:induction false} FlattenNonEmpty<T>(groups: seq<seq<T>>)
    requires groups != [] && groups[|groups| - 1] != []
    ensures Flatten(groups) != []
  {
  }
}
