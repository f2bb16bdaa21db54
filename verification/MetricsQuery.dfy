/** The readers: they gather windows of each component and fold them, first over time,
    then across components. */
module MetricsQuery {
  import opened Wrappers
  import opened Keyed
  import opened Labels
  import opened Snapshot
  import opened Series
  import opened CoalesceLoops

  /** Which families and label sets a query asks for. */
  datatype Selection = Selection(family: string -> bool, labels: Labels -> bool)

  const EVERYTHING: Selection := Selection(_ => true, _ => true)

  /** A result before anything has been gathered into it. */
  function Empty(now: Instant, span: Duration): MetricSet {
    MetricSet(now, span, false, None, None, [])
  }

  predicate Selects(q: Selection, id: Id) {
    q.family(id.family) && q.labels(id.labels)
  }

  // ---------------------------------------------------------------------
  // Inserting one series into a result
  // ---------------------------------------------------------------------

  function Single(id: Id, kind: MetricType, p: Point): Entry<string, Family> {
    Entry(id.family, Family(kind, None, None, [Entry(id.labels, p)]))
  }

  function Stamped(p: Point, now: Instant): Point {
    if p.timestamp.None? then p.(timestamp := Some(now)) else p
  }

  /** A result with one more point of one series folded into it. */
  function WithSeries(families: seq<Entry<string, Family>>, id: Id, kind: MetricType, p: Point, mode: CombineMode)
    : seq<Entry<string, Family>>
  {
    Merge(families, [Single(id, kind, p)], FamilyOp(mode))
  }

  /** `insert_metric`: a new series of a new or an existing family. */
  function InsertNew(families: seq<Entry<string, Family>>, id: Id, kind: MetricType, p: Point)
    : seq<Entry<string, Family>>
  {
    var at := Position(families, id.family);
    if at < |families| then
      var f := families[at].val;
      families[at := Entry(id.family, f.(metrics := f.metrics + [Entry(id.labels, p)]))]
    else families + [Single(id, kind, p)]
  }

  lemma {:induction false} MergeOne<K(!new), V>(a: seq<Entry<K, V>>, e: Entry<K, V>, f: (V, V) -> V)
    ensures Merge(a, [e], f) == Upsert(a, e, f)
  {
    assert [e][..0] == [];
  }

  /** Appending a series that is not there is what merging it in does. */
  lemma {:induction false} InsertNewIsMerge(s: MetricSet, id: Id, kind: MetricType, p: Point, mode: CombineMode)
    requires PointOf(s, id).None?
    ensures InsertNew(s.families, id, kind, p) == WithSeries(s.families, id, kind, p, mode)
  {
    MergeOne(s.families, Single(id, kind, p), FamilyOp(mode));
    var at := Position(s.families, id.family);
    if at < |s.families| {
      MergeOne(s.families[at].val.metrics, Entry(id.labels, p), PointOp(mode));
    }
  }

  lemma {:induction false} SingleFits(s: MetricSet, id: Id, kind: MetricType, p: Point, sig: Signature)
    requires FitsPoint(p, sig(id.family).shape) && kind == sig(id.family).kind
    ensures Fits(s.(families := [Single(id, kind, p)]), sig)
    ensures forall other :: PointOf(s.(families := [Single(id, kind, p)]), other) ==
                            if other == id then Some(p) else None
  {
  }

  /** Folding a point in changes that series and no other. */
  lemma {:induction false} WithSeriesSpec(s: MetricSet, id: Id, kind: MetricType, p: Point, mode: CombineMode, sig: Signature, other: Id)
    requires Fits(s, sig) && FitsPoint(p, sig(id.family).shape) && kind == sig(id.family).kind
    ensures var t := s.(families := WithSeries(s.families, id, kind, p, mode));
      Fits(t, sig) &&
      PointOf(t, other) == if other == id then Both(PointOf(s, id), Some(p), PointOp(mode)) else PointOf(s, other)
  {
    var one := s.(families := [Single(id, kind, p)]);
    SingleFits(s, id, kind, p, sig);
    MergeFits(s, one, mode, sig);
    PointOfMerge(s, one, mode, sig, other);
    var t := s.(families := WithSeries(s.families, id, kind, p, mode));
    assert t.families == MergeSets(s, one, mode).families;
  }

  /** `insert_metric_with_mode`: combine into the series if it is there, else add it. */
  method InsertMetricWithMode(out: MetricSet, id: Id, kind: MetricType, p: Point, mode: CombineMode, ghost sig: Signature)
    returns (res: MetricSet)
    requires Fits(out, sig) && FitsPoint(p, sig(id.family).shape) && kind == sig(id.family).kind
    ensures res.families == WithSeries(out.families, id, kind, Stamped(p, out.capturedAt), mode)
    ensures res.capturedAt == out.capturedAt && Fits(res, sig)
  {
    var point := Stamped(p, out.capturedAt);
    WithSeriesSpec(out, id, kind, point, mode, sig, id);
    if PointOf(out, id).Some? {
      var tmp := MetricSet(out.capturedAt, out.interval, false, None, None, [Single(id, kind, point)]);
      SingleFits(tmp.(families := []), id, kind, point, sig);
      CoalesceSnoc([out], tmp, mode, 0);
      assert [out] + [tmp] == [out, tmp];
      res := CoalesceWithMode([out, tmp], mode, 0, sig);
    } else {
      InsertNewIsMerge(out, id, kind, point, mode);
      res := out.(families := InsertNew(out.families, id, kind, point));
    }
  }

  // ---------------------------------------------------------------------
  // Gathering every selected series of a list of windows
  // ---------------------------------------------------------------------

  datatype Item = Item(id: Id, kind: MetricType, point: Point)

  ghost function FamilyItems(name: string, f: Family, n: nat): (r: seq<Item>)
    requires n <= |f.metrics|
    ensures |r| == n
    ensures forall i :: 0 <= i < n ==> r[i] == Item(Id(name, f.metrics[i].key), f.kind, f.metrics[i].val)
  {
    seq(n, i requires 0 <= i < n => Item(Id(name, f.metrics[i].key), f.kind, f.metrics[i].val))
  }

  ghost function FamiliesItems(families: seq<Entry<string, Family>>): seq<Item> {
    if families == [] then []
    else
      var last := families[|families| - 1];
      FamiliesItems(families[..|families| - 1]) + FamilyItems(last.key, last.val, |last.val.metrics|)
  }

  ghost function Items(sources: seq<MetricSet>): seq<Item> {
    if sources == [] then []
    else Items(sources[..|sources| - 1]) + FamiliesItems(sources[|sources| - 1].families)
  }

  /** The items of a query folded, in order, into a result. */
  ghost function FoldItems(families: seq<Entry<string, Family>>, items: seq<Item>, q: Selection, now: Instant,
                           mode: CombineMode): seq<Entry<string, Family>>
  {
    if items == [] then families
    else
      var before, last := FoldItems(families, items[..|items| - 1], q, now, mode), items[|items| - 1];
      if Selects(q, last.id) then WithSeries(before, last.id, last.kind, Stamped(last.point, now), mode) else before
  }

  lemma {:induction false} FoldItemsSnoc(families: seq<Entry<string, Family>>, items: seq<Item>, last: Item, q: Selection, now: Instant,
                      mode: CombineMode)
    ensures FoldItems(families, items + [last], q, now, mode) ==
            var before := FoldItems(families, items, q, now, mode);
            if Selects(q, last.id) then WithSeries(before, last.id, last.kind, Stamped(last.point, now), mode) else before
  {
    assert (items + [last])[..|items|] == items;
  }

  lemma {:induction false} FoldItemsConcat(families: seq<Entry<string, Family>>, x: seq<Item>, y: seq<Item>,
                                           q: Selection, now: Instant, mode: CombineMode)
    ensures FoldItems(families, x + y, q, now, mode) == FoldItems(FoldItems(families, x, q, now, mode), y, q, now, mode)
  {
    if y == [] {
      assert x + y == x;
    } else {
      var init, last := y[..|y| - 1], y[|y| - 1];
      assert x + y == (x + init) + [last] && y == init + [last];
      FoldItemsConcat(families, x, init, q, now, mode);
      FoldItemsSnoc(families, x + init, last, q, now, mode);
      FoldItemsSnoc(FoldItems(families, x, q, now, mode), init, last, q, now, mode);
    }
  }

  method GatherFamily(out: MetricSet, name: string, f: Family, q: Selection, mode: CombineMode, ghost sig: Signature)
    returns (res: MetricSet)
    requires Fits(out, sig) && FitsFamily(f, sig(name)) && q.family(name)
    ensures res.families == FoldItems(out.families, FamilyItems(name, f, |f.metrics|), q, out.capturedAt, mode)
    ensures res.capturedAt == out.capturedAt && Fits(res, sig)
  {
    res := out;
    for i := 0 to |f.metrics|
      invariant res.families == FoldItems(out.families, FamilyItems(name, f, i), q, out.capturedAt, mode)
      invariant res.capturedAt == out.capturedAt && Fits(res, sig)
    {
      var id := Id(name, f.metrics[i].key);
      assert FamilyItems(name, f, i + 1) == FamilyItems(name, f, i) + [Item(id, f.kind, f.metrics[i].val)];
      FoldItemsSnoc(out.families, FamilyItems(name, f, i), Item(id, f.kind, f.metrics[i].val), q, out.capturedAt, mode);
      if q.labels(id.labels) {
        res := InsertMetricWithMode(res, id, f.kind, f.metrics[i].val, mode, sig);
      }
    }
  }

  lemma {:induction false} FoldNothing(families: seq<Entry<string, Family>>, items: seq<Item>, q: Selection, now: Instant,
                                       mode: CombineMode)
    requires forall i :: 0 <= i < |items| ==> !Selects(q, items[i].id)
    ensures FoldItems(families, items, q, now, mode) == families
  {
    if items != [] {
      FoldNothing(families, items[..|items| - 1], q, now, mode);
    }
  }

  method GatherSource(out: MetricSet, src: MetricSet, q: Selection, mode: CombineMode, ghost sig: Signature)
    returns (res: MetricSet)
    requires Fits(out, sig) && Fits(src, sig)
    ensures res.families == FoldItems(out.families, FamiliesItems(src.families), q, out.capturedAt, mode)
    ensures res.capturedAt == out.capturedAt && Fits(res, sig)
  {
    res := out;
    for j := 0 to |src.families|
      invariant res.families == FoldItems(out.families, FamiliesItems(src.families[..j]), q, out.capturedAt, mode)
      invariant res.capturedAt == out.capturedAt && Fits(res, sig)
    {
      var name, f := src.families[j].key, src.families[j].val;
      ghost var items := FamilyItems(name, f, |f.metrics|);
      assert src.families[..j + 1][..j] == src.families[..j];
      FoldItemsConcat(out.families, FamiliesItems(src.families[..j]), items, q, out.capturedAt, mode);
      if q.family(name) {
        res := GatherFamily(res, name, f, q, mode, sig);
      } else {
        FoldNothing(res.families, items, q, out.capturedAt, mode);
      }
    }
    assert src.families[..|src.families|] == src.families;
  }

  /** `coalesce_component_windows`, and with the other mode the fold across components. */
  method Gather(out: MetricSet, sources: seq<MetricSet>, q: Selection, mode: CombineMode, ghost sig: Signature)
    returns (res: MetricSet)
    requires Fits(out, sig) && AllFit(sources, sig)
    ensures res.families == FoldItems(out.families, Items(sources), q, out.capturedAt, mode)
    ensures res.capturedAt == out.capturedAt && Fits(res, sig)
  {
    res := out;
    for i := 0 to |sources|
      invariant res.families == FoldItems(out.families, Items(sources[..i]), q, out.capturedAt, mode)
      invariant res.capturedAt == out.capturedAt && Fits(res, sig)
    {
      assert sources[..i + 1][..i] == sources[..i];
      FoldItemsConcat(out.families, Items(sources[..i]), FamiliesItems(sources[i].families), q, out.capturedAt, mode);
      res := GatherSource(res, sources[i], q, mode, sig);
    }
    assert sources[..|sources|] == sources;
  }
}
