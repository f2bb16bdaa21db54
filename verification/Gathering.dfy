/** What gathering gives, one series at a time. */
module Gathering {
  import opened Wrappers
  import opened Keyed
  import opened Snapshot
  import opened Series
  import opened MetricsQuery

  ghost predicate ItemFits(item: Item, sig: Signature) {
    FitsPoint(item.point, sig(item.id.family).shape) && item.kind == sig(item.id.family).kind
  }

  ghost predicate ItemsFit(items: seq<Item>, sig: Signature) {
    forall i :: 0 <= i < |items| ==> ItemFits(items[i], sig)
  }

  ghost function ItemPoints(items: seq<Item>, id: Id): seq<Point> {
    if items == [] then []
    else
      var last := items[|items| - 1];
      ItemPoints(items[..|items| - 1], id) + if last.id == id then [last.point] else []
  }

  lemma {:induction false} ItemPointsConcat(x: seq<Item>, y: seq<Item>, id: Id)
    ensures ItemPoints(x + y, id) == ItemPoints(x, id) + ItemPoints(y, id)
  {
    if y == [] {
      assert x + y == x;
    } else {
      assert (x + y)[..|x + y| - 1] == x + y[..|y| - 1];
      ItemPointsConcat(x, y[..|y| - 1], id);
    }
  }

  lemma {:induction false} ItemPointsNone(items: seq<Item>, id: Id)
    requires forall i :: 0 <= i < |items| ==> items[i].id != id
    ensures ItemPoints(items, id) == []
  {
    if items != [] {
      ItemPointsNone(items[..|items| - 1], id);
    }
  }

  lemma {:induction false} FamilyPoints(name: string, f: Family, n: nat, id: Id)
    requires Distinct(f.metrics) && n <= |f.metrics|
    ensures ItemPoints(FamilyItems(name, f, n), id) ==
            if id.family == name then OptPoint(Lookup(f.metrics[..n], id.labels)) else []
  {
    if n > 0 {
      var e := f.metrics[n - 1];
      assert f.metrics[..n] == f.metrics[..n - 1] + [e];
      assert FamilyItems(name, f, n)[..n - 1] == FamilyItems(name, f, n - 1);
      LookupSnoc(f.metrics[..n - 1], e, id.labels);
      FamilyPoints(name, f, n - 1, id);
    }
  }

  lemma {:induction false} FamiliesPoints(families: seq<Entry<string, Family>>, id: Id)
    requires Distinct(families) && forall i :: 0 <= i < |families| ==> Distinct(families[i].val.metrics)
    ensures var f := Lookup(families, id.family);
      ItemPoints(FamiliesItems(families), id) ==
      if f.None? then [] else OptPoint(Lookup(f.value.metrics, id.labels))
  {
    if families != [] {
      var init, e := families[..|families| - 1], families[|families| - 1];
      assert families == init + [e];
      LookupSnoc(init, e, id.family);
      FamiliesPoints(init, id);
      FamilyPoints(e.key, e.val, |e.val.metrics|, id);
      assert e.val.metrics[..|e.val.metrics|] == e.val.metrics;
      ItemPointsConcat(FamiliesItems(init), FamilyItems(e.key, e.val, |e.val.metrics|), id);
    }
  }

  lemma {:induction false} SourcesPoints(sources: seq<MetricSet>, sig: Signature, id: Id)
    requires AllFit(sources, sig)
    ensures ItemPoints(Items(sources), id) == Points(sources, id)
  {
    if sources != [] {
      var init, last := sources[..|sources| - 1], sources[|sources| - 1];
      SourcesPoints(init, sig, id);
      FamiliesPoints(last.families, id);
      ItemPointsConcat(Items(init), FamiliesItems(last.families), id);
    }
  }

  lemma {:induction false} FamiliesItemsFit(families: seq<Entry<string, Family>>, sig: Signature)
    requires forall i :: 0 <= i < |families| ==> FitsFamily(families[i].val, sig(families[i].key))
    ensures ItemsFit(FamiliesItems(families), sig)
  {
    if families != [] {
      FamiliesItemsFit(families[..|families| - 1], sig);
    }
  }

  lemma {:induction false} SourcesItemsFit(sources: seq<MetricSet>, sig: Signature)
    requires AllFit(sources, sig)
    ensures ItemsFit(Items(sources), sig)
  {
    if sources != [] {
      SourcesItemsFit(sources[..|sources| - 1], sig);
      FamiliesItemsFit(sources[|sources| - 1].families, sig);
    }
  }

  function StampAll(ps: seq<Point>, now: Instant): (r: seq<Point>)
    ensures |r| == |ps| && forall i :: 0 <= i < |ps| ==> r[i] == Stamped(ps[i], now)
  {
    seq(|ps|, i requires 0 <= i < |ps| => Stamped(ps[i], now))
  }

  // Stamping changes nothing but missing timestamps.

  lemma {:induction false} StampKeepsSamples(ps: seq<Point>, now: Instant)
    ensures SumSamples(StampAll(ps, now)) == SumSamples(ps)
  {
    if ps != [] {
      StampKeepsSamples(ps[..|ps| - 1], now);
      assert StampAll(ps, now)[..|ps| - 1] == StampAll(ps[..|ps| - 1], now);
    }
  }

  lemma {:induction false} StampKeepsFit(ps: seq<Point>, now: Instant, shape: Shape)
    requires AllPointsFit(ps, shape)
    ensures AllPointsFit(StampAll(ps, now), shape)
  {
  }

  lemma {:induction false} StampTimed(ps: seq<Point>, now: Instant)
    requires forall i :: 0 <= i < |ps| ==> ps[i].timestamp.Some?
    ensures StampAll(ps, now) == ps
  {
  }

  lemma {:induction false} StampKeepsTotals(ps: seq<Point>, now: Instant)
    ensures SumLatched(StampAll(ps, now)) == SumLatched(ps)
  {
    if ps != [] {
      StampKeepsTotals(ps[..|ps| - 1], now);
      assert StampAll(ps, now)[..|ps| - 1] == StampAll(ps[..|ps| - 1], now);
    }
  }

  ghost function FoldedSeries(ps: seq<Point>, mode: CombineMode): Option<Point> {
    if ps == [] then None else Some(FoldPoints(ps, mode))
  }

  /** Folding items one by one folds each selected series' points, in order, and touches
      no other series. */
  lemma {:induction false} FoldItemsSeries(base: MetricSet, items: seq<Item>, q: Selection, now: Instant,
                                           mode: CombineMode, sig: Signature, id: Id)
    requires base.families == [] && ItemsFit(items, sig)
    ensures var t := base.(families := FoldItems([], items, q, now, mode));
      Fits(t, sig) &&
      PointOf(t, id) == if Selects(q, id) then FoldedSeries(StampAll(ItemPoints(items, id), now), mode) else None
  {
    if items != [] {
      var init, last := items[..|items| - 1], items[|items| - 1];
      FoldItemsSeries(base, init, q, now, mode, sig, id);
      var before := base.(families := FoldItems([], init, q, now, mode));
      var p, ps := Stamped(last.point, now), StampAll(ItemPoints(init, id), now);
      if Selects(q, last.id) {
        WithSeriesSpec(before, last.id, last.kind, p, mode, sig, id);
      }
      if last.id == id {
        assert StampAll(ItemPoints(items, id), now) == ps + [p];
        if ps != [] {
          FoldSnoc(ps, p, mode);
        }
      } else {
        assert ItemPoints(items, id) == ItemPoints(init, id);
      }
    }
  }

  /** What `Gather` into an empty result gives, for every series. */
  lemma {:induction false} GatherSpec(base: MetricSet, sources: seq<MetricSet>, q: Selection, now: Instant, mode: CombineMode,
                   sig: Signature, id: Id)
    requires base.families == [] && AllFit(sources, sig)
    ensures var t := base.(families := FoldItems([], Items(sources), q, now, mode));
      Fits(t, sig) &&
      PointOf(t, id) == if Selects(q, id) then FoldedSeries(StampAll(Points(sources, id), now), mode) else None
  {
    SourcesItemsFit(sources, sig);
    SourcesPoints(sources, sig, id);
    FoldItemsSeries(base, Items(sources), q, now, mode, sig, id);
  }
}
