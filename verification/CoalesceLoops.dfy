/** `coalesce_with_mode` as the code runs it: first collect the family names in the
    order they are first seen, then fold each family across all snapshots. The method
    is proved to compute the pairwise fold `Snapshot.Coalesce`. */
module CoalesceLoops {
  import opened Wrappers
  import opened Keyed
  import opened Labels
  import opened Snapshot

  /** Family names in first-seen order. */
  ghost function Seen(snaps: seq<MetricSet>): seq<string> {
    if snaps == [] then []
    else
      var init := Seen(snaps[..|snaps| - 1]);
      init + Fresh(Keys(snaps[|snaps| - 1].families), init)
  }

  /** One family folded across the snapshots that carry it. */
  ghost function FamilyFold(snaps: seq<MetricSet>, name: string, mode: CombineMode): Option<Family> {
    if snaps == [] then None
    else Both(FamilyFold(snaps[..|snaps| - 1], name, mode), Lookup(snaps[|snaps| - 1].families, name), FamilyOp(mode))
  }

  /** The fold, read one family at a time. */
  lemma {:induction false} CoalesceByFamily(snaps: seq<MetricSet>, mode: CombineMode, now: Instant, sig: Signature,
                                            name: string)
    requires snaps != [] && AllFit(snaps, sig)
    ensures Distinct(Coalesce(snaps, mode, now).families)
    ensures Keys(Coalesce(snaps, mode, now).families) == Seen(snaps)
    ensures Lookup(Coalesce(snaps, mode, now).families, name) == FamilyFold(snaps, name, mode)
  {
    var init, last := snaps[..|snaps| - 1], snaps[|snaps| - 1];
    if init == [] {
      FreshOfNone(Keys(last.families));
    } else {
      CoalesceByFamily(init, mode, now, sig, name);
      MergeSpec(Coalesce(init, mode, now).families, last.families, FamilyOp(mode), name);
    }
  }

  lemma {:induction false} FreshOfNone(s: seq<string>)
    ensures Fresh(s, []) == s
  {
    if s != [] {
      FreshOfNone(s[..|s| - 1]);
    }
  }

  lemma {:induction false} FoldFits(snaps: seq<MetricSet>, name: string, mode: CombineMode, sig: Signature)
    requires AllFit(snaps, sig)
    ensures FamilyFold(snaps, name, mode).Some? ==> FitsFamily(FamilyFold(snaps, name, mode).value, sig(name))
  {
    if snaps != [] {
      var init, last := snaps[..|snaps| - 1], snaps[|snaps| - 1];
      FoldFits(init, name, mode, sig);
      var x, y := FamilyFold(init, name, mode), Lookup(last.families, name);
      if x.Some? && y.Some? {
        MergeFamilyFits(x.value, y.value, mode, sig(name));
      }
    }
  }

  /** Fold one family's series into another's, in place. */
  method MergeSeries(dst: seq<Entry<Labels, Point>>, src: seq<Entry<Labels, Point>>, mode: CombineMode,
                     ghost shape: Shape)
    returns (metrics: seq<Entry<Labels, Point>>)
    requires Distinct(dst) && forall i :: 0 <= i < |dst| ==> FitsPoint(dst[i].val, shape)
    requires forall i :: 0 <= i < |src| ==> FitsPoint(src[i].val, shape)
    ensures metrics == Merge(dst, src, PointOp(mode))
  {
    metrics := dst;
    for i := 0 to |src|
      invariant metrics == Merge(dst, src[..i], PointOp(mode))
      invariant forall j :: 0 <= j < |metrics| ==> FitsPoint(metrics[j].val, shape)
    {
      assert src[..i + 1][..i] == src[..i];
      var m := src[i];
      var at := Position(metrics, m.key);
      if at < |metrics| {
        CombineFits(metrics[at].val, m.val, mode, shape);
        var combined := CombineInto(metrics[at].val, m.val, mode);
        metrics := metrics[at := Entry(m.key, combined.value)];
      } else {
        metrics := metrics + [m];
      }
    }
    assert src[..|src|] == src;
  }

  method SeenFamilies(snaps: seq<MetricSet>, ghost sig: Signature) returns (seen: seq<string>)
    requires AllFit(snaps, sig)
    ensures seen == Seen(snaps)
  {
    seen := [];
    for i := 0 to |snaps|
      invariant seen == Seen(snaps[..i])
    {
      assert snaps[..i + 1][..i] == snaps[..i];
      ghost var before := seen;
      var families := snaps[i].families;
      for j := 0 to |families|
        invariant seen == before + Fresh(Keys(families)[..j], before)
      {
        var name := families[j].key;
        assert Keys(families)[..j + 1][..j] == Keys(families)[..j];
        assert name !in Keys(families)[..j] by {
          assert forall k :: 0 <= k < j ==> Keys(families)[..j][k] == families[k].key;
        }
        if name !in seen {
          seen := seen + [name];
        }
      }
      assert Keys(families)[..|families|] == Keys(families);
    }
    assert snaps[..|snaps|] == snaps;
  }

  method FoldFamily(snaps: seq<MetricSet>, name: string, mode: CombineMode, ghost sig: Signature)
    returns (acc: Option<Family>)
    requires AllFit(snaps, sig)
    ensures acc == FamilyFold(snaps, name, mode)
  {
    acc := None;
    for i := 0 to |snaps|
      invariant acc == FamilyFold(snaps[..i], name, mode)
    {
      assert snaps[..i + 1][..i] == snaps[..i];
      FoldFits(snaps[..i], name, mode, sig);
      var found := Lookup(snaps[i].families, name);
      if found.Some? {
        if acc.None? {
          acc := found;
        } else {
          var merged := MergeSeries(acc.value.metrics, found.value.metrics, mode, sig(name).shape);
          acc := Some(acc.value.(metrics := merged));
        }
      }
    }
    assert snaps[..|snaps|] == snaps;
  }

  /** Capture time, interval, partial flag and close reason over the whole list. */
  method FoldHeader(snaps: seq<MetricSet>, mode: CombineMode, now: Instant) returns (header: MetricSet)
    requires |snaps| > 1
    ensures header == Coalesce(snaps, mode, now).(families := [])
  {
    var first := snaps[0];
    var capturedAt, interval, partial, close := first.capturedAt, first.interval, first.partial, first.close;
    for i := 1 to |snaps|
      invariant Coalesce(snaps[..i], mode, now).capturedAt == capturedAt
      invariant Coalesce(snaps[..i], mode, now).interval == interval
      invariant Coalesce(snaps[..i], mode, now).partial == partial
      invariant Coalesce(snaps[..i], mode, now).close == close
      invariant i > 1 ==> Coalesce(snaps[..i], mode, now).scheduled == None
    {
      assert snaps[..i + 1][..i] == snaps[..i];
      var s := snaps[i];
      capturedAt := Max(capturedAt, s.capturedAt);
      interval := interval + s.interval;
      partial := partial || s.partial;
      close := Strongest(close, s.close);
    }
    assert snaps[..|snaps|] == snaps;
    header := MetricSet(capturedAt, interval, partial, close, None, []);
  }

  lemma {:induction false} FamilyAt(snaps: seq<MetricSet>, mode: CombineMode, now: Instant, sig: Signature, i: nat)
    requires snaps != [] && AllFit(snaps, sig)
    ensures |Seen(snaps)| == |Coalesce(snaps, mode, now).families|
    ensures i < |Seen(snaps)| ==>
      var target := Coalesce(snaps, mode, now).families[i];
      target.key == Seen(snaps)[i] && FamilyFold(snaps, target.key, mode) == Some(target.val)
  {
    var target := Coalesce(snaps, mode, now).families;
    CoalesceByFamily(snaps, mode, now, sig, "");
    assert |Keys(target)| == |target|;
    if i < |target| {
      CoalesceByFamily(snaps, mode, now, sig, target[i].key);
      LookupAt(target, i);
    }
  }

  method FoldFamilies(snaps: seq<MetricSet>, mode: CombineMode, ghost now: Instant, ghost sig: Signature)
    returns (families: seq<Entry<string, Family>>)
    requires snaps != [] && AllFit(snaps, sig)
    ensures families == Coalesce(snaps, mode, now).families
  {
    families := [];
    ghost var target := Coalesce(snaps, mode, now).families;
    FamilyAt(snaps, mode, now, sig, 0);
    var seen := SeenFamilies(snaps, sig);
    for i := 0 to |seen|
      invariant families == target[..i]
    {
      FamilyAt(snaps, mode, now, sig, i);
      var acc := FoldFamily(snaps, seen[i], mode, sig);
      assert target[..i + 1] == target[..i] + [target[i]];
      if acc.Some? {
        families := families + [Entry(seen[i], acc.value)];
      }
    }
    assert target[..|seen|] == target;
  }

  /** The code's three nested passes compute the pairwise fold. */
  method CoalesceWithMode(snaps: seq<MetricSet>, mode: CombineMode, now: Instant, ghost sig: Signature)
    returns (out: MetricSet)
    requires AllFit(snaps, sig)
    ensures out == Coalesce(snaps, mode, now)
  {
    if |snaps| == 0 {
      return Default(now);
    }
    if |snaps| == 1 {
      return snaps[0];
    }
    out := FoldHeader(snaps, mode, now);
    var families := FoldFamilies(snaps, mode, now, sig);
    out := out.(families := families);
  }
}
