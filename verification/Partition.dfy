/** Nothing is lost and nothing is counted twice: at every layer, the sealed windows and
    the prebuffers still open below them cut the ingest history into consecutive blocks. */
module Partition {
  import opened Wrappers
  import opened Snapshot
  import opened Windows
  import opened CascadeKeeps

  /** `w` holds what coalescing `block` gives: the same families and capture time; and it
      is at least as partial, and closed at least as strongly, as the block is. */
  ghost predicate Holds(w: MetricSet, block: seq<MetricSet>, sig: Signature) {
    block != [] && AllFit(block, sig) && Fits(w, sig) &&
    var c := Coalesce(block, Coalescing, 0);
    w.families == c.families && w.capturedAt == c.capturedAt &&
    (c.partial ==> w.partial) && Strength(w.close) >= Strength(c.close)
  }

  /** The windows hold consecutive blocks of the history, in order and without gaps. */
  ghost predicate Tiles(windows: seq<MetricSet>, history: seq<MetricSet>, sig: Signature)
    decreases |windows|, 1
  {
    if windows == [] then history == []
    else exists n :: 0 <= n <= |history| && LastTile(windows, history, n, sig)
  }

  ghost predicate LastTile(windows: seq<MetricSet>, history: seq<MetricSet>, n: nat, sig: Signature)
    requires windows != [] && n <= |history|
    decreases |windows|, 0
  {
    Holds(windows[|windows| - 1], history[n..], sig) && Tiles(windows[..|windows| - 1], history[..n], sig)
  }

  // ---------------------------------------------------------------------
  // Blocks
  // ---------------------------------------------------------------------

  lemma {:induction false} HoldsItself(s: MetricSet, sig: Signature)
    requires Fits(s, sig)
    ensures Holds(s, [s], sig)
  {
  }

  lemma {:induction false} HoldsMerge(a: MetricSet, x: seq<MetricSet>, b: MetricSet, y: seq<MetricSet>, sig: Signature)
    requires Holds(a, x, sig) && Holds(b, y, sig)
    ensures Holds(MergeSets(a, b, Coalescing), x + y, sig)
  {
    CoalesceConcat(x, y, Coalescing, 0, sig);
    MergeFits(a, b, Coalescing, sig);
  }

  lemma {:induction false} HoldsMarked(w: MetricSet, block: seq<MetricSet>, reason: CloseReason, sig: Signature)
    requires Holds(w, block, sig)
    ensures Holds(Mark(w, reason), block, sig)
  {
  }

  lemma {:induction false} TilesNonEmpty(windows: seq<MetricSet>, history: seq<MetricSet>, sig: Signature) returns (n: nat)
    requires windows != [] && Tiles(windows, history, sig)
    ensures n < |history| && LastTile(windows, history, n, sig)
  {
    n :| 0 <= n <= |history| && LastTile(windows, history, n, sig);
  }

  /** One more ingest: one more window and one more block. */
  lemma {:induction false} TilesSnoc(windows: seq<MetricSet>, history: seq<MetricSet>, s: MetricSet, sig: Signature)
    requires Tiles(windows, history, sig) && Fits(s, sig)
    ensures Tiles(windows + [s], history + [s], sig)
  {
    HoldsItself(s, sig);
    var all, h, n := windows + [s], history + [s], |history|;
    assert all[..|all| - 1] == windows && h[..n] == history && h[n..] == [s];
    assert LastTile(all, h, n, sig);
  }

  /** The last window may be replaced by another that holds the same block. */
  lemma {:induction false} TilesReplace(windows: seq<MetricSet>, a: MetricSet, b: MetricSet, history: seq<MetricSet>, sig: Signature)
    requires Tiles(windows + [a], history, sig)
    requires forall block :: Holds(a, block, sig) ==> Holds(b, block, sig)
    ensures Tiles(windows + [b], history, sig)
  {
    var n := TilesNonEmpty(windows + [a], history, sig);
    assert (windows + [a])[..|windows|] == windows == (windows + [b])[..|windows|];
    assert LastTile(windows + [b], history, n, sig);
  }

  /** Folding the last two windows together folds their blocks together. */
  lemma {:induction false} TilesFold(windows: seq<MetricSet>, a: MetricSet, b: MetricSet, history: seq<MetricSet>, sig: Signature)
    requires Tiles(windows + [a] + [b], history, sig)
    ensures Tiles(windows + [MergeSets(a, b, Coalescing)], history, sig)
  {
    var m := MergeSets(a, b, Coalescing);
    var n := TilesNonEmpty(windows + [a] + [b], history, sig);
    assert (windows + [a] + [b])[..|windows| + 1] == windows + [a];
    var p := TilesNonEmpty(windows + [a], history[..n], sig);
    assert (windows + [a])[..|windows|] == windows == (windows + [m])[..|windows|];
    assert history[..n][p..] + history[n..] == history[p..] && history[..n][..p] == history[..p];
    HoldsMerge(a, history[..n][p..], b, history[n..], sig);
    assert LastTile(windows + [m], history, p, sig);
  }

  lemma {:induction false} TilesStable(history: seq<MetricSet>, sig: Signature)
    ensures Stable((x: seq<MetricSet>) => Tiles(x, history, sig))
  {
    forall rest, a, b | Tiles(rest + [a] + [b], history, sig)
      ensures Tiles(rest + [MergeSets(a, b, Coalescing)], history, sig)
    {
      TilesFold(rest, a, b, history, sig);
    }
    forall rest, w, interval | Tiles(rest + [w], history, sig)
      ensures Tiles(rest + [Restamp(w, interval)], history, sig)
    {
      TilesReplace(rest, w, Restamp(w, interval), history, sig);
    }
    forall rest, w, reason | Tiles(rest + [w], history, sig)
      ensures Tiles(rest + [Mark(w, reason)], history, sig)
    {
      forall block | Holds(w, block, sig)
        ensures Holds(Mark(w, reason), block, sig)
      {
        HoldsMarked(w, block, reason, sig);
      }
      TilesReplace(rest, w, Mark(w, reason), history, sig);
    }
  }
}
