/** The owner's private map of windows: one window object per component path and layer,
    made on first use, cascading in place. */
module WindowStore {
  import opened Wrappers
  import opened Snapshot
  import opened Windows
  import opened Cascade
  import opened ReaderStates

  ghost predicate PrebuffersFit(ws: seq<Window>, sig: Signature) {
    forall k :: 0 <= k < |ws| && ws[k].prebuffer.Some? ==> Fits(ws[k].prebuffer.value, sig)
  }

  lemma {:induction false} FoldedFits(prebuffer: Option<MetricSet>, s: MetricSet, sig: Signature)
    requires Fits(s, sig) && (prebuffer.Some? ==> Fits(prebuffer.value, sig))
    ensures Fits(Folded(prebuffer, s), sig)
  {
    if prebuffer.Some? {
      MergeFits(prebuffer.value, s, Coalescing, sig);
    }
  }

  /** One layer's ingest keeps everything well typed, what it passes on included. */
  lemma {:induction false} IngestStepFits(w: Window, s: MetricSet, sig: Signature)
    requires Fits(s, sig) && (w.prebuffer.Some? ==> Fits(w.prebuffer.value, sig))
    ensures var (w', closed) := IngestStep(w, s);
      (w'.prebuffer.Some? ==> Fits(w'.prebuffer.value, sig)) && (closed.Some? ==> Fits(closed.value, sig))
  {
    FoldedFits(w.prebuffer, s, sig);
  }

  lemma {:induction false} CloseLayerFits(w: Window, carry: Option<MetricSet>, reason: CloseReason, sig: Signature)
    requires (carry.Some? ==> Fits(carry.value, sig)) && (w.prebuffer.Some? ==> Fits(w.prebuffer.value, sig))
    ensures var (w', sealed) := CloseLayer(w, carry, reason);
      w'.prebuffer.None? && (sealed.Some? ==> Fits(sealed.value, sig))
  {
    if carry.Some? {
      IngestStepFits(w, carry.value, sig);
    }
  }

  lemma {:induction false} UpdateFits(ws: seq<Window>, k: nat, s: MetricSet, sig: Signature)
    requires k < |ws| && PrebuffersFit(ws, sig) && Fits(s, sig)
    ensures var (w, closed) := IngestStep(ws[k], s);
      PrebuffersFit(ws[k := w], sig) && (closed.Some? ==> Fits(closed.value, sig))
  {
    IngestStepFits(ws[k], s, sig);
  }

  lemma {:induction false} CloseUpdateFits(ws: seq<Window>, k: nat, carry: Option<MetricSet>, reason: CloseReason, sig: Signature)
    requires k < |ws| && PrebuffersFit(ws, sig) && (carry.Some? ==> Fits(carry.value, sig))
    ensures var (w, sealed) := CloseLayer(ws[k], carry, reason);
      PrebuffersFit(ws[k := w], sig) && (sealed.Some? ==> Fits(sealed.value, sig))
  {
    CloseLayerFits(ws[k], carry, reason, sig);
  }

  /** An ingest cascade under way: `carry` has reached layer `k`, `done` has been sealed. */
  ghost predicate Ingesting(ws: seq<Window>, s: MetricSet, cur: seq<Window>, k: nat, carry: Option<MetricSet>,
                            done: seq<Closed>)
  {
    IngestFrom(ws, 0, s) ==
    if carry.None? then (cur, done)
    else var r := IngestFrom(cur, k, carry.value); (r.0, done + r.1)
  }

  lemma {:induction false} IngestBegins(ws: seq<Window>, s: MetricSet)
    ensures Ingesting(ws, s, ws, 0, Some(s), [])
  {
    assert [] + IngestFrom(ws, 0, s).1 == IngestFrom(ws, 0, s).1;
  }

  lemma {:induction false} IngestAdvances(ws: seq<Window>, s: MetricSet, cur: seq<Window>, k: nat, carry: MetricSet, done: seq<Closed>)
    requires k < |cur| && Ingesting(ws, s, cur, k, Some(carry), done)
    ensures var (w, sealed) := IngestStep(cur[k], carry);
      Ingesting(ws, s, cur[k := w], k + 1, sealed,
                if sealed.None? then done else done + [Closed(k, sealed.value)])
  {
    var step := IngestStep(cur[k], carry);
    if step.1.Some? {
      var c, rest := Closed(k, step.1.value), IngestFrom(cur[k := step.0], k + 1, step.1.value);
      assert done + ([c] + rest.1) == done + [c] + rest.1;
    } else {
      assert done + [] == done;
    }
  }

  lemma {:induction false} IngestEnds(ws: seq<Window>, s: MetricSet, cur: seq<Window>, k: nat, carry: Option<MetricSet>, done: seq<Closed>)
    requires Ingesting(ws, s, cur, k, carry, done) && (carry.None? || k >= |cur|)
    ensures IngestFrom(ws, 0, s) == (cur, done)
  {
    assert done + [] == done;
  }

  ghost predicate Closing(ws: seq<Window>, reason: CloseReason, cur: seq<Window>, k: nat, carry: Option<MetricSet>,
                          done: seq<Closed>)
  {
    CloseFrom(ws, 0, None, reason) == var r := CloseFrom(cur, k, carry, reason); (r.0, done + r.1)
  }

  lemma {:induction false} CloseBegins(ws: seq<Window>, reason: CloseReason)
    ensures Closing(ws, reason, ws, 0, None, [])
  {
    assert [] + CloseFrom(ws, 0, None, reason).1 == CloseFrom(ws, 0, None, reason).1;
  }

  lemma {:induction false} CloseAdvances(ws: seq<Window>, reason: CloseReason, cur: seq<Window>, k: nat, carry: Option<MetricSet>,
                      done: seq<Closed>)
    requires k < |cur| && Closing(ws, reason, cur, k, carry, done)
    ensures var (w, sealed) := CloseLayer(cur[k], carry, reason);
      Closing(ws, reason, cur[k := w], k + 1, sealed,
              if sealed.None? then done else done + [Closed(k, sealed.value)])
  {
    var step := CloseLayer(cur[k], carry, reason);
    var rest := CloseFrom(cur[k := step.0], k + 1, step.1, reason);
    assert CloseFrom(cur, k, carry, reason) == (rest.0, Sealed(k, step.1) + rest.1);
    DoneNext(done, k, step.1, rest.1);
  }

  lemma {:induction false} DoneNext(done: seq<Closed>, k: nat, sealed: Option<MetricSet>, more: seq<Closed>)
    ensures done + (Sealed(k, sealed) + more) ==
            (if sealed.None? then done else done + [Closed(k, sealed.value)]) + more
  {
  }

  lemma {:induction false} CloseEnds(ws: seq<Window>, reason: CloseReason, cur: seq<Window>, k: nat, carry: Option<MetricSet>,
                  done: seq<Closed>)
    requires Closing(ws, reason, cur, k, carry, done) && k >= |cur|
    ensures CloseFrom(ws, 0, None, reason) == (cur, done)
  {
    assert done + [] == done;
  }

  class WindowStore {
    const layers: seq<Duration>
    var windows: map<Key, CadenceWindow>

    ghost predicate Valid()
      reads this, windows.Values
    {
      layers != [] &&
      (forall key :: key in windows ==> key.1 < |layers| && windows[key].cadence == layers[key.1]) &&
      (forall a, b :: a in windows && b in windows && windows[a] == windows[b] ==> a == b)
    }

    /** What a key's window holds; an absent one reads like a new one. */
    ghost function View(key: Key): Window
      requires key.1 < |layers|
      reads this, windows.Values
    {
      if key in windows then windows[key].State() else Fresh(layers[key.1])
    }

    ghost predicate PathIs(path: string, ws: seq<Window>)
      reads this, windows.Values
    {
      |ws| == |layers| && forall k :: 0 <= k < |layers| ==> View((path, k)) == ws[k]
    }

    /** The path reads as these windows, all well typed. */
    ghost predicate Sound(path: string, ws: seq<Window>, sig: Signature)
      reads this, windows.Values
    {
      Valid() && PathIs(path, ws) && PrebuffersFit(ws, sig)
    }

    constructor (layers: seq<Duration>)
      requires layers != []
      ensures Valid() && this.layers == layers && windows == map[]
      ensures forall path :: PathIs(path, FreshPath(layers))
    {
      this.layers := layers;
      windows := map[];
    }

    /** The window under a key, made on first use. */
    method Slot(key: Key) returns (w: CadenceWindow)
      requires Valid() && key.1 < |layers|
      modifies this`windows
      ensures Valid() && key in windows && windows[key] == w
      ensures windows == old(windows)[key := w]
      ensures key in old(windows) ==> w == old(windows)[key]
      ensures key !in old(windows) ==> fresh(w)
      ensures w.State() == old(View(key))
    {
      if key !in windows {
        w := new CadenceWindow(layers[key.1]);
        windows := windows[key := w];
      } else {
        w := windows[key];
      }
    }

    /** Nothing under another path was touched. */
    twostate predicate OthersKept(path: string)
      reads this, windows.Values
    {
      forall key: Key {:trigger key in windows} :: key.0 != path ==>
        (key in windows <==> key in old(windows)) &&
        (key in windows ==> windows[key] == old(windows[key]) && windows[key].State() == old(windows[key].State()))
    }

    method IngestAt(path: string, k: nat, s: MetricSet, ghost ws: seq<Window>, ghost sig: Signature)
      returns (closed: Option<MetricSet>)
      requires Sound(path, ws, sig) && k < |layers| && Fits(s, sig)
      modifies this`windows, windows.Values
      ensures Sound(path, ws[k := IngestStep(ws[k], s).0], sig) && fresh(windows.Values - old(windows.Values))
      ensures closed == IngestStep(ws[k], s).1 && (closed.Some? ==> Fits(closed.value, sig))
      ensures OthersKept(path) && windows.Keys == old(windows.Keys) + {(path, k)}
    {
      UpdateFits(ws, k, s, sig);
      var w := Slot((path, k));
      assert w.State() == ws[k];
      closed := w.Ingest(s, sig);
      forall j | 0 <= j < |layers|
        ensures View((path, j)) == ws[k := IngestStep(ws[k], s).0][j]
      {
        if j != k && (path, j) in windows {
          assert windows[(path, j)] != w;
        }
      }
    }

    /** One layer of `ingest_cascade`. */
    method RaiseAt(path: string, k: nat, carry: MetricSet, done: seq<Closed>, ghost ws: seq<Window>, s: MetricSet,
                   ghost cur: seq<Window>, ghost sig: Signature)
      returns (sealed: Option<MetricSet>, closed: seq<Closed>, ghost next: seq<Window>)
      requires Sound(path, cur, sig) && k < |layers| && Fits(carry, sig) && Ingesting(ws, s, cur, k, Some(carry), done)
      modifies this`windows, windows.Values
      ensures Sound(path, next, sig) && fresh(windows.Values - old(windows.Values))
      ensures Ingesting(ws, s, next, k + 1, sealed, closed) && (sealed.Some? ==> Fits(sealed.value, sig))
      ensures OthersKept(path) && windows.Keys == old(windows.Keys) + {(path, k)}
    {
      IngestAdvances(ws, s, cur, k, carry, done);
      next := cur[k := IngestStep(cur[k], carry).0];
      sealed := IngestAt(path, k, carry, cur, sig);
      closed := if sealed.None? then done else done + [Closed(k, sealed.value)];
    }

    /** `ingest_cascade`: fold the snapshot into the bottom layer and each sealed window
        into the layer above. Returns what was sealed, smallest cadence first. */
    method IngestCascade(path: string, s: MetricSet, ghost ws: seq<Window>, ghost sig: Signature)
      returns (closed: seq<Closed>)
      requires Sound(path, ws, sig) && Fits(s, sig)
      modifies this`windows, windows.Values
      ensures Sound(path, IngestFrom(ws, 0, s).0, sig) && fresh(windows.Values - old(windows.Values))
      ensures closed == IngestFrom(ws, 0, s).1
      ensures OthersKept(path) && (path, 0) in windows
    {
      closed := [];
      var carry, k := Some(s), 0;
      ghost var cur := ws;
      IngestBegins(ws, s);
      while carry.Some? && k < |layers|
        invariant Sound(path, cur, sig) && fresh(windows.Values - old(windows.Values))
        invariant k <= |layers| && (carry.Some? ==> Fits(carry.value, sig))
        invariant OthersKept(path) && (carry.None? || k > 0 ==> (path, 0) in windows)
        invariant Ingesting(ws, s, cur, k, carry, closed)
        decreases |layers| - k
      {
        carry, closed, cur := RaiseAt(path, k, carry.value, closed, ws, s, cur, sig);
        k := k + 1;
      }
      IngestEnds(ws, s, cur, k, carry, closed);
    }

    /** One layer of `close_path_cascade`: fold the carry in, discarding what that fold
        returns, then seal what is there if there is a window at all. */
    method CloseAt(path: string, k: nat, carry: Option<MetricSet>, reason: CloseReason, ghost ws: seq<Window>,
                   ghost sig: Signature)
      returns (sealed: Option<MetricSet>)
      requires Sound(path, ws, sig) && k < |layers| && (carry.Some? ==> Fits(carry.value, sig))
      modifies this`windows, windows.Values
      ensures Sound(path, ws[k := CloseLayer(ws[k], carry, reason).0], sig)
      ensures fresh(windows.Values - old(windows.Values))
      ensures sealed == CloseLayer(ws[k], carry, reason).1 && (sealed.Some? ==> Fits(sealed.value, sig))
      ensures OthersKept(path) && old(windows.Keys) <= windows.Keys && (carry.None? ==> windows == old(windows))
    {
      CloseUpdateFits(ws, k, carry, reason, sig);
      if carry.Some? {
        var w := Slot((path, k));
        var ignored := w.Ingest(carry.value, sig);
      }
      sealed := None;
      if (path, k) in windows {
        sealed := windows[(path, k)].ForceClose(reason);
      }
      forall j | 0 <= j < |layers|
        ensures View((path, j)) == ws[k := CloseLayer(ws[k], carry, reason).0][j]
      {
        if j != k && (path, j) in windows && (path, k) in windows {
          assert windows[(path, j)] != windows[(path, k)];
        }
      }
    }

    /** `close_path_cascade`: seal every layer bottom up, each partial window carried into
        the layer above. Returns what was sealed, smallest cadence first. */
    method ClosePathCascade(path: string, reason: CloseReason, ghost ws: seq<Window>, ghost sig: Signature)
      returns (closed: seq<Closed>)
      requires Sound(path, ws, sig)
      modifies this`windows, windows.Values
      ensures Sound(path, CloseFrom(ws, 0, None, reason).0, sig) && fresh(windows.Values - old(windows.Values))
      ensures closed == CloseFrom(ws, 0, None, reason).1
      ensures OthersKept(path) && old(windows.Keys) <= windows.Keys && (closed == [] ==> windows == old(windows))
    {
      closed := [];
      var carry: Option<MetricSet> := None;
      ghost var cur := ws;
      CloseBegins(ws, reason);
      for k := 0 to |layers|
        invariant Sound(path, cur, sig) && fresh(windows.Values - old(windows.Values))
        invariant carry.Some? ==> Fits(carry.value, sig)
        invariant OthersKept(path) && old(windows.Keys) <= windows.Keys
        invariant closed == [] ==> carry.None? && windows == old(windows)
        invariant Closing(ws, reason, cur, k, carry, closed)
      {
        CloseAdvances(ws, reason, cur, k, carry, closed);
        ghost var step := CloseLayer(cur[k], carry, reason);
        carry := CloseAt(path, k, carry, reason, cur, sig);
        cur := cur[k := step.0];
        if carry.Some? {
          closed := closed + [Closed(k, carry.value)];
        }
      }
      CloseEnds(ws, reason, cur, |layers|, carry, closed);
    }
  }
}
