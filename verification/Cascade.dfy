/** The cascade of one component path: one window per layer, sealed windows feeding the
    layer above, and what every layer holds after any run of ingests and closes. */
module Cascade {
  import opened Wrappers
  import opened Multiples
  import opened Snapshot
  import opened Windows

  /** A sealed window and the index of the layer that sealed it. */
  datatype Closed = Closed(layer: nat, window: MetricSet)

  function Opt(m: Option<MetricSet>): seq<MetricSet> {
    if m.None? then [] else [m.value]
  }

  function Sealed(layer: nat, window: Option<MetricSet>): seq<Closed> {
    if window.None? then [] else [Closed(layer, window.value)]
  }

  function FreshPath(layers: seq<Duration>): (ws: seq<Window>)
    ensures |ws| == |layers| && forall k :: 0 <= k < |layers| ==> ws[k] == Fresh(layers[k])
  {
    seq(|layers|, k requires 0 <= k < |layers| => Fresh(layers[k]))
  }

  // ---------------------------------------------------------------------
  // The two cascades
  // ---------------------------------------------------------------------

  // What a layer does with a window is a parameter, so that proofs about how windows rise do
  // not look into it.
  type Feed = (Window, MetricSet) -> (Window, Option<MetricSet>)

  /** Feed a window into layer `k`, what that seals into the layer above, and so on. */
  function Rise(ws: seq<Window>, k: nat, s: MetricSet, fold: Feed): (r: (seq<Window>, seq<Closed>))
    ensures |r.0| == |ws|
    decreases |ws| - k
  {
    if k >= |ws| then (ws, [])
    else
      var (w, closed) := fold(ws[k], s);
      if closed.None? then (ws[k := w], [])
      else
        var (rest, more) := Rise(ws[k := w], k + 1, closed.value, fold);
        (rest, [Closed(k, closed.value)] + more)
  }

  /** `ingest_cascade` from layer `k` up: returns the windows and what was sealed. */
  function IngestFrom(ws: seq<Window>, k: nat, s: MetricSet): (r: (seq<Window>, seq<Closed>))
    ensures |r.0| == |ws|
  {
    Rise(ws, k, s, IngestStep)
  }

  /** What layer `k` does with the window carried up to it: the result of the fold,
      a sealed window if the carry filled the layer, is thrown away. */
  function Carried(w: Window, carry: Option<MetricSet>): Window {
    if carry.None? then w else IngestStep(w, carry.value).0
  }

  function Discarded(w: Window, carry: Option<MetricSet>): Option<MetricSet> {
    if carry.None? then None else IngestStep(w, carry.value).1
  }

  /** What a close does to one layer: fold the carry in, then seal what is there. */
  function CloseLayer(w: Window, carry: Option<MetricSet>, reason: CloseReason): (Window, Option<MetricSet>) {
    ForceCloseStep(Carried(w, carry), reason)
  }

  /** `close_path_cascade` from layer `k` up, with the partial window carried so far. */
  function CloseFrom(ws: seq<Window>, k: nat, carry: Option<MetricSet>, reason: CloseReason)
    : (r: (seq<Window>, seq<Closed>))
    ensures |r.0| == |ws|
    decreases |ws| - k
  {
    if k >= |ws| then (ws, [])
    else
      var (w, sealed) := CloseLayer(ws[k], carry, reason);
      var (rest, more) := CloseFrom(ws[k := w], k + 1, sealed, reason);
      (rest, Sealed(k, sealed) + more)
  }

  /** Some layer from `k` up seals a window during the close whose result is discarded. */
  predicate CloseLoses(ws: seq<Window>, k: nat, carry: Option<MetricSet>, reason: CloseReason)
    decreases |ws| - k
  {
    k < |ws| &&
    (Discarded(ws[k], carry).Some? ||
     var (w, sealed) := CloseLayer(ws[k], carry, reason);
     CloseLoses(ws[k := w], k + 1, sealed, reason))
  }

  /** The windows of one layer, out of a list of sealed windows. */
  function Pick(closed: seq<Closed>, layer: nat): seq<MetricSet> {
    if closed == [] then []
    else (if closed[0].layer == layer then [closed[0].window] else []) + Pick(closed[1..], layer)
  }

  lemma {:induction false} PickCons(c: Closed, more: seq<Closed>, layer: nat)
    ensures Pick([c] + more, layer) == (if c.layer == layer then [c.window] else []) + Pick(more, layer)
  {
    assert ([c] + more)[1..] == more;
  }

  lemma {:induction false} PickSealed(k: nat, window: Option<MetricSet>, more: seq<Closed>, layer: nat)
    ensures Pick(Sealed(k, window) + more, layer) == (if k == layer then Opt(window) else []) + Pick(more, layer)
  {
    if window.Some? {
      PickCons(Closed(k, window.value), more, layer);
    } else {
      assert Sealed(k, window) + more == more;
    }
    assert [] + Pick(more, layer) == Pick(more, layer);
  }

  /** An ingest step that seals: what the whole cascade does, layer `j` by layer. */
  lemma {:induction false} IngestParts(ws: seq<Window>, k: nat, s: MetricSet, j: nat)
    requires k < |ws| && IngestStep(ws[k], s).1.Some?
    ensures var (w, closed) := IngestStep(ws[k], s);
      var rest := IngestFrom(ws[k := w], k + 1, closed.value);
      IngestFrom(ws, k, s).0 == rest.0 &&
      Pick(IngestFrom(ws, k, s).1, j) == (if k == j then [closed.value] else []) + Pick(rest.1, j)
  {
    var closed := IngestStep(ws[k], s).1;
    PickSealed(k, closed, IngestFrom(ws[k := IngestStep(ws[k], s).0], k + 1, closed.value).1, j);
  }

  lemma {:induction false} CloseParts(ws: seq<Window>, k: nat, carry: Option<MetricSet>, reason: CloseReason, j: nat)
    requires k < |ws|
    ensures var (w, sealed) := CloseLayer(ws[k], carry, reason);
      var rest := CloseFrom(ws[k := w], k + 1, sealed, reason);
      CloseFrom(ws, k, carry, reason).0 == rest.0 &&
      Pick(CloseFrom(ws, k, carry, reason).1, j) == (if k == j then Opt(sealed) else []) + Pick(rest.1, j)
  {
    var step := CloseLayer(ws[k], carry, reason);
    PickSealed(k, step.1, CloseFrom(ws[k := step.0], k + 1, step.1, reason).1, j);
  }

  lemma {:induction false} PickNone(closed: seq<Closed>, layer: nat)
    requires forall i :: 0 <= i < |closed| ==> closed[i].layer > layer
    ensures Pick(closed, layer) == []
  {
    if closed != [] {
      PickNone(closed[1..], layer);
    }
  }

  /** Nothing below layer `k` was touched and nothing there was sealed. */
  ghost predicate From(ws: seq<Window>, k: nat, r: (seq<Window>, seq<Closed>)) {
    |r.0| == |ws| && (forall j :: 0 <= j < k && j < |ws| ==> r.0[j] == ws[j]) &&
    (forall i :: 0 <= i < |r.1| ==> r.1[i].layer >= k)
  }

  lemma {:induction false} FromNext(ws: seq<Window>, k: nat, w: Window, sealed: Option<MetricSet>,
                                    rest: (seq<Window>, seq<Closed>))
    requires k < |ws| && From(ws[k := w], k + 1, rest)
    ensures From(ws, k, (rest.0, Sealed(k, sealed) + rest.1))
  {
  }

  lemma {:induction false} RiseStaysAbove(ws: seq<Window>, k: nat, s: MetricSet, fold: Feed)
    ensures From(ws, k, Rise(ws, k, s, fold))
    decreases |ws| - k
  {
    if k < |ws| {
      var (w, closed) := fold(ws[k], s);
      if closed.Some? {
        RiseStaysAbove(ws[k := w], k + 1, closed.value, fold);
        FromNext(ws, k, w, closed, Rise(ws[k := w], k + 1, closed.value, fold));
      }
    }
  }

  lemma {:induction false} CloseStaysAbove(ws: seq<Window>, k: nat, carry: Option<MetricSet>, reason: CloseReason)
    ensures From(ws, k, CloseFrom(ws, k, carry, reason))
    decreases |ws| - k
  {
    if k < |ws| {
      var (w, sealed) := CloseLayer(ws[k], carry, reason);
      CloseStaysAbove(ws[k := w], k + 1, sealed, reason);
      FromNext(ws, k, w, sealed, CloseFrom(ws[k := w], k + 1, sealed, reason));
    }
  }

  lemma {:induction false} IngestKeepsBelow(ws: seq<Window>, k: nat, s: MetricSet, j: nat)
    requires j < k && j < |ws|
    ensures IngestFrom(ws, k, s).0[j] == ws[j] && Pick(IngestFrom(ws, k, s).1, j) == []
  {
    RiseStaysAbove(ws, k, s, IngestStep);
    PickNone(IngestFrom(ws, k, s).1, j);
  }

  lemma {:induction false} CloseKeepsBelow(ws: seq<Window>, k: nat, carry: Option<MetricSet>, reason: CloseReason, j: nat)
    requires j < k && j < |ws|
    ensures CloseFrom(ws, k, carry, reason).0[j] == ws[j] && Pick(CloseFrom(ws, k, carry, reason).1, j) == []
  {
    CloseStaysAbove(ws, k, carry, reason);
    PickNone(CloseFrom(ws, k, carry, reason).1, j);
  }

  // ---------------------------------------------------------------------
  // Window accounting
  // ---------------------------------------------------------------------

  predicate Positive(layers: seq<Duration>) {
    forall k :: 0 <= k < |layers| ==> layers[k] > 0
  }

  /** Every layer's interval divides the next one's. */
  predicate Dividing(layers: seq<Duration>) {
    Positive(layers) && forall k :: 0 < k < |layers| ==> layers[k] % layers[k - 1] == 0
  }

  /** Up to layer `j`, every layer's interval divides the next one's. */
  predicate DividingTo(layers: seq<Duration>, j: nat) {
    Positive(layers) && forall k :: 0 < k <= j && k < |layers| ==> layers[k] % layers[k - 1] == 0
  }

  /** Accumulated time is the prebuffer's interval, below the cadence, and above the
      bottom layer a whole number of windows of the layer below. */
  ghost predicate Accounted(w: Window, layers: seq<Duration>, k: nat)
    requires k < |layers| && Positive(layers)
  {
    w.cadence == layers[k] &&
    w.accumulated == (if w.prebuffer.None? then 0 else w.prebuffer.value.interval) &&
    w.accumulated < layers[k] &&
    (w.prebuffer.Some? ==> w.prebuffer.value.families != []) &&
    (k > 0 ==> w.accumulated % layers[k - 1] == 0)
  }

  ghost predicate AllAccounted(ws: seq<Window>, layers: seq<Duration>) {
    Positive(layers) && |ws| == |layers| && forall k :: 0 <= k < |ws| ==> Accounted(ws[k], layers, k)
  }

  lemma {:induction false} MergeNonEmpty(a: MetricSet, b: MetricSet)
    requires a.families != []
    ensures MergeSets(a, b, Coalescing).families != []
  {
    MergeGrows(a.families, b.families, FamilyOp(Coalescing));
  }

  lemma {:induction false} MergeGrows<K, V>(a: seq<Keyed.Entry<K, V>>, b: seq<Keyed.Entry<K, V>>, f: (V, V) -> V)
    ensures |Keyed.Merge(a, b, f)| >= |a|
  {
    if b != [] {
      MergeGrows(a, b[..|b| - 1], f);
    }
  }

  /** What an ingest does to a layer's books, its cadence and retention aside. */
  lemma {:induction false} IngestStepFacts(w: Window, s: MetricSet)
    requires s.families != []
    requires w.accumulated == (if w.prebuffer.None? then 0 else w.prebuffer.value.interval)
    requires w.prebuffer.Some? ==> w.prebuffer.value.families != []
    ensures var (w', closed) := IngestStep(w, s);
      var total := w.accumulated + s.interval;
      w'.cadence == w.cadence &&
      (if total < w.cadence then
         closed.None? && w'.accumulated == total && w'.prebuffer.Some? &&
         w'.prebuffer.value.interval == total && w'.prebuffer.value.families != []
       else
         closed.Some? && closed.value.interval == w.cadence && closed.value.families != [] &&
         w'.accumulated == 0 && w'.prebuffer.None?)
  {
    if w.prebuffer.Some? {
      MergeNonEmpty(w.prebuffer.value, s);
    }
  }

  lemma {:induction false} IngestLayerAccounts(w: Window, s: MetricSet, layers: seq<Duration>, k: nat)
    requires Positive(layers) && k < |layers| && Accounted(w, layers, k) && s.families != []
    requires k > 0 ==> s.interval == layers[k - 1]
    ensures var (w', closed) := IngestStep(w, s);
      Accounted(w', layers, k)
      && (closed.Some? ==> closed.value.families != [] && closed.value.interval == layers[k])
  {
    IngestStepFacts(w, s);
    if k > 0 {
      MultiplePlus(w.accumulated, s.interval, layers[k - 1]);
      MultipleMod(0, layers[k - 1]);
    }
  }

  lemma {:induction false} CloseLayerEmpties(w: Window, carry: Option<MetricSet>, reason: CloseReason, layers: seq<Duration>, k: nat)
    requires Positive(layers) && k < |layers| && Accounted(w, layers, k)
    requires carry.Some? ==> carry.value.families != []
    ensures var (w', sealed) := CloseLayer(w, carry, reason);
      Accounted(w', layers, k) && w'.prebuffer.None? && (sealed.Some? ==> sealed.value.families != [])
  {
    if carry.Some? {
      IngestStepFacts(w, carry.value);
    }
    if k > 0 {
      MultipleMod(0, layers[k - 1]);
    }
  }

  /** With a divided layer and a carry shorter than the layer below, the carry does not fill it. */
  lemma {:induction false} CloseLayerFits(w: Window, carry: Option<MetricSet>, reason: CloseReason, layers: seq<Duration>, k: nat)
    requires Positive(layers) && k < |layers| && Accounted(w, layers, k)
    requires carry.Some? ==>
      k > 0 && layers[k] % layers[k - 1] == 0 && carry.value.families != [] && carry.value.interval < layers[k - 1]
    ensures Discarded(w, carry).None?
    ensures var sealed := CloseLayer(w, carry, reason).1;
      sealed.Some? ==> sealed.value.families != [] && sealed.value.interval < layers[k]
  {
    if carry.Some? {
      RoomForCarry(w.accumulated, layers[k], layers[k - 1], carry.value.interval);
      IngestStepFacts(w, carry.value);
    }
  }

  lemma {:induction false} IngestStepAccounts(ws: seq<Window>, k: nat, s: MetricSet, layers: seq<Duration>)
    requires AllAccounted(ws, layers) && s.families != [] && k < |ws|
    requires k > 0 ==> s.interval == layers[k - 1]
    ensures var (w, closed) := IngestStep(ws[k], s);
      AllAccounted(ws[k := w], layers)
      && (closed.Some? ==> closed.value.families != [] && closed.value.interval == layers[k])
  {
    IngestLayerAccounts(ws[k], s, layers, k);
  }

  /** Whatever the plan, an ingest keeps every layer accounted for. */
  lemma {:induction false} IngestAccounts(ws: seq<Window>, k: nat, s: MetricSet, layers: seq<Duration>)
    requires AllAccounted(ws, layers) && s.families != []
    requires k > 0 ==> k - 1 < |layers| && s.interval == layers[k - 1]
    ensures AllAccounted(IngestFrom(ws, k, s).0, layers)
    decreases |ws| - k
  {
    if k < |ws| {
      IngestStepAccounts(ws, k, s, layers);
      var step := IngestStep(ws[k], s);
      if step.1.Some? {
        IngestAccounts(ws[k := step.0], k + 1, step.1.value, layers);
      }
    }
  }

  /** One layer of a close, in place. */
  lemma {:induction false} CloseStepAccounts(ws: seq<Window>, k: nat, carry: Option<MetricSet>, reason: CloseReason,
                                             layers: seq<Duration>)
    requires AllAccounted(ws, layers) && k < |ws| && (carry.Some? ==> carry.value.families != [])
    ensures var (w, sealed) := CloseLayer(ws[k], carry, reason);
      AllAccounted(ws[k := w], layers) && w.prebuffer.None? && (sealed.Some? ==> sealed.value.families != [])
  {
    CloseLayerEmpties(ws[k], carry, reason, layers, k);
  }

  /** Whatever the plan, a close keeps every layer accounted for. */
  lemma {:induction false} CloseAccounts(ws: seq<Window>, k: nat, carry: Option<MetricSet>, reason: CloseReason,
                                         layers: seq<Duration>)
    requires AllAccounted(ws, layers) && (carry.Some? ==> carry.value.families != [])
    ensures AllAccounted(CloseFrom(ws, k, carry, reason).0, layers)
    decreases |ws| - k
  {
    if k < |ws| {
      CloseStepAccounts(ws, k, carry, reason, layers);
      var step := CloseLayer(ws[k], carry, reason);
      CloseAccounts(ws[k := step.0], k + 1, step.1, reason, layers);
    }
  }

  /** No layer from `k` up holds anything. */
  ghost predicate EmptyFrom(ws: seq<Window>, k: nat) {
    forall j :: k <= j < |ws| ==> ws[j].prebuffer.None?
  }

  lemma {:induction false} EmptyFromNext(ws: seq<Window>, k: nat)
    requires k < |ws| && ws[k].prebuffer.None? && EmptyFrom(ws, k + 1)
    ensures EmptyFrom(ws, k)
  {
  }

  /** And leaves each layer it visits empty. */
  lemma {:induction false} CloseEmpties(ws: seq<Window>, k: nat, carry: Option<MetricSet>, reason: CloseReason,
                                        layers: seq<Duration>)
    requires AllAccounted(ws, layers) && (carry.Some? ==> carry.value.families != [])
    ensures EmptyFrom(CloseFrom(ws, k, carry, reason).0, k)
    decreases |ws| - k
  {
    if k < |ws| {
      CloseStepAccounts(ws, k, carry, reason, layers);
      var step := CloseLayer(ws[k], carry, reason);
      var ws1 := ws[k := step.0];
      var rest := CloseFrom(ws1, k + 1, step.1, reason).0;
      CloseEmpties(ws1, k + 1, step.1, reason, layers);
      CloseKeepsBelow(ws1, k + 1, step.1, reason, k);
      EmptyFromNext(rest, k);
      assert CloseFrom(ws, k, carry, reason).0 == rest;
    }
  }

  /** With dividing layers the carry never fills a layer, so nothing the close discards
      is a window. */
  lemma {:induction false} CloseLosesNothing(ws: seq<Window>, k: nat, carry: Option<MetricSet>, reason: CloseReason,
                                             layers: seq<Duration>)
    requires Dividing(layers) && AllAccounted(ws, layers)
    requires carry.Some? ==> 0 < k <= |layers| && carry.value.families != [] && carry.value.interval < layers[k - 1]
    ensures !CloseLoses(ws, k, carry, reason)
    decreases |ws| - k
  {
    if k < |ws| {
      CloseStepAccounts(ws, k, carry, reason, layers);
      CloseLayerFits(ws[k], carry, reason, layers, k);
      var step := CloseLayer(ws[k], carry, reason);
      CloseLosesNothing(ws[k := step.0], k + 1, step.1, reason, layers);
    }
  }
}
