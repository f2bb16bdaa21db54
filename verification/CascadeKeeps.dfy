/** Any property of a window sequence that survives folding its last two windows,
    restamping and marking the last one, survives the cascade at every layer: it may be
    read off the layer's sealed windows followed by the prebuffers open below it. */
module CascadeKeeps {
  import opened Wrappers
  import opened Snapshot
  import opened Windows
  import opened Cascade

  type Property = seq<MetricSet> -> bool

  ghost predicate Stable(keeps: Property) {
    (forall rest, a, b {:trigger keeps(rest + [MergeSets(a, b, Coalescing)])} ::
       keeps(rest + [a] + [b]) ==> keeps(rest + [MergeSets(a, b, Coalescing)])) &&
    (forall rest, w, interval {:trigger keeps(rest + [Restamp(w, interval)])} ::
       keeps(rest + [w]) ==> keeps(rest + [Restamp(w, interval)])) &&
    (forall rest, w, reason {:trigger keeps(rest + [Mark(w, reason)])} ::
       keeps(rest + [w]) ==> keeps(rest + [Mark(w, reason)]))
  }

  /** The open prebuffers of layers `j` down to `k`, oldest data first. */
  function Open(ws: seq<Window>, j: nat, k: nat): seq<MetricSet>
    requires j < |ws|
    decreases j + 1 - k
  {
    if k > j then [] else Open(ws, j, k + 1) + Opt(ws[k].prebuffer)
  }

  lemma {:induction false} OpenFrame(ws: seq<Window>, j: nat, k: nat, i: nat, w: Window)
    requires j < |ws| && i < k && i < |ws|
    ensures Open(ws[i := w], j, k) == Open(ws, j, k)
    decreases j + 1 - k
  {
    if k <= j {
      OpenFrame(ws, j, k + 1, i, w);
    }
  }

  lemma {:induction false} OpenSkipsEmpty(ws: seq<Window>, j: nat, i: nat, k: nat)
    requires j < |ws| && i <= k <= j + 1
    requires forall l :: i <= l < k ==> ws[l].prebuffer.None?
    ensures Open(ws, j, i) == Open(ws, j, k)
    decreases k - i
  {
    if i < k {
      OpenSkipsEmpty(ws, j, i + 1, k);
      assert Open(ws, j, i + 1) + [] == Open(ws, j, i + 1);
    }
  }

  lemma {:induction false} OpenStep(log: seq<MetricSet>, ws: seq<Window>, j: nat, k: nat)
    requires k <= j < |ws|
    ensures log + Open(ws, j, k) == (log + Open(ws, j, k + 1)) + Opt(ws[k].prebuffer)
  {
  }

  /** What arrives at an open layer and what is already there become one window. */
  lemma {:induction false} FoldIn(rest: seq<MetricSet>, prebuffer: Option<MetricSet>, s: MetricSet, keeps: Property)
    requires Stable(keeps) && keeps(rest + Opt(prebuffer) + [s])
    ensures keeps(rest + [Folded(prebuffer, s)])
  {
    if prebuffer.None? {
      assert rest + Opt(prebuffer) == rest;
    }
  }

  /** The window a layer keeps open or passes on after folding `s` in. */
  function Outcome(w: Window, s: MetricSet): (m: MetricSet)
    ensures var (w', closed) := IngestStep(w, s);
      if closed.None? then w'.prebuffer == Some(m) else closed == Some(m) && w'.prebuffer.None?
  {
    var (w', closed) := IngestStep(w, s);
    if closed.None? then w'.prebuffer.value else closed.value
  }

  lemma {:induction false} OutcomeKeeps(rest: seq<MetricSet>, w: Window, s: MetricSet, keeps: Property)
    requires Stable(keeps) && keeps(rest + Opt(w.prebuffer) + [s])
    ensures keeps(rest + [Outcome(w, s)])
  {
    FoldIn(rest, w.prebuffer, s, keeps);
  }

  /** What layer `j` holds once an ingest from layer `k` is done. */
  function AfterIngest(ws: seq<Window>, k: nat, s: MetricSet, j: nat, log: seq<MetricSet>): seq<MetricSet>
    requires j < |ws|
  {
    log + Pick(IngestFrom(ws, k, s).1, j) + Open(IngestFrom(ws, k, s).0, j, 0)
  }

  lemma {:induction false} AfterIngestStops(ws: seq<Window>, k: nat, s: MetricSet, j: nat, log: seq<MetricSet>)
    requires k <= j < |ws| && IngestStep(ws[k], s).1.None?
    requires forall i :: 0 <= i < k ==> ws[i].prebuffer.None?
    ensures AfterIngest(ws, k, s, j, log) == log + Open(ws, j, k + 1) + [Outcome(ws[k], s)]
  {
    var w := IngestStep(ws[k], s).0;
    OpenFrame(ws, j, k + 1, k, w);
    OpenSkipsEmpty(ws[k := w], j, 0, k);
  }

  lemma {:induction false} AfterIngestSeals(ws: seq<Window>, k: nat, s: MetricSet, j: nat, log: seq<MetricSet>)
    requires k < j < |ws| && IngestStep(ws[k], s).1.Some?
    ensures AfterIngest(ws, k, s, j, log) ==
            AfterIngest(ws[k := IngestStep(ws[k], s).0], k + 1, Outcome(ws[k], s), j, log)
  {
    IngestParts(ws, k, s, j);
    var rest := IngestFrom(ws[k := IngestStep(ws[k], s).0], k + 1, Outcome(ws[k], s));
    assert [] + Pick(rest.1, j) == Pick(rest.1, j);
  }

  lemma {:induction false} AfterIngestSealsHere(ws: seq<Window>, k: nat, s: MetricSet, log: seq<MetricSet>)
    requires k < |ws| && IngestStep(ws[k], s).1.Some?
    requires forall i :: 0 <= i < k ==> ws[i].prebuffer.None?
    ensures AfterIngest(ws, k, s, k, log) == log + Open(ws, k, k + 1) + [Outcome(ws[k], s)]
  {
    SealsHere(ws, k, s);
    SealedHere(log, Outcome(ws[k], s));
  }

  lemma {:induction false} NothingOpen(next: seq<Window>, after: seq<Window>, k: nat)
    requires k < |next| == |after| && (forall i :: 0 <= i < k + 1 ==> next[i].prebuffer.None?)
    requires forall i :: 0 <= i < k + 1 ==> after[i] == next[i]
    ensures Open(after, k, 0) == []
  {
    OpenSkipsEmpty(after, k, 0, k + 1);
  }

  /** A layer that seals as the data rises through it seals once. */
  lemma {:induction false} RiseSealsOnce(ws: seq<Window>, k: nat, s: MetricSet, fold: Feed)
    requires k < |ws| && fold(ws[k], s).1.Some?
    ensures Pick(Rise(ws, k, s, fold).1, k) == [fold(ws[k], s).1.value]
  {
    var (w, closed) := fold(ws[k], s);
    var rest := Rise(ws[k := w], k + 1, closed.value, fold);
    RiseStaysAbove(ws[k := w], k + 1, closed.value, fold);
    PickNone(rest.1, k);
    PickCons(Closed(k, closed.value), rest.1, k);
  }

  /** And leaves everything up to it empty. */
  lemma {:induction false} RiseLeavesEmpty(ws: seq<Window>, k: nat, s: MetricSet, fold: Feed)
    requires k < |ws| && fold(ws[k], s).1.Some? && fold(ws[k], s).0.prebuffer.None?
    requires forall i :: 0 <= i < k ==> ws[i].prebuffer.None?
    ensures Open(Rise(ws, k, s, fold).0, k, 0) == []
  {
    var (w, closed) := fold(ws[k], s);
    RiseStaysAbove(ws[k := w], k + 1, closed.value, fold);
    NothingOpen(ws[k := w], Rise(ws[k := w], k + 1, closed.value, fold).0, k);
  }

  /** Layer `k` has sealed one window and everything up to it is empty. */
  lemma {:induction false} SealsHere(ws: seq<Window>, k: nat, s: MetricSet)
    requires k < |ws| && IngestStep(ws[k], s).1.Some?
    requires forall i :: 0 <= i < k ==> ws[i].prebuffer.None?
    ensures var r := IngestFrom(ws, k, s);
      Pick(r.1, k) == [Outcome(ws[k], s)] && Open(r.0, k, 0) == []
  {
    RiseSealsOnce(ws, k, s, IngestStep);
    RiseLeavesEmpty(ws, k, s, IngestStep);
  }

  lemma {:induction false} SealedHere(log: seq<MetricSet>, w: MetricSet)
    ensures log + [w] + [] == log + [] + [w]
  {
  }

  lemma {:induction false} AfterIngestEnds(ws: seq<Window>, k: nat, s: MetricSet, j: nat, log: seq<MetricSet>)
    requires k <= j < |ws| && (IngestStep(ws[k], s).1.None? || k == j)
    requires forall i :: 0 <= i < k ==> ws[i].prebuffer.None?
    ensures AfterIngest(ws, k, s, j, log) == log + Open(ws, j, k + 1) + [Outcome(ws[k], s)]
  {
    if IngestStep(ws[k], s).1.None? {
      AfterIngestStops(ws, k, s, j, log);
    } else {
      AfterIngestSealsHere(ws, k, s, log);
    }
  }

  /** What layer `j` comes to hold, followed from layer to layer. */
  function Settling(ws: seq<Window>, k: nat, s: MetricSet, j: nat, log: seq<MetricSet>): seq<MetricSet>
    requires k <= j < |ws|
    decreases j - k
  {
    var (w, closed) := IngestStep(ws[k], s);
    if closed.None? || k == j then log + Open(ws, j, k + 1) + [Outcome(ws[k], s)]
    else Settling(ws[k := w], k + 1, Outcome(ws[k], s), j, log)
  }

  lemma {:induction false} SettlesThere(ws: seq<Window>, k: nat, s: MetricSet, j: nat, log: seq<MetricSet>)
    requires k <= j < |ws|
    requires forall i :: 0 <= i < k ==> ws[i].prebuffer.None?
    ensures Settling(ws, k, s, j, log) == AfterIngest(ws, k, s, j, log)
    decreases j - k
  {
    if IngestStep(ws[k], s).1.None? || k == j {
      AfterIngestEnds(ws, k, s, j, log);
    } else {
      AfterIngestSeals(ws, k, s, j, log);
      SettlesThere(ws[k := IngestStep(ws[k], s).0], k + 1, Outcome(ws[k], s), j, log);
    }
  }

  /** Layer `k` folds in what reaches it and passes it on, if it does, with the property intact. */
  lemma {:induction false} IngestKeepsStep(ws: seq<Window>, k: nat, s: MetricSet, j: nat, log: seq<MetricSet>,
                                           keeps: Property)
    requires k <= j < |ws|
    requires Stable(keeps) && keeps(log + Open(ws, j, k) + [s])
    ensures keeps(log + Open(ws[k := IngestStep(ws[k], s).0], j, k + 1) + [Outcome(ws[k], s)])
    ensures keeps(log + Open(ws, j, k + 1) + [Outcome(ws[k], s)])
  {
    OpenStep(log, ws, j, k);
    OpenFrame(ws, j, k + 1, k, IngestStep(ws[k], s).0);
    OutcomeKeeps(log + Open(ws, j, k + 1), ws[k], s, keeps);
  }

  lemma {:induction false} SettlingKeeps(ws: seq<Window>, k: nat, s: MetricSet, j: nat, log: seq<MetricSet>,
                                         keeps: Property)
    requires k <= j < |ws|
    requires Stable(keeps) && keeps(log + Open(ws, j, k) + [s])
    ensures keeps(Settling(ws, k, s, j, log))
    decreases j - k
  {
    IngestKeepsStep(ws, k, s, j, log, keeps);
    if IngestStep(ws[k], s).1.Some? && k < j {
      SettlingKeeps(ws[k := IngestStep(ws[k], s).0], k + 1, Outcome(ws[k], s), j, log, keeps);
    }
  }

  /** An ingest that has reached layer `k`: layer `j` still keeps the property. */
  lemma {:induction false} IngestKeeps(ws: seq<Window>, k: nat, s: MetricSet, j: nat, log: seq<MetricSet>,
                                       keeps: Property)
    requires k <= j < |ws|
    requires forall i :: 0 <= i < k ==> ws[i].prebuffer.None?
    requires Stable(keeps) && keeps(log + Open(ws, j, k) + [s])
    ensures keeps(AfterIngest(ws, k, s, j, log))
  {
    SettlingKeeps(ws, k, s, j, log, keeps);
    SettlesThere(ws, k, s, j, log);
  }

  /** What one layer's close passes on holds what the layer and the carry held. */
  lemma {:induction false} CloseLayerKeeps(rest: seq<MetricSet>, w: Window, carry: Option<MetricSet>, reason: CloseReason,
                        keeps: Property)
    requires Discarded(w, carry).None?
    requires CloseLayer(w, carry, reason).1.None? ==> w.prebuffer.None? && carry.None?
    requires Stable(keeps) && keeps(rest + Opt(w.prebuffer) + Opt(carry))
    ensures keeps(rest + Opt(CloseLayer(w, carry, reason).1))
  {
    if carry.Some? {
      FoldIn(rest, w.prebuffer, carry.value, keeps);
    } else {
      AppendNone(rest + Opt(w.prebuffer));
    }
  }

  lemma {:induction false} AppendNone(s: seq<MetricSet>)
    ensures s + Opt(None) == s
  {
  }

  lemma {:induction false} CloseLayerSeals(w: Window, carry: Option<MetricSet>, reason: CloseReason, layers: seq<Duration>, k: nat)
    requires Positive(layers) && k < |layers| && Accounted(w, layers, k) && Discarded(w, carry).None?
    requires carry.Some? ==> carry.value.families != []
    ensures CloseLayer(w, carry, reason).1.None? ==> w.prebuffer.None? && carry.None?
  {
    if w.prebuffer.Some? && carry.Some? {
      MergeNonEmpty(w.prebuffer.value, carry.value);
    }
  }

  /** What layer `j` holds once a close from layer `k` is done. */
  function AfterClose(ws: seq<Window>, k: nat, carry: Option<MetricSet>, reason: CloseReason, j: nat,
                      log: seq<MetricSet>): seq<MetricSet>
  {
    log + Pick(CloseFrom(ws, k, carry, reason).1, j)
  }

  lemma {:induction false} AfterCloseHere(ws: seq<Window>, k: nat, carry: Option<MetricSet>, reason: CloseReason, log: seq<MetricSet>)
    requires k < |ws|
    ensures AfterClose(ws, k, carry, reason, k, log) == log + Opt(CloseLayer(ws[k], carry, reason).1)
  {
    var step := CloseLayer(ws[k], carry, reason);
    CloseParts(ws, k, carry, reason, k);
    CloseKeepsBelow(ws[k := step.0], k + 1, step.1, reason, k);
    assert Opt(step.1) + [] == Opt(step.1);
  }

  lemma {:induction false} AfterCloseAbove(ws: seq<Window>, k: nat, carry: Option<MetricSet>, reason: CloseReason, j: nat,
                        log: seq<MetricSet>)
    requires k < j < |ws|
    ensures var (w, sealed) := CloseLayer(ws[k], carry, reason);
      AfterClose(ws, k, carry, reason, j, log) == AfterClose(ws[k := w], k + 1, sealed, reason, j, log)
  {
    var step := CloseLayer(ws[k], carry, reason);
    CloseParts(ws, k, carry, reason, j);
    var rest := CloseFrom(ws[k := step.0], k + 1, step.1, reason);
    assert [] + Pick(rest.1, j) == Pick(rest.1, j);
  }

  lemma {:induction false} CloseKeepsStep(ws: seq<Window>, k: nat, carry: Option<MetricSet>, reason: CloseReason, j: nat,
                       layers: seq<Duration>, log: seq<MetricSet>, keeps: Property)
    requires k <= j < |ws| && DividingTo(layers, j) && AllAccounted(ws, layers)
    requires carry.Some? ==> 0 < k && carry.value.families != [] && carry.value.interval < layers[k - 1]
    requires Stable(keeps) && keeps(log + Open(ws, j, k) + Opt(carry))
    ensures var (w, sealed) := CloseLayer(ws[k], carry, reason);
      keeps(log + Open(ws[k := w], j, k + 1) + Opt(sealed))
  {
    CloseLayerFits(ws[k], carry, reason, layers, k);
    CloseLayerSeals(ws[k], carry, reason, layers, k);
    OpenStep(log, ws, j, k);
    OpenFrame(ws, j, k + 1, k, CloseLayer(ws[k], carry, reason).0);
    CloseLayerKeeps(log + Open(ws, j, k + 1), ws[k], carry, reason, keeps);
  }

  /** A close that has reached layer `k`: layer `j` still keeps the property. */
  lemma {:induction false} CloseKeeps(ws: seq<Window>, k: nat, carry: Option<MetricSet>, reason: CloseReason, j: nat,
                                    layers: seq<Duration>, log: seq<MetricSet>, keeps: Property)
    requires k <= j < |ws| && DividingTo(layers, j) && AllAccounted(ws, layers)
    requires carry.Some? ==> 0 < k && carry.value.families != [] && carry.value.interval < layers[k - 1]
    requires Stable(keeps) && keeps(log + Open(ws, j, k) + Opt(carry))
    ensures keeps(AfterClose(ws, k, carry, reason, j, log))
    decreases |ws| - k
  {
    var step := CloseLayer(ws[k], carry, reason);
    assert keeps(log + Open(ws[k := step.0], j, k + 1) + Opt(step.1)) by {
      CloseKeepsStep(ws, k, carry, reason, j, layers, log, keeps);
    }
    if k == j {
      AfterCloseHere(ws, k, carry, reason, log);
      AppendNone(log);
    } else {
      CloseStepAccounts(ws, k, carry, reason, layers);
      CloseLayerFits(ws[k], carry, reason, layers, k);
      CloseKeeps(ws[k := step.0], k + 1, step.1, reason, j, layers, log, keeps);
      AfterCloseAbove(ws, k, carry, reason, j, log);
    }
  }
}
