/** When the close cascade can lose a window. It throws away what folding a carried
    partial window into the layer above returns; that is harmless exactly when every
    layer's interval divides the next one's. */
module LostCarry {
  import opened Wrappers
  import opened Multiples
  import opened Keyed
  import opened Snapshot
  import opened Windows
  import opened Cascade
  import opened Runs
  import Planner

  // ---------------------------------------------------------------------
  // A run of ticks
  // ---------------------------------------------------------------------

  const COUNTERS: Signature := _ => FamilyType(CounterType, CounterShape)

  /** A snapshot of one counter, one base interval long. */
  function Tick(unit: Duration): MetricSet {
    MetricSet(0, unit, false, None, None,
              [Entry("ops", Family(CounterType, None, None, [Entry([], Point(Counter(0, None), Some(0)))]))])
  }

  function Ticks(n: nat, unit: Duration): (ops: seq<Op>)
    ensures |ops| == n && forall i :: 0 <= i < n ==> ops[i] == IngestOp(Tick(unit))
  {
    seq(n, _ => IngestOp(Tick(unit)))
  }

  /** Accumulated time is the prebuffer's, and no prebuffer is empty. */
  ghost predicate Booked(w: Window) {
    w.accumulated == (if w.prebuffer.None? then 0 else w.prebuffer.value.interval) &&
    (w.prebuffer.Some? ==> w.prebuffer.value.families != [])
  }

  ghost predicate AllBooked(ws: seq<Window>, layers: seq<Duration>) {
    |ws| == |layers| && forall i :: 0 <= i < |ws| ==> Booked(ws[i]) && ws[i].cadence == layers[i]
  }

  /** Time accumulated in layers `i` to `j`. */
  function OpenTime(ws: seq<Window>, j: nat, i: nat): nat
    requires j < |ws|
    decreases j + 1 - i
  {
    if i > j then 0 else ws[i].accumulated + OpenTime(ws, j, i + 1)
  }

  lemma {:induction false} OpenTimeFrame(ws: seq<Window>, j: nat, i: nat, l: nat, w: Window)
    requires j < |ws| && l < i && l < |ws|
    ensures OpenTime(ws[l := w], j, i) == OpenTime(ws, j, i)
    decreases j + 1 - i
  {
    if i <= j {
      OpenTimeFrame(ws, j, i + 1, l, w);
    }
  }

  lemma {:induction false} OpenTimeSkips(ws: seq<Window>, j: nat, i: nat, l: nat)
    requires j < |ws| && i <= l
    requires forall m :: i <= m < l && m < |ws| ==> ws[m].accumulated == 0
    ensures OpenTime(ws, j, i) == OpenTime(ws, j, l)
    decreases l - i
  {
    if i < l {
      OpenTimeSkips(ws, j, i + 1, l);
    }
  }

  lemma {:induction false} IngestStepBooked(w: Window, s: MetricSet)
    requires Booked(w) && s.families != []
    ensures var (w', closed) := IngestStep(w, s);
      Booked(w') && w'.cadence == w.cadence &&
      (closed.None? <==> w.accumulated + s.interval < w.cadence) &&
      w'.accumulated == (if closed.None? then w.accumulated + s.interval else 0) &&
      (closed.Some? ==> closed.value.families != [] && closed.value.interval == w.cadence)
  {
    if w.prebuffer.Some? {
      MergeNonEmpty(w.prebuffer.value, s);
    }
  }

  /** Every layer is a whole number of base intervals. */
  predicate OnBase(layers: seq<Duration>, unit: Duration) {
    unit > 0 && forall i :: 0 <= i < |layers| ==> layers[i] % unit == 0
  }

  /** Layers below `k` divide each other; layer `k` is the first not divided. */
  ghost predicate FirstBreak(layers: seq<Duration>, k: nat, unit: Duration) {
    0 < k < |layers| && Positive(layers) && OnBase(layers, unit) &&
    (forall i :: 0 < i < k ==> layers[i] % layers[i - 1] == 0) && layers[k] % layers[k - 1] != 0
  }

  lemma {:induction false} DividesUp(layers: seq<Duration>, k: nat, unit: Duration, i: nat, j: nat)
    requires FirstBreak(layers, k, unit) && i <= j < k
    ensures layers[j] % layers[i] == 0
    decreases j - i
  {
    if i < j {
      DividesUp(layers, k, unit, i, j - 1);
      MultipleTransitive(layers[i], layers[j - 1], layers[j]);
    } else {
      DivisionUnique(layers[i], 1, 0, layers[i]);
    }
  }

  /** After time `t` the layers up to `j` hold `t` modulo layer `j`'s interval. */
  ghost predicate Clock(ws: seq<Window>, layers: seq<Duration>, k: nat, unit: Duration, t: nat)
    requires FirstBreak(layers, k, unit)
  {
    AllBooked(ws, layers) && (forall j :: 0 <= j < k ==> OpenTime(ws, j, 0) == t % layers[j]) &&
    OpenTime(ws, k, 0) == t
  }

  lemma {:induction false} ModNext(t: nat, unit: nat, c: nat)
    requires c > 0 && unit > 0 && c % unit == 0 && t % unit == 0
    ensures (t + unit) % c == if t % c + unit == c then 0 else t % c + unit
  {
    RestIsMultiple(t, unit, c);
    UnitFits(t % c, unit, c);
    DivideNext(t, t / c, t % c, unit, c);
  }

  lemma {:induction false} DivideNext(t: nat, q: nat, r: nat, unit: nat, c: nat)
    requires t == q * c + r && r + unit <= c && r < c
    ensures (t + unit) % c == if r + unit == c then 0 else r + unit
  {
    if r + unit == c {
      assert t + unit == (q + 1) * c + 0;
      DivisionUnique(t + unit, q + 1, 0, c);
    } else {
      DivisionUnique(t + unit, q, r + unit, c);
    }
  }

  /** What is left of whole base intervals after whole layers is whole base intervals. */
  lemma {:induction false} RestIsMultiple(t: nat, unit: nat, c: nat)
    requires c > 0 && unit > 0 && c % unit == 0 && t % unit == 0
    ensures (t % c) % unit == 0
  {
    var p := Quotient(t, unit);
    var q := Quotient(c, unit);
    var n := t / c;
    assert n * c == (n * q) * unit;
    assert t % c == p * unit - (n * q) * unit == (p - n * q) * unit;
    if p < n * q {
      AtLeastOne(n * q - p, unit);
    } else {
      MultipleMod(p - n * q, unit);
    }
  }

  lemma {:induction false} UnitFits(r: nat, unit: nat, c: nat)
    requires unit > 0 && r % unit == 0 && c % unit == 0 && r < c
    ensures r + unit <= c
  {
    var p := Quotient(r, unit);
    var q := Quotient(c, unit);
    if p >= q {
      Monotone(q, p, unit);
    } else {
      Monotone(p + 1, q, unit);
    }
  }

  lemma {:induction false} ModOfMod(t: nat, a: nat, b: nat)
    requires a > 0 && b > 0 && b % a == 0 && t % b == 0
    ensures t % a == 0
  {
    MultipleTransitive(a, b, t);
  }

  /** One tick, carried up to layer `i` as a window of `i`'s lower neighbour. */
  lemma {:induction false} TickFrom(ws: seq<Window>, i: nat, s: MetricSet, layers: seq<Duration>, k: nat, unit: Duration, t: nat)
    requires FirstBreak(layers, k, unit) && AllBooked(ws, layers) && s.families != []
    requires t % unit == 0 && t + unit <= layers[k] && i <= k
    requires forall m :: 0 <= m < i ==> ws[m].accumulated == 0 && (t + unit) % layers[m] == 0
    requires forall j :: i <= j < k ==> OpenTime(ws, j, i) + s.interval == t % layers[j] + unit
    requires OpenTime(ws, k, i) + s.interval == t + unit
    ensures Clock(IngestFrom(ws, i, s).0, layers, k, unit, t + unit)
    decreases k - i
  {
    var w, closed := IngestStep(ws[i], s).0, IngestStep(ws[i], s).1;
    var ws1 := ws[i := w];
    IngestStepBooked(ws[i], s);
    var next := i + 1;
    forall j | i <= j <= k
      ensures OpenTime(ws1, j, next) == OpenTime(ws, j, next)
    {
      OpenTimeFrame(ws, j, next, i, w);
    }
    if i == k {
      NotDue(layers, k, unit, t);
    }
    if closed.Some? {
      assert i < k;
      ModNext(t, unit, layers[i]);
      RestIsMultiple(t, unit, layers[i]);
      UnitFits(t % layers[i], unit, layers[i]);
      TickFrom(ws1, i + 1, closed.value, layers, k, unit, t);
    } else {
      TickStops(ws1, i, layers, k, unit, t);
    }
  }

  /** Layer `k` never fills: its interval is not a multiple of what reaches it. */
  lemma {:induction false} NotDue(layers: seq<Duration>, k: nat, unit: Duration, t: nat)
    requires FirstBreak(layers, k, unit) && t + unit <= layers[k] && (t + unit) % layers[k - 1] == 0
    ensures t + unit < layers[k]
  {
  }

  /** The tick came to rest at layer `i`. */
  lemma {:induction false} TickStops(ws: seq<Window>, i: nat, layers: seq<Duration>, k: nat, unit: Duration, t: nat)
    requires FirstBreak(layers, k, unit) && AllBooked(ws, layers) && i <= k && t % unit == 0
    requires forall m :: 0 <= m < i ==> ws[m].accumulated == 0 && (t + unit) % layers[m] == 0
    requires forall j :: i <= j < k ==> OpenTime(ws, j, i) == t % layers[j] + unit
    requires OpenTime(ws, k, i) == t + unit
    requires i < k ==> ws[i].accumulated < layers[i]
    ensures Clock(ws, layers, k, unit, t + unit)
  {
    forall j | 0 <= j < k
      ensures OpenTime(ws, j, 0) == (t + unit) % layers[j]
    {
      OpenTimeSkips(ws, j, 0, Min(i, j + 1));
      if i <= j {
        ModNext(t, unit, layers[j]);
        assert OpenTime(ws, i, i + 1) == 0;
        if t % layers[j] + unit == layers[j] {
          DividesUp(layers, k, unit, i, j);
          ModOfMod(t + unit, layers[i], layers[j]);
          ModNext(t, unit, layers[i]);
          assert false;
        }
      }
    }
    OpenTimeSkips(ws, k, 0, i);
  }

  lemma {:induction false} NoTicks(layers: seq<Duration>, k: nat, unit: Duration)
    requires FirstBreak(layers, k, unit)
    ensures Clock(FreshPath(layers), layers, k, unit, 0)
  {
    var ws := FreshPath(layers);
    forall j | 0 <= j <= k
      ensures OpenTime(ws, j, 0) == 0
    {
      OpenTimeSkips(ws, j, 0, j + 1);
    }
  }

  lemma {:induction false} OneTick(ws: seq<Window>, layers: seq<Duration>, k: nat, unit: Duration, t: nat)
    requires FirstBreak(layers, k, unit) && Clock(ws, layers, k, unit, t) && t % unit == 0 && t + unit <= layers[k]
    ensures Clock(IngestFrom(ws, 0, Tick(unit)).0, layers, k, unit, t + unit)
  {
    TickFrom(ws, 0, Tick(unit), layers, k, unit, t);
  }

  lemma {:induction false} OneTickMore(layers: seq<Duration>, unit: Duration, n: nat)
    requires n > 0
    ensures Run(layers, Ticks(n, unit)).ws == IngestFrom(Run(layers, Ticks(n - 1, unit)).ws, 0, Tick(unit)).0
  {
    assert Ticks(n, unit)[..n - 1] == Ticks(n - 1, unit);
  }

  lemma {:induction false} TicksRun(layers: seq<Duration>, k: nat, unit: Duration, n: nat)
    requires FirstBreak(layers, k, unit) && n * unit <= layers[k]
    ensures Clock(Run(layers, Ticks(n, unit)).ws, layers, k, unit, n * unit)
  {
    if n == 0 {
      NoTicks(layers, k, unit);
    } else {
      var t := (n - 1) * unit;
      assert n * unit == t + unit && t % unit == 0 by {
        MultipleMod(n - 1, unit);
      }
      TicksRun(layers, k, unit, n - 1);
      OneTick(Run(layers, Ticks(n - 1, unit)).ws, layers, k, unit, t);
      OneTickMore(layers, unit, n);
    }
  }

  // ---------------------------------------------------------------------
  // The close that loses
  // ---------------------------------------------------------------------

  function CarryTime(carry: Option<MetricSet>): nat {
    if carry.None? then 0 else carry.value.interval
  }

  lemma {:induction false} CloseLayerTime(w: Window, carry: Option<MetricSet>, reason: CloseReason)
    requires Booked(w) && (carry.Some? ==> carry.value.families != [])
    requires w.accumulated + CarryTime(carry) < w.cadence
    ensures Discarded(w, carry).None?
    ensures var (w', sealed) := CloseLayer(w, carry, reason);
      CarryTime(sealed) == w.accumulated + CarryTime(carry) &&
      (sealed.Some? ==> sealed.value.families != []) && Booked(w') && w'.cadence == w.cadence
  {
    if carry.Some? {
      IngestStepBooked(w, carry.value);
    }
  }

  /** The carry reaches layer `k` and fills it. */
  lemma {:induction false} CarryFills(ws: seq<Window>, i: nat, carry: Option<MetricSet>, reason: CloseReason,
                                      layers: seq<Duration>, k: nat)
    requires i <= k < |layers| && AllBooked(ws, layers) && (carry.Some? ==> carry.value.families != [])
    requires forall j :: i <= j < k ==> CarryTime(carry) + OpenTime(ws, j, i) < layers[j]
    requires CarryTime(carry) + OpenTime(ws, k, i) >= layers[k] > ws[k].accumulated
    ensures CloseLoses(ws, i, carry, reason)
    decreases k - i
  {
    if i == k {
      assert OpenTime(ws, k, k + 1) == 0;
    } else {
      assert OpenTime(ws, i, i + 1) == 0;
      CloseLayerTime(ws[i], carry, reason);
      var step := CloseLayer(ws[i], carry, reason);
      var ws1, next := ws[i := step.0], i + 1;
      forall j | i < j <= k
        ensures OpenTime(ws1, j, next) == OpenTime(ws, j, next)
      {
        OpenTimeFrame(ws, j, next, i, step.0);
      }
      CarryFills(ws[i := step.0], i + 1, step.1, reason, layers, k);
    }
  }

  lemma {:induction false} OpenTimeSplit(ws: seq<Window>, j: nat, i: nat)
    requires i <= j < |ws|
    ensures OpenTime(ws, j, i) == (if j > 0 then OpenTime(ws, j - 1, i) else 0) + ws[j].accumulated
    decreases j - i
  {
    if i < j {
      OpenTimeSplit(ws, j, i + 1);
    } else {
      assert OpenTime(ws, j, j + 1) == 0;
    }
  }

  /** As many base ticks as the first undivided layer is long, then a close: the window
      that layer seals is neither carried on nor handed to subscribers. */
  lemma {:induction false} BreakLoses(layers: seq<Duration>, k: nat, unit: Duration, reason: CloseReason)
    requires FirstBreak(layers, k, unit)
    ensures Legal(Ticks(layers[k] / unit, unit), COUNTERS) && Loses(layers, Ticks(layers[k] / unit, unit), reason)
  {
    var n := Quotient(layers[k], unit);
    DivisionUnique(layers[k], n, 0, unit);
    var ws := Run(layers, Ticks(n, unit)).ws;
    TicksRun(layers, k, unit, n);
    OpenTimeSplit(ws, k, 0);
    CarryFills(ws, 0, None, reason, layers, k);
  }

  lemma {:induction false} FindBreak(layers: seq<Duration>, unit: Duration, n: nat) returns (k: nat)
    requires Positive(layers) && OnBase(layers, unit) && n <= |layers|
    requires exists i :: 0 < i < n && layers[i] % layers[i - 1] != 0
    ensures FirstBreak(layers, k, unit)
  {
    var i :| 0 < i < n && layers[i] % layers[i - 1] != 0;
    if exists j :: 0 < j < i && layers[j] % layers[j - 1] != 0 {
      k := FindBreak(layers, unit, i);
    } else {
      k := i;
    }
  }

  /** After these operations a close would seal a window and drop it. */
  ghost predicate Loses(layers: seq<Duration>, ops: seq<Op>, reason: CloseReason) {
    NonEmpty(ops) && CloseLoses(Run(layers, ops).ws, 0, None, reason)
  }

  lemma {:induction false} DividingNeverLoses(layers: seq<Duration>, ops: seq<Op>, reason: CloseReason)
    requires Dividing(layers)
    ensures !Loses(layers, ops, reason)
  {
    if NonEmpty(ops) {
      RunAccounted(layers, ops);
      CloseLosesNothing(Run(layers, ops).ws, 0, None, reason, layers);
    }
  }

  /** No run of non-empty ingests, of whatever metrics and intervals, and of closes ever loses
      a window in a close if and only if every layer's interval divides the next one's. */
  lemma {:induction false} NeverLosesIffDividing(layers: seq<Duration>)
    requires Positive(layers)
    ensures Dividing(layers) <==> forall ops, reason :: !Loses(layers, ops, reason)
  {
    if Dividing(layers) {
      forall ops, reason
        ensures !Loses(layers, ops, reason)
      {
        DividingNeverLoses(layers, ops, reason);
      }
    } else {
      BaseTicksLose(layers, 1, Quiesce);
    }
  }

  /** Nor does it take odd ingests: if some layer is not divided, base ticks alone lose one. */
  lemma {:induction false} BaseTicksLose(layers: seq<Duration>, unit: Duration, reason: CloseReason)
    requires Positive(layers) && OnBase(layers, unit) && !Dividing(layers)
    ensures exists n :: Loses(layers, Ticks(n, unit), reason)
  {
    var k := FindBreak(layers, unit, |layers|);
    BreakLoses(layers, k, unit, reason);
  }

  /** 1s/10s/45s, each a multiple of a one-second base: 45 ticks followed by a close lose a window. */
  lemma {:induction false} TenIntoFortyFive()
    ensures var layers := [SECOND, 10 * SECOND, 45 * SECOND];
      Positive(layers) && OnBase(layers, SECOND) && !Dividing(layers) && Loses(layers, Ticks(45, SECOND), Quiesce)
  {
    var layers: seq<Duration> := [SECOND, 10 * SECOND, 45 * SECOND];
    assert FirstBreak(layers, 2, SECOND);
    BreakLoses(layers, 2, SECOND, Quiesce);
  }

  /** The planner's validation accepts those cadences, and the layers it plans for them are these. */
  method PlannedLayersLose() returns (layers: seq<Duration>)
    ensures layers == [SECOND, 10 * SECOND, 45 * SECOND] && Loses(layers, Ticks(45, SECOND), Quiesce)
  {
    var plan := Planner.PlanTenIntoFortyFive();
    layers := Planner.Intervals(plan.value);
    TenIntoFortyFive();
  }
}
