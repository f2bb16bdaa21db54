/** What a node emits for a stream of equal ticks, in closed form; and when gathering through an
    intermediate node shows. */
module ScheduleBlocks {
  import opened Wrappers
  import opened Multiples
  import opened Snapshot
  import opened ScheduleTree

  /** How many ticks fill an interval. */
  function TicksTo(interval: Duration, d: Duration): (n: nat)
    requires d > 0 && interval > 0
    ensures n > 0 && n * d >= interval && (n - 1) * d < interval
  {
    var n := (interval - 1) / d + 1;
    assert interval - 1 == (n - 1) * d + (interval - 1) % d;
    assert n * d == (n - 1) * d + d;
    n
  }

  ghost predicate Even(stream: seq<MetricSet>, d: Duration) {
    forall i :: 0 <= i < |stream| ==> stream[i].interval == d
  }

  /** `out` holds the stream's full blocks of `n`, in order, each coalesced. */
  ghost predicate InBlocks(out: seq<MetricSet>, stream: seq<MetricSet>, n: nat) {
    |out| * n <= |stream| && forall k :: 0 <= k < |out| ==> IsBlock(out[k], stream, k, n)
  }

  ghost predicate IsBlock(w: MetricSet, stream: seq<MetricSet>, k: nat, n: nat) {
    k * n <= (k + 1) * n <= |stream| && w == Coalesce(stream[k * n..(k + 1) * n], Coalescing, 0)
  }

  /** After a stream of ticks a node has emitted its full blocks and gathered the rest. */
  ghost predicate Blocked(r: Roll, stream: seq<MetricSet>, n: nat, d: Duration) {
    InBlocks(r.out, stream, n) && |stream| < |r.out| * n + n &&
    r.accumulated == stream[|r.out| * n..] && r.duration == (|stream| - |r.out| * n) * d
  }

  lemma {:induction false} BlocksGrow(out: seq<MetricSet>, stream: seq<MetricSet>, n: nat, s: MetricSet)
    requires InBlocks(out, stream, n)
    ensures InBlocks(out, stream + [s], n)
  {
    forall k | 0 <= k < |out|
      ensures IsBlock(out[k], stream + [s], k, n)
    {
      assert IsBlock(out[k], stream, k, n);
      assert (stream + [s])[k * n..(k + 1) * n] == stream[k * n..(k + 1) * n];
    }
  }

  lemma {:induction false} BlocksSnoc(out: seq<MetricSet>, stream: seq<MetricSet>, n: nat, w: MetricSet)
    requires InBlocks(out, stream, n) && |stream| == (|out| + 1) * n
    requires |out| * n <= |stream| && w == Coalesce(stream[|out| * n..], Coalescing, 0)
    ensures InBlocks(out + [w], stream, n)
  {
    var q := |out|;
    assert stream[q * n..(q + 1) * n] == stream[q * n..];
    forall k | 0 <= k < q + 1
      ensures IsBlock((out + [w])[k], stream, k, n)
    {
      assert k < q ==> IsBlock(out[k], stream, k, n);
    }
  }

  lemma {:induction false} FillsAt(m: nat, n: nat, d: Duration, interval: Duration)
    requires d > 0 && interval > 0 && n == TicksTo(interval, d) && m < n
    ensures (m + 1) * d == m * d + d
    ensures m * d + d >= interval <==> m + 1 == n
  {
    if m + 1 < n {
      Monotone(m + 1, n - 1, d);
    }
  }

  lemma {:induction false} Waits(r: Roll, stream: seq<MetricSet>, n: nat, d: Duration, s: MetricSet)
    requires Blocked(r, stream, n, d) && |stream| - |r.out| * n + 1 < n
    ensures Blocked(Roll(r.accumulated + [s], r.duration + d, r.out), stream + [s], n, d)
  {
    var at, m := |r.out| * n, |stream| - |r.out| * n;
    BlocksGrow(r.out, stream, n, s);
    assert r.accumulated + [s] == (stream + [s])[at..];
    assert (m + 1) * d == m * d + d;
  }

  lemma {:induction false} NothingOver(out: seq<MetricSet>, stream: seq<MetricSet>, n: nat, d: Duration)
    requires n > 0 && InBlocks(out, stream, n) && |stream| == |out| * n
    ensures Blocked(Roll([], 0, out), stream, n, d)
  {
  }

  lemma {:induction false} Fills(r: Roll, stream: seq<MetricSet>, n: nat, d: Duration, s: MetricSet)
    requires Blocked(r, stream, n, d) && n > 0 && |stream| - |r.out| * n + 1 == n
    ensures Blocked(Roll([], 0, r.out + [Coalesce(r.accumulated + [s], Coalescing, 0)]), stream + [s], n, d)
  {
    var q, longer, w := |r.out|, stream + [s], Coalesce(r.accumulated + [s], Coalescing, 0);
    assert (q + 1) * n == q * n + n;
    assert InBlocks(r.out + [w], longer, n) by {
      BlocksGrow(r.out, stream, n, s);
      assert r.accumulated + [s] == longer[q * n..];
      BlocksSnoc(r.out, longer, n, w);
    }
    NothingOver(r.out + [w], longer, n, d);
  }

  lemma {:induction false} StepBlocked(r: Roll, stream: seq<MetricSet>, n: nat, d: Duration, interval: Duration, s: MetricSet)
    requires d > 0 && interval > 0 && n == TicksTo(interval, d) && s.interval == d && Blocked(r, stream, n, d)
    ensures Blocked(RollStep(r, interval, s), stream + [s], n, d)
  {
    var m := |stream| - |r.out| * n;
    FillsAt(m, n, d, interval);
    if m + 1 == n {
      Fills(r, stream, n, d, s);
    } else {
      Waits(r, stream, n, d, s);
    }
  }

  lemma {:induction false} RollBlocked(interval: Duration, stream: seq<MetricSet>, d: Duration)
    requires d > 0 && interval > 0 && Even(stream, d)
    ensures Blocked(RollUp(interval, stream), stream, TicksTo(interval, d), d)
  {
    if stream != [] {
      var init := stream[..|stream| - 1];
      RollBlocked(interval, init, d);
      StepBlocked(RollUp(interval, init), init, TicksTo(interval, d), d, interval, stream[|stream| - 1]);
      assert stream == init + [stream[|stream| - 1]];
    }
  }

  /** What a node emits for ticks of `d`: its k-th window is the k-th block of as many ticks as
      fill its interval, coalesced; and there are as many as there are full blocks. */
  lemma {:induction false} EmittedBlocks(interval: Duration, stream: seq<MetricSet>, d: Duration)
    requires d > 0 && interval > 0 && Even(stream, d)
    ensures var n, out := TicksTo(interval, d), Emitted(interval, stream);
      |out| == |stream| / n && InBlocks(out, stream, n)
  {
    RollBlocked(interval, stream, d);
    var n, q := TicksTo(interval, d), |Emitted(interval, stream)|;
    DivisionUnique(|stream|, q, |stream| - q * n, n);
  }

  // ---------------------------------------------------------------------
  // Gathering through an intermediate node
  // ---------------------------------------------------------------------

  function Blank(d: Duration): MetricSet {
    MetricSet(0, d, false, None, None, [])
  }

  function Blanks(n: nat, d: Duration): (ticks: seq<MetricSet>)
    ensures |ticks| == n && forall i :: 0 <= i < n ==> ticks[i] == Blank(d)
  {
    seq(n, _ => Blank(d))
  }

  lemma {:induction false} TicksToMultiple(interval: Duration, d: Duration)
    requires d > 0 && interval > 0 && interval % d == 0
    ensures TicksTo(interval, d) == interval / d
  {
    var n := TicksTo(interval, d);
    var q := Quotient(interval, d);
    DivisionUnique(interval, q, 0, d);
    assert q * d == (q - 1) * d + d;
    if n > q {
      Monotone(q, n - 1, d);
    } else if n < q {
      Monotone(n, q - 1, d);
    }
  }

  lemma {:induction false} QuotientOf(p: nat, q: nat, k: nat, r: nat, d: nat)
    requires p > 0 && d > 0 && q * d == k * (p * d) + r && r < p * d
    ensures q / p == k
  {
    var m := k * p;
    assert k * (p * d) == m * d;
    if q < m {
      Monotone(q + 1, m, d);
    } else {
      assert (q - m) * d == q * d - m * d;
      if q - m >= p {
        Monotone(p, q - m, d);
      }
      DivisionUnique(q, k, q - m, p);
    }
  }

  /** Whole multiples of the base relate as their multiples of it do. */
  lemma {:induction false} QuotientsDivide(c: nat, e: nat, d: nat)
    requires d > 0 && c > 0 && c % d == 0 && e % d == 0
    ensures c / d > 0 && (e / d) / (c / d) == e / c
  {
    var p := Quotient(c, d);
    var q := Quotient(e, d);
    DivisionUnique(c, p, 0, d);
    DivisionUnique(e, q, 0, d);
    QuotientOf(p, q, e / c, e % c, d);
  }

  lemma {:induction false} OneMoreThanFits(c: nat, e: nat)
    requires c > 0 && e > 0 && e % c != 0
    ensures e / c < TicksTo(e, c)
  {
    var n, k := TicksTo(e, c), e / c;
    assert e == k * c + e % c;
    if n <= k {
      Monotone(n, k, c);
    }
  }

  lemma {:induction false} FlatEmitsOne(d: Duration, e: Duration)
    requires d > 0 && e > 0 && e % d == 0
    ensures |Emitted(e, Blanks(e / d, d))| == 1
  {
    EmittedBlocks(e, Blanks(e / d, d), d);
    TicksToMultiple(e, d);
    DivisionUnique(e / d, 1, 0, e / d);
  }

  lemma {:induction false} ChainEmitsNone(d: Duration, c: Duration, e: Duration, sig: Signature)
    requires d > 0 && c > 0 && e > 0 && c % d == 0 && e % d == 0 && e % c != 0
    ensures Emitted(e, Emitted(c, Blanks(e / d, d))) == []
  {
    var ticks := Blanks(e / d, d);
    var lower, n := Emitted(c, ticks), TicksTo(e, c);
    EmittedBlocks(c, ticks, d);
    TicksToMultiple(c, d);
    QuotientsDivide(c, e, d);
    RollsInStep(c, ticks, d, sig);
    EmittedBlocks(e, lower, c);
    OneMoreThanFits(c, e);
    DivisionUnique(|lower|, 0, |lower|, n);
  }

  /** Rolled up through an intermediate interval or not, every stream of base ticks comes out the
      same if and only if that interval divides the next. */
  lemma {:induction false} TwiceIffDividing(d: Duration, c: Duration, e: Duration, sig: Signature)
    requires d > 0 && c > 0 && e > 0 && c % d == 0 && e % d == 0
    ensures (forall ticks :: Every(ticks, d, sig) ==> Emitted(e, Emitted(c, ticks)) == Emitted(e, ticks)) <==> e % c == 0
  {
    if e % c == 0 {
      forall ticks | Every(ticks, d, sig)
        ensures Emitted(e, Emitted(c, ticks)) == Emitted(e, ticks)
      {
        EmittedTwice(ticks, d, c, e, sig);
      }
    } else {
      FlatEmitsOne(d, e);
      ChainEmitsNone(d, c, e, sig);
      assert Every(Blanks(e / d, d), d, sig);
    }
  }
}
