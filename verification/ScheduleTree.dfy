/** The schedule tree: a second realisation of the roll-up. A node gathers snapshots until
    its interval is full, then hands the coalesced window to its reporters and children.
    A chain of nodes delivers what a flat arrangement would. */
module ScheduleTree {
  import opened Wrappers
  import opened Multiples
  import opened Snapshot

  /** A reporter and everything it has been given. */
  datatype Recorder = Recorder(id: nat, received: seq<MetricSet>)

  datatype Node = Node(interval: Duration, accumulated: seq<MetricSet>, duration: Duration,
                       reporters: seq<Recorder>, children: seq<Node>)

  function Reported(reporters: seq<Recorder>, windows: seq<MetricSet>): (r: seq<Recorder>)
    ensures |r| == |reporters|
    ensures forall i :: 0 <= i < |reporters| ==> r[i] == reporters[i].(received := reporters[i].received + windows)
  {
    seq(|reporters|, i requires 0 <= i < |reporters| => reporters[i].(received := reporters[i].received + windows))
  }

  /** `ScheduleNode::ingest`. */
  function Ingest(n: Node, s: MetricSet): Node {
    var accumulated := n.accumulated + [s];
    if n.duration + s.interval >= n.interval then
      var window := Coalesce(accumulated, Coalescing, 0);
      Node(n.interval, [], 0, Reported(n.reporters, [window]),
           seq(|n.children|, i requires 0 <= i < |n.children| => Ingest(n.children[i], window)))
    else n.(accumulated := accumulated, duration := n.duration + s.interval)
  }

  function Feed(n: Node, stream: seq<MetricSet>): Node {
    if stream == [] then n else Ingest(Feed(n, stream[..|stream| - 1]), stream[|stream| - 1])
  }

  function FeedAll(ns: seq<Node>, stream: seq<MetricSet>): (r: seq<Node>)
    ensures |r| == |ns| && forall i :: 0 <= i < |ns| ==> r[i] == Feed(ns[i], stream)
  {
    seq(|ns|, i requires 0 <= i < |ns| => Feed(ns[i], stream))
  }

  // ---------------------------------------------------------------------
  // One node as a stream transformer
  // ---------------------------------------------------------------------

  /** A node's own state and everything it has emitted, after a stream. */
  datatype Roll = Roll(accumulated: seq<MetricSet>, duration: Duration, out: seq<MetricSet>)

  function RollStep(r: Roll, interval: Duration, s: MetricSet): Roll {
    var accumulated := r.accumulated + [s];
    if r.duration + s.interval >= interval then Roll([], 0, r.out + [Coalesce(accumulated, Coalescing, 0)])
    else Roll(accumulated, r.duration + s.interval, r.out)
  }

  function RollUp(interval: Duration, stream: seq<MetricSet>): Roll {
    if stream == [] then Roll([], 0, [])
    else RollStep(RollUp(interval, stream[..|stream| - 1]), interval, stream[|stream| - 1])
  }

  /** The windows a node of this interval emits for a stream. */
  function Emitted(interval: Duration, stream: seq<MetricSet>): seq<MetricSet> {
    RollUp(interval, stream).out
  }

  lemma {:induction false} RollSnoc(interval: Duration, stream: seq<MetricSet>, s: MetricSet)
    ensures RollUp(interval, stream + [s]) == RollStep(RollUp(interval, stream), interval, s)
  {
    assert (stream + [s])[..|stream|] == stream;
  }

  lemma {:induction false} FeedSnoc(n: Node, stream: seq<MetricSet>, s: MetricSet)
    ensures Feed(n, stream + [s]) == Ingest(Feed(n, stream), s)
  {
    assert (stream + [s])[..|stream|] == stream;
  }

  lemma {:induction false} NothingFed(n: Node)
    ensures Reported(n.reporters, []) == n.reporters && FeedAll(n.children, []) == n.children
  {
    assert forall r: Recorder {:trigger r.received} :: r.(received := r.received + []) == r by {
      assert forall w: seq<MetricSet> {:trigger w + []} :: w + [] == w;
    }
    assert forall i :: 0 <= i < |n.children| ==> FeedAll(n.children, [])[i] == n.children[i];
  }

  /** An idle node fed a stream: its reporters get what it emits, its children are fed it. */
  lemma {:induction false} FeedRolls(n: Node, stream: seq<MetricSet>)
    requires n.accumulated == [] && n.duration == 0
    ensures var r := RollUp(n.interval, stream);
      Feed(n, stream) == Node(n.interval, r.accumulated, r.duration, Reported(n.reporters, r.out), FeedAll(n.children, r.out))
  {
    if stream == [] {
      NothingFed(n);
    } else {
      var init, s := stream[..|stream| - 1], stream[|stream| - 1];
      FeedRolls(n, init);
      var r := RollUp(n.interval, init);
      if r.duration + s.interval >= n.interval {
        var w := Coalesce(r.accumulated + [s], Coalescing, 0);
        ReportedSnoc(n.reporters, r.out, w);
        FeedAllSnoc(n.children, r.out, w);
      }
    }
  }

  lemma {:induction false} ReportedSnoc(reporters: seq<Recorder>, windows: seq<MetricSet>, w: MetricSet)
    ensures Reported(Reported(reporters, windows), [w]) == Reported(reporters, windows + [w])
  {
    forall i | 0 <= i < |reporters|
      ensures Reported(Reported(reporters, windows), [w])[i] == Reported(reporters, windows + [w])[i]
    {
      assert (reporters[i].received + windows) + [w] == reporters[i].received + (windows + [w]);
    }
  }

  lemma {:induction false} FeedAllSnoc(ns: seq<Node>, windows: seq<MetricSet>, w: MetricSet)
    ensures var fed := FeedAll(ns, windows);
      seq(|fed|, i requires 0 <= i < |fed| => Ingest(fed[i], w)) == FeedAll(ns, windows + [w])
  {
    forall i | 0 <= i < |ns|
      ensures Ingest(FeedAll(ns, windows)[i], w) == FeedAll(ns, windows + [w])[i]
    {
      FeedSnoc(ns[i], windows, w);
    }
  }

  // ---------------------------------------------------------------------
  // Two nodes in a chain roll up as one
  // ---------------------------------------------------------------------

  /** Every snapshot represents exactly `d`. */
  ghost predicate Every(stream: seq<MetricSet>, d: Duration, sig: Signature) {
    AllFit(stream, sig) && forall i :: 0 <= i < |stream| ==> stream[i].interval == d
  }

  /** A node fed in equal steps that divide its interval: it never overshoots. */
  ghost predicate InStep(r: Roll, interval: Duration, d: Duration, sig: Signature)
    requires d > 0
  {
    AllFit(r.accumulated, sig) && r.duration % d == 0 && r.duration < interval &&
    (r.accumulated == [] <==> r.duration == 0) &&
    (r.accumulated != [] ==> Coalesce(r.accumulated, Coalescing, 0).interval == r.duration) &&
    Every(r.out, interval, sig)
  }

  lemma {:induction false} RollsInStep(interval: Duration, stream: seq<MetricSet>, d: Duration, sig: Signature)
    requires d > 0 && interval > 0 && interval % d == 0 && Every(stream, d, sig)
    ensures InStep(RollUp(interval, stream), interval, d, sig)
  {
    if stream == [] {
      MultipleMod(0, d);
      assert 0 * d == 0;
    } else {
      var init, s := stream[..|stream| - 1], stream[|stream| - 1];
      RollsInStep(interval, init, d, sig);
      StepInStep(RollUp(interval, init), interval, s, d, sig);
    }
  }

  lemma {:induction false} StepInStep(r: Roll, interval: Duration, s: MetricSet, d: Duration, sig: Signature)
    requires d > 0 && interval > 0 && interval % d == 0 && InStep(r, interval, d, sig)
    requires Fits(s, sig) && s.interval == d
    ensures InStep(RollStep(r, interval, s), interval, d, sig)
    ensures r.duration + d <= interval
  {
    var accumulated := r.accumulated + [s];
    NextMultiple(r.duration, interval, d);
    assert AllFit(accumulated, sig);
    CoalesceFits(accumulated, Coalescing, 0, sig);
    if r.accumulated != [] {
      CoalesceSnoc(r.accumulated, s, Coalescing, 0);
    }
    DivisionUnique(d, 1, 0, d);
    MultiplePlus(r.duration, d, d);
    MultipleMod(0, d);
    assert 0 * d == 0;
  }

  lemma {:induction false} NextMultiple(a: nat, c: nat, d: nat)
    requires d > 0 && a % d == 0 && c % d == 0 && a < c
    ensures a + d <= c
  {
    if d > 0 {
      RoomForCarry(a, c, d, d - 1);
    }
  }

  /** The flat node's gathering is the upper node's, windows in place of their contents,
      followed by the lower node's. */
  ghost predicate Abreast(flat: Roll, lower: Roll, upper: Roll, sig: Signature) {
    flat.out == upper.out && flat.duration == upper.duration + lower.duration &&
    AllFit(flat.accumulated, sig) && |lower.accumulated| <= |flat.accumulated| &&
    var older := flat.accumulated[..|flat.accumulated| - |lower.accumulated|];
    flat.accumulated == older + lower.accumulated && (older == [] <==> upper.accumulated == []) &&
    (older != [] ==> Coalesce(upper.accumulated, Coalescing, 0) == Coalesce(older, Coalescing, 0))
  }

  /** The lower node still waits: so do the others. */
  lemma {:induction false} AbreastWaits(flat: Roll, lower: Roll, upper: Roll, s: MetricSet, c: Duration, e: Duration,
                                        sig: Signature)
    requires Abreast(flat, lower, upper, sig) && Fits(s, sig)
    requires lower.duration + s.interval < c && upper.duration + c <= e
    ensures Abreast(RollStep(flat, e, s), RollStep(lower, c, s), upper, sig)
  {
    var older := flat.accumulated[..|flat.accumulated| - |lower.accumulated|];
    var block := lower.accumulated + [s];
    assert flat.accumulated + [s] == older + block;
    assert (older + block)[..|older|] == older;
  }

  lemma {:induction false} OlderThen(flat: Roll, lower: Roll, s: MetricSet)
    requires |lower.accumulated| <= |flat.accumulated|
    requires flat.accumulated == flat.accumulated[..|flat.accumulated| - |lower.accumulated|] + lower.accumulated
    ensures flat.accumulated + [s] ==
            flat.accumulated[..|flat.accumulated| - |lower.accumulated|] + (lower.accumulated + [s])
  {
  }

  /** What the flat node has gathered with the tick coalesces to what the upper node has gathered
      with the lower node's window. */
  lemma {:induction false} GatheredAlike(flat: Roll, lower: Roll, upper: Roll, s: MetricSet, sig: Signature)
    requires Abreast(flat, lower, upper, sig) && Fits(s, sig) && AllFit(lower.accumulated, sig)
    ensures var w := Coalesce(lower.accumulated + [s], Coalescing, 0);
      Coalesce(upper.accumulated + [w], Coalescing, 0) == Coalesce(flat.accumulated + [s], Coalescing, 0)
  {
    var older := flat.accumulated[..|flat.accumulated| - |lower.accumulated|];
    OlderThen(flat, lower, s);
    GroupsAlike(older, upper.accumulated, lower.accumulated + [s], sig);
  }

  lemma {:induction false} AbreastAgain(flat: Roll, out: seq<MetricSet>, upper: Roll, sig: Signature)
    requires flat.out == upper.out && flat.duration == upper.duration && AllFit(flat.accumulated, sig)
    requires flat.accumulated == [] <==> upper.accumulated == []
    requires flat.accumulated != [] ==> Coalesce(upper.accumulated, Coalescing, 0) == Coalesce(flat.accumulated, Coalescing, 0)
    ensures Abreast(flat, Roll([], 0, out), upper, sig)
  {
    assert flat.accumulated[..|flat.accumulated| - 0] == flat.accumulated;
    assert flat.accumulated + [] == flat.accumulated;
  }

  /** The lower node hands on the window of what it has gathered and the tick. */
  lemma {:induction false} AbreastRises(flat: Roll, lower: Roll, upper: Roll, s: MetricSet, c: Duration, e: Duration, sig: Signature)
    requires Abreast(flat, lower, upper, sig) && Fits(s, sig) && AllFit(lower.accumulated, sig)
    requires lower.duration + s.interval == c == Coalesce(lower.accumulated + [s], Coalescing, 0).interval
    ensures var w := Coalesce(lower.accumulated + [s], Coalescing, 0);
      Abreast(RollStep(flat, e, s), Roll([], 0, lower.out + [w]), RollStep(upper, e, w), sig)
  {
    var w := Coalesce(lower.accumulated + [s], Coalescing, 0);
    GatheredAlike(flat, lower, upper, s, sig);
    AbreastAgain(RollStep(flat, e, s), lower.out + [w], RollStep(upper, e, w), sig);
  }

  /** Both arrangements take the next tick alike. */
  lemma {:induction false} StepAbreast(flat: Roll, lower: Roll, upper: Roll, s: MetricSet, d: Duration, c: Duration, e: Duration,
                    sig: Signature)
    requires d > 0 && c > 0 && e > 0 && c % d == 0 && e % c == 0
    requires Fits(s, sig) && s.interval == d
    requires InStep(lower, c, d, sig) && InStep(upper, e, c, sig) && Abreast(flat, lower, upper, sig)
    ensures var lower' := RollStep(lower, c, s);
      Abreast(RollStep(flat, e, s), lower',
              if lower'.out == lower.out then upper else RollStep(upper, e, lower'.out[|lower'.out| - 1]), sig)
  {
    NextMultiple(lower.duration, c, d);
    NextMultiple(upper.duration, e, c);
    if lower.duration + d < c {
      AbreastWaits(flat, lower, upper, s, c, e, sig);
    } else {
      WindowOfBlock(lower, s, c, d, sig);
      AbreastRises(flat, lower, upper, s, c, e, sig);
    }
  }

  lemma {:induction false} WindowOfBlock(r: Roll, s: MetricSet, interval: Duration, d: Duration, sig: Signature)
    requires d > 0 && interval > 0 && interval % d == 0 && InStep(r, interval, d, sig)
    requires Fits(s, sig) && s.interval == d && r.duration + d >= interval
    ensures var w := Coalesce(r.accumulated + [s], Coalescing, 0);
      RollStep(r, interval, s) == Roll([], 0, r.out + [w]) && w.interval == interval && r.out + [w] != r.out
  {
    var w := Coalesce(r.accumulated + [s], Coalescing, 0);
    StepInStep(r, interval, s, d, sig);
    assert RollStep(r, interval, s).out[|r.out|] == w;
  }

  /** Adding a block as one window or snapshot by snapshot comes to the same. */
  lemma {:induction false} GroupsAlike(older: seq<MetricSet>, windows: seq<MetricSet>, block: seq<MetricSet>, sig: Signature)
    requires AllFit(older, sig) && AllFit(block, sig) && block != [] && (older == [] <==> windows == [])
    requires older != [] ==> Coalesce(windows, Coalescing, 0) == Coalesce(older, Coalescing, 0)
    ensures Coalesce(windows + [Coalesce(block, Coalescing, 0)], Coalescing, 0) == Coalesce(older + block, Coalescing, 0)
  {
    if older == [] {
      assert older + block == block;
    } else {
      CoalesceSnoc(windows, Coalesce(block, Coalescing, 0), Coalescing, 0);
      CoalesceConcat(older, block, Coalescing, 0, sig);
    }
  }

  lemma {:induction false} RollsAbreast(stream: seq<MetricSet>, d: Duration, c: Duration, e: Duration, sig: Signature)
    requires d > 0 && c > 0 && e > 0 && c % d == 0 && e % c == 0 && Every(stream, d, sig)
    ensures Abreast(RollUp(e, stream), RollUp(c, stream), RollUp(e, Emitted(c, stream)), sig)
  {
    if stream != [] {
      var init, s := stream[..|stream| - 1], stream[|stream| - 1];
      var lower := RollUp(c, init);
      RollsAbreast(init, d, c, e, sig);
      RollsInStep(c, init, d, sig);
      RollsInStep(e, lower.out, c, sig);
      StepAbreast(RollUp(e, init), lower, RollUp(e, lower.out), s, d, c, e, sig);
      if RollStep(lower, c, s).out != lower.out {
        WindowOfBlock(lower, s, c, d, sig);
        RollSnoc(e, lower.out, Coalesce(lower.accumulated + [s], Coalescing, 0));
      }
    }
  }

  /** Rolling up twice, through an interval that divides, is rolling up once. */
  lemma {:induction false} EmittedTwice(stream: seq<MetricSet>, d: Duration, c: Duration, e: Duration, sig: Signature)
    requires d > 0 && c > 0 && e > 0 && c % d == 0 && e % c == 0 && Every(stream, d, sig)
    ensures Emitted(e, Emitted(c, stream)) == Emitted(e, stream)
  {
    RollsAbreast(stream, d, c, e, sig);
  }
}
