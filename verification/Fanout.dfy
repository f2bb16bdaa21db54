/** Delivery to one subscriber: the owner offers windows, drops them while too many are
    in flight, and otherwise hands each to a fibre of its own that reports it. Owner and
    fibres interleave at every shared read and write; the owner while it offers, and a
    quiescing reader while it looks, hold the lock on the subscriptions. */
module Fanout {
  import opened Wrappers

  /** How far a delivery fibre has come; the sink's lock is held from `Locked` to `Reported`. */
  datatype Stage = Waiting | Locked | Reported | Released | Stamped | DropsCleared | FlagCleared | Counted
  {
    function Rank(): nat {
      match this
      case Waiting => 0
      case Locked => 1
      case Reported => 2
      case Released => 3
      case Stamped => 4
      case DropsCleared => 5
      case FlagCleared => 6
      case Counted => 7
    }
  }

  datatype Fibre<W> = Fibre(window: W, stage: Stage)

  /** Where the owner is in offering a window. */
  datatype Offering<W> =
    | Between
    | Admitted(window: W)                  // not finished, gate not read yet
    | Observed(window: W, delivered: nat)  // gate's reading of `delivered`
    | Spawning(window: W)                  // counted as sent, fibre not started
    | Stalled                              // dropped; age of the last delivery to be read
    | Overdue                              // dropped and too old; flag to be swapped

  /** A quiescing reader: it has the lock while it has read `sent` but not yet `delivered`,
      and gives it up with what it found pending. */
  datatype Reader = Idle | SawSent(sent: nat) | Saw(pending: nat)

  datatype Sub<W> = Sub(
    capacity: nat, timeout: Option<Duration>,
    sent: nat, delivered: nat, drops: nat, fired: bool, finished: bool, lastDelivered: Instant,
    owner: Offering<W>, fibres: seq<Fibre<W>>, reader: Reader, clock: Instant,
    // What has happened, for the properties: what the sink was given, the fate of every
    // offer, and how often the timeout callback ran and its flag was reset.
    sink: multiset<W>, offered: multiset<W>, skipped: multiset<W>, dropped: multiset<W>, firings: nat, resets: nat)

  function Subscribed<W>(capacity: nat, timeout: Option<Duration>, now: Instant): Sub<W> {
    Sub(capacity, timeout, 0, 0, 0, false, false, now, Between, [], Idle, now,
        multiset{}, multiset{}, multiset{}, multiset{}, 0, 0)
  }

  function Pending(sent: nat, delivered: nat): nat {
    if sent >= delivered then sent - delivered else 0
  }

  datatype Action<W> =
    | Offer(window: W)
    | Observe
    | Decide
    | Spawn
    | Age(now: Instant)
    | Swap
    | Acquire(i: nat)
    | Report(i: nat)
    | Release(i: nat, finished: bool)
    | Stamp(i: nat, now: Instant)
    | ClearDrops(i: nat)
    | ClearFlag(i: nat)
    | CountDelivered(i: nat)
    | ReadSent
    | ReadDelivered

  predicate At<W>(s: Sub<W>, i: nat, stage: Stage) {
    i < |s.fibres| && s.fibres[i].stage == stage
  }

  predicate Unlocked<W>(s: Sub<W>) {
    forall i :: 0 <= i < |s.fibres| ==> s.fibres[i].stage != Locked && s.fibres[i].stage != Reported
  }

  /** Neither the owner nor a reader holds the lock on the subscriptions. */
  predicate Unclaimed<W>(s: Sub<W>) {
    s.owner == Between && !s.reader.SawSent?
  }

  predicate Enabled<W>(s: Sub<W>, a: Action<W>) {
    match a
    case Offer(_) => Unclaimed(s)
    case Observe => s.owner.Admitted?
    case Decide => s.owner.Observed?
    case Spawn => s.owner.Spawning?
    case Age(now) => s.owner.Stalled? && now >= s.clock
    case Swap => s.owner.Overdue?
    case Acquire(i) => At(s, i, Waiting) && Unlocked(s)
    case Report(i) => At(s, i, Locked)
    case Release(i, _) => At(s, i, Reported)
    case Stamp(i, now) => At(s, i, Released) && now >= s.clock
    case ClearDrops(i) => At(s, i, Stamped)
    case ClearFlag(i) => At(s, i, DropsCleared)
    case CountDelivered(i) => At(s, i, FlagCleared)
    case ReadSent => Unclaimed(s)
    case ReadDelivered => s.reader.SawSent?
  }

  function MoveTo<W>(s: Sub<W>, i: nat, stage: Stage): Sub<W>
    requires i < |s.fibres|
  {
    s.(fibres := s.fibres[i := s.fibres[i].(stage := stage)])
  }

  function OwnerStep<W>(s: Sub<W>, a: Action<W>): Sub<W>
    requires Enabled(s, a)
  {
    match a
    case Offer(w) =>
      if s.finished then s.(offered := s.offered + multiset{w}, skipped := s.skipped + multiset{w})
      else s.(offered := s.offered + multiset{w}, owner := Admitted(w))
    case Observe => s.(owner := Observed(s.owner.window, s.delivered))
    case Decide =>
      if Pending(s.sent, s.owner.delivered) >= s.capacity then
        s.(drops := s.drops + 1, dropped := s.dropped + multiset{s.owner.window},
           owner := if s.timeout.None? then Between else Stalled)
      else s.(sent := s.sent + 1, owner := Spawning(s.owner.window))
    case Spawn => s.(fibres := s.fibres + [Fibre(s.owner.window, Waiting)], owner := Between)
    case Age(now) =>
      s.(clock := now,
         owner := if s.timeout.Some? && now - s.lastDelivered >= s.timeout.value then Overdue else Between)
    case Swap => s.(owner := Between, fired := true, firings := s.firings + if s.fired then 0 else 1)
    case _ => s
  }

  function FibreStep<W>(s: Sub<W>, a: Action<W>): Sub<W>
    requires Enabled(s, a)
  {
    match a
    case Acquire(i) => MoveTo(s, i, Locked)
    case Report(i) => MoveTo(s, i, Reported).(sink := s.sink + multiset{s.fibres[i].window})
    case Release(i, finished) => MoveTo(s, i, Released).(finished := s.finished || finished)
    case Stamp(i, now) => MoveTo(s, i, Stamped).(lastDelivered := now, clock := now)
    case ClearDrops(i) => MoveTo(s, i, DropsCleared).(drops := 0)
    case ClearFlag(i) => MoveTo(s, i, FlagCleared).(fired := false, resets := s.resets + 1)
    case CountDelivered(i) => MoveTo(s, i, Counted).(delivered := s.delivered + 1)
    case ReadSent => s.(reader := SawSent(s.sent))
    case ReadDelivered => s.(reader := Saw(Pending(s.reader.sent, s.delivered)))
    case _ => s
  }

  predicate ByReader<W>(a: Action<W>) {
    a.ReadSent? || a.ReadDelivered?
  }

  predicate ByOwner<W>(a: Action<W>) {
    a.Offer? || a.Observe? || a.Decide? || a.Spawn? || a.Age? || a.Swap?
  }

  function After<W>(s: Sub<W>, a: Action<W>): Sub<W>
    requires Enabled(s, a)
  {
    if ByOwner(a) then OwnerStep(s, a) else FibreStep(s, a)
  }

  /** States some interleaving reaches, listed in the order they occur. */
  ghost predicate Run<W>(states: seq<Sub<W>>, actions: seq<Action<W>>) {
    |states| == |actions| + 1 &&
    (exists capacity, timeout, now :: states[0] == Subscribed(capacity, timeout, now)) &&
    forall i :: 0 <= i < |actions| ==> Enabled(states[i], actions[i]) && states[i + 1] == After(states[i], actions[i])
  }

  // ---------------------------------------------------------------------
  // Counting fibres
  // ---------------------------------------------------------------------

  /** How many fibres have come at least this far. */
  function Past<W>(fibres: seq<Fibre<W>>, rank: nat): nat {
    if fibres == [] then 0
    else Past(fibres[..|fibres| - 1], rank) + if fibres[|fibres| - 1].stage.Rank() >= rank then 1 else 0
  }

  /** How many fibres delivering this window have come at least this far. */
  function Tally<W(==)>(fibres: seq<Fibre<W>>, rank: nat, w: W): nat {
    if fibres == [] then 0
    else
      var f := fibres[|fibres| - 1];
      Tally(fibres[..|fibres| - 1], rank, w) + if f.window == w && f.stage.Rank() >= rank then 1 else 0
  }

  lemma {:induction false} PastUpdate<W>(fibres: seq<Fibre<W>>, i: nat, stage: Stage, rank: nat)
    requires i < |fibres|
    ensures var was, now := fibres[i].stage.Rank() >= rank, stage.Rank() >= rank;
      Past(fibres[i := fibres[i].(stage := stage)], rank) + (if was then 1 else 0) ==
      Past(fibres, rank) + (if now then 1 else 0)
  {
    var n := |fibres| - 1;
    var after := fibres[i := fibres[i].(stage := stage)];
    if i < n {
      PastUpdate(fibres[..n], i, stage, rank);
      assert after[..n] == fibres[..n][i := fibres[i].(stage := stage)];
    } else {
      assert after[..n] == fibres[..n];
    }
  }

  lemma {:induction false} TallyUpdate<W>(fibres: seq<Fibre<W>>, i: nat, stage: Stage, rank: nat, w: W)
    requires i < |fibres|
    ensures var was, now := fibres[i].stage.Rank() >= rank, stage.Rank() >= rank;
      Tally(fibres[i := fibres[i].(stage := stage)], rank, w) + (if was && fibres[i].window == w then 1 else 0) ==
      Tally(fibres, rank, w) + (if now && fibres[i].window == w then 1 else 0)
  {
    var n := |fibres| - 1;
    var after := fibres[i := fibres[i].(stage := stage)];
    if i < n {
      TallyUpdate(fibres[..n], i, stage, rank, w);
      assert after[..n] == fibres[..n][i := fibres[i].(stage := stage)];
    } else {
      assert after[..n] == fibres[..n];
    }
  }

  lemma {:induction false} PastSnoc<W>(fibres: seq<Fibre<W>>, f: Fibre<W>, rank: nat)
    ensures Past(fibres + [f], rank) == Past(fibres, rank) + if f.stage.Rank() >= rank then 1 else 0
  {
    assert (fibres + [f])[..|fibres|] == fibres;
  }

  lemma {:induction false} TallySnoc<W>(fibres: seq<Fibre<W>>, f: Fibre<W>, rank: nat, w: W)
    ensures Tally(fibres + [f], rank, w) ==
            Tally(fibres, rank, w) + if f.window == w && f.stage.Rank() >= rank then 1 else 0
  {
    assert (fibres + [f])[..|fibres|] == fibres;
  }

  lemma {:induction false} PastAtMost<W>(fibres: seq<Fibre<W>>, rank: nat)
    ensures Past(fibres, rank) <= |fibres|
    ensures Past(fibres, rank) == |fibres| ==>
              forall i :: 0 <= i < |fibres| ==> fibres[i].stage.Rank() >= rank
  {
    if fibres != [] {
      PastAtMost(fibres[..|fibres| - 1], rank);
    }
  }

  lemma {:induction false} TallyAtMost<W>(fibres: seq<Fibre<W>>, rank: nat, w: W)
    ensures Tally(fibres, rank, w) <= Tally(fibres, 0, w)
    ensures (forall i :: 0 <= i < |fibres| ==> fibres[i].stage.Rank() >= rank) ==>
              Tally(fibres, rank, w) == Tally(fibres, 0, w)
  {
    if fibres != [] {
      TallyAtMost(fibres[..|fibres| - 1], rank, w);
    }
  }

  // ---------------------------------------------------------------------
  // The invariant
  // ---------------------------------------------------------------------

  /** How often a window has been accepted for delivery. */
  function Accepted<W(==)>(s: Sub<W>, w: W): nat {
    Tally(s.fibres, 0, w) + if s.owner.Spawning? && s.owner.window == w then 1 else 0
  }

  function InHand<W(==)>(s: Sub<W>, w: W): nat {
    if (s.owner.Admitted? || s.owner.Observed?) && s.owner.window == w then 1 else 0
  }

  /** The counters tell the truth and the gate bounds what is in flight. */
  ghost predicate Counts<W>(s: Sub<W>) {
    s.sent == |s.fibres| + (if s.owner.Spawning? then 1 else 0) &&
    s.delivered == Past(s.fibres, 7) && s.resets == Past(s.fibres, 6) &&
    (s.owner.Observed? ==> s.owner.delivered <= s.delivered) &&
    (s.reader.SawSent? ==> s.reader.sent == s.sent && s.owner == Between) &&
    s.sent <= s.delivered + s.capacity && (s.skipped != multiset{} ==> s.finished) &&
    s.firings <= s.resets + (if s.fired then 1 else 0) &&
    (s.timeout.None? ==> s.firings == 0 && !s.owner.Stalled? && !s.owner.Overdue?)
  }

  /** Every offer of this window is accounted for. */
  ghost predicate Balanced<W>(s: Sub<W>, w: W) {
    s.offered[w] == s.skipped[w] + s.dropped[w] + Accepted(s, w) + InHand(s, w)
  }

  /** The sink was given this window once for each fibre that has reported it. */
  ghost predicate Logged<W>(s: Sub<W>, w: W) {
    s.sink[w] == Tally(s.fibres, 2, w)
  }

  predicate Holds(stage: Stage) {
    stage == Locked || stage == Reported
  }

  /** One report at a time. */
  ghost predicate Exclusive<W>(s: Sub<W>) {
    forall i, j :: 0 <= i < j < |s.fibres| ==> !(Holds(s.fibres[i].stage) && Holds(s.fibres[j].stage))
  }

  lemma {:induction false} SpawnKeepsCounts<W>(s: Sub<W>)
    requires Counts(s) && s.owner.Spawning?
    ensures Counts(OwnerStep(s, Spawn))
  {
    PastSnoc(s.fibres, Fibre(s.owner.window, Waiting), 7);
    PastSnoc(s.fibres, Fibre(s.owner.window, Waiting), 6);
  }

  lemma {:induction false} OwnerKeepsCounts<W>(s: Sub<W>, a: Action<W>)
    requires Counts(s) && Enabled(s, a) && ByOwner(a)
    ensures Counts(OwnerStep(s, a))
  {
    if a.Spawn? {
      SpawnKeepsCounts(s);
    }
  }

  lemma {:induction false} OfferBalances<W>(s: Sub<W>, x: W, w: W)
    requires Balanced(s, w) && Unclaimed(s)
    ensures Balanced(OwnerStep(s, Offer(x)), w)
  {
    assert (s.offered + multiset{x})[w] == s.offered[w] + if x == w then 1 else 0;
    assert (s.skipped + multiset{x})[w] == s.skipped[w] + if x == w then 1 else 0;
  }

  lemma {:induction false} DecideBalances<W>(s: Sub<W>, w: W)
    requires Balanced(s, w) && s.owner.Observed?
    ensures Balanced(OwnerStep(s, Decide), w)
  {
    var x := s.owner.window;
    assert (s.dropped + multiset{x})[w] == s.dropped[w] + if x == w then 1 else 0;
  }

  lemma {:induction false} SpawnKeepsAccepted<W>(s: Sub<W>, w: W)
    requires s.owner.Spawning?
    ensures Accepted(OwnerStep(s, Spawn), w) == Accepted(s, w)
  {
    TallySnoc(s.fibres, Fibre(s.owner.window, Waiting), 0, w);
  }

  lemma {:induction false} SpawnBalances<W>(s: Sub<W>, w: W)
    requires Balanced(s, w) && s.owner.Spawning?
    ensures Balanced(OwnerStep(s, Spawn), w)
  {
    SpawnKeepsAccepted(s, w);
  }

  lemma {:induction false} OwnerKeepsBalance<W>(s: Sub<W>, a: Action<W>, w: W)
    requires Balanced(s, w) && Enabled(s, a) && ByOwner(a)
    ensures Balanced(OwnerStep(s, a), w)
  {
    match a
    case Offer(x) => OfferBalances(s, x, w);
    case Decide => DecideBalances(s, w);
    case Spawn => SpawnBalances(s, w);
    case _ =>
  }

  lemma {:induction false} OwnerKeepsLog<W>(s: Sub<W>, a: Action<W>, w: W)
    requires Logged(s, w) && Enabled(s, a) && ByOwner(a)
    ensures Logged(After(s, a), w)
  {
    if a.Spawn? {
      TallySnoc(s.fibres, Fibre(s.owner.window, Waiting), 2, w);
    }
  }

  lemma {:induction false} OwnerKeepsExclusion<W>(s: Sub<W>, a: Action<W>)
    requires Exclusive(s) && Enabled(s, a) && ByOwner(a)
    ensures Exclusive(After(s, a))
  {
  }

  function Next(stage: Stage): Stage {
    match stage
    case Waiting => Locked
    case Locked => Reported
    case Reported => Released
    case Released => Stamped
    case Stamped => DropsCleared
    case DropsCleared => FlagCleared
    case FlagCleared => Counted
    case Counted => Counted
  }

  /** Apart from a reader's look, a fibre's step moves that fibre one stage on. */
  lemma {:induction false} FibreMoves<W>(s: Sub<W>, a: Action<W>) returns (i: nat)
    requires Enabled(s, a) && !ByOwner(a) && !ByReader(a)
    ensures i < |s.fibres| && s.fibres[i].stage != Counted
    ensures After(s, a).fibres == s.fibres[i := s.fibres[i].(stage := Next(s.fibres[i].stage))]
    ensures After(s, a).sink == if a.Report? then s.sink + multiset{s.fibres[i].window} else s.sink
    ensures a.Report? <==> s.fibres[i].stage == Locked
    ensures a.ClearFlag? <==> s.fibres[i].stage == DropsCleared
    ensures a.CountDelivered? <==> s.fibres[i].stage == FlagCleared
    ensures a.Acquire? <==> s.fibres[i].stage == Waiting
  {
    i := a.i;
  }

  lemma {:induction false} FibreCounts<W>(s: Sub<W>, i: nat)
    requires i < |s.fibres|
    ensures var stage := s.fibres[i].stage;
      var after := s.fibres[i := s.fibres[i].(stage := Next(stage))];
      |after| == |s.fibres| &&
      Past(after, 7) == Past(s.fibres, 7) + (if stage == FlagCleared then 1 else 0) &&
      Past(after, 6) == Past(s.fibres, 6) + (if stage == DropsCleared then 1 else 0)
  {
    PastUpdate(s.fibres, i, Next(s.fibres[i].stage), 7);
    PastUpdate(s.fibres, i, Next(s.fibres[i].stage), 6);
  }

  /** A fibre has moved one stage on, and `d` records what that stage counts. */
  ghost predicate Recorded<W>(s: Sub<W>, d: Sub<W>, i: nat)
    requires i < |s.fibres|
  {
    var stage := s.fibres[i].stage;
    d.fibres == s.fibres[i := s.fibres[i].(stage := Next(stage))] &&
    d.sent == s.sent && d.owner == s.owner && d.reader == s.reader && d.capacity == s.capacity &&
    d.timeout == s.timeout && d.skipped == s.skipped && d.firings == s.firings && (s.finished ==> d.finished) &&
    d.delivered == s.delivered + (if stage == FlagCleared then 1 else 0) &&
    d.resets == s.resets + (if stage == DropsCleared then 1 else 0) &&
    (stage == DropsCleared || d.fired == s.fired)
  }

  lemma {:induction false} FibreRecords<W>(s: Sub<W>, a: Action<W>) returns (i: nat)
    requires Enabled(s, a) && !ByOwner(a) && !ByReader(a)
    ensures i < |s.fibres| && Recorded(s, After(s, a), i)
  {
    i := FibreMoves(s, a);
  }

  lemma {:induction false} RecordedCounts<W>(s: Sub<W>, d: Sub<W>, i: nat)
    requires Counts(s) && i < |s.fibres| && Recorded(s, d, i)
    ensures Counts(d)
  {
    FibreCounts(s, i);
  }

  lemma {:induction false} ReadersKeepCounts<W>(s: Sub<W>, a: Action<W>)
    requires Counts(s) && Enabled(s, a) && ByReader(a)
    ensures Counts(After(s, a))
  {
  }

  lemma {:induction false} FibresKeepCounts<W>(s: Sub<W>, a: Action<W>)
    requires Counts(s) && Enabled(s, a) && !ByOwner(a)
    ensures Counts(After(s, a))
  {
    if ByReader(a) {
      ReadersKeepCounts(s, a);
    } else {
      var i := FibreRecords(s, a);
      RecordedCounts(s, After(s, a), i);
    }
  }

  lemma {:induction false} FibresKeepBalance<W>(s: Sub<W>, a: Action<W>, w: W)
    requires Balanced(s, w) && Enabled(s, a) && !ByOwner(a)
    ensures Balanced(After(s, a), w)
  {
    if !ByReader(a) {
      var i := FibreMoves(s, a);
      TallyUpdate(s.fibres, i, Next(s.fibres[i].stage), 0, w);
    }
  }

  lemma {:induction false} FibresKeepLog<W>(s: Sub<W>, a: Action<W>, w: W)
    requires Logged(s, w) && Enabled(s, a) && !ByOwner(a)
    ensures Logged(After(s, a), w)
  {
    if !ByReader(a) {
      var i := FibreMoves(s, a);
      TallyUpdate(s.fibres, i, Next(s.fibres[i].stage), 2, w);
    }
  }

  lemma {:induction false} FibresKeepExclusion<W>(s: Sub<W>, a: Action<W>)
    requires Exclusive(s) && Enabled(s, a) && !ByOwner(a)
    ensures Exclusive(After(s, a))
  {
    if !ByReader(a) {
      var i := FibreMoves(s, a);
    }
  }

  lemma {:induction false} RunKeeps<W>(states: seq<Sub<W>>, actions: seq<Action<W>>, n: nat)
    requires Run(states, actions) && n < |states|
    ensures Counts(states[n]) && Exclusive(states[n])
  {
    if n > 0 {
      var s, a := states[n - 1], actions[n - 1];
      RunKeeps(states, actions, n - 1);
      assert states[n - 1 + 1] == After(s, a);
      if ByOwner(a) {
        OwnerKeepsCounts(s, a);
        OwnerKeepsExclusion(s, a);
      } else {
        FibresKeepCounts(s, a);
        FibresKeepExclusion(s, a);
      }
    }
  }

  lemma {:induction false} StepBalances<W>(s: Sub<W>, a: Action<W>, w: W)
    requires Balanced(s, w) && Logged(s, w) && Enabled(s, a)
    ensures Balanced(After(s, a), w) && Logged(After(s, a), w)
  {
    if ByOwner(a) {
      OwnerKeepsBalance(s, a, w);
      OwnerKeepsLog(s, a, w);
    } else {
      FibresKeepBalance(s, a, w);
      FibresKeepLog(s, a, w);
    }
  }

  lemma {:induction false} StartBalances<W>(capacity: nat, timeout: Option<Duration>, now: Instant, w: W)
    ensures var s := Subscribed(capacity, timeout, now); Balanced(s, w) && Logged(s, w)
  {
  }

  lemma {:induction false} RunBalances<W>(states: seq<Sub<W>>, actions: seq<Action<W>>, n: nat, w: W)
    requires Run(states, actions) && n < |states|
    ensures Balanced(states[n], w) && Logged(states[n], w)
  {
    if n == 0 {
      var capacity, timeout, now :| states[0] == Subscribed(capacity, timeout, now);
      StartBalances(capacity, timeout, now, w);
    } else {
      RunBalances(states, actions, n - 1, w);
      StepBalances(states[n - 1], actions[n - 1], w);
      assert states[n - 1 + 1] == After(states[n - 1], actions[n - 1]);
    }
  }

  // ---------------------------------------------------------------------
  // What follows
  // ---------------------------------------------------------------------

  /** At every moment no more than the channel's capacity is in flight, and two reports
      never overlap. */
  lemma {:induction false} BoundedInFlight<W>(states: seq<Sub<W>>, actions: seq<Action<W>>, n: nat)
    requires Run(states, actions) && n < |states|
    ensures var s := states[n]; Pending(s.sent, s.delivered) <= s.capacity && Exclusive(s)
  {
    RunKeeps(states, actions, n);
  }

  /** Every offer of a window was skipped because the subscriber had finished, dropped at the
      gate, accepted, or is still being decided; and the sink has been given the window at
      most once for each time it was accepted. */
  lemma {:induction false} EveryOfferAccounted<W>(states: seq<Sub<W>>, actions: seq<Action<W>>, n: nat, w: W)
    requires Run(states, actions) && n < |states|
    ensures var s := states[n];
      s.offered[w] == s.skipped[w] + s.dropped[w] + Accepted(s, w) + InHand(s, w) &&
      (s.skipped != multiset{} ==> s.finished) && s.sink[w] <= Accepted(s, w)
  {
    RunKeeps(states, actions, n);
    RunBalances(states, actions, n, w);
    TallyAtMost(states[n].fibres, 2, w);
  }

  /** A reader that finds nothing pending knows that every accepted window has been
      reported, exactly once: of all that was offered, what was neither skipped nor dropped. */
  lemma {:induction false} QuietMeansReported<W>(states: seq<Sub<W>>, actions: seq<Action<W>>, n: nat, w: W)
    requires Run(states, actions) && n < |actions| && actions[n] == ReadDelivered && states[n + 1].reader == Saw(0)
    ensures var s := states[n + 1];
      s.sink[w] == Accepted(s, w) && s.offered[w] == s.skipped[w] + s.dropped[w] + s.sink[w]
  {
    RunKeeps(states, actions, n);
    RunBalances(states, actions, n + 1, w);
    var s := states[n + 1];
    assert s == After(states[n], ReadDelivered);
    PastAtMost(s.fibres, 7);
    TallyAtMost(s.fibres, 2, w);
  }

  lemma {:induction false} ResetsAreDeliveries<W>(fibres: seq<Fibre<W>>)
    ensures Past(fibres, 7) <= Past(fibres, 6)
    ensures (forall i :: 0 <= i < |fibres| ==> fibres[i].stage != FlagCleared) ==> Past(fibres, 7) == Past(fibres, 6)
  {
    if fibres != [] {
      ResetsAreDeliveries(fibres[..|fibres| - 1]);
    }
  }

  /** The timeout callback runs at most once per reset of its flag, and once more: at most as
      often as there were deliveries and can be deliveries in flight, and once more. */
  lemma {:induction false} FiringsBounded<W>(states: seq<Sub<W>>, actions: seq<Action<W>>, n: nat)
    requires Run(states, actions) && n < |states|
    ensures var s := states[n];
      s.firings <= s.delivered + s.capacity + 1 &&
      s.firings <= s.resets + 1 && s.delivered <= s.resets <= s.sent &&
      ((forall i :: 0 <= i < |s.fibres| ==> s.fibres[i].stage != FlagCleared) ==> s.firings <= s.delivered + 1)
  {
    RunKeeps(states, actions, n);
    ResetsAreDeliveries(states[n].fibres);
    PastAtMost(states[n].fibres, 6);
  }

  lemma {:induction false} NeverTooMany<W>(states: seq<Sub<W>>, actions: seq<Action<W>>, n: nat)
    requires Run(states, actions) && n < |states| && (states[n].capacity == 0 || states[n].timeout.None?)
    ensures states[n].firings <= states[n].delivered + 1
  {
    RunKeeps(states, actions, n);
    FiringsBounded(states, actions, n);
  }

  /** Once a delivery has said the subscriber is finished, nothing is accepted any more but the
      window then in hand. */
  lemma {:induction false} FinishedStops<W>(states: seq<Sub<W>>, actions: seq<Action<W>>, m: nat, n: nat, w: W)
    requires Run(states, actions) && m <= n < |states| && states[m].finished
    ensures states[n].finished
    ensures Accepted(states[n], w) + InHand(states[n], w) <= Accepted(states[m], w) + InHand(states[m], w)
  {
    if m < n {
      FinishedStops(states, actions, m, n - 1, w);
      FinishedStep(states[n - 1], actions[n - 1], w);
      assert states[n - 1 + 1] == After(states[n - 1], actions[n - 1]);
    }
  }

  lemma {:induction false} FinishedOwner<W>(s: Sub<W>, a: Action<W>, w: W)
    requires Enabled(s, a) && ByOwner(a) && s.finished
    ensures var d := OwnerStep(s, a);
      d.finished && Accepted(d, w) + InHand(d, w) <= Accepted(s, w) + InHand(s, w)
  {
    if a.Spawn? {
      SpawnKeepsAccepted(s, w);
    }
  }

  lemma {:induction false} FinishedFibre<W>(s: Sub<W>, d: Sub<W>, i: nat, w: W)
    requires i < |s.fibres| && Recorded(s, d, i) && s.finished
    ensures d.finished && Accepted(d, w) + InHand(d, w) == Accepted(s, w) + InHand(s, w)
  {
    TallyUpdate(s.fibres, i, Next(s.fibres[i].stage), 0, w);
  }

  lemma {:induction false} FinishedStep<W>(s: Sub<W>, a: Action<W>, w: W)
    requires Enabled(s, a) && s.finished
    ensures var d := After(s, a);
      d.finished && Accepted(d, w) + InHand(d, w) <= Accepted(s, w) + InHand(s, w)
  {
    if ByOwner(a) {
      FinishedOwner(s, a, w);
    } else if !ByReader(a) {
      var i := FibreRecords(s, a);
      FinishedFibre(s, After(s, a), i, w);
    }
  }

  /** A subscriber is finished exactly once some delivery has said so. */
  lemma {:induction false} FinishedIffSaid<W>(states: seq<Sub<W>>, actions: seq<Action<W>>, n: nat)
    requires Run(states, actions) && n < |states|
    ensures states[n].finished <==> exists l :: 0 <= l < n && actions[l].Release? && actions[l].finished
  {
    if n > 0 {
      FinishedIffSaid(states, actions, n - 1);
      assert states[n - 1 + 1] == After(states[n - 1], actions[n - 1]);
    }
  }

  /** The gate was read with this many sent and delivered, for this window. */
  ghost predicate GateRead<W(!new)>(states: seq<Sub<W>>, actions: seq<Action<W>>, n: nat, window: W, sent: nat, delivered: nat)
    requires |states| == |actions| + 1 && n <= |actions|
  {
    exists m :: 0 <= m < n && actions[m] == Observe && states[m].owner == Admitted(window) &&
                states[m].sent == sent && states[m].delivered == delivered
  }

  /** What the owner has read, it keeps until it decides. */
  lemma {:induction false} ObservedStep<W>(s: Sub<W>, a: Action<W>)
    requires Enabled(s, a) && After(s, a).owner.Observed?
    ensures After(s, a).sent == s.sent &&
            if s.owner.Observed? then After(s, a).owner == s.owner
            else a == Observe && s.owner == Admitted(After(s, a).owner.window) && After(s, a).owner.delivered == s.delivered
  {
  }

  lemma {:induction false} ObservedWas<W(!new)>(states: seq<Sub<W>>, actions: seq<Action<W>>, n: nat)
    requires Run(states, actions) && n < |states| && states[n].owner.Observed?
    ensures GateRead(states, actions, n, states[n].owner.window, states[n].sent, states[n].owner.delivered)
  {
    if n > 0 {
      assert states[n - 1 + 1] == After(states[n - 1], actions[n - 1]);
      ObservedStep(states[n - 1], actions[n - 1]);
      if states[n - 1].owner.Observed? {
        ObservedWas(states, actions, n - 1);
      }
    }
  }

  /** An offer is dropped exactly when, at the moment the gate was read for it, as many windows as
      the capacity were in flight; otherwise it is accepted. */
  lemma {:induction false} DroppedIffFull<W(!new)>(states: seq<Sub<W>>, actions: seq<Action<W>>, n: nat) returns (inFlight: nat)
    requires Run(states, actions) && n < |actions| && actions[n] == Decide
    ensures var s, d := states[n], states[n + 1];
      s.owner.Observed? && inFlight <= s.sent &&
      GateRead(states, actions, n, s.owner.window, s.sent, s.sent - inFlight) &&
      d.dropped == s.dropped + (if inFlight >= s.capacity then multiset{s.owner.window} else multiset{}) &&
      (if inFlight >= s.capacity then d.sent == s.sent && !d.owner.Spawning?
       else d.sent == s.sent + 1 && d.owner == Spawning(s.owner.window))
  {
    var s := states[n];
    assert Enabled(s, actions[n]) && states[n + 1] == After(s, actions[n]);
    RunKeeps(states, actions, n);
    PastAtMost(s.fibres, 7);
    ObservedWas(states, actions, n);
    inFlight := s.sent - s.owner.delivered;
  }

  /** Delivery was last stamped by this action. */
  ghost predicate LastStamped<W(!new)>(states: seq<Sub<W>>, actions: seq<Action<W>>, n: nat, l: nat)
    requires |states| == |actions| + 1 && l < n <= |actions|
  {
    actions[l].Stamp? && states[n].lastDelivered == actions[l].now && forall m :: l < m < n ==> !actions[m].Stamp?
  }

  ghost predicate SomeStamped<W(!new)>(states: seq<Sub<W>>, actions: seq<Action<W>>, n: nat)
    requires |states| == |actions| + 1 && n <= |actions|
  {
    exists l: nat :: l < n && LastStamped(states, actions, n, l)
  }

  predicate NoneStamped<W>(actions: seq<Action<W>>, n: nat) {
    forall m :: 0 <= m < n <= |actions| ==> !actions[m].Stamp?
  }

  lemma {:induction false} StampOnly<W>(s: Sub<W>, a: Action<W>)
    requires Enabled(s, a)
    ensures After(s, a).lastDelivered == if a.Stamp? then a.now else s.lastDelivered
  {
  }

  lemma {:induction false} StillStamped<W(!new)>(states: seq<Sub<W>>, actions: seq<Action<W>>, n: nat, next: nat)
    requires |states| == |actions| + 1 && next == n + 1 && n < |actions| && SomeStamped(states, actions, n)
    requires !actions[n].Stamp? && states[next].lastDelivered == states[n].lastDelivered
    ensures SomeStamped(states, actions, next)
  {
    var l: nat :| l < n && LastStamped(states, actions, n, l);
    assert LastStamped(states, actions, next, l);
  }

  /** The last delivery is when a fibre last said so, or the subscription if none has. */
  lemma {:induction false} LastDelivery<W(!new)>(states: seq<Sub<W>>, actions: seq<Action<W>>, n: nat)
    requires Run(states, actions) && n < |states|
    ensures SomeStamped(states, actions, n) || (NoneStamped(actions, n) && states[n].lastDelivered == states[0].lastDelivered)
  {
    if n > 0 {
      assert states[n - 1 + 1] == After(states[n - 1], actions[n - 1]);
      StampOnly(states[n - 1], actions[n - 1]);
      if actions[n - 1].Stamp? {
        assert LastStamped(states, actions, n, n - 1);
      } else {
        LastDelivery(states, actions, n - 1);
        if SomeStamped(states, actions, n - 1) {
          StillStamped(states, actions, n - 1, n);
        }
      }
    }
  }

  /** The age read before the flag is swapped was at least the timeout. */
  ghost predicate WasOverdue<W>(states: seq<Sub<W>>, actions: seq<Action<W>>, n: nat)
    requires |states| == |actions| + 1 && n <= |actions|
  {
    exists l :: 0 <= l < n && actions[l].Age? && states[l].timeout.Some? &&
                actions[l].now - states[l].lastDelivered >= states[l].timeout.value
  }

  lemma {:induction false} OverdueWas<W>(states: seq<Sub<W>>, actions: seq<Action<W>>, n: nat)
    requires Run(states, actions) && n < |states| && states[n].owner.Overdue?
    ensures WasOverdue(states, actions, n)
  {
    if n > 0 {
      var s, a := states[n - 1], actions[n - 1];
      assert states[n - 1 + 1] == After(s, a);
      if s.owner.Overdue? {
        OverdueWas(states, actions, n - 1);
      } else {
        assert a.Age? && s.timeout.Some? && a.now - s.lastDelivered >= s.timeout.value;
      }
    }
  }

  /** The stall callback runs exactly when the flag is swapped and was not set, and then only after
      the last delivery was found to be at least the timeout old. */
  lemma {:induction false} FiresOnlyStalled<W>(states: seq<Sub<W>>, actions: seq<Action<W>>, n: nat)
    requires Run(states, actions) && n < |actions|
    ensures states[n + 1].firings == states[n].firings + (if actions[n] == Swap && !states[n].fired then 1 else 0)
    ensures states[n + 1].firings > states[n].firings ==> WasOverdue(states, actions, n)
  {
    assert states[n + 1] == After(states[n], actions[n]);
    if actions[n] == Swap {
      OverdueWas(states, actions, n);
    }
  }

  // ---------------------------------------------------------------------
  // When firings exceed deliveries plus one
  // ---------------------------------------------------------------------

  ghost predicate Reachable<W(!new)>(s: Sub<W>) {
    exists states, actions :: Run(states, actions) && states[|states| - 1] == s
  }

  lemma {:induction false} Reaches<W(!new)>(s: Sub<W>, a: Action<W>) returns (next: Sub<W>)
    requires Reachable(s) && Enabled(s, a)
    ensures Reachable(next) && next == After(s, a)
  {
    next := After(s, a);
    var states, actions :| Run(states, actions) && states[|states| - 1] == s;
    var more, steps := states + [next], actions + [a];
    forall i | 0 <= i < |steps|
      ensures Enabled(more[i], steps[i]) && more[i + 1] == After(more[i], steps[i])
    {
      if i < |actions| {
        assert more[i] == states[i] && more[i + 1] == states[i + 1] && steps[i] == actions[i];
      }
    }
    assert Run(more, steps);
  }

  lemma {:induction false} Start(capacity: nat, timeout: Option<Duration>) returns (s: Sub<nat>)
    ensures Reachable(s) && s == Subscribed(capacity, timeout, 0)
  {
    s := Subscribed(capacity, timeout, 0);
    assert Run([s], []);
  }

  /** Offer a window while there is room: it is accepted and its fibre starts. */
  lemma {:induction false} Accept(s: Sub<nat>, w: nat) returns (next: Sub<nat>)
    requires Reachable(s) && Unclaimed(s) && !s.finished && Pending(s.sent, s.delivered) < s.capacity
    ensures Reachable(next)
    ensures next == s.(offered := s.offered + multiset{w}, sent := s.sent + 1, fibres := s.fibres + [Fibre(w, Waiting)])
  {
    var a := Reaches(s, Offer(w));
    var b := Reaches(a, Observe);
    var c := Reaches(b, Decide);
    next := Reaches(c, Spawn);
  }

  lemma {:induction false} ReportOne(s: Sub<nat>, i: nat) returns (next: Sub<nat>)
    requires Reachable(s) && At(s, i, Waiting) && Unlocked(s)
    ensures Reachable(next) && next == MoveTo(s, i, Released).(sink := s.sink + multiset{s.fibres[i].window})
  {
    var a := Reaches(s, Acquire(i));
    var b := Reaches(a, Report(i));
    next := Reaches(b, Release(i, false));
    assert next.fibres == MoveTo(s, i, Released).fibres;
  }

  lemma {:induction false} ResetFlag(s: Sub<nat>, i: nat, now: Instant) returns (next: Sub<nat>)
    requires Reachable(s) && At(s, i, Released) && now >= s.clock
    ensures Reachable(next)
    ensures next == MoveTo(s, i, FlagCleared).(lastDelivered := now, clock := now, drops := 0, fired := false,
                                               resets := s.resets + 1)
  {
    var d := Reaches(s, Stamp(i, now));
    var e := Reaches(d, ClearDrops(i));
    next := Reaches(e, ClearFlag(i));
    assert next.fibres == MoveTo(s, i, FlagCleared).fibres;
  }

  /** A fibre runs until its timeout flag is reset. */
  lemma {:induction false} DeliverUncounted(s: Sub<nat>, i: nat, now: Instant) returns (next: Sub<nat>)
    requires Reachable(s) && At(s, i, Waiting) && Unlocked(s) && now >= s.clock
    ensures Reachable(next)
    ensures next == MoveTo(s, i, FlagCleared).(
                      sink := s.sink + multiset{s.fibres[i].window}, lastDelivered := now, clock := now, drops := 0,
                      fired := false, resets := s.resets + 1)
  {
    var reported := ReportOne(s, i);
    next := ResetFlag(reported, i, now);
    assert next.fibres == MoveTo(s, i, FlagCleared).fibres;
  }

  /** A window is dropped, the last delivery being too long ago. */
  lemma {:induction false} DropAndFire(s: Sub<nat>, w: nat, now: Instant) returns (next: Sub<nat>)
    requires Reachable(s) && Unclaimed(s) && !s.finished && Pending(s.sent, s.delivered) >= s.capacity && !s.fired
    requires now >= s.clock && s.timeout.Some? && now - s.lastDelivered >= s.timeout.value
    ensures Reachable(next)
    ensures next == s.(offered := s.offered + multiset{w}, dropped := s.dropped + multiset{w}, drops := s.drops + 1,
                       clock := now, fired := true, firings := s.firings + 1)
  {
    var a := Reaches(s, Offer(w));
    var b := Reaches(a, Observe);
    var c := Reaches(b, Decide);
    var d := Reaches(c, Age(now));
    next := Reaches(d, Swap);
  }

  /** A full subscriber whose first `k` fibres have reset the flag and are yet to be counted, the
      callback having run before each of those resets and once since the last. */
  ghost predicate Ramped(s: Sub<nat>, capacity: nat, timeout: Duration, k: nat) {
    Reachable(s) && Unclaimed(s) && !s.finished && s.fired && s.capacity == capacity && s.timeout == Some(timeout) &&
    s.sent == capacity == |s.fibres| && s.delivered == 0 && s.firings == k + 1 &&
    s.lastDelivered <= s.clock && k <= capacity &&
    forall i :: 0 <= i < capacity ==> s.fibres[i].stage == if i < k then FlagCleared else Waiting
  }

  /** Fill a new subscriber. */
  lemma {:induction false} Fill(capacity: nat, timeout: Duration, n: nat) returns (s: Sub<nat>)
    requires n <= capacity
    ensures Reachable(s) && Unclaimed(s) && !s.finished && !s.fired && s.capacity == capacity && s.timeout == Some(timeout)
    ensures s.sent == n == |s.fibres| && s.delivered == 0 && s.firings == 0 && s.lastDelivered == s.clock == 0
    ensures forall i :: 0 <= i < n ==> s.fibres[i].stage == Waiting
  {
    if n == 0 {
      s := Start(capacity, Some(timeout));
    } else {
      var before := Fill(capacity, timeout, n - 1);
      s := Accept(before, n);
    }
  }

  lemma {:induction false} Climb(s: Sub<nat>, capacity: nat, timeout: Duration, k: nat) returns (next: Sub<nat>)
    requires Ramped(s, capacity, timeout, k) && k < capacity
    ensures Ramped(next, capacity, timeout, k + 1)
  {
    var reset := DeliverUncounted(s, k, s.clock);
    assert forall i :: 0 <= i < capacity ==> reset.fibres[i].stage == if i < k + 1 then FlagCleared else Waiting;
    next := DropAndFire(reset, 0, s.clock + timeout);
  }

  /** The bound by capacity is reached: up to it, and once more, the callback can run with
      nothing counted as delivered, whatever the timeout. */
  lemma {:induction false} FiringsReach(capacity: nat, timeout: Duration, k: nat) returns (s: Sub<nat>)
    requires k <= capacity
    ensures Ramped(s, capacity, timeout, k)
  {
    if k == 0 {
      var full := Fill(capacity, timeout, capacity);
      s := DropAndFire(full, 0, timeout);
    } else {
      var before := FiringsReach(capacity, timeout, k - 1);
      s := Climb(before, capacity, timeout, k - 1);
    }
  }

  lemma {:induction false} ReachableNeverTooMany<W(!new)>(s: Sub<W>)
    requires Reachable(s) && (s.capacity == 0 || s.timeout.None?)
    ensures s.firings <= s.delivered + 1
  {
    var states, actions :| Run(states, actions) && states[|states| - 1] == s;
    NeverTooMany(states, actions, |states| - 1);
  }

  /** With these options, firings never exceed deliveries by more than one. */
  ghost predicate FiresWithDeliveries(capacity: nat, timeout: Option<Duration>) {
    forall s: Sub<nat> :: Reachable(s) && s.capacity == capacity && s.timeout == timeout ==> s.firings <= s.delivered + 1
  }

  /** That is so exactly for a subscriber that takes nothing or has no timeout. */
  lemma {:induction false} FiresWithDeliveriesIff(capacity: nat, timeout: Option<Duration>)
    ensures FiresWithDeliveries(capacity, timeout) <==> capacity == 0 || timeout.None?
  {
    if capacity == 0 || timeout.None? {
      forall s: Sub<nat> | Reachable(s) && s.capacity == capacity && s.timeout == timeout
        ensures s.firings <= s.delivered + 1
      {
        ReachableNeverTooMany(s);
      }
    } else {
      var s := FiringsReach(capacity, timeout.value, 1);
      assert s.firings == s.delivered + 2;
    }
  }
}
