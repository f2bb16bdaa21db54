/** Dynamic controls: a write is validated, fanned out to the appliers registered at that
    moment, and committed only when all of them have acknowledged it. Any number of writers,
    registrations and other controls' writes interleave. */
module Controls {
  import opened Wrappers

  datatype Origin = Launch | Runtime(source: string)

  /** A numeric reading by its bit pattern. */
  type Reading = nat

  datatype Config<!T> = Config(initial: T, pinned: bool, validator: Option<T -> bool>, project: Option<T -> Option<Reading>>)
  {
    predicate Accepts(v: T) {
      validator.None? || validator.value(v)
    }

    function Projection(v: T): Option<Reading> {
      if project.None? then None else project.value(v)
    }
  }

  datatype SetError = ValidationFailed | ApplyFailed(failures: seq<nat>) | FinalViolation

  /** Where one `set` is. A reply is none until it comes; a timeout is a refusal. */
  datatype Stage =
    | Waiting
    | Locked
    | Checked
    | Validated
    | FannedOut(replies: seq<Option<bool>>)
    | Acknowledged(replies: seq<Option<bool>>)
    | Allocated(replies: seq<Option<bool>>, rev: nat)
    | Committed(rev: nat)
    | Published(rev: nat)
    | Done(result: Result<nat, SetError>)

  datatype Call<T> = Call(value: T, origin: Origin, stage: Stage)

  /** A committed value, and for all but the first which call wrote it on which replies. */
  datatype Version<T> = Version(value: T, rev: nat, origin: Origin, call: Option<nat>, replies: seq<Option<bool>>)

  datatype Control<!T> = Control(config: Config<T>, versions: seq<Version<T>>, appliers: nat, counter: nat,
                                 gauge: Option<Reading>, holder: Option<nat>, calls: seq<Call<T>>)

  datatype Action<T> =
    | Begin(value: T, origin: Origin)
    | Lock(i: nat)
    | CheckPin(i: nat)
    | Validate(i: nat)
    | FanOut(i: nat)
    | Reply(i: nat, applier: nat, ok: bool)
    | Conclude(i: nat)
    | Allocate(i: nat)
    | Commit(i: nat)
    | Publish(i: nat)
    | Unlock(i: nat)
    | Register
    | AllocateElsewhere

  /** `ControlBuilder::build`, with the shared allocator wherever it has got to. */
  function Build<T>(config: Config<T>, counter: nat): Control<T> {
    Control(config, [Version(config.initial, 0, Launch, None, [])], 0, counter, config.Projection(config.initial), None, [])
  }

  function Newest<T>(c: Control<T>): Version<T>
    requires c.versions != []
  {
    c.versions[|c.versions| - 1]
  }

  predicate AllReplied(replies: seq<Option<bool>>) {
    forall k :: 0 <= k < |replies| ==> replies[k].Some?
  }

  predicate AllAgreed(replies: seq<Option<bool>>) {
    forall k :: 0 <= k < |replies| ==> replies[k] == Some(true)
  }

  function Refusals(replies: seq<Option<bool>>): seq<nat> {
    if replies == [] then []
    else
      var n := |replies| - 1;
      Refusals(replies[..n]) + if replies[n] == Some(false) then [n] else []
  }

  predicate At<T>(c: Control<T>, i: nat) {
    i < |c.calls|
  }

  predicate Enabled<T>(c: Control<T>, a: Action<T>) {
    match a
    case Begin(_, _) => true
    case Lock(i) => At(c, i) && c.calls[i].stage == Waiting && c.holder == None
    case CheckPin(i) => At(c, i) && c.calls[i].stage == Locked
    case Validate(i) => At(c, i) && c.calls[i].stage == Checked
    case FanOut(i) => At(c, i) && c.calls[i].stage == Validated
    case Reply(i, k, _) => At(c, i) && c.calls[i].stage.FannedOut? && k < |c.calls[i].stage.replies| && c.calls[i].stage.replies[k].None?
    case Conclude(i) => At(c, i) && c.calls[i].stage.FannedOut? && AllReplied(c.calls[i].stage.replies)
    case Allocate(i) => At(c, i) && c.calls[i].stage.Acknowledged?
    case Commit(i) => At(c, i) && c.calls[i].stage.Allocated?
    case Publish(i) => At(c, i) && c.calls[i].stage.Committed?
    case Unlock(i) => At(c, i) && c.calls[i].stage.Published?
    case Register => true
    case AllocateElsewhere => true
  }

  function To<T>(c: Control<T>, i: nat, stage: Stage): Control<T>
    requires At(c, i)
  {
    c.(calls := c.calls[i := c.calls[i].(stage := stage)])
  }

  /** The call returns and its lock guard is dropped. */
  function Return<T>(c: Control<T>, i: nat, result: Result<nat, SetError>): Control<T>
    requires At(c, i)
  {
    To(c, i, Done(result)).(holder := None)
  }

  function After<T>(c: Control<T>, a: Action<T>): Control<T>
    requires Enabled(c, a)
  {
    match a
    case Begin(v, origin) => c.(calls := c.calls + [Call(v, origin, Waiting)])
    case Lock(i) => To(c, i, Locked).(holder := Some(i))
    case CheckPin(i) =>
      if c.config.pinned && c.calls[i].origin != Launch then Return(c, i, Failure(FinalViolation)) else To(c, i, Checked)
    case Validate(i) =>
      if c.config.Accepts(c.calls[i].value) then To(c, i, Validated) else Return(c, i, Failure(ValidationFailed))
    case FanOut(i) => To(c, i, FannedOut(seq(c.appliers, _ => None)))
    case Reply(i, k, ok) => To(c, i, FannedOut(c.calls[i].stage.replies[k := Some(ok)]))
    case Conclude(i) =>
      var replies := c.calls[i].stage.replies;
      if AllAgreed(replies) then To(c, i, Acknowledged(replies))
      else Return(c, i, Failure(ApplyFailed(Refusals(replies))))
    case Allocate(i) =>
      To(c, i, Allocated(c.calls[i].stage.replies, c.counter + 1)).(counter := c.counter + 1)
    case Commit(i) =>
      var call := c.calls[i];
      To(c, i, Committed(call.stage.rev)).(
        versions := c.versions + [Version(call.value, call.stage.rev, call.origin, Some(i), call.stage.replies)])
    case Publish(i) =>
      var reading := c.config.Projection(c.calls[i].value);
      To(c, i, Published(c.calls[i].stage.rev)).(gauge := if reading.Some? then reading else c.gauge)
    case Unlock(i) => Return(c, i, Success(c.calls[i].stage.rev))
    case Register => c.(appliers := c.appliers + 1)
    case AllocateElsewhere => c.(counter := c.counter + 1)
  }

  /** States some interleaving goes through. */
  ghost predicate Run<T(!new)>(states: seq<Control<T>>, actions: seq<Action<T>>) {
    |states| == |actions| + 1 && (exists config, counter :: states[0] == Build(config, counter)) &&
    forall i :: 0 <= i < |actions| ==> Enabled(states[i], actions[i]) && states[i + 1] == After(states[i], actions[i])
  }

  // ---------------------------------------------------------------------
  // The invariant
  // ---------------------------------------------------------------------

  predicate Active(s: Stage) {
    !s.Waiting? && !s.Done?
  }

  /** One writer at a time: the one that holds the lock. */
  ghost predicate Exclusive<T>(c: Control<T>) {
    (c.holder.Some? ==> c.holder.value < |c.calls|) &&
    forall i :: 0 <= i < |c.calls| ==> (Active(c.calls[i].stage) <==> c.holder == Some(i))
  }

  /** Revisions are handed out in order and committed in order. */
  ghost predicate Ordered<T>(c: Control<T>) {
    c.versions != [] && Newest(c).rev <= c.counter &&
    (forall m, n :: 0 <= m < n < |c.versions| ==> c.versions[m].rev < c.versions[n].rev) &&
    forall i :: 0 <= i < |c.calls| && c.calls[i].stage.Allocated? ==> Newest(c).rev < c.calls[i].stage.rev <= c.counter
  }

  /** How far a call's value has been vouched for. */
  ghost predicate Vouched<T>(c: Control<T>, i: nat)
    requires i < |c.calls|
  {
    var call := c.calls[i];
    match call.stage
    case Checked => c.config.pinned ==> call.origin == Launch
    case Validated => (c.config.pinned ==> call.origin == Launch) && c.config.Accepts(call.value)
    case FannedOut(_) => (c.config.pinned ==> call.origin == Launch) && c.config.Accepts(call.value)
    case Acknowledged(replies) => (c.config.pinned ==> call.origin == Launch) && c.config.Accepts(call.value) && AllAgreed(replies)
    case Allocated(replies, _) => (c.config.pinned ==> call.origin == Launch) && c.config.Accepts(call.value) && AllAgreed(replies)
    case _ => true
  }

  /** The revision a call has committed, if it has. */
  function CommittedRev(s: Stage): Option<nat> {
    match s
    case Committed(rev) => Some(rev)
    case Published(rev) => Some(rev)
    case Done(Success(rev)) => Some(rev)
    case _ => None
  }

  /** A version after the first was written by a call that has committed it, validated,
      acknowledged by all it was fanned out to, and from launch if the control is pinned. */
  ghost predicate Earned<T>(c: Control<T>, n: nat)
    requires n < |c.versions|
  {
    var v := c.versions[n];
    if n == 0 then v.value == c.config.initial && v.rev == 0 && v.origin == Launch && v.call.None?
    else
      v.call.Some? && v.call.value < |c.calls| &&
      c.calls[v.call.value].value == v.value && CommittedRev(c.calls[v.call.value].stage) == Some(v.rev) &&
      c.config.Accepts(v.value) && AllAgreed(v.replies) && (c.config.pinned ==> v.origin == Launch)
  }

  /** A call that has committed is one of the versions. */
  ghost predicate Recorded<T>(c: Control<T>, i: nat)
    requires i < |c.calls|
  {
    var rev := CommittedRev(c.calls[i].stage);
    rev.Some? ==> exists n :: 0 < n < |c.versions| && c.versions[n].call == Some(i) && c.versions[n].rev == rev.value
  }

  /** The newest of the versions that has a projection. */
  function Shown<T>(config: Config<T>, versions: seq<Version<T>>): Option<Reading> {
    if versions == [] then None
    else
      var reading := config.Projection(versions[|versions| - 1].value);
      if reading.Some? then reading else Shown(config, versions[..|versions| - 1])
  }

  /** The gauge shows the newest projection, or just lags behind a commit being published. */
  ghost predicate Gauged<T>(c: Control<T>) {
    c.versions != [] &&
    if c.holder.Some? && c.holder.value < |c.calls| && c.calls[c.holder.value].stage.Committed? then
      c.calls[c.holder.value].value == Newest(c).value && c.gauge == Shown(c.config, c.versions[..|c.versions| - 1])
    else c.gauge == Shown(c.config, c.versions)
  }

  ghost predicate Inv<T>(c: Control<T>) {
    Exclusive(c) && Ordered(c) && Gauged(c) &&
    (forall i :: 0 <= i < |c.calls| ==> Vouched(c, i) && Recorded(c, i)) &&
    (forall n :: 0 <= n < |c.versions| ==> Earned(c, n))
  }

  lemma {:induction false} KeepsExclusive<T>(c: Control<T>, a: Action<T>)
    requires Exclusive(c) && Enabled(c, a)
    ensures Exclusive(After(c, a))
  {
  }

  lemma {:induction false} CommitKeepsOrdered<T>(c: Control<T>, i: nat)
    requires Exclusive(c) && Ordered(c) && Enabled(c, Commit(i))
    ensures Ordered(After(c, Commit(i)))
  {
    var d := After(c, Commit(i));
    assert d.versions == c.versions + [Newest(d)] && Newest(d).rev == c.calls[i].stage.rev;
  }

  lemma {:induction false} KeepsOrdered<T>(c: Control<T>, a: Action<T>)
    requires Exclusive(c) && Ordered(c) && Enabled(c, a)
    ensures Ordered(After(c, a))
  {
    match a
    case Commit(i) => CommitKeepsOrdered(c, i);
    case _ => assert After(c, a).versions == c.versions;
  }

  lemma {:induction false} KeepsVouched<T>(c: Control<T>, a: Action<T>)
    requires Enabled(c, a) && forall i :: 0 <= i < |c.calls| ==> Vouched(c, i)
    ensures forall i :: 0 <= i < |After(c, a).calls| ==> Vouched(After(c, a), i)
  {
    var d := After(c, a);
    forall i | 0 <= i < |d.calls|
      ensures Vouched(d, i)
    {
      assert i < |c.calls| ==> Vouched(c, i);
    }
  }

  /** A committed call stays committed, under the same revision and value. */
  lemma {:induction false} StaysCommitted<T>(c: Control<T>, a: Action<T>, i: nat)
    requires Enabled(c, a) && i < |c.calls|
    ensures var d := After(c, a);
      i < |d.calls| && d.calls[i].value == c.calls[i].value && d.calls[i].origin == c.calls[i].origin &&
      (CommittedRev(c.calls[i].stage).Some? ==> CommittedRev(d.calls[i].stage) == CommittedRev(c.calls[i].stage)) &&
      c.versions <= d.versions && d.config == c.config
  {
  }

  lemma {:induction false} KeepsEarned<T>(c: Control<T>, a: Action<T>, n: nat)
    requires Enabled(c, a) && n < |c.versions| && Earned(c, n)
    ensures n < |After(c, a).versions| && Earned(After(c, a), n)
  {
    var v := c.versions[n];
    if v.call.Some? {
      StaysCommitted(c, a, v.call.value);
    }
  }

  lemma {:induction false} NewVersionEarned<T>(c: Control<T>, i: nat)
    requires Enabled(c, Commit(i)) && Vouched(c, i) && c.versions != []
    ensures Earned(After(c, Commit(i)), |c.versions|) && Recorded(After(c, Commit(i)), i)
  {
    var d := After(c, Commit(i));
    assert d.versions[|c.versions|].call == Some(i);
  }

  lemma {:induction false} KeepsRecorded<T>(c: Control<T>, a: Action<T>, i: nat)
    requires Enabled(c, a) && i < |After(c, a).calls| && (i < |c.calls| ==> Recorded(c, i)) && a != Commit(i)
    ensures Recorded(After(c, a), i)
  {
    var d := After(c, a);
    if i < |c.calls| {
      StaysCommitted(c, a, i);
      assert CommittedRev(d.calls[i].stage) == CommittedRev(c.calls[i].stage);
      var rev := CommittedRev(c.calls[i].stage);
      if rev.Some? {
        var n :| 0 < n < |c.versions| && c.versions[n].call == Some(i) && c.versions[n].rev == rev.value;
        assert d.versions[n] == c.versions[n];
      }
    }
  }

  lemma {:induction false} ShownSnoc<T>(config: Config<T>, versions: seq<Version<T>>, v: Version<T>)
    ensures Shown(config, versions + [v]) ==
            if config.Projection(v.value).Some? then config.Projection(v.value) else Shown(config, versions)
  {
    assert (versions + [v])[..|versions|] == versions;
  }

  lemma {:induction false} KeepsGauged<T>(c: Control<T>, a: Action<T>)
    requires Exclusive(c) && Gauged(c) && Enabled(c, a)
    ensures Gauged(After(c, a))
  {
    match a
    case Commit(i) =>
      var call := c.calls[i];
      var v := Version(call.value, call.stage.rev, call.origin, Some(i), call.stage.replies);
      assert (c.versions + [v])[..|c.versions|] == c.versions;
    case Publish(i) =>
      var init := c.versions[..|c.versions| - 1];
      assert c.versions == init + [Newest(c)];
      ShownSnoc(c.config, init, Newest(c));
    case _ =>
  }

  lemma {:induction false} StepKeeps<T>(c: Control<T>, a: Action<T>)
    requires Inv(c) && Enabled(c, a)
    ensures Inv(After(c, a))
  {
    var d := After(c, a);
    KeepsExclusive(c, a);
    KeepsOrdered(c, a);
    KeepsGauged(c, a);
    KeepsVouched(c, a);
    forall i | 0 <= i < |d.calls|
      ensures Recorded(d, i)
    {
      if a == Commit(i) {
        NewVersionEarned(c, i);
      } else {
        KeepsRecorded(c, a, i);
      }
    }
    forall n | 0 <= n < |d.versions|
      ensures Earned(d, n)
    {
      if n < |c.versions| {
        KeepsEarned(c, a, n);
      } else {
        NewVersionEarned(c, a.i);
      }
    }
  }

  lemma {:induction false} BuildHolds<T>(config: Config<T>, counter: nat)
    ensures Inv(Build(config, counter))
  {
    var first := Version(config.initial, 0, Launch, None, []);
    assert [first][..0] == [];
    ShownSnoc(config, [], first);
    assert [] + [first] == [first];
  }

  lemma {:induction false} RunKeeps<T(!new)>(states: seq<Control<T>>, actions: seq<Action<T>>, n: nat)
    requires Run(states, actions) && n < |states|
    ensures Inv(states[n])
  {
    if n == 0 {
      var config, counter :| states[0] == Build(config, counter);
      BuildHolds(config, counter);
    } else {
      RunKeeps(states, actions, n - 1);
      StepKeeps(states[n - 1], actions[n - 1]);
      assert states[n - 1 + 1] == After(states[n - 1], actions[n - 1]);
    }
  }

  // ---------------------------------------------------------------------
  // What the protocol promises
  // ---------------------------------------------------------------------

  /** These are as many replies as appliers were registered when call `i` fanned out. */
  ghost predicate AskedAll<T(!new)>(states: seq<Control<T>>, actions: seq<Action<T>>, n: nat, i: nat, replies: seq<Option<bool>>)
    requires |states| == |actions| + 1 && n < |states|
  {
    exists f :: 0 <= f < n && actions[f] == FanOut(i) && |replies| == states[f].appliers
  }

  /** The replies a call is waiting for or has had. */
  function RepliesOf(s: Stage): Option<seq<Option<bool>>> {
    match s
    case FannedOut(replies) => Some(replies)
    case Acknowledged(replies) => Some(replies)
    case Allocated(replies, _) => Some(replies)
    case _ => None
  }

  lemma {:induction false} StillAsked<T(!new)>(states: seq<Control<T>>, actions: seq<Action<T>>, n: nat, i: nat,
                                               replies: seq<Option<bool>>, more: seq<Option<bool>>)
    requires |states| == |actions| + 1 && n < |actions| && AskedAll(states, actions, n, i, replies) && |more| == |replies|
    ensures AskedAll(states, actions, n + 1, i, more)
  {
    var f :| 0 <= f < n && actions[f] == FanOut(i) && |replies| == states[f].appliers;
    assert actions[f] == FanOut(i) && |more| == states[f].appliers;
  }

  /** A step leaves a call's replies as many as they were, unless it is the one that fans it out. */
  lemma {:induction false} RepliesMove<T>(c: Control<T>, a: Action<T>, i: nat)
    requires Enabled(c, a) && i < |After(c, a).calls| && RepliesOf(After(c, a).calls[i].stage).Some?
    ensures var after := RepliesOf(After(c, a).calls[i].stage).value;
      if a == FanOut(i) then |after| == c.appliers
      else i < |c.calls| && RepliesOf(c.calls[i].stage).Some? && |RepliesOf(c.calls[i].stage).value| == |after|
  {
  }

  lemma {:induction false} CallsAsked<T(!new)>(states: seq<Control<T>>, actions: seq<Action<T>>, n: nat, i: nat)
    requires Run(states, actions) && n < |states| && i < |states[n].calls| && RepliesOf(states[n].calls[i].stage).Some?
    ensures AskedAll(states, actions, n, i, RepliesOf(states[n].calls[i].stage).value)
  {
    if n > 0 {
      var c, a := states[n - 1], actions[n - 1];
      assert states[n - 1 + 1] == After(c, a);
      RepliesMove(c, a, i);
      if a != FanOut(i) {
        CallsAsked(states, actions, n - 1, i);
        StillAsked(states, actions, n - 1, i, RepliesOf(c.calls[i].stage).value, RepliesOf(states[n].calls[i].stage).value);
      }
    }
  }

  /** Only a commit adds a version, with the replies its call has had. */
  lemma {:induction false} VersionsMove<T>(c: Control<T>, a: Action<T>, v: nat)
    requires Enabled(c, a) && v < |After(c, a).versions|
    ensures var version := After(c, a).versions[v];
      if v < |c.versions| then version == c.versions[v]
      else a.Commit? && version.call == Some(a.i) && a.i < |c.calls| && RepliesOf(c.calls[a.i].stage) == Some(version.replies)
  {
  }

  /** Every version after the first was acknowledged by as many appliers as were registered when
      its call fanned out. */
  lemma {:induction false} VersionAsked<T(!new)>(states: seq<Control<T>>, actions: seq<Action<T>>, n: nat, v: nat)
    requires Run(states, actions) && n < |states| && 0 < v < |states[n].versions|
    ensures var version := states[n].versions[v];
      version.call.Some? && AskedAll(states, actions, n, version.call.value, version.replies)
  {
    if n > 0 {
      var c, a := states[n - 1], actions[n - 1];
      assert states[n - 1 + 1] == After(c, a);
      var version := states[n].versions[v];
      VersionsMove(c, a, v);
      if v < |c.versions| {
        VersionAsked(states, actions, n - 1, v);
      } else {
        CallsAsked(states, actions, n - 1, a.i);
      }
      StillAsked(states, actions, n - 1, version.call.value, version.replies, version.replies);
    }
  }

  /** In every interleaving: committed revisions strictly increase; every value written by a
      call passed the validator and was acknowledged by each applier registered when it was
      fanned out; a pinned control holds only launch values; with no writer inside, the gauge
      shows the newest committed value that projects to a number. */
  lemma {:induction false} ConfirmedApply<T(!new)>(states: seq<Control<T>>, actions: seq<Action<T>>, n: nat)
    requires Run(states, actions) && n < |states|
    ensures var c := states[n];
      (forall a, b :: 0 <= a < b < |c.versions| ==> c.versions[a].rev < c.versions[b].rev) &&
      (forall a :: 0 < a < |c.versions| ==>
         c.config.Accepts(c.versions[a].value) && AllAgreed(c.versions[a].replies) && c.versions[a].call.Some? &&
         AskedAll(states, actions, n, c.versions[a].call.value, c.versions[a].replies)) &&
      (c.config.pinned ==> forall a :: 0 <= a < |c.versions| ==> c.versions[a].origin == Launch) &&
      (c.holder.None? ==> c.gauge == Shown(c.config, c.versions))
  {
    RunKeeps(states, actions, n);
    var c := states[n];
    forall a | 0 <= a < |c.versions|
      ensures a > 0 ==> c.config.Accepts(c.versions[a].value) && AllAgreed(c.versions[a].replies) &&
                        c.versions[a].call.Some? && AskedAll(states, actions, n, c.versions[a].call.value, c.versions[a].replies)
      ensures c.config.pinned ==> c.versions[a].origin == Launch
    {
      assert Earned(c, a);
      if a > 0 {
        VersionAsked(states, actions, n, a);
      }
    }
  }

  /** A call that has returned wrote a version, with its value and the revision it returned,
      exactly when it returned a revision. */
  lemma {:induction false} ReturnedMeansCommitted<T(!new)>(states: seq<Control<T>>, actions: seq<Action<T>>, n: nat, i: nat)
    requires Run(states, actions) && n < |states| && i < |states[n].calls| && states[n].calls[i].stage.Done?
    ensures var c := states[n];
      c.calls[i].stage.result.Success? <==>
      exists a :: 0 < a < |c.versions| && c.versions[a].call == Some(i) && c.versions[a].value == c.calls[i].value &&
                  CommittedRev(c.calls[i].stage) == Some(c.versions[a].rev)
  {
    RunKeeps(states, actions, n);
    var c := states[n];
    assert Recorded(c, i);
    if c.calls[i].stage.result.Success? {
      var a :| 0 < a < |c.versions| && c.versions[a].call == Some(i) &&
               c.versions[a].rev == CommittedRev(c.calls[i].stage).value;
      assert Earned(c, a);
    }
  }

  // ---------------------------------------------------------------------
  // A failed call
  // ---------------------------------------------------------------------

  /** Inside, and nothing decided yet. */
  predicate Undecided(s: Stage) {
    s.Locked? || s.Checked? || s.Validated? || s.FannedOut?
  }

  /** Acknowledged by all it was fanned out to: it can no longer fail. */
  predicate Won(s: Stage) {
    s.Acknowledged? || s.Allocated? || s.Committed? || s.Published? || (s.Done? && s.result.Success?)
  }

  lemma {:induction false} StageMoves<T>(c: Control<T>, a: Action<T>, i: nat)
    requires Enabled(c, a) && i < |c.calls|
    ensures var before, after := c.calls[i].stage, After(c, a).calls[i].stage;
      (Won(before) ==> Won(after)) && (before.Done? ==> after.Done?) && (!before.Waiting? ==> !after.Waiting?)
  {
  }

  lemma {:induction false} StagesMove<T(!new)>(states: seq<Control<T>>, actions: seq<Action<T>>, m: nat, n: nat, i: nat)
    requires Run(states, actions) && m <= n < |states| && i < |states[m].calls|
    ensures i < |states[n].calls|
    ensures var before, after := states[m].calls[i].stage, states[n].calls[i].stage;
      (Won(before) ==> Won(after)) && (before.Done? ==> after.Done?) && (!before.Waiting? ==> !after.Waiting?)
  {
    if m < n {
      StagesMove(states, actions, m, n - 1, i);
      StageMoves(states[n - 1], actions[n - 1], i);
      assert states[n - 1 + 1] == After(states[n - 1], actions[n - 1]);
    }
  }

  /** While the call that holds the lock is undecided, nobody allocates, commits or publishes. */
  lemma {:induction false} UndecidedBlocks<T>(c: Control<T>, a: Action<T>, i: nat)
    requires Exclusive(c) && Enabled(c, a) && i < |c.calls| && Undecided(c.calls[i].stage)
    ensures After(c, a).versions == c.versions && After(c, a).gauge == c.gauge && !a.Allocate?
  {
  }

  /** Call `i` holds the lock at `m` and the step to `n` is the one it fails at. */
  ghost predicate Fails<T(!new)>(states: seq<Control<T>>, m: nat, n: nat, i: nat) {
    m < n < |states| && states[m].holder == Some(i) &&
    i < |states[n - 1].calls| && !states[n - 1].calls[i].stage.Done? &&
    i < |states[n].calls| && states[n].calls[i].stage.Done? && states[n].calls[i].stage.result.Failure?
  }

  /** A call that will fail has been undecided ever since it took the lock. */
  lemma {:induction false} DoomedUndecided<T(!new)>(states: seq<Control<T>>, actions: seq<Action<T>>, m: nat, l: nat, n: nat,
                                                    i: nat)
    requires Run(states, actions) && Fails(states, m, n, i) && m <= l < n
    ensures i < |states[l].calls| && Undecided(states[l].calls[i].stage)
  {
    RunKeeps(states, actions, m);
    StagesMove(states, actions, m, l, i);
    StagesMove(states, actions, l, n - 1, i);
    StagesMove(states, actions, l, n, i);
  }

  lemma {:induction false} DoomedStep<T(!new)>(states: seq<Control<T>>, actions: seq<Action<T>>, m: nat, l: nat, n: nat, i: nat)
    requires Run(states, actions) && Fails(states, m, n, i) && m <= l < n
    ensures states[l + 1].versions == states[l].versions && states[l + 1].gauge == states[l].gauge && !actions[l].Allocate?
  {
    DoomedUndecided(states, actions, m, l, n, i);
    RunKeeps(states, actions, l);
    UndecidedBlocks(states[l], actions[l], i);
  }

  lemma {:induction false} DoomedSteps<T(!new)>(states: seq<Control<T>>, actions: seq<Action<T>>, m: nat, l: nat, n: nat, i: nat)
    requires Run(states, actions) && Fails(states, m, n, i) && m <= l <= n
    ensures states[l].versions == states[m].versions && states[l].gauge == states[m].gauge
    ensures forall p :: m <= p < l ==> !actions[p].Allocate?
  {
    if m < l {
      DoomedSteps(states, actions, m, l - 1, n, i);
      DoomedStep(states, actions, m, l - 1, n, i);
    }
  }

  /** From the moment a call that ends in failure takes the lock until it returns, the committed
      values and the gauge do not change, and no revision of this control is allocated. */
  lemma {:induction false} FailureChangesNothing<T(!new)>(states: seq<Control<T>>, actions: seq<Action<T>>, m: nat, n: nat,
                                                          i: nat)
    requires Run(states, actions) && Fails(states, m, n, i)
    ensures states[n].versions == states[m].versions && states[n].gauge == states[m].gauge && states[n].holder == None
    ensures forall l :: m <= l < n ==> !actions[l].Allocate?
  {
    DoomedSteps(states, actions, m, n, n, i);
    RunKeeps(states, actions, n - 1);
    DoomedUndecided(states, actions, m, n - 1, n, i);
    assert states[n - 1 + 1] == After(states[n - 1], actions[n - 1]);
  }
}
