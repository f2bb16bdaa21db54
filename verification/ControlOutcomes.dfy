/** How a write ends, in terms of what happened to it: which origin, what the validator says, what
    its appliers replied. */
module ControlOutcomes {
  import opened Wrappers
  import opened Controls

  /** The control is not pinned, or the write is from launch. */
  predicate Permitted<T>(config: Config<T>, call: Call<T>) {
    !config.pinned || call.origin == Launch
  }

  /** Among the first `n` actions applier `k` replied `ok` to call `i`. */
  ghost predicate Replied<T(!new)>(actions: seq<Action<T>>, n: nat, i: nat, k: nat, ok: bool) {
    exists f :: 0 <= f < n && f < |actions| && actions[f] == Reply(i, k, ok)
  }

  ghost predicate Silent<T(!new)>(actions: seq<Action<T>>, n: nat, i: nat) {
    forall k: nat, ok: bool :: !Replied(actions, n, i, k, ok)
  }

  /** These replies are exactly those that came. */
  ghost predicate Heard<T(!new)>(actions: seq<Action<T>>, n: nat, i: nat, replies: seq<Option<bool>>) {
    forall k: nat, ok: bool :: Replied(actions, n, i, k, ok) <==> k < |replies| && replies[k] == Some(ok)
  }

  ghost predicate AllTrue<T(!new)>(actions: seq<Action<T>>, n: nat, i: nat) {
    forall k: nat :: !Replied(actions, n, i, k, false)
  }

  /** `fs` is the set of the appliers that refused, and it is not empty. */
  ghost predicate Refused<T(!new)>(actions: seq<Action<T>>, n: nat, i: nat, fs: seq<nat>) {
    fs != [] && forall k: nat :: k in fs <==> Replied(actions, n, i, k, false)
  }

  /** What the stage of a call says about what has happened to it. */
  ghost predicate Explained<T(!new)>(c: Control<T>, actions: seq<Action<T>>, n: nat, i: nat)
    requires i < |c.calls|
  {
    var call := c.calls[i];
    var permitted, accepted := Permitted(c.config, call), c.config.Accepts(call.value);
    match call.stage
    case Waiting => Silent(actions, n, i)
    case Locked => Silent(actions, n, i)
    case Checked => permitted && Silent(actions, n, i)
    case Validated => permitted && accepted && Silent(actions, n, i)
    case FannedOut(replies) => permitted && accepted && Heard(actions, n, i, replies)
    case Done(Failure(FinalViolation)) => !permitted && Silent(actions, n, i)
    case Done(Failure(ValidationFailed)) => permitted && !accepted && Silent(actions, n, i)
    case Done(Failure(ApplyFailed(fs))) => permitted && accepted && Refused(actions, n, i, fs)
    case _ => permitted && accepted && AllTrue(actions, n, i)
  }

  // ---------------------------------------------------------------------
  // One more action
  // ---------------------------------------------------------------------

  lemma {:induction false} RepliedNext<T(!new)>(actions: seq<Action<T>>, n: nat, i: nat, k: nat, ok: bool)
    requires n < |actions|
    ensures Replied(actions, n + 1, i, k, ok) <==> Replied(actions, n, i, k, ok) || actions[n] == Reply(i, k, ok)
  {
    if actions[n] == Reply(i, k, ok) {
      assert Replied(actions, n + 1, i, k, ok);
    }
    if Replied(actions, n, i, k, ok) {
      var f :| 0 <= f < n && f < |actions| && actions[f] == Reply(i, k, ok);
      assert f < n + 1 && actions[f] == Reply(i, k, ok);
    }
  }

  /** An action that is no reply to call `i` changes nothing about its replies. */
  lemma {:induction false} SameReplies<T(!new)>(actions: seq<Action<T>>, n: nat, next: nat, i: nat)
    requires next == n + 1 && n < |actions| && !(actions[n].Reply? && actions[n].i == i)
    ensures forall k: nat, ok: bool :: Replied(actions, next, i, k, ok) <==> Replied(actions, n, i, k, ok)
  {
    forall k: nat, ok: bool
      ensures Replied(actions, next, i, k, ok) <==> Replied(actions, n, i, k, ok)
    {
      RepliedNext(actions, n, i, k, ok);
    }
  }

  lemma {:induction false} OneMoreReply<T(!new)>(actions: seq<Action<T>>, n: nat, i: nat, replies: seq<Option<bool>>, at: nat,
                                                 ok: bool)
    requires n < |actions| && actions[n] == Reply(i, at, ok) && at < |replies| && replies[at].None?
    requires Heard(actions, n, i, replies)
    ensures Heard(actions, n + 1, i, replies[at := Some(ok)])
  {
    var next := n + 1;
    forall k: nat, b: bool
      ensures Replied(actions, next, i, k, b) <==> k < |replies| && replies[at := Some(ok)][k] == Some(b)
    {
      RepliedNext(actions, n, i, k, b);
    }
  }

  lemma {:induction false} RefusalsAre(replies: seq<Option<bool>>, k: nat)
    ensures k in Refusals(replies) <==> k < |replies| && replies[k] == Some(false)
  {
    if replies != [] {
      RefusalsAre(replies[..|replies| - 1], k);
    }
  }

  /** All replies are in: either all agree and none was false, or those that were are the refusals. */
  lemma {:induction false} Concluded<T(!new)>(actions: seq<Action<T>>, n: nat, i: nat, replies: seq<Option<bool>>)
    requires Heard(actions, n, i, replies) && AllReplied(replies)
    ensures if AllAgreed(replies) then AllTrue(actions, n, i) else Refused(actions, n, i, Refusals(replies))
  {
    forall k: nat
      ensures k in Refusals(replies) <==> Replied(actions, n, i, k, false)
    {
      RefusalsAre(replies, k);
    }
    if !AllAgreed(replies) {
      var k :| 0 <= k < |replies| && replies[k] != Some(true);
      RefusalsAre(replies, k);
      assert replies[k] == Some(replies[k].value) && !replies[k].value;
      assert k in Refusals(replies);
    }
  }

  lemma {:induction false} NewCallSilent<T(!new)>(states: seq<Control<T>>, actions: seq<Action<T>>, n: nat, i: nat)
    requires Run(states, actions) && n < |states| && i >= |states[n].calls|
    ensures Silent(actions, n, i)
  {
    forall k: nat, ok: bool
      ensures !Replied(actions, n, i, k, ok)
    {
      NotYet(states, actions, n, i, k, ok);
    }
  }

  lemma {:induction false} NotYet<T(!new)>(states: seq<Control<T>>, actions: seq<Action<T>>, n: nat, i: nat, k: nat, ok: bool)
    requires Run(states, actions) && n < |states| && i >= |states[n].calls|
    ensures !Replied(actions, n, i, k, ok)
  {
    if n > 0 {
      var c, a := states[n - 1], actions[n - 1];
      assert states[n - 1 + 1] == After(c, a);
      CallsGrow(c, a);
      NotYet(states, actions, n - 1, i, k, ok);
      RepliedNext(actions, n - 1, i, k, ok);
    }
  }

  lemma {:induction false} CallsGrow<T>(c: Control<T>, a: Action<T>)
    requires Enabled(c, a)
    ensures |c.calls| <= |After(c, a).calls| && After(c, a).config == c.config
    ensures a.Reply? ==> a.i < |c.calls|
  {
  }

  /** A step of another call, or of none, leaves this one as it is. */
  lemma {:induction false} OthersStay<T>(c: Control<T>, a: Action<T>, i: nat)
    requires Enabled(c, a) && i < |c.calls| && (a.Begin? || a.Register? || a.AllocateElsewhere? || a.i != i)
    ensures i < |After(c, a).calls| && After(c, a).calls[i] == c.calls[i] && After(c, a).config == c.config
  {
  }

  lemma {:induction false} OwnStep<T(!new)>(c: Control<T>, actions: seq<Action<T>>, n: nat, i: nat)
    requires n < |actions| && Enabled(c, actions[n]) && i < |c.calls| && Explained(c, actions, n, i)
    requires !(actions[n].Begin? || actions[n].Register? || actions[n].AllocateElsewhere?) && actions[n].i == i
    ensures i < |After(c, actions[n]).calls| && Explained(After(c, actions[n]), actions, n + 1, i)
  {
    var a := actions[n];
    if a.Reply? {
      OneMoreReply(actions, n, i, c.calls[i].stage.replies, a.applier, a.ok);
    } else {
      SameReplies(actions, n, n + 1, i);
      if a.Conclude? {
        Concluded(actions, n, i, c.calls[i].stage.replies);
      }
    }
  }

  lemma {:induction false} StepExplains<T(!new)>(c: Control<T>, actions: seq<Action<T>>, n: nat, i: nat)
    requires n < |actions| && Enabled(c, actions[n]) && i < |c.calls| && Explained(c, actions, n, i)
    ensures i < |After(c, actions[n]).calls| && Explained(After(c, actions[n]), actions, n + 1, i)
  {
    var a := actions[n];
    if a.Begin? || a.Register? || a.AllocateElsewhere? || a.i != i {
      OthersStay(c, a, i);
      SameReplies(actions, n, n + 1, i);
    } else {
      OwnStep(c, actions, n, i);
    }
  }

  lemma {:induction false} RunExplains<T(!new)>(states: seq<Control<T>>, actions: seq<Action<T>>, n: nat, i: nat)
    requires Run(states, actions) && n < |states| && i < |states[n].calls|
    ensures Explained(states[n], actions, n, i)
  {
    if n > 0 {
      var c, a := states[n - 1], actions[n - 1];
      assert states[n - 1 + 1] == After(c, a);
      if i < |c.calls| {
        RunExplains(states, actions, n - 1, i);
        StepExplains(c, actions, n - 1, i);
      } else {
        NewCallSilent(states, actions, n - 1, i);
        SameReplies(actions, n - 1, n, i);
      }
    }
  }

  // ---------------------------------------------------------------------
  // How a returned call ended
  // ---------------------------------------------------------------------

  /** In every interleaving a returned call succeeded exactly when it was permitted, its value
      accepted and no applier refused; it was turned away by the pin exactly when it was not
      permitted, by the validator exactly when it was and its value was not accepted; and it failed
      with these appliers exactly when, permitted and accepted, these are the ones that refused. */
  lemma {:induction false} ReturnedAs<T(!new)>(states: seq<Control<T>>, actions: seq<Action<T>>, n: nat, i: nat)
    requires Run(states, actions) && n < |states| && i < |states[n].calls| && states[n].calls[i].stage.Done?
    ensures var config, call := states[n].config, states[n].calls[i];
      var permitted, accepted, result := Permitted(config, call), config.Accepts(call.value), call.stage.result;
      (result.Success? <==> permitted && accepted && AllTrue(actions, n, i)) &&
      (result == Failure(FinalViolation) <==> !permitted) &&
      (result == Failure(ValidationFailed) <==> permitted && !accepted) &&
      (result.Failure? && result.error.ApplyFailed? <==> permitted && accepted && !AllTrue(actions, n, i)) &&
      (result.Failure? && result.error.ApplyFailed? ==> Refused(actions, n, i, result.error.failures))
  {
    RunExplains(states, actions, n, i);
    var result := states[n].calls[i].stage.result;
    if result.Failure? && result.error.ApplyFailed? {
      assert result.error.failures[0] in result.error.failures;
    }
  }

  /** Every applier registered when the call fanned out has replied. */
  ghost predicate AllAnswered<T(!new)>(states: seq<Control<T>>, actions: seq<Action<T>>, n: nat, i: nat)
    requires |states| == |actions| + 1 && n < |states|
  {
    exists f :: 0 <= f < n && actions[f] == FanOut(i) &&
                forall k: nat :: k < states[f].appliers ==> Replied(actions, n, i, k, true) || Replied(actions, n, i, k, false)
  }

  /** The stages after the appliers have been heard. */
  predicate WasHeard(s: Stage) {
    s.Acknowledged? || s.Allocated? || s.Committed? || s.Published? ||
    (s.Done? && (s.result.Success? || s.result.error.ApplyFailed?))
  }

  lemma {:induction false} ConcludesAnswered<T(!new)>(states: seq<Control<T>>, actions: seq<Action<T>>, n: nat, i: nat)
    requires Run(states, actions) && n < |actions| && actions[n] == Conclude(i)
    ensures AllAnswered(states, actions, n, i)
  {
    var c := states[n];
    assert Enabled(c, actions[n]);
    var replies := c.calls[i].stage.replies;
    CallsAsked(states, actions, n, i);
    RunExplains(states, actions, n, i);
    var f :| 0 <= f < n && actions[f] == FanOut(i) && |replies| == states[f].appliers;
    forall k: nat | k < states[f].appliers
      ensures Replied(actions, n, i, k, true) || Replied(actions, n, i, k, false)
    {
      assert AllReplied(replies) && Heard(actions, n, i, replies);
      assert replies[k] == Some(replies[k].value);
      assert Replied(actions, n, i, k, replies[k].value);
    }
  }

  lemma {:induction false} StillAnswered<T(!new)>(states: seq<Control<T>>, actions: seq<Action<T>>, n: nat, next: nat, i: nat)
    requires |states| == |actions| + 1 && n < |actions| && next == n + 1 && AllAnswered(states, actions, n, i)
    ensures AllAnswered(states, actions, next, i)
  {
    var f :| 0 <= f < n && actions[f] == FanOut(i) &&
             forall k: nat :: k < states[f].appliers ==> Replied(actions, n, i, k, true) || Replied(actions, n, i, k, false);
    forall k: nat | k < states[f].appliers
      ensures Replied(actions, next, i, k, true) || Replied(actions, next, i, k, false)
    {
      RepliedNext(actions, n, i, k, true);
      RepliedNext(actions, n, i, k, false);
    }
  }

  /** Only when the appliers are heard out does a call get past them. */
  lemma {:induction false} HeardStep<T>(c: Control<T>, a: Action<T>, i: nat)
    requires Enabled(c, a) && i < |After(c, a).calls| && WasHeard(After(c, a).calls[i].stage)
    ensures a == Conclude(i) || (i < |c.calls| && WasHeard(c.calls[i].stage))
  {
  }

  lemma {:induction false} HeardBefore<T(!new)>(states: seq<Control<T>>, actions: seq<Action<T>>, n: nat, next: nat, i: nat)
    requires Run(states, actions) && next == n + 1 && n < |actions| && i < |states[next].calls|
    requires WasHeard(states[next].calls[i].stage)
    ensures actions[n] == Conclude(i) || (i < |states[n].calls| && WasHeard(states[n].calls[i].stage))
  {
    assert states[n + 1] == After(states[n], actions[n]);
    HeardStep(states[n], actions[n], i);
  }

  lemma {:induction false} NoCallsAtFirst<T(!new)>(states: seq<Control<T>>, actions: seq<Action<T>>)
    requires Run(states, actions)
    ensures states[0].calls == []
  {
  }

  /** A call that succeeded, or failed for its appliers, had an answer from every applier registered
      when it fanned out. */
  lemma {:induction false} AnsweredInFull<T(!new)>(states: seq<Control<T>>, actions: seq<Action<T>>, n: nat, i: nat)
    requires Run(states, actions) && n < |states| && i < |states[n].calls| && WasHeard(states[n].calls[i].stage)
    ensures AllAnswered(states, actions, n, i)
  {
    if n > 0 {
      HeardBefore(states, actions, n - 1, n, i);
      if actions[n - 1] == Conclude(i) {
        ConcludesAnswered(states, actions, n - 1, i);
      } else {
        AnsweredInFull(states, actions, n - 1, i);
      }
      StillAnswered(states, actions, n - 1, n, i);
    } else {
      NoCallsAtFirst(states, actions);
    }
  }

  // ---------------------------------------------------------------------
  // A call nobody interrupts
  // ---------------------------------------------------------------------

  /** These actions, one after the other, lead from the one state to the other. */
  ghost predicate Leads<T(!new)>(c: Control<T>, actions: seq<Action<T>>, d: Control<T>)
    decreases |actions|
  {
    if actions == [] then d == c
    else Enabled(c, actions[0]) && Leads(After(c, actions[0]), actions[1..], d)
  }

  lemma {:induction false} LeadsOn<T(!new)>(c: Control<T>, actions: seq<Action<T>>, d: Control<T>, a: Action<T>)
    requires Leads(c, actions, d) && Enabled(d, a)
    ensures Leads(c, actions + [a], After(d, a))
    decreases |actions|
  {
    if actions == [] {
      assert actions + [a] == [a] && [a][1..] == [];
    } else {
      LeadsOn(After(c, actions[0]), actions[1..], d, a);
      assert (actions + [a])[1..] == actions[1..] + [a];
    }
  }

  /** What an uninterrupted write with these answers promises. */
  ghost predicate Promised<T>(config: Config<T>, v: T, from: Origin, answers: seq<bool>, r: Result<nat, SetError>) {
    (r == Failure(FinalViolation) <==> config.pinned && from != Launch) &&
    (r == Failure(ValidationFailed) <==> !(config.pinned && from != Launch) && !config.Accepts(v)) &&
    (r.Success? <==> !(config.pinned && from != Launch) && config.Accepts(v) && forall k :: 0 <= k < |answers| ==> answers[k]) &&
    (r.Failure? && r.error.ApplyFailed? ==> forall k: nat :: k in r.error.failures <==> k < |answers| && !answers[k])
  }

  function Given(answers: seq<bool>, n: nat): (r: seq<Option<bool>>)
    requires n <= |answers|
    ensures |r| == |answers| && forall k :: 0 <= k < |r| ==> r[k] == if k < n then Some(answers[k]) else None
  {
    seq(|answers|, k requires 0 <= k < |answers| => if k < n then Some(answers[k]) else None)
  }

  /** The call, new and alone inside, at this stage; everything else as it was. */
  ghost predicate Inside<T>(c: Control<T>, d: Control<T>, call: Call<T>) {
    d.config == c.config && d.versions == c.versions && d.counter == c.counter && d.gauge == c.gauge &&
    d.appliers == c.appliers && d.calls == c.calls + [call] &&
    d.holder == (if call.stage.Waiting? || call.stage.Done? then None else Some(|c.calls|))
  }

  lemma {:induction false} Then<T(!new)>(c: Control<T>, actions: seq<Action<T>>, d: Control<T>, a: Action<T>)
    returns (more: seq<Action<T>>, e: Control<T>)
    requires Leads(c, actions, d) && Enabled(d, a)
    ensures Leads(c, more, e) && e == After(d, a)
  {
    LeadsOn(c, actions, d, a);
    more, e := actions + [a], After(d, a);
  }

  /** A step of the one call inside that takes it to another stage and does nothing else. */
  lemma {:induction false} Onward<T(!new)>(c: Control<T>, actions: seq<Action<T>>, d: Control<T>, call: Call<T>, a: Action<T>,
                                           stage: Stage)
    returns (more: seq<Action<T>>, e: Control<T>)
    requires Leads(c, actions, d) && Inside(c, d, call) && Enabled(d, a)
    requires After(d, a) == if stage.Done? then Return(d, |c.calls|, stage.result)
                            else To(d, |c.calls|, stage).(holder := Some(|c.calls|))
    requires !stage.Waiting?
    ensures Leads(c, more, e) && Inside(c, e, call.(stage := stage))
  {
    more, e := Then(c, actions, d, a);
    assert (c.calls + [call])[|c.calls| := call.(stage := stage)] == c.calls + [call.(stage := stage)];
  }

  /** Inside the lock, up to the fan-out or a refusal. */
  lemma {:induction false} Enter<T(!new)>(c: Control<T>, v: T, from: Origin) returns (actions: seq<Action<T>>, d: Control<T>)
    requires c.holder == None
    ensures Leads(c, actions, d) && Inside(c, d, Call(v, from, Locked))
  {
    var i := |c.calls|;
    var a, b := Then(c, [], c, Begin(v, from));
    actions, d := Onward(c, a, b, Call(v, from, Waiting), Lock(i), Locked);
  }

  /** Every applier replies, one after the other. */
  lemma {:induction false} AllReply<T(!new)>(c: Control<T>, actions: seq<Action<T>>, d: Control<T>, v: T, from: Origin,
                                             answers: seq<bool>, n: nat)
    returns (more: seq<Action<T>>, e: Control<T>)
    requires n <= |answers| && Leads(c, actions, d) && Inside(c, d, Call(v, from, FannedOut(Given(answers, 0))))
    ensures Leads(c, more, e) && Inside(c, e, Call(v, from, FannedOut(Given(answers, n))))
  {
    if n == 0 {
      more, e := actions, d;
    } else {
      var a, b := AllReply(c, actions, d, v, from, answers, n - 1);
      assert Given(answers, n - 1)[n - 1 := Some(answers[n - 1])] == Given(answers, n);
      more, e := Onward(c, a, b, Call(v, from, FannedOut(Given(answers, n - 1))), Reply(|c.calls|, n - 1, answers[n - 1]),
                        FannedOut(Given(answers, n)));
    }
  }

  /** What a committed write leaves. */
  ghost predicate Written<T>(c: Control<T>, d: Control<T>, v: T, from: Origin, replies: seq<Option<bool>>) {
    var i, rev := |c.calls|, c.counter + 1;
    d.config == c.config && d.appliers == c.appliers && d.holder == None && d.counter == rev &&
    d.versions == c.versions + [Version(v, rev, from, Some(i), replies)] &&
    d.gauge == (if c.config.Projection(v).Some? then c.config.Projection(v) else c.gauge) &&
    d.calls == c.calls + [Call(v, from, Done(Success(rev)))]
  }

  /** The revision is drawn and the value committed. */
  lemma {:induction false} Draws<T(!new)>(c: Control<T>, actions: seq<Action<T>>, d: Control<T>, v: T, from: Origin,
                                          replies: seq<Option<bool>>)
    returns (more: seq<Action<T>>, e: Control<T>)
    requires Leads(c, actions, d) && Inside(c, d, Call(v, from, Acknowledged(replies)))
    ensures Leads(c, more, e) && e.config == c.config && e.appliers == c.appliers && e.gauge == c.gauge
    ensures var i, rev := |c.calls|, c.counter + 1;
      e.counter == rev && e.holder == Some(i) && e.calls == c.calls + [Call(v, from, Committed(rev))] &&
      e.versions == c.versions + [Version(v, rev, from, Some(i), replies)]
  {
    var i, rev := |c.calls|, c.counter + 1;
    var a, b := Then(c, actions, d, Allocate(i));
    assert b.calls == c.calls + [Call(v, from, Allocated(replies, rev))];
    more, e := Then(c, a, b, Commit(i));
    assert e.calls == c.calls + [Call(v, from, Committed(rev))];
  }

  lemma {:induction false} Commits<T(!new)>(c: Control<T>, actions: seq<Action<T>>, d: Control<T>, v: T, from: Origin,
                                            replies: seq<Option<bool>>)
    returns (more: seq<Action<T>>, e: Control<T>)
    requires Leads(c, actions, d) && Inside(c, d, Call(v, from, Acknowledged(replies)))
    ensures Leads(c, more, e) && Written(c, e, v, from, replies)
  {
    var i, rev := |c.calls|, c.counter + 1;
    var a1, d1 := Draws(c, actions, d, v, from, replies);
    var a2, d2 := Then(c, a1, d1, Publish(i));
    assert d2.calls == c.calls + [Call(v, from, Published(rev))];
    more, e := Then(c, a2, d2, Unlock(i));
    assert e.calls == c.calls + [Call(v, from, Done(Success(rev)))];
  }

  /** A write nobody interrupts, its appliers answering like this, ends as `set` on the object does:
      with the promised result, and on failure nothing else changed, on success the whole new
      state. */
  lemma {:induction false} Uninterrupted<T(!new)>(c: Control<T>, v: T, from: Origin, answers: seq<bool>)
    returns (actions: seq<Action<T>>, d: Control<T>, r: Result<nat, SetError>)
    requires c.holder == None && |answers| == c.appliers
    ensures Leads(c, actions, d) && Promised(c.config, v, from, answers, r)
    ensures r.Failure? ==> Inside(c, d, Call(v, from, Done(r)))
    ensures r.Success? ==> r.value == c.counter + 1 && Written(c, d, v, from, Given(answers, |answers|))
  {
    var i := |c.calls|;
    actions, d := Enter(c, v, from);
    if c.config.pinned && from != Launch {
      r := Failure(FinalViolation);
      actions, d := Onward(c, actions, d, Call(v, from, Locked), CheckPin(i), Done(r));
      return;
    }
    actions, d := Onward(c, actions, d, Call(v, from, Locked), CheckPin(i), Checked);
    if !c.config.Accepts(v) {
      r := Failure(ValidationFailed);
      actions, d := Onward(c, actions, d, Call(v, from, Checked), Validate(i), Done(r));
      return;
    }
    actions, d := Onward(c, actions, d, Call(v, from, Checked), Validate(i), Validated);
    assert seq(d.appliers, _ => None) == Given(answers, 0);
    actions, d := Onward(c, actions, d, Call(v, from, Validated), FanOut(i), FannedOut(Given(answers, 0)));
    actions, d := AllReply(c, actions, d, v, from, answers, |answers|);
    actions, d, r := Ends(c, actions, d, v, from, answers);
  }

  /** All have answered: refused if one refuses, committed if none does. */
  lemma {:induction false} Ends<T(!new)>(c: Control<T>, actions: seq<Action<T>>, d: Control<T>, v: T, from: Origin,
                                         answers: seq<bool>)
    returns (more: seq<Action<T>>, e: Control<T>, r: Result<nat, SetError>)
    requires Leads(c, actions, d) && Inside(c, d, Call(v, from, FannedOut(Given(answers, |answers|))))
    requires (!c.config.pinned || from == Launch) && c.config.Accepts(v)
    ensures Leads(c, more, e) && Promised(c.config, v, from, answers, r)
    ensures r.Failure? ==> Inside(c, e, Call(v, from, Done(r)))
    ensures r.Success? ==> r.value == c.counter + 1 && Written(c, e, v, from, Given(answers, |answers|))
  {
    var i, replies := |c.calls|, Given(answers, |answers|);
    if AllAgreed(replies) {
      assert forall k :: 0 <= k < |answers| ==> replies[k] == Some(true);
      var a, b := Onward(c, actions, d, Call(v, from, FannedOut(replies)), Conclude(i), Acknowledged(replies));
      more, e := Commits(c, a, b, v, from, replies);
      r := Success(c.counter + 1);
    } else {
      r := Failure(ApplyFailed(Refusals(replies)));
      more, e := Onward(c, actions, d, Call(v, from, FannedOut(replies)), Conclude(i), Done(r));
      forall k: nat
        ensures k in Refusals(replies) <==> k < |answers| && !answers[k]
      {
        RefusalsAre(replies, k);
      }
      var k :| 0 <= k < |replies| && replies[k] != Some(true);
      assert !answers[k];
    }
  }
}
