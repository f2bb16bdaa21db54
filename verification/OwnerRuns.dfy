/** Every interleaving of callers and the owner task: callers see a state that is the fold
    of a prefix of the commands, and an ack only once its command is inside it. */
module OwnerRuns {
  import opened Wrappers
  import opened Owner

  datatype Phase =
    | Idle     // waiting for the first command of a batch
    | Batch    // draining
    | Acking   // published; firing the batch's acks
    | Done     // channel closed, final publish made

  /** `sent` is everything ever put on the channel, `taken` how much of it the owner has
      received; `upTo` says which commands the published state was folded from. */
  datatype Task = Task(sent: seq<Cmd>, open: bool, taken: nat, phase: Phase, windows: State, acks: seq<nat>,
                       published: State, upTo: nat, fired: seq<nat>)

  const START: Task := Task([], true, 0, Idle, EMPTY, [], EMPTY, 0, [])

  datatype Action =
    | Send(cmd: Cmd)
    | Disconnect
      // Receive and apply the next command; a flush visits the paths in this order.
    | Take(order: seq<string>)
    | Publish
    | Fire
    | Resume
    | Stop

  ghost predicate Enabled(t: Task, a: Action) {
    match a
    case Send(_) => t.open
    case Disconnect => t.open
    case Take(order) =>
      (t.phase == Idle || t.phase == Batch) && t.taken < |t.sent| &&
      (t.sent[t.taken].FlushAll? ==> Enumerates(order, t.windows.paths.Keys))
    case Publish => t.phase == Batch
    case Fire => t.phase == Acking && t.acks != []
    case Resume => t.phase == Acking && t.acks == []
    case Stop => t.phase == Idle && !t.open && t.taken == |t.sent|
  }

  function TakeCmd(st: State, layers: seq<Duration>, c: Cmd, order: seq<string>): State {
    match c
    case FlushAll(reason) => CloseEach(st, order, reason)
    case _ => Apply(st, layers, c)
  }

  function After(t: Task, layers: seq<Duration>, a: Action): Task {
    match a
    case Send(c) => t.(sent := t.sent + [c])
    case Disconnect => t.(open := false)
    case Take(order) =>
      if t.taken < |t.sent| then
        var c := t.sent[t.taken];
        t.(taken := t.taken + 1, phase := Batch, windows := TakeCmd(t.windows, layers, c, order),
           acks := t.acks + if WantsAck(c) then [t.taken] else [])
      else t
    case Publish => t.(phase := Acking, published := t.windows, upTo := t.taken)
    case Fire => if t.acks == [] then t else t.(acks := t.acks[1..], fired := t.fired + [t.acks[0]])
    case Resume => t.(phase := Idle)
    case Stop => t.(phase := Done, published := t.windows, upTo := t.taken)
  }

  function Exec(layers: seq<Duration>, actions: seq<Action>): Task {
    if actions == [] then START
    else After(Exec(layers, actions[..|actions| - 1]), layers, actions[|actions| - 1])
  }

  ghost predicate Allowed(layers: seq<Duration>, actions: seq<Action>) {
    forall i :: 0 <= i < |actions| ==> Enabled(Exec(layers, actions[..i]), actions[i])
  }

  /** The commands among the first `n` that asked for an ack, in order. */
  function Asked(sent: seq<Cmd>, n: nat): (r: seq<nat>)
    requires n <= |sent|
    ensures forall i :: 0 <= i < |r| ==> r[i] < n && WantsAck(sent[r[i]])
  {
    if n == 0 then [] else Asked(sent, n - 1) + if WantsAck(sent[n - 1]) then [n - 1] else []
  }

  lemma {:induction false} AskedGrows(sent: seq<Cmd>, c: Cmd, n: nat)
    requires n <= |sent|
    ensures Asked(sent + [c], n) == Asked(sent, n)
  {
    if n > 0 {
      AskedGrows(sent, c, n - 1);
    }
  }

  /** What the owner holds and what it has published are folds of prefixes. */
  ghost predicate Folds(t: Task, layers: seq<Duration>) {
    t.upTo <= t.taken <= |t.sent| &&
    t.windows == Fold(layers, t.sent[..t.taken]) && t.published == Fold(layers, t.sent[..t.upTo])
  }

  /** Acks fire in order, once each, and only from a published batch. */
  ghost predicate Orderly(t: Task) {
    t.upTo <= t.taken <= |t.sent| &&
    t.fired + t.acks == Asked(t.sent, t.taken) &&
    (forall i :: 0 <= i < |t.fired| ==> t.fired[i] < t.upTo) &&
    (t.phase != Batch ==> t.upTo == t.taken) &&
    (t.phase == Idle || t.phase == Done ==> t.acks == []) &&
    (t.phase == Done ==> !t.open && t.taken == |t.sent|)
  }

  ghost predicate Inv(t: Task, layers: seq<Duration>) {
    Folds(t, layers) && Orderly(t)
  }

  lemma {:induction false} TakeIsApply(st: State, layers: seq<Duration>, c: Cmd, order: seq<string>)
    requires c.FlushAll? ==> Enumerates(order, st.paths.Keys)
    ensures TakeCmd(st, layers, c, order) == Apply(st, layers, c)
  {
    if c.FlushAll? {
      FlushAnyOrder(st, layers, order, c.reason);
    }
  }

  lemma {:induction false} FoldNext(layers: seq<Duration>, sent: seq<Cmd>, n: nat)
    requires n < |sent|
    ensures Fold(layers, sent[..n + 1]) == Apply(Fold(layers, sent[..n]), layers, sent[n])
  {
    assert sent[..n + 1][..n] == sent[..n];
  }

  lemma {:induction false} TakeFolds(t: Task, layers: seq<Duration>, order: seq<string>)
    requires Folds(t, layers) && Enabled(t, Take(order))
    ensures Folds(After(t, layers, Take(order)), layers)
  {
    TakeIsApply(t.windows, layers, t.sent[t.taken], order);
    FoldNext(layers, t.sent, t.taken);
  }

  lemma {:induction false} TakeOrderly(t: Task, layers: seq<Duration>, order: seq<string>)
    requires Orderly(t) && Enabled(t, Take(order))
    ensures Orderly(After(t, layers, Take(order)))
  {
    var more := if WantsAck(t.sent[t.taken]) then [t.taken] else [];
    assert t.fired + (t.acks + more) == (t.fired + t.acks) + more;
  }

  lemma {:induction false} SendFolds(t: Task, layers: seq<Duration>, c: Cmd)
    requires Folds(t, layers)
    ensures Folds(After(t, layers, Send(c)), layers)
  {
    assert (t.sent + [c])[..t.taken] == t.sent[..t.taken];
    assert (t.sent + [c])[..t.upTo] == t.sent[..t.upTo];
  }

  lemma {:induction false} FireOrderly(t: Task, layers: seq<Duration>)
    requires Orderly(t) && Enabled(t, Fire)
    ensures Orderly(After(t, layers, Fire))
  {
    var asked := Asked(t.sent, t.taken);
    assert (t.fired + [t.acks[0]]) + t.acks[1..] == t.fired + t.acks;
    assert asked[|t.fired|] == t.acks[0];
  }

  lemma {:induction false} StepFolds(t: Task, layers: seq<Duration>, a: Action)
    requires Folds(t, layers) && Enabled(t, a)
    ensures Folds(After(t, layers, a), layers)
  {
    match a
    case Send(c) => SendFolds(t, layers, c);
    case Take(order) => TakeFolds(t, layers, order);
    case _ =>
  }

  lemma {:induction false} StepOrderly(t: Task, layers: seq<Duration>, a: Action)
    requires Orderly(t) && Enabled(t, a)
    ensures Orderly(After(t, layers, a))
  {
    match a
    case Send(c) => AskedGrows(t.sent, c, t.taken);
    case Take(order) => TakeOrderly(t, layers, order);
    case Fire => FireOrderly(t, layers);
    case _ =>
  }

  lemma {:induction false} AllowedPrefix(layers: seq<Duration>, actions: seq<Action>, n: nat)
    requires Allowed(layers, actions) && n <= |actions|
    ensures Allowed(layers, actions[..n])
  {
    forall i | 0 <= i < n
      ensures Enabled(Exec(layers, actions[..n][..i]), actions[..n][i])
    {
      assert actions[..n][..i] == actions[..i];
    }
  }

  lemma {:induction false} LastEnabled(layers: seq<Duration>, actions: seq<Action>)
    requires Allowed(layers, actions) && actions != []
    ensures Allowed(layers, actions[..|actions| - 1])
    ensures Enabled(Exec(layers, actions[..|actions| - 1]), actions[|actions| - 1])
  {
    AllowedPrefix(layers, actions, |actions| - 1);
  }

  lemma {:induction false} RunKeeps(layers: seq<Duration>, actions: seq<Action>)
    requires Allowed(layers, actions)
    ensures Inv(Exec(layers, actions), layers)
  {
    if actions != [] {
      LastEnabled(layers, actions);
      RunKeeps(layers, actions[..|actions| - 1]);
      StepFolds(Exec(layers, actions[..|actions| - 1]), layers, actions[|actions| - 1]);
      StepOrderly(Exec(layers, actions[..|actions| - 1]), layers, actions[|actions| - 1]);
    }
  }

  /** Readers always see the fold of a prefix of the commands; every ack fired so far is of
      a command inside that prefix; acks fire in order and at most once. */
  lemma {:induction false} PublishedIsPrefix(layers: seq<Duration>, actions: seq<Action>)
    requires Allowed(layers, actions)
    ensures var t := Exec(layers, actions);
      t.upTo <= |t.sent| && t.published == Fold(layers, t.sent[..t.upTo]) &&
      (forall i :: 0 <= i < |t.fired| ==> t.fired[i] < t.upTo && WantsAck(t.sent[t.fired[i]])) &&
      t.fired <= Asked(t.sent, |t.sent|)
  {
    RunKeeps(layers, actions);
    var t := Exec(layers, actions);
    AskedPrefix(t.sent, t.taken, |t.sent|);
    assert forall i :: 0 <= i < |t.fired| ==> t.fired[i] == Asked(t.sent, t.taken)[i];
  }

  lemma {:induction false} AskedPrefix(sent: seq<Cmd>, m: nat, n: nat)
    requires m <= n <= |sent|
    ensures Asked(sent, m) <= Asked(sent, n)
  {
    if m < n {
      AskedPrefix(sent, m, n - 1);
    }
  }

  lemma {:induction false} StepGrows(t: Task, layers: seq<Duration>, a: Action)
    requires Inv(t, layers) && Enabled(t, a)
    ensures t.upTo <= After(t, layers, a).upTo && t.sent <= After(t, layers, a).sent
  {
  }

  /** Whatever happens next, the published prefix never shrinks, and what was sent stays. */
  lemma {:induction false} NeverShrinks(layers: seq<Duration>, actions: seq<Action>, n: nat)
    requires Allowed(layers, actions) && n <= |actions|
    ensures Exec(layers, actions[..n]).upTo <= Exec(layers, actions).upTo
    ensures Exec(layers, actions[..n]).sent <= Exec(layers, actions).sent
  {
    if n == |actions| {
      assert actions[..n] == actions;
    } else {
      var last := |actions| - 1;
      AllowedPrefix(layers, actions, last);
      NeverShrinks(layers, actions[..last], n);
      assert actions[..last][..n] == actions[..n];
      RunKeeps(layers, actions[..last]);
      StepGrows(Exec(layers, actions[..last]), layers, actions[last]);
    }
  }

  /** A caller that has its ack reads the effects of its command and of every command sent
      before it, then and ever after. */
  lemma {:induction false} AckMeansVisible(layers: seq<Duration>, actions: seq<Action>, n: nat, cmd: nat)
    requires Allowed(layers, actions) && n <= |actions| && cmd in Exec(layers, actions[..n]).fired
    ensures var t := Exec(layers, actions);
      cmd < t.upTo <= |t.sent| && t.published == Fold(layers, t.sent[..t.upTo])
  {
    AllowedPrefix(layers, actions, n);
    RunKeeps(layers, actions[..n]);
    RunKeeps(layers, actions);
    NeverShrinks(layers, actions, n);
  }

  /** When the owner stops, everything sent is published and every ack has fired, once. */
  lemma {:induction false} StoppedSawEverything(layers: seq<Duration>, actions: seq<Action>)
    requires Allowed(layers, actions) && Exec(layers, actions).phase == Done
    ensures var t := Exec(layers, actions);
      t.published == Fold(layers, t.sent) && t.fired == Asked(t.sent, |t.sent|)
  {
    RunKeeps(layers, actions);
    var t := Exec(layers, actions);
    assert t.sent[..|t.sent|] == t.sent;
    assert t.fired + [] == t.fired;
  }
}
