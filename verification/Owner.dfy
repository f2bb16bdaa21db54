/** The owner task: it alone changes the windows, draining commands in batches, then
    publishing, then firing the acks of the batch. */
module Owner {
  import opened Wrappers
  import opened Labels
  import opened Snapshot
  import opened Windows
  import opened Cascade
  import opened Runs

  datatype Cmd =
    | IngestCmd(path: string, labels: Labels, snapshot: MetricSet, ack: bool)
    | ClosePath(path: string, reason: CloseReason, ack: bool)
    | FlushAll(reason: CloseReason)
    | Barrier

  predicate WantsAck(c: Cmd) {
    match c
    case IngestCmd(_, _, _, ack) => ack
    case ClosePath(_, _, ack) => ack
    case FlushAll(_) => true
    case Barrier => true
  }

  /** Windows of every path ingested so far, layer by layer, and the paths' labels. A layer
      nothing has reached yet reads like a new window. */
  datatype State = State(paths: map<string, seq<Window>>, labels: map<string, Labels>)

  const EMPTY: State := State(map[], map[])

  function PathOf(st: State, layers: seq<Duration>, path: string): seq<Window> {
    if path in st.paths then st.paths[path] else FreshPath(layers)
  }

  function Noted(labels: map<string, Labels>, path: string, under: Labels): map<string, Labels> {
    if path in labels then labels else labels[path := under]
  }

  function Cascaded(st: State, layers: seq<Duration>, path: string, s: MetricSet): State {
    st.(paths := st.paths[path := IngestFrom(PathOf(st, layers, path), 0, s).0])
  }

  function IngestOn(st: State, layers: seq<Duration>, path: string, labels: Labels, s: MetricSet): State {
    Cascaded(st.(labels := Noted(st.labels, path, labels)), layers, path, s)
  }

  function ClosePathOn(st: State, path: string, reason: CloseReason): State {
    if path in st.paths then st.(paths := st.paths[path := CloseFrom(st.paths[path], 0, None, reason).0]) else st
  }

  function Apply(st: State, layers: seq<Duration>, c: Cmd): State {
    match c
    case IngestCmd(path, labels, s, _) =>
      IngestOn(st, layers, path, labels, s)
    case ClosePath(path, reason, _) => ClosePathOn(st, path, reason)
    case FlushAll(reason) => st.(paths := map p | p in st.paths :: CloseFrom(st.paths[p], 0, None, reason).0)
    case Barrier => st
  }

  function Fold(layers: seq<Duration>, cmds: seq<Cmd>): State {
    if cmds == [] then EMPTY else Apply(Fold(layers, cmds[..|cmds| - 1]), layers, cmds[|cmds| - 1])
  }

  function FoldFrom(st: State, layers: seq<Duration>, cmds: seq<Cmd>): State {
    if cmds == [] then st else Apply(FoldFrom(st, layers, cmds[..|cmds| - 1]), layers, cmds[|cmds| - 1])
  }

  /** Applying commands batch by batch is applying them all. */
  lemma {:induction false} FoldBatches(layers: seq<Duration>, before: seq<Cmd>, batch: seq<Cmd>)
    ensures FoldFrom(Fold(layers, before), layers, batch) == Fold(layers, before + batch)
  {
    if batch == [] {
      assert before + batch == before;
    } else {
      var init := batch[..|batch| - 1];
      FoldBatches(layers, before, init);
      assert (before + batch)[..|before + batch| - 1] == before + init;
    }
  }

  // ---------------------------------------------------------------------
  // Flushing everything, path by path
  // ---------------------------------------------------------------------

  function CloseEach(st: State, order: seq<string>, reason: CloseReason): State {
    if order == [] then st
    else ClosePathOn(CloseEach(st, order[..|order| - 1], reason), order[|order| - 1], reason)
  }

  function ClosedOn(st: State, path: string, reason: CloseReason): seq<Closed> {
    if path in st.paths then CloseFrom(st.paths[path], 0, None, reason).1 else []
  }

  /** Every window the flush seals, in the order it visits the paths. */
  function ClosedEach(st: State, order: seq<string>, reason: CloseReason): seq<Closed> {
    if order == [] then []
    else
      var init, last := order[..|order| - 1], order[|order| - 1];
      ClosedEach(st, init, reason) + ClosedOn(CloseEach(st, init, reason), last, reason)
  }

  /** Every path once, in the order a hash set happens to give them. */
  ghost predicate Enumerates(order: seq<string>, paths: set<string>) {
    (forall i, j :: 0 <= i < j < |order| ==> order[i] != order[j]) && (forall p :: p in order <==> p in paths)
  }

  lemma {:induction false} CloseEachAt(st: State, order: seq<string>, reason: CloseReason)
    requires forall i, j :: 0 <= i < j < |order| ==> order[i] != order[j]
    ensures var after := CloseEach(st, order, reason);
      after.labels == st.labels && after.paths.Keys == st.paths.Keys &&
      forall p :: p in st.paths ==>
        after.paths[p] == if p in order then CloseFrom(st.paths[p], 0, None, reason).0 else st.paths[p]
  {
    if order != [] {
      var init, last := order[..|order| - 1], order[|order| - 1];
      assert order == init + [last];
      CloseEachAt(st, init, reason);
      assert last !in init;
    }
  }

  /** Whatever order the paths are visited in, the flush leaves the same state. */
  lemma {:induction false} FlushAnyOrder(st: State, layers: seq<Duration>, order: seq<string>, reason: CloseReason)
    requires Enumerates(order, st.paths.Keys)
    ensures CloseEach(st, order, reason) == Apply(st, layers, FlushAll(reason))
  {
    CloseEachAt(st, order, reason);
    assert CloseEach(st, order, reason).paths == Apply(st, layers, FlushAll(reason)).paths;
  }

  function Gathered(st: State, order: seq<string>, reason: CloseReason): multiset<Closed> {
    if order == [] then multiset{}
    else Gathered(st, order[..|order| - 1], reason) + multiset(ClosedOn(st, order[|order| - 1], reason))
  }

  lemma {:induction false} ClosedEachGathers(st: State, order: seq<string>, reason: CloseReason)
    requires forall i, j :: 0 <= i < j < |order| ==> order[i] != order[j]
    ensures multiset(ClosedEach(st, order, reason)) == Gathered(st, order, reason)
  {
    if order != [] {
      var init, last := order[..|order| - 1], order[|order| - 1];
      ClosedEachGathers(st, init, reason);
      CloseEachAt(st, init, reason);
      assert last !in init;
      assert ClosedOn(CloseEach(st, init, reason), last, reason) == ClosedOn(st, last, reason);
    }
  }

  lemma {:induction false} SliceOut<T>(s: seq<T>, i: nat)
    requires i + 1 < |s|
    ensures var init, rest := s[..|s| - 1], s[..i] + s[i + 1..];
      rest[..|rest| - 1] == init[..i] + init[i + 1..] && rest[|rest| - 1] == s[|s| - 1] && init[i] == s[i]
  {
  }

  /** What is gathered does not depend on where a path stands. */
  lemma {:induction false} GatheredWithout(st: State, order: seq<string>, i: nat, reason: CloseReason)
    requires i < |order|
    ensures Gathered(st, order, reason) ==
            Gathered(st, order[..i] + order[i + 1..], reason) + multiset(ClosedOn(st, order[i], reason))
  {
    var init, last := order[..|order| - 1], order[|order| - 1];
    if i == |order| - 1 {
      assert order[..i] + order[i + 1..] == init;
    } else {
      GatheredWithout(st, init, i, reason);
      SliceOut(order, i);
    }
  }

  lemma {:induction false} RemoveOne(order: seq<string>, i: nat, paths: set<string>)
    requires i < |order| && Enumerates(order, paths)
    ensures Enumerates(order[..i] + order[i + 1..], paths - {order[i]})
  {
    var rest := order[..i] + order[i + 1..];
    assert forall j :: 0 <= j < |rest| ==> rest[j] == order[if j < i then j else j + 1];
    forall p | p in paths && p != order[i]
      ensures p in rest
    {
      var j :| 0 <= j < |order| && order[j] == p;
      assert rest[if j < i then j else j - 1] == p;
    }
  }

  lemma {:induction false} EnumerationLength(order: seq<string>, paths: set<string>)
    requires Enumerates(order, paths)
    ensures |order| == |paths|
  {
    if order == [] {
      assert paths == {};
    } else {
      var n := |order| - 1;
      RemoveOne(order, n, paths);
      assert order[..n] + order[n + 1..] == order[..n];
      assert order[n] in order;
      EnumerationLength(order[..n], paths - {order[n]});
    }
  }

  lemma {:induction false} GatheredPermutes(st: State, a: seq<string>, b: seq<string>, paths: set<string>, reason: CloseReason)
    requires Enumerates(a, paths) && Enumerates(b, paths)
    ensures Gathered(st, a, reason) == Gathered(st, b, reason)
  {
    EnumerationLength(a, paths);
    EnumerationLength(b, paths);
    if a != [] {
      var init, last := a[..|a| - 1], a[|a| - 1];
      assert last in b;
      var i :| 0 <= i < |b| && b[i] == last;
      var rest := b[..i] + b[i + 1..];
      RemoveOne(a, |a| - 1, paths);
      RemoveOne(b, i, paths);
      assert a[..|a| - 1] + a[|a|..] == init;
      GatheredPermutes(st, init, rest, paths - {last}, reason);
      GatheredWithout(st, b, i, reason);
    }
  }

  /** And it seals the same windows, each as often. */
  lemma {:induction false} FlushSealsAnyOrder(st: State, a: seq<string>, b: seq<string>, reason: CloseReason)
    requires Enumerates(a, st.paths.Keys) && Enumerates(b, st.paths.Keys)
    ensures multiset(ClosedEach(st, a, reason)) == multiset(ClosedEach(st, b, reason))
  {
    ClosedEachGathers(st, a, reason);
    ClosedEachGathers(st, b, reason);
    GatheredPermutes(st, a, b, st.paths.Keys, reason);
  }

  // ---------------------------------------------------------------------
  // Each path on its own
  // ---------------------------------------------------------------------

  /** What a command means to one path. */
  function OpOf(c: Cmd, path: string): Option<Op> {
    match c
    case IngestCmd(p, _, s, _) => if p == path then Some(IngestOp(s)) else None
    case ClosePath(p, reason, _) => if p == path then Some(CloseOp(reason)) else None
    case FlushAll(reason) => Some(CloseOp(reason))
    case Barrier => None
  }

  function OpsFor(cmds: seq<Cmd>, path: string): seq<Op> {
    if cmds == [] then []
    else
      var op := OpOf(cmds[|cmds| - 1], path);
      OpsFor(cmds[..|cmds| - 1], path) + if op.None? then [] else [op.value]
  }

  lemma {:induction false} NothingToClose(ws: seq<Window>, k: nat, reason: CloseReason)
    requires forall i :: k <= i < |ws| ==> ws[i].prebuffer.None?
    ensures CloseFrom(ws, k, None, reason) == (ws, [])
    decreases |ws| - k
  {
    if k < |ws| {
      var (w, sealed) := CloseLayer(ws[k], None, reason);
      assert ws[k := w] == ws && sealed == None;
      NothingToClose(ws, k + 1, reason);
      var none: seq<Closed> := [];
      assert Sealed(k, None) + none == none;
    }
  }

  function Stepped(ws: seq<Window>, op: Op): seq<Window> {
    match op
    case IngestOp(s) => IngestFrom(ws, 0, s).0
    case CloseOp(reason) => CloseFrom(ws, 0, None, reason).0
  }

  lemma {:induction false} ApplyOnPath(st: State, layers: seq<Duration>, c: Cmd, path: string)
    ensures var op := OpOf(c, path);
      PathOf(Apply(st, layers, c), layers, path) ==
      if op.None? then PathOf(st, layers, path) else Stepped(PathOf(st, layers, path), op.value)
  {
    if (c.ClosePath? || c.FlushAll?) && path !in st.paths {
      NothingToClose(FreshPath(layers), 0, c.reason);
    }
  }

  lemma {:induction false} RunSnoc(layers: seq<Duration>, ops: seq<Op>, op: Op)
    ensures Run(layers, ops + [op]).ws == Stepped(Run(layers, ops).ws, op)
  {
    assert (ops + [op])[..|ops|] == ops;
  }

  /** The owner's windows of a path are what that path's own operations give: everything
      proved of a run holds of what the owner keeps and publishes. */
  lemma {:induction false} FoldIsRun(layers: seq<Duration>, cmds: seq<Cmd>, path: string)
    ensures PathOf(Fold(layers, cmds), layers, path) == Run(layers, OpsFor(cmds, path)).ws
  {
    if cmds != [] {
      var init, c := cmds[..|cmds| - 1], cmds[|cmds| - 1];
      var ops := OpsFor(init, path);
      FoldIsRun(layers, init, path);
      ApplyOnPath(Fold(layers, init), layers, c, path);
      if OpOf(c, path).Some? {
        RunSnoc(layers, ops, OpOf(c, path).value);
      } else {
        assert ops + [] == ops;
      }
    }
  }

  function FirstLabels(cmds: seq<Cmd>, path: string): Option<Labels> {
    if cmds == [] then None
    else if cmds[0].IngestCmd? && cmds[0].path == path then Some(cmds[0].labels)
    else FirstLabels(cmds[1..], path)
  }

  lemma {:induction false} FirstLabelsSnoc(cmds: seq<Cmd>, c: Cmd, path: string)
    ensures FirstLabels(cmds + [c], path) ==
            if FirstLabels(cmds, path).Some? then FirstLabels(cmds, path) else FirstLabels([c], path)
  {
    if cmds != [] {
      FirstLabelsSnoc(cmds[1..], c, path);
      assert (cmds + [c])[1..] == cmds[1..] + [c];
    } else {
      assert cmds + [c] == [c];
    }
  }

  lemma {:induction false} ApplyLabels(st: State, layers: seq<Duration>, c: Cmd, path: string)
    ensures var before, after := st.labels, Apply(st, layers, c).labels;
      (if path in after then Some(after[path]) else None) ==
      if path in before then Some(before[path]) else FirstLabels([c], path)
  {
    assert FirstLabels([], path) == None;
  }

  /** A path keeps the labels it was first ingested under. */
  lemma {:induction false} FoldLabels(layers: seq<Duration>, cmds: seq<Cmd>, path: string)
    ensures var labels := Fold(layers, cmds).labels;
      (if path in labels then Some(labels[path]) else None) == FirstLabels(cmds, path)
  {
    if cmds != [] {
      var init, c := cmds[..|cmds| - 1], cmds[|cmds| - 1];
      FoldLabels(layers, init, path);
      ApplyLabels(Fold(layers, init), layers, c, path);
      FirstLabelsSnoc(init, c, path);
      assert cmds == init + [c];
    }
  }
}
