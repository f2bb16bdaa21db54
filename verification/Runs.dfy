/** Every run of ingests and closes on one component path. */
module Runs {
  import opened Wrappers
  import opened Snapshot
  import opened Windows
  import opened Cascade
  import opened CascadeKeeps
  import opened Partition

  datatype Op = IngestOp(snapshot: MetricSet) | CloseOp(reason: CloseReason)

  /** The windows of a path, everything each layer has sealed, and everything ingested. */
  datatype Path = Path(ws: seq<Window>, logs: seq<seq<MetricSet>>, history: seq<MetricSet>)

  function Extend(logs: seq<seq<MetricSet>>, closed: seq<Closed>): (r: seq<seq<MetricSet>>)
    ensures |r| == |logs| && forall k :: 0 <= k < |logs| ==> r[k] == logs[k] + Pick(closed, k)
  {
    seq(|logs|, k requires 0 <= k < |logs| => logs[k] + Pick(closed, k))
  }

  function Step(p: Path, op: Op): Path {
    match op
    case IngestOp(s) =>
      var (ws, closed) := IngestFrom(p.ws, 0, s);
      Path(ws, Extend(p.logs, closed), p.history + [s])
    case CloseOp(reason) =>
      var (ws, closed) := CloseFrom(p.ws, 0, None, reason);
      Path(ws, Extend(p.logs, closed), p.history)
  }

  function Run(layers: seq<Duration>, ops: seq<Op>): (p: Path)
    ensures |p.ws| == |p.logs| == |layers|
  {
    if ops == [] then Path(FreshPath(layers), seq(|layers|, _ => []), [])
    else Step(Run(layers, ops[..|ops| - 1]), ops[|ops| - 1])
  }

  /** Every ingested snapshot carries at least one family. */
  ghost predicate NonEmpty(ops: seq<Op>) {
    forall i :: 0 <= i < |ops| && ops[i].IngestOp? ==> ops[i].snapshot.families != []
  }

  /** Ingested snapshots are well typed and carry at least one family. */
  ghost predicate Legal(ops: seq<Op>, sig: Signature) {
    NonEmpty(ops) && forall i :: 0 <= i < |ops| && ops[i].IngestOp? ==> Fits(ops[i].snapshot, sig)
  }

  /** The same of several components' runs. */
  ghost predicate AllLegal(runs: seq<seq<Op>>, sig: Signature) {
    forall i :: 0 <= i < |runs| ==> Legal(runs[i], sig)
  }

  // ---------------------------------------------------------------------
  // Partition
  // ---------------------------------------------------------------------

  lemma {:induction false} IngestPartition(p: Path, s: MetricSet, j: nat, sig: Signature)
    requires j < |p.ws| == |p.logs| && Fits(s, sig)
    requires Tiles(p.logs[j] + Open(p.ws, j, 0), p.history, sig)
    ensures var q := Step(p, IngestOp(s)); Tiles(q.logs[j] + Open(q.ws, j, 0), q.history, sig)
  {
    var history := p.history + [s];
    TilesSnoc(p.logs[j] + Open(p.ws, j, 0), p.history, s, sig);
    TilesStable(history, sig);
    IngestKeeps(p.ws, 0, s, j, p.logs[j], (x: seq<MetricSet>) => Tiles(x, history, sig));
  }

  lemma {:induction false} ClosePartition(p: Path, reason: CloseReason, j: nat, layers: seq<Duration>, sig: Signature)
    requires j < |p.ws| == |p.logs| && DividingTo(layers, j) && AllAccounted(p.ws, layers)
    requires Tiles(p.logs[j] + Open(p.ws, j, 0), p.history, sig)
    ensures var q := Step(p, CloseOp(reason)); Tiles(q.logs[j], q.history, sig)
  {
    TilesStable(p.history, sig);
    AppendNone(p.logs[j] + Open(p.ws, j, 0));
    CloseKeeps(p.ws, 0, None, reason, j, layers, p.logs[j], (x: seq<MetricSet>) => Tiles(x, p.history, sig));
  }

  lemma {:induction false} CloseLeavesNothing(ws: seq<Window>, reason: CloseReason, layers: seq<Duration>, j: nat)
    requires j < |ws| && AllAccounted(ws, layers)
    ensures AllAccounted(CloseFrom(ws, 0, None, reason).0, layers)
    ensures Open(CloseFrom(ws, 0, None, reason).0, j, 0) == []
  {
    CloseAccounts(ws, 0, None, reason, layers);
    CloseEmpties(ws, 0, None, reason, layers);
    OpenSkipsEmpty(CloseFrom(ws, 0, None, reason).0, j, 0, j + 1);
  }

  /** Between operations every layer of any plan is accounted for: its accumulated time is its
      prebuffer's, below its cadence, a multiple of the layer below. */
  lemma {:induction false} RunAccounted(layers: seq<Duration>, ops: seq<Op>)
    requires Positive(layers) && NonEmpty(ops)
    ensures AllAccounted(Run(layers, ops).ws, layers)
  {
    if ops != [] {
      var init, op := ops[..|ops| - 1], ops[|ops| - 1];
      RunAccounted(layers, init);
      var ws := Run(layers, init).ws;
      match op
      case IngestOp(s) => IngestAccounts(ws, 0, s, layers);
      case CloseOp(reason) => CloseAccounts(ws, 0, None, reason, layers);
    }
  }

  /** At every layer the sealed windows followed by the prebuffers open at that layer and
      below hold consecutive blocks of everything ingested, in every run, as long as the layers
      up to it divide each other. */
  lemma {:induction false} RunPartition(layers: seq<Duration>, ops: seq<Op>, j: nat, sig: Signature)
    requires DividingTo(layers, j) && Legal(ops, sig) && j < |layers|
    ensures var p := Run(layers, ops); Tiles(p.logs[j] + Open(p.ws, j, 0), p.history, sig)
  {
    if ops == [] {
      OpenSkipsEmpty(FreshPath(layers), j, 0, j + 1);
    } else {
      var init, op := ops[..|ops| - 1], ops[|ops| - 1];
      var p := Run(layers, init);
      RunPartition(layers, init, j, sig);
      match op
      case IngestOp(s) => IngestPartition(p, s, j, sig);
      case CloseOp(reason) =>
        RunAccounted(layers, init);
        ClosePartition(p, reason, j, layers, sig);
        CloseLeavesNothing(p.ws, reason, layers, j);
        AppendNone(Step(p, op).logs[j]);
    }
  }

  /** A close at the end leaves nothing open: each layer's sealed windows alone hold it all. */
  lemma {:induction false} RunClosedPartition(layers: seq<Duration>, ops: seq<Op>, reason: CloseReason, j: nat, sig: Signature)
    requires DividingTo(layers, j) && Legal(ops, sig) && j < |layers|
    ensures var p := Run(layers, ops + [CloseOp(reason)]);
      Open(p.ws, j, 0) == [] && Tiles(p.logs[j], p.history, sig)
  {
    var p := Run(layers, ops);
    assert (ops + [CloseOp(reason)])[..|ops|] == ops;
    RunAccounted(layers, ops);
    RunPartition(layers, ops, j, sig);
    ClosePartition(p, reason, j, layers, sig);
    CloseLeavesNothing(p.ws, reason, layers, j);
  }
}
