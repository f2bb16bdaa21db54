/** Samples are conserved by the cascade, layer by layer. */
module Conservation {
  import opened Wrappers
  import opened Snapshot
  import opened Cascade
  import opened CascadeKeeps
  import opened Runs
  import opened Series

  /** At every moment of every run, what a layer has sealed and what is still open at it
      and below hold each ingested sample of each series exactly once. */
  lemma {:induction false} RunConserves(layers: seq<Duration>, ops: seq<Op>, j: nat, sig: Signature, id: Id)
    requires DividingTo(layers, j) && Legal(ops, sig) && j < |layers|
    ensures var p := Run(layers, ops);
      TotalSamples(p.logs[j], id) + TotalSamples(Open(p.ws, j, 0), id) == TotalSamples(p.history, id)
  {
    var p := Run(layers, ops);
    RunPartition(layers, ops, j, sig);
    TilesConserveSamples(p.logs[j] + Open(p.ws, j, 0), p.history, sig, id);
    TotalSamplesConcat(p.logs[j], Open(p.ws, j, 0), id);
  }

  /** Once a path is closed, every layer's sealed windows alone total what was ingested. */
  lemma {:induction false} ClosedRunConserves(layers: seq<Duration>, ops: seq<Op>, reason: CloseReason, j: nat, sig: Signature, id: Id)
    requires DividingTo(layers, j) && Legal(ops, sig) && j < |layers|
    ensures var p := Run(layers, ops + [CloseOp(reason)]);
      TotalSamples(p.logs[j], id) == TotalSamples(p.history, id)
  {
    RunClosedPartition(layers, ops, reason, j, sig);
    var p := Run(layers, ops + [CloseOp(reason)]);
    TilesConserveSamples(p.logs[j], p.history, sig, id);
  }
}
