/** What the owner publishes and every reader reads: a view of each window there is, under its
    path and layer, and the labels of each path. */
module ReaderStates {
  import opened Wrappers
  import opened Labels
  import opened Snapshot

  type Key = (string, nat)

  datatype WindowView = WindowView(latest: Option<MetricSet>, prebuffer: Option<MetricSet>, ring: seq<MetricSet>)

  datatype ReaderState = ReaderState(labels: map<string, Labels>, windows: map<Key, WindowView>)

  /** What a reader finds of a layer; of one not published, nothing. */
  function ViewAt(r: ReaderState, path: string, layer: nat): WindowView {
    if (path, layer) in r.windows then r.windows[(path, layer)] else WindowView(None, None, [])
  }
}
