/** `SchedulerBuilder::build`: reporters are grouped by interval, those at a cadence layer
    hang on a chain of nodes, the rest are flat children of the root. Whatever the
    arrangement, every reporter receives what its own interval promises. */
module ScheduleBuild {
  import opened Wrappers
  import opened Multiples
  import opened Keyed
  import opened Snapshot
  import opened CadenceTree
  import opened ScheduleTree

  /** Reporters under each interval, intervals ascending. */
  type Groups = seq<Entry<Duration, seq<Recorder>>>

  ghost predicate Ascending(g: Groups) {
    forall i, j :: 0 <= i < j < |g| ==> g[i].key < g[j].key
  }

  function Push(g: Groups, interval: Duration, r: Recorder): Groups {
    if g == [] || interval < g[0].key then [Entry(interval, [r])] + g
    else if interval == g[0].key then [Entry(interval, g[0].val + [r])] + g[1..]
    else [g[0]] + Push(g[1..], interval, r)
  }

  function At(g: Groups, interval: Duration): seq<Recorder> {
    if g == [] then []
    else if g[0].key == interval then g[0].val
    else At(g[1..], interval)
  }

  function Without(g: Groups, interval: Duration): (r: Groups)
    ensures forall e :: e in r <==> e in g && e.key != interval
  {
    if g == [] then []
    else if g[0].key == interval then Without(g[1..], interval)
    else [g[0]] + Without(g[1..], interval)
  }

  function Grouped(reporters: seq<(Duration, Recorder)>): Groups {
    if reporters == [] then []
    else
      var (interval, r) := reporters[|reporters| - 1];
      Push(Grouped(reporters[..|reporters| - 1]), interval, r)
  }

  // ---------------------------------------------------------------------
  // What is promised and what is heard
  // ---------------------------------------------------------------------

  /** What a reporter at this interval must be given for a stream of base ticks. */
  function Due(interval: Duration, base: Duration, ticks: seq<MetricSet>): seq<MetricSet> {
    if interval == base then ticks else Emitted(interval, ticks)
  }

  function Promised(reporters: seq<(Duration, Recorder)>, base: Duration, ticks: seq<MetricSet>): multiset<Recorder> {
    if reporters == [] then multiset{}
    else
      var (interval, r) := reporters[|reporters| - 1];
      Promised(reporters[..|reporters| - 1], base, ticks) +
      multiset{r.(received := r.received + Due(interval, base, ticks))}
  }

  function Expected(g: Groups, base: Duration, ticks: seq<MetricSet>): multiset<Recorder> {
    if g == [] then multiset{}
    else multiset(Reported(g[0].val, Due(g[0].key, base, ticks))) + Expected(g[1..], base, ticks)
  }

  /** Every reporter in a tree with all it has been given. */
  function Heard(n: Node): multiset<Recorder> {
    multiset(n.reporters) + HeardAll(n.children)
  }

  function HeardAll(ns: seq<Node>): multiset<Recorder> {
    if ns == [] then multiset{} else Heard(ns[0]) + HeardAll(ns[1..])
  }

  /** The delivery worker hands a tick to the root's reporters and its children; the root
      itself gathers nothing. */
  function Tick(root: Node, s: MetricSet): Node {
    root.(reporters := Reported(root.reporters, [s]),
          children := seq(|root.children|, i requires 0 <= i < |root.children| => Ingest(root.children[i], s)))
  }

  function Ticked(root: Node, ticks: seq<MetricSet>): Node {
    if ticks == [] then root else Tick(Ticked(root, ticks[..|ticks| - 1]), ticks[|ticks| - 1])
  }

  lemma {:induction false} TickedFeeds(root: Node, ticks: seq<MetricSet>)
    ensures Ticked(root, ticks) ==
            root.(reporters := Reported(root.reporters, ticks), children := FeedAll(root.children, ticks))
  {
    if ticks == [] {
      NothingFed(root);
    } else {
      var init, s := ticks[..|ticks| - 1], ticks[|ticks| - 1];
      TickedFeeds(root, init);
      ReportedSnoc(root.reporters, init, s);
      FeedAllSnoc(root.children, init, s);
      assert init + [s] == ticks;
    }
  }

  // ---------------------------------------------------------------------
  // Grouping
  // ---------------------------------------------------------------------

  lemma {:induction false} ReportedAppend(reporters: seq<Recorder>, r: Recorder, windows: seq<MetricSet>)
    ensures multiset(Reported(reporters + [r], windows)) ==
            multiset(Reported(reporters, windows)) + multiset{r.(received := r.received + windows)}
  {
    assert Reported(reporters + [r], windows) == Reported(reporters, windows) + [r.(received := r.received + windows)];
  }

  lemma {:induction false} PushExpected(g: Groups, interval: Duration, r: Recorder, base: Duration, ticks: seq<MetricSet>)
    ensures Expected(Push(g, interval, r), base, ticks) ==
            Expected(g, base, ticks) + multiset{r.(received := r.received + Due(interval, base, ticks))}
  {
    var due := Due(interval, base, ticks);
    var e := Entry(interval, [r]);
    if g == [] || interval < g[0].key {
      assert ([e] + g)[1..] == g;
      assert [] + [r] == [r];
      ReportedAppend([], r, due);
    } else if interval == g[0].key {
      ReportedAppend(g[0].val, r, due);
      assert ([Entry(interval, g[0].val + [r])] + g[1..])[1..] == g[1..];
    } else {
      PushExpected(g[1..], interval, r, base, ticks);
      assert ([g[0]] + Push(g[1..], interval, r))[1..] == Push(g[1..], interval, r);
    }
  }

  lemma {:induction false} PushKeys(g: Groups, interval: Duration, r: Recorder)
    ensures forall k :: k in Keys(Push(g, interval, r)) <==> k == interval || k in Keys(g)
  {
    if g == [] || interval < g[0].key {
      KeysCons(Entry(interval, [r]), g);
    } else {
      KeysCons(g[0], g[1..]);
      assert [g[0]] + g[1..] == g;
      if interval == g[0].key {
        KeysCons(Entry(interval, g[0].val + [r]), g[1..]);
      } else {
        PushKeys(g[1..], interval, r);
        KeysCons(g[0], Push(g[1..], interval, r));
      }
    }
  }

  lemma {:induction false} AscendingCons(e: Entry<Duration, seq<Recorder>>, g: Groups)
    requires Ascending(g) && forall k :: k in Keys(g) ==> e.key < k
    ensures Ascending([e] + g)
  {
    forall j | 0 <= j < |g|
      ensures e.key < g[j].key
    {
      assert Keys(g)[j] == g[j].key && g[j].key in Keys(g);
    }
  }

  lemma {:induction false} HeadLeast(g: Groups, k: Duration)
    requires Ascending(g) && g != [] && k in Keys(g[1..])
    ensures g[0].key < k
  {
    var i :| 0 <= i < |g[1..]| && Keys(g[1..])[i] == k;
    assert g[1..][i] == g[i + 1];
  }

  lemma {:induction false} PushAscending(g: Groups, interval: Duration, r: Recorder)
    requires Ascending(g)
    ensures Ascending(Push(g, interval, r))
  {
    if g != [] && g[0].key < interval {
      PushAscending(g[1..], interval, r);
      PushKeys(g[1..], interval, r);
      var p := Push(g[1..], interval, r);
      forall k | k in Keys(p)
        ensures g[0].key < k
      {
        if k != interval {
          HeadLeast(g, k);
        }
      }
      AscendingCons(g[0], p);
    }
  }

  lemma {:induction false} KeysCons(e: Entry<Duration, seq<Recorder>>, g: Groups)
    ensures Keys([e] + g) == [e.key] + Keys(g)
  {
  }

  lemma {:induction false} GroupedExpected(reporters: seq<(Duration, Recorder)>, base: Duration, ticks: seq<MetricSet>)
    ensures Expected(Grouped(reporters), base, ticks) == Promised(reporters, base, ticks)
  {
    if reporters != [] {
      var (interval, r) := reporters[|reporters| - 1];
      GroupedExpected(reporters[..|reporters| - 1], base, ticks);
      PushExpected(Grouped(reporters[..|reporters| - 1]), interval, r, base, ticks);
    }
  }

  lemma {:induction false} GroupedAscending(reporters: seq<(Duration, Recorder)>)
    ensures Ascending(Grouped(reporters))
  {
    if reporters != [] {
      var init := reporters[..|reporters| - 1];
      var (interval, r) := reporters[|reporters| - 1];
      GroupedAscending(init);
      PushAscending(Grouped(init), interval, r);
    }
  }

  ghost predicate Registered(reporters: seq<(Duration, Recorder)>, interval: Duration) {
    exists i :: 0 <= i < |reporters| && reporters[i].0 == interval
  }

  lemma {:induction false} GroupedRegistered(reporters: seq<(Duration, Recorder)>, k: Duration)
    ensures k in Keys(Grouped(reporters)) <==> Registered(reporters, k)
  {
    if reporters != [] {
      var init := reporters[..|reporters| - 1];
      var (interval, r) := reporters[|reporters| - 1];
      GroupedRegistered(init, k);
      PushKeys(Grouped(init), interval, r);
      if k == interval {
        assert reporters[|reporters| - 1].0 == k;
      } else if i :| 0 <= i < |init| && init[i].0 == k {
        assert reporters[i].0 == k;
      }
    }
  }

  lemma {:induction false} WithoutAscending(g: Groups, interval: Duration)
    requires Ascending(g)
    ensures Ascending(Without(g, interval))
  {
    if g != [] {
      WithoutAscending(g[1..], interval);
      var rest := Without(g[1..], interval);
      forall k | k in Keys(rest)
        ensures g[0].key < k
      {
        var i :| 0 <= i < |rest| && rest[i].key == k;
        assert rest[i] in g[1..];
      }
      AscendingCons(g[0], rest);
    }
  }

  lemma {:induction false} TakeGroup(g: Groups, interval: Duration, base: Duration, ticks: seq<MetricSet>)
    requires Ascending(g)
    ensures Expected(g, base, ticks) ==
            multiset(Reported(At(g, interval), Due(interval, base, ticks))) + Expected(Without(g, interval), base, ticks)
  {
    if g != [] {
      TakeGroup(g[1..], interval, base, ticks);
      if g[0].key == interval {
        NoneLeft(g[1..], interval);
      } else {
        var rest := Without(g[1..], interval);
        assert ([g[0]] + rest)[1..] == rest;
      }
    }
  }

  lemma {:induction false} NoneLeft(g: Groups, interval: Duration)
    requires forall e :: e in g ==> e.key != interval
    ensures At(g, interval) == [] && Without(g, interval) == g
  {
    if g != [] {
      assert g[0] in g;
      NoneLeft(g[1..], interval);
    }
  }

  // ---------------------------------------------------------------------
  // The chain
  // ---------------------------------------------------------------------

  function Opt(n: Option<Node>): seq<Node> {
    if n.None? then [] else [n.value]
  }

  /** One layer on top of the chain built so far, with the reporters it claims. */
  function ChainLink(layer: Layer, base: Duration, chain: Option<Node>, g: Groups): (Option<Node>, Groups) {
    if layer.interval == base then (chain, g)
    else (Some(Node(layer.interval, [], 0, if layer.hidden then [] else At(g, layer.interval), Opt(chain))),
          if layer.hidden then g else Without(g, layer.interval))
  }

  /** The chain over the layers from `i` up, built largest first, and the reporters left over. */
  function ChainFrom(layers: seq<Layer>, i: nat, base: Duration, g: Groups): (Option<Node>, Groups)
    decreases |layers| - i
  {
    if i >= |layers| then (None, g)
    else
      var (chain, rest) := ChainFrom(layers, i + 1, base, g);
      ChainLink(layers[i], base, chain, rest)
  }

  /** The base divides every layer and every layer the next. */
  ghost predicate Chained(layers: seq<Layer>, base: Duration) {
    base > 0 &&
    (forall i :: 0 <= i < |layers| ==> layers[i].interval > 0 && layers[i].interval % base == 0) &&
    (forall i :: 0 < i < |layers| ==> layers[i].interval % layers[i - 1].interval == 0)
  }

  lemma {:induction false} ChainedUp(layers: seq<Layer>, base: Duration, i: nat, j: nat)
    requires Chained(layers, base) && i <= j < |layers|
    ensures layers[j].interval % layers[i].interval == 0
    decreases j - i
  {
    if i < j {
      ChainedUp(layers, base, i, j - 1);
      MultipleTransitive(layers[i].interval, layers[j - 1].interval, layers[j].interval);
    } else {
      DivisionUnique(layers[i].interval, 1, 0, layers[i].interval);
    }
  }

  /** From layer `i` up, the stream rolls up to what the base ticks roll up to. */
  ghost predicate RollsAlike(layers: seq<Layer>, i: nat, base: Duration, stream: seq<MetricSet>, ticks: seq<MetricSet>) {
    forall j :: i <= j < |layers| && layers[j].interval != base ==>
      Emitted(layers[j].interval, stream) == Emitted(layers[j].interval, ticks)
  }

  lemma {:induction false} NextRollsAlike(layers: seq<Layer>, i: nat, base: Duration, stream: seq<MetricSet>, ticks: seq<MetricSet>,
                       sig: Signature)
    requires Chained(layers, base) && i < |layers| && layers[i].interval != base && Every(ticks, base, sig)
    requires RollsAlike(layers, i, base, stream, ticks)
    ensures RollsAlike(layers, i + 1, base, Emitted(layers[i].interval, stream), ticks)
  {
    forall j | i + 1 <= j < |layers| && layers[j].interval != base
      ensures Emitted(layers[j].interval, Emitted(layers[i].interval, stream)) == Emitted(layers[j].interval, ticks)
    {
      ChainedUp(layers, base, i, j);
      EmittedTwice(ticks, base, layers[i].interval, layers[j].interval, sig);
    }
  }

  lemma {:induction false} HeardOne(n: Node, stream: seq<MetricSet>)
    requires n.accumulated == [] && n.duration == 0
    ensures HeardAll(FeedAll([n], stream)) ==
            multiset(Reported(n.reporters, Emitted(n.interval, stream))) +
            HeardAll(FeedAll(n.children, Emitted(n.interval, stream)))
  {
    FeedRolls(n, stream);
    var fed := FeedAll([n], stream);
    assert fed == [Feed(n, stream)] && fed[1..] == [];
  }

  /** A link's reporters take from those still owed, and pass what they hear to the rest. */
  lemma {:induction false} LinkDelivers(layer: Layer, base: Duration, chain: Option<Node>, rest: Groups,
                     stream: seq<MetricSet>, ticks: seq<MetricSet>)
    requires Ascending(rest) && layer.interval != base
    requires Emitted(layer.interval, stream) == Emitted(layer.interval, ticks)
    ensures var (chain', rest') := ChainLink(layer, base, chain, rest);
      Ascending(rest') &&
      HeardAll(FeedAll(Opt(chain'), stream)) + Expected(rest', base, ticks) ==
      HeardAll(FeedAll(Opt(chain), Emitted(layer.interval, stream))) + Expected(rest, base, ticks)
  {
    HeardOne(ChainLink(layer, base, chain, rest).0.value, stream);
    if layer.hidden {
      assert Reported([], Emitted(layer.interval, stream)) == [];
    } else {
      TakeGroup(rest, layer.interval, base, ticks);
      WithoutAscending(rest, layer.interval);
    }
  }

  /** The chain's reporters hear what they are due; the others are still owed theirs. */
  lemma {:induction false} ChainDelivers(layers: seq<Layer>, i: nat, base: Duration, g: Groups,
                                       stream: seq<MetricSet>, ticks: seq<MetricSet>, sig: Signature)
    requires Chained(layers, base) && i <= |layers| && Ascending(g) && Every(ticks, base, sig)
    requires RollsAlike(layers, i, base, stream, ticks)
    ensures var (chain, rest) := ChainFrom(layers, i, base, g);
      Ascending(rest) &&
      HeardAll(FeedAll(Opt(chain), stream)) + Expected(rest, base, ticks) == Expected(g, base, ticks)
    decreases |layers| - i
  {
    if i == |layers| {
      assert FeedAll([], stream) == [];
    } else if layers[i].interval == base {
      ChainDelivers(layers, i + 1, base, g, stream, ticks, sig);
    } else {
      var inner := Emitted(layers[i].interval, stream);
      NextRollsAlike(layers, i, base, stream, ticks, sig);
      ChainDelivers(layers, i + 1, base, g, inner, ticks, sig);
      var (chain, rest) := ChainFrom(layers, i + 1, base, g);
      LinkDelivers(layers[i], base, chain, rest, stream, ticks);
    }
  }

  // ---------------------------------------------------------------------
  // The flat children
  // ---------------------------------------------------------------------

  function Flat(g: Groups): (ns: seq<Node>)
    ensures |ns| == |g|
  {
    seq(|g|, i requires 0 <= i < |g| => Node(g[i].key, [], 0, g[i].val, []))
  }

  lemma {:induction false} HeardCons(n: Node, ns: seq<Node>, stream: seq<MetricSet>)
    ensures HeardAll(FeedAll([n] + ns, stream)) == HeardAll(FeedAll([n], stream)) + HeardAll(FeedAll(ns, stream))
  {
    var fed := FeedAll([n] + ns, stream);
    assert fed[1..] == FeedAll(ns, stream);
    assert FeedAll([n], stream)[1..] == [];
  }

  lemma {:induction false} HeardOnTop(chain: Option<Node>, ns: seq<Node>, stream: seq<MetricSet>)
    ensures HeardAll(FeedAll(Opt(chain) + ns, stream)) ==
            HeardAll(FeedAll(Opt(chain), stream)) + HeardAll(FeedAll(ns, stream))
  {
    if chain.Some? {
      HeardCons(chain.value, ns, stream);
    } else {
      assert Opt(chain) + ns == ns;
      assert FeedAll([], stream) == [];
    }
  }

  lemma {:induction false} FlatDelivers(g: Groups, base: Duration, ticks: seq<MetricSet>)
    requires forall e :: e in g ==> e.key != base
    ensures HeardAll(FeedAll(Flat(g), ticks)) == Expected(g, base, ticks)
  {
    if g != [] {
      var n := Flat(g)[0];
      assert g[0] in g;
      FlatDelivers(g[1..], base, ticks);
      assert Flat(g) == [n] + Flat(g[1..]);
      HeardCons(n, Flat(g[1..]), ticks);
      HeardOne(n, ticks);
      assert FeedAll([], Emitted(n.interval, ticks)) == [];
    }
  }

  // ---------------------------------------------------------------------
  // The whole tree
  // ---------------------------------------------------------------------

  function LayersOf(tree: Option<seq<Layer>>): seq<Layer> {
    if tree.None? then [] else tree.value
  }

  function Built(base: Duration, reporters: seq<(Duration, Recorder)>, tree: Option<seq<Layer>>): Node {
    var g := Grouped(reporters);
    var layers := LayersOf(tree);
    var (chain, rest) := ChainFrom(layers, 0, base, Without(g, base));
    Node(base, [], 0, At(g, base), Opt(chain) + Flat(rest))
  }

  lemma {:induction false} ChainLeaves(layers: seq<Layer>, i: nat, base: Duration, g: Groups)
    ensures forall e :: e in ChainFrom(layers, i, base, g).1 ==> e in g
    decreases |layers| - i
  {
    if i < |layers| {
      ChainLeaves(layers, i + 1, base, g);
    }
  }

  /** Every reporter is given exactly what its interval promises, once each. */
  lemma {:induction false} BuiltDelivers(base: Duration, reporters: seq<(Duration, Recorder)>, tree: Option<seq<Layer>>,
                      ticks: seq<MetricSet>, sig: Signature)
    requires base > 0 && (tree.Some? ==> Chained(tree.value, base)) && Every(ticks, base, sig)
    ensures Heard(Ticked(Built(base, reporters, tree), ticks)) == Promised(reporters, base, ticks)
  {
    var g := Grouped(reporters);
    var layers := LayersOf(tree);
    var (chain, rest) := ChainFrom(layers, 0, base, Without(g, base));
    GroupedAscending(reporters);
    GroupedExpected(reporters, base, ticks);
    TakeGroup(g, base, base, ticks);
    WithoutAscending(g, base);
    ChainDelivers(layers, 0, base, Without(g, base), ticks, ticks, sig);
    ChainLeaves(layers, 0, base, Without(g, base));
    FlatDelivers(rest, base, ticks);
    TickedFeeds(Built(base, reporters, tree), ticks);
    HeardOnTop(chain, Flat(rest), ticks);
  }

  /** A chained schedule cannot be told from a flat one by what any reporter receives. */
  lemma {:induction false} ChainedLikeFlat(base: Duration, reporters: seq<(Duration, Recorder)>, layers: seq<Layer>,
                        ticks: seq<MetricSet>, sig: Signature)
    requires Chained(layers, base) && Every(ticks, base, sig)
    ensures Heard(Ticked(Built(base, reporters, Some(layers)), ticks)) ==
            Heard(Ticked(Built(base, reporters, None), ticks))
  {
    BuiltDelivers(base, reporters, Some(layers), ticks, sig);
    BuiltDelivers(base, reporters, None, ticks, sig);
  }

  // ---------------------------------------------------------------------
  // The builder
  // ---------------------------------------------------------------------

  const MILLISECOND: Duration := 1_000_000

  /** The builder's assertion: whole milliseconds of the one divide the other's. */
  predicate Aligned(interval: Duration, base: Duration) {
    base / MILLISECOND > 0 && (interval / MILLISECOND) % (base / MILLISECOND) == 0
  }

  lemma {:induction false} ChainKeepsOthers(layers: seq<Layer>, i: nat, base: Duration, g: Groups, e: Entry<Duration, seq<Recorder>>)
    requires e in g && forall j :: i <= j < |layers| ==> layers[j].interval != e.key
    ensures e in ChainFrom(layers, i, base, g).1
    decreases |layers| - i
  {
    if i < |layers| {
      ChainKeepsOthers(layers, i + 1, base, g, e);
    }
  }

  /** Reporters keyed by interval, in registration order under each. */
  method GroupByInterval(reporters: seq<(Duration, Recorder)>) returns (g: Groups)
    ensures g == Grouped(reporters)
  {
    g := [];
    for i := 0 to |reporters|
      invariant g == Grouped(reporters[..i])
    {
      assert reporters[..i + 1][..i] == reporters[..i];
      g := Push(g, reporters[i].0, reporters[i].1);
    }
    assert reporters[..|reporters|] == reporters;
  }

  /** The chain, from the largest layer down, and the reporters it leaves. */
  method BuildChain(layers: seq<Layer>, base: Duration, groups: Groups)
    returns (built: Option<(Option<Node>, Groups)>)
    ensures built.Some? <==>
              forall i :: 0 <= i < |layers| ==> layers[i].interval == base || Aligned(layers[i].interval, base)
    ensures built.Some? ==> built.value == ChainFrom(layers, 0, base, groups)
  {
    var chain: Option<Node>, g := None, groups;
    for i := |layers| downto 0
      invariant (chain, g) == ChainFrom(layers, i, base, groups)
      invariant forall j :: i <= j < |layers| ==> layers[j].interval == base || Aligned(layers[j].interval, base)
    {
      var layer := layers[i];
      if layer.interval != base {
        if !Aligned(layer.interval, base) {
          return None;
        }
        var held: seq<Recorder> := [];
        if !layer.hidden {
          held := At(g, layer.interval);
          g := Without(g, layer.interval);
        }
        chain := Some(Node(layer.interval, [], 0, held, Opt(chain)));
      }
    }
    built := Some((chain, g));
  }

  /** Flat children for the reporters no layer claimed. */
  method FlatChildren(g: Groups, base: Duration) returns (ns: Option<seq<Node>>)
    ensures ns.Some? <==> forall e :: e in g ==> Aligned(e.key, base)
    ensures ns.Some? ==> ns.value == Flat(g)
  {
    var children: seq<Node> := [];
    for i := 0 to |g|
      invariant |children| == i && forall j :: 0 <= j < i ==> children[j] == Flat(g)[j]
      invariant forall j :: 0 <= j < i ==> Aligned(g[j].key, base)
    {
      if !Aligned(g[i].key, base) {
        assert g[i] in g;
        return None;
      }
      children := children + [Node(g[i].key, [], 0, g[i].val, [])];
    }
    assert children == Flat(g);
    ns := Some(children);
  }

  /** `SchedulerBuilder::build`; none is its panic on an interval the base does not fit. */
  method Build(base: Duration, reporters: seq<(Duration, Recorder)>, tree: Option<seq<Layer>>)
    returns (root: Option<Node>)
    ensures root.None? <==>
              (exists i :: 0 <= i < |LayersOf(tree)| && LayersOf(tree)[i].interval != base
                           && !Aligned(LayersOf(tree)[i].interval, base)) ||
              (exists i :: 0 <= i < |reporters| && reporters[i].0 != base && !Aligned(reporters[i].0, base))
    ensures root.Some? ==> root.value == Built(base, reporters, tree)
  {
    var g := GroupByInterval(reporters);
    var onRoot := At(g, base);
    g := Without(g, base);
    var built := BuildChain(LayersOf(tree), base, g);
    if built.None? {
      return None;
    }
    var (chain, rest) := built.value;
    LeftAligned(reporters, LayersOf(tree), base);
    var flat := FlatChildren(rest, base);
    if flat.None? {
      return None;
    }
    root := Some(Node(base, [], 0, onRoot, Opt(chain) + flat.value));
  }

  /** Every interval left over is some reporter's. */
  lemma {:induction false} LeftoverRegistered(reporters: seq<(Duration, Recorder)>, layers: seq<Layer>, base: Duration,
                           e: Entry<Duration, seq<Recorder>>)
    requires e in ChainFrom(layers, 0, base, Without(Grouped(reporters), base)).1
    ensures Registered(reporters, e.key) && e.key != base
  {
    var g := Grouped(reporters);
    ChainLeaves(layers, 0, base, Without(g, base));
    GroupedRegistered(reporters, e.key);
    KeyOf(g, e);
  }

  lemma {:induction false} KeyOf(g: Groups, e: Entry<Duration, seq<Recorder>>)
    requires e in g
    ensures e.key in Keys(g)
  {
    var m :| 0 <= m < |g| && g[m] == e;
    assert Keys(g)[m] == e.key;
  }

  /** A reporter whose interval is neither the base nor any layer's is left over. */
  lemma {:induction false} UnclaimedLeft(reporters: seq<(Duration, Recorder)>, layers: seq<Layer>, base: Duration, i: nat)
    returns (e: Entry<Duration, seq<Recorder>>)
    requires i < |reporters| && reporters[i].0 != base
    requires forall j :: 0 <= j < |layers| ==> layers[j].interval != reporters[i].0
    ensures e in ChainFrom(layers, 0, base, Without(Grouped(reporters), base)).1 && e.key == reporters[i].0
  {
    var g := Grouped(reporters);
    var k := reporters[i].0;
    GroupedRegistered(reporters, k);
    var m :| 0 <= m < |g| && Keys(g)[m] == k;
    e := g[m];
    ChainKeepsOthers(layers, 0, base, Without(g, base), e);
  }

  /** A reporter interval that does not fit is left over by every chain that does. */
  lemma {:induction false} LeftAligned(reporters: seq<(Duration, Recorder)>, layers: seq<Layer>, base: Duration)
    requires forall j :: 0 <= j < |layers| ==> layers[j].interval == base || Aligned(layers[j].interval, base)
    ensures var rest := ChainFrom(layers, 0, base, Without(Grouped(reporters), base)).1;
      (exists i :: 0 <= i < |reporters| && reporters[i].0 != base && !Aligned(reporters[i].0, base)) <==>
      (exists e :: e in rest && !Aligned(e.key, base))
  {
    var rest := ChainFrom(layers, 0, base, Without(Grouped(reporters), base)).1;
    if i :| 0 <= i < |reporters| && reporters[i].0 != base && !Aligned(reporters[i].0, base) {
      var e := UnclaimedLeft(reporters, layers, base, i);
    } else if e :| e in rest && !Aligned(e.key, base) {
      LeftoverRegistered(reporters, layers, base, e);
      assert false;
    }
  }
}
