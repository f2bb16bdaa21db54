/** The owner task at work on its window store: one batch of commands applied in place,
    then published, then acked. */
module OwnerTask {
  import opened Wrappers
  import opened Labels
  import opened Snapshot
  import opened Windows
  import opened Cascade
  import opened WindowStore
  import opened Owner
  import opened OwnerRuns
  import opened ReaderStates

  ghost predicate ShowsWindow(v: WindowView, w: Window) {
    v.latest == w.latest && v.prebuffer == w.prebuffer && v.ring == w.ring
  }

  /** A published state shows each window a path has; a layer not shown has nothing yet. */
  ghost predicate Shows(r: ReaderState, st: State, layers: seq<Duration>) {
    r.labels == st.labels &&
    (forall key :: key in r.windows ==>
       key.0 in st.paths && key.1 < |st.paths[key.0]| && ShowsWindow(r.windows[key], st.paths[key.0][key.1])) &&
    (forall p, k :: p in st.paths && 0 <= k < |layers| && (p, k) !in r.windows ==>
       k < |st.paths[p]| && st.paths[p][k] == Fresh(layers[k]))
  }

  /** A reader of a published state finds at every layer of every path exactly what the state has
      there. */
  lemma {:induction false} ShownAt(r: ReaderState, st: State, layers: seq<Duration>, path: string, k: nat)
    requires Shows(r, st, layers) && path in st.paths && k < |layers|
    ensures k < |st.paths[path]|
    ensures ViewAt(r, path, k).latest == st.paths[path][k].latest
    ensures ViewAt(r, path, k).prebuffer == st.paths[path][k].prebuffer
    ensures ViewAt(r, path, k).ring == st.paths[path][k].ring
  {
    var key := (path, k);
    if key in r.windows {
      assert ShowsWindow(r.windows[key], st.paths[key.0][key.1]);
    } else {
      assert st.paths[path][k] == Fresh(layers[k]);
    }
  }

  ghost predicate CmdsFit(cmds: seq<Cmd>, sig: Signature) {
    forall i :: 0 <= i < |cmds| && cmds[i].IngestCmd? ==> Fits(cmds[i].snapshot, sig)
  }

  ghost predicate AgreeElsewhere(st: State, st': State, path: string) {
    forall p :: p != path ==>
      (p in st.paths <==> p in st'.paths) && (p in st.paths ==> st'.paths[p] == st.paths[p])
  }

  lemma {:induction false} IngestElsewhere(st: State, layers: seq<Duration>, path: string, s: MetricSet)
    ensures AgreeElsewhere(st, Cascaded(st, layers, path, s), path)
  {
  }

  lemma {:induction false} CloseElsewhere(st: State, path: string, reason: CloseReason)
    ensures AgreeElsewhere(st, ClosePathOn(st, path, reason), path)
  {
  }

  lemma {:induction false} ClosedOnPathOf(st: State, layers: seq<Duration>, path: string, reason: CloseReason)
    ensures ClosedOn(st, path, reason) == CloseFrom(PathOf(st, layers, path), 0, None, reason).1
  {
    if path !in st.paths {
      NothingToClose(FreshPath(layers), 0, reason);
    }
  }

  /** What a command offers the subscribers: the windows it seals, smallest cadence first
      along each path. */
  ghost predicate Seals(c: Cmd, st: State, layers: seq<Duration>, closed: seq<Closed>) {
    match c
    case IngestCmd(path, _, s, _) => closed == IngestFrom(PathOf(st, layers, path), 0, s).1
    case ClosePath(path, reason, _) => closed == ClosedOn(st, path, reason)
    case FlushAll(reason) => exists order :: Enumerates(order, st.paths.Keys) && closed == ClosedEach(st, order, reason)
    case Barrier => closed == []
  }

  /** What each command of a batch offers, in the state the ones before it left. */
  ghost predicate AllSeal(st: State, layers: seq<Duration>, batch: seq<Cmd>, offered: seq<seq<Closed>>) {
    |offered| == |batch| &&
    (batch == [] ||
     var n := |batch| - 1;
     AllSeal(st, layers, batch[..n], offered[..n]) &&
     Seals(batch[n], FoldFrom(st, layers, batch[..n]), layers, offered[n]))
  }

  lemma {:induction false} BatchGrows(st: State, layers: seq<Duration>, batch: seq<Cmd>, i: nat, offered: seq<seq<Closed>>,
                   closed: seq<Closed>)
    requires i < |batch| && AllSeal(st, layers, batch[..i], offered)
    requires Seals(batch[i], FoldFrom(st, layers, batch[..i]), layers, closed)
    ensures AllSeal(st, layers, batch[..i + 1], offered + [closed])
    ensures FoldFrom(st, layers, batch[..i + 1]) == Apply(FoldFrom(st, layers, batch[..i]), layers, batch[i])
  {
    assert batch[..i + 1][..i] == batch[..i];
    assert (offered + [closed])[..i] == offered;
  }

  class OwnerTask {
    const store: WindowStore
    var labels: map<string, Labels>
    var published: ReaderState

    ghost predicate HoldsPath(path: string, st: State, sig: Signature)
      reads store, store.windows.Values
    {
      if path in st.paths then (path, 0) in store.windows && store.Sound(path, st.paths[path], sig)
      else forall key :: key in store.windows ==> key.0 != path
    }

    /** The heap holds exactly this state. */
    ghost predicate Represents(st: State, sig: Signature)
      reads this`labels, store, store.windows.Values
    {
      store.Valid() && labels == st.labels && forall path :: HoldsPath(path, st, sig)
    }

    constructor (layers: seq<Duration>)
      requires layers != []
      ensures fresh(store) && store.layers == layers && forall sig :: Represents(EMPTY, sig)
      ensures published == ReaderState(map[], map[])
    {
      store := new WindowStore(layers);
      labels := map[];
      published := ReaderState(map[], map[]);
    }

    lemma {:induction false} PathIsSound(path: string, st: State, sig: Signature)
      requires Represents(st, sig)
      ensures store.Sound(path, PathOf(st, store.layers, path), sig)
    {
      assert HoldsPath(path, st, sig);
    }

    /** `component_labels.entry(path).or_insert(labels)`. */
    method NoteLabels(path: string, under: Labels, ghost st: State, ghost sig: Signature)
      requires Represents(st, sig)
      modifies this`labels
      ensures Represents(st.(labels := Noted(st.labels, path, under)), sig)
    {
      if path !in labels {
        labels := labels[path := under];
      }
      ghost var st' := st.(labels := Noted(st.labels, path, under));
      forall p
        ensures HoldsPath(p, st', sig)
      {
        assert HoldsPath(p, st, sig);
      }
    }

    method CascadePath(path: string, s: MetricSet, ghost st: State, ghost sig: Signature)
      returns (closed: seq<Closed>)
      requires Represents(st, sig) && Fits(s, sig)
      modifies store`windows, store.windows.Values
      ensures fresh(store.windows.Values - old(store.windows.Values))
      ensures Represents(Cascaded(st, store.layers, path, s), sig)
      ensures closed == IngestFrom(PathOf(st, store.layers, path), 0, s).1
    {
      ghost var ws := PathOf(st, store.layers, path);
      PathIsSound(path, st, sig);
      closed := store.IngestCascade(path, s, ws, sig);
      ghost var st' := Cascaded(st, store.layers, path, s);
      IngestElsewhere(st, store.layers, path, s);
      forall p
        ensures HoldsPath(p, st', sig)
      {
        assert old(HoldsPath(p, st, sig));
      }
    }

    method ApplyIngest(path: string, under: Labels, s: MetricSet, ghost st: State, ghost sig: Signature)
      returns (closed: seq<Closed>)
      requires Represents(st, sig) && Fits(s, sig)
      modifies this`labels, store`windows, store.windows.Values
      ensures fresh(store.windows.Values - old(store.windows.Values))
      ensures Represents(IngestOn(st, store.layers, path, under, s), sig)
      ensures closed == IngestFrom(PathOf(st, store.layers, path), 0, s).1
    {
      NoteLabels(path, under, st, sig);
      closed := CascadePath(path, s, st.(labels := Noted(st.labels, path, under)), sig);
    }

    method ApplyClose(path: string, reason: CloseReason, ghost st: State, ghost sig: Signature)
      returns (closed: seq<Closed>)
      requires Represents(st, sig)
      modifies store`windows, store.windows.Values
      ensures fresh(store.windows.Values - old(store.windows.Values))
      ensures Represents(ClosePathOn(st, path, reason), sig)
      ensures closed == ClosedOn(st, path, reason)
    {
      ghost var ws := PathOf(st, store.layers, path);
      PathIsSound(path, st, sig);
      closed := store.ClosePathCascade(path, reason, ws, sig);
      assert closed == ClosedOn(st, path, reason) by {
        ClosedOnPathOf(st, store.layers, path, reason);
      }
      ghost var st' := ClosePathOn(st, path, reason);
      CloseElsewhere(st, path, reason);
      forall p
        ensures HoldsPath(p, st', sig)
      {
        assert old(HoldsPath(p, st, sig));
      }
    }

    /** The distinct paths that have windows, in no particular order. */
    method Paths(ghost st: State, ghost sig: Signature) returns (order: seq<string>)
      requires Represents(st, sig)
      ensures Enumerates(order, st.paths.Keys)
    {
      var keys, paths: set<string> := store.windows.Keys, {};
      while keys != {}
        invariant keys <= store.windows.Keys
        invariant forall p :: p in paths ==> p in st.paths
        invariant forall key :: key in store.windows && key !in keys ==> key.0 in paths
        decreases keys
      {
        var key :| key in keys;
        assert HoldsPath(key.0, st, sig);
        paths := paths + {key.0};
        keys := keys - {key};
      }
      forall p | p in st.paths
        ensures p in paths
      {
        assert HoldsPath(p, st, sig);
        assert (p, 0).0 in paths;
      }
      order := [];
      while paths != {}
        invariant forall i, j :: 0 <= i < j < |order| ==> order[i] != order[j]
        invariant forall p :: p in st.paths <==> p in order || p in paths
        invariant forall p :: p in order ==> p !in paths
        decreases paths
      {
        var p :| p in paths;
        order := order + [p];
        paths := paths - {p};
      }
    }

    method ApplyFlush(reason: CloseReason, ghost st: State, ghost sig: Signature)
      returns (closed: seq<Closed>, order: seq<string>)
      requires Represents(st, sig)
      modifies store`windows, store.windows.Values
      ensures fresh(store.windows.Values - old(store.windows.Values))
      ensures Represents(Apply(st, store.layers, FlushAll(reason)), sig)
      ensures Enumerates(order, st.paths.Keys) && closed == ClosedEach(st, order, reason)
    {
      order := Paths(st, sig);
      closed := [];
      for i := 0 to |order|
        invariant fresh(store.windows.Values - old(store.windows.Values))
        invariant Represents(CloseEach(st, order[..i], reason), sig)
        invariant closed == ClosedEach(st, order[..i], reason)
      {
        assert order[..i + 1][..i] == order[..i];
        var more := ApplyClose(order[i], reason, CloseEach(st, order[..i], reason), sig);
        closed := closed + more;
      }
      assert order[..|order|] == order;
      FlushAnyOrder(st, store.layers, order, reason);
    }

    method ApplyCmd(c: Cmd, ghost st: State, ghost sig: Signature) returns (closed: seq<Closed>)
      requires Represents(st, sig) && (c.IngestCmd? ==> Fits(c.snapshot, sig))
      modifies this`labels, store`windows, store.windows.Values
      ensures fresh(store.windows.Values - old(store.windows.Values))
      ensures Represents(Apply(st, store.layers, c), sig)
      ensures Seals(c, st, store.layers, closed)
    {
      match c
      case IngestCmd(path, under, s, _) => closed := ApplyIngest(path, under, s, st, sig);
      case ClosePath(path, reason, _) => closed := ApplyClose(path, reason, st, sig);
      case FlushAll(reason) =>
        var order;
        closed, order := ApplyFlush(reason, st, sig);
      case Barrier => closed := [];
    }

    /** `publish_reader_state`. */
    method Publish(ghost st: State, ghost sig: Signature)
      requires Represents(st, sig)
      modifies this`published
      ensures Shows(published, st, store.layers)
    {
      var keys, views: map<Key, WindowView> := store.windows.Keys, map[];
      while keys != {}
        invariant keys <= store.windows.Keys
        invariant views.Keys == store.windows.Keys - keys
        invariant forall key :: key in views ==> ShowsWindow(views[key], store.windows[key].State())
        decreases keys
      {
        var key :| key in keys;
        var w := store.windows[key];
        views := views[key := WindowView(w.latest, w.prebuffer, w.ring)];
        keys := keys - {key};
      }
      published := ReaderState(labels, views);
      forall key | key in views
        ensures key.0 in st.paths && key.1 < |st.paths[key.0]| && ShowsWindow(views[key], st.paths[key.0][key.1])
      {
        assert HoldsPath(key.0, st, sig);
        assert store.View(key) == st.paths[key.0][key.1];
      }
      forall p, k | p in st.paths && 0 <= k < |store.layers| && (p, k) !in views
        ensures k < |st.paths[p]| && st.paths[p][k] == Fresh(store.layers[k])
      {
        assert HoldsPath(p, st, sig);
        assert store.View((p, k)) == st.paths[p][k];
      }
    }

    /** The inner loop of a turn: apply every command, collecting acks for later. */
    method ApplyBatch(batch: seq<Cmd>, ghost st: State, ghost sig: Signature)
      returns (offered: seq<seq<Closed>>, acks: seq<nat>)
      requires Represents(st, sig) && CmdsFit(batch, sig)
      modifies this`labels, store`windows, store.windows.Values
      ensures fresh(store.windows.Values - old(store.windows.Values))
      ensures Represents(FoldFrom(st, store.layers, batch), sig)
      ensures acks == Asked(batch, |batch|) && AllSeal(st, store.layers, batch, offered)
    {
      acks, offered := [], [];
      for i := 0 to |batch|
        invariant fresh(store.windows.Values - old(store.windows.Values))
        invariant Represents(FoldFrom(st, store.layers, batch[..i]), sig)
        invariant acks == Asked(batch, i) && AllSeal(st, store.layers, batch[..i], offered)
      {
        ghost var before := FoldFrom(st, store.layers, batch[..i]);
        var closed := ApplyCmd(batch[i], before, sig);
        BatchGrows(st, store.layers, batch, i, offered, closed);
        offered := offered + [closed];
        if WantsAck(batch[i]) {
          acks := acks + [i];
        }
      }
      assert batch[..|batch|] == batch;
    }

    /** One turn of the owner loop: apply the batch, publish once, then fire its acks. */
    method RunBatch(batch: seq<Cmd>, ghost st: State, ghost sig: Signature)
      returns (offered: seq<seq<Closed>>, fired: seq<nat>)
      requires Represents(st, sig) && CmdsFit(batch, sig)
      modifies this`labels, this`published, store`windows, store.windows.Values
      ensures fresh(store.windows.Values - old(store.windows.Values))
      ensures Represents(FoldFrom(st, store.layers, batch), sig)
      ensures Shows(published, FoldFrom(st, store.layers, batch), store.layers)
      ensures fired == Asked(batch, |batch|) && AllSeal(st, store.layers, batch, offered)
    {
      var acks;
      offered, acks := ApplyBatch(batch, st, sig);
      Publish(FoldFrom(st, store.layers, batch), sig);
      fired := [];
      while acks != []
        invariant fired + acks == Asked(batch, |batch|)
        decreases |acks|
      {
        assert (fired + [acks[0]]) + acks[1..] == fired + acks;
        fired, acks := fired + [acks[0]], acks[1..];
      }
    }
  }
}
