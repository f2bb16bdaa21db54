/** `ScheduleNode` as the mutable tree it is: each node owns its reporters and children
    and updates them in place. It is proved against the value tree of `ScheduleTree`. */
module ScheduleNodes {
  import opened Wrappers
  import opened Snapshot
  import opened CoalesceLoops
  import opened ScheduleTree
  import ScheduleBuild

  class Reporter {
    const id: nat
    var received: seq<MetricSet>

    function State(): Recorder
      reads this
    {
      Recorder(id, received)
    }

    constructor (id: nat)
      ensures State() == Recorder(id, [])
    {
      this.id, received := id, [];
    }

    method Report(s: MetricSet)
      modifies this
      ensures received == old(received) + [s]
    {
      received := received + [s];
    }
  }

  /** Everything gathered anywhere in the tree fits one signature. */
  ghost predicate Fitting(n: Node, sig: Signature) {
    AllFit(n.accumulated, sig) && forall i :: 0 <= i < |n.children| ==> Fitting(n.children[i], sig)
  }

  class ScheduleNode {
    const interval: Duration
    var accumulated: seq<MetricSet>
    var duration: Duration
    var reporters: seq<Reporter>
    var children: seq<ScheduleNode>
    ghost var Repr: set<object>

    ghost predicate OwnsReporters()
      reads this
    {
      this in Repr &&
      (forall i :: 0 <= i < |reporters| ==> reporters[i] in Repr) &&
      (forall i, j :: 0 <= i < j < |reporters| ==> reporters[i] != reporters[j])
    }

    ghost predicate OwnsChildren()
      reads this, Repr
    {
      this in Repr &&
      (forall i :: 0 <= i < |children| ==>
         children[i] in Repr && children[i].Repr <= Repr && this !in children[i].Repr &&
         forall r :: r in reporters ==> r !in children[i].Repr) &&
      (forall i, j :: 0 <= i < j < |children| ==> children[i].Repr !! children[j].Repr)
    }

    ghost predicate Valid()
      reads this, Repr
      decreases Repr
    {
      OwnsReporters() && OwnsChildren() && forall i :: 0 <= i < |children| ==> children[i].Valid()
    }

    ghost function ReportersView(): (r: seq<Recorder>)
      requires OwnsReporters()
      reads this, Repr
      ensures |r| == |reporters| && forall i :: 0 <= i < |r| ==> r[i] == reporters[i].State()
    {
      seq(|reporters|, i requires 0 <= i < |reporters| && OwnsReporters() reads this, Repr => reporters[i].State())
    }

    ghost function ChildrenView(): (r: seq<Node>)
      requires Valid()
      reads this, Repr
      ensures |r| == |children| && forall i :: 0 <= i < |r| ==> r[i] == children[i].View()
      decreases Repr, 0
    {
      seq(|children|, i requires 0 <= i < |children| && Valid() reads this, Repr => children[i].View())
    }

    ghost function View(): Node
      requires Valid()
      reads this, Repr
      decreases Repr, 1
    {
      Node(interval, accumulated, duration, ReportersView(), ChildrenView())
    }

    ghost function ChildReprs(): (r: seq<set<object>>)
      requires Valid()
      reads this, Repr
      ensures |r| == |children| && forall i :: 0 <= i < |r| ==> r[i] == children[i].Repr
    {
      seq(|children|, i requires 0 <= i < |children| && Valid() reads this, Repr => children[i].Repr)
    }

    constructor (interval: Duration)
      ensures Valid() && Repr == {this} && View() == Node(interval, [], 0, [], [])
    {
      this.interval := interval;
      accumulated, duration, reporters, children := [], 0, [], [];
      Repr := {this};
    }

    /** Hand the window to every reporter, in order. */
    method ReportAll(window: MetricSet)
      requires Valid()
      modifies reporters
      ensures Valid() && Repr == old(Repr)
      ensures View() == old(View()).(reporters := Reported(old(View()).reporters, [window]))
    {
      ghost var before, reprs := View(), ChildReprs();
      assert forall i :: 0 <= i < |children| ==> Holds(children[i], reprs[i], before.children[i]);
      Report(reporters, window);
      assert forall i :: 0 <= i < |children| ==> Holds(children[i], reprs[i], before.children[i]);
      assert ReportersView() == Reported(before.reporters, [window]);
      assert ChildrenView() == before.children;
    }

    /** Every child ingests the window. */
    method FeedChildren(window: MetricSet, ghost sig: Signature)
      requires Valid() && Fits(window, sig) && Fitting(View(), sig)
      modifies Repr - {this} - set r | r in reporters
      ensures Valid() && Repr == old(Repr)
      ensures View() == old(View()).(children := Fed(old(View()).children, window))
      decreases Repr, 0
    {
      ghost var before := View();
      ghost var reprs := ChildReprs();
      for i := 0 to |children|
        invariant forall j :: 0 <= j < i ==> Holds(children[j], reprs[j], ScheduleTree.Ingest(before.children[j], window))
        invariant forall j :: i <= j < |children| ==> Holds(children[j], reprs[j], before.children[j])
      {
        children[i].Ingest(window, sig);
      }
      assert ReportersView() == before.reporters;
      assert ChildrenView() == Fed(before.children, window);
    }

    /** Pass a full window on: reporters first, then children. */
    method Emit(window: MetricSet, ghost sig: Signature)
      requires Valid() && Fits(window, sig) && Fitting(View(), sig)
      modifies Repr - {this}
      ensures Valid() && Repr == old(Repr)
      ensures View() == old(View()).(reporters := Reported(old(View()).reporters, [window]),
                                     children := Fed(old(View()).children, window))
      decreases Repr, 1
    {
      ReportAll(window);
      FeedChildren(window, sig);
    }

    /** `ScheduleNode::ingest`. */
    method Ingest(s: MetricSet, ghost sig: Signature)
      requires Valid() && Fits(s, sig) && Fitting(View(), sig)
      modifies Repr
      ensures Valid() && Repr == old(Repr)
      ensures View() == ScheduleTree.Ingest(old(View()), s)
      decreases Repr, 2
    {
      IngestParts(View(), s);
      Gather(s);
      if duration >= interval {
        var window := CoalesceWithMode(accumulated, Coalescing, 0, sig);
        CoalesceFits(accumulated, Coalescing, 0, sig);
        Empty();
        Emit(window, sig);
      }
    }

    /** One tick at the root: it gathers nothing itself. */
    method Deliver(s: MetricSet, ghost sig: Signature)
      requires Valid() && Fits(s, sig) && Fitting(View(), sig)
      modifies Repr - {this}
      ensures Valid() && Repr == old(Repr)
      ensures View() == ScheduleBuild.Tick(old(View()), s)
    {
      ghost var before := View();
      Emit(s, sig);
      assert Fed(before.children, s) == ScheduleBuild.Tick(before, s).children;
    }

    method Gather(s: MetricSet)
      requires Valid()
      modifies this`duration, this`accumulated
      ensures Valid()
      ensures View() == old(View()).(duration := old(duration) + s.interval, accumulated := old(accumulated) + [s])
    {
      ghost var before := View();
      duration := duration + s.interval;
      accumulated := accumulated + [s];
      assert forall i :: 0 <= i < |children| ==> children[i].Valid() && children[i].View() == before.children[i];
      assert ReportersView() == before.reporters;
      assert ChildrenView() == before.children;
    }

    method Empty()
      requires Valid()
      modifies this`duration, this`accumulated
      ensures Valid()
      ensures View() == old(View()).(duration := 0, accumulated := [])
    {
      ghost var before := View();
      accumulated := [];
      duration := 0;
      assert forall i :: 0 <= i < |children| ==> children[i].Valid() && children[i].View() == before.children[i];
      assert ReportersView() == before.reporters;
      assert ChildrenView() == before.children;
    }
  }

  method Report(reporters: seq<Reporter>, window: MetricSet)
    requires forall i, j :: 0 <= i < j < |reporters| ==> reporters[i] != reporters[j]
    modifies reporters
    ensures forall i :: 0 <= i < |reporters| ==> reporters[i].received == old(reporters[i].received) + [window]
  {
    for i := 0 to |reporters|
      invariant forall j :: 0 <= j < i ==> reporters[j].received == old(reporters[j].received) + [window]
      invariant forall j :: i <= j < |reporters| ==> reporters[j].received == old(reporters[j].received)
    {
      reporters[i].Report(window);
    }
  }

  lemma {:induction false} IngestParts(n: Node, s: MetricSet)
    ensures var accumulated, duration := n.accumulated + [s], n.duration + s.interval;
      ScheduleTree.Ingest(n, s) ==
      if duration < n.interval then n.(accumulated := accumulated, duration := duration)
      else
        var window := Coalesce(accumulated, Coalescing, 0);
        Node(n.interval, [], 0, Reported(n.reporters, [window]), Fed(n.children, window))
  {
    if n.duration + s.interval >= n.interval {
      var window := Coalesce(n.accumulated + [s], Coalescing, 0);
      assert ScheduleTree.Ingest(n, s).children == Fed(n.children, window);
    }
  }

  /** `c` is a sound node over exactly these objects and reads as this value. */
  ghost predicate Holds(c: ScheduleNode, repr: set<object>, view: Node)
    reads c, repr
  {
    c in repr && c.Repr == repr && c.Valid() && c.View() == view
  }

  function Fed(ns: seq<Node>, window: MetricSet): (r: seq<Node>)
    ensures |r| == |ns| && forall i :: 0 <= i < |ns| ==> r[i] == ScheduleTree.Ingest(ns[i], window)
  {
    seq(|ns|, i requires 0 <= i < |ns| => ScheduleTree.Ingest(ns[i], window))
  }
}
