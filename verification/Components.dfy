/** Components as the mutable objects they are, proved against the tree of values. */
module Components {
  import opened Wrappers
  import opened Keyed
  import opened Labels
  import opened ComponentTree

  datatype ComponentState = Starting | Running | Stopping | Stopped

  class Component {
    const labels: Labels
    var effective: Labels
    var parent: Component?
    var children: seq<Component>
    var state: ComponentState
    var live: bool
    var liveChildren: map<string, seq<Component>>
    var controls: map<string, Control>
    ghost var depth: nat

    ghost function View(): Node<Component>
      reads this
    {
      Node(labels, effective, ParentOption(), children, live, liveChildren, controls, depth)
    }

    ghost function ParentOption(): Option<Component>
      reads this
    {
      if parent == null then None else Some(parent)
    }

    constructor (labels: Labels)
      ensures View() == Node(labels, labels, None, [], true, map[], map[], 0) && state == Starting
    {
      this.labels, effective, parent, children := labels, labels, null, [];
      state, live, liveChildren, controls := Starting, true, map[], map[];
      depth := 0;
    }

    /** `set_state`: stopping drops the liveness token. */
    method SetState(s: ComponentState)
      modifies `state, `live
      ensures state == s
      ensures View() == if s == Stopped then old(View()).(live := false) else old(View())
    {
      state := s;
      if s == Stopped {
        live := false;
      }
    }
  }

  ghost function Snapshot(all: set<Component>): Forest<Component>
    reads all
  {
    map c | c in all :: c.View()
  }

  /** A forest that differs from another at one component, or at two. */
  lemma {:induction false} OneChanged(f: Forest<Component>, g: Forest<Component>, c: Component)
    requires f.Keys == g.Keys && c in f && forall d :: d in f && d != c ==> g[d] == f[d]
    ensures g == f[c := g[c]] && (g[c] == f[c] ==> g == f)
  {
  }

  lemma {:induction false} TwoChanged(f: Forest<Component>, g: Forest<Component>, c: Component, p: Component)
    requires f.Keys == g.Keys && c in f && p in f && c != p && forall d :: d in f && d != c && d != p ==> g[d] == f[d]
    ensures g == f[c := g[c]][p := g[p]]
  {
  }

  /** `set_state` in the tree. */
  method SetStateOf(c: Component, s: ComponentState, ghost all: set<Component>)
    requires c in all && Sound(Snapshot(all))
    modifies c`state, c`live
    ensures Snapshot(all) == (if s == Stopped then Stop(old(Snapshot(all)), c) else old(Snapshot(all)))
    ensures Sound(Snapshot(all))
  {
    ghost var f := Snapshot(all);
    StopSound(f, c);
    c.SetState(s);
    OneChanged(f, Snapshot(all), c);
  }

  method OwnedAbove(above: Labels, own: Labels) returns (clash: bool)
    ensures clash == !Apart(above, own)
  {
    for i := 0 to |own|
      invariant forall j :: 0 <= j < i ==> own[j].key !in Keys(above)
    {
      LookupIn(above, own[i].key);
      if Lookup(above, own[i].key).Some? {
        return true;
      }
    }
    clash := false;
  }

  /** `bucket.retain(|w| w.strong_count() > 0)`. */
  method RetainLive(bucket: seq<Component>, ghost f: Forest<Component>) returns (r: seq<Component>)
    requires forall i :: 0 <= i < |bucket| ==> bucket[i] in f && f[bucket[i]].live == bucket[i].live
    ensures r == LiveIn(f, bucket)
  {
    r := [];
    for i := 0 to |bucket|
      invariant r == LiveIn(f, bucket[..i])
    {
      assert bucket[..i + 1][..i] == bucket[..i];
      if bucket[i].live {
        r := r + [bucket[i]];
      } else {
        assert r + [] == r;
      }
    }
    assert bucket[..|bucket|] == bucket;
  }

  /** `children.retain(|c| !Arc::ptr_eq(c, child))`. */
  method RetainOthers(children: seq<Component>, child: Component) returns (r: seq<Component>)
    ensures r == Without(children, child)
  {
    r := [];
    for i := 0 to |children|
      invariant r == Without(children[..i], child)
    {
      assert children[..i + 1][..i] == children[..i];
      if children[i] != child {
        r := r + [children[i]];
      } else {
        assert r + [] == r;
      }
    }
    assert children[..|children|] == children;
  }

  /** The child's half of `attach`. */
  method Adopt(parent: Component, child: Component)
    requires child != parent
    modifies child`effective, child`parent, child`depth
    ensures child.View() == Adopted(old(child.View()), parent, parent.View())
  {
    child.effective := Extend(parent.effective, child.labels);
    child.parent := parent;
    child.depth := parent.depth + 1;
  }

  /** The parent's half: prune the bucket, refuse a second live sibling, else enter the child. */
  method Claim(parent: Component, child: Component, ghost f: Forest<Component>) returns (refused: bool)
    requires var bucket := Bucket(parent.View(), Rendering(child.labels));
      forall i :: 0 <= i < |bucket| ==> bucket[i] in f && f[bucket[i]].live == bucket[i].live
    modifies parent`children, parent`liveChildren
    ensures var key := Rendering(child.labels);
      var alive := LiveIn(f, Bucket(old(parent.View()), key));
      parent.View() == Claimed(old(parent.View()), child, key, alive) && refused == (alive != [])
  {
    var key := Rendering(child.labels);
    var bucket := if key in parent.liveChildren then parent.liveChildren[key] else [];
    assert bucket == Bucket(parent.View(), key);
    bucket := RetainLive(bucket, f);
    refused := bucket != [];
    if refused {
      parent.liveChildren := parent.liveChildren[key := bucket];
    } else {
      parent.liveChildren := parent.liveChildren[key := [child]];
      parent.children := parent.children + [child];
    }
  }

  /** `attach`; what is not `Attached` is the source's panic. The tree stays sound when the
      child is a parentless leaf. */
  method Attach(parent: Component, child: Component, ghost all: set<Component>) returns (r: AttachResult)
    requires parent in all && child in all && child != parent
    requires Sound(Snapshot(all))
    modifies child`effective, child`parent, child`depth, parent`children, parent`liveChildren
    ensures (Snapshot(all), r) == AttachTo(old(Snapshot(all)), parent, child)
    ensures old(Leaf(Snapshot(all), child)) ==> Sound(Snapshot(all))
  {
    ghost var f := Snapshot(all);
    if Leaf(f, child) {
      AttachSound(f, parent, child);
    }
    var clash := OwnedAbove(parent.effective, child.labels);
    if clash {
      return LabelOwned;
    }
    BucketKnown(f, parent, Rendering(child.labels));
    Adopt(parent, child);
    var refused := Claim(parent, child, f);
    r := if refused then SiblingAlive else Attached;
    TwoChanged(f, Snapshot(all), child, parent);
  }

  lemma {:induction false} BucketKnown(f: Forest<Component>, p: Component, key: string)
    requires Sound(f) && p in f
    ensures var bucket := Bucket(f[p], key); forall i :: 0 <= i < |bucket| ==> bucket[i] in f
  {
    assert BucketsOk(f, p);
    assert key in f[p].liveChildren ==> BucketOk(f, key, f[p].liveChildren[key]);
  }

  lemma {:induction false} DetachedSound(f: Forest<Component>, p: Component, c: Component)
    requires p in f && c in f && c != p
    ensures f[c].parent == Some(p) && Sound(f) ==> Sound(DetachFrom(f, p, c))
  {
    if f[c].parent == Some(p) && Sound(f) {
      DetachSound(f, p, c);
    }
  }

  /** `detach`. The tree stays sound when the child is detached from the parent it has. */
  method Detach(parent: Component, child: Component, ghost all: set<Component>)
    requires parent in all && child in all && child != parent
    modifies parent`children, child`parent
    ensures Snapshot(all) == DetachFrom(old(Snapshot(all)), parent, child)
    ensures old(child.parent == parent && Sound(Snapshot(all))) ==> Sound(Snapshot(all))
  {
    ghost var f := Snapshot(all);
    parent.children := RetainOthers(parent.children, child);
    child.parent := null;
    TwoChanged(f, Snapshot(all), parent, child);
    DetachedSound(f, parent, child);
  }

  // ---------------------------------------------------------------------
  // The flattened lookup
  // ---------------------------------------------------------------------

  function Get(m: map<string, Control>, name: string): Option<Control> {
    if name in m then Some(m[name]) else None
  }

  /** What the walk still has to contribute, from this component up. */
  ghost function StillToFind(f: Forest<Component>, next: Component?, isStart: bool, name: string): Option<Control>
    requires Sound(f) && (next != null ==> next in f)
  {
    if next == null then None else if isStart then FindUp(f, next, name) else FindAbove(f, next, name)
  }

  /** One component's controls entered under the names not found nearer. */
  method EnterControls(found: map<string, Control>, c: Component, isStart: bool) returns (m: map<string, Control>)
    ensures forall name ::
      Get(m, name) ==
      if name in found then Some(found[name])
      else if name in c.controls && (isStart || c.controls[name].scope == Subtree) then Some(c.controls[name])
      else None
  {
    m := found;
    var names := c.controls.Keys;
    while names != {}
      invariant names <= c.controls.Keys
      invariant forall name ::
        Get(m, name) ==
        if name in found then Some(found[name])
        else if name in c.controls && name !in names && (isStart || c.controls[name].scope == Subtree) then Some(c.controls[name])
        else None
      decreases names
    {
      var name :| name in names;
      var handle := c.controls[name];
      if isStart || handle.scope == Subtree {
        if name !in m {
          m := m[name := handle];
        } else {
          assert Get(m, name).Some?;
        }
      }
      names := names - {name};
    }
  }

  /** `control_snapshot`: the map gives each name exactly what the recursive search finds. */
  method ControlSnapshot(start: Component, ghost all: set<Component>) returns (m: map<string, Control>)
    requires start in all && Sound(Snapshot(all))
    ensures forall name :: Get(m, name) == FindUp(Snapshot(all), start, name)
  {
    ghost var f := Snapshot(all);
    m := map[];
    var next: Component? := start;
    var isStart := true;
    while next != null
      invariant next != null ==> next in all
      invariant next == null ==> !isStart
      invariant forall name ::
        (if name in m then Some(m[name]) else StillToFind(f, next, isStart, name)) == FindUp(f, start, name)
      decreases if next == null then 0 else next.depth + 1
    {
      assert AboveOk(f, next);
      assert next.View() == f[next];
      ghost var before := m;
      m := EnterControls(m, next, isStart);
      forall name
        ensures (if name in m then Some(m[name]) else StillToFind(f, next.parent, false, name)) == FindUp(f, start, name)
      {
        assert Get(m, name) == if name in m then Some(m[name]) else None;
        assert (if name in before then Some(before[name]) else StillToFind(f, next, isStart, name)) == FindUp(f, start, name);
      }
      next := next.parent;
      isStart := false;
    }
    forall name
      ensures Get(m, name) == FindUp(f, start, name)
    {
      assert (if name in m then Some(m[name]) else StillToFind(f, null, false, name)) == FindUp(f, start, name);
    }
  }
}
