/** The runtime component tree as a value: one node per component, who is whose child, what
    labels each ends up with, whose claim on a label set is still held, and what controls
    are visible where. */
module ComponentTree {
  import opened Wrappers
  import opened Keyed
  import opened Labels

  datatype BranchScope = Local | Subtree

  /** An erased control handle. */
  datatype Control = Control(id: nat, scope: BranchScope)

  datatype AttachResult = Attached | LabelOwned | SiblingAlive

  /** `live` says the component still holds its liveness token; a parent's index holds
      handles to tokens, named here by their components. */
  datatype Node<I> = Node(labels: Labels, effective: Labels, parent: Option<I>, children: seq<I>, live: bool,
                          liveChildren: map<string, seq<I>>, controls: map<string, Control>, depth: nat)

  type Forest<I> = map<I, Node<I>>

  function RenderPairs(labels: Labels): string {
    if labels == [] then ""
    else labels[0].key + "=\"" + labels[0].val + "\"" + (if |labels| == 1 then "" else ",") + RenderPairs(labels[1..])
  }

  /** `to_prometheus`: the pairs in insertion order. */
  function Rendering(labels: Labels): string {
    if labels == [] then "" else "{" + RenderPairs(labels) + "}"
  }

  function Bucket<I>(n: Node<I>, key: string): seq<I> {
    if key in n.liveChildren then n.liveChildren[key] else []
  }

  /** No name is set on both. */
  predicate Apart(above: Labels, own: Labels) {
    forall i :: 0 <= i < |own| ==> own[i].key !in Keys(above)
  }

  predicate Alive<I(==)>(f: Forest<I>, i: I) {
    i in f && f[i].live
  }

  function LiveIn<I(==)>(f: Forest<I>, bucket: seq<I>): (r: seq<I>)
    ensures forall x :: x in r ==> x in bucket && Alive(f, x)
    ensures forall x :: x in bucket && Alive(f, x) ==> x in r
  {
    if bucket == [] then []
    else
      var n := |bucket| - 1;
      assert bucket == bucket[..n] + [bucket[n]];
      LiveIn(f, bucket[..n]) + if Alive(f, bucket[n]) then [bucket[n]] else []
  }

  // ---------------------------------------------------------------------
  // The invariant
  // ---------------------------------------------------------------------

  /** A child sits under its parent: its labels are new there and complete the parent's, and
      a live one is in its bucket. */
  ghost predicate Under<I>(f: Forest<I>, c: I, p: I)
    requires p in f
  {
    c in f && f[c].parent == Some(p) && Apart(f[p].effective, f[c].labels) &&
    f[c].effective == Extended(f[p].effective, f[c].labels) &&
    (f[c].live ==> c in Bucket(f[p], Rendering(f[c].labels)))
  }

  ghost predicate NoRepeats<I>(s: seq<I>) {
    forall i, j :: 0 <= i < j < |s| ==> s[i] != s[j]
  }

  ghost predicate ChildrenOk<I>(f: Forest<I>, p: I)
    requires p in f
  {
    var children := f[p].children;
    (forall i :: 0 <= i < |children| ==> Under(f, children[i], p)) && NoRepeats(children)
  }

  /** At most one handle in a bucket is still alive, and it is of the bucket's label set. */
  ghost predicate BucketOk<I>(f: Forest<I>, key: string, bucket: seq<I>) {
    (forall i :: 0 <= i < |bucket| ==> bucket[i] in f && Rendering(f[bucket[i]].labels) == key) &&
    (forall i, j :: 0 <= i < j < |bucket| ==> !(Alive(f, bucket[i]) && Alive(f, bucket[j])))
  }

  ghost predicate BucketsOk<I>(f: Forest<I>, p: I)
    requires p in f
  {
    forall key :: key in f[p].liveChildren ==> BucketOk(f, key, f[p].liveChildren[key])
  }

  ghost predicate AboveOk<I>(f: Forest<I>, c: I)
    requires c in f
  {
    Distinct(f[c].labels) && Distinct(f[c].effective) &&
    (f[c].parent.Some? ==> f[c].parent.value in f && f[c].depth == f[f[c].parent.value].depth + 1)
  }

  ghost predicate Sound<I>(f: Forest<I>) {
    forall c :: c in f ==> AboveOk(f, c) && ChildrenOk(f, c) && BucketsOk(f, c)
  }

  // ---------------------------------------------------------------------
  // Operations
  // ---------------------------------------------------------------------

  function Born<I>(f: Forest<I>, c: I, labels: Labels): Forest<I> {
    f[c := Node(labels, labels, None, [], true, map[], map[], 0)]
  }

  /** What attaching does to the child. */
  function Adopted<I>(c: Node<I>, p: I, parent: Node<I>): Node<I> {
    c.(effective := Extended(parent.effective, c.labels), parent := Some(p), depth := parent.depth + 1)
  }

  /** What attaching does to the parent, given the live handles its bucket holds. */
  function Claimed<I>(p: Node<I>, c: I, key: string, alive: seq<I>): Node<I> {
    if alive != [] then p.(liveChildren := p.liveChildren[key := alive])
    else p.(liveChildren := p.liveChildren[key := [c]], children := p.children + [c])
  }

  /** `attach`. The two failures are the source's panics; a refused child has already been
      given its effective labels and its parent. */
  function AttachTo<I(==)>(f: Forest<I>, p: I, c: I): (Forest<I>, AttachResult)
    requires p in f && c in f && c != p
  {
    if !Apart(f[p].effective, f[c].labels) then (f, LabelOwned)
    else
      var key := Rendering(f[c].labels);
      var alive := LiveIn(f, Bucket(f[p], key));
      (f[c := Adopted(f[c], p, f[p])][p := Claimed(f[p], c, key, alive)],
       if alive != [] then SiblingAlive else Attached)
  }

  function Without<I(==)>(s: seq<I>, x: I): (r: seq<I>)
    ensures forall y :: y in r ==> y in s && y != x
    ensures forall y :: y in s && y != x ==> y in r
  {
    if s == [] then []
    else
      var n := |s| - 1;
      assert s == s[..n] + [s[n]];
      Without(s[..n], x) + if s[n] == x then [] else [s[n]]
  }

  /** `detach`. */
  function DetachFrom<I(==)>(f: Forest<I>, p: I, c: I): Forest<I>
    requires p in f && c in f && c != p
  {
    f[p := f[p].(children := Without(f[p].children, c))][c := f[c].(parent := None)]
  }

  /** Stopping drops the liveness token. */
  function Stop<I>(f: Forest<I>, c: I): Forest<I>
    requires c in f
  {
    f[c := f[c].(live := false)]
  }

  // ---------------------------------------------------------------------
  // What every operation keeps
  // ---------------------------------------------------------------------

  ghost predicate Leaf<I>(f: Forest<I>, c: I)
    requires c in f
  {
    f[c].parent == None && f[c].children == [] && forall d :: d in f ==> f[d].parent != Some(c)
  }

  lemma {:induction false} BornSound<I>(f: Forest<I>, c: I, labels: Labels)
    requires Sound(f) && c !in f && Distinct(labels)
    ensures Sound(Born(f, c, labels))
  {
    var g := Born(f, c, labels);
    forall d | d in g
      ensures AboveOk(g, d) && ChildrenOk(g, d) && BucketsOk(g, d)
    {
      if d != c {
        assert AboveOk(f, d) && ChildrenOk(f, d) && BucketsOk(f, d);
        forall i | 0 <= i < |g[d].children|
          ensures Under(g, g[d].children[i], d)
        {
          assert Under(f, f[d].children[i], d);
        }
        BucketsKept(f, g, d);
      }
    }
  }

  /** A bucket stays sound while labels stay and nobody comes back to life. */
  lemma {:induction false} BucketKept<I>(f: Forest<I>, g: Forest<I>, key: string, bucket: seq<I>)
    requires BucketOk(f, key, bucket)
    requires forall i :: 0 <= i < |bucket| ==>
      bucket[i] in g && g[bucket[i]].labels == f[bucket[i]].labels && (g[bucket[i]].live ==> f[bucket[i]].live)
    ensures BucketOk(g, key, bucket)
  {
    forall i, j | 0 <= i < j < |bucket|
      ensures !(Alive(g, bucket[i]) && Alive(g, bucket[j]))
    {
      assert !(Alive(f, bucket[i]) && Alive(f, bucket[j]));
    }
  }

  /** Labels stay and nobody comes back to life. */
  ghost predicate Ages<I>(f: Forest<I>, g: Forest<I>) {
    forall c :: c in f ==> c in g && g[c].labels == f[c].labels && (g[c].live ==> f[c].live)
  }

  lemma {:induction false} BucketsKept<I>(f: Forest<I>, g: Forest<I>, d: I)
    requires d in f && d in g && BucketsOk(f, d) && g[d].liveChildren == f[d].liveChildren && Ages(f, g)
    ensures BucketsOk(g, d)
  {
    forall key | key in g[d].liveChildren
      ensures BucketOk(g, key, g[d].liveChildren[key])
    {
      BucketKept(f, g, key, f[d].liveChildren[key]);
    }
  }

  lemma {:induction false} StopSound<I>(f: Forest<I>, c: I)
    requires Sound(f) && c in f
    ensures Sound(Stop(f, c))
  {
    var g := Stop(f, c);
    forall d | d in g
      ensures AboveOk(g, d) && ChildrenOk(g, d) && BucketsOk(g, d)
    {
      assert AboveOk(f, d) && ChildrenOk(f, d) && BucketsOk(f, d);
      forall i | 0 <= i < |g[d].children|
        ensures Under(g, g[d].children[i], d)
      {
        assert Under(f, f[d].children[i], d);
      }
      BucketsKept(f, g, d);
    }
  }

  lemma {:induction false} SomeAlive<I>(f: Forest<I>, bucket: seq<I>)
    requires LiveIn(f, bucket) != []
    ensures exists i :: 0 <= i < |bucket| && Alive(f, bucket[i])
  {
    assert LiveIn(f, bucket)[0] in LiveIn(f, bucket);
  }

  lemma {:induction false} AtMostOneAlive<I>(f: Forest<I>, key: string, bucket: seq<I>)
    requires BucketOk(f, key, bucket)
    ensures |LiveIn(f, bucket)| <= 1 && BucketOk(f, key, LiveIn(f, bucket))
  {
    if bucket != [] {
      var n := |bucket| - 1;
      forall i, j | 0 <= i < j < n
        ensures !(Alive(f, bucket[..n][i]) && Alive(f, bucket[..n][j]))
      {
        assert !(Alive(f, bucket[i]) && Alive(f, bucket[j]));
      }
      AtMostOneAlive(f, key, bucket[..n]);
      if LiveIn(f, bucket[..n]) != [] {
        SomeAlive(f, bucket[..n]);
        var i :| 0 <= i < n && Alive(f, bucket[..n][i]);
        assert !(Alive(f, bucket[i]) && Alive(f, bucket[n]));
      }
    }
  }

  /** The bucket the parent is left with: pruned, or holding just the new child. */
  lemma {:induction false} NewBucketOk<I>(f: Forest<I>, p: I, c: I)
    requires Sound(f) && p in f && c in f && c != p
    ensures var key := Rendering(f[c].labels);
      var alive := LiveIn(f, Bucket(f[p], key));
      BucketOk(f, key, Claimed(f[p], c, key, alive).liveChildren[key])
  {
    var key := Rendering(f[c].labels);
    assert BucketsOk(f, p);
    assert BucketOk(f, key, Bucket(f[p], key));
    AtMostOneAlive(f, key, Bucket(f[p], key));
  }

  /** Each of the parent's buckets, once the child has claimed its own. */
  lemma {:induction false} ClaimedBucketOk<I>(f: Forest<I>, g: Forest<I>, p: I, c: I, k: string)
    requires Sound(f) && p in f && c in f && c != p && Ages(f, g)
    requires k in Claimed(f[p], c, Rendering(f[c].labels), LiveIn(f, Bucket(f[p], Rendering(f[c].labels)))).liveChildren
    ensures BucketOk(g, k, Claimed(f[p], c, Rendering(f[c].labels),
                                   LiveIn(f, Bucket(f[p], Rendering(f[c].labels)))).liveChildren[k])
  {
    var key := Rendering(f[c].labels);
    var bucket := Claimed(f[p], c, key, LiveIn(f, Bucket(f[p], key))).liveChildren[k];
    if k == key {
      NewBucketOk(f, p, c);
    } else {
      assert BucketsOk(f, p) && bucket == f[p].liveChildren[k];
    }
    BucketKept(f, g, k, bucket);
  }

  lemma {:induction false} ClaimedBucketsOk<I>(f: Forest<I>, p: I, c: I)
    requires Sound(f) && p in f && c in f && c != p && Apart(f[p].effective, f[c].labels)
    requires Ages(f, AttachTo(f, p, c).0)
    ensures BucketsOk(AttachTo(f, p, c).0, p)
  {
    var g := AttachTo(f, p, c).0;
    forall k | k in g[p].liveChildren
      ensures BucketOk(g, k, g[p].liveChildren[k])
    {
      ClaimedBucketOk(f, g, p, c, k);
    }
  }

  lemma {:induction false} AttachAges<I>(f: Forest<I>, p: I, c: I)
    requires p in f && c in f && c != p
    ensures Ages(f, AttachTo(f, p, c).0)
  {
  }

  lemma {:induction false} OtherBucketsStay<I>(f: Forest<I>, p: I, c: I, d: I)
    requires p in f && c in f && c != p && d in f && !(d == p && Apart(f[p].effective, f[c].labels))
    ensures d in AttachTo(f, p, c).0 && AttachTo(f, p, c).0[d].liveChildren == f[d].liveChildren
  {
  }

  lemma {:induction false} AttachKeepsBuckets<I>(f: Forest<I>, p: I, c: I, d: I)
    requires Sound(f) && p in f && c in f && c != p && d in f
    ensures BucketsOk(AttachTo(f, p, c).0, d)
  {
    AttachAges(f, p, c);
    if d == p && Apart(f[p].effective, f[c].labels) {
      ClaimedBucketsOk(f, p, c);
    } else {
      assert BucketsOk(f, d);
      OtherBucketsStay(f, p, c, d);
      BucketsKept(f, AttachTo(f, p, c).0, d);
    }
  }

  lemma {:induction false} AdoptedAbove<I>(f: Forest<I>, p: I, c: I)
    requires Sound(f) && p in f && c in f && c != p && Leaf(f, c)
    ensures AboveOk(AttachTo(f, p, c).0, c)
  {
    assert AboveOk(f, p) && AboveOk(f, c);
    ExtendedSpec(f[p].effective, f[c].labels, "");
  }

  lemma {:induction false} AttachKeepsAbove<I>(f: Forest<I>, p: I, c: I, d: I)
    requires Sound(f) && p in f && c in f && c != p && d in f && Leaf(f, c)
    ensures AboveOk(AttachTo(f, p, c).0, d)
  {
    if d == c {
      AdoptedAbove(f, p, c);
    } else {
      assert AboveOk(f, d) && f[d].parent != Some(c);
    }
  }

  /** A child the parent already had is still in its bucket if it is alive. */
  lemma {:induction false} StillInBucket<I>(f: Forest<I>, p: I, c: I, key: string, x: I)
    requires p in f && Alive(f, x) && x in Bucket(f[p], Rendering(f[x].labels))
    ensures x in Bucket(Claimed(f[p], c, key, LiveIn(f, Bucket(f[p], key))), Rendering(f[x].labels))
  {
    if Rendering(f[x].labels) == key {
      assert x in LiveIn(f, Bucket(f[p], key));
    }
  }

  lemma {:induction false} AttachKeepsChild<I>(f: Forest<I>, p: I, c: I, d: I, x: I)
    requires Sound(f) && p in f && c in f && c != p && d in f && Leaf(f, c) && Under(f, x, d)
    ensures Under(AttachTo(f, p, c).0, x, d)
  {
    var g := AttachTo(f, p, c).0;
    assert x != c;
    if d == p && f[x].live {
      StillInBucket(f, p, c, Rendering(f[c].labels), x);
    }
  }

  lemma {:induction false} AttachKeepsChildren<I>(f: Forest<I>, p: I, c: I, d: I)
    requires Sound(f) && p in f && c in f && c != p && d in f && Leaf(f, c)
    ensures ChildrenOk(AttachTo(f, p, c).0, d)
  {
    var (g, r) := AttachTo(f, p, c);
    assert ChildrenOk(f, d);
    forall i | 0 <= i < |f[d].children|
      ensures Under(g, f[d].children[i], d) && f[d].children[i] != c
    {
      assert Under(f, f[d].children[i], d);
      AttachKeepsChild(f, p, c, d, f[d].children[i]);
    }
    if d == p && r == Attached {
      assert g[p].children == f[p].children + [c];
      assert Under(g, c, p);
    }
  }

  /** Attaching a parentless leaf keeps the tree sound, whether it is accepted or refused. */
  lemma {:induction false} AttachSound<I>(f: Forest<I>, p: I, c: I)
    requires Sound(f) && p in f && c in f && c != p && Leaf(f, c)
    ensures Sound(AttachTo(f, p, c).0)
  {
    var g := AttachTo(f, p, c).0;
    forall d | d in g
      ensures AboveOk(g, d) && ChildrenOk(g, d) && BucketsOk(g, d)
    {
      AttachKeepsAbove(f, p, c, d);
      AttachKeepsChildren(f, p, c, d);
      AttachKeepsBuckets(f, p, c, d);
    }
  }

  lemma {:induction false} WithoutDistinct<I>(s: seq<I>, x: I)
    requires NoRepeats(s)
    ensures NoRepeats(Without(s, x))
  {
    if s != [] {
      var n := |s| - 1;
      WithoutDistinct(s[..n], x);
      var r, rest := Without(s, x), Without(s[..n], x);
      assert r == rest + if s[n] == x then [] else [s[n]];
      forall i | 0 <= i < |rest|
        ensures rest[i] != s[n]
      {
        assert rest[i] in rest;
        var j :| 0 <= j < n && s[..n][j] == rest[i];
        assert s[j] != s[n];
      }
    }
  }

  lemma {:induction false} DetachKeepsChild<I>(f: Forest<I>, p: I, c: I, d: I, x: I)
    requires p in f && c in f && c != p && f[c].parent == Some(p) && d in f
    requires Under(f, x, d) && (d == p ==> x != c)
    ensures Under(DetachFrom(f, p, c), x, d)
  {
  }

  lemma {:induction false} DetachKeepsChildren<I>(f: Forest<I>, p: I, c: I, d: I)
    requires Sound(f) && p in f && c in f && c != p && f[c].parent == Some(p) && d in f
    ensures ChildrenOk(DetachFrom(f, p, c), d)
  {
    var g := DetachFrom(f, p, c);
    assert ChildrenOk(f, d);
    WithoutDistinct(f[p].children, c);
    assert g[d].children == if d == p then Without(f[p].children, c) else f[d].children;
    forall i | 0 <= i < |g[d].children|
      ensures Under(g, g[d].children[i], d)
    {
      var x := g[d].children[i];
      assert x in g[d].children && x in f[d].children;
      var j :| 0 <= j < |f[d].children| && f[d].children[j] == x;
      assert Under(f, f[d].children[j], d);
      DetachKeepsChild(f, p, c, d, x);
    }
  }

  lemma {:induction false} DetachAges<I>(f: Forest<I>, p: I, c: I)
    requires p in f && c in f && c != p
    ensures var g := DetachFrom(f, p, c);
      Ages(f, g) && forall d :: d in f ==> d in g && g[d].liveChildren == f[d].liveChildren
  {
  }

  lemma {:induction false} DetachKeepsBuckets<I>(f: Forest<I>, p: I, c: I, d: I)
    requires Sound(f) && p in f && c in f && c != p && d in f
    ensures BucketsOk(DetachFrom(f, p, c), d)
  {
    assert BucketsOk(f, d);
    DetachAges(f, p, c);
    BucketsKept(f, DetachFrom(f, p, c), d);
  }

  lemma {:induction false} DetachKeepsAbove<I>(f: Forest<I>, p: I, c: I, d: I)
    requires Sound(f) && p in f && c in f && c != p && d in f
    ensures AboveOk(DetachFrom(f, p, c), d)
  {
    assert AboveOk(f, d);
  }

  /** Detaching a component from its parent keeps the tree sound. */
  lemma {:induction false} DetachSound<I>(f: Forest<I>, p: I, c: I)
    requires Sound(f) && p in f && c in f && c != p && f[c].parent == Some(p)
    ensures Sound(DetachFrom(f, p, c))
  {
    var g := DetachFrom(f, p, c);
    forall d | d in g
      ensures AboveOk(g, d) && ChildrenOk(g, d) && BucketsOk(g, d)
    {
      DetachKeepsChildren(f, p, c, d);
      DetachKeepsBuckets(f, p, c, d);
      DetachKeepsAbove(f, p, c, d);
    }
  }

  // ---------------------------------------------------------------------
  // Every run
  // ---------------------------------------------------------------------

  datatype Op<I> = Create(c: I, labels: Labels) | Attach(p: I, c: I) | Detach(p: I, c: I) | SetState(c: I, stopped: bool)

  /** What the callers keep to: components are attached while they are parentless leaves,
      and detached from the parent they have. */
  ghost predicate Allowed<I>(f: Forest<I>, op: Op<I>) {
    match op
    case Create(c, labels) => c !in f && Distinct(labels)
    case Attach(p, c) => p in f && c in f && c != p && Leaf(f, c)
    case Detach(p, c) => p in f && c in f && c != p && f[c].parent == Some(p)
    case SetState(c, _) => c in f
  }

  function After<I(==)>(f: Forest<I>, op: Op<I>): Forest<I> {
    match op
    case Create(c, labels) => Born(f, c, labels)
    case Attach(p, c) => if p in f && c in f && c != p then AttachTo(f, p, c).0 else f
    case Detach(p, c) => if p in f && c in f && c != p then DetachFrom(f, p, c) else f
    case SetState(c, stopped) => if c in f && stopped then Stop(f, c) else f
  }

  function Run<I(==)>(ops: seq<Op<I>>): Forest<I> {
    if ops == [] then map[] else After(Run(ops[..|ops| - 1]), ops[|ops| - 1])
  }

  ghost predicate RunAllowed<I>(ops: seq<Op<I>>) {
    ops == [] || (RunAllowed(ops[..|ops| - 1]) && Allowed(Run(ops[..|ops| - 1]), ops[|ops| - 1]))
  }

  /** The tree is sound after every run. */
  lemma {:induction false} RunSound<I>(ops: seq<Op<I>>)
    requires RunAllowed(ops)
    ensures Sound(Run(ops))
  {
    if ops != [] {
      var f, op := Run(ops[..|ops| - 1]), ops[|ops| - 1];
      RunSound(ops[..|ops| - 1]);
      match op
      case Create(c, labels) => BornSound(f, c, labels);
      case Attach(p, c) => AttachSound(f, p, c);
      case Detach(p, c) => DetachSound(f, p, c);
      case SetState(c, stopped) => StopSound(f, c);
    }
  }

  // ---------------------------------------------------------------------
  // What soundness means
  // ---------------------------------------------------------------------

  lemma {:induction false} OnlyOneAlive<I>(f: Forest<I>, key: string, bucket: seq<I>, x: I, y: I)
    requires BucketOk(f, key, bucket) && x in bucket && y in bucket && Alive(f, x) && Alive(f, y)
    ensures x == y
  {
    var a :| 0 <= a < |bucket| && bucket[a] == x;
    var b :| 0 <= b < |bucket| && bucket[b] == y;
    SameIndex(f, key, bucket, a, b);
  }

  lemma {:induction false} SameIndex<I>(f: Forest<I>, key: string, bucket: seq<I>, a: nat, b: nat)
    requires BucketOk(f, key, bucket) && a < |bucket| && b < |bucket| && Alive(f, bucket[a]) && Alive(f, bucket[b])
    ensures a == b
  {
  }

  /** Two live children of one parent never render their own labels alike. */
  lemma {:induction false} LiveSiblingsDiffer<I>(f: Forest<I>, p: I, i: nat, j: nat)
    requires Sound(f) && p in f && i < j < |f[p].children|
    requires Alive(f, f[p].children[i]) && Alive(f, f[p].children[j])
    ensures Rendering(f[f[p].children[i]].labels) != Rendering(f[f[p].children[j]].labels)
  {
    var x, y := f[p].children[i], f[p].children[j];
    assert ChildrenOk(f, p) && BucketsOk(f, p);
    assert Under(f, x, p) && Under(f, y, p) && x != y;
    var key := Rendering(f[x].labels);
    if key == Rendering(f[y].labels) {
      OnlyOneAlive(f, key, Bucket(f[p], key), x, y);
    }
  }

  /** A component with labels of its own is refused as a duplicate exactly when the parent's
      bucket for its label set holds a handle that is still alive, its own or another's. */
  lemma {:induction false} RefusedIffClaimed<I>(f: Forest<I>, p: I, c: I)
    requires p in f && c in f && c != p
    ensures AttachTo(f, p, c).1 == LabelOwned <==> !Apart(f[p].effective, f[c].labels)
    ensures AttachTo(f, p, c).1 == SiblingAlive <==>
            Apart(f[p].effective, f[c].labels) && exists x :: x in Bucket(f[p], Rendering(f[c].labels)) && Alive(f, x)
  {
    var alive := LiveIn(f, Bucket(f[p], Rendering(f[c].labels)));
    if alive != [] {
      assert alive[0] in alive;
    }
  }

  /** What an accepted attachment does, and that it does nothing else. */
  lemma {:induction false} AttachedMeans<I>(f: Forest<I>, p: I, c: I)
    requires p in f && c in f && c != p && AttachTo(f, p, c).1 == Attached
    requires Distinct(f[c].labels)
    ensures var g := AttachTo(f, p, c).0;
      g.Keys == f.Keys && g[p].children == f[p].children + [c] && g[c].parent == Some(p) &&
      g[c].effective == f[p].effective + f[c].labels && Bucket(g[p], Rendering(f[c].labels)) == [c] &&
      g[c].labels == f[c].labels && g[c].live == f[c].live && g[c].children == f[c].children &&
      g[c].controls == f[c].controls && g[p].labels == f[p].labels && g[p].effective == f[p].effective &&
      g[p].parent == f[p].parent && g[p].live == f[p].live && g[p].controls == f[p].controls &&
      g[c].liveChildren == f[c].liveChildren &&
      (forall key :: key != Rendering(f[c].labels) ==> Bucket(g[p], key) == Bucket(f[p], key)) &&
      forall d :: d in f && d != p && d != c ==> g[d] == f[d]
  {
    ExtendedApart(f[p].effective, f[c].labels);
  }

  /** Taking out an element of a list without repeats leaves what is before it and what is after it. */
  lemma {:induction false} WithoutAt<I>(s: seq<I>, i: nat)
    requires i < |s| && NoRepeats(s)
    ensures Without(s, s[i]) == s[..i] + s[i + 1..]
  {
    var n := |s| - 1;
    if i < n {
      WithoutAt(s[..n], i);
      assert s[..n][..i] + s[..n][i + 1..] + [s[n]] == s[..i] + s[i + 1..];
    } else {
      WithoutNone(s[..n], s[n]);
      assert s[..n] == s[..i] + s[i + 1..];
    }
  }

  lemma {:induction false} WithoutNone<I>(s: seq<I>, x: I)
    requires x !in s
    ensures Without(s, x) == s
  {
    if s != [] {
      WithoutNone(s[..|s| - 1], x);
      assert s == s[..|s| - 1] + [s[|s| - 1]];
    }
  }

  /** What a detachment does: the child goes from its place among the parent's and has no parent;
      its claim, its effective labels and everything else stay. */
  lemma {:induction false} DetachedMeans<I>(f: Forest<I>, p: I, c: I) returns (i: nat)
    requires Sound(f) && p in f && c in f && c != p && c in f[p].children
    ensures i < |f[p].children| && f[p].children[i] == c
    ensures var g := DetachFrom(f, p, c);
      g[c] == f[c].(parent := None) && c !in g[p].children &&
      g[p] == f[p].(children := f[p].children[..i] + f[p].children[i + 1..]) &&
      g.Keys == f.Keys && forall d :: d in f && d != p && d != c ==> g[d] == f[d]
  {
    i :| 0 <= i < |f[p].children| && f[p].children[i] == c;
    assert ChildrenOk(f, p);
    WithoutAt(f[p].children, i);
  }

  /** Stopping a component gives up its claim: where it was the only live one in its parent's bucket,
      another with the same labels may be attached. */
  lemma {:induction false} StopReleases<I>(f: Forest<I>, p: I, c: I, x: I)
    requires Sound(f) && p in f && c in f && x in f && x != p && Leaf(f, x) && x != c
    requires c in Bucket(f[p], Rendering(f[x].labels)) && Apart(f[p].effective, f[x].labels)
    requires Alive(f, c)
    ensures !Alive(Stop(f, c), c)
    ensures AttachTo(f, p, x).1 == SiblingAlive && AttachTo(Stop(f, c), p, x).1 == Attached
  {
    var g, key := Stop(f, c), Rendering(f[x].labels);
    RefusedIffClaimed(f, p, x);
    RefusedIffClaimed(g, p, x);
    assert BucketsOk(f, p);
    assert BucketOk(f, key, Bucket(f[p], key));
    forall y | y in Bucket(g[p], key)
      ensures !Alive(g, y)
    {
      if Alive(f, y) {
        OnlyOneAlive(f, key, Bucket(f[p], key), y, c);
      }
    }
  }

  /** A component detached while alive still holds its claim on its label set, so the same
      parent refuses to take it back. */
  lemma {:induction false} ReattachRefused<I>(f: Forest<I>, p: I, c: I)
    requires Sound(f) && p in f && c in f && c != p && c in f[p].children && f[c].live
    ensures AttachTo(DetachFrom(f, p, c), p, c).1 == SiblingAlive
  {
    assert ChildrenOk(f, p);
    var i :| 0 <= i < |f[p].children| && f[p].children[i] == c;
    assert Under(f, f[p].children[i], p);
    var g := DetachFrom(f, p, c);
    assert c in LiveIn(g, Bucket(g[p], Rendering(g[c].labels)));
  }

  ghost predicate IsChild<I>(f: Forest<I>, c: I)
    requires c in f
  {
    f[c].parent.Some? && f[c].parent.value in f && c in f[f[c].parent.value].children
  }

  ghost function RootOf<I>(f: Forest<I>, c: I): (r: I)
    requires Sound(f) && c in f
    ensures r in f
    decreases f[c].depth
  {
    if IsChild(f, c) then assert AboveOk(f, c); RootOf(f, f[c].parent.value) else c
  }

  /** The own labels from just below the root down to `c`, in order. */
  ghost function OwnBelow<I>(f: Forest<I>, c: I): Labels
    requires Sound(f) && c in f
    decreases f[c].depth
  {
    if IsChild(f, c) then assert AboveOk(f, c); OwnBelow(f, f[c].parent.value) + f[c].labels else []
  }

  /** The own labels on the path from the root to `c`, in order. */
  ghost function OwnAlong<I>(f: Forest<I>, c: I): Labels
    requires Sound(f) && c in f
  {
    f[RootOf(f, c)].labels + OwnBelow(f, c)
  }

  lemma {:induction false} ExtendedApart(above: Labels, own: Labels)
    requires Distinct(own) && Apart(above, own)
    ensures Extended(above, own) == above + own
  {
    if own == [] {
      assert above + [] == above;
    } else {
      var init, e := own[..|own| - 1], own[|own| - 1];
      assert own == init + [e];
      ExtendedApart(above, init);
      var r := above + init;
      forall i | 0 <= i < |r|
        ensures r[i].key != e.key
      {
        if i < |above| {
          assert Keys(above)[i] in Keys(above);
        } else {
          assert own[i - |above|].key != own[|own| - 1].key;
        }
      }
      assert r + [e] == above + own;
    }
  }

  lemma {:induction false} EffectiveIsPath<I>(f: Forest<I>, c: I)
    requires Sound(f) && c in f
    ensures f[c].effective == f[RootOf(f, c)].effective + OwnBelow(f, c)
    decreases f[c].depth
  {
    assert AboveOk(f, c);
    if IsChild(f, c) {
      var p := f[c].parent.value;
      EffectiveIsPath(f, p);
      assert ChildrenOk(f, p);
      var i :| 0 <= i < |f[p].children| && f[p].children[i] == c;
      assert Under(f, f[p].children[i], p);
      ExtendedApart(f[p].effective, f[c].labels);
    } else {
      assert f[c].effective + [] == f[c].effective;
    }
  }

  /** A component's effective labels are the own labels along its path exactly when its root
      has kept just its own; and no name is set twice among them. */
  lemma {:induction false} EffectiveFromRoot<I>(f: Forest<I>, c: I)
    requires Sound(f) && c in f
    ensures var root := RootOf(f, c);
      (f[c].effective == OwnAlong(f, c) <==> f[root].effective == f[root].labels) && Distinct(f[c].effective)
  {
    EffectiveIsPath(f, c);
    assert AboveOk(f, c);
    var root, below := RootOf(f, c), OwnBelow(f, c);
    if f[root].effective + below == f[root].labels + below {
      CancelSuffix(f[root].effective, f[root].labels, below);
    }
  }

  lemma {:induction false} CancelSuffix<T>(x: seq<T>, y: seq<T>, z: seq<T>)
    requires x + z == y + z
    ensures x == y
  {
    assert |x| == |y|;
    assert (x + z)[..|x|] == x && (y + z)[..|y|] == y;
  }

  // ---------------------------------------------------------------------
  // Controls
  // ---------------------------------------------------------------------

  function Declared<I>(n: Node<I>, name: string): Option<Control> {
    if name in n.controls then Some(n.controls[name]) else None
  }

  /** The ancestors' side of the search: subtree-scoped declarations only. */
  ghost function FindAbove<I>(f: Forest<I>, c: I, name: string): Option<Control>
    requires Sound(f) && c in f
    decreases f[c].depth
  {
    var own := Declared(f[c], name);
    if own.Some? && own.value.scope == Subtree then own
    else if f[c].parent.Some? then assert AboveOk(f, c); FindAbove(f, f[c].parent.value, name)
    else None
  }

  /** `find_control_erased_up`. */
  ghost function FindUp<I>(f: Forest<I>, c: I, name: string): Option<Control>
    requires Sound(f) && c in f
  {
    if Declared(f[c], name).Some? then Declared(f[c], name)
    else if f[c].parent.Some? then assert AboveOk(f, c); FindAbove(f, f[c].parent.value, name)
    else None
  }
}
