/** When a component's effective labels are the own labels along its path from the root: over
    every run of creations, attachments, detachments and stops. */
module ComponentLabels {
  import opened Wrappers
  import opened Keyed
  import opened Labels
  import opened ComponentTree

  /** This attachment gives `c` its effective labels anew: it does not stop at the ownership check. */
  predicate Adopts<I(==)>(f: Forest<I>, op: Op<I>, c: I) {
    op.Attach? && op.c == c && op.p in f && c in f && c != op.p && Apart(f[op.p].effective, f[c].labels)
  }

  /** What `c` inherited the last time it was given to a parent, whether that one kept it or
      refused it; nothing if it never was. */
  function Inherited<I(==)>(ops: seq<Op<I>>, c: I): Labels {
    if ops == [] then []
    else
      var f, op := Run(ops[..|ops| - 1]), ops[|ops| - 1];
      if Adopts(f, op, c) then f[op.p].effective else Inherited(ops[..|ops| - 1], c)
  }

  ghost predicate InheritsIn<I>(f: Forest<I>, c: I, inherited: Labels)
    requires c in f
  {
    f[c].effective == inherited + f[c].labels
  }

  lemma {:induction false} AdoptedInherits<I>(f: Forest<I>, op: Op<I>, c: I)
    requires Sound(f) && Adopts(f, op, c)
    ensures c in After(f, op) && InheritsIn(After(f, op), c, f[op.p].effective)
  {
    assert AboveOk(f, c);
    ExtendedApart(f[op.p].effective, f[c].labels);
  }

  /** Nothing else touches a component's labels. */
  lemma {:induction false} LabelsStay<I>(f: Forest<I>, op: Op<I>, c: I)
    requires c in f && Allowed(f, op) && !Adopts(f, op, c)
    ensures c in After(f, op) && After(f, op)[c].labels == f[c].labels && After(f, op)[c].effective == f[c].effective
  {
  }

  lemma {:induction false} NothingInherited<I>(ops: seq<Op<I>>, c: I)
    requires RunAllowed(ops) && c !in Run(ops)
    ensures Inherited(ops, c) == []
  {
    if ops != [] {
      var init := ops[..|ops| - 1];
      assert c !in Run(init);
      NothingInherited(init, c);
    }
  }

  /** In every run, effective labels are what was inherited at the last attachment, then the own. */
  lemma {:induction false} RunInherits<I>(ops: seq<Op<I>>, c: I)
    requires RunAllowed(ops) && c in Run(ops)
    ensures InheritsIn(Run(ops), c, Inherited(ops, c))
  {
    var init, op := ops[..|ops| - 1], ops[|ops| - 1];
    var f := Run(init);
    RunSound(init);
    if Adopts(f, op, c) {
      AdoptedInherits(f, op, c);
    } else if c in f {
      RunInherits(init, c);
      LabelsStay(f, op, c);
    } else {
      NothingInherited(init, c);
      assert op.Create? && op.c == c;
      assert Inherited(ops, c) == [] && [] + op.labels == op.labels;
    }
  }

  /** In every run, a component's effective labels are the own labels along its path if and only
      if its root was never given to a parent, or last to one without effective labels; and no
      name occurs twice among them. */
  lemma {:induction false} EffectiveLabels<I>(ops: seq<Op<I>>, c: I)
    requires RunAllowed(ops) && c in Run(ops)
    ensures Sound(Run(ops))
    ensures var f := Run(ops);
      (f[c].effective == OwnAlong(f, c) <==> Inherited(ops, RootOf(f, c)) == []) && Distinct(f[c].effective)
  {
    RunSound(ops);
    var f := Run(ops);
    var root := RootOf(f, c);
    EffectiveFromRoot(f, c);
    RunInherits(ops, root);
    NoPrefix(Inherited(ops, root), f[root].labels);
  }

  lemma {:induction false} NoPrefix<T>(x: seq<T>, y: seq<T>)
    ensures x + y == y <==> x == []
  {
    if x == [] {
      assert x + y == y;
    } else {
      assert |x + y| > |y|;
    }
  }

  // ---------------------------------------------------------------------
  // Runs that only grow the tree
  // ---------------------------------------------------------------------

  /** Nothing is detached and no attachment is refused for a live sibling. */
  ghost predicate OnlyGrows<I>(ops: seq<Op<I>>) {
    ops == [] ||
    (OnlyGrows(ops[..|ops| - 1]) &&
     var f, op := Run(ops[..|ops| - 1]), ops[|ops| - 1];
     !op.Detach? && (op.Attach? && op.p in f && op.c in f && op.c != op.p ==> AttachTo(f, op.p, op.c).1 != SiblingAlive))
  }

  lemma {:induction false} StaysChild<I>(f: Forest<I>, op: Op<I>, c: I)
    requires Allowed(f, op) && !op.Detach? && c in f && IsChild(f, c)
    ensures c in After(f, op) && IsChild(After(f, op), c)
  {
    var p := f[c].parent.value;
    var g := After(f, op);
    assert c in g && p in g && g[c].parent == Some(p);
    assert f[p].children <= g[p].children;
    var i :| 0 <= i < |f[p].children| && f[p].children[i] == c;
    assert g[p].children[i] == c;
  }

  lemma {:induction false} BecomesChild<I>(f: Forest<I>, op: Op<I>, c: I)
    requires Adopts(f, op, c) && AttachTo(f, op.p, c).1 != SiblingAlive
    ensures c in After(f, op) && IsChild(After(f, op), c)
  {
    var g := After(f, op);
    assert g[op.p].children == f[op.p].children + [c];
  }

  lemma {:induction false} RootsInheritNothing<I>(ops: seq<Op<I>>, c: I)
    requires RunAllowed(ops) && OnlyGrows(ops) && c in Run(ops)
    ensures IsChild(Run(ops), c) || Inherited(ops, c) == []
  {
    var init, op := ops[..|ops| - 1], ops[|ops| - 1];
    var f := Run(init);
    if Adopts(f, op, c) {
      BecomesChild(f, op, c);
    } else if c in f {
      RootsInheritNothing(init, c);
      if IsChild(f, c) {
        StaysChild(f, op, c);
      }
    } else {
      NothingInherited(init, c);
    }
  }

  /** While the tree only grows, effective labels are the own labels along the path. */
  lemma {:induction false} GrowingTreeLabels<I>(ops: seq<Op<I>>, c: I)
    requires RunAllowed(ops) && OnlyGrows(ops) && c in Run(ops)
    ensures Sound(Run(ops)) && Run(ops)[c].effective == OwnAlong(Run(ops), c)
  {
    EffectiveLabels(ops, c);
    var root := RootOf(Run(ops), c);
    RootIsNoChild(Run(ops), c);
    RootsInheritNothing(ops, root);
  }

  lemma {:induction false} RootIsNoChild<I>(f: Forest<I>, c: I)
    requires Sound(f) && c in f
    ensures !IsChild(f, RootOf(f, c))
    decreases f[c].depth
  {
    if IsChild(f, c) {
      assert AboveOk(f, c);
      RootIsNoChild(f, f[c].parent.value);
    }
  }

  // ---------------------------------------------------------------------
  // A run where they are not
  // ---------------------------------------------------------------------

  const ABOVE: Labels := [Entry("session", "s1")]
  const BELOW: Labels := [Entry("phase", "p1")]

  /** A component is attached under a labelled one and detached again. */
  function DetachRun(): seq<Op<nat>> {
    [Create(0, ABOVE), Create(1, BELOW), Attach(0, 1), Detach(0, 1)]
  }

  lemma {:induction false} Unfold<I>(ops: seq<Op<I>>, op: Op<I>, c: I)
    ensures Run(ops + [op]) == After(Run(ops), op)
    ensures RunAllowed(ops + [op]) <==> RunAllowed(ops) && Allowed(Run(ops), op)
    ensures Inherited(ops + [op], c) == if Adopts(Run(ops), op, c) then Run(ops)[op.p].effective else Inherited(ops, c)
  {
    assert (ops + [op])[..|ops|] == ops;
  }

  /** It is then a root that still has the labels it inherited. */
  lemma {:induction false} StaleAfterDetach()
    ensures RunAllowed(DetachRun()) && Inherited(DetachRun(), 1) == ABOVE
    ensures var f := Run(DetachRun()); 1 in f && !IsChild(f, 1) && f[1].effective == ABOVE + BELOW && f[1].labels == BELOW
  {
    var none: seq<Op<nat>> := [];
    var one := none + [Create(0, ABOVE)];
    var two := one + [Create(1, BELOW)];
    var three := two + [Attach(0, 1)];
    Unfold(none, Create(0, ABOVE), 1);
    Unfold(one, Create(1, BELOW), 1);
    Unfold(two, Attach(0, 1), 1);
    Unfold(three, Detach(0, 1), 1);
    assert DetachRun() == three + [Detach(0, 1)];
    var f := Run(two);
    assert Keys(ABOVE) == ["session"];
    assert Apart(ABOVE, BELOW);
    assert Adopts(f, Attach(0, 1), 1);
    ExtendedApart(ABOVE, BELOW);
  }
}
