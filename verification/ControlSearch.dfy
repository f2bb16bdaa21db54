/** What the search up the tree for a control finds: of the component's own declaration and its
    ancestors' subtree-scoped ones, the nearest. */
module ControlSearch {
  import opened Wrappers
  import opened ComponentTree

  /** The component `d` levels up. */
  ghost function Up<I>(f: Forest<I>, c: I, d: nat): (r: Option<I>)
    requires Sound(f) && c in f
    ensures r.Some? ==> r.value in f
    decreases d
  {
    if d == 0 then Some(c)
    else if f[c].parent.Some? then assert AboveOk(f, c); Up(f, f[c].parent.value, d - 1)
    else None
  }

  /** The component `d` levels up declares the control for its subtree. */
  ghost predicate Offers<I>(f: Forest<I>, c: I, d: nat, name: string)
    requires Sound(f) && c in f
  {
    Up(f, c, d).Some? && name in f[Up(f, c, d).value].controls &&
    f[Up(f, c, d).value].controls[name].scope == Subtree
  }

  /** It is seen from `c`: declared by `c` itself, or above it for a subtree. */
  ghost predicate Visible<I>(f: Forest<I>, c: I, d: nat, name: string)
    requires Sound(f) && c in f
  {
    if d == 0 then name in f[c].controls else Offers(f, c, d, name)
  }

  ghost predicate NearestOffer<I>(f: Forest<I>, c: I, d: nat, name: string)
    requires Sound(f) && c in f
  {
    Offers(f, c, d, name) && forall e: nat :: e < d ==> !Offers(f, c, e, name)
  }

  ghost predicate Nearest<I>(f: Forest<I>, c: I, d: nat, name: string)
    requires Sound(f) && c in f
  {
    Visible(f, c, d, name) && forall e: nat :: e < d ==> !Visible(f, c, e, name)
  }

  /** No component is further up than the root. */
  lemma {:induction false} UpParent<I>(f: Forest<I>, c: I, d: nat)
    requires Sound(f) && c in f
    ensures f[c].parent.Some? ==> f[c].parent.value in f && Up(f, c, d + 1) == Up(f, f[c].parent.value, d)
    ensures f[c].parent.None? ==> Up(f, c, d + 1) == None
  {
    assert AboveOk(f, c);
  }

  lemma {:induction false} FindAboveNearest<I>(f: Forest<I>, c: I, name: string) returns (d: nat)
    requires Sound(f) && c in f
    ensures FindAbove(f, c, name).Some? ==>
              NearestOffer(f, c, d, name) && FindAbove(f, c, name).value == f[Up(f, c, d).value].controls[name]
    ensures FindAbove(f, c, name).None? ==> forall e: nat :: !Offers(f, c, e, name)
    decreases f[c].depth
  {
    d := 0;
    if !Offers(f, c, 0, name) {
      assert AboveOk(f, c);
      if f[c].parent.Some? {
        var p := f[c].parent.value;
        var up := FindAboveNearest(f, p, name);
        d := up + 1;
        forall e: nat
          ensures e > 0 ==> (Offers(f, c, e, name) <==> Offers(f, p, e - 1, name))
        {
          if e > 0 {
            UpParent(f, c, e - 1);
          }
        }
        assert Offers(f, c, up + 1, name) <==> Offers(f, p, up, name);
      } else {
        forall e: nat
          ensures !Offers(f, c, e, name)
        {
          if e > 0 {
            UpParent(f, c, e - 1);
          }
        }
      }
    }
  }

  /** The search finds a control exactly when one is visible, and then the nearest. */
  lemma {:induction false} FindUpNearest<I>(f: Forest<I>, c: I, name: string) returns (d: nat)
    requires Sound(f) && c in f
    ensures FindUp(f, c, name).Some? <==> exists e: nat :: Visible(f, c, e, name)
    ensures FindUp(f, c, name).Some? ==>
              Nearest(f, c, d, name) && Up(f, c, d).Some? && name in f[Up(f, c, d).value].controls &&
              FindUp(f, c, name) == Some(f[Up(f, c, d).value].controls[name])
  {
    d := 0;
    if name in f[c].controls {
      assert Visible(f, c, 0, name);
    } else {
      assert AboveOk(f, c);
      if f[c].parent.Some? {
        var p := f[c].parent.value;
        var up := FindAboveNearest(f, p, name);
        d := up + 1;
        forall e: nat
          ensures e > 0 ==> (Visible(f, c, e, name) <==> Offers(f, p, e - 1, name))
        {
          if e > 0 {
            UpParent(f, c, e - 1);
          }
        }
        UpParent(f, c, up);
        assert Visible(f, c, up + 1, name) <==> Offers(f, p, up, name);
      } else {
        forall e: nat
          ensures !Visible(f, c, e, name)
        {
          if e > 0 {
            UpParent(f, c, e - 1);
          }
        }
      }
    }
  }
}
