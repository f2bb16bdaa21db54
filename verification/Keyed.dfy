/** Insertion-ordered association lists: the shape shared by label sets, the
    families of a snapshot, the series of a family and the states of a state set.
    All of them are vectors searched by key, where an incoming entry either
    combines with the entry already there or goes to the end. */
module Keyed {
  import opened Wrappers

  datatype Entry<K, V> = Entry(key: K, val: V)

  ghost predicate Distinct<K, V>(s: seq<Entry<K, V>>) {
    forall i, j :: 0 <= i < j < |s| ==> s[i].key != s[j].key
  }

  function Keys<K, V>(s: seq<Entry<K, V>>): (r: seq<K>)
    ensures |r| == |s| && forall i :: 0 <= i < |s| ==> r[i] == s[i].key
  {
    seq(|s|, i requires 0 <= i < |s| => s[i].key)
  }

  /** Index of the first entry under `k`, or the length when there is none. */
  function Position<K(==), V>(s: seq<Entry<K, V>>, k: K): (i: nat)
    ensures i <= |s|
    ensures i < |s| ==> s[i].key == k
    ensures forall j :: 0 <= j < i ==> s[j].key != k
  {
    if s == [] || s[0].key == k then 0 else 1 + Position(s[1..], k)
  }

  function Lookup<K(==), V>(s: seq<Entry<K, V>>, k: K): Option<V> {
    var i := Position(s, k);
    if i < |s| then Some(s[i].val) else None
  }

  /** Combine `e` into the entry with its key, or append it. */
  function Upsert<K(==), V>(s: seq<Entry<K, V>>, e: Entry<K, V>, f: (V, V) -> V): seq<Entry<K, V>> {
    var i := Position(s, e.key);
    if i < |s| then s[i := Entry(e.key, f(s[i].val, e.val))] else s + [e]
  }

  /** Upsert every entry of `b`, in order. */
  function Merge<K(==), V>(a: seq<Entry<K, V>>, b: seq<Entry<K, V>>, f: (V, V) -> V): seq<Entry<K, V>> {
    if b == [] then a else Upsert(Merge(a, b[..|b| - 1], f), b[|b| - 1], f)
  }

  /** The elements of `s` not already in `seen`, in order. */
  ghost function Fresh<K(!new)>(s: seq<K>, seen: seq<K>): (r: seq<K>)
    ensures forall x :: x in r <==> x in s && x !in seen
  {
    if s == [] then []
    else
      var last := s[|s| - 1];
      var rest := Fresh(s[..|s| - 1], seen);
      assert s == s[..|s| - 1] + [last];
      if last in seen then rest else rest + [last]
  }

  ghost function Both<V>(x: Option<V>, y: Option<V>, f: (V, V) -> V): Option<V> {
    if x.None? then y else if y.None? then x else Some(f(x.value, y.value))
  }

  lemma {:induction false} LookupAt<K, V>(s: seq<Entry<K, V>>, i: nat)
    requires Distinct(s) && i < |s|
    ensures Position(s, s[i].key) == i && Lookup(s, s[i].key) == Some(s[i].val)
  {
  }

  lemma {:induction false} LookupIn<K, V>(s: seq<Entry<K, V>>, k: K)
    ensures Lookup(s, k).Some? <==> k in Keys(s)
  {
    var i := Position(s, k);
    if i < |s| {
      assert Keys(s)[i] == k;
    }
  }

  /** Same keys in the same order and the same value under each key: the same list. */
  lemma {:induction false} Extensionality<K(!new), V>(a: seq<Entry<K, V>>, b: seq<Entry<K, V>>)
    requires Distinct(a) && Distinct(b) && Keys(a) == Keys(b)
    requires forall k :: k in Keys(a) ==> Lookup(a, k) == Lookup(b, k)
    ensures a == b
  {
    assert |a| == |Keys(a)| == |b|;
    forall i | 0 <= i < |a|
      ensures a[i] == b[i]
    {
      assert Keys(a)[i] == a[i].key == b[i].key;
      assert a[i].key in Keys(a);
      LookupAt(a, i);
      LookupAt(b, i);
    }
  }

  lemma {:induction false} UpsertKeys<K, V>(s: seq<Entry<K, V>>, e: Entry<K, V>, f: (V, V) -> V)
    requires Distinct(s)
    ensures Distinct(Upsert(s, e, f))
    ensures Keys(Upsert(s, e, f)) == Keys(s) + if e.key in Keys(s) then [] else [e.key]
  {
    LookupIn(s, e.key);
  }

  lemma {:induction false} UpsertLookup<K, V>(s: seq<Entry<K, V>>, e: Entry<K, V>, f: (V, V) -> V, k: K)
    requires Distinct(s)
    ensures Lookup(Upsert(s, e, f), k) ==
            if k == e.key then Both(Lookup(s, k), Some(e.val), f) else Lookup(s, k)
  {
    var u := Upsert(s, e, f);
    var i, j := Position(s, e.key), Position(s, k);
    UpsertKeys(s, e, f);
    if k == e.key {
      LookupAt(u, i);
    } else if j < |s| {
      assert u[j] == s[j];
      LookupAt(u, j);
    } else {
      assert forall m :: 0 <= m < |u| ==> u[m].key != k;
    }
  }

  lemma {:induction false} LookupSnoc<K, V>(init: seq<Entry<K, V>>, e: Entry<K, V>, k: K)
    requires Distinct(init + [e])
    ensures Distinct(init) && Lookup(init, e.key).None? && e.key !in Keys(init)
    ensures Keys(init + [e]) == Keys(init) + [e.key]
    ensures Lookup(init + [e], k) == if k == e.key then Some(e.val) else Lookup(init, k)
  {
    var s := init + [e];
    assert forall i :: 0 <= i < |init| ==> s[i] == init[i] && s[i].key != s[|init|].key;
    if k == e.key {
      LookupAt(s, |init|);
    } else {
      var j := Position(init, k);
      if j < |init| {
        LookupAt(s, j);
      }
    }
  }

  lemma {:induction false} MergeKeys<K(!new), V>(a: seq<Entry<K, V>>, b: seq<Entry<K, V>>, f: (V, V) -> V)
    requires Distinct(a) && Distinct(b)
    ensures Distinct(Merge(a, b, f))
    ensures Keys(Merge(a, b, f)) == Keys(a) + Fresh(Keys(b), Keys(a))
  {
    if b != [] {
      var init, e := b[..|b| - 1], b[|b| - 1];
      assert b == init + [e];
      LookupSnoc(init, e, e.key);
      MergeKeys(a, init, f);
      UpsertKeys(Merge(a, init, f), e, f);
      assert Keys(b)[..|b| - 1] == Keys(init);
    }
  }

  lemma {:induction false} MergeLookup<K(!new), V>(a: seq<Entry<K, V>>, b: seq<Entry<K, V>>, f: (V, V) -> V, k: K)
    requires Distinct(a) && Distinct(b)
    ensures Lookup(Merge(a, b, f), k) == Both(Lookup(a, k), Lookup(b, k), f)
  {
    if b != [] {
      var init, e := b[..|b| - 1], b[|b| - 1];
      assert b == init + [e];
      LookupSnoc(init, e, k);
      MergeLookup(a, init, f, k);
      MergeKeys(a, init, f);
      UpsertLookup(Merge(a, init, f), e, f, k);
    }
  }

  /** What a merge is, entry by entry and in order. */
  lemma {:induction false} MergeSpec<K(!new), V>(a: seq<Entry<K, V>>, b: seq<Entry<K, V>>, f: (V, V) -> V, k: K)
    requires Distinct(a) && Distinct(b)
    ensures Distinct(Merge(a, b, f))
    ensures Lookup(Merge(a, b, f), k) == Both(Lookup(a, k), Lookup(b, k), f)
    ensures Keys(Merge(a, b, f)) == Keys(a) + Fresh(Keys(b), Keys(a))
  {
    MergeKeys(a, b, f);
    MergeLookup(a, b, f, k);
  }

  lemma {:induction false} FreshAppend<K(!new)>(x: seq<K>, y: seq<K>, seen: seq<K>)
    ensures Fresh(x + y, seen) == Fresh(x, seen) + Fresh(y, seen)
  {
    if y == [] {
      assert x + y == x;
    } else {
      assert (x + y)[..|x + y| - 1] == x + y[..|y| - 1];
      FreshAppend(x, y[..|y| - 1], seen);
    }
  }

  lemma {:induction false} FreshFresh<K(!new)>(s: seq<K>, inner: seq<K>, outer: seq<K>, all: seq<K>)
    requires forall x :: x in all <==> x in inner || x in outer
    ensures Fresh(Fresh(s, inner), outer) == Fresh(s, all)
  {
    if s != [] {
      FreshFresh(s[..|s| - 1], inner, outer, all);
      FreshAppend(Fresh(s[..|s| - 1], inner), [s[|s| - 1]], outer);
    }
  }

  /** The combiner is associative on the values the three lists hold under `k`. */
  ghost predicate AssociativeAt<K, V>(a: seq<Entry<K, V>>, b: seq<Entry<K, V>>, c: seq<Entry<K, V>>,
                                      f: (V, V) -> V, k: K)
  {
    var x, y, z := Lookup(a, k), Lookup(b, k), Lookup(c, k);
    x.Some? && y.Some? && z.Some? ==>
      f(f(x.value, y.value), z.value) == f(x.value, f(y.value, z.value))
  }

  lemma {:induction false} AppendAssociative<T>(x: seq<T>, y: seq<T>, z: seq<T>)
    ensures (x + y) + z == x + (y + z)
  {
  }

  lemma {:induction false} UnionAssociative<K(!new)>(a: seq<K>, b: seq<K>, c: seq<K>)
    ensures (a + Fresh(b, a)) + Fresh(c, a + Fresh(b, a)) == a + Fresh(b + Fresh(c, b), a)
  {
    var ab := a + Fresh(b, a);
    FreshAppend(b, Fresh(c, b), a);
    FreshFresh(c, b, a, ab);
    AppendAssociative(a, Fresh(b, a), Fresh(c, ab));
  }

  lemma {:induction false} MergeKeysAssociative<K(!new), V>(a: seq<Entry<K, V>>, b: seq<Entry<K, V>>, c: seq<Entry<K, V>>,
                                         f: (V, V) -> V)
    requires Distinct(a) && Distinct(b) && Distinct(c)
    ensures Distinct(Merge(Merge(a, b, f), c, f)) && Distinct(Merge(a, Merge(b, c, f), f))
    ensures Keys(Merge(Merge(a, b, f), c, f)) == Keys(Merge(a, Merge(b, c, f), f))
  {
    MergeKeys(a, b, f);
    MergeKeys(b, c, f);
    MergeKeys(Merge(a, b, f), c, f);
    MergeKeys(a, Merge(b, c, f), f);
    UnionAssociative(Keys(a), Keys(b), Keys(c));
  }

  lemma {:induction false} MergeLookupAssociative<K(!new), V>(a: seq<Entry<K, V>>, b: seq<Entry<K, V>>, c: seq<Entry<K, V>>,
                                           f: (V, V) -> V, k: K)
    requires Distinct(a) && Distinct(b) && Distinct(c)
    requires AssociativeAt(a, b, c, f, k)
    ensures Lookup(Merge(Merge(a, b, f), c, f), k) == Lookup(Merge(a, Merge(b, c, f), f), k)
  {
    var ab, bc := Merge(a, b, f), Merge(b, c, f);
    MergeSpec(a, b, f, k);
    MergeSpec(b, c, f, k);
    MergeSpec(ab, c, f, k);
    MergeSpec(a, bc, f, k);
  }

  /** Merging is associative as soon as the combiner is, on each key's own values. */
  lemma {:induction false} MergeAssociative<K(!new), V>(a: seq<Entry<K, V>>, b: seq<Entry<K, V>>, c: seq<Entry<K, V>>, f: (V, V) -> V)
    requires Distinct(a) && Distinct(b) && Distinct(c)
    requires forall k :: AssociativeAt(a, b, c, f, k)
    ensures Merge(Merge(a, b, f), c, f) == Merge(a, Merge(b, c, f), f)
  {
    var left, right := Merge(Merge(a, b, f), c, f), Merge(a, Merge(b, c, f), f);
    forall k
      ensures Lookup(left, k) == Lookup(right, k)
    {
      MergeLookupAssociative(a, b, c, f, k);
    }
    MergeKeysAssociative(a, b, c, f);
    Extensionality(left, right);
  }
}
