/** Dimensional label sets. */
module Labels {
  import opened Keyed

  /** Pairs in insertion order; two label sets are equal only if their orders agree too. */
  type Labels = seq<Entry<string, string>>

  const NEWER: (string, string) -> string := (older, newer) => newer

  /** `Labels::with`: overwrite the value under the key in place, or append the pair. */
  method With(labels: Labels, key: string, value: string) returns (r: Labels)
    ensures r == Upsert(labels, Entry(key, value), NEWER)
  {
    var pos := 0;
    while pos < |labels| && labels[pos].key != key
      invariant pos <= |labels| && forall j :: 0 <= j < pos ==> labels[j].key != key
    {
      pos := pos + 1;
    }
    assert pos == Position(labels, key);
    if pos < |labels| {
      r := labels[pos := Entry(key, value)];
    } else {
      r := labels + [Entry(key, value)];
    }
  }

  /** `Labels::extend`: the child's pairs on top of the parent's, the child winning. */
  method Extend(parent: Labels, child: Labels) returns (r: Labels)
    ensures r == Extended(parent, child)
  {
    r := parent;
    for i := 0 to |child|
      invariant r == Merge(parent, child[..i], NEWER)
    {
      assert child[..i + 1][..i] == child[..i];
      r := With(r, child[i].key, child[i].val);
    }
    assert child[..|child|] == child;
  }

  function Extended(parent: Labels, child: Labels): Labels {
    Merge(parent, child, NEWER)
  }

  /** A name the child sets has the child's value, any other the parent's; keys stay unique,
      the parent's first. */
  lemma {:induction false} ExtendedSpec(parent: Labels, child: Labels, key: string)
    requires Distinct(parent) && Distinct(child)
    ensures var r := Extended(parent, child);
      Distinct(r) && Keys(r) == Keys(parent) + Fresh(Keys(child), Keys(parent)) &&
      Lookup(r, key) == if Lookup(child, key).Some? then Lookup(child, key) else Lookup(parent, key)
  {
    MergeSpec(parent, child, NEWER, key);
  }
}
