/** Exemplars riding along when points are combined. They compare the points' timestamps, not
    their own; while every point has a timestamp and they do not decrease, the outcome does not
    depend on grouping. */
module Exemplars {
  import opened Wrappers
  import opened Snapshot

  /** A point as far as its exemplar is concerned. */
  datatype Carrier<E> = Carrier(exemplar: Option<E>, at: Option<Instant>)

  /** `pick_more_recent_exemplar`. */
  function Pick<E>(a: Option<E>, b: Option<E>, aAt: Option<Instant>, bAt: Option<Instant>): Option<E> {
    if a.None? then b
    else if b.None? then a
    else if bAt.Some? && (aAt.None? || bAt.value >= aAt.value) then b
    else a
  }

  function Combined<E>(a: Carrier<E>, b: Carrier<E>): Carrier<E> {
    Carrier(Pick(a.exemplar, b.exemplar, a.at, b.at), Latest(a.at, b.at))
  }

  function Fold<E>(xs: seq<Carrier<E>>): Carrier<E>
    requires xs != []
  {
    if |xs| == 1 then xs[0] else Combined(Fold(xs[..|xs| - 1]), xs[|xs| - 1])
  }

  ghost predicate InOrder<E>(xs: seq<Carrier<E>>) {
    (forall i :: 0 <= i < |xs| ==> xs[i].at.Some?) &&
    forall i, j :: 0 <= i < j < |xs| ==> xs[i].at.value <= xs[j].at.value
  }

  /** The exemplar of the last point that has one. */
  function LastExemplar<E>(xs: seq<Carrier<E>>): Option<E> {
    if xs == [] then None
    else if xs[|xs| - 1].exemplar.Some? then xs[|xs| - 1].exemplar
    else LastExemplar(xs[..|xs| - 1])
  }

  lemma {:induction false} FoldKeepsLast<E>(xs: seq<Carrier<E>>)
    requires xs != [] && InOrder(xs)
    ensures Fold(xs) == Carrier(LastExemplar(xs), xs[|xs| - 1].at)
  {
    if |xs| > 1 {
      FoldKeepsLast(xs[..|xs| - 1]);
    } else {
      assert xs[..0] == [];
    }
  }

  lemma {:induction false} LastOfConcat<E>(xs: seq<Carrier<E>>, ys: seq<Carrier<E>>)
    ensures LastExemplar(xs + ys) == if LastExemplar(ys).Some? then LastExemplar(ys) else LastExemplar(xs)
  {
    if ys == [] {
      assert xs + ys == xs;
    } else {
      LastOfConcat(xs, ys[..|ys| - 1]);
      assert (xs + ys)[..|xs + ys| - 1] == xs + ys[..|ys| - 1];
    }
  }

  /** In order, combining the folds of two groups is folding both together. */
  lemma {:induction false} FoldOfTwo<E>(xs: seq<Carrier<E>>, ys: seq<Carrier<E>>)
    requires xs != [] && ys != [] && InOrder(xs + ys)
    ensures Fold(xs + ys) == Combined(Fold(xs), Fold(ys))
  {
    var all := xs + ys;
    assert forall i :: 0 <= i < |xs| ==> all[i] == xs[i];
    assert forall i :: 0 <= i < |ys| ==> all[|xs| + i] == ys[i];
    FoldKeepsLast(all);
    FoldKeepsLast(xs);
    FoldKeepsLast(ys);
    LastOfConcat(xs, ys);
    assert all[|xs| - 1].at.value <= all[|all| - 1].at.value;
  }

  function FoldEach<E>(groups: seq<seq<Carrier<E>>>): (r: seq<Carrier<E>>)
    requires forall i :: 0 <= i < |groups| ==> groups[i] != []
    ensures |r| == |groups| && forall i :: 0 <= i < |groups| ==> r[i] == Fold(groups[i])
  {
    seq(|groups|, i requires 0 <= i < |groups| => Fold(groups[i]))
  }

  lemma {:induction false} InOrderPrefix<E>(xs: seq<Carrier<E>>, ys: seq<Carrier<E>>)
    requires InOrder(xs + ys)
    ensures InOrder(xs)
  {
    var all := xs + ys;
    assert forall i :: 0 <= i < |xs| ==> all[i] == xs[i];
  }

  /** In order, folding the folds of any groups is folding everything. */
  lemma {:induction false} FoldOfGroups<E>(groups: seq<seq<Carrier<E>>>)
    requires groups != [] && forall i :: 0 <= i < |groups| ==> groups[i] != []
    requires InOrder(Flatten(groups))
    ensures Flatten(groups) != [] && Fold(FoldEach(groups)) == Fold(Flatten(groups))
  {
    var n := |groups| - 1;
    var init, last := groups[..n], groups[n];
    if n == 0 {
      assert Flatten(groups) == [] + last == last;
    } else {
      InOrderPrefix(Flatten(init), last);
      FoldOfGroups(init);
      assert FoldEach(groups)[..n] == FoldEach(init);
      FoldOfTwo(Flatten(init), last);
    }
  }

  /** Out of order the grouping can show: with an old point between two newer ones, and with a
      point that has no time before one that has. */
  lemma {:induction false} GroupingShows()
    ensures var x, y, z: Carrier<nat> := Carrier(Some(1), Some(2)), Carrier(Some(2), Some(1)), Carrier(None, Some(3));
      Combined(Combined(x, y), z) != Combined(x, Combined(y, z))
    ensures var x, y, z: Carrier<nat> := Carrier(Some(1), None), Carrier(Some(2), None), Carrier(None, Some(3));
      Combined(Combined(x, y), z) != Combined(x, Combined(y, z))
  {
  }
}
