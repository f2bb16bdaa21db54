/** The planner's promises: one pass is enough, and no layer gathers more than the cap's worth
    of the layer below if and only if the declared cadences can be bridged. */
module Planner {
  import opened Wrappers
  import opened Powers
  import opened CadenceTree
  import opened Gaps

  // ---------------------------------------------------------------------
  // Sorting
  // ---------------------------------------------------------------------

  function Insert(s: seq<nat>, x: nat): seq<nat> {
    if s == [] || x < s[0] then [x] + s
    else if x == s[0] then s
    else [s[0]] + Insert(s[1..], x)
  }

  lemma {:induction false} InsertStrict(s: seq<nat>, x: nat)
    requires Strict(s)
    ensures Strict(Insert(s, x)) && forall y :: y in Insert(s, x) <==> y == x || y in s
  {
    if s != [] && x > s[0] {
      InsertStrict(s[1..], x);
      var r := Insert(s[1..], x);
      forall j | 0 <= j < |r|
        ensures s[0] < r[j]
      {
        assert r[j] in r;
      }
      assert s == [s[0]] + s[1..];
    } else if s != [] {
      forall j | 0 <= j < |s|
        ensures s[0] <= s[j]
      {
      }
    }
  }

  /** `sort_unstable` then `dedup`. */
  method SortedDistinct(xs: seq<nat>) returns (r: seq<nat>)
    ensures Strict(r) && forall x :: x in r <==> x in xs
  {
    r := [];
    for i := 0 to |xs|
      invariant Strict(r) && forall x :: x in r <==> x in xs[..i]
    {
      InsertStrict(r, xs[i]);
      r := Insert(r, xs[i]);
      assert xs[..i + 1] == xs[..i] + [xs[i]];
    }
    assert xs[..|xs|] == xs;
  }

  lemma {:induction false} HeadLeast(s: seq<nat>, i: nat)
    requires Strict(s) && i < |s|
    ensures s[0] <= s[i]
  {
  }

  lemma {:induction false} StrictUnique(a: seq<nat>, b: seq<nat>)
    requires Strict(a) && Strict(b) && forall x :: x in a <==> x in b
    ensures a == b
  {
    if a == [] {
      assert forall i :: 0 <= i < |b| ==> b[i] in a;
    } else {
      assert a[0] in b;
      assert b != [] && b[0] in a;
      var i :| 0 <= i < |b| && b[i] == a[0];
      var j :| 0 <= j < |a| && a[j] == b[0];
      HeadLeast(b, i);
      HeadLeast(a, j);
      forall x
        ensures x in a[1..] <==> x in b[1..]
      {
        TailOf(a, x);
        TailOf(b, x);
      }
      StrictUnique(a[1..], b[1..]);
      assert a == [a[0]] + a[1..] && b == [b[0]] + b[1..];
    }
  }

  lemma {:induction false} TailOf(s: seq<nat>, x: nat)
    requires Strict(s) && s != []
    ensures x in s[1..] <==> x in s && x != s[0]
  {
    assert s == [s[0]] + s[1..];
    if x in s[1..] {
      var i :| 0 <= i < |s[1..]| && s[1..][i] == x;
      assert s[i + 1] == x;
    }
  }

  // ---------------------------------------------------------------------
  // The planner
  // ---------------------------------------------------------------------

  /** `synthesize_intermediates`. The second pass never changes anything, so the limit on
      their number is never reached. */
  method Synthesize(declared: seq<Duration>, k: nat) returns (layers: seq<Duration>)
    requires Strict(declared) && forall i :: 0 <= i < |declared| ==> declared[i] > 0
    ensures k < 2 || |declared| < 2 ==> layers == declared
    ensures k >= 2 && |declared| >= 2 ==> Extends(layers, declared) && SettledTo(layers, |layers|, k)
    ensures SettledTo(declared, |declared|, k) ==> layers == declared
    ensures Derived(declared, layers, k)
  {
    layers := declared;
    DerivedItself(declared, k);
    if k < 2 || |declared| < 2 {
      return;
    }
    for round := 0 to 8
      invariant Extends(layers, declared) && SettledTo(layers, 0, k)
      invariant round <= 1 && (round == 1 ==> SettledTo(layers, |layers|, k))
      invariant SettledTo(declared, |declared|, k) ==> layers == declared
      invariant Derived(declared, layers, k)
    {
      var changed;
      layers, changed := Pass(layers, k, declared);
      if !changed {
        break;
      }
    }
    var sorted := SortedDistinct(layers);
    StrictUnique(sorted, layers);
    layers := sorted;
  }

  function Intervals(tree: seq<Layer>): (r: seq<Duration>)
    ensures |r| == |tree| && forall i :: 0 <= i < |tree| ==> r[i] == tree[i].interval
  {
    seq(|tree|, i requires 0 <= i < |tree| => tree[i].interval)
  }

  /** Layers ascend; every declared cadence is one, unhidden; every other is hidden, a whole
      number of seconds, and strictly between two declared cadences. */
  ghost predicate Realizes(tree: seq<Layer>, declared: seq<Duration>) {
    Strict(Intervals(tree)) && (forall x :: x in declared ==> x in Intervals(tree)) &&
    (forall i :: 0 <= i < |tree| ==> (tree[i].hidden <==> tree[i].interval !in declared)) &&
    (forall i :: 0 <= i < |tree| && tree[i].hidden ==>
       Whole(tree[i].interval) && exists x, y :: x in declared && y in declared && x < tree[i].interval < y)
  }

  /** No layer gathers more than `k` windows of the layer below. */
  ghost predicate WithinCap(layers: seq<Duration>, k: nat) {
    forall i :: 0 <= i && i + 1 < |layers| ==> layers[i + 1] <= k * layers[i]
  }

  /** Two declared cadences with no other between them. */
  ghost predicate Neighbours(declared: seq<Duration>, x: Duration, y: Duration) {
    x in declared && y in declared && x < y && forall z :: z in declared ==> !(x < z < y)
  }

  /** The cap allows the one to feed the other; or the longer is over a second, and a layer of
      one second could be fed by the shorter. */
  predicate Bridgeable(x: Duration, y: Duration, k: nat) {
    y <= k * x || (y > SECOND && k * x >= SECOND)
  }

  /** Every two neighbouring declared cadences can be bridged. */
  ghost predicate Bridged(declared: seq<Duration>, k: nat) {
    forall x, y :: Neighbours(declared, x, y) ==> Bridgeable(x, y, k)
  }

  /** Whole-second cadences always can. */
  lemma {:induction false} WholeBridged(declared: seq<Duration>, k: nat)
    requires k >= 1 && forall x :: x in declared ==> x > 0 && Whole(x)
    ensures Bridged(declared, k)
  {
    forall x, y | Neighbours(declared, x, y)
      ensures Bridgeable(x, y, k)
    {
      WholeAtLeastSecond(x);
      Times(1, x, k, x);
    }
  }

  lemma {:induction false} WholeAtLeastSecond(x: Duration)
    requires x > 0 && Whole(x)
    ensures x >= SECOND
  {
  }

  lemma {:induction false} NextIndex(s: seq<Duration>, i: nat, y: Duration)
    requires Strict(s) && i < |s| && y in s && y > s[i]
    ensures i + 1 < |s| && s[i + 1] <= y
  {
    var j :| 0 <= j < |s| && s[j] == y;
    if j > i + 1 {
      assert s[i + 1] < s[j];
    }
  }

  /** Neighbours in the sorted list are neighbours as declared, and the other way round. */
  lemma {:induction false} SortedNeighbours(sorted: seq<Duration>, declared: seq<Duration>, i: nat)
    requires Strict(sorted) && i + 1 < |sorted| && forall x :: x in sorted <==> x in declared
    ensures Neighbours(declared, sorted[i], sorted[i + 1])
  {
    assert sorted[i] in sorted && sorted[i + 1] in sorted;
    forall z | z in declared
      ensures !(sorted[i] < z < sorted[i + 1])
    {
      assert z in sorted;
      if sorted[i] < z {
        NextIndex(sorted, i, z);
      }
    }
  }

  /** Where the planner stopped short of the cap the gap starts at a declared cadence, and its
      declared neighbours could not be bridged. */
  lemma {:induction false} WideIsUnbridged(layers: seq<Duration>, sorted: seq<Duration>, declared: seq<Duration>, k: nat, i: nat)
    requires Extends(layers, sorted) && SettledTo(layers, |layers|, k) && i + 1 < |layers|
    requires Strict(sorted) && forall x :: x in sorted <==> x in declared
    requires layers[i + 1] > k * layers[i]
    ensures !Bridged(declared, k)
  {
    var u, v := layers[i], layers[i + 1];
    UnsplittableIffSubSecond(u, v, k);
    assert u in layers && v <= layers[|layers| - 1];
    if u !in sorted {
      WholeAtLeastSecond(u);
    } else {
      var p :| 0 <= p < |sorted| && sorted[p] == u;
      assert sorted[|sorted| - 1] in sorted;
      NextIndex(sorted, p, sorted[|sorted| - 1]);
      SortedNeighbours(sorted, declared, p);
      var y := sorted[p + 1];
      assert y in sorted && y in layers;
      NextIndex(layers, i, y);
      assert !Bridgeable(u, y, k);
    }
  }

  /** Where declared neighbours could not be bridged the cap is not kept just above the shorter. */
  lemma {:induction false} UnbridgedIsWide(layers: seq<Duration>, sorted: seq<Duration>, declared: seq<Duration>, k: nat,
                                           x: Duration, y: Duration)
    requires Extends(layers, sorted) && SettledTo(layers, |layers|, k)
    requires forall z :: z in sorted <==> z in declared
    requires Neighbours(declared, x, y) && !Bridgeable(x, y, k)
    ensures !WithinCap(layers, k)
  {
    assert x in layers && y in layers;
    var i :| 0 <= i < |layers| && layers[i] == x;
    NextIndex(layers, i, y);
    var v := layers[i + 1];
    assert v in layers;
    if v !in sorted {
      WholeAtLeastSecond(v);
    }
    assert v > k * x;
  }

  lemma {:induction false} WithinCapIffBridged(layers: seq<Duration>, sorted: seq<Duration>, declared: seq<Duration>, k: nat)
    requires Extends(layers, sorted) && SettledTo(layers, |layers|, k)
    requires Strict(sorted) && forall x :: x in sorted <==> x in declared
    ensures WithinCap(layers, k) <==> Bridged(declared, k)
  {
    if !WithinCap(layers, k) {
      var i: nat :| i + 1 < |layers| && layers[i + 1] > k * layers[i];
      WideIsUnbridged(layers, sorted, declared, k, i);
    }
    if !Bridged(declared, k) {
      var x, y :| Neighbours(declared, x, y) && !Bridgeable(x, y, k);
      UnbridgedIsWide(layers, sorted, declared, k, x, y);
    }
  }

  /** An added layer is not an end, so it lies strictly between declared ones. */
  lemma {:induction false} AddedBetween(layers: seq<Duration>, sorted: seq<Duration>, i: nat)
    requires Extends(layers, sorted) && i < |layers| && layers[i] !in sorted
    ensures Whole(layers[i]) && sorted[0] < layers[i] < sorted[|sorted| - 1]
  {
    assert layers[i] in layers;
    assert sorted[0] in sorted && sorted[|sorted| - 1] in sorted;
  }

  method Realize(layers: seq<Duration>, declared: seq<Duration>) returns (tree: seq<Layer>)
    ensures Intervals(tree) == layers
    ensures forall i :: 0 <= i < |tree| ==> (tree[i].hidden <==> tree[i].interval !in declared)
  {
    tree := [];
    for i := 0 to |layers|
      invariant |tree| == i && forall j :: 0 <= j < i ==> tree[j] == Layer(layers[j], layers[j] !in declared)
    {
      tree := tree + [Layer(layers[i], layers[i] !in declared)];
    }
  }

  lemma {:induction false} ExtendedRealizes(tree: seq<Layer>, sorted: seq<Duration>, declared: seq<Duration>)
    requires Extends(Intervals(tree), sorted) && forall x :: x in sorted <==> x in declared
    requires forall i :: 0 <= i < |tree| ==> (tree[i].hidden <==> tree[i].interval !in declared)
    ensures Realizes(tree, declared)
  {
    forall i | 0 <= i < |tree| && tree[i].hidden
      ensures Whole(tree[i].interval) && exists x, y :: x in declared && y in declared && x < tree[i].interval < y
    {
      AddedBetween(Intervals(tree), sorted, i);
      assert sorted[0] in declared && sorted[|sorted| - 1] in declared;
    }
  }

  lemma {:induction false} SortedRealizes(tree: seq<Layer>, sorted: seq<Duration>, declared: seq<Duration>, k: nat)
    requires Strict(sorted) && Intervals(tree) == sorted && forall x :: x in sorted <==> x in declared
    requires forall i :: 0 <= i < |tree| ==> (tree[i].hidden <==> tree[i].interval !in declared)
    ensures Realizes(tree, declared) && forall i :: 0 <= i < |tree| ==> !tree[i].hidden
    ensures |sorted| < 2 ==> WithinCap(Intervals(tree), k) && Bridged(declared, k) && LeftAlone(declared, k)
  {
    assert forall i :: 0 <= i < |tree| ==> sorted[i] in sorted;
    assert forall x, y :: Neighbours(declared, x, y) ==> x in sorted && y in sorted;
  }

  predicate NoneHidden(tree: seq<Layer>) {
    forall i :: 0 <= i < |tree| ==> !tree[i].hidden
  }

  /** Between no two neighbouring declared cadences is there both need and room for a layer. */
  ghost predicate LeftAlone(declared: seq<Duration>, k: nat) {
    forall x: Duration, y: Duration :: Neighbours(declared, x, y) ==> y <= k * x || y <= SECOND
  }

  lemma {:induction false} SettledIffLeftAlone(sorted: seq<Duration>, declared: seq<Duration>, k: nat)
    requires Strict(sorted) && k >= 2 && forall x :: x in sorted <==> x in declared
    requires forall i :: 0 <= i < |sorted| ==> sorted[i] > 0
    ensures SettledTo(sorted, |sorted|, k) <==> LeftAlone(declared, k)
  {
    forall i | 0 <= i && i + 1 < |sorted|
      ensures Neighbours(declared, sorted[i], sorted[i + 1])
      ensures Settled(sorted[i], sorted[i + 1], k) <==> sorted[i + 1] <= k * sorted[i] || sorted[i + 1] <= SECOND
    {
      SortedNeighbours(sorted, declared, i);
      if sorted[i + 1] > k * sorted[i] {
        UnsplittableIffSubSecond(sorted[i], sorted[i + 1], k);
      }
    }
    forall x, y | Neighbours(declared, x, y)
      ensures exists i :: 0 <= i && i + 1 < |sorted| && x == sorted[i] && y == sorted[i + 1]
    {
      assert x in sorted && y in sorted;
      var i :| 0 <= i < |sorted| && sorted[i] == x;
      NextIndex(sorted, i, y);
      assert sorted[i + 1] in sorted;
    }
  }

  /** A plan without hidden layers has just the declared cadences. */
  lemma {:induction false} NoneHiddenIsDeclared(tree: seq<Layer>, sorted: seq<Duration>, declared: seq<Duration>)
    requires Realizes(tree, declared) && NoneHidden(tree)
    requires Strict(sorted) && forall x :: x in sorted <==> x in declared
    ensures Intervals(tree) == sorted
  {
    assert forall i :: 0 <= i < |tree| ==> Intervals(tree)[i] in declared;
    StrictUnique(Intervals(tree), sorted);
  }

  lemma {:induction false} DeclaredIsNoneHidden(tree: seq<Layer>, sorted: seq<Duration>, declared: seq<Duration>)
    requires Realizes(tree, declared) && Intervals(tree) == sorted && forall x :: x in sorted <==> x in declared
    ensures NoneHidden(tree)
  {
    assert forall i :: 0 <= i < |tree| ==> sorted[i] in sorted;
  }

  /** The planner adds a layer if and only if the declared cadences are not left alone. */
  lemma {:induction false} HiddenIff(tree: seq<Layer>, sorted: seq<Duration>, declared: seq<Duration>, k: nat)
    requires Realizes(tree, declared) && k >= 2 && SettledTo(Intervals(tree), |tree|, k)
    requires Strict(sorted) && (forall x :: x in sorted <==> x in declared) && forall i :: 0 <= i < |sorted| ==> sorted[i] > 0
    requires SettledTo(sorted, |sorted|, k) ==> Intervals(tree) == sorted
    ensures NoneHidden(tree) <==> LeftAlone(declared, k)
  {
    SettledIffLeftAlone(sorted, declared, k);
    if NoneHidden(tree) {
      NoneHiddenIsDeclared(tree, sorted, declared);
    }
    if SettledTo(sorted, |sorted|, k) {
      DeclaredIsNoneHidden(tree, sorted, declared);
    }
  }

  /** The layers are the declared cadences in order with gap after gap filled, each wider than the
      cap and with exactly what is chosen for it, until all are settled. */
  ghost predicate Planned(layers: seq<Duration>, declared: seq<Duration>, k: nat) {
    exists sorted :: Strict(sorted) && (forall x :: x in sorted <==> x in declared) && Derived(sorted, layers, k)
  }

  /** It was chosen for some gap wider than the cap between two of the layers. */
  ghost predicate ChosenBetween(x: Duration, layers: seq<Duration>, k: nat) {
    exists a, b :: a in layers && b in layers && a > 0 && k >= 2 && b > k * a && Chosen(x, a, b, k)
  }

  lemma {:induction false} FilledAdds(before: seq<Duration>, after: seq<Duration>, k: nat, x: Duration)
    requires Filled(before, after, k) && (forall y :: y in before ==> y in after)
    requires x in after
    ensures x in before || ChosenBetween(x, after, k)
  {
    var i: nat, inserts :| i + 1 < |before| && FilledAt(before, after, k, i, inserts);
    assert before == before[..i + 1] + before[i + 1..];
    assert before[i] in before && before[i + 1] in before;
  }

  lemma {:induction false} FilledKeeps(before: seq<Duration>, after: seq<Duration>, k: nat)
    requires Filled(before, after, k)
    ensures forall y :: y in before ==> y in after
  {
    var i: nat, inserts :| i + 1 < |before| && FilledAt(before, after, k, i, inserts);
    assert before == before[..i + 1] + before[i + 1..];
  }

  lemma {:induction false} StepsChoose(lists: seq<seq<Duration>>, k: nat, x: Duration)
    requires lists != [] && StepByStep(lists, k) && x in lists[|lists| - 1]
    ensures x in lists[0] || ChosenBetween(x, lists[|lists| - 1], k)
  {
    var n := |lists| - 1;
    if n > 0 {
      var before, after := lists[n - 1], lists[n];
      assert Filled(lists[n - 1], lists[n - 1 + 1], k);
      FilledKeeps(before, after, k);
      FilledAdds(before, after, k, x);
      if x in before {
        assert forall t :: 0 <= t && t + 1 < n ==> Filled(lists[t], lists[t + 1], k);
        StepsChoose(lists[..n], k, x);
      }
    }
  }

  /** Every layer that was not declared is what is chosen for a gap between two layers: the nicest
      duration of one of its cuts, or, where none of those lies inside, the fallback. */
  lemma {:induction false} HiddenIsChosen(layers: seq<Duration>, declared: seq<Duration>, k: nat, x: Duration)
    requires Planned(layers, declared, k) && x in layers
    ensures x in declared || ChosenBetween(x, layers, k)
  {
    var sorted :| Strict(sorted) && (forall y :: y in sorted <==> y in declared) && Derived(sorted, layers, k);
    var lists :| lists != [] && StepByStep(lists, k) && lists[0] == sorted && lists[|lists| - 1] == layers;
    StepsChoose(lists, k, x);
  }

  /** `CadenceTree::plan`, for any declared cadences. */
  method Plan(declared: seq<Duration>, k: nat) returns (tree: seq<Layer>)
    requires declared != [] && forall x :: x in declared ==> x > 0
    ensures Realizes(tree, declared)
    ensures k >= 2 ==> (WithinCap(Intervals(tree), k) <==> Bridged(declared, k))
    ensures NoneHidden(tree) <==> k < 2 || LeftAlone(declared, k)
    ensures Planned(Intervals(tree), declared, k)
    ensures k >= 2 ==> SettledTo(Intervals(tree), |tree|, k)
  {
    var sorted := SortedDistinct(declared);
    assert forall i :: 0 <= i < |sorted| ==> sorted[i] in sorted;
    assert declared[0] in declared;
    var layers := Synthesize(sorted, k);
    tree := Realize(layers, declared);
    if k >= 2 && |sorted| >= 2 {
      ExtendedRealizes(tree, sorted, declared);
      WithinCapIffBridged(layers, sorted, declared, k);
      HiddenIff(tree, sorted, declared, k);
    } else {
      SortedRealizes(tree, sorted, declared, k);
    }
  }

  /** Below a second the cap is not kept: 10ms and 900ms are planned 90 to 1. */
  method PlanTenMillis() returns (tree: seq<Layer>)
    ensures Intervals(tree) == [SECOND / 100, 9 * SECOND / 10] && !WithinCap(Intervals(tree), DEFAULT_MAX_FAN_IN)
  {
    var declared: seq<Duration> := [SECOND / 100, 9 * SECOND / 10];
    tree := Plan(declared, DEFAULT_MAX_FAN_IN);
    TenMillisLeftAlone();
    NoneHiddenIsDeclared(tree, declared, declared);
  }

  lemma {:induction false} TenMillisLeftAlone()
    ensures var declared := [SECOND / 100, 9 * SECOND / 10];
      LeftAlone(declared, DEFAULT_MAX_FAN_IN) && !Bridged(declared, DEFAULT_MAX_FAN_IN)
  {
    var x, y := SECOND / 100, 9 * SECOND / 10;
    assert Neighbours([x, y], x, y) && !Bridgeable(x, y, DEFAULT_MAX_FAN_IN);
  }

  datatype PlanError = BelowBase(cadence: Duration) | NotMultiple(cadence: Duration)

  predicate Fitting(c: Duration, base: Duration) {
    c >= base && base > 0 && c % base == 0
  }

  ghost predicate FirstMisfit(declared: seq<Duration>, base: Duration, i: nat) {
    i < |declared| && !Fitting(declared[i], base) && forall j :: 0 <= j < i ==> Fitting(declared[j], base)
  }

  function Complaint(c: Duration, base: Duration): PlanError {
    if c < base then BelowBase(c) else NotMultiple(c)
  }

  /** `CadenceTree::plan_validated`: the first cadence that does not fit the base is refused. */
  method PlanValidated(declared: seq<Duration>, k: nat, base: Duration) returns (r: Result<seq<Layer>, PlanError>)
    requires declared != [] && forall x :: x in declared ==> x > 0
    ensures r.Success? <==> forall x :: x in declared ==> Fitting(x, base)
    ensures r.Success? ==> Realizes(r.value, declared) &&
                           (k >= 2 ==> (WithinCap(Intervals(r.value), k) <==> Bridged(declared, k))) &&
                           (NoneHidden(r.value) <==> k < 2 || LeftAlone(declared, k)) &&
                           Planned(Intervals(r.value), declared, k)
    ensures r.Failure? ==> exists i: nat :: FirstMisfit(declared, base, i) && r.error == Complaint(declared[i], base)
  {
    for i := 0 to |declared|
      invariant forall j :: 0 <= j < i ==> Fitting(declared[j], base)
    {
      var c := declared[i];
      assert c in declared;
      assert Fitting(c, base) || FirstMisfit(declared, base, i);
      if c < base {
        return Failure(BelowBase(c));
      }
      if base == 0 || c % base != 0 {
        return Failure(NotMultiple(c));
      }
    }
    var tree := Plan(declared, k);
    r := Success(tree);
  }

  /** 1s/10s/45s pass the validation against a one-second base and are planned as they are. */
  method PlanTenIntoFortyFive() returns (r: Result<seq<Layer>, PlanError>)
    ensures r.Success? && Intervals(r.value) == [SECOND, 10 * SECOND, 45 * SECOND]
  {
    var declared: seq<Duration> := [SECOND, 10 * SECOND, 45 * SECOND];
    r := PlanValidated(declared, DEFAULT_MAX_FAN_IN, SECOND);
    FortyFiveLeftAlone();
    NoneHiddenIsDeclared(r.value, declared, declared);
  }

  lemma {:induction false} FortyFiveLeftAlone()
    ensures LeftAlone([SECOND, 10 * SECOND, 45 * SECOND], DEFAULT_MAX_FAN_IN)
  {
    var declared: seq<Duration> := [SECOND, 10 * SECOND, 45 * SECOND];
    forall x: Duration, y: Duration | Neighbours(declared, x, y)
      ensures y <= DEFAULT_MAX_FAN_IN * x || y <= SECOND
    {
      assert 10 * SECOND in declared;
    }
  }

  // ---------------------------------------------------------------------
  // One second and one hour
  // ---------------------------------------------------------------------

  lemma {:induction false} Cube(x: nat)
    ensures Pow(x, 3) == x * x * x
  {
    assert Pow(x, 0) == 1 && Pow(x, 1) == x && Pow(x, 2) == x * x;
  }

  /** A nice duration that its two neighbours in the table are not nearer than is the nicest. */
  lemma {:induction false} NicestAt(p: nat, a: nat, m: nat)
    requires 0 < p < |NICE_SECONDS| - 1
    requires Further(a, m, Nice(p - 1), Nice(p)) && !Further(a, m, Nice(p), Nice(p + 1))
    ensures IsNicest(Nice(p), a, m)
  {
    forall q | 0 <= q < |NICE_SECONDS|
      ensures NoNearer(Nice(p), q, a, m)
    {
      if q < p {
        NiceAscends(q, p);
        if q < p - 1 {
          NiceAscends(q, p - 1);
        }
        FurtherLess(a, m, Nice(q), Nice(p - 1), Nice(p));
      } else if q > p {
        NiceAscends(p, q);
        if q > p + 1 {
          NiceAscends(p + 1, q);
        }
        NotFurtherMore(a, m, Nice(p), Nice(p + 1), Nice(q));
      }
    }
  }

  const HOUR: Duration := 3600 * SECOND

  /** The gap is cut in three. */
  lemma {:induction false} HourParts()
    ensures Parts(SECOND, HOUR, 20) == 3
  {
    assert Pow(20, 0) == 1 && Pow(20, 1) == 20 && Pow(20, 2) == 400 && Pow(20, 3) == 8000;
    assert Steps(SECOND, HOUR, 20, 3) == 3;
    assert Steps(SECOND, HOUR, 20, 2) == 3;
    assert Steps(SECOND, HOUR, 20, 1) == 3;
    assert Steps(SECOND, HOUR, 20, 0) == 3;
  }

  lemma {:induction false} HourTargets()
    ensures Target(SECOND, HOUR, 3, 1) == 3600 * (SECOND * SECOND * SECOND)
    ensures Target(SECOND, HOUR, 3, 2) == 12_960_000 * (SECOND * SECOND * SECOND)
  {
    assert Pow(SECOND, 0) == 1 && Pow(SECOND, 1) == SECOND && Pow(SECOND, 2) == SECOND * SECOND;
    assert Pow(HOUR, 0) == 1 && Pow(HOUR, 1) == HOUR && Pow(HOUR, 2) == HOUR * HOUR;
  }

  /** The first cut is nearest fifteen seconds, the second five minutes. */
  lemma {:induction false} HourCuts()
    ensures IsNicest(15 * SECOND, Target(SECOND, HOUR, 3, 1), 3)
    ensures IsNicest(300 * SECOND, Target(SECOND, HOUR, 3, 2), 3)
  {
    HourTargets();
    Cube(10 * SECOND * (15 * SECOND));
    Cube(15 * SECOND * (20 * SECOND));
    Cube(120 * SECOND * (300 * SECOND));
    Cube(300 * SECOND * (600 * SECOND));
    assert Nice(3) == 10 * SECOND && Nice(4) == 15 * SECOND && Nice(5) == 20 * SECOND;
    assert Nice(9) == 120 * SECOND && Nice(10) == 300 * SECOND && Nice(11) == 600 * SECOND;
    NicestAt(4, Target(SECOND, HOUR, 3, 1), 3);
    NicestAt(10, Target(SECOND, HOUR, 3, 2), 3);
  }

  /** So exactly these two are chosen. */
  lemma {:induction false} HourChosen(x: Duration)
    ensures Chosen(x, SECOND, HOUR, 20) <==> x == 15 * SECOND || x == 300 * SECOND
  {
    HourParts();
    HourCuts();
    assert NearCut(15 * SECOND, SECOND, HOUR, 3, 3) && NearCut(300 * SECOND, SECOND, HOUR, 3, 3);
    if NearCut(x, SECOND, HOUR, 3, 3) {
      var j: nat :| 1 <= j < 3 && IsNicest(x, Target(SECOND, HOUR, 3, j), 3);
      NicestUnique(x, if j == 1 then 15 * SECOND else 300 * SECOND, Target(SECOND, HOUR, 3, j), 3);
    }
  }

  const HOUR_LAYERS: seq<Duration> := [SECOND, 15 * SECOND, 300 * SECOND, HOUR]

  lemma {:induction false} HourFilled(after: seq<Duration>)
    requires Filled([SECOND, HOUR], after, 20)
    ensures after == HOUR_LAYERS
  {
    var before: seq<Duration> := [SECOND, HOUR];
    var i: nat, inserts :| i + 1 < |before| && FilledAt(before, after, 20, i, inserts);
    var two: seq<Duration> := [15 * SECOND, 300 * SECOND];
    forall x: Duration
      ensures x in inserts <==> x in two
    {
      HourChosen(x);
    }
    StrictUnique(inserts, two);
  }

  lemma {:induction false} HourDone(after: seq<Duration>)
    ensures !Filled(HOUR_LAYERS, after, 20)
  {
  }

  lemma {:induction false} HourNotSettled()
    ensures !SettledTo([SECOND, HOUR], 2, 20)
  {
    UnsplittableIffSubSecond(SECOND, HOUR, 20);
    OneUnsettled([SECOND, HOUR], 0, 20);
  }

  lemma {:induction false} HourDerived(layers: seq<Duration>)
    requires Derived([SECOND, HOUR], layers, 20) && SettledTo(layers, |layers|, 20)
    ensures layers == HOUR_LAYERS
  {
    var lists :| lists != [] && StepByStep(lists, 20) && lists[0] == [SECOND, HOUR] && lists[|lists| - 1] == layers;
    HourNotSettled();
    assert |lists| > 1;
    assert Filled(lists[0], lists[0 + 1], 20);
    HourFilled(lists[1]);
    if |lists| > 2 {
      assert Filled(lists[1], lists[1 + 1], 20);
      HourDone(lists[2]);
    }
  }

  lemma {:induction false} HourPlanned(layers: seq<Duration>)
    requires Planned(layers, [SECOND, HOUR], 20) && SettledTo(layers, |layers|, 20)
    ensures layers == HOUR_LAYERS
  {
    var declared: seq<Duration> := [SECOND, HOUR];
    var sorted :| Strict(sorted) && (forall x :: x in sorted <==> x in declared) && Derived(sorted, layers, 20);
    StrictUnique(sorted, declared);
    HourDerived(layers);
  }

  /** 1s and 1h are planned 1s/15s/5m/1h. */
  method PlanOneHour() returns (tree: seq<Layer>)
    ensures Intervals(tree) == [SECOND, 15 * SECOND, 300 * SECOND, 3600 * SECOND]
  {
    tree := Plan([SECOND, HOUR], DEFAULT_MAX_FAN_IN);
    HourPlanned(Intervals(tree));
  }
}
