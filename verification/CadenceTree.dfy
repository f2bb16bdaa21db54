/** The cadence tree planner: hidden layers are inserted between declared cadences until
    no layer gathers more than the cap's worth of the layer below. Logarithms and real
    roots are stated exactly, as comparisons of whole-number powers. */
module CadenceTree {
  import opened Wrappers
  import opened Powers

  /** One layer of the tree; a hidden one was inserted by the planner and has no readers. */
  datatype Layer = Layer(interval: Duration, hidden: bool)

  const DEFAULT_MAX_FAN_IN := 20

  const NICE_SECONDS: seq<nat> := [
    1, 2, 5, 10, 15, 20, 30, 45, 60,
    120, 300, 600, 900, 1200, 1800, 2700,
    3600, 7200, 10800, 14400, 21600, 28800, 43200, 86400,
    172800, 604800]

  ghost predicate Strict(s: seq<nat>) {
    forall i, j :: 0 <= i < j < |s| ==> s[i] < s[j]
  }

  // ---------------------------------------------------------------------
  // The nearest nice duration
  // ---------------------------------------------------------------------

  function Nice(n: nat): Duration
    requires n < |NICE_SECONDS|
  {
    NICE_SECONDS[n] * SECOND
  }

  /** The duration t with t^m = a is further from `x` than from the longer `y`, as ratios. */
  predicate Further(a: nat, m: nat, x: Duration, y: Duration) {
    a * a > Pow(x * y, m)
  }

  /** The n-th nice duration is no nearer the m-th root of `a` than `x` is, and if it is as near
      it is not shorter. */
  ghost predicate NoNearer(x: Duration, n: nat, a: nat, m: nat)
    requires n < |NICE_SECONDS|
  {
    (Nice(n) > x ==> !Further(a, m, x, Nice(n))) && (Nice(n) < x ==> Further(a, m, Nice(n), x))
  }

  /** `x` is nice and no other nice duration is nearer the m-th root of `a`; of two that
      are equally near, it is the shorter. */
  ghost predicate IsNicest(x: Duration, a: nat, m: nat) {
    (exists n :: 0 <= n < |NICE_SECONDS| && x == Nice(n)) &&
    forall n {:trigger NoNearer(x, n, a, m)} :: 0 <= n < |NICE_SECONDS| ==> NoNearer(x, n, a, m)
  }

  lemma {:induction false} FurtherLess(a: nat, m: nat, x: Duration, y: Duration, z: Duration)
    requires x <= y && Further(a, m, y, z)
    ensures Further(a, m, x, z)
  {
    Multiply(x, y, z);
    PowMonotone(x * z, y * z, m);
  }

  lemma {:induction false} Multiply(x: nat, y: nat, z: nat)
    requires x <= y
    ensures x * z <= y * z && z * x <= z * y
  {
    Times(x, z, y, z);
  }

  lemma {:induction false} NotFurtherMore(a: nat, m: nat, x: Duration, y: Duration, z: Duration)
    requires y <= z && !Further(a, m, x, y)
    ensures !Further(a, m, x, z)
  {
    Multiply(y, z, x);
    PowMonotone(x * y, x * z, m);
  }

  lemma {:induction false} NiceAscends(p: nat, q: nat)
    requires p < q < |NICE_SECONDS|
    ensures Nice(p) < Nice(q)
  {
  }

  /** `nicest_duration`, for the m-th root of `a`. */
  method NicestDuration(a: nat, m: nat) returns (best: Duration)
    ensures IsNicest(best, a, m)
  {
    best := Nice(0);
    ghost var p := 0;
    for n := 1 to |NICE_SECONDS|
      invariant p < n && best == Nice(p)
      invariant forall q :: 0 <= q < n ==>
        (q > p ==> !Further(a, m, best, Nice(q))) && (q < p ==> Further(a, m, Nice(q), best))
    {
      NiceAscends(p, n);
      if Further(a, m, best, Nice(n)) {
        forall q | 0 <= q < n
          ensures Further(a, m, Nice(q), Nice(n))
        {
          if q > p {
            NiceAscends(q, n);
            NotFurtherMore(a, m, best, Nice(q), Nice(n));
            assert false;
          } else if q < p {
            NiceAscends(q, p);
            FurtherLess(a, m, Nice(q), best, Nice(n));
          }
        }
        best, p := Nice(n), n;
      }
    }
    forall q | 0 <= q < |NICE_SECONDS|
      ensures NoNearer(best, q, a, m)
    {
      if q < p {
        NiceAscends(q, p);
      } else if q > p {
        NiceAscends(p, q);
      }
    }
  }

  /** A larger target never has a smaller nicest duration. */
  lemma {:induction false} NicestMonotone(x: Duration, a: nat, y: Duration, b: nat, m: nat)
    requires IsNicest(x, a, m) && IsNicest(y, b, m) && a <= b
    ensures x <= y
  {
    if y < x {
      var n :| 0 <= n < |NICE_SECONDS| && y == Nice(n);
      var k :| 0 <= k < |NICE_SECONDS| && x == Nice(k);
      assert NoNearer(x, n, a, m) && NoNearer(y, k, b, m);
      Times(a, a, b, b);
    }
  }

  /** There is only one nicest duration. */
  lemma {:induction false} NicestUnique(x: Duration, y: Duration, a: nat, m: nat)
    requires IsNicest(x, a, m) && IsNicest(y, a, m)
    ensures x == y
  {
    NicestMonotone(x, a, y, a, m);
    NicestMonotone(y, a, x, a, m);
  }

  // ---------------------------------------------------------------------
  // How a gap is divided
  // ---------------------------------------------------------------------

  /** The least exponent from `n` up that takes `a` to `b` in steps of ratio `k`. */
  function Steps(a: nat, b: nat, k: nat, n: nat): (r: nat)
    requires a > 0 && k >= 2
    ensures r >= n && Pow(k, r) * a >= b && (r > n ==> Pow(k, r - 1) * a < b)
    decreases b - Pow(k, n) * a
  {
    if Pow(k, n) * a >= b then n
    else
      StepsProgress(a, k, n);
      Steps(a, b, k, n + 1)
  }

  lemma {:induction false} StepsProgress(a: nat, k: nat, n: nat)
    requires a > 0 && k >= 2
    ensures Pow(k, n + 1) * a > Pow(k, n) * a
  {
    Times(2, Pow(k, n), k, Pow(k, n));
    Times(Pow(k, n) + 1, a, Pow(k, n + 1), a);
  }

  /** Into how many equal ratios a gap is cut: enough to respect the cap, and at least two. */
  function Parts(a: Duration, b: Duration, k: nat): (m: nat)
    requires a > 0 && k >= 2
    ensures m >= 2
  {
    Max(Max(Steps(a, b, k, 0), 1) - 1, 1) + 1
  }

  lemma {:induction false} PartsAreSteps(a: Duration, b: Duration, k: nat)
    requires a > 0 && k >= 2 && b > k * a
    ensures Parts(a, b, k) == Steps(a, b, k, 0) && Pow(k, Parts(a, b, k) - 1) * a < b
  {
    assert Pow(k, 0) == 1 && Pow(k, 1) == k * Pow(k, 0);
    Times(1, a, k, a);
    Times(k, a, k, a);
  }

  /** The m-th power of the j-th of the durations cutting [a, b] into m equal ratios. */
  function Target(a: Duration, b: Duration, m: nat, j: nat): nat
    requires j <= m
  {
    Pow(a, m - j) * Pow(b, j)
  }

  lemma {:induction false} TargetsGrow(a: Duration, b: Duration, m: nat, j: nat)
    requires a <= b && j < m
    ensures Target(a, b, m, j) <= Target(a, b, m, j + 1)
  {
    var p, q := Pow(a, m - j - 1), Pow(b, j);
    Times(p, q, p, q);
    Times(a, p * q, b, p * q);
    assert Pow(a, m - j) == a * p && Pow(b, j + 1) == b * q;
    assert (a * p) * q == a * (p * q) && p * (b * q) == b * (p * q);
  }

  /** The m-th root of `a`, in seconds, rounded half up. */
  function RoundedSeconds(a: nat, m: nat, r: nat): (s: nat)
    requires m > 0
    ensures s >= r && Pow(2, m) * a < Pow(2 * s + 1, m) * Pow(SECOND, m)
    ensures s > r ==> Pow(2, m) * a >= Pow(2 * (s - 1) + 1, m) * Pow(SECOND, m)
    decreases Pow(2, m) * a - Pow(2 * r + 1, m) * Pow(SECOND, m)
  {
    if Pow(2, m) * a < Pow(2 * r + 1, m) * Pow(SECOND, m) then r
    else
      RoundProgress(r, m);
      RoundedSeconds(a, m, r + 1)
  }

  lemma {:induction false} RoundProgress(r: nat, m: nat)
    requires m > 0
    ensures Pow(2 * r + 1, m) * Pow(SECOND, m) < Pow(2 * (r + 1) + 1, m) * Pow(SECOND, m)
  {
    PowStrict(2 * r + 1, 2 * (r + 1) + 1, m);
    TimesStrict(Pow(2 * r + 1, m), Pow(2 * (r + 1) + 1, m), Pow(SECOND, m));
  }

  /** The fallback: the first cut to the nearest second, but at least one. */
  function Middle(a: Duration, b: Duration, m: nat): Duration
    requires m > 0
  {
    Max(RoundedSeconds(Target(a, b, m, 1), m, 0), 1) * SECOND
  }

  /** Nothing the planner would put into the gap lies inside it. */
  ghost predicate Unsplittable(a: Duration, b: Duration, k: nat)
    requires a > 0 && k >= 2
  {
    var m := Parts(a, b, k);
    NoneInside(a, b, m, m) && !(a < Middle(a, b, m) < b)
  }

  /** What the planner leaves alone. */
  ghost predicate Settled(a: Duration, b: Duration, k: nat)
    requires a > 0 && k >= 2
  {
    b <= k * a || Unsplittable(a, b, k)
  }

  lemma {:induction false} NothingBetween(layers: seq<Duration>, i: nat, x: Duration)
    requires Strict(layers) && i + 1 < |layers| && layers[i] < x < layers[i + 1]
    ensures x !in layers[..i + 1] && x !in layers[i + 1..]
  {
    forall j | 0 <= j < |layers|
      ensures layers[j] != x
    {
      assert j < i ==> layers[j] < layers[i];
      assert j > i + 1 ==> layers[j] > layers[i + 1];
    }
  }

  predicate Whole(d: Duration) {
    d % SECOND == 0
  }

  lemma {:induction false} StrictSnoc(s: seq<nat>, x: nat)
    requires Strict(s) && x !in s && forall y :: y in s ==> y <= x
    ensures Strict(s + [x])
  {
    forall j | 0 <= j < |s|
      ensures s[j] < x
    {
      assert s[j] in s;
    }
  }

  /** None of the first cuts of the gap has its nicest duration inside it. */
  ghost predicate NoneInside(a: Duration, b: Duration, m: nat, n: nat)
    requires n <= m + 1
  {
    forall j: nat, x: Duration :: 1 <= j < n && IsNicest(x, Target(a, b, m, j), m) ==> !(a < x < b)
  }

  /** The nicest duration of one of the first cuts. */
  ghost predicate NearCut(x: Duration, a: Duration, b: Duration, m: nat, n: nat)
    requires n <= m + 1
  {
    exists j: nat :: 1 <= j < n && IsNicest(x, Target(a, b, m, j), m)
  }

  lemma {:induction false} NoneIsNear(a: Duration, b: Duration, m: nat, n: nat)
    requires n <= m + 1
    ensures NoneInside(a, b, m, n) <==> forall x: Duration :: NearCut(x, a, b, m, n) ==> !(a < x < b)
  {
    if !NoneInside(a, b, m, n) {
      var j: nat, x: Duration :| 1 <= j < n && IsNicest(x, Target(a, b, m, j), m) && a < x < b;
      assert NearCut(x, a, b, m, n);
    }
  }

  lemma {:induction false} OneMoreCut(a: Duration, b: Duration, m: nat, n: nat, nice: Duration, x: Duration)
    requires 1 <= n <= m && IsNicest(nice, Target(a, b, m, n), m)
    ensures NearCut(x, a, b, m, n + 1) <==> x == nice || NearCut(x, a, b, m, n)
  {
    if NearCut(x, a, b, m, n) {
      NearStill(x, a, b, m, n);
    }
    if NearCut(x, a, b, m, n + 1) && !NearCut(x, a, b, m, n) {
      NicestUnique(x, nice, Target(a, b, m, n), m);
    }
  }

  lemma {:induction false} NearStill(x: Duration, a: Duration, b: Duration, m: nat, n: nat)
    requires n <= m && NearCut(x, a, b, m, n)
    ensures NearCut(x, a, b, m, n + 1)
  {
    var j: nat :| 1 <= j < n && IsNicest(x, Target(a, b, m, j), m);
  }

  lemma {:induction false} CutsAscend(a: Duration, b: Duration, m: nat, j: nat, x: Duration, y: Duration)
    requires a <= b && 1 < j < m
    requires IsNicest(x, Target(a, b, m, j - 1), m) && IsNicest(y, Target(a, b, m, j), m)
    ensures x <= y
  {
    TargetsGrow(a, b, m, j - 1);
    NicestMonotone(x, Target(a, b, m, j - 1), y, Target(a, b, m, j), m);
  }

  lemma {:induction false} NiceIsWhole(x: Duration, a: nat, m: nat)
    requires IsNicest(x, a, m)
    ensures Whole(x)
  {
    var n :| 0 <= n < |NICE_SECONDS| && x == Nice(n);
  }

  ghost predicate Inside(inserts: seq<Duration>, a: Duration, b: Duration, last: Duration) {
    Strict(inserts) && forall x :: x in inserts ==> a < x < b && Whole(x) && x <= last
  }

  /** Keep a nice duration if it lies inside the gap and is new. */
  method AddNice(layers: seq<Duration>, i: nat, inserts: seq<Duration>, nice: Duration) returns (r: seq<Duration>)
    requires Strict(layers) && i + 1 < |layers| && Inside(inserts, layers[i], layers[i + 1], nice) && Whole(nice)
    ensures Inside(r, layers[i], layers[i + 1], nice)
    ensures r == if layers[i] < nice < layers[i + 1] && nice !in inserts then inserts + [nice] else inserts
  {
    if layers[i] < nice < layers[i + 1] {
      NothingBetween(layers, i, nice);
    }
    if nice > layers[i] && nice < layers[i + 1] && nice !in inserts &&
       nice !in layers[..i + 1] && nice !in layers[i + 1..] {
      StrictSnoc(inserts, nice);
      r := inserts + [nice];
    } else {
      r := inserts;
    }
  }

  /** After the cuts before the j-th: what was kept, and the last nicest duration seen. */
  ghost predicate CutsDone(a: Duration, b: Duration, m: nat, j: nat, inserts: seq<Duration>, last: Duration)
    requires 1 <= j <= m
  {
    Inside(inserts, a, b, last) &&
    (if j == 1 then inserts == [] else IsNicest(last, Target(a, b, m, j - 1), m)) &&
    forall x :: x in inserts <==> a < x < b && NearCut(x, a, b, m, j)
  }

  method NextCut(layers: seq<Duration>, i: nat, m: nat, j: nat, inserts: seq<Duration>, ghost last: Duration)
    returns (r: seq<Duration>, ghost next: Duration)
    requires Strict(layers) && i + 1 < |layers| && 1 <= j < m
    requires CutsDone(layers[i], layers[i + 1], m, j, inserts, last)
    ensures CutsDone(layers[i], layers[i + 1], m, j + 1, r, next)
  {
    var a, b := layers[i], layers[i + 1];
    var nice := NicestDuration(Target(a, b, m, j), m);
    next := nice;
    NiceIsWhole(nice, Target(a, b, m, j), m);
    if j > 1 {
      CutsAscend(a, b, m, j, last, nice);
    }
    r := AddNice(layers, i, inserts, nice);
    forall x
      ensures x in r <==> a < x < b && NearCut(x, a, b, m, j + 1)
    {
      OneMoreCut(a, b, m, j, nice, x);
    }
  }

  lemma {:induction false} NoCutsYet(a: Duration, b: Duration, m: nat)
    requires m >= 2
    ensures CutsDone(a, b, m, 1, [], 0)
  {
  }

  lemma {:induction false} AllCutsDone(a: Duration, b: Duration, m: nat, inserts: seq<Duration>, last: Duration)
    requires m >= 2 && CutsDone(a, b, m, m, inserts, last)
    ensures Strict(inserts) && forall x :: x in inserts ==> Whole(x)
    ensures forall x :: x in inserts <==> a < x < b && NearCut(x, a, b, m, m)
    ensures inserts == [] <==> NoneInside(a, b, m, m)
  {
    NoneIsNear(a, b, m, m);
    if inserts != [] {
      assert inserts[0] in inserts;
    }
  }

  /** The nice durations nearest the cuts of a gap, those inside it, each once. */
  method NiceCuts(layers: seq<Duration>, i: nat, m: nat) returns (inserts: seq<Duration>)
    requires Strict(layers) && i + 1 < |layers| && m >= 2
    ensures Strict(inserts) && forall x :: x in inserts ==> Whole(x)
    ensures forall x :: x in inserts <==> layers[i] < x < layers[i + 1] && NearCut(x, layers[i], layers[i + 1], m, m)
    ensures inserts == [] <==> NoneInside(layers[i], layers[i + 1], m, m)
  {
    ghost var last := 0;
    inserts := [];
    NoCutsYet(layers[i], layers[i + 1], m);
    for j := 1 to m
      invariant CutsDone(layers[i], layers[i + 1], m, j, inserts, last)
    {
      inserts, last := NextCut(layers, i, m, j, inserts, last);
    }
    AllCutsDone(layers[i], layers[i + 1], m, inserts, last);
  }

  /** What goes into a gap: inside it, the nice durations nearest its cuts; and where none of those
      is inside, the first cut rounded to a second. */
  ghost predicate Chosen(x: Duration, a: Duration, b: Duration, k: nat)
    requires a > 0 && k >= 2
  {
    var m := Parts(a, b, k);
    a < x < b && (NearCut(x, a, b, m, m) || (NoneInside(a, b, m, m) && x == Middle(a, b, m)))
  }

  lemma {:induction false} ChosenNice(a: Duration, b: Duration, k: nat, x: Duration)
    requires a > 0 && k >= 2 && !NoneInside(a, b, Parts(a, b, k), Parts(a, b, k))
    ensures Chosen(x, a, b, k) <==> a < x < b && NearCut(x, a, b, Parts(a, b, k), Parts(a, b, k))
  {
  }

  lemma {:induction false} ChosenMiddle(a: Duration, b: Duration, k: nat, x: Duration)
    requires a > 0 && k >= 2 && NoneInside(a, b, Parts(a, b, k), Parts(a, b, k))
    ensures Chosen(x, a, b, k) <==> a < x < b && x == Middle(a, b, Parts(a, b, k))
  {
    NoneIsNear(a, b, Parts(a, b, k), Parts(a, b, k));
  }

  /** The fallback is the whole number of seconds nearest the first cut, half a second rounded up,
      and at least one. */
  lemma {:induction false} MiddleIsNearest(a: Duration, b: Duration, m: nat) returns (r: nat)
    requires m > 0
    ensures Middle(a, b, m) == Max(r, 1) * SECOND
    ensures Pow(2, m) * Target(a, b, m, 1) < Pow(2 * r + 1, m) * Pow(SECOND, m)
    ensures r > 0 ==> Pow(2 * r - 1, m) * Pow(SECOND, m) <= Pow(2, m) * Target(a, b, m, 1)
  {
    r := RoundedSeconds(Target(a, b, m, 1), m, 0);
    assert r > 0 ==> 2 * (r - 1) + 1 == 2 * r - 1;
  }

  /** What goes into one gap: the nice durations nearest its cuts, or the fallback. */
  method Intermediates(layers: seq<Duration>, i: nat, k: nat) returns (inserts: seq<Duration>)
    requires Strict(layers) && i + 1 < |layers| && layers[i] > 0 && k >= 2
    ensures Strict(inserts) && forall x :: x in inserts ==> layers[i] < x < layers[i + 1] && Whole(x)
    ensures forall x :: x in inserts <==> Chosen(x, layers[i], layers[i + 1], k)
    ensures inserts == [] <==> Unsplittable(layers[i], layers[i + 1], k)
  {
    var a, b := layers[i], layers[i + 1];
    var m := Parts(a, b, k);
    inserts := NiceCuts(layers, i, m);
    if inserts == [] {
      var mid := Middle(a, b, m);
      if mid > a && mid < b {
        inserts := [mid];
      }
      forall x
        ensures x in inserts <==> Chosen(x, a, b, k)
      {
        ChosenMiddle(a, b, k, x);
      }
    } else {
      forall x
        ensures x in inserts <==> Chosen(x, a, b, k)
      {
        ChosenNice(a, b, k, x);
      }
    }
  }

  // ---------------------------------------------------------------------
  // The passes
  // ---------------------------------------------------------------------

  lemma {:induction false} StrictLength(s: seq<nat>)
    requires Strict(s) && s != []
    ensures |s| <= s[|s| - 1] - s[0] + 1
  {
    if |s| > 1 {
      StrictLength(s[..|s| - 1]);
    }
  }

  /** A list with more entries spliced into the gap after position `i`. */
  function Spliced(s: seq<Duration>, i: nat, inserts: seq<Duration>): seq<Duration>
    requires i + 1 < |s|
  {
    s[..i + 1] + inserts + s[i + 1..]
  }

  lemma {:induction false} SplicedStrict(s: seq<Duration>, i: nat, inserts: seq<Duration>)
    requires Strict(s) && i + 1 < |s| && Strict(inserts)
    requires forall x :: x in inserts ==> s[i] < x < s[i + 1]
    ensures Strict(Spliced(s, i, inserts))
  {
    var r, n := Spliced(s, i, inserts), |inserts|;
    forall p, q | 0 <= p < q < |r|
      ensures r[p] < r[q]
    {
      assert i < p < i + 1 + n ==> r[p] in inserts;
      assert i < q < i + 1 + n ==> r[q] in inserts;
      assert p <= i ==> r[p] <= s[i];
      assert q >= i + 1 + n ==> r[q] >= s[i + 1];
    }
  }

  /** `Vec::insert`, once for each new interval. */
  method InsertAll(s: seq<Duration>, i: nat, inserts: seq<Duration>) returns (r: seq<Duration>)
    requires i + 1 < |s|
    ensures r == Spliced(s, i, inserts)
  {
    r := s;
    for off := 0 to |inserts|
      invariant r == s[..i + 1] + inserts[..off] + s[i + 1..]
    {
      r := r[..i + 1 + off] + [inserts[off]] + r[i + 1 + off..];
    }
    assert inserts[..|inserts|] == inserts;
  }

  /** The list keeps its ends and all it started with; what was added lies between. */
  ghost predicate Extends(layers: seq<Duration>, declared: seq<Duration>) {
    Strict(layers) && declared != [] && layers != [] &&
    layers[0] == declared[0] && layers[|layers| - 1] == declared[|declared| - 1] &&
    (forall x :: x in declared ==> x in layers) &&
    (forall x :: x in layers ==> x in declared || Whole(x))
  }

  lemma {:induction false} SplicedExtends(layers: seq<Duration>, declared: seq<Duration>, i: nat, inserts: seq<Duration>)
    requires Extends(layers, declared) && i + 1 < |layers| && Strict(inserts)
    requires forall x :: x in inserts ==> layers[i] < x < layers[i + 1] && Whole(x)
    ensures Extends(Spliced(layers, i, inserts), declared)
  {
    SplicedStrict(layers, i, inserts);
    assert layers == layers[..i + 1] + layers[i + 1..];
  }

  ghost predicate SettledTo(layers: seq<Duration>, n: nat, k: nat) {
    k >= 2 && (forall j :: 0 <= j < |layers| ==> layers[j] > 0) &&
    forall j :: 0 <= j < n && j + 1 < |layers| ==> Settled(layers[j], layers[j + 1], k)
  }

  lemma {:induction false} SplicedSettled(layers: seq<Duration>, i: nat, inserts: seq<Duration>, k: nat)
    requires SettledTo(layers, i, k) && i + 1 < |layers| && forall x :: x in inserts ==> x > 0
    ensures SettledTo(Spliced(layers, i, inserts), i, k)
  {
    var r := Spliced(layers, i, inserts);
    forall j | 0 <= j < |r|
      ensures r[j] > 0
    {
      assert i < j < i + 1 + |inserts| ==> r[j] in inserts;
    }
  }

  lemma {:induction false} PastSettled(layers: seq<Duration>, i: nat, k: nat)
    requires SettledTo(layers, i, k) && i + 1 < |layers| && Settled(layers[i], layers[i + 1], k)
    ensures SettledTo(layers, i + 1, k)
  {
  }

  lemma {:induction false} OneUnsettled(layers: seq<Duration>, i: nat, k: nat)
    requires i + 1 < |layers| && layers[i] > 0 && k >= 2 && !Settled(layers[i], layers[i + 1], k)
    ensures !SettledTo(layers, |layers|, k)
  {
  }

  // ---------------------------------------------------------------------
  // The steps of the planner
  // ---------------------------------------------------------------------

  /** One gap wider than the cap was filled with what is chosen for it, and it was not nothing. */
  ghost predicate FilledAt(before: seq<Duration>, after: seq<Duration>, k: nat, i: nat, inserts: seq<Duration>)
    requires i + 1 < |before|
  {
    before[i] > 0 && k >= 2 && before[i + 1] > k * before[i] && inserts != [] && Strict(inserts) &&
    (forall x :: x in inserts <==> Chosen(x, before[i], before[i + 1], k)) && after == Spliced(before, i, inserts)
  }

  ghost predicate Filled(before: seq<Duration>, after: seq<Duration>, k: nat) {
    exists i: nat, inserts :: i + 1 < |before| && FilledAt(before, after, k, i, inserts)
  }

  /** Each list is the one before it with one more gap filled. */
  ghost predicate StepByStep(lists: seq<seq<Duration>>, k: nat) {
    forall t :: 0 <= t && t + 1 < |lists| ==> Filled(lists[t], lists[t + 1], k)
  }

  /** Filling gap after gap leads from the one list to the other. */
  ghost predicate Derived(first: seq<Duration>, last: seq<Duration>, k: nat) {
    exists lists :: lists != [] && StepByStep(lists, k) && lists[0] == first && lists[|lists| - 1] == last
  }

  lemma {:induction false} DerivedItself(list: seq<Duration>, k: nat)
    ensures Derived(list, list, k)
  {
    assert StepByStep([list], k) && [list][0] == list;
  }

  lemma {:induction false} DerivedNext(first: seq<Duration>, last: seq<Duration>, next: seq<Duration>, k: nat)
    requires Derived(first, last, k) && Filled(last, next, k)
    ensures Derived(first, next, k)
  {
    var lists :| lists != [] && StepByStep(lists, k) && lists[0] == first && lists[|lists| - 1] == last;
    var more := lists + [next];
    forall t | 0 <= t && t + 1 < |more|
      ensures Filled(more[t], more[t + 1], k)
    {
      assert t + 1 < |lists| ==> more[t + 1] == lists[t + 1];
      assert more[t] == lists[t];
    }
    assert more[0] == first && more[|more| - 1] == next;
  }

  /** Fill the gap after position `i` with what is chosen for it. */
  method Splice(layers: seq<Duration>, i: nat, inserts: seq<Duration>, k: nat, ghost declared: seq<Duration>)
    returns (r: seq<Duration>)
    requires Extends(layers, declared) && SettledTo(layers, i, k) && Derived(declared, layers, k)
    requires i + 1 < |layers| && inserts != [] && layers[i + 1] > k * layers[i]
    requires Strict(inserts) && forall x :: x in inserts ==> layers[i] < x < layers[i + 1] && Whole(x)
    requires forall x :: x in inserts <==> Chosen(x, layers[i], layers[i + 1], k)
    ensures r == Spliced(layers, i, inserts) && Extends(r, declared) && SettledTo(r, i, k) && Derived(declared, r, k)
    ensures |layers| < |r| <= r[|r| - 1] - r[0] + 1 && r[0] == layers[0] && r[|r| - 1] == layers[|layers| - 1]
  {
    SplicedExtends(layers, declared, i, inserts);
    SplicedSettled(layers, i, inserts, k);
    assert FilledAt(layers, Spliced(layers, i, inserts), k, i, inserts);
    DerivedNext(declared, layers, Spliced(layers, i, inserts), k);
    r := InsertAll(layers, i, inserts);
    StrictLength(r);
  }

  /** A visit to the gap after position `i`: filled if it is wider than the cap and something is
      chosen for it, settled otherwise. */
  method VisitGap(layers: seq<Duration>, i: nat, k: nat, ghost declared: seq<Duration>) returns (r: seq<Duration>, filled: bool)
    requires Extends(layers, declared) && SettledTo(layers, i, k) && Derived(declared, layers, k) && i + 1 < |layers|
    ensures Extends(r, declared) && Derived(declared, r, k) && SettledTo(r, if filled then i else i + 1, k)
    ensures if filled then
              !SettledTo(layers, |layers|, k) && |layers| < |r| <= r[|r| - 1] - r[0] + 1 &&
              r[0] == layers[0] && r[|r| - 1] == layers[|layers| - 1]
            else r == layers
  {
    r, filled := layers, false;
    if layers[i + 1] > k * layers[i] {
      var inserts := Intermediates(layers, i, k);
      if inserts != [] {
        OneUnsettled(layers, i, k);
        filled := true;
        r := Splice(layers, i, inserts, k, declared);
        return;
      }
    }
    PastSettled(layers, i, k);
  }

  /** One left-to-right pass: it moves on only past a settled gap, and changes nothing when
      every gap is settled already. */
  method Pass(start: seq<Duration>, k: nat, ghost declared: seq<Duration>) returns (layers: seq<Duration>, changed: bool)
    requires Extends(start, declared) && SettledTo(start, 0, k) && Derived(declared, start, k)
    ensures Derived(declared, layers, k)
    ensures Extends(layers, declared) && SettledTo(layers, |layers|, k)
    ensures SettledTo(start, |start|, k) ==> !changed
    ensures !changed ==> layers == start
  {
    layers, changed := start, false;
    var i := 0;
    while i + 1 < |layers|
      invariant Extends(layers, declared) && SettledTo(layers, i, k)
      invariant Derived(declared, layers, k)
      invariant !changed ==> layers == start
      invariant changed ==> !SettledTo(start, |start|, k)
      decreases layers[|layers| - 1] - layers[0] + 1 - |layers|, |layers| - i
    {
      var filled;
      layers, filled := VisitGap(layers, i, k, declared);
      if filled {
        changed := true;
      } else {
        i := i + 1;
      }
    }
  }
}
