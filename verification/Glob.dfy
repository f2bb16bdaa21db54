/** The glob matcher. It backtracks only to the last star it has passed, and takes a `*` in
    the text for a literal before it takes the one in the pattern for a wildcard. */
module Glob {

  /** What a pattern means, from positions `i` and `x` on: `*` stands for any text and `?`
      for any one character. */
  predicate Matches(p: string, i: nat, t: string, x: nat)
    requires i <= |p| && x <= |t|
    decreases |p| - i, |t| - x
  {
    if i == |p| then x == |t|
    else if p[i] == '*' then Matches(p, i + 1, t, x) || (x < |t| && Matches(p, i, t, x + 1))
    else x < |t| && (p[i] == '?' || p[i] == t[x]) && Matches(p, i + 1, t, x + 1)
  }

  predicate AllStars(p: string, i: nat)
    requires i <= |p|
  {
    forall k :: i <= k < |p| ==> p[k] == '*'
  }

  predicate Literal(p: string, i: nat, t: string, x: nat) {
    i < |p| && x < |t| && (p[i] == '?' || p[i] == t[x])
  }

  /** What the loop decides: a literal match is taken wherever there is one, even of a star
      by a star; other stars may stand for any text. */
  ghost predicate Greedy(p: string, i: nat, t: string, x: nat)
    requires i <= |p| && x <= |t|
    decreases |p| - i
  {
    if x == |t| then AllStars(p, i)
    else if i == |p| then false
    else if Literal(p, i, t, x) then Greedy(p, i + 1, t, x + 1)
    else
      var next := i + 1;
      p[i] == '*' && exists j :: x <= j <= |t| && Greedy(p, next, t, j)
  }

  /** The pattern from `i` is accepted from some position on. */
  ghost predicate Somewhere(p: string, i: nat, t: string, x: nat)
    requires i <= |p|
  {
    exists j :: x <= j <= |t| && Greedy(p, i, t, j)
  }

  // ---------------------------------------------------------------------
  // Committing to the last star loses nothing
  // ---------------------------------------------------------------------

  /** The pattern from `i` literally matches the `n` characters from `x`. */
  ghost predicate Aligned(p: string, i: nat, t: string, x: nat, n: nat) {
    i + n <= |p| && x + n <= |t| &&
    forall y {:trigger t[y]} :: x <= y < x + n ==> p[i + (y - x)] == '?' || p[i + (y - x)] == t[y]
  }

  lemma {:induction false} AlignedSteps(p: string, i: nat, t: string, x: nat, n: nat)
    requires Aligned(p, i, t, x, n)
    ensures Greedy(p, i, t, x) == Greedy(p, i + n, t, x + n)
    decreases n
  {
    if n > 0 {
      assert Literal(p, i, t, x);
      AlignedSteps(p, i + 1, t, x + 1, n - 1);
    }
  }

  /** Where the pattern matches literally from `x`, a later start cannot fall behind that
      alignment: it reaches the pattern's next part no earlier in the text. */
  lemma {:induction false} NeverBehind(p: string, i: nat, t: string, x: nat, n: nat, k: nat, y: nat) returns (z: nat)
    requires Aligned(p, i, t, x, n) && k <= n && x + k <= y <= |t| && Greedy(p, i + k, t, y)
    ensures x + n <= z <= |t| && Greedy(p, i + n, t, z)
    decreases n - k
  {
    if k == n {
      z := y;
    } else if y == |t| {
      z := |t|;
    } else if Literal(p, i + k, t, y) {
      z := NeverBehind(p, i, t, x, n, k + 1, y + 1);
    } else {
      assert y == x + k ==> Literal(p, i + k, t, y);
      var next := i + k + 1;
      var j: nat :| y <= j <= |t| && Greedy(p, next, t, j);
      z := NeverBehind(p, i, t, x, n, k + 1, j);
    }
  }

  lemma {:induction false} StarHere(p: string, i: nat, t: string, x: nat)
    requires i < |p| && x < |t| && p[i] == '*' && t[x] != '*'
    ensures Greedy(p, i, t, x) == Somewhere(p, i + 1, t, x)
  {
    var next := i + 1;
    if j: nat :| x <= j <= |t| && Greedy(p, next, t, j) {
      assert Greedy(p, i, t, x);
    }
  }

  /** Reaching a new star: the old one need never be tried again. */
  lemma {:induction false} CommitToStar(p: string, i: nat, t: string, x: nat, n: nat)
    requires Aligned(p, i, t, x, n) && i + n < |p| && x + n < |t| && p[i + n] == '*' && t[x + n] != '*'
    ensures Somewhere(p, i, t, x) == Somewhere(p, i + n + 1, t, x + n)
  {
    AlignedSteps(p, i, t, x, n);
    StarHere(p, i + n, t, x + n);
    if Somewhere(p, i, t, x) {
      var y :| x <= y <= |t| && Greedy(p, i, t, y);
      var z := NeverBehind(p, i, t, x, n, 0, y);
      if z < |t| && Literal(p, i + n, t, z) {
        assert Greedy(p, i + n + 1, t, z + 1);
      } else if z == |t| {
        assert Greedy(p, i + n + 1, t, |t|);
      }
    }
  }

  /** Running out of text: what is left of the pattern decides. */
  lemma {:induction false} TextEnds(p: string, i: nat, t: string, x: nat)
    requires x <= |t| && Aligned(p, i, t, x, |t| - x)
    ensures Somewhere(p, i, t, x) == AllStars(p, i + |t| - x)
  {
    AlignedSteps(p, i, t, x, |t| - x);
    if Somewhere(p, i, t, x) {
      var y :| x <= y <= |t| && Greedy(p, i, t, y);
      var z := NeverBehind(p, i, t, x, |t| - x, 0, y);
    }
  }

  /** A failed attempt: the next start is one further on. */
  lemma {:induction false} NextStart(p: string, i: nat, t: string, x: nat, n: nat)
    requires Aligned(p, i, t, x, n) && x + n < |t|
    requires !Literal(p, i + n, t, x + n) && (i + n < |p| ==> p[i + n] != '*')
    ensures Somewhere(p, i, t, x) == Somewhere(p, i, t, x + 1)
  {
    AlignedSteps(p, i, t, x, n);
  }

  /** `glob_matches`. */
  method GlobMatches(p: string, t: string) returns (r: bool)
    ensures r == Greedy(p, 0, t, 0)
  {
    var pi, ti := 0, 0;
    var star := false;
    var starPi, starTi := 0, 0;
    while ti < |t|
      invariant pi <= |p| && ti <= |t|
      invariant !star ==> starTi == 0 && Aligned(p, 0, t, 0, ti) && pi == ti
      invariant star ==> starPi < pi && starTi <= ti && pi - (starPi + 1) == ti - starTi
                         && Aligned(p, starPi + 1, t, starTi, ti - starTi)
                         && Greedy(p, 0, t, 0) == Somewhere(p, starPi + 1, t, starTi)
      decreases |t| - starTi, |t| - ti, |p| - pi
    {
      if pi < |p| && (p[pi] == '?' || p[pi] == t[ti]) {
        assert Literal(p, pi, t, ti);
        pi, ti := pi + 1, ti + 1;
      } else if pi < |p| && p[pi] == '*' {
        if star {
          CommitToStar(p, starPi + 1, t, starTi, ti - starTi);
        } else {
          AlignedSteps(p, 0, t, 0, ti);
          StarHere(p, pi, t, ti);
        }
        star, starPi, starTi := true, pi, ti;
        pi := pi + 1;
      } else if star {
        NextStart(p, starPi + 1, t, starTi, ti - starTi);
        pi := starPi + 1;
        starTi := starTi + 1;
        ti := starTi;
      } else {
        AlignedSteps(p, 0, t, 0, ti);
        return false;
      }
    }
    if star {
      TextEnds(p, starPi + 1, t, starTi);
    } else {
      AlignedSteps(p, 0, t, 0, ti);
    }
    ghost var left := pi;
    while pi < |p| && p[pi] == '*'
      invariant left <= pi <= |p| && forall k :: left <= k < pi ==> p[k] == '*'
    {
      pi := pi + 1;
    }
    r := pi == |p|;
  }

  // ---------------------------------------------------------------------
  // Greedy against the meaning
  // ---------------------------------------------------------------------

  lemma {:induction false} StarsMatchNothing(p: string, i: nat, t: string)
    requires i <= |p|
    ensures Matches(p, i, t, |t|) == AllStars(p, i)
    decreases |p| - i
  {
    if i < |p| && p[i] == '*' {
      StarsMatchNothing(p, i + 1, t);
    }
  }

  ghost predicate MatchesLater(p: string, i: nat, t: string, x: nat)
    requires i <= |p|
  {
    exists j :: x <= j <= |t| && Matches(p, i, t, j)
  }

  /** A star stands for any text. */
  lemma {:induction false} StarSplits(p: string, i: nat, t: string, x: nat)
    requires i < |p| && p[i] == '*' && x <= |t|
    ensures Matches(p, i, t, x) == MatchesLater(p, i + 1, t, x)
    decreases |t| - x
  {
    if x < |t| {
      StarSplits(p, i, t, x + 1);
    }
  }

  /** Whatever the loop accepts, the pattern matches. */
  lemma {:induction false} Sound(p: string, i: nat, t: string, x: nat)
    requires i <= |p| && x <= |t| && Greedy(p, i, t, x)
    ensures Matches(p, i, t, x)
    decreases |p| - i
  {
    if x == |t| {
      StarsMatchNothing(p, i, t);
    } else if Literal(p, i, t, x) {
      Sound(p, i + 1, t, x + 1);
      if p[i] == '*' {
        StarSplits(p, i, t, x);
      }
    } else {
      var next := i + 1;
      var j: nat :| x <= j <= |t| && Greedy(p, next, t, j);
      Sound(p, next, t, j);
      StarSplits(p, i, t, x);
    }
  }

  /** In a text without `*` it accepts everything the pattern matches. */
  lemma {:induction false} Complete(p: string, i: nat, t: string, x: nat)
    requires i <= |p| && x <= |t| && '*' !in t && Matches(p, i, t, x)
    ensures Greedy(p, i, t, x)
    decreases |p| - i
  {
    if x == |t| {
      StarsMatchNothing(p, i, t);
    } else if i < |p| && p[i] == '*' {
      assert t[x] in t;
      StarSplits(p, i, t, x);
      var next := i + 1;
      assert MatchesLater(p, next, t, x);
      var j: nat :| x <= j <= |t| && Matches(p, next, t, j);
      Complete(p, next, t, j);
    } else {
      Complete(p, i + 1, t, x + 1);
    }
  }

  /** A pattern that matches a text with a `*` in it, but that the loop rejects: the text up
      to the first star, a star, and where the text ends there, one more character. */
  function Missed(t: string, s: nat): string
    requires s < |t|
  {
    t[..s] + if s + 1 < |t| then "*" else "*?"
  }

  lemma {:induction false} CopyMatches(p: string, t: string, s: nat, i: nat)
    requires i <= s <= |t| && s <= |p| && p[..s] == t[..s] && '*' !in t[..s] && Matches(p, s, t, s)
    ensures Matches(p, i, t, i)
    decreases s - i
  {
    if i < s {
      CopyMatches(p, t, s, i + 1);
      assert p[i] == p[..s][i] == t[..s][i] == t[i] && t[..s][i] in t[..s];
    }
  }

  lemma {:induction false} MissedIsMissed(t: string, s: nat)
    requires s < |t| && t[s] == '*' && '*' !in t[..s]
    ensures var p := Missed(t, s); Matches(p, 0, t, 0) && !Greedy(p, 0, t, 0)
  {
    var p := Missed(t, s);
    assert p[..s] == t[..s] && p[s] == '*';
    StarSplits(p, s, t, s);
    if s + 1 < |t| {
      assert |p| == s + 1 && Matches(p, s + 1, t, |t|);
    } else {
      assert |p| == s + 2 && p[s + 1] == '?';
      assert Matches(p, s + 2, t, s + 1) && Matches(p, s + 1, t, s);
    }
    assert MatchesLater(p, s + 1, t, s);
    CopyMatches(p, t, s, 0);
    forall k | 0 <= k < s + 1
      ensures p[k] == t[k]
    {
      if k < s {
        assert p[k] == p[..s][k] == t[..s][k] == t[k];
      }
    }
    AlignedSteps(p, 0, t, 0, s + 1);
  }

  lemma {:induction false} FirstStar(t: string) returns (s: nat)
    requires '*' in t
    ensures s < |t| && t[s] == '*' && '*' !in t[..s]
  {
    if t[0] == '*' {
      s := 0;
    } else {
      assert t == [t[0]] + t[1..];
      s := FirstStar(t[1..]);
      assert t[..s + 2] == [t[0]] + t[1..][..s + 1];
      s := s + 1;
    }
  }

  /** The loop decides every pattern rightly on a text if and only if the text has no `*`. */
  lemma {:induction false} RightIffNoStar(t: string)
    ensures (forall p: string :: Greedy(p, 0, t, 0) == Matches(p, 0, t, 0)) <==> '*' !in t
  {
    if '*' in t {
      var s := FirstStar(t);
      MissedIsMissed(t, s);
    } else {
      forall p: string
        ensures Greedy(p, 0, t, 0) == Matches(p, 0, t, 0)
      {
        if Greedy(p, 0, t, 0) {
          Sound(p, 0, t, 0);
        }
        if Matches(p, 0, t, 0) {
          Complete(p, 0, t, 0);
        }
      }
    }
  }
}
