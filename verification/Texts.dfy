/** The string operations the selector grammar is made of. */
module Texts {

  /** The characters with the Unicode White_Space property. */
  predicate IsSpace(c: char) {
    var n := c as int;
    9 <= n <= 13 || n == 0x20 || n == 0x85 || n == 0xA0 || n == 0x1680 || 0x2000 <= n <= 0x200A ||
    n == 0x2028 || n == 0x2029 || n == 0x202F || n == 0x205F || n == 0x3000
  }

  function TrimStart(s: string): string {
    if s != "" && IsSpace(s[0]) then TrimStart(s[1..]) else s
  }

  function TrimEnd(s: string): string {
    if s != "" && IsSpace(s[|s| - 1]) then TrimEnd(s[..|s| - 1]) else s
  }

  function Trim(s: string): string {
    TrimEnd(TrimStart(s))
  }

  /** Nothing to trim. */
  predicate Trimmed(s: string) {
    s == "" || (!IsSpace(s[0]) && !IsSpace(s[|s| - 1]))
  }

  /** A stretch of `s`. */
  ghost predicate Part(r: string, s: string) {
    exists lo, hi :: 0 <= lo <= hi <= |s| && r == s[lo..hi]
  }

  lemma {:induction false} IsPart(s: string, lo: nat, hi: nat)
    requires lo <= hi <= |s|
    ensures Part(s[lo..hi], s)
  {
  }

  lemma {:induction false} SliceSlice(t: string, a: nat, b: nat, lo: nat, hi: nat)
    requires a <= b <= |t| && lo <= hi <= b - a
    ensures t[a..b][lo..hi] == t[a + lo..a + hi]
  {
    forall i | 0 <= i < hi - lo
      ensures t[a..b][lo..hi][i] == t[a + lo..a + hi][i]
    {
      assert t[a..b][lo..hi][i] == t[a..b][lo + i] == t[a + (lo + i)];
    }
  }

  lemma {:induction false} PartOfPart(r: string, s: string, t: string)
    requires Part(r, s) && Part(s, t)
    ensures Part(r, t)
  {
    var lo, hi :| 0 <= lo <= hi <= |s| && r == s[lo..hi];
    var a, b :| 0 <= a <= b <= |t| && s == t[a..b];
    SliceSlice(t, a, b, lo, hi);
  }

  lemma {:induction false} TrimStartPart(s: string)
    ensures Part(TrimStart(s), s) && (TrimStart(s) == "" || !IsSpace(TrimStart(s)[0]))
    ensures s != "" && !IsSpace(s[|s| - 1]) ==> TrimStart(s) != "" && TrimStart(s)[|TrimStart(s)| - 1] == s[|s| - 1]
  {
    if s != "" && IsSpace(s[0]) {
      TrimStartPart(s[1..]);
      IsPart(s, 1, |s|);
      PartOfPart(TrimStart(s), s[1..], s);
    } else {
      assert s == s[0..|s|];
    }
  }

  lemma {:induction false} TrimEndPart(s: string)
    ensures Part(TrimEnd(s), s) && (TrimEnd(s) == "" || !IsSpace(TrimEnd(s)[|TrimEnd(s)| - 1]))
    ensures TrimEnd(s) != "" ==> TrimEnd(s)[0] == s[0]
  {
    if s != "" && IsSpace(s[|s| - 1]) {
      TrimEndPart(s[..|s| - 1]);
      IsPart(s, 0, |s| - 1);
      PartOfPart(TrimEnd(s), s[..|s| - 1], s);
    } else {
      assert s == s[0..|s|];
    }
  }

  /** Trimming gives a trimmed stretch, and stops at the last character that is no space. */
  lemma {:induction false} TrimFacts(s: string)
    ensures Trimmed(Trim(s)) && Part(Trim(s), s)
    ensures s != "" && !IsSpace(s[|s| - 1]) ==> Trim(s) != "" && Trim(s)[|Trim(s)| - 1] == s[|s| - 1]
  {
    TrimStartPart(s);
    TrimEndPart(TrimStart(s));
    PartOfPart(Trim(s), TrimStart(s), s);
  }

  lemma {:induction false} TrimNothing(s: string)
    requires Trimmed(s)
    ensures Trim(s) == s
  {
  }

  // ---------------------------------------------------------------------
  // Finding
  // ---------------------------------------------------------------------

  /** Index of the first `a` directly followed by `b`, or the length when there is none. */
  function FindPair(s: string, a: char, b: char): (i: nat)
    ensures i <= |s| && (i < |s| ==> i + 1 < |s| && s[i] == a && s[i + 1] == b)
  {
    if |s| < 2 then |s|
    else if s[0] == a && s[1] == b then 0
    else 1 + FindPair(s[1..], a, b)
  }

  /** Index of the first `a`, or the length when there is none. */
  function FindChar(s: string, a: char): (i: nat)
    ensures i <= |s| && (i < |s| ==> s[i] == a) && forall j :: 0 <= j < i ==> s[j] != a
  {
    if s == "" || s[0] == a then 0 else 1 + FindChar(s[1..], a)
  }

  predicate PairAt(s: string, i: int, a: char, b: char) {
    0 <= i && i + 1 < |s| && s[i] == a && s[i + 1] == b
  }

  ghost predicate HasPair(s: string, a: char, b: char) {
    exists i :: PairAt(s, i, a, b)
  }

  /** The pair is found where it first occurs. */
  lemma {:induction false} FindPairFirst(s: string, a: char, b: char, i: nat)
    requires i <= |s| && (i == |s| || PairAt(s, i, a, b)) && forall j :: 0 <= j < i ==> !PairAt(s, j, a, b)
    ensures FindPair(s, a, b) == i
  {
    if |s| < 2 {
      assert i != |s| ==> PairAt(s, i, a, b);
    } else if s[0] == a && s[1] == b {
      assert PairAt(s, 0, a, b);
    } else {
      assert i != 0;
      forall j | 0 <= j < i - 1
        ensures !PairAt(s[1..], j, a, b)
      {
        assert !PairAt(s, j + 1, a, b);
      }
      FindPairFirst(s[1..], a, b, i - 1);
    }
  }

  lemma {:induction false} NoPairCons(c: char, s: string, a: char, b: char)
    requires !HasPair(s, a, b) && (s == "" || c != a || s[0] != b)
    ensures !HasPair([c] + s, a, b)
  {
    var t := [c] + s;
    forall j: int
      ensures !PairAt(t, j, a, b)
    {
      assert PairAt(t, j, a, b) && j > 0 ==> PairAt(s, j - 1, a, b);
    }
  }

  lemma {:induction false} FindPairFound(s: string, a: char, b: char)
    ensures var i := FindPair(s, a, b);
      (i < |s| <==> HasPair(s, a, b)) && !HasPair(s[..i], a, b)
  {
    if |s| >= 2 && !(s[0] == a && s[1] == b) {
      FindPairFound(s[1..], a, b);
      var i := FindPair(s[1..], a, b);
      if HasPair(s, a, b) {
        var j :| PairAt(s, j, a, b);
        assert PairAt(s[1..], j - 1, a, b);
      }
      if i < |s| - 1 {
        assert PairAt(s, i + 1, a, b);
      }
      NoPairCons(s[0], s[1..][..i], a, b);
      assert s[..i + 1] == [s[0]] + s[1..][..i];
      assert i > 0 ==> s[1..][..i][0] == s[1];
    } else if |s| >= 2 {
      assert PairAt(s, 0, a, b);
    }
  }

  lemma {:induction false} PartHasPair(r: string, s: string, a: char, b: char)
    requires Part(r, s) && HasPair(r, a, b)
    ensures HasPair(s, a, b)
  {
    var i :| PairAt(r, i, a, b);
    var lo, hi :| 0 <= lo <= hi <= |s| && r == s[lo..hi];
    assert PairAt(s, lo + i, a, b);
  }

  lemma {:induction false} PartHasNoPair(r: string, s: string, a: char, b: char)
    requires Part(r, s) && !HasPair(s, a, b)
    ensures !HasPair(r, a, b)
  {
    if HasPair(r, a, b) {
      PartHasPair(r, s, a, b);
    }
  }

  lemma {:induction false} PairHasSecond(s: string, a: char, b: char)
    requires HasPair(s, a, b)
    ensures b in s
  {
    var i :| PairAt(s, i, a, b);
    assert s[i + 1] in s;
  }

  lemma {:induction false} PartHasNot(r: string, s: string, c: char)
    requires Part(r, s) && c !in s
    ensures c !in r
  {
    var lo, hi :| 0 <= lo <= hi <= |s| && r == s[lo..hi];
    assert forall i :: 0 <= i < |r| ==> r[i] == s[lo + i] && s[lo + i] in s;
  }

  // ---------------------------------------------------------------------
  // Splitting
  // ---------------------------------------------------------------------

  function Split(s: string, sep: char): (r: seq<string>)
    ensures r != []
  {
    var i := FindChar(s, sep);
    if i == |s| then [s] else [s[..i]] + Split(s[i + 1..], sep)
  }

  function Join(parts: seq<string>, sep: char): string {
    if |parts| == 0 then ""
    else if |parts| == 1 then parts[0]
    else parts[0] + [sep] + Join(parts[1..], sep)
  }

  lemma {:induction false} FindCharIs(s: string, a: char, i: nat)
    requires i <= |s| && (i < |s| ==> s[i] == a) && forall j :: 0 <= j < i ==> s[j] != a
    ensures FindChar(s, a) == i
  {
    var j := FindChar(s, a);
    if j < |s| {
      assert s[j] == a;
    }
  }

  lemma {:induction false} SplitJoin(parts: seq<string>, sep: char)
    requires parts != [] && forall i :: 0 <= i < |parts| ==> sep !in parts[i]
    ensures Split(Join(parts, sep), sep) == parts
  {
    var first, text := parts[0], Join(parts, sep);
    if |parts| == 1 {
      FindCharIs(first, sep, |first|);
      assert parts == [first];
    } else {
      var rest := Join(parts[1..], sep);
      assert text == first + ([sep] + rest);
      FindCharIs(text, sep, |first|);
      assert text[..|first|] == first && text[|first| + 1..] == rest;
      SplitJoin(parts[1..], sep);
    }
  }

  lemma {:induction false} SplitFree(s: string, sep: char)
    ensures forall i :: 0 <= i < |Split(s, sep)| ==> sep !in Split(s, sep)[i]
  {
    var i := FindChar(s, sep);
    if i < |s| {
      SplitFree(s[i + 1..], sep);
    }
  }
}
