/** The rendering of a label set that tells live siblings apart: faithful as long as no key holds
    an equals sign and no value a quote, which it does not escape. */
module LabelRendering {
  import opened Keyed
  import opened Labels
  import opened ComponentTree

  predicate Free(s: string, c: char) {
    c !in s
  }

  ghost predicate Plain(labels: Labels) {
    forall i :: 0 <= i < |labels| ==> Free(labels[i].key, '=') && Free(labels[i].val, '"')
  }

  lemma {:induction false} FirstAt(x: string, c: char, xs: string, s: string)
    requires Free(x, c) && s == x + [c] + xs
    ensures |x| < |s| && s[|x|] == c && (forall j :: 0 <= j < |x| ==> s[j] != c) && s[..|x|] == x && s[|x| + 1..] == xs
  {
    forall j | 0 <= j < |x|
      ensures s[j] != c
    {
      assert s[j] == x[j] && x[j] in x;
    }
  }

  /** Two texts that go on after the first `c` go on alike if they are the same text. */
  lemma {:induction false} SplitAt(x: string, y: string, c: char, xs: string, ys: string)
    requires Free(x, c) && Free(y, c) && x + [c] + xs == y + [c] + ys
    ensures x == y && xs == ys
  {
    var s := x + [c] + xs;
    FirstAt(x, c, xs, s);
    FirstAt(y, c, ys, s);
    assert |x| == |y|;
  }

  /** What follows the first pair's value. */
  function AfterValue(labels: Labels): string
    requires labels != []
  {
    (if |labels| == 1 then "" else ",") + RenderPairs(labels[1..])
  }

  lemma {:induction false} PairsParts(labels: Labels)
    requires labels != []
    ensures RenderPairs(labels) ==
            labels[0].key + ['='] + (['"'] + (labels[0].val + ['"'] + AfterValue(labels)))
  {
    var e, rest := labels[0], RenderPairs(labels[1..]);
    var comma := if |labels| == 1 then "" else ",";
    assert e.key + "=\"" + e.val + "\"" + comma + rest == e.key + ['='] + (['"'] + (e.val + ['"'] + (comma + rest)));
  }

  lemma {:induction false} PlainTail(labels: Labels)
    requires Plain(labels) && labels != []
    ensures Plain(labels[1..]) && Free(labels[0].key, '=') && Free(labels[0].val, '"')
  {
  }

  lemma {:induction false} SomePairs(labels: Labels)
    requires labels != []
    ensures RenderPairs(labels) != ""
  {
    PairsParts(labels);
  }

  lemma {:induction false} PairsFaithful(x: Labels, y: Labels)
    requires Plain(x) && Plain(y) && RenderPairs(x) == RenderPairs(y)
    ensures x == y
  {
    if x == [] {
      if y != [] {
        SomePairs(y);
      }
    } else if y == [] {
      SomePairs(x);
    } else {
      PlainTail(x);
      PlainTail(y);
      PairsParts(x);
      PairsParts(y);
      var xs, ys := x[0].val + ['"'] + AfterValue(x), y[0].val + ['"'] + AfterValue(y);
      SplitAt(x[0].key, y[0].key, '=', ['"'] + xs, ['"'] + ys);
      assert xs == (['"'] + xs)[1..] == (['"'] + ys)[1..] == ys;
      SplitAt(x[0].val, y[0].val, '"', AfterValue(x), AfterValue(y));
      TailsAlike(x, y);
      PairsFaithful(x[1..], y[1..]);
      assert x == [x[0]] + x[1..] && y == [y[0]] + y[1..];
    }
  }

  lemma {:induction false} EmptyAfter(labels: Labels)
    requires labels != []
    ensures AfterValue(labels) == "" <==> |labels| == 1
    ensures |labels| > 1 ==> AfterValue(labels) != "" && AfterValue(labels)[1..] == RenderPairs(labels[1..])
  {
    assert |labels| == 1 ==> labels[1..] == [] && RenderPairs([]) == "";
  }

  lemma {:induction false} TailsAlike(x: Labels, y: Labels)
    requires x != [] && y != [] && AfterValue(x) == AfterValue(y)
    ensures RenderPairs(x[1..]) == RenderPairs(y[1..])
  {
    EmptyAfter(x);
    EmptyAfter(y);
  }

  /** Plain label sets render alike only if they are the same, order included. */
  lemma {:induction false} RenderingFaithful(x: Labels, y: Labels)
    requires Plain(x) && Plain(y)
    ensures Rendering(x) == Rendering(y) <==> x == y
  {
    if Rendering(x) == Rendering(y) && x != [] && y != [] {
      var s, t := RenderPairs(x), RenderPairs(y);
      assert s == Rendering(x)[1..|Rendering(x)| - 1] && t == Rendering(y)[1..|Rendering(y)| - 1];
      PairsFaithful(x, y);
    }
  }

  /** With a quote in a value two different sets can render alike. */
  lemma {:induction false} QuotesCollide()
    ensures var x: Labels, y: Labels := [Entry("a", "1\",b=\"2")], [Entry("a", "1"), Entry("b", "2")];
      x != y && Rendering(x) == Rendering(y)
  {
    var x: Labels, y: Labels := [Entry("a", "1\",b=\"2")], [Entry("a", "1"), Entry("b", "2")];
    assert x[1..] == [] && y[1..] == [Entry("b", "2")] && y[1..][1..] == [];
    assert RenderPairs([]) == "";
    assert RenderPairs(y[1..]) == "b=\"2\"";
    assert RenderPairs(y) == "a=\"1\",b=\"2\"";
    assert RenderPairs(x) == "a=\"1\",b=\"2\"";
  }
}
