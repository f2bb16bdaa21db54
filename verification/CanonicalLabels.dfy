/** The canonical text of a label set: sorted, escaped, empty values and the name left
    out. Two label sets have the same text exactly when they mean the same. */
module CanonicalLabels {
  import opened Wrappers
  import opened Keyed
  import opened Labels
  import opened Texts

  // ---------------------------------------------------------------------
  // Order on keys
  // ---------------------------------------------------------------------

  predicate Less(a: string, b: string) {
    b != "" && (a == "" || a[0] < b[0] || (a[0] == b[0] && Less(a[1..], b[1..])))
  }

  /** The order is by the first character in which two keys differ, a shorter key before its
      extensions. */
  lemma {:induction false} LessMeans(a: string, b: string)
    ensures Less(a, b) <==>
            exists i :: 0 <= i <= |a| && i < |b| && a[..i] == b[..i] && (i == |a| || a[i] < b[i])
  {
    if b != "" && a != "" && a[0] == b[0] {
      LessMeans(a[1..], b[1..]);
      if Less(a, b) {
        var i :| 0 <= i <= |a[1..]| && i < |b[1..]| && a[1..][..i] == b[1..][..i] && (i == |a[1..]| || a[1..][i] < b[1..][i]);
        FirstDiffers(a, b, i);
      }
      if i :| 0 <= i <= |a| && i < |b| && a[..i] == b[..i] && (i == |a| || a[i] < b[i]) {
        assert i > 0;
        TailDiffers(a, b, i);
      }
    } else if b != "" && (a == "" || a[0] < b[0]) {
      assert a[..0] == b[..0];
    }
  }

  lemma {:induction false} FirstDiffers(a: string, b: string, i: nat)
    requires a != "" && b != "" && a[0] == b[0] && i <= |a[1..]| && i < |b[1..]| && a[1..][..i] == b[1..][..i]
    requires i == |a[1..]| || a[1..][i] < b[1..][i]
    ensures exists j :: 0 <= j <= |a| && j < |b| && a[..j] == b[..j] && (j == |a| || a[j] < b[j])
  {
    var j := i + 1;
    assert a[..j] == [a[0]] + a[1..][..i] && b[..j] == [b[0]] + b[1..][..i];
  }

  lemma {:induction false} TailDiffers(a: string, b: string, i: nat)
    requires 0 < i <= |a| && i < |b| && a[..i] == b[..i] && (i == |a| || a[i] < b[i])
    ensures exists j :: 0 <= j <= |a[1..]| && j < |b[1..]| && a[1..][..j] == b[1..][..j] &&
                        (j == |a[1..]| || a[1..][j] < b[1..][j])
  {
    var j := i - 1;
    assert a[1..][..j] == a[..i][1..] && b[1..][..j] == b[..i][1..];
  }

  lemma {:induction false} LessTransitive(a: string, b: string, c: string)
    requires Less(a, b) && Less(b, c)
    ensures Less(a, c)
  {
    if a != "" && a[0] == b[0] == c[0] {
      LessTransitive(a[1..], b[1..], c[1..]);
    }
  }

  lemma {:induction false} LessIrreflexive(a: string)
    ensures !Less(a, a)
  {
    if a != "" {
      LessIrreflexive(a[1..]);
    }
  }

  lemma {:induction false} LessTotal(a: string, b: string)
    ensures a == b || Less(a, b) || Less(b, a)
  {
    if a != "" && b != "" && a[0] == b[0] {
      LessTotal(a[1..], b[1..]);
      assert a == [a[0]] + a[1..] && b == [b[0]] + b[1..];
    }
  }

  // ---------------------------------------------------------------------
  // Sorting
  // ---------------------------------------------------------------------

  ghost predicate Ascending(s: Labels) {
    forall i, j :: 0 <= i < j < |s| ==> Less(s[i].key, s[j].key)
  }

  function Insert(s: Labels, e: Entry<string, string>): Labels {
    if s == [] || Less(e.key, s[0].key) then [e] + s else [s[0]] + Insert(s[1..], e)
  }

  function Sorted(s: Labels): Labels {
    if s == [] then [] else Insert(Sorted(s[..|s| - 1]), s[|s| - 1])
  }

  lemma {:induction false} InsertSorts(s: Labels, e: Entry<string, string>)
    requires Ascending(s) && forall x :: x in s ==> x.key != e.key
    ensures Ascending(Insert(s, e)) && forall x :: x in Insert(s, e) <==> x == e || x in s
  {
    if s == [] {
    } else if Less(e.key, s[0].key) {
      AscendingCons(e, s);
    } else {
      LessTotal(e.key, s[0].key);
      assert s[0] in s;
      assert forall x :: x in s[1..] ==> x in s;
      InsertSorts(s[1..], e);
      var r := Insert(s[1..], e);
      forall x | x in r
        ensures Less(s[0].key, x.key)
      {
        if x != e {
          var i :| 0 <= i < |s[1..]| && s[1..][i] == x;
          assert s[i + 1] == x;
        }
      }
      AscendingAll(s[0], r);
      assert s == [s[0]] + s[1..];
    }
  }

  lemma {:induction false} AscendingAll(e: Entry<string, string>, s: Labels)
    requires Ascending(s) && forall x :: x in s ==> Less(e.key, x.key)
    ensures Ascending([e] + s)
  {
    assert forall j :: 0 <= j < |s| ==> s[j] in s;
  }

  lemma {:induction false} AscendingCons(e: Entry<string, string>, s: Labels)
    requires Ascending(s) && s != [] && Less(e.key, s[0].key)
    ensures Ascending([e] + s)
  {
    forall x | x in s
      ensures Less(e.key, x.key)
    {
      var j :| 0 <= j < |s| && s[j] == x;
      if j > 0 {
        LessTransitive(e.key, s[0].key, s[j].key);
      }
    }
    AscendingAll(e, s);
  }

  lemma {:induction false} SortedSorts(s: Labels)
    requires Distinct(s)
    ensures Ascending(Sorted(s)) && forall x :: x in Sorted(s) <==> x in s
  {
    if s != [] {
      var init, last := s[..|s| - 1], s[|s| - 1];
      SortedSorts(init);
      assert s == init + [last];
      forall x | x in Sorted(init)
        ensures x.key != last.key
      {
        var i :| 0 <= i < |init| && init[i] == x;
        assert s[i].key != s[|s| - 1].key;
      }
      InsertSorts(Sorted(init), last);
    }
  }

  lemma {:induction false} HeadLeast(s: Labels, x: Entry<string, string>)
    requires Ascending(s) && x in s
    ensures s[0] == x || Less(s[0].key, x.key)
  {
    var i :| 0 <= i < |s| && s[i] == x;
  }

  lemma {:induction false} TailElements(s: Labels, x: Entry<string, string>)
    requires Ascending(s) && s != []
    ensures x in s[1..] <==> x in s && x != s[0]
  {
    assert s == [s[0]] + s[1..];
    if x in s[1..] {
      var i :| 0 <= i < |s[1..]| && s[1..][i] == x;
      assert s[i + 1] == x;
      LessIrreflexive(x.key);
    }
  }

  lemma {:induction false} SameLength(a: Labels, b: Labels)
    requires Ascending(a) && Ascending(b) && forall x :: x in a <==> x in b
    ensures a == [] <==> b == []
  {
    if a != [] {
      assert a[0] in b;
    }
    if b != [] {
      assert b[0] in a;
    }
  }

  /** A sorted list is determined by what is in it. */
  lemma {:induction false} AscendingUnique(a: Labels, b: Labels)
    requires Ascending(a) && Ascending(b) && forall x :: x in a <==> x in b
    ensures a == b
  {
    SameLength(a, b);
    if a != [] {
      assert a[0] in b && b[0] in a;
      HeadLeast(a, b[0]);
      HeadLeast(b, a[0]);
      if a[0] != b[0] {
        LessTransitive(a[0].key, b[0].key, a[0].key);
        LessIrreflexive(a[0].key);
      }
      forall x
        ensures x in a[1..] <==> x in b[1..]
      {
        TailElements(a, x);
        TailElements(b, x);
      }
      AscendingUnique(a[1..], b[1..]);
      assert a == [a[0]] + a[1..] && b == [b[0]] + b[1..];
    }
  }

  // ---------------------------------------------------------------------
  // Escaping
  // ---------------------------------------------------------------------

  function EscapeChar(c: char): string {
    if c == '\\' then "\\\\"
    else if c == '"' then "\\\""
    else if c == '\n' then "\\n"
    else [c]
  }

  function Escape(v: string): string {
    if v == "" then "" else EscapeChar(v[0]) + Escape(v[1..])
  }

  /** Read an escaped value up to its closing quote: the value and what follows. */
  function ReadValue(s: string): Option<(string, string)> {
    if s == "" then None
    else if s[0] == '"' then Some(("", s[1..]))
    else if s[0] == '\\' && |s| == 1 then None
    else
      var c, n := if s[0] != '\\' then s[0] else if s[1] == 'n' then '\n' else s[1], if s[0] == '\\' then 2 else 1;
      match ReadValue(s[n..])
      case None => None
      case Some((v, rest)) => Some(([c] + v, rest))
  }

  lemma {:induction false} ReadOne(c: char, tail: string)
    ensures var s := EscapeChar(c) + tail;
      s != "" && s[0] != '"' && ReadValue(s) ==
      match ReadValue(tail)
      case None => None
      case Some((v, rest)) => Some(([c] + v, rest))
  {
    var s, e := EscapeChar(c) + tail, EscapeChar(c);
    assert s[|e|..] == tail;
  }

  /** Escaping can be undone. */
  lemma {:induction false} ReadEscaped(v: string, rest: string)
    ensures ReadValue(Escape(v) + ("\"" + rest)) == Some((v, rest))
  {
    if v == "" {
      assert "" + ("\"" + rest) == "\"" + rest;
      assert ("\"" + rest)[1..] == rest;
    } else {
      ReadEscaped(v[1..], rest);
      ReadOne(v[0], Escape(v[1..]) + ("\"" + rest));
      Regroup(EscapeChar(v[0]), Escape(v[1..]), "\"" + rest);
      assert v == [v[0]] + v[1..];
    }
  }

  lemma {:induction false} Regroup(x: string, y: string, z: string)
    ensures x + y + z == x + (y + z)
  {
  }

  // ---------------------------------------------------------------------
  // The text
  // ---------------------------------------------------------------------

  const NAME_LABEL := "__name__"

  predicate Shown(e: Entry<string, string>) {
    e.val != "" && e.key != NAME_LABEL
  }

  /** Pairs that are shown, in insertion order. */
  function Kept(labels: Labels): (r: Labels)
    ensures forall x :: x in r <==> x in labels && Shown(x)
  {
    if labels == [] then []
    else
      var last := labels[|labels| - 1];
      assert labels == labels[..|labels| - 1] + [last];
      Kept(labels[..|labels| - 1]) + if Shown(last) then [last] else []
  }

  function PairText(e: Entry<string, string>): string {
    e.key + "=\"" + (Escape(e.val) + "\"")
  }

  /** The pairs, commas between, and the closing brace. */
  function Block(pairs: Labels): string {
    if pairs == [] then "}" else PairText(pairs[0]) + Remainder(pairs[1..])
  }

  function Remainder(pairs: Labels): string {
    if pairs == [] then "}" else "," + PairText(pairs[0]) + Remainder(pairs[1..])
  }

  function CanonicalText(name: string, labels: Labels): string {
    name + "{" + Block(Sorted(Kept(labels)))
  }

  /** `to_canonical_spec`. */
  method ToCanonicalSpec(name: string, labels: Labels) returns (out: string)
    ensures out == CanonicalText(name, labels)
  {
    var pairs := Sorted(Kept(labels));
    out := name + "{";
    var first := true;
    for i := 0 to |pairs|
      invariant first <==> i == 0
      invariant out + FromPair(pairs, i) == CanonicalText(name, labels)
    {
      NextPair(out, pairs, i);
      if !first {
        out := out + ",";
      }
      first := false;
      out := out + PairText(pairs[i]);
    }
    out := out + "}";
  }

  /** What is still to be written from the i-th pair on. */
  function FromPair(pairs: Labels, i: nat): string
    requires i <= |pairs|
  {
    if i == 0 then Block(pairs) else Remainder(pairs[i..])
  }

  lemma {:induction false} NextPair(out: string, pairs: Labels, i: nat)
    requires i < |pairs|
    ensures out + FromPair(pairs, i) ==
            (if i == 0 then out else out + ",") + PairText(pairs[i]) + FromPair(pairs, i + 1)
  {
    var rest := Remainder(pairs[i + 1..]);
    assert pairs[i..][1..] == pairs[i + 1..] && pairs[1..] == pairs[0 + 1..];
    Regroup(out, PairText(pairs[i]), rest);
    Regroup(out, ",", PairText(pairs[i]));
    Regroup(out, "," + PairText(pairs[i]), rest);
  }

  // ---------------------------------------------------------------------
  // Reading it back
  // ---------------------------------------------------------------------

  predicate Initial(c: char) {
    'A' <= c <= 'Z' || 'a' <= c <= 'z' || c == '_'
  }

  /** `check_label_name`. */
  predicate LabelName(k: string) {
    k != "" && Initial(k[0]) && forall i :: 0 <= i < |k| ==> Initial(k[i]) || '0' <= k[i] <= '9'
  }

  ghost predicate Named(pairs: Labels) {
    forall i :: 0 <= i < |pairs| ==> LabelName(pairs[i].key)
  }

  lemma {:induction false} KeyEnds(a: Entry<string, string>, x: string)
    requires LabelName(a.key)
    ensures FindChar(PairText(a) + x, '=') == |a.key| && (PairText(a) + x)[..|a.key|] == a.key
  {
    var s := PairText(a) + x;
    assert s[..|a.key|] == a.key;
    forall j | 0 <= j < |a.key|
      ensures s[j] != '='
    {
      assert s[j] == a.key[j];
    }
    FindCharIs(s, '=', |a.key|);
  }

  lemma {:induction false} ValueReads(a: Entry<string, string>, x: string)
    ensures ReadValue((PairText(a) + x)[|a.key| + 2..]) == Some((a.val, x))
  {
    ReadEscaped(a.val, x);
    var quoted := Escape(a.val) + "\"";
    Regroup(Escape(a.val), "\"", x);
    assert (PairText(a) + x)[|a.key| + 2..] == quoted + x;
  }

  /** Two texts that start with a pair start with the same pair. */
  lemma {:induction false} PairReads(a: Entry<string, string>, x: string, b: Entry<string, string>, y: string)
    requires LabelName(a.key) && LabelName(b.key) && PairText(a) + x == PairText(b) + y
    ensures a == b && x == y
  {
    KeyEnds(a, x);
    KeyEnds(b, y);
    ValueReads(a, x);
    ValueReads(b, y);
  }

  lemma {:induction false} RemainderTail(a: Labels)
    requires a != []
    ensures Remainder(a)[1..] == PairText(a[0]) + Remainder(a[1..])
  {
    Regroup(",", PairText(a[0]), Remainder(a[1..]));
  }

  lemma {:induction false} Cons(a: Labels)
    requires a != []
    ensures a == [a[0]] + a[1..]
  {
  }

  lemma {:induction false} RemainderReads(a: Labels, b: Labels)
    requires Named(a) && Named(b) && Remainder(a) == Remainder(b)
    ensures a == b
  {
    RemainderStarts(a);
    RemainderStarts(b);
    if a != [] {
      RemainderTail(a);
      RemainderTail(b);
      PairReads(a[0], Remainder(a[1..]), b[0], Remainder(b[1..]));
      RemainderReads(a[1..], b[1..]);
      Cons(a);
      Cons(b);
    }
  }

  lemma {:induction false} RemainderStarts(a: Labels)
    ensures Remainder(a) != "" && Remainder(a)[0] == if a == [] then '}' else ','
  {
  }

  lemma {:induction false} BlockStarts(a: Labels)
    requires Named(a)
    ensures Block(a) != "" && (Block(a)[0] == '}' <==> a == [])
  {
    if a != [] {
      assert Block(a)[0] == a[0].key[0];
    }
  }

  lemma {:induction false} BlockReads(a: Labels, b: Labels)
    requires Named(a) && Named(b) && Block(a) == Block(b)
    ensures a == b
  {
    BlockStarts(a);
    BlockStarts(b);
    if a != [] {
      PairReads(a[0], Remainder(a[1..]), b[0], Remainder(b[1..]));
      RemainderReads(a[1..], b[1..]);
      assert a == [a[0]] + a[1..] && b == [b[0]] + b[1..];
    }
  }

  // ---------------------------------------------------------------------
  // A faithful name
  // ---------------------------------------------------------------------

  /** The value a label set gives a name once empty values and the name label are dropped. */
  function Meaning(labels: Labels, key: string): Option<string> {
    var v := Lookup(labels, key);
    if v.Some? && Shown(Entry(key, v.value)) then v else None
  }

  lemma {:induction false} KeptMeans(labels: Labels, x: Entry<string, string>)
    requires Distinct(labels)
    ensures x in Kept(labels) <==> Meaning(labels, x.key) == Some(x.val)
  {
    if x in labels {
      var i :| 0 <= i < |labels| && labels[i] == x;
      LookupAt(labels, i);
    }
  }

  lemma {:induction false} KeptDistinct(labels: Labels)
    requires Distinct(labels)
    ensures Distinct(Kept(labels))
  {
    if labels != [] {
      var init, last := labels[..|labels| - 1], labels[|labels| - 1];
      KeptDistinct(init);
      forall x | x in Kept(init)
        ensures x.key != last.key
      {
        var i :| 0 <= i < |init| && init[i] == x;
        assert labels[i].key != labels[|labels| - 1].key;
      }
      assert forall i :: 0 <= i < |Kept(init)| ==> Kept(init)[i] in Kept(init);
    }
  }

  lemma {:induction false} SortedNamed(labels: Labels)
    requires Named(labels) && Distinct(labels)
    ensures Named(Sorted(Kept(labels)))
  {
    KeptDistinct(labels);
    SortedSorts(Kept(labels));
    var s := Sorted(Kept(labels));
    forall i | 0 <= i < |s|
      ensures LabelName(s[i].key)
    {
      assert s[i] in s;
      var j :| 0 <= j < |labels| && labels[j] == s[i];
    }
  }

  ghost predicate SameMeaning(a: Labels, b: Labels) {
    forall key :: Meaning(a, key) == Meaning(b, key)
  }

  lemma {:induction false} SameTextSameMeaning(a: Labels, b: Labels, name: string)
    requires Distinct(a) && Distinct(b) && Named(a) && Named(b)
    requires CanonicalText(name, a) == CanonicalText(name, b)
    ensures SameMeaning(a, b)
  {
    var x, y := Sorted(Kept(a)), Sorted(Kept(b));
    SortedNamed(a);
    SortedNamed(b);
    assert CanonicalText(name, a)[|name| + 1..] == Block(x);
    assert CanonicalText(name, b)[|name| + 1..] == Block(y);
    BlockReads(x, y);
    KeptDistinct(a);
    KeptDistinct(b);
    SortedSorts(Kept(a));
    SortedSorts(Kept(b));
    forall key
      ensures Meaning(a, key) == Meaning(b, key)
    {
      if Meaning(a, key).Some? {
        KeptMeans(a, Entry(key, Meaning(a, key).value));
        KeptMeans(b, Entry(key, Meaning(a, key).value));
      } else if Meaning(b, key).Some? {
        KeptMeans(a, Entry(key, Meaning(b, key).value));
        KeptMeans(b, Entry(key, Meaning(b, key).value));
      }
    }
  }

  lemma {:induction false} SameMeaningSameText(a: Labels, b: Labels, name: string)
    requires Distinct(a) && Distinct(b) && SameMeaning(a, b)
    ensures CanonicalText(name, a) == CanonicalText(name, b)
  {
    KeptDistinct(a);
    KeptDistinct(b);
    SortedSorts(Kept(a));
    SortedSorts(Kept(b));
    forall x
      ensures x in Sorted(Kept(a)) <==> x in Sorted(Kept(b))
    {
      KeptMeans(a, x);
      KeptMeans(b, x);
      assert Meaning(a, x.key) == Meaning(b, x.key);
    }
    AscendingUnique(Sorted(Kept(a)), Sorted(Kept(b)));
  }

  /** Under one metric name, two label sets print alike exactly when they mean the same,
      whatever order their pairs were inserted in. */
  lemma {:induction false} FaithfulName(a: Labels, b: Labels, name: string)
    requires Distinct(a) && Distinct(b) && Named(a) && Named(b)
    ensures CanonicalText(name, a) == CanonicalText(name, b) <==> SameMeaning(a, b)
  {
    if CanonicalText(name, a) == CanonicalText(name, b) {
      SameTextSameMeaning(a, b, name);
    }
    if SameMeaning(a, b) {
      SameMeaningSameText(a, b, name);
    }
  }

  // ---------------------------------------------------------------------
  // What the text looks like
  // ---------------------------------------------------------------------

  /** Between the braces stand the shown pairs, each once, keys ascending, commas between. */
  lemma {:induction false} TextIsOrdered(name: string, labels: Labels) returns (pairs: Labels)
    requires Distinct(labels)
    ensures CanonicalText(name, labels) == name + "{" + Block(pairs) && Ascending(pairs)
    ensures forall e :: e in pairs <==> e in labels && e.val != "" && e.key != "__name__"
  {
    pairs := Sorted(Kept(labels));
    KeptDistinct(labels);
    SortedSorts(Kept(labels));
  }

  predicate OneLine(s: string) {
    '\n' !in s
  }

  lemma {:induction false} EscapeOneLine(v: string)
    ensures OneLine(Escape(v))
  {
    if v != "" {
      EscapeOneLine(v[1..]);
    }
  }

  lemma {:induction false} PairOneLine(e: Entry<string, string>)
    requires OneLine(e.key)
    ensures OneLine(PairText(e))
  {
    EscapeOneLine(e.val);
  }

  ghost predicate KeysOneLine(pairs: Labels) {
    forall i :: 0 <= i < |pairs| ==> OneLine(pairs[i].key)
  }

  lemma {:induction false} RemainderOneLine(pairs: Labels)
    requires KeysOneLine(pairs)
    ensures OneLine(Remainder(pairs))
  {
    if pairs != [] {
      PairOneLine(pairs[0]);
      RemainderOneLine(pairs[1..]);
    }
  }

  /** Whatever the values are, the text is one line. */
  lemma {:induction false} TextIsOneLine(name: string, labels: Labels)
    requires OneLine(name) && Distinct(labels) && KeysOneLine(labels)
    ensures OneLine(CanonicalText(name, labels))
  {
    var pairs := TextIsOrdered(name, labels);
    forall i | 0 <= i < |pairs|
      ensures OneLine(pairs[i].key)
    {
      assert pairs[i] in pairs && pairs[i] in labels;
      var j :| 0 <= j < |labels| && labels[j] == pairs[i];
    }
    if pairs != [] {
      PairOneLine(pairs[0]);
      RemainderOneLine(pairs[1..]);
    }
  }
}
