/** White space around keys, operators, values and commas makes no difference to what a selector
    means; between a key and its operator it keeps them apart. */
module SelectorSpaces {
  import opened Wrappers
  import opened Texts
  import opened Selectors

  ghost predicate Blank(s: string) {
    forall i :: 0 <= i < |s| ==> IsSpace(s[i])
  }

  lemma {:induction false} TrimStartBlank(p: string, s: string)
    requires Blank(p)
    ensures TrimStart(p + s) == TrimStart(s)
  {
    if p == "" {
      assert p + s == s;
    } else {
      assert (p + s)[1..] == p[1..] + s;
      TrimStartBlank(p[1..], s);
    }
  }

  lemma {:induction false} TrimEndBlank(s: string, q: string)
    requires Blank(q)
    ensures TrimEnd(s + q) == TrimEnd(s)
  {
    if q == "" {
      assert s + q == s;
    } else {
      assert (s + q)[..|s + q| - 1] == s + q[..|q| - 1];
      TrimEndBlank(s, q[..|q| - 1]);
    }
  }

  lemma {:induction false} TrimNeither(s: string, q: string)
    requires Trimmed(s) && s != ""
    ensures TrimStart(s + q) == s + q && TrimEnd(s) == s
  {
  }

  /** Trimming a padded text gives the text. */
  lemma {:induction false} TrimPadded(p: string, s: string, q: string)
    requires Blank(p) && Blank(q) && Trimmed(s)
    ensures Trim(p + s + q) == s
  {
    assert p + s + q == p + (s + q);
    TrimStartBlank(p, s + q);
    if s == "" {
      assert s + q == q + "";
      TrimStartBlank(q, "");
    } else {
      TrimNeither(s, q);
      TrimEndBlank(s, q);
    }
  }

  /** Padding a text makes no pair of characters that are not spaces, if it goes on its far side. */
  lemma {:induction false} PadAfter(k: string, p: string, a: char, b: char)
    requires Blank(p) && !IsSpace(a) && !IsSpace(b) && !HasPair(k, a, b)
    ensures !HasPair(k + p, a, b)
  {
    var s := k + p;
    forall i | 0 <= i < |s|
      ensures !PairAt(s, i, a, b)
    {
      assert i + 1 < |s| && i + 1 >= |k| ==> s[i + 1] == p[i + 1 - |k|];
      assert PairAt(s, i, a, b) && i + 1 < |k| ==> PairAt(k, i, a, b);
    }
  }

  lemma {:induction false} PadBefore(q: string, v: string, a: char, b: char)
    requires Blank(q) && !IsSpace(a) && !IsSpace(b) && !HasPair(v, a, b)
    ensures !HasPair(q + v, a, b)
  {
    var s := q + v;
    forall i | 0 <= i < |s|
      ensures !PairAt(s, i, a, b)
    {
      assert i < |q| ==> s[i] == q[i];
      assert PairAt(s, i, a, b) && i >= |q| ==> PairAt(v, i - |q|, a, b);
    }
  }

  // ---------------------------------------------------------------------
  // One clause
  // ---------------------------------------------------------------------

  /** A clause written with white space before and after its operator. */
  function Spaced(c: Clause, p: string, q: string): string {
    match c
    case Eq(k, v) => (k + p) + "=" + (q + v)
    case Ne(k, v) => (k + p) + "!=" + (q + v)
    case Glob(k, g) => (k + p) + "~=" + (q + g)
    case Present(k) => (k + p) + "?"
    case Absent(k) => (k + p) + "!?"
  }

  /** The operator is apart from the key, by its nature or by white space. */
  predicate Apart(c: Clause, p: string) {
    p != "" || Unambiguous(c)
  }

  lemma {:induction false} KeyPadded(k: string, p: string)
    requires ValidKey(k) && Blank(p)
    ensures Trim(k + p) == k && (p != "" ==> IsSpace((k + p)[|k + p| - 1]))
  {
    KeyTrimmed(k);
    assert "" + k + p == k + p;
    TrimPadded("", k, p);
  }

  lemma {:induction false} ValuePadded(q: string, v: string)
    requires Trimmed(v) && Blank(q)
    ensures Trim(q + v) == v
  {
    assert q + v + "" == q + v;
    TrimPadded(q, v, "");
  }

  lemma {:induction false} LastIs(s: string, x: char, y: char)
    requires s != ""
    ensures EndsWith(s, [x]) <==> s[|s| - 1] == x
    ensures EndsWith(s, [x, y]) ==> s[|s| - 1] == y
  {
    assert s[|s| - 1..] == [s[|s| - 1]];
    if EndsWith(s, [x, y]) {
      assert s[|s| - 2..][1] == s[|s| - 1];
    }
  }

  /** No infix clause, however spaced, ends in a question mark. */
  lemma {:induction false} NoQuestion(key: string, op: string, rest: string, v: string, q: string)
    requires rest == q + v && Blank(q) && op != "" && op[|op| - 1] != '?' && (v != "" ==> v[|v| - 1] != '?')
    ensures var s := key + op + rest; !EndsWith(s, "!?") && !EndsWith(s, "?")
  {
    var s := key + op + rest;
    LastIs(s, '?', '?');
    LastIs(s, '!', '?');
    assert s[|s| - 1] != '?' by {
      if v != "" {
        assert s[|s| - 1] == v[|v| - 1];
      } else if q != "" {
        assert s[|s| - 1] == q[|q| - 1];
        assert !IsSpace('?');
      } else {
        assert s[|s| - 1] == op[|op| - 1];
      }
    }
  }

  lemma {:induction false} SpacedGlob(k: string, g: string, p: string, q: string)
    requires Parsed(Glob(k, g)) && Blank(p) && Blank(q)
    ensures ParseClause(Spaced(Glob(k, g), p, q)) == Success(Glob(k, g))
  {
    NoQuestion(k + p, "~=", q + g, g, q);
    PadAfter(k, p, '~', '=');
    OperatorFound(k + p, "~=", q + g, '~', '=');
    Pieces(k + p, "~=", q + g);
    KeyTrimmed(k);
    KeyPadded(k, p);
    ValuePadded(q, g);
  }

  lemma {:induction false} SpacedNe(k: string, v: string, p: string, q: string)
    requires Parsed(Ne(k, v)) && Blank(p) && Blank(q)
    ensures ParseClause(Spaced(Ne(k, v), p, q)) == Success(Ne(k, v))
  {
    NoQuestion(k + p, "!=", q + v, v, q);
    PadAfter(k, p, '~', '=');
    PadBefore(q, v, '~', '=');
    assert forall i :: !PairAt("!=", i, '~', '=');
    NoPairAcross(k + p, "!=", q + v, '~', '=');
    PadAfter(k, p, '!', '=');
    OperatorFound(k + p, "!=", q + v, '!', '=');
    Pieces(k + p, "!=", q + v);
    KeyTrimmed(k);
    KeyPadded(k, p);
    ValuePadded(q, v);
  }

  lemma {:induction false} KeyEnd(k: string, p: string, a: char)
    requires Blank(p) && !IsSpace(a) && (p != "" || !EndsIn(k, a))
    ensures !EndsIn(k + p, a)
  {
    if p != "" {
      assert (k + p)[|k + p| - 1] == p[|p| - 1];
    } else {
      assert k + p == k;
    }
  }

  lemma {:induction false} SpacedEq(k: string, v: string, p: string, q: string)
    requires Parsed(Eq(k, v)) && Blank(p) && Blank(q) && Apart(Eq(k, v), p)
    ensures ParseClause(Spaced(Eq(k, v), p, q)) == Success(Eq(k, v))
  {
    var s := (k + p) + "=" + (q + v);
    NoQuestion(k + p, "=", q + v, v, q);
    EqNoPair(k, v, p, q, '~');
    EqNoPair(k, v, p, q, '!');
    assert '=' !in k + p by {
      assert forall i :: 0 <= i < |p| ==> p[i] != '=';
    }
    FindCharIs(s, '=', |k + p|);
    Pieces(k + p, "=", q + v);
    KeyTrimmed(k);
    KeyPadded(k, p);
    ValuePadded(q, v);
  }

  lemma {:induction false} EqNoPair(k: string, v: string, p: string, q: string, a: char)
    requires Parsed(Eq(k, v)) && Blank(p) && Blank(q) && Apart(Eq(k, v), p) && (a == '~' || a == '!')
    ensures FindPair((k + p) + "=" + (q + v), a, '=') == |(k + p) + "=" + (q + v)|
  {
    NoEqualsNoPair(k, a);
    PadAfter(k, p, a, '=');
    PadBefore(q, v, a, '=');
    KeyEnd(k, p, a);
    assert forall i :: !PairAt("=", i, a, '=');
    NoPairAcross(k + p, "=", q + v, a, '=');
  }

  lemma {:induction false} SpacedSuffix(c: Clause, p: string)
    requires Parsed(c) && (c.Present? || c.Absent?) && Blank(p) && Apart(c, p)
    ensures ParseClause(Spaced(c, p, "")) == Success(c)
  {
    var key := c.key + p;
    KeyTrimmed(c.key);
    KeyPadded(c.key, p);
    if c.Absent? {
      var s := key + "!?";
      assert s[|s| - 2..] == "!?" && s[..|s| - 2] == key;
    } else {
      var s := key + "?";
      assert s[|s| - 1..] == "?" && s[..|s| - 1] == key;
      KeyEnd(c.key, p, '!');
      assert !EndsWith(s, "!?") by {
        assert |s| >= 2 && s[|s| - 2..] == [s[|s| - 2], s[|s| - 1]];
      }
    }
  }

  /** A clause reads as itself however it is spaced, as long as its key is apart from the operator. */
  lemma {:induction false} SpacedReads(c: Clause, p: string, q: string)
    requires Parsed(c) && Blank(p) && Blank(q) && Apart(c, p)
    ensures ParseClause(Spaced(c, p, q)) == Success(c)
  {
    match c
    case Eq(k, v) => SpacedEq(k, v, p, q);
    case Ne(k, v) => SpacedNe(k, v, p, q);
    case Glob(k, g) => SpacedGlob(k, g, p, q);
    case _ =>
      SpacedSuffix(c, p);
      assert Spaced(c, p, q) == Spaced(c, p, "");
  }

  // ---------------------------------------------------------------------
  // A whole selector
  // ---------------------------------------------------------------------

  /** Pieces that each read as their clause read, together, as the clauses. */
  lemma {:induction false} PiecesAreClauses(pieces: seq<string>, clauses: seq<Clause>)
    requires |pieces| == |clauses|
    requires forall i :: 0 <= i < |pieces| ==> Trim(pieces[i]) != "" && ParseClause(Trim(pieces[i])) == Success(clauses[i])
    ensures ParsePieces(pieces) == Success(clauses)
  {
    if pieces != [] {
      PiecesAreClauses(pieces[1..], clauses[1..]);
      assert clauses == [clauses[0]] + clauses[1..];
    }
  }

  /** The white space around and inside one clause. */
  datatype Spacing = Spacing(before: string, afterKey: string, beforeValue: string, after: string)

  function Written(c: Clause, sp: Spacing): string {
    sp.before + Spaced(c, sp.afterKey, sp.beforeValue) + sp.after
  }

  function ValueOf(c: Clause): string {
    match c
    case Eq(_, v) => v
    case Ne(_, v) => v
    case Glob(_, g) => g
    case _ => ""
  }

  /** Only white space; what follows an empty value follows the clause; and the key is apart from
      its operator. */
  ghost predicate Spaces(c: Clause, sp: Spacing) {
    Blank(sp.before) && Blank(sp.afterKey) && Blank(sp.beforeValue) && Blank(sp.after) &&
    (ValueOf(c) == "" ==> sp.beforeValue == "") && Apart(c, sp.afterKey)
  }

  lemma {:induction false} BlankHasNoComma(s: string)
    requires Blank(s)
    ensures ',' !in s
  {
  }

  lemma {:induction false} SpacedTrimmed(c: Clause, sp: Spacing)
    requires Parsed(c) && Spaces(c, sp)
    ensures var s := Spaced(c, sp.afterKey, sp.beforeValue); s != "" && Trimmed(s)
  {
    var s := Spaced(c, sp.afterKey, sp.beforeValue);
    KeyTrimmed(c.key);
    assert s[0] == c.key[0];
    if ValueOf(c) != "" {
      assert s[|s| - 1] == ValueOf(c)[|ValueOf(c)| - 1];
    }
  }

  lemma {:induction false} WrittenFree(c: Clause, sp: Spacing)
    requires Parsed(c) && Spaces(c, sp)
    ensures ',' !in Written(c, sp)
  {
    BlankHasNoComma(sp.before);
    BlankHasNoComma(sp.afterKey);
    BlankHasNoComma(sp.beforeValue);
    BlankHasNoComma(sp.after);
    NoCommas(c);
  }

  lemma {:induction false} WrittenReads(c: Clause, sp: Spacing)
    requires Parsed(c) && Spaces(c, sp)
    ensures Trim(Written(c, sp)) != "" && ParseClause(Trim(Written(c, sp))) == Success(c) && ',' !in Written(c, sp)
  {
    SpacedReads(c, sp.afterKey, sp.beforeValue);
    SpacedTrimmed(c, sp);
    TrimPadded(sp.before, Spaced(c, sp.afterKey, sp.beforeValue), sp.after);
    WrittenFree(c, sp);
  }

  lemma {:induction false} NoCommas(c: Clause)
    requires Parsed(c)
    ensures ',' !in c.key && ',' !in ValueOf(c)
  {
  }

  /** A selector written with any white space reads as its clauses. */
  lemma {:induction false} SpacedSelector(clauses: seq<Clause>, spacings: seq<Spacing>, texts: seq<string>)
    requires clauses != [] && |texts| == |clauses| == |spacings|
    requires forall i :: 0 <= i < |clauses| ==>
      Parsed(clauses[i]) && Spaces(clauses[i], spacings[i]) && texts[i] == Written(clauses[i], spacings[i])
    ensures ParseText(Join(texts, ',')) == Success(clauses)
  {
    forall i | 0 <= i < |texts|
      ensures Trim(texts[i]) != "" && ParseClause(Trim(texts[i])) == Success(clauses[i]) && ',' !in texts[i]
    {
      WrittenReads(clauses[i], spacings[i]);
    }
    SplitJoin(texts, ',');
    PiecesAreClauses(texts, clauses);
  }
}
