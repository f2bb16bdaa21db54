/** Selectors: parsing, printing and when one undoes the other. */
module Selectors {
  import opened Wrappers
  import opened Texts

  datatype Clause =
    | Eq(key: string, value: string)
    | Ne(key: string, value: string)
    | Glob(key: string, pattern: string)
    | Present(key: string)
    | Absent(key: string)

  datatype ParseError = NoOperator(clause: string) | EmptyKey | SpaceInKey(key: string)

  predicate HasSpace(s: string) {
    exists i :: 0 <= i < |s| && IsSpace(s[i])
  }

  /** `validate_key`. */
  function Checked(key: string, c: Clause): Result<Clause, ParseError> {
    if key == "" then Failure(EmptyKey)
    else if HasSpace(key) then Failure(SpaceInKey(key))
    else Success(c)
  }

  predicate EndsWith(s: string, suffix: string) {
    |s| >= |suffix| && s[|s| - |suffix|..] == suffix
  }

  /** `parse_clause`: suffix operators first, then the infix ones, each at its first occurrence. */
  function ParseClause(c: string): Result<Clause, ParseError> {
    if EndsWith(c, "!?") then
      var key := Trim(c[..|c| - 2]);
      Checked(key, Absent(key))
    else if EndsWith(c, "?") then
      var key := Trim(c[..|c| - 1]);
      Checked(key, Present(key))
    else if FindPair(c, '~', '=') < |c| then
      var i := FindPair(c, '~', '=');
      var key := Trim(c[..i]);
      Checked(key, Glob(key, Trim(c[i + 2..])))
    else if FindPair(c, '!', '=') < |c| then
      var i := FindPair(c, '!', '=');
      var key := Trim(c[..i]);
      Checked(key, Ne(key, Trim(c[i + 2..])))
    else if FindChar(c, '=') < |c| then
      var i := FindChar(c, '=');
      var key := Trim(c[..i]);
      Checked(key, Eq(key, Trim(c[i + 1..])))
    else Failure(NoOperator(c))
  }

  /** The clauses of the pieces, blank pieces aside, up to the first error. */
  function ParsePieces(pieces: seq<string>): Result<seq<Clause>, ParseError> {
    if pieces == [] then Success([])
    else
      var clause := Trim(pieces[0]);
      if clause == "" then ParsePieces(pieces[1..])
      else
        match ParseClause(clause)
        case Failure(e) => Failure(e)
        case Success(c) =>
          match ParsePieces(pieces[1..])
          case Failure(e) => Failure(e)
          case Success(more) => Success([c] + more)
  }

  function ParseText(s: string): Result<seq<Clause>, ParseError> {
    ParsePieces(Split(s, ','))
  }

  /** `Selector::parse`. */
  method Parse(s: string) returns (r: Result<seq<Clause>, ParseError>)
    ensures r == ParseText(s)
  {
    var pieces := Split(s, ',');
    var clauses: seq<Clause> := [];
    PiecesBegin(pieces);
    for i := 0 to |pieces|
      invariant ParsePieces(pieces) == Prefixed(clauses, ParsePieces(pieces[i..]))
    {
      NextPiece(pieces, i, clauses);
      var clause := Trim(pieces[i]);
      if clause != "" {
        var parsed := ParseClause(clause);
        if parsed.Failure? {
          return Failure(parsed.error);
        }
        clauses := clauses + [parsed.value];
      }
    }
    assert clauses + [] == clauses;
    r := Success(clauses);
  }

  function Prefixed(done: seq<Clause>, rest: Result<seq<Clause>, ParseError>): Result<seq<Clause>, ParseError> {
    match rest
    case Failure(e) => Failure(e)
    case Success(more) => Success(done + more)
  }

  lemma {:induction false} PrefixedSnoc(done: seq<Clause>, c: Clause, rest: Result<seq<Clause>, ParseError>)
    ensures Prefixed(done + [c], rest) == Prefixed(done, Prefixed([c], rest))
  {
    if rest.Success? {
      assert (done + [c]) + rest.value == done + ([c] + rest.value);
    }
  }

  lemma {:induction false} PiecesBegin(pieces: seq<string>)
    ensures ParsePieces(pieces) == Prefixed([], ParsePieces(pieces[0..]))
  {
    assert pieces[0..] == pieces;
    var r := ParsePieces(pieces);
    if r.Success? {
      assert [] + r.value == r.value;
    }
  }

  lemma {:induction false} NextPiece(pieces: seq<string>, i: nat, done: seq<Clause>)
    requires i < |pieces|
    ensures var clause, rest := Trim(pieces[i]), ParsePieces(pieces[i + 1..]);
      Prefixed(done, ParsePieces(pieces[i..])) ==
      if clause == "" then Prefixed(done, rest)
      else
        match ParseClause(clause)
        case Failure(e) => Failure(e)
        case Success(c) => Prefixed(done + [c], rest)
  {
    assert pieces[i..][1..] == pieces[i + 1..];
    var parsed, rest := ParseClause(Trim(pieces[i])), ParsePieces(pieces[i + 1..]);
    if Trim(pieces[i]) != "" && parsed.Success? {
      PrefixedSnoc(done, parsed.value, rest);
    }
  }

  // ---------------------------------------------------------------------
  // Printing
  // ---------------------------------------------------------------------

  function PrintClause(c: Clause): string {
    match c
    case Eq(k, v) => k + "=" + v
    case Ne(k, v) => k + "!=" + v
    case Glob(k, p) => k + "~=" + p
    case Present(k) => k + "?"
    case Absent(k) => k + "!?"
  }

  function Printed(clauses: seq<Clause>): (r: seq<string>)
    ensures |r| == |clauses| && forall i :: 0 <= i < |r| ==> r[i] == PrintClause(clauses[i])
  {
    seq(|clauses|, i requires 0 <= i < |clauses| => PrintClause(clauses[i]))
  }

  function Print(clauses: seq<Clause>): string {
    Join(Printed(clauses), ',')
  }

  // ---------------------------------------------------------------------
  // What parsing leaves in a clause
  // ---------------------------------------------------------------------

  predicate ValidKey(k: string) {
    k != "" && !HasSpace(k) && ',' !in k
  }

  predicate ValidValue(v: string) {
    Trimmed(v) && ',' !in v && (v == "" || v[|v| - 1] != '?')
  }

  /** What every clause that comes out of the parser satisfies. */
  ghost predicate Parsed(c: Clause) {
    ValidKey(c.key) &&
    match c
    case Eq(k, v) => ValidValue(v) && '=' !in k && !HasPair(v, '~', '=') && !HasPair(v, '!', '=')
    case Ne(k, v) => ValidValue(v) && !HasPair(k, '~', '=') && !HasPair(v, '~', '=') && !HasPair(k, '!', '=')
    case Glob(k, p) => ValidValue(p) && !HasPair(k, '~', '=')
    case Present(_) => true
    case Absent(_) => true
  }

  lemma {:induction false} KeyFacts(c: string, i: nat)
    requires i <= |c| && ',' !in c
    ensures var k := Trim(c[..i]); ',' !in k && Part(k, c[..i]) && Part(k, c)
  {
    var k := Trim(c[..i]);
    TrimFacts(c[..i]);
    IsPart(c, 0, i);
    PartOfPart(k, c[..i], c);
    PartHasNot(k, c, ',');
  }

  lemma {:induction false} ValueFacts(c: string, i: nat)
    requires i <= |c| && ',' !in c && Trimmed(c) && c != "" && c[|c| - 1] != '?'
    ensures var v := Trim(c[i..]); ValidValue(v) && Part(v, c)
  {
    var v := Trim(c[i..]);
    TrimFacts(c[i..]);
    IsPart(c, i, |c|);
    assert c[i..|c|] == c[i..];
    PartOfPart(v, c[i..], c);
    PartHasNot(v, c, ',');
  }

  lemma {:induction false} InfixParsed(c: string)
    requires Trimmed(c) && c != "" && ',' !in c && c[|c| - 1] != '?' && ParseClause(c).Success?
    ensures Parsed(ParseClause(c).value)
  {
    FindPairFound(c, '~', '=');
    FindPairFound(c, '!', '=');
    var i := if FindPair(c, '~', '=') < |c| then FindPair(c, '~', '=')
             else if FindPair(c, '!', '=') < |c| then FindPair(c, '!', '=') else FindChar(c, '=');
    var n := if FindPair(c, '~', '=') < |c| || FindPair(c, '!', '=') < |c| then i + 2 else i + 1;
    KeyFacts(c, i);
    ValueFacts(c, n);
    var k, v := Trim(c[..i]), Trim(c[n..]);
    if FindPair(c, '~', '=') < |c| {
      PartHasNoPair(k, c[..i], '~', '=');
    } else {
      PartHasNoPair(k, c, '~', '=');
      PartHasNoPair(v, c, '~', '=');
      if FindPair(c, '!', '=') < |c| {
        PartHasNoPair(k, c[..i], '!', '=');
      } else {
        PartHasNoPair(v, c, '!', '=');
        PartHasNot(k, c[..i], '=');
      }
    }
  }

  lemma {:induction false} ClauseParsed(c: string)
    requires Trimmed(c) && c != "" && ',' !in c && ParseClause(c).Success?
    ensures Parsed(ParseClause(c).value)
  {
    if EndsWith(c, "!?") {
      KeyFacts(c, |c| - 2);
    } else if EndsWith(c, "?") {
      KeyFacts(c, |c| - 1);
    } else {
      assert c[|c| - 1..] == [c[|c| - 1]];
      InfixParsed(c);
    }
  }

  // ---------------------------------------------------------------------
  // When a printed clause reads back
  // ---------------------------------------------------------------------

  predicate EndsIn(s: string, c: char) {
    s != "" && s[|s| - 1] == c
  }

  /** The operator is not run together with the end of the key. */
  predicate Unambiguous(c: Clause) {
    match c
    case Eq(k, _) => !EndsIn(k, '!') && !EndsIn(k, '~')
    case Present(k) => !EndsIn(k, '!')
    case _ => true
  }

  lemma {:induction false} KeyTrimmed(k: string)
    requires ValidKey(k)
    ensures Trim(k) == k && Checked(k, Present(k)).Success? && !IsSpace(k[0]) && !IsSpace(k[|k| - 1])
  {
    TrimNothing(k);
  }

  lemma {:induction false} PrintedTrimmed(c: Clause)
    requires Parsed(c)
    ensures var s := PrintClause(c); Trim(s) == s && s != "" && ',' !in s
  {
    KeyTrimmed(c.key);
    TrimNothing(PrintClause(c));
  }

  lemma {:induction false} SuffixReads(c: Clause)
    requires Parsed(c) && (c.Present? || c.Absent?)
    ensures ParseClause(PrintClause(c)) == Success(c) <==> Unambiguous(c)
  {
    var k, s := c.key, PrintClause(c);
    KeyTrimmed(k);
    if c.Absent? {
      assert s[|s| - 2..] == "!?" && s[..|s| - 2] == k;
    } else {
      assert s[|s| - 1..] == "?" && s[..|s| - 1] == k;
      assert EndsWith(s, "!?") <==> EndsIn(k, '!') by {
        assert |s| >= 2 && s[|s| - 2..] == [s[|s| - 2], s[|s| - 1]];
      }
    }
  }

  lemma {:induction false} SuffixLast(s: string, suffix: string)
    requires EndsWith(s, suffix) && suffix != ""
    ensures s[|s| - 1] == suffix[|suffix| - 1]
  {
    assert s[|s| - |suffix|..][|suffix| - 1] == s[|s| - 1];
  }

  lemma {:induction false} NoSuffix(c: Clause)
    requires Parsed(c) && !c.Present? && !c.Absent?
    ensures var s := PrintClause(c); !EndsWith(s, "!?") && !EndsWith(s, "?")
  {
    var s := PrintClause(c);
    assert s[|s| - 1] != '?';
    if EndsWith(s, "!?") {
      SuffixLast(s, "!?");
    }
    if EndsWith(s, "?") {
      SuffixLast(s, "?");
    }
  }

  /** In `k`, a two-character operator, `v`: the first such operator is the one written. */
  lemma {:induction false} OperatorFound(k: string, op: string, v: string, a: char, b: char)
    requires op == [a, b] && a != b && !HasPair(k, a, b)
    ensures FindPair(k + op + v, a, b) == |k|
  {
    var s := k + op + v;
    forall j | 0 <= j < |k|
      ensures !PairAt(s, j, a, b)
    {
      assert PairAt(s, j, a, b) && j + 1 < |k| ==> PairAt(k, j, a, b);
    }
    FindPairFirst(s, a, b, |k|);
  }

  /** No pair lies across an operator whose characters cannot be part of one. */
  lemma {:induction false} NoPairAcross(k: string, op: string, v: string, a: char, b: char)
    requires !HasPair(k, a, b) && !HasPair(v, a, b) && |op| > 0
    requires !HasPair(op, a, b) && op[|op| - 1] != a && !(EndsIn(k, a) && op[0] == b)
    ensures FindPair(k + op + v, a, b) == |k + op + v|
  {
    var s := k + op + v;
    forall j | 0 <= j < |s|
      ensures !PairAt(s, j, a, b)
    {
      assert PairAt(s, j, a, b) && j + 1 < |k| ==> PairAt(k, j, a, b);
      assert PairAt(s, j, a, b) && |k| <= j && j + 1 < |k| + |op| ==> PairAt(op, j - |k|, a, b);
      assert PairAt(s, j, a, b) && |k| + |op| <= j ==> PairAt(v, j - |k| - |op|, a, b);
    }
    FindPairFirst(s, a, b, |s|);
  }

  lemma {:induction false} Pieces(k: string, op: string, v: string)
    ensures var s := k + op + v; s[..|k|] == k && s[|k| + |op|..] == v
  {
  }

  lemma {:induction false} GlobReads(k: string, p: string)
    requires Parsed(Glob(k, p))
    ensures ParseClause(PrintClause(Glob(k, p))) == Success(Glob(k, p))
  {
    NoSuffix(Glob(k, p));
    OperatorFound(k, "~=", p, '~', '=');
    Pieces(k, "~=", p);
    KeyTrimmed(k);
    TrimNothing(p);
  }

  lemma {:induction false} NeReads(k: string, v: string)
    requires Parsed(Ne(k, v))
    ensures ParseClause(PrintClause(Ne(k, v))) == Success(Ne(k, v))
  {
    NoSuffix(Ne(k, v));
    assert forall i :: !PairAt("!=", i, '~', '=');
    NoPairAcross(k, "!=", v, '~', '=');
    OperatorFound(k, "!=", v, '!', '=');
    Pieces(k, "!=", v);
    KeyTrimmed(k);
    TrimNothing(v);
  }

  lemma {:induction false} EqReads(k: string, v: string)
    requires Parsed(Eq(k, v)) && Unambiguous(Eq(k, v))
    ensures ParseClause(PrintClause(Eq(k, v))) == Success(Eq(k, v))
  {
    var s := k + "=" + v;
    NoSuffix(Eq(k, v));
    NoEqualsNoPair(k, '~');
    NoEqualsNoPair(k, '!');
    assert forall i :: !PairAt("=", i, '~', '=') && !PairAt("=", i, '!', '=');
    NoPairAcross(k, "=", v, '~', '=');
    NoPairAcross(k, "=", v, '!', '=');
    FindCharIs(s, '=', |k|);
    Pieces(k, "=", v);
    KeyTrimmed(k);
    TrimNothing(v);
  }

  lemma {:induction false} NoEqualsNoPair(k: string, a: char)
    requires '=' !in k
    ensures !HasPair(k, a, '=')
  {
    if HasPair(k, a, '=') {
      PairHasSecond(k, a, '=');
    }
  }

  /** An equality whose key ends in `~` or `!` prints as another operator. */
  lemma {:induction false} EqMisreads(k: string, v: string)
    requires Parsed(Eq(k, v)) && !Unambiguous(Eq(k, v))
    ensures ParseClause(PrintClause(Eq(k, v))) != Success(Eq(k, v))
  {
    var s := k + "=" + v;
    NoSuffix(Eq(k, v));
    var a := k[|k| - 1];
    assert PairAt(s, |k| - 1, a, '=');
    FindPairFound(s, a, '=');
    assert HasPair(s, a, '=');
  }

  lemma {:induction false} ClauseReads(c: Clause)
    requires Parsed(c)
    ensures ParseClause(PrintClause(c)) == Success(c) <==> Unambiguous(c)
  {
    match c
    case Eq(k, v) =>
      if Unambiguous(c) {
        EqReads(k, v);
      } else {
        EqMisreads(k, v);
      }
    case Ne(k, v) => NeReads(k, v);
    case Glob(k, p) => GlobReads(k, p);
    case _ => SuffixReads(c);
  }

  // ---------------------------------------------------------------------
  // The round trip
  // ---------------------------------------------------------------------

  ghost predicate AllParsed(clauses: seq<Clause>) {
    forall i :: 0 <= i < |clauses| ==> Parsed(clauses[i])
  }

  lemma {:induction false} PiecesParsed(pieces: seq<string>)
    requires ParsePieces(pieces).Success? && forall i :: 0 <= i < |pieces| ==> ',' !in pieces[i]
    ensures AllParsed(ParsePieces(pieces).value)
  {
    if pieces != [] {
      PiecesParsed(pieces[1..]);
      var c := Trim(pieces[0]);
      TrimFacts(pieces[0]);
      PartHasNot(c, pieces[0], ',');
      if c != "" {
        ClauseParsed(c);
      }
    }
  }

  lemma {:induction false} PiecesRead(clauses: seq<Clause>)
    requires AllParsed(clauses)
    ensures ParsePieces(Printed(clauses)) == Success(clauses) <==>
            forall i :: 0 <= i < |clauses| ==> Unambiguous(clauses[i])
  {
    if clauses != [] {
      var c, rest := clauses[0], clauses[1..];
      PiecesRead(rest);
      PrintedTrimmed(c);
      ClauseReads(c);
      assert Printed(clauses)[1..] == Printed(rest);
      assert clauses == [c] + rest;
      if ParsePieces(Printed(clauses)) == Success(clauses) {
        HeadAndTail(ParseClause(PrintClause(c)).value, ParsePieces(Printed(rest)).value, c, rest);
      }
    }
  }

  lemma {:induction false} HeadAndTail<T>(x: T, xs: seq<T>, y: T, ys: seq<T>)
    requires [x] + xs == [y] + ys
    ensures x == y && xs == ys
  {
    assert ([x] + xs)[0] == x && ([x] + xs)[1..] == xs;
    assert ([y] + ys)[0] == y && ([y] + ys)[1..] == ys;
  }

  /** For every text that parses: printing and parsing gives the same selector back if and
      only if no `=` key ends in `!` or `~` and no `?` key ends in `!`. */
  lemma {:induction false} RoundTrip(text: string)
    requires ParseText(text).Success?
    ensures var clauses := ParseText(text).value;
      ParseText(Print(clauses)) == Success(clauses) <==>
      forall i :: 0 <= i < |clauses| ==> Unambiguous(clauses[i])
  {
    var clauses := ParseText(text).value;
    SplitFree(text, ',');
    PiecesParsed(Split(text, ','));
    if clauses == [] {
      assert Split("", ',') == [""];
      assert [""][1..] == [];
    } else {
      forall i | 0 <= i < |clauses|
        ensures ',' !in Printed(clauses)[i]
      {
        PrintedTrimmed(clauses[i]);
      }
      SplitJoin(Printed(clauses), ',');
      PiecesRead(clauses);
    }
  }
}
