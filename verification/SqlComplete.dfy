/**
 The converse of the grammar's soundness: whatever derives from the CTE grammar, the walk accepts.
 Together they say that the read gate admits exactly the WITH statements of the grammar.
 */
module SqlComplete {
  import opened Outcomes
  import opened SqlScope
  import opened SqlWrap
  import opened SqlLexer
  import opened SqlKeywords
  import opened SqlGrammar
  import opened SqlGates
  import SqlCut

  // ----- from the text to a slice

  /** Trivia ends at `q`. */
  ghost predicate NotTrivia(s: string, q: nat, parens: bool, x: Lexer)
    requires x.Sane()
  {
    q < |s| && !x.isSpace(s[q]) && !(parens && s[q] == '(') && x.Comment(s, q) == Ok(None)
  }

  lemma MarkIsNotTrivia(s: string, q: nat, x: Lexer)
    requires x.Sane() && q < |s| && (s[q] == '(' || s[q] == ',')
    ensures NotTrivia(s, q, false, x)
  {
  }

  lemma WordIsNotTrivia(s: string, q: nat, w: string, parens: bool, x: Lexer)
    requires x.Sane() && WordIs(s, q, w)
    ensures NotTrivia(s, q, parens, x)
  {
  }

  lemma NameIsNotTrivia(s: string, q: nat, e: nat, x: Lexer)
    requires Lawful(x) && NameIs(s, x, q, e)
    ensures NotTrivia(s, q, false, x)
  {
    assert QuoteOpensName(x, s, q);
  }

  /** Trivia of the text up to a character that is none is what the slice's own loop skips. */
  lemma {:induction false} TriviaRead(
    t: string, s: string, a: nat, i: nat, j: nat, p: nat, q: nat, parens: bool, x: Lexer)
    requires Lawful(x) && Stretch(t, s, a, x) && Stop(t, s, a, i, x) && p == a + i && q == a + j && j < |t|
    requires TriviaBetween(s, x, p, q, parens) && NotTrivia(s, q, parens, x)
    ensures TriviaEnd(t, i, parens, x) == Ok(j) && Stop(t, s, a, j, x)
    decreases |t| - i
  {
    StepAtStop(t, s, a, i, x);
    if p < q {
      if x.isSpace(t[i]) || (parens && t[i] == '(') {
        assert x.Step(t, i) == Ok(i + 1);
        TriviaRead(t, s, a, i + 1, j, p + 1, q, parens, x);
      } else {
        TriviaRead(t, s, a, x.Comment(t, i).value.value, j, x.Comment(s, p).value.value, q, parens, x);
      }
    }
  }

  /** A balanced stretch of the text that a parenthesis ends is what the slice's own matcher matches. */
  /** The nesting after one step of the matcher. */
  function NestingAfter(t: string, i: nat, lexeme: Option<nat>, depth: int): int
    requires i < |t|
  {
    if lexeme.Some? then depth else if t[i] == '(' then depth + 1 else if t[i] == ')' then depth - 1 else depth
  }

  lemma GroupStep(t: string, i: nat, next: nat, depth: int, after: int, open: nat, x: Lexer)
    requires x.Sane() && i < |t| && x.Step(t, i) == Ok(next) && after == NestingAfter(t, i, x.Lexeme(t, i).value, depth)
    ensures x.Lexeme(t, i).value == None && t[i] == ')' && after == 0 ==> GroupFrom(t, i, depth, open, x) == Ok(next)
    ensures x.Lexeme(t, i).value.Some? || t[i] != ')' || after != 0 ==>
              GroupFrom(t, i, depth, open, x) == GroupFrom(t, next, after, open, x)
  {
  }

  lemma {:induction false} GroupRead(
    t: string, s: string, a: nat, i: nat, p: nat, k: nat, depth: int, open: nat, close: nat, end: nat, x: Lexer)
    requires Lawful(x) && Stretch(t, s, a, x) && Stop(t, s, a, i, x) && p == a + i && end + 1 == a + close
    requires close <= |t| && depth == k + 1
    requires Balanced(s, x, p, end, k) && CharAt(s, end, ')')
    ensures GroupFrom(t, i, depth, open, x) == Ok(close) && Stop(t, s, a, close, x)
    decreases |t| - i
  {
    StepAtStop(t, s, a, i, x);
    var lexeme := x.Lexeme(s, p).value;
    var after, next := NestingAfter(s, p, lexeme, depth), x.Step(t, i).value;
    GroupStep(t, i, next, depth, after, open, x);
    if p < end {
      GroupRead(t, s, a, next, x.Step(s, p).value, after - 1, after, open, close, end, x);
    }
  }

  lemma {:induction false} BalancedReaches(s: string, p: nat, end: nat, k: nat, x: Lexer)
    requires x.Sane() && Balanced(s, x, p, end, k)
    ensures x.Reaches(s, p, end)
    decreases |s| - p
  {
    if p < end {
      var lexeme := x.Lexeme(s, p).value;
      var k' := if lexeme.Some? then k else if s[p] == '(' then k + 1 else if s[p] == ')' then k - 1 else k;
      BalancedReaches(s, x.Step(s, p).value, end, k', x);
    }
  }

  lemma GroupReads(t: string, s: string, a: nat, i: nat, j: nat, open: nat, close: nat, x: Lexer)
    requires Lawful(x) && Stretch(t, s, a, x) && Stop(t, s, a, i, x) && open == a + i && close == a + j && j <= |t|
    requires Group(s, x, open, close)
    ensures CharAt(t, i, '(') && GroupEnd(t, i, x) == Ok(j) && Stop(t, s, a, j, x)
    ensures Inside(s, x, open, close)
  {
    StepAtStop(t, s, a, i, x);
    assert x.Lexeme(t, i) == Ok(None);
    GroupRead(t, s, a, i + 1, open + 1, 0, 1, i, j, close - 1, x);
    BalancedReaches(s, open + 1, close - 1, 0, x);
  }

  lemma WordRead(t: string, s: string, a: nat, i: nat, p: nat, w: string, x: Lexer)
    requires Lawful(x) && Stretch(t, s, a, x) && Stop(t, s, a, i, x) && p == a + i && i < |t| && WordIs(s, p, w)
    ensures WordAt(t, i) == Some(w) && i + |w| <= |t| && Stop(t, s, a, i + |w|, x)
  {
    WordLift(t, s, a, i, x);
  }

  lemma NameRead(t: string, s: string, a: nat, i: nat, e: nat, p: nat, pe: nat, x: Lexer)
    requires Lawful(x) && Stretch(t, s, a, x) && Stop(t, s, a, i, x) && p == a + i && pe == a + e && i < |t|
    requires NameIs(s, x, p, pe)
    ensures CteNameEnd(t, i, x) == Ok(Some(e)) && Stop(t, s, a, e, x)
  {
    StepAtStop(t, s, a, i, x);
    if IsWordStart(t[i]) {
      NameEndLift(t, s, a, i, x);
    } else {
      assert QuoteOpensName(x, t, i);
    }
  }

  // ----- one CTE

  lemma NoColumnsRead(t: string, s: string, a: nat, e: nat, k: nat, p: nat, q: nat, x: Lexer)
    requires Lawful(x) && Stretch(t, s, a, x) && Stop(t, s, a, e, x) && p == a + e && q == a + k && k < |t|
    requires TriviaBetween(s, x, p, q, false) && WordIs(s, q, "AS")
    ensures ColumnsEndAt(t, e, k, x) && Stop(t, s, a, k, x)
  {
    WordIsNotTrivia(s, q, "AS", false, x);
    TriviaRead(t, s, a, e, k, p, q, false, x);
    assert t[k] == s[a + k];
  }

  lemma ColumnsRead(
    t: string, s: string, a: nat, e: nat, i: nat, j: nat, k: nat, p: nat, open: nat, close: nat, q: nat, x: Lexer)
    requires Lawful(x) && Stretch(t, s, a, x) && Stop(t, s, a, e, x) && p == a + e && q == a + k && k < |t|
    requires open == a + i && close == a + j && i < |t| && j <= |t|
    requires TriviaBetween(s, x, p, open, false) && Group(s, x, open, close)
    requires TriviaBetween(s, x, close, q, false) && WordIs(s, q, "AS")
    ensures ColumnsEndAt(t, e, k, x) && Stop(t, s, a, k, x)
  {
    OpenRead(t, s, a, e, i, p, open, x);
    GroupReads(t, s, a, i, j, open, close, x);
    WordIsNotTrivia(s, q, "AS", false, x);
    TriviaRead(t, s, a, j, k, close, q, false, x);
  }

  /** The name and the columns, up to AS. */
  lemma NamingRead(t: string, s: string, a: nat, i: nat, c: Cte, x: Lexer) returns (e: nat, k: nat)
    requires Lawful(x) && Stretch(t, s, a, x) && Stop(t, s, a, i, x) && c.name == a + i && c.asAt < a + |t|
    requires CteNaming(s, x, c) && WordIs(s, c.asAt, "AS")
    ensures CteNameEnd(t, i, x) == Ok(Some(e)) && e <= |t| && ColumnsEndAt(t, e, k, x)
    ensures a + k == c.asAt && Stop(t, s, a, k, x)
  {
    e, k := c.nameEnd - a, c.asAt - a;
    NameRead(t, s, a, i, e, c.name, c.nameEnd, x);
    match c.columns
    case None => NoColumnsRead(t, s, a, e, k, c.nameEnd, c.asAt, x);
    case Some((open, close)) => ColumnsRead(t, s, a, e, open - a, close - a, k, c.nameEnd, open, close, c.asAt, x);
  }

  lemma OpenRead(t: string, s: string, a: nat, i: nat, j: nat, p: nat, open: nat, x: Lexer)
    requires Lawful(x) && Stretch(t, s, a, x) && Stop(t, s, a, i, x) && p == a + i && open == a + j && j < |t|
    requires TriviaBetween(s, x, p, open, false) && CharAt(s, open, '(')
    ensures TriviaEnd(t, i, false, x) == Ok(j) && Stop(t, s, a, j, x)
  {
    MarkIsNotTrivia(s, open, x);
    TriviaRead(t, s, a, i, j, p, open, false, x);
  }

  /** AS and the body's group. */
  lemma BodyRead(t: string, s: string, a: nat, k: nat, c: Cte, open: nat, close: nat, x: Lexer)
    requires Lawful(x) && Stretch(t, s, a, x) && Stop(t, s, a, k, x) && c.asAt == a + k && k < |t|
    requires CteHead(s, x, c) && c.open == a + open && c.close == a + close && close <= |t|
    ensures CteBody(t, k, x) == Ok(BodyGroup(open, close)) && open + 2 <= close
    ensures Inside(s, x, c.open, c.close) && Stop(t, s, a, close, x)
  {
    WordRead(t, s, a, k, c.asAt, "AS", x);
    OpenRead(t, s, a, k + 2, open, c.asAt + 2, c.open, x);
    GroupReads(t, s, a, open, close, c.open, c.close, x);
  }

  lemma HeadOrder(s: string, c: Cte, x: Lexer)
    requires x.Sane() && CteHead(s, x, c)
    ensures c.name < c.nameEnd <= c.asAt < c.open && c.open + 2 <= c.close
  {
    if IsWordStart(s[c.name]) {
      assert NameEnd(s, c.name) >= NameEnd(s, c.name + 1);
    }
  }

  lemma CteAtMakes(t: string, i: nat, e: nat, k: nat, open: nat, close: nat, x: Lexer)
    requires x.Sane() && i <= |t| && CteNameEnd(t, i, x) == Ok(Some(e)) && e <= |t| && ColumnsEndAt(t, e, k, x)
    requires k <= |t| && CteBody(t, k, x) == Ok(BodyGroup(open, close))
    ensures CteAt(t, i, x) == Ok(BodyGroup(open, close))
  {
  }

  lemma HeadRead(t: string, s: string, a: nat, i: nat, c: Cte, open: nat, close: nat, x: Lexer)
    requires Lawful(x) && Stretch(t, s, a, x) && Stop(t, s, a, i, x) && c.name == a + i
    requires CteHead(s, x, c) && c.open == a + open && c.close == a + close && close <= |t|
    ensures CteAt(t, i, x) == Ok(BodyGroup(open, close)) && open + 2 <= close
    ensures Inside(s, x, c.open, c.close) && Stop(t, s, a, close, x)
  {
    HeadOrder(s, c, x);
    var e, k := NamingRead(t, s, a, i, c, x);
    BodyRead(t, s, a, k, c, open, close, x);
    CteAtMakes(t, i, e, k, open, close, x);
  }

  lemma NoRecursiveRead(t: string, s: string, a: nat, i: nat, start: nat, p: nat, name: nat, x: Lexer)
    requires Lawful(x) && Stretch(t, s, a, x) && Stop(t, s, a, i, x) && p == a + i && name == a + start && start < |t|
    requires TriviaBetween(s, x, p, name, false) && NotTrivia(s, name, false, x) && !WordIs(s, name, "RECURSIVE")
    ensures ListStart(t, i, x) == Ok(start) && Stop(t, s, a, start, x)
  {
    TriviaRead(t, s, a, i, start, p, name, false, x);
    WordLift(t, s, a, start, x);
  }

  lemma RecursiveRead(t: string, s: string, a: nat, i: nat, r: nat, start: nat, p: nat, word: nat, name: nat, x: Lexer)
    requires Lawful(x) && Stretch(t, s, a, x) && Stop(t, s, a, i, x) && p == a + i && name == a + start && start < |t|
    requires word == a + r && r < |t| && TriviaBetween(s, x, p, word, false) && WordIs(s, word, "RECURSIVE")
    requires TriviaBetween(s, x, word + 9, name, false) && NotTrivia(s, name, false, x)
    ensures ListStart(t, i, x) == Ok(start) && Stop(t, s, a, start, x)
  {
    WordIsNotTrivia(s, word, "RECURSIVE", false, x);
    TriviaRead(t, s, a, i, r, p, word, false, x);
    WordRead(t, s, a, r, word, "RECURSIVE", x);
    TriviaRead(t, s, a, r + 9, start, word + 9, name, false, x);
  }

  /** The optional RECURSIVE. */
  lemma ListStartRead(
    t: string, s: string, a: nat, i: nat, start: nat, p: nat, name: nat, e: nat, recursive: Option<nat>, x: Lexer)
    requires Lawful(x) && Stretch(t, s, a, x) && Stop(t, s, a, i, x) && p == a + i && name == a + start && start < |t|
    requires ListOpens(s, x, p, recursive, name) && NameIs(s, x, name, e)
    ensures ListStart(t, i, x) == Ok(start) && Stop(t, s, a, start, x)
  {
    NameIsNotTrivia(s, name, e, x);
    match recursive
    case None => NoRecursiveRead(t, s, a, i, start, p, name, x);
    case Some(r) => RecursiveRead(t, s, a, i, r - a, start, p, r, name, x);
  }

  // ----- completeness of the walk

  /** The CTEs of a chain lie inside its window. */
  lemma {:induction false} ChainInside(s: string, x: Lexer, hi: nat, list: CteChain, depth: nat)
    requires x.Sane() && DerivesChain(s, x, hi, list, depth)
    ensures list.cte.name < list.cte.close <= list.cte.next < hi
    decreases list
  {
    HeadOrder(s, list.cte, x);
    if list.More? {
      ChainInside(s, x, hi, list.rest, depth);
    }
  }

  lemma ChainName(s: string, x: Lexer, hi: nat, list: CteChain, depth: nat)
    requires x.Sane() && DerivesChain(s, x, hi, list, depth)
    ensures NameIs(s, x, list.cte.name, list.cte.nameEnd)
  {
  }

  lemma FirstWordRead(t: string, s: string, a: nat, i: nat, at: nat, w: string, x: Lexer)
    requires Lawful(x) && Stretch(t, s, a, x) && at == a + i && i < |t| && TriviaBetween(s, x, a, at, true)
    requires WordIs(s, at, w)
    ensures TriviaEnd(t, 0, true, x) == Ok(i) && WordAt(t, i) == Some(w) && i + |w| <= |t| && Stop(t, s, a, i + |w|, x)
  {
    WordIsNotTrivia(s, at, w, true, x);
    TriviaRead(t, s, a, 0, i, a, at, true, x);
    WordRead(t, s, a, i, at, w, x);
  }

  lemma ResolveMakes(t: string, i: nat, start: nat, x: Lexer, base: nat, depth: nat)
    requires x.Sane() && TriviaEnd(t, 0, true, x) == Ok(i) && i <= |t| && WordAt(t, i) == Some("WITH")
    requires depth <= MAX_CTE_NESTING && ListStart(t, i + 4, x) == Ok(start) && start <= |t|
    ensures FirstKeyword(t, x) == Ok((Some("WITH"), i))
    ensures Resolve(t, x, base, depth) == CteList(t, start, x, base, depth)
  {
    assert FirstKeyword(t, x) == Ok((WordAt(t, i), i));
    assert Resolve(t, x, base, depth) == MainKeyword(t, i + 4, x, base, depth);
  }

  lemma ThroughMakes(
    t: string, open: nat, close: nat, lo: nat, bw: string, bo: nat, x: Lexer, base: nat, depth: nat)
    requires x.Sane() && open + 2 <= close <= |t|
    requires lo == base + open + 1 && BodyResolves(t, open, close, x, lo, depth, bw, bo)
    ensures ThroughBody(t, Ok(BodyGroup(open, close)), x, base, depth) == Ok(Through(close))
  {
  }

  lemma TurnMakes(t: string, cte: Result<CteShape, Refusal>, close: nat, turn: Turn, x: Lexer, base: nat, depth: nat)
    requires x.Sane() && IsShapeOf(cte, t) && ThroughBody(t, cte, x, base, depth) == Ok(Through(close))
    requires 0 < close <= |t|
    requires AfterBody(t, close, x, base, depth) == Ok(turn)
    ensures TurnAfter(t, cte, x, base, depth) == Ok(turn)
  {
  }

  lemma CteListMakes(
    t: string, i: nat, open: nat, close: nat, lo: nat, bw: string, bo: nat, turn: Turn, x: Lexer, base: nat, depth: nat)
    requires x.Sane() && i <= |t| && CteAt(t, i, x) == Ok(BodyGroup(open, close)) && open + 2 <= close <= |t|
    requires lo == base + open + 1 && BodyResolves(t, open, close, x, lo, depth, bw, bo)
    requires AfterBody(t, close, x, base, depth) == Ok(turn)
    ensures CteTurn(t, i, x, base, depth) == Ok(turn)
  {
    ThroughMakes(t, open, close, lo, bw, bo, x, base, depth);
    TurnMakes(t, Ok(BodyGroup(open, close)), close, turn, x, base, depth);
    assert CteTurn(t, i, x, base, depth) == TurnAfter(t, CteAt(t, i, x), x, base, depth);
  }

  /**
   The walk is complete: on a stretch [a, hi) of the text that derives from the grammar it finds the
   derivation's main keyword, at its position.
   */
  lemma {:induction false} ResolveIsComplete(
    t: string, s: string, a: nat, hi: nat, x: Lexer, q: Query, depth: nat, off: nat)
    requires Lawful(x) && Stretch(t, s, a, x) && hi == a + |t|
    requires Derives(s, x, a, hi, q, depth) && MainOf(q).0 == a + off
    ensures Resolve(t, x, a, depth) == Ok((Some(MainOf(q).1), off))
    ensures FirstKeyword(t, x).Ok? && (q.With? <==> FirstKeyword(t, x).value.0 == Some("WITH"))
    decreases q, 3
  {
    var i := q.at - a;
    match q
    case Main(at, word) =>
      FirstWordRead(t, s, a, i, at, word, x);
      assert FirstKeyword(t, x) == Ok((Some(word), i));
    case With(at, recursive, list) =>
      WithIsComplete(t, s, a, hi, i, at, x, recursive, list, depth, off);
  }

  lemma {:induction false} WithIsComplete(
    t: string, s: string, a: nat, hi: nat, i: nat, at: nat, x: Lexer, recursive: Option<nat>, list: CteChain,
    depth: nat, off: nat)
    requires Lawful(x) && Stretch(t, s, a, x) && hi == a + |t| && at == a + i && i < |t|
    requires TriviaBetween(s, x, a, at, true) && WordIs(s, at, "WITH") && depth <= MAX_CTE_NESTING
    requires ListOpens(s, x, at + 4, recursive, list.cte.name) && DerivesChain(s, x, hi, list, depth)
    requires MainOfChain(list).0 == a + off
    ensures Resolve(t, x, a, depth) == Ok((Some(MainOfChain(list).1), off))
    ensures FirstKeyword(t, x) == Ok((Some("WITH"), i))
    decreases list, 2
  {
    ChainInside(s, x, hi, list, depth);
    ChainName(s, x, hi, list, depth);
    var start := WithRead(t, s, a, i, at, list.cte.name, list.cte.nameEnd, recursive, x, depth);
    ChainIsComplete(t, s, a, hi, start, list.cte.name, x, list, depth, off);
  }

  /** From WITH to the first CTE's name. */
  lemma WithRead(
    t: string, s: string, a: nat, i: nat, at: nat, name: nat, e: nat, recursive: Option<nat>, x: Lexer, depth: nat)
    returns (start: nat)
    requires Lawful(x) && Stretch(t, s, a, x) && at == a + i && i < |t| && name < a + |t| && depth <= MAX_CTE_NESTING
    requires TriviaBetween(s, x, a, at, true) && WordIs(s, at, "WITH")
    requires ListOpens(s, x, at + 4, recursive, name) && NameIs(s, x, name, e)
    ensures start < |t| && name == a + start && Stop(t, s, a, start, x)
    ensures FirstKeyword(t, x) == Ok((Some("WITH"), i)) && Resolve(t, x, a, depth) == CteList(t, start, x, a, depth)
  {
    FirstWordRead(t, s, a, i, at, "WITH", x);
    start := ListStartIs(t, s, a, i + 4, at + 4, name, e, recursive, x);
    ResolveMakes(t, i, start, x, a, depth);
  }

  lemma ListStartIs(
    t: string, s: string, a: nat, i: nat, p: nat, name: nat, e: nat, recursive: Option<nat>, x: Lexer)
    returns (start: nat)
    requires Lawful(x) && Stretch(t, s, a, x) && Stop(t, s, a, i, x) && p == a + i && name < a + |t|
    requires ListOpens(s, x, p, recursive, name) && NameIs(s, x, name, e)
    ensures ListStart(t, i, x) == Ok(start) && start < |t| && Stop(t, s, a, start, x) && name == a + start
  {
    start := name - a;
    ListStartRead(t, s, a, i, start, p, name, e, recursive, x);
  }

  lemma {:induction false} ChainIsComplete(
    t: string, s: string, a: nat, hi: nat, i: nat, name: nat, x: Lexer, list: CteChain, depth: nat, off: nat)
    requires Lawful(x) && Stretch(t, s, a, x) && hi == a + |t| && Stop(t, s, a, i, x) && name == a + i == list.cte.name
    requires DerivesChain(s, x, hi, list, depth) && MainOfChain(list).0 == a + off
    ensures CteList(t, i, x, a, depth) == Ok((Some(MainOfChain(list).1), off))
    decreases list, 1
  {
    var c := list.cte;
    ChainInside(s, x, hi, list, depth);
    HeadOrder(s, c, x);
    var open, close, n: nat := c.open - a, c.close - a, c.next - a;
    HeadRead(t, s, a, i, c, open, close, x);
    var lo := c.open + 1;
    var bw, bo := BodyIsComplete(t, s, a, open, close, lo, x, c, depth);
    var turn := AfterIsComplete(t, s, a, hi, close, n, c.next, x, list, depth, off);
    CteListMakes(t, i, open, close, lo, bw, bo, turn, x, a, depth);
    match list
    case More(_, rest) => ChainIsComplete(t, s, a, hi, turn.index, rest.cte.name, x, rest, depth, off);
    case Last(_, _) =>
  }

  lemma {:induction false} BodyIsComplete(
    t: string, s: string, a: nat, open: nat, close: nat, lo: nat, x: Lexer, c: Cte, depth: nat)
    returns (bw: string, bo: nat)
    requires Lawful(x) && Stretch(t, s, a, x) && open + 2 <= close <= |t| && c.open == a + open && c.close == a + close
    requires DerivesCte(s, x, c, depth) && Inside(s, x, c.open, c.close) && lo == c.open + 1
    ensures BodyResolves(t, open, close, x, lo, depth, bw, bo)
    decreases c, 0
  {
    match c
    case Cte(_, _, _, _, _, _, body, _) =>
      BodyIsStretch(t, s, a, open, close, c.open, c.close, lo, x);
      bw, bo := WindowIsComplete(t[open + 1..close - 1], s, lo, c.close - 1, x, body, depth + 1);
  }

  lemma {:induction false} WindowIsComplete(t: string, s: string, a: nat, hi: nat, x: Lexer, q: Query, depth: nat)
    returns (w: string, off: nat)
    requires Lawful(x) && Stretch(t, s, a, x) && hi == a + |t| && Derives(s, x, a, hi, q, depth)
    ensures Resolve(t, x, a, depth) == Ok((Some(w), off)) && w in QUERY_KEYWORDS
    decreases q, 4
  {
    DerivedMainIsWord(s, x, a, hi, q, depth);
    MainInside(s, x, a, hi, q, depth);
    w, off := MainOf(q).1, MainOf(q).0 - a;
    ResolveIsComplete(t, s, a, hi, x, q, depth, off);
  }

  /** The main keyword lies inside the window. */
  lemma {:induction false} MainInside(s: string, x: Lexer, lo: nat, hi: nat, q: Query, depth: nat)
    requires x.Sane() && Derives(s, x, lo, hi, q, depth)
    ensures lo <= MainOf(q).0 < hi
    decreases q
  {
    match q
    case Main(_, _) =>
    case With(at, recursive, list) =>
      ChainMainInside(s, x, hi, list, depth);
  }

  lemma {:induction false} ChainMainInside(s: string, x: Lexer, hi: nat, list: CteChain, depth: nat)
    requires x.Sane() && DerivesChain(s, x, hi, list, depth)
    ensures list.cte.name < MainOfChain(list).0 < hi
    decreases list
  {
    ChainInside(s, x, hi, list, depth);
    match list
    case Last(c, main) => MainInside(s, x, c.next, hi, main, depth + 1);
    case More(c, rest) => ChainMainInside(s, x, hi, rest, depth);
  }

  /** What the walk decides after a body: the next CTE of the chain, or the main keyword. */
  lemma {:induction false} AfterIsComplete(
    t: string, s: string, a: nat, hi: nat, close: nat, n: nat, next: nat, x: Lexer, list: CteChain, depth: nat,
    off: nat)
    returns (turn: Turn)
    requires Lawful(x) && Stretch(t, s, a, x) && hi == a + |t| && 0 < close && Stop(t, s, a, close, x)
    requires list.cte.close == a + close && list.cte.next == next == a + n && n < |t|
    requires DerivesChain(s, x, hi, list, depth) && MainOfChain(list).0 == a + off
    ensures AfterBody(t, close, x, a, depth) == Ok(turn)
    ensures list.Last? ==> turn == Answer(Some(MainOfChain(list).1), off)
    ensures list.More? ==> turn.Next? && a + turn.index == list.rest.cte.name && Stop(t, s, a, turn.index, x)
    decreases list, 0
  {
    match list
    case Last(c, main) =>
      MainIsComplete(t, s, a, hi, close, n, c.close, next, x, main, depth, off);
      turn := Answer(Some(MainOf(main).1), off);
    case More(c, rest) =>
      turn := NextIsComplete(t, s, a, hi, close, n, c.close, next, x, rest, depth);
  }

  /** The chain goes on after a comma. */
  lemma NextIsComplete(
    t: string, s: string, a: nat, hi: nat, close: nat, n: nat, end: nat, next: nat, x: Lexer, rest: CteChain,
    depth: nat)
    returns (turn: Turn)
    requires Lawful(x) && Stretch(t, s, a, x) && hi == a + |t| && 0 < close && Stop(t, s, a, close, x)
    requires end == a + close && next == a + n && n < |t| && TriviaBetween(s, x, end, next, false)
    requires CharAt(s, next, ',')
    requires TriviaBetween(s, x, next + 1, rest.cte.name, false) && DerivesChain(s, x, hi, rest, depth)
    ensures AfterBody(t, close, x, a, depth) == Ok(turn)
    ensures turn.Next? && a + turn.index == rest.cte.name && Stop(t, s, a, turn.index, x)
  {
    ChainInside(s, x, hi, rest, depth);
    ChainName(s, x, hi, rest, depth);
    turn := Next(rest.cte.name - a);
    CommaAfter(t, s, a, close, n, turn.index, end, next, rest.cte.name, rest.cte.nameEnd, x, depth);
  }

  /** The main statement, parenthesised or bare. */
  lemma {:induction false} MainIsComplete(
    t: string, s: string, a: nat, hi: nat, close: nat, n: nat, end: nat, next: nat, x: Lexer, main: Query,
    depth: nat, off: nat)
    requires Lawful(x) && Stretch(t, s, a, x) && hi == a + |t| && 0 < close && Stop(t, s, a, close, x)
    requires end == a + close && next == a + n && n < |t| && TriviaBetween(s, x, end, next, false)
    requires CharAt(s, next, '(') || (main.Main? && main.at == next)
    requires Derives(s, x, next, hi, main, depth + 1) && MainOf(main).0 == a + off
    ensures AfterBody(t, close, x, a, depth) == Ok(Answer(Some(MainOf(main).1), off))
    decreases main, 6
  {
    if CharAt(s, next, '(') {
      MainInside(s, x, next, hi, main, depth + 1);
      TailIsComplete(t, s, a, hi, close, n, end, next, x, main, depth, MainOf(main).1, off, off - n);
    } else {
      WordAfter(t, s, a, close, n, end, next, main.word, x, depth);
    }
  }

  /** A parenthesised main statement. */
  lemma {:induction false} TailIsComplete(
    t: string, s: string, a: nat, hi: nat, close: nat, n: nat, end: nat, next: nat, x: Lexer, main: Query, depth: nat,
    w: string, off: nat, inner: nat)
    requires Lawful(x) && Stretch(t, s, a, x) && hi == a + |t| && 0 < close && Stop(t, s, a, close, x)
    requires end == a + close && next == a + n && n < |t| && TriviaBetween(s, x, end, next, false)
    requires CharAt(s, next, '(')
    requires Derives(s, x, next, hi, main, depth + 1) && MainOf(main) == (a + off, w) && off == n + inner
    ensures AfterBody(t, close, x, a, depth) == Ok(Answer(Some(w), off))
    decreases main, 5
  {
    ParenRead(t, s, a, close, n, end, next, x);
    TailResolves(t[n..], s, next, hi, x, main, depth + 1, w, inner);
    SqlCut.ParenAnswer(t, close, n, w, inner, off, x, a, next, depth);
  }

  lemma {:induction false} TailResolves(
    u: string, s: string, next: nat, hi: nat, x: Lexer, main: Query, depth: nat, w: string, inner: nat)
    requires Lawful(x) && Stretch(u, s, next, x) && hi == next + |u|
    requires Derives(s, x, next, hi, main, depth) && MainOf(main) == (next + inner, w)
    ensures Resolve(u, x, next, depth) == Ok((Some(w), inner))
    decreases main, 4
  {
    ResolveIsComplete(u, s, next, hi, x, main, depth, inner);
  }

  lemma ParenRead(t: string, s: string, a: nat, close: nat, n: nat, end: nat, next: nat, x: Lexer)
    requires Lawful(x) && Stretch(t, s, a, x) && Stop(t, s, a, close, x) && end == a + close && next == a + n && n < |t|
    requires TriviaBetween(s, x, end, next, false) && CharAt(s, next, '(')
    ensures TriviaEnd(t, close, false, x) == Ok(n) && CharAt(t, n, '(') && Stretch(t[n..], s, next, x)
  {
    OpenRead(t, s, a, close, n, end, next, x);
    StepAtStop(t, s, a, n, x);
    TailIsStretch(t, s, a, n, x);
  }

  /** A bare SELECT or VALUES. */
  lemma WordAfter(
    t: string, s: string, a: nat, close: nat, n: nat, end: nat, next: nat, w: string, x: Lexer, depth: nat)
    requires Lawful(x) && Stretch(t, s, a, x) && 0 < close && Stop(t, s, a, close, x)
    requires end == a + close && next == a + n && n < |t| && TriviaBetween(s, x, end, next, false) && WordIs(s, next, w)
    ensures AfterBody(t, close, x, a, depth) == Ok(Answer(Some(w), n))
  {
    WordIsNotTrivia(s, next, w, false, x);
    TriviaRead(t, s, a, close, n, end, next, false, x);
    WordRead(t, s, a, n, next, w, x);
  }

  /** A comma and the next CTE's name. */
  lemma CommaAfter(
    t: string, s: string, a: nat, close: nat, n: nat, index: nat, end: nat, comma: nat, name: nat, e: nat,
    x: Lexer, depth: nat)
    requires Lawful(x) && Stretch(t, s, a, x) && 0 < close && Stop(t, s, a, close, x)
    requires end == a + close && comma == a + n && n < |t| && TriviaBetween(s, x, end, comma, false)
    requires CharAt(s, comma, ',')
    requires name == a + index && index < |t| && TriviaBetween(s, x, comma + 1, name, false) && NameIs(s, x, name, e)
    ensures AfterBody(t, close, x, a, depth) == Ok(Next(index)) && Stop(t, s, a, index, x)
  {
    MarkIsNotTrivia(s, comma, x);
    TriviaRead(t, s, a, close, n, end, comma, false, x);
    CommaRead(t, s, a, n, index, comma, name, e, x);
  }

  lemma CommaRead(t: string, s: string, a: nat, n: nat, index: nat, comma: nat, name: nat, e: nat, x: Lexer)
    requires Lawful(x) && Stretch(t, s, a, x) && Stop(t, s, a, n, x) && comma == a + n && name == a + index
    requires index < |t|
    requires n < |t| && CharAt(s, comma, ',') && TriviaBetween(s, x, comma + 1, name, false) && NameIs(s, x, name, e)
    ensures CharAt(t, n, ',') && TriviaEnd(t, n + 1, false, x) == Ok(index) && Stop(t, s, a, index, x)
  {
    StepAtStop(t, s, a, n, x);
    assert x.Step(t, n) == Ok(n + 1);
    NameIsNotTrivia(s, name, e, x);
    TriviaRead(t, s, a, n + 1, index, comma + 1, name, false, x);
  }

  // ----- the gate is the grammar

  /**
   On one statement the read gate admits a WITH exactly when the statement derives from the CTE
   grammar.
   */
  lemma GateIsGrammar(s: string, d: Dialect)
    requires d.Valid() && LexerOf(d).Sane() && IsSingleStatement(s, d)
    ensures (exists q: Query :: q.With? && Derives(s, LexerOf(d), 0, StatementCut(s, d), q, 1)) <==>
              && CheckEveryStatement(s, LexerOf(d)).Ok?
              && FirstKeyword(s, LexerOf(d)).Ok? && FirstKeyword(s, LexerOf(d)).value.0 == Some("WITH")
  {
    var x, m := LexerOf(d), StatementCut(s, d);
    if exists q: Query :: q.With? && Derives(s, x, 0, m, q, 1) {
      var q: Query :| q.With? && Derives(s, x, 0, m, q, 1);
      DerivedIsAdmitted(s, d, q);
    } else if CheckEveryStatement(s, x).Ok? && FirstKeyword(s, x).Ok? && FirstKeyword(s, x).value.0 == Some("WITH") {
      var q := AdmittedWithDerives(s, d);
    }
  }

  /**
   The read gate in full, on one statement: it admits a WITH that derives from the CTE grammar, and
   any other statement whose first keyword is on the read list.
   */
  lemma GateAdmitsIff(s: string, d: Dialect)
    requires d.Valid() && LexerOf(d).Sane() && IsSingleStatement(s, d)
    ensures var first := FirstKeyword(s, LexerOf(d));
            CheckEveryStatement(s, LexerOf(d)).Ok? <==>
              && first.Ok? && first.value.0.Some? && first.value.0.value in READ_STATEMENT_KEYWORDS
              && (first.value.0 == Some("WITH") ==>
                    exists q: Query :: q.With? && Derives(s, LexerOf(d), 0, StatementCut(s, d), q, 1))
  {
    CheckEveryIsCheck(s, d);
    WalkOfStatement(s, d);
    GateIsGrammar(s, d);
  }

  lemma DerivedIsAdmitted(s: string, d: Dialect, q: Query)
    requires d.Valid() && LexerOf(d).Sane() && IsSingleStatement(s, d)
    requires Derives(s, LexerOf(d), 0, StatementCut(s, d), q, 1) && q.With?
    ensures CheckEveryStatement(s, LexerOf(d)).Ok?
    ensures FirstKeyword(s, LexerOf(d)).Ok? && FirstKeyword(s, LexerOf(d)).value.0 == Some("WITH")
  {
    var x, m := LexerOf(d), StatementCut(s, d);
    var p := s[0..m];
    SharedLexerIsLawful(d);
    StatementIsStretch(s, d);
    ResolveIsComplete(p, s, 0, m, x, q, 1, MainOf(q).0);
    DerivedMainIsWord(s, x, 0, m, q, 1);
    CheckEveryIsCheck(s, d);
    WalkOfStatement(s, d);
    CheckIsResolve(p, x);
  }
}
