/**
 What the CTE walk accepts. A derivation is a tree of positions in the submitted text itself;
 the walk works on nested slices, and the theorem adds their offsets up.
 */
module SqlGrammar {
  import opened Outcomes
  import opened SqlScope
  import opened SqlSlices
  import opened SqlLexer
  import opened SqlKeywords

  // ----- the grammar

  datatype Query =
    | Main(at: nat, word: string)
    | With(at: nat, recursive: Option<nat>, list: CteChain)

  /** The comma-separated CTEs and the main statement after them. */
  datatype CteChain = Last(cte: Cte, main: Query) | More(cte: Cte, rest: CteChain)

  datatype Cte = Cte(
    name: nat, nameEnd: nat, columns: Option<(nat, nat)>, asAt: nat, open: nat, close: nat, body: Query, next: nat)

  /** Only white space, comments and, with `parens`, opening parentheses lie between `i` and `j`. */
  ghost predicate TriviaBetween(s: string, x: Lexer, i: nat, j: nat, parens: bool)
    requires x.Sane()
    decreases |s| - i
  {
    i == j ||
    (i < j <= |s| &&
     if x.isSpace(s[i]) || (parens && s[i] == '(') then TriviaBetween(s, x, i + 1, j, parens)
     else
       && x.Comment(s, i).Ok? && x.Comment(s, i).value.Some?
       && TriviaBetween(s, x, x.Comment(s, i).value.value, j, parens))
  }

  /** From `i` at nesting `k` the parentheses outside literals and comments balance out exactly at `j`. */
  ghost predicate Balanced(s: string, x: Lexer, i: nat, j: nat, k: nat)
    requires x.Sane()
    decreases |s| - i
  {
    if i == j then k == 0
    else
      && i < j <= |s| && x.Lexeme(s, i).Ok?
      && if x.Lexeme(s, i).value.Some? then Balanced(s, x, x.Lexeme(s, i).value.value, j, k)
         else if s[i] == '(' then Balanced(s, x, i + 1, j, k + 1)
         else if s[i] == ')' then k > 0 && Balanced(s, x, i + 1, j, k - 1)
         else Balanced(s, x, i + 1, j, k)
  }

  ghost predicate Group(s: string, x: Lexer, open: nat, close: nat)
    requires x.Sane()
  {
    && CharAt(s, open, '(') && open + 2 <= close && CharAt(s, close - 1, ')')
    && Balanced(s, x, open + 1, close - 1, 0)
  }

  ghost predicate WordIs(s: string, i: nat, w: string) {
    i < |s| && WordAt(s, i) == Some(w)
  }

  ghost predicate NameIs(s: string, x: Lexer, i: nat, e: nat)
    requires x.Sane()
  {
    && i < |s|
    && if IsWordStart(s[i]) then e == NameEnd(s, i) else x.quotesName(s[i]) && x.Lexeme(s, i) == Ok(Some(e))
  }

  /** The optional column list between a name that ends at `i` and AS at `j`. */
  ghost predicate ColumnsBetween(s: string, x: Lexer, i: nat, j: nat, columns: Option<(nat, nat)>)
    requires x.Sane()
  {
    match columns
    case None => TriviaBetween(s, x, i, j, false)
    case Some((open, close)) =>
      && TriviaBetween(s, x, i, open, false)
      && Group(s, x, open, close)
      && TriviaBetween(s, x, close, j, false)
  }

  /** `name [(columns)]`, up to where AS stands. */
  ghost predicate CteNaming(s: string, x: Lexer, c: Cte)
    requires x.Sane()
  {
    NameIs(s, x, c.name, c.nameEnd) && ColumnsBetween(s, x, c.nameEnd, c.asAt, c.columns)
  }

  /** AS, and where the parenthesis after it opens. */
  ghost predicate AsOpens(s: string, x: Lexer, at: nat, open: nat)
    requires x.Sane()
  {
    WordIs(s, at, "AS") && TriviaBetween(s, x, at + 2, open, false)
  }

  /** `name [(columns)] AS (`, with the group of the body. */
  ghost predicate CteHead(s: string, x: Lexer, c: Cte)
    requires x.Sane()
  {
    CteNaming(s, x, c) && AsOpens(s, x, c.asAt, c.open) && Group(s, x, c.open, c.close)
  }

  /** The optional RECURSIVE between a WITH that ends at `i` and the first CTE name; the word is reserved there. */
  ghost predicate ListOpens(s: string, x: Lexer, i: nat, recursive: Option<nat>, name: nat)
    requires x.Sane()
  {
    match recursive
    case None => TriviaBetween(s, x, i, name, false) && !WordIs(s, name, "RECURSIVE")
    case Some(r) =>
      TriviaBetween(s, x, i, r, false) && WordIs(s, r, "RECURSIVE") && TriviaBetween(s, x, r + 9, name, false)
  }

  /** The window [lo, hi) of the text derives `q`, at this depth of WITH nesting. */
  ghost predicate Derives(s: string, x: Lexer, lo: nat, hi: nat, q: Query, depth: nat)
    requires x.Sane()
    decreases q
  {
    && lo <= q.at < hi <= |s| && TriviaBetween(s, x, lo, q.at, true)
    && match q
       case Main(at, word) => WordIs(s, at, word) && (word == "SELECT" || word == "VALUES")
       case With(at, recursive, list) =>
         && depth <= 16 && WordIs(s, at, "WITH")
         && ListOpens(s, x, at + 4, recursive, list.cte.name)
         && DerivesChain(s, x, hi, list, depth)
  }

  /**
   Each CTE's body is a query one level deeper; so is a parenthesised main statement, the other kind
   is a bare keyword.
   */
  ghost predicate DerivesChain(s: string, x: Lexer, hi: nat, list: CteChain, depth: nat)
    requires x.Sane()
    decreases list
  {
    match list
    case Last(c, main) =>
      && DerivesCte(s, x, c, depth)
      && (CharAt(s, c.next, '(') || (main.Main? && main.at == c.next))
      && Derives(s, x, c.next, hi, main, depth + 1)
    case More(c, rest) =>
      && DerivesCte(s, x, c, depth)
      && CommaJoins(s, x, c.next, rest.cte.name)
      && DerivesChain(s, x, hi, rest, depth)
  }

  /** A comma, and the name of the next CTE after it. */
  ghost predicate CommaJoins(s: string, x: Lexer, comma: nat, name: nat)
    requires x.Sane()
  {
    CharAt(s, comma, ',') && TriviaBetween(s, x, comma + 1, name, false)
  }

  ghost predicate DerivesCte(s: string, x: Lexer, c: Cte, depth: nat)
    requires x.Sane()
    decreases c
  {
    match c
    case Cte(_, _, _, _, open, close, body, next) =>
      && CteHead(s, x, c) && TriviaBetween(s, x, close, next, false)
      && Derives(s, x, open + 1, close - 1, body, depth + 1)
  }

  /** The main statement's keyword and its position. */
  function MainOf(q: Query): (nat, string)
    decreases q
  {
    match q
    case Main(at, word) => (at, word)
    case With(_, _, list) => MainOfChain(list)
  }

  function MainOfChain(list: CteChain): (nat, string)
    decreases list
  {
    match list
    case Last(_, main) => MainOf(main)
    case More(_, rest) => MainOfChain(rest)
  }

  // ----- from a slice to the text

  /** After the slice comes nothing, a closing parenthesis or a `;`. */
  ghost predicate SliceEnd(t: string, s: string, a: nat)
    requires a + |t| <= |s|
  {
    a + |t| == |s| || s[a + |t|] == ')' || s[a + |t|] == ';'
  }

  /** `t` is a stretch of `s` from one stop of the lexer to another, cut where the walk cuts. */
  ghost predicate Stretch(t: string, s: string, a: nat, x: Lexer)
    requires x.Sane()
  {
    Embeds(t, s, a) && SliceStart(s, a) && SliceEnd(t, s, a) && x.Reaches(s, a, a + |t|)
  }

  /** Position `i` of the slice is a stop on the way to the slice's end. */
  ghost predicate Stop(t: string, s: string, a: nat, i: nat, x: Lexer)
    requires x.Sane()
  {
    i <= |t| && x.Reaches(s, a + i, a + |t|)
  }

  lemma StepAtStop(t: string, s: string, a: nat, i: nat, x: Lexer)
    requires Lawful(x) && Stretch(t, s, a, x) && Stop(t, s, a, i, x) && i < |t|
    ensures t[i] == s[a + i]
    ensures x.Comment(s, a + i) == ShiftFound(x.Comment(t, i), a)
    ensures x.Lexeme(s, a + i) == ShiftFound(x.Lexeme(t, i), a)
    ensures x.Step(s, a + i).Ok? && x.Step(s, a + i) == Shift(x.Step(t, i), a)
    ensures Stop(t, s, a, x.Step(t, i).value, x)
  {
    assert LocalAt(x, t, s, a, i, |t|);
  }

  /** Trivia of the slice from `i` to `j` is trivia of the text from `p` to `q`. */
  lemma {:induction false} TriviaLift(
    t: string, s: string, a: nat, i: nat, j: nat, p: nat, q: nat, parens: bool, x: Lexer)
    requires Lawful(x) && Stretch(t, s, a, x) && Stop(t, s, a, i, x) && p == a + i && q == a + j
    requires TriviaEnd(t, i, parens, x) == Ok(j)
    ensures TriviaBetween(s, x, p, q, parens) && Stop(t, s, a, j, x)
    decreases |t| - i
  {
    if i < |t| {
      StepAtStop(t, s, a, i, x);
      if x.isSpace(t[i]) || (parens && t[i] == '(') {
        assert x.Step(t, i) == Ok(i + 1);
        TriviaLift(t, s, a, i + 1, j, p + 1, q, parens, x);
      } else if x.Comment(t, i).value.Some? {
        TriviaLift(t, s, a, x.Comment(t, i).value.value, j, x.Comment(s, p).value.value, q, parens, x);
      }
    }
  }

  /** A group closed in the slice is balanced in the text, from `p` to `end`, and both are stops. */
  lemma {:induction false} GroupLift(
    t: string, s: string, a: nat, i: nat, p: nat, k: nat, open: nat, close: nat, end: nat, x: Lexer)
    requires Lawful(x) && Stretch(t, s, a, x) && Stop(t, s, a, i, x) && p == a + i && end + 1 == a + close
    requires GroupFrom(t, i, k + 1, open, x) == Ok(close)
    ensures i < close <= |t| && CharAt(s, end, ')') && Balanced(s, x, p, end, k) && x.Reaches(s, p, end)
    ensures Stop(t, s, a, close, x)
    decreases |t| - i
  {
    StepAtStop(t, s, a, i, x);
    var lexeme := x.Lexeme(t, i).value;
    if lexeme.Some? || t[i] != ')' || k > 0 {
      var k' := if lexeme.Some? then k else if t[i] == '(' then k + 1 else if t[i] == ')' then k - 1 else k;
      GroupLift(t, s, a, x.Step(t, i).value, x.Step(s, p).value, k', open, close, end, x);
    }
  }

  /** The lexer gets from one parenthesis of a group to the other. */
  ghost predicate Inside(s: string, x: Lexer, open: nat, close: nat)
    requires x.Sane()
  {
    close > 0 && x.Reaches(s, open + 1, close - 1)
  }

  lemma GroupLifts(t: string, s: string, a: nat, open: nat, close: nat, lo: nat, hi: nat, x: Lexer)
    requires Lawful(x) && Stretch(t, s, a, x) && Stop(t, s, a, open, x) && CharAt(t, open, '(')
    requires GroupEnd(t, open, x) == Ok(close) && lo == a + open && hi == a + close
    ensures Group(s, x, lo, hi) && Inside(s, x, lo, hi) && Stop(t, s, a, close, x)
  {
    StepAtStop(t, s, a, open, x);
    assert x.Lexeme(t, open) == Ok(None);
    assert GroupEnd(t, open, x) == GroupFrom(t, open + 1, 1, open, x);
    GroupLift(t, s, a, open + 1, lo + 1, 0, open, close, hi - 1, x);
  }

  // ----- words and names

  /** Words are not cut by the ends of a slice. */
  lemma {:induction false} WordEndLift(t: string, s: string, a: nat, i: nat, x: Lexer)
    requires Lawful(x) && Stretch(t, s, a, x) && Stop(t, s, a, i, x)
    ensures WordEnd(s, a + i) == a + WordEnd(t, i) && Stop(t, s, a, WordEnd(t, i), x)
    decreases |t| - i
  {
    if i < |t| {
      StepAtStop(t, s, a, i, x);
      if IsWordChar(t[i]) {
        assert x.Step(t, i) == Ok(i + 1);
        WordEndLift(t, s, a, i + 1, x);
      }
    }
  }

  lemma WordLift(t: string, s: string, a: nat, i: nat, x: Lexer)
    requires Lawful(x) && Stretch(t, s, a, x) && Stop(t, s, a, i, x)
    ensures i < |t| ==> WordAt(s, a + i) == WordAt(t, i)
    ensures WordAt(t, i).Some? ==> i < |t| && Stop(t, s, a, i + |WordAt(t, i).value|, x)
  {
    WordEndLift(t, s, a, i, x);
    if i < |t| {
      assert t[i] == s[a + i];
      SliceShift(t, s, a, i, WordEnd(t, i));
    }
  }

  lemma {:induction false} NameEndLift(t: string, s: string, a: nat, i: nat, x: Lexer)
    requires Lawful(x) && Stretch(t, s, a, x) && Stop(t, s, a, i, x)
    requires i < |t| ==> t[i] == '$' ==> i > 0 && IsNameChar(t[i - 1])
    ensures NameEnd(s, a + i) == a + NameEnd(t, i) && Stop(t, s, a, NameEnd(t, i), x)
    decreases |t| - i
  {
    if i < |t| {
      StepAtStop(t, s, a, i, x);
      if IsNameChar(t[i]) {
        assert i > 0 ==> t[i - 1] == s[a + (i - 1)];
        assert NoLiteralInWord(x, t, i);
        assert x.Step(t, i) == Ok(i + 1);
        NameEndLift(t, s, a, i + 1, x);
      }
    }
  }

  lemma NameLift(t: string, s: string, a: nat, i: nat, x: Lexer)
    requires Lawful(x) && Stretch(t, s, a, x) && Stop(t, s, a, i, x)
    requires CteNameEnd(t, i, x).Ok? && CteNameEnd(t, i, x).value.Some?
    ensures NameIs(s, x, a + i, a + CteNameEnd(t, i, x).value.value)
    ensures Stop(t, s, a, CteNameEnd(t, i, x).value.value, x)
  {
    StepAtStop(t, s, a, i, x);
    if IsWordStart(t[i]) {
      NameEndLift(t, s, a, i, x);
    } else {
      assert QuoteOpensName(x, t, i);
    }
  }

  // ----- soundness of the walk

  /** `AS (body)` at `i` of the slice: AS stands at `p` in the text, the body's group from `lo` to `hi`. */
  lemma BodyLift(
    t: string, s: string, a: nat, i: nat, open: nat, close: nat, p: nat, lo: nat, hi: nat, x: Lexer)
    requires Lawful(x) && Stretch(t, s, a, x) && Stop(t, s, a, i, x)
    requires CteBody(t, i, x) == Ok(BodyGroup(open, close)) && p == a + i && lo == a + open && hi == a + close
    ensures AsOpens(s, x, p, lo) && Group(s, x, lo, hi) && Inside(s, x, lo, hi) && Stop(t, s, a, close, x)
  {
    BodyParts(t, i, open, close, x);
    WordLift(t, s, a, i, x);
    TriviaLift(t, s, a, i + 2, open, p + 2, lo, false, x);
    GroupLifts(t, s, a, open, close, lo, hi, x);
  }

  lemma BodyParts(t: string, i: nat, open: nat, close: nat, x: Lexer)
    requires x.Sane() && i <= |t| && CteBody(t, i, x) == Ok(BodyGroup(open, close))
    ensures WordAt(t, i) == Some("AS") && TriviaEnd(t, i + 2, false, x) == Ok(open)
    ensures CharAt(t, open, '(') && GroupEnd(t, open, x) == Ok(close)
  {
  }

  /** Where `AS` is looked for after a name that ends at `e`. */
  ghost predicate ColumnsEndAt(t: string, e: nat, k: nat, x: Lexer)
    requires x.Sane() && e <= |t|
  {
    && TriviaEnd(t, e, false, x).Ok?
    && var j := TriviaEnd(t, e, false, x).value;
       if CharAt(t, j, '(') then
         && GroupEnd(t, j, x).Ok?
         && TriviaEnd(t, GroupEnd(t, j, x).value, false, x) == Ok(k)
       else k == j
  }

  lemma ColumnsLift(t: string, s: string, a: nat, e: nat, k: nat, from: nat, to: nat, x: Lexer)
    returns (columns: Option<(nat, nat)>)
    requires Lawful(x) && Stretch(t, s, a, x) && Stop(t, s, a, e, x) && from == a + e && to == a + k
    requires ColumnsEndAt(t, e, k, x)
    ensures ColumnsBetween(s, x, from, to, columns) && Stop(t, s, a, k, x)
  {
    var j := TriviaEnd(t, e, false, x).value;
    TriviaLift(t, s, a, e, j, from, a + j, false, x);
    columns := None;
    if CharAt(t, j, '(') {
      var close := GroupEnd(t, j, x).value;
      var lo, hi := a + j, a + close;
      GroupLifts(t, s, a, j, close, lo, hi, x);
      columns := Some((lo, hi));
      TriviaLift(t, s, a, close, k, hi, to, false, x);
    }
  }

  lemma CteHeadLift(
    t: string, s: string, a: nat, i: nat, e: nat, k: nat, open: nat, close: nat, x: Lexer)
    returns (c: Cte)
    requires Lawful(x) && Stretch(t, s, a, x) && Stop(t, s, a, i, x)
    requires CteNameEnd(t, i, x) == Ok(Some(e)) && ColumnsEndAt(t, e, k, x) && k <= |t|
    requires CteBody(t, k, x) == Ok(BodyGroup(open, close))
    ensures CteHead(s, x, c) && c.name == a + i && c.open == a + open && c.close == a + close
    ensures Group(s, x, c.open, c.close) && Inside(s, x, c.open, c.close) && Stop(t, s, a, close, x)
  {
    NameLift(t, s, a, i, x);
    var columns := ColumnsLift(t, s, a, e, k, a + e, a + k, x);
    c := Cte(a + i, a + e, columns, a + k, a + open, a + close, Main(0, ""), 0);
    HeadBodyLift(t, s, a, k, open, close, x, c);
  }

  lemma HeadBodyLift(t: string, s: string, a: nat, k: nat, open: nat, close: nat, x: Lexer, c: Cte)
    requires Lawful(x) && Stretch(t, s, a, x) && Stop(t, s, a, k, x)
    requires CteBody(t, k, x) == Ok(BodyGroup(open, close))
    requires c.asAt == a + k && c.open == a + open && c.close == a + close && CteNaming(s, x, c)
    ensures CteHead(s, x, c) && Group(s, x, c.open, c.close)
    ensures Inside(s, x, c.open, c.close) && Stop(t, s, a, close, x)
  {
    BodyLift(t, s, a, k, open, close, c.asAt, c.open, c.close, x);
  }

  lemma BodyIsStretch(t: string, s: string, a: nat, open: nat, close: nat, lo: nat, hi: nat, from: nat, x: Lexer)
    requires x.Sane() && Stretch(t, s, a, x) && open + 2 <= close <= |t| && lo == a + open && hi == a + close
    requires Group(s, x, lo, hi) && Inside(s, x, lo, hi) && from == lo + 1
    ensures Stretch(t[open + 1..close - 1], s, from, x)
  {
    var b := t[open + 1..close - 1];
    forall k | 0 <= k < |b|
      ensures b[k] == s[from + k]
    {
      assert b[k] == t[open + 1 + k] == s[a + (open + 1 + k)];
    }
  }

  lemma TailIsStretch(t: string, s: string, a: nat, n: nat, x: Lexer)
    requires x.Sane() && Stretch(t, s, a, x) && Stop(t, s, a, n, x) && CharAt(t, n, '(')
    ensures Stretch(t[n..], s, a + n, x)
  {
    forall k | 0 <= k < |t[n..]|
      ensures t[n..][k] == s[a + n + k]
    {
      assert t[n..][k] == t[n + k] == s[a + (n + k)];
    }
  }

  /** What follows a body at `n`, as one turn of the walk read it. */
  ghost predicate AfterBodyRead(t: string, n: nat, turn: Turn, x: Lexer, base: nat, depth: nat)
    requires x.Sane() && n <= |t|
  {
    match turn
    case Next(index) => CharAt(t, n, ',') && TriviaEnd(t, n + 1, false, x) == Ok(index)
    case Answer(keyword, at) =>
      && n <= at
      && if CharAt(t, n, '(') then Resolve(t[n..], x, base + n, depth + 1) == Ok((keyword, at - n))
         else keyword == WordAt(t, n) && at == n
  }

  /** What a walk of the CTE list that finds a query keyword has read at position `i`. */
  /** The body of a group, which starts at `lo` in the text, resolves to a query keyword. */
  ghost predicate BodyResolves(
    t: string, open: nat, close: nat, x: Lexer, lo: nat, depth: nat, bw: string, bo: nat)
    requires x.Sane() && open + 2 <= close <= |t|
  {
    Resolve(t[open + 1..close - 1], x, lo, depth + 1) == Ok((Some(bw), bo)) && bw in QUERY_KEYWORDS
  }

  lemma CteListParts(t: string, i: nat, x: Lexer, base: nat, depth: nat, w: string, off: nat)
    returns (open: nat, close: nat, lo: nat, bw: string, bo: nat, turn: Turn)
    requires x.Sane() && i <= |t| && CteList(t, i, x, base, depth) == Ok((Some(w), off))
    ensures CteAt(t, i, x) == Ok(BodyGroup(open, close)) && i < open && open + 2 <= close <= |t|
    ensures lo == base + open + 1 && BodyResolves(t, open, close, x, lo, depth, bw, bo)
    ensures AfterBody(t, close, x, base, depth) == Ok(turn)
    ensures match turn
            case Next(index) => index <= |t| && CteList(t, index, x, base, depth) == Ok((Some(w), off))
            case Answer(keyword, at) => keyword == Some(w) && at == off
  {
    var cte := CteAt(t, i, x);
    turn := CteTurn(t, i, x, base, depth).value;
    open, close, lo, bw, bo := TurnParts(t, cte, turn, x, base, depth);
  }

  lemma AfterBodyParts(t: string, close: nat, turn: Turn, x: Lexer, base: nat, depth: nat) returns (n: nat)
    requires x.Sane() && 0 < close <= |t| && AfterBody(t, close, x, base, depth) == Ok(turn)
    ensures TriviaEnd(t, close, false, x) == Ok(n) && close <= n <= |t| && AfterBodyRead(t, n, turn, x, base, depth)
    ensures turn.Next? ==> n < turn.index <= |t|
  {
    n := TriviaEnd(t, close, false, x).value;
  }

  lemma CteAtParts(t: string, i: nat, open: nat, close: nat, x: Lexer) returns (e: nat, k: nat)
    requires x.Sane() && i <= |t| && CteAt(t, i, x) == Ok(BodyGroup(open, close))
    ensures CteNameEnd(t, i, x) == Ok(Some(e)) && e <= |t| && ColumnsEndAt(t, e, k, x) && k <= |t|
    ensures CteBody(t, k, x) == Ok(BodyGroup(open, close))
  {
    e := CteNameEnd(t, i, x).value.value;
    k := TriviaEnd(t, e, false, x).value;
    if CharAt(t, k, '(') {
      k := TriviaEnd(t, GroupEnd(t, k, x).value, false, x).value;
    }
  }

  lemma TurnParts(t: string, cte: Result<CteShape, Refusal>, turn: Turn, x: Lexer, base: nat, depth: nat)
    returns (open: nat, close: nat, lo: nat, bw: string, bo: nat)
    requires x.Sane() && IsShapeOf(cte, t) && TurnAfter(t, cte, x, base, depth) == Ok(turn)
    requires turn.Answer? ==> turn.keyword != None
    ensures cte == Ok(BodyGroup(open, close)) && open + 2 <= close <= |t|
    ensures lo == base + open + 1 && BodyResolves(t, open, close, x, lo, depth, bw, bo)
    ensures AfterBody(t, close, x, base, depth) == Ok(turn)
  {
    var passage := ThroughBody(t, cte, x, base, depth);
    assert passage.Ok? && passage.value.Through?;
    open, close := cte.value.open, cte.value.close;
    lo := base + open + 1;
    var body := Resolve(t[open + 1..close - 1], x, base + open + 1, depth + 1).value;
    bw, bo := body.0.value, body.1;
  }

  /** A walk that finds a query keyword has read its first keyword at `i`; a WITH's list starts at `start`. */
  lemma ResolveParts(t: string, x: Lexer, base: nat, depth: nat, w: string, off: nat) returns (i: nat, start: nat)
    requires x.Sane() && Resolve(t, x, base, depth) == Ok((Some(w), off))
    ensures TriviaEnd(t, 0, true, x) == Ok(i) && i <= |t| && WordAt(t, i).Some?
    ensures FirstKeyword(t, x) == Ok((WordAt(t, i), i))
    ensures WordAt(t, i) != Some("WITH") ==> WordAt(t, i) == Some(w) && i == off
    ensures WordAt(t, i) == Some("WITH") ==>
              && depth <= MAX_CTE_NESTING && ListStart(t, i + 4, x) == Ok(start) && start <= |t|
              && CteList(t, start, x, base, depth) == Ok((Some(w), off))
  {
    i, start := TriviaEnd(t, 0, true, x).value, 0;
    assert FirstKeyword(t, x) == Ok((WordAt(t, i), i));
    if WordAt(t, i) == Some("WITH") {
      assert Resolve(t, x, base, depth) == MainKeyword(t, i + 4, x, base, depth);
      start := ListStart(t, i + 4, x).value;
    }
  }

  /** The first keyword `v` of the slice stands in the text at `p`. */
  lemma KeywordLift(t: string, s: string, a: nat, i: nat, p: nat, v: string, x: Lexer)
    requires Lawful(x) && Stretch(t, s, a, x) && p == a + i
    requires TriviaEnd(t, 0, true, x) == Ok(i) && i <= |t| && WordAt(t, i) == Some(v)
    ensures i < |t| && TriviaBetween(s, x, a, p, true) && WordIs(s, p, v) && Stop(t, s, a, i + |v|, x)
  {
    TriviaLift(t, s, a, 0, i, a, p, true, x);
    WordLift(t, s, a, i, x);
  }

  /** The start of the CTE list at `name`, past an optional RECURSIVE. */
  lemma ListStartLift(t: string, s: string, a: nat, i: nat, start: nat, p: nat, name: nat, x: Lexer)
    returns (recursive: Option<nat>)
    requires Lawful(x) && Stretch(t, s, a, x) && Stop(t, s, a, i, x) && p == a + i && name == a + start
    requires ListStart(t, i, x) == Ok(start)
    ensures Stop(t, s, a, start, x) && ListOpens(s, x, p, recursive, name)
  {
    var r := TriviaEnd(t, i, false, x).value;
    var word := a + r;
    TriviaLift(t, s, a, i, r, p, word, false, x);
    if WordAt(t, r) == Some("RECURSIVE") {
      RecursiveLift(t, s, a, r, start, p, word, name, x);
      recursive := Some(word);
    } else {
      WordLift(t, s, a, r, x);
      recursive := None;
    }
  }

  lemma RecursiveLift(t: string, s: string, a: nat, r: nat, start: nat, p: nat, word: nat, name: nat, x: Lexer)
    requires Lawful(x) && Stretch(t, s, a, x) && Stop(t, s, a, r, x) && word == a + r && name == a + start
    requires TriviaBetween(s, x, p, word, false)
    requires WordAt(t, r) == Some("RECURSIVE") && TriviaEnd(t, r + 9, false, x) == Ok(start)
    ensures ListOpens(s, x, p, Some(word), name) && Stop(t, s, a, start, x)
  {
    WordLift(t, s, a, r, x);
    TriviaLift(t, s, a, r + 9, start, word + 9, name, false, x);
  }

  /**
   The walk is sound: on a stretch [a, hi) of the text, a keyword it resolves to SELECT or VALUES
   comes with a derivation of that stretch, every body at every depth included, and the keyword's
   offset plus the stretch's own is the position `at` of that word in the text.
   */
  lemma {:induction false} ResolveIsSound(
    t: string, s: string, a: nat, hi: nat, x: Lexer, depth: nat, w: string, off: nat, at: nat)
    returns (q: Query)
    requires Lawful(x) && Stretch(t, s, a, x) && hi == a + |t| && at == a + off
    requires Resolve(t, x, a, depth) == Ok((Some(w), off)) && w in QUERY_KEYWORDS
    ensures Derives(s, x, a, hi, q, depth) && MainOf(q) == (at, w)
    ensures FirstKeyword(t, x).Ok? && (q.With? <==> FirstKeyword(t, x).value.0 == Some("WITH"))
    decreases |t|, |t| + 2, 0
  {
    var i, start := ResolveParts(t, x, a, depth, w, off);
    if WordAt(t, i) != Some("WITH") {
      q := MainIsSound(t, s, a, hi, i, x, depth, w, at);
    } else {
      q := WithIsSound(t, s, a, hi, i, start, x, depth, w, off, at);
    }
  }

  /** The stretch is a bare SELECT or VALUES. */
  lemma MainIsSound(
    t: string, s: string, a: nat, hi: nat, i: nat, x: Lexer, depth: nat, w: string, at: nat)
    returns (q: Query)
    requires Lawful(x) && Stretch(t, s, a, x) && hi == a + |t| && at == a + i
    requires TriviaEnd(t, 0, true, x) == Ok(i) && i <= |t| && WordAt(t, i) == Some(w) && w in QUERY_KEYWORDS
    ensures Derives(s, x, a, hi, q, depth) && MainOf(q) == (at, w) && q.Main?
  {
    KeywordLift(t, s, a, i, at, w, x);
    q := MakeMain(s, x, a, hi, at, w, depth);
  }

  /** The stretch opens with WITH, and the walk has read its list from `start`. */
  lemma {:induction false} WithIsSound(
    t: string, s: string, a: nat, hi: nat, i: nat, start: nat, x: Lexer, depth: nat, w: string, off: nat, at: nat)
    returns (q: Query)
    requires Lawful(x) && Stretch(t, s, a, x) && hi == a + |t| && at == a + off
    requires TriviaEnd(t, 0, true, x) == Ok(i) && i <= |t| && WordAt(t, i) == Some("WITH") && depth <= MAX_CTE_NESTING
    requires ListStart(t, i + 4, x) == Ok(start) && start <= |t|
    requires CteList(t, start, x, a, depth) == Ok((Some(w), off)) && w in QUERY_KEYWORDS
    ensures Derives(s, x, a, hi, q, depth) && MainOf(q) == (at, w) && q.With?
    decreases |t|, |t| + 1, 1
  {
    var p, index, name, after := a + i, i + 4, a + start, a + i + 4;
    KeywordLift(t, s, a, i, p, "WITH", x);
    var recursive, list := ListIsSound(t, s, a, hi, index, start, after, name, x, depth, w, off, at);
    q := MakeWith(s, x, a, hi, p, after, recursive, name, list, depth);
  }

  /** What follows the WITH: an optional RECURSIVE at `p`, and the list from `name`. */
  lemma {:induction false} ListIsSound(
    t: string, s: string, a: nat, hi: nat, index: nat, start: nat, p: nat, name: nat, x: Lexer, depth: nat, w: string,
    off: nat, at: nat)
    returns (recursive: Option<nat>, list: CteChain)
    requires Lawful(x) && Stretch(t, s, a, x) && hi == a + |t| && at == a + off
    requires Stop(t, s, a, index, x) && p == a + index && name == a + start
    requires ListStart(t, index, x) == Ok(start) && start <= |t|
    requires CteList(t, start, x, a, depth) == Ok((Some(w), off)) && w in QUERY_KEYWORDS
    ensures ListOpens(s, x, p, recursive, name) && DerivesChain(s, x, hi, list, depth)
    ensures list.cte.name == name && MainOfChain(list) == (at, w)
    decreases |t|, |t| + 1, 0
  {
    recursive := ListStartLift(t, s, a, index, start, p, name, x);
    list := ChainIsSound(t, s, a, hi, start, name, x, depth, w, off, at);
  }

  lemma MakeMain(s: string, x: Lexer, lo: nat, hi: nat, p: nat, w: string, depth: nat) returns (q: Query)
    requires x.Sane() && lo <= p < hi <= |s| && TriviaBetween(s, x, lo, p, true)
    requires WordIs(s, p, w) && w in QUERY_KEYWORDS
    ensures Derives(s, x, lo, hi, q, depth) && q.Main? && MainOf(q) == (p, w)
  {
    q := Main(p, w);
  }

  lemma MakeWith(
    s: string, x: Lexer, lo: nat, hi: nat, p: nat, after: nat, recursive: Option<nat>, name: nat, list: CteChain,
    depth: nat)
    returns (q: Query)
    requires x.Sane() && lo <= p < hi <= |s| && TriviaBetween(s, x, lo, p, true) && WordIs(s, p, "WITH")
    requires depth <= MAX_CTE_NESTING && list.cte.name == name && after == p + 4
    requires ListOpens(s, x, after, recursive, name)
    requires DerivesChain(s, x, hi, list, depth)
    ensures Derives(s, x, lo, hi, q, depth) && q.With? && MainOf(q) == MainOfChain(list)
  {
    q := With(p, recursive, list);
  }

  lemma {:induction false} ChainIsSound(
    t: string, s: string, a: nat, hi: nat, i: nat, name: nat, x: Lexer, depth: nat, w: string, off: nat, at: nat)
    returns (list: CteChain)
    requires Lawful(x) && Stretch(t, s, a, x) && hi == a + |t| && at == a + off
    requires Stop(t, s, a, i, x) && name == a + i
    requires CteList(t, i, x, a, depth) == Ok((Some(w), off)) && w in QUERY_KEYWORDS
    ensures DerivesChain(s, x, hi, list, depth) && list.cte.name == name && MainOfChain(list) == (at, w)
    decreases |t|, |t| - i, 1
  {
    var open, close, lo, bw, bo, turn := CteListParts(t, i, x, a, depth, w, off);
    var e, k := CteAtParts(t, i, open, close, x);
    var n := AfterBodyParts(t, close, turn, x, a, depth);
    var end, next := a + close, a + n;
    var c := CteIsSound(t, s, a, i, e, k, open, close, n, lo, end - 1, end, next, x, depth, bw, bo);
    list := RestOfChain(t, s, a, hi, i, n, next, turn, x, depth, w, off, at, c);
  }

  /** One CTE: its head, its body [lo, hi) a level deeper, and the trivia after it. */
  lemma {:induction false} CteIsSound(
    t: string, s: string, a: nat, i: nat, e: nat, k: nat, open: nat, close: nat, n: nat,
    lo: nat, hi: nat, end: nat, next: nat, x: Lexer, depth: nat, bw: string, bo: nat)
    returns (c: Cte)
    requires Lawful(x) && Stretch(t, s, a, x) && Stop(t, s, a, i, x)
    requires CteNameEnd(t, i, x) == Ok(Some(e)) && e <= |t| && ColumnsEndAt(t, e, k, x) && k <= |t|
    requires open + 2 <= close <= |t| && CteBody(t, k, x) == Ok(BodyGroup(open, close))
    requires BodyResolves(t, open, close, x, lo, depth, bw, bo) && TriviaEnd(t, close, false, x) == Ok(n)
    requires lo == a + open + 1 && hi == a + close - 1 && end == a + close && next == a + n
    ensures DerivesCte(s, x, c, depth) && c.name == a + i && c.next == next && Stop(t, s, a, n, x)
    decreases |t|, 0, 2
  {
    var head := CteHeadLift(t, s, a, i, e, k, open, close, x);
    var body := BodyIsSound(t, s, a, open, close, head, lo, hi, x, depth, bw, bo);
    TriviaLift(t, s, a, close, n, end, next, false, x);
    c := CompleteCte(s, x, head, lo, hi, body, end, next, depth);
  }

  lemma CompleteCte(
    s: string, x: Lexer, head: Cte, lo: nat, hi: nat, body: Query, end: nat, next: nat, depth: nat)
    returns (c: Cte)
    requires x.Sane() && CteHead(s, x, head) && lo == head.open + 1 && hi + 1 == head.close == end
    requires Derives(s, x, lo, hi, body, depth + 1) && TriviaBetween(s, x, end, next, false)
    ensures DerivesCte(s, x, c, depth) && c.name == head.name && c.next == next
  {
    c := head.(body := body, next := next);
    SameHead(s, x, head, c);
  }

  /** A head says nothing of the body and of what follows. */
  lemma SameHead(s: string, x: Lexer, head: Cte, c: Cte)
    requires x.Sane() && CteHead(s, x, head) && c == head.(body := c.body, next := c.next)
    ensures CteHead(s, x, c)
  {
  }

  lemma {:induction false} BodyIsSound(
    t: string, s: string, a: nat, open: nat, close: nat, head: Cte, lo: nat, hi: nat, x: Lexer, depth: nat,
    bw: string, bo: nat)
    returns (body: Query)
    requires Lawful(x) && Stretch(t, s, a, x) && open + 2 <= close <= |t|
    requires head.open == a + open && head.close == a + close && lo == head.open + 1 && hi == head.close - 1
    requires Group(s, x, head.open, head.close) && Inside(s, x, head.open, head.close)
    requires BodyResolves(t, open, close, x, lo, depth, bw, bo)
    ensures Derives(s, x, lo, hi, body, depth + 1)
    decreases |t|, 0, 0
  {
    BodyIsStretch(t, s, a, open, close, head.open, head.close, lo, x);
    body := ResolveIsSound(t[open + 1..close - 1], s, lo, hi, x, depth + 1, bw, bo, lo + bo);
  }

  /** After one complete CTE: the rest of the chain, or its main statement. */
  lemma {:induction false} RestOfChain(
    t: string, s: string, a: nat, hi: nat, i: nat, n: nat, next: nat, turn: Turn,
    x: Lexer, depth: nat, w: string, off: nat, at: nat, c: Cte)
    returns (list: CteChain)
    requires Lawful(x) && Stretch(t, s, a, x) && hi == a + |t| && at == a + off
    requires 0 < n && i < n && Stop(t, s, a, n, x) && next == a + n
    requires AfterBodyRead(t, n, turn, x, a, depth)
    requires match turn
             case Next(index) => n < index <= |t| && CteList(t, index, x, a, depth) == Ok((Some(w), off))
             case Answer(keyword, o) => keyword == Some(w) && o == off
    requires w in QUERY_KEYWORDS && DerivesCte(s, x, c, depth) && c.next == next
    ensures DerivesChain(s, x, hi, list, depth) && list.cte == c && MainOfChain(list) == (at, w)
    decreases |t|, |t| - i, 0
  {
    match turn
    case Next(index) =>
      var name := a + index;
      AfterComma(t, s, a, n, index, next, name, x);
      var rest := ChainIsSound(t, s, a, hi, index, name, x, depth, w, off, at);
      list := ExtendChain(s, x, hi, c, next, rest, name, depth);
    case Answer(_, _) =>
      var main := AnswerIsSound(t, s, a, hi, n, next, x, depth, w, off, at);
      list := Last(c, main);
  }

  lemma ExtendChain(
    s: string, x: Lexer, hi: nat, c: Cte, comma: nat, rest: CteChain, name: nat, depth: nat)
    returns (list: CteChain)
    requires x.Sane() && DerivesCte(s, x, c, depth) && DerivesChain(s, x, hi, rest, depth)
    requires c.next == comma && rest.cte.name == name
    requires CommaJoins(s, x, comma, name)
    ensures DerivesChain(s, x, hi, list, depth) && list == More(c, rest)
  {
    list := More(c, rest);
  }

  lemma AfterComma(t: string, s: string, a: nat, n: nat, index: nat, comma: nat, name: nat, x: Lexer)
    requires Lawful(x) && Stretch(t, s, a, x) && Stop(t, s, a, n, x) && comma == a + n && name == a + index
    requires CharAt(t, n, ',') && TriviaEnd(t, n + 1, false, x) == Ok(index)
    ensures CommaJoins(s, x, comma, name) && Stop(t, s, a, index, x)
  {
    StepAtStop(t, s, a, n, x);
    TriviaLift(t, s, a, n + 1, index, comma + 1, name, false, x);
  }

  lemma {:induction false} AnswerIsSound(
    t: string, s: string, a: nat, hi: nat, n: nat, next: nat, x: Lexer, depth: nat, w: string, off: nat, at: nat)
    returns (main: Query)
    requires Lawful(x) && Stretch(t, s, a, x) && hi == a + |t| && at == a + off
    requires 0 < n && Stop(t, s, a, n, x) && next == a + n
    requires AfterBodyRead(t, n, Answer(Some(w), off), x, a, depth) && w in QUERY_KEYWORDS
    ensures Derives(s, x, next, hi, main, depth + 1) && (CharAt(s, next, '(') || (main.Main? && main.at == next))
    ensures MainOf(main) == (at, w)
    decreases |t|, 0, 0
  {
    if CharAt(t, n, '(') {
      TailIsStretch(t, s, a, n, x);
      assert t[n] == s[a + n];
      main := ResolveIsSound(t[n..], s, next, hi, x, depth + 1, w, off - n, at);
    } else {
      WordLift(t, s, a, n, x);
      main := Main(next, w);
      assert next == at;
    }
  }

  /** The main keyword of a derivation is a query keyword of the text. */
  lemma {:induction false} DerivedMainIsWord(s: string, x: Lexer, lo: nat, hi: nat, q: Query, depth: nat)
    requires x.Sane() && Derives(s, x, lo, hi, q, depth)
    ensures WordIs(s, MainOf(q).0, MainOf(q).1) && MainOf(q).1 in QUERY_KEYWORDS
    decreases q
  {
    match q
    case Main(_, _) =>
    case With(_, _, list) => ChainMainIsWord(s, x, hi, list, depth);
  }

  lemma {:induction false} ChainMainIsWord(s: string, x: Lexer, hi: nat, list: CteChain, depth: nat)
    requires x.Sane() && DerivesChain(s, x, hi, list, depth)
    ensures WordIs(s, MainOfChain(list).0, MainOfChain(list).1) && MainOfChain(list).1 in QUERY_KEYWORDS
    decreases list
  {
    match list
    case Last(c, main) => DerivedMainIsWord(s, x, c.next, hi, main, depth + 1);
    case More(_, rest) => ChainMainIsWord(s, x, hi, rest, depth);
  }
}
