/**
 The mutually recursive walk as the original runs it, with its cost: `visited` counts the
 characters the parenthesis matcher passes over the whole walk.
 */
module SqlWalk {
  import opened Outcomes
  import opened SqlScope
  import opened SqlLexer
  import opened SqlKeywords
  import opened SqlWalkCost

  /** Reads `AS (body)`. */
  method ReadCteBody(s: string, start: nat, x: Lexer) returns (r: Result<CteShape, Refusal>, visited: nat)
    requires x.Sane() && start <= |s|
    ensures r == CteBody(s, start, x) && visited == CteBodyCost(s, start, x)
  {
    visited := 0;
    if WordAt(s, start) != Some("AS") {
      return Ok(Broken(start)), visited;
    }
    var index: nat :- SkipTrivia(s, start + 2, false, x);
    if !CharAt(s, index, '(') {
      return Ok(Broken(index)), visited;
    }
    var close, passed := FindGroupEnd(s, index, x);
    if close.Refused? {
      return Refused(close.error), passed;
    }
    return Ok(BodyGroup(index, close.value)), passed;
  }

  /** Reads one `name [(columns)] AS (body)`. */
  method ReadCte(s: string, start: nat, x: Lexer) returns (r: Result<CteShape, Refusal>, visited: nat)
    requires x.Sane() && start <= |s|
    ensures r == CteAt(s, start, x) && visited == CteCost(s, start, x)
  {
    visited := 0;
    var name: Option<nat> :- CteNameEnd(s, start, x);
    if name == None {
      return Ok(Broken(start)), visited;
    }
    var index: nat :- SkipTrivia(s, name.value, false, x);
    var passed: nat := 0;
    if CharAt(s, index, '(') {
      var columns: Result<nat, Refusal>;
      columns, passed := FindGroupEnd(s, index, x);
      visited := passed;
      if columns.Refused? {
        return Refused(columns.error), visited;
      }
      index :- SkipTrivia(s, columns.value, false, x);
    }
    r, visited := ReadCteBody(s, index, x);
    visited := visited + passed;
  }

  method ResolveQueryKeyword(s: string, x: Lexer, base: nat, depth: nat) returns (r: Walk, visited: nat)
    requires x.Sane() && 1 <= depth <= MAX_CTE_NESTING + 1
    ensures r == Resolve(s, x, base, depth)
    ensures visited == ResolveCost(s, x, base, depth) <= Budget(LevelsLeft(depth), |s|)
    decreases |s|, 5
  {
    visited := 0;
    ResolveCostBound(s, x, base, depth);
    var first: (Option<string>, nat) :- FirstKeyword(s, x);
    if first.0 != Some("WITH") {
      return Ok(first), 0;
    }
    if depth > MAX_CTE_NESTING {
      return Refused(NestedTooDeep(base + first.1)), 0;
    }
    r, visited := MainKeywordAfterCtes(s, first.1 + 4, x, base, depth);
  }

  /** Walks the CTE list from just after a WITH. */
  method MainKeywordAfterCtes(s: string, start: nat, x: Lexer, base: nat, depth: nat) returns (r: Walk, visited: nat)
    requires x.Sane() && start <= |s| && 1 <= depth <= MAX_CTE_NESTING
    ensures r == MainKeyword(s, start, x, base, depth) && visited == MainKeywordCost(s, start, x, base, depth)
    decreases |s|, 4
  {
    visited := 0;
    var index: nat :- SkipTrivia(s, start, false, x);
    if WordAt(s, index) == Some("RECURSIVE") {
      index :- SkipTrivia(s, index + 9, false, x);
    }
    r, visited := WalkCteList(s, index, x, base, depth);
  }

  method WalkCteList(s: string, start: nat, x: Lexer, base: nat, depth: nat) returns (r: Walk, visited: nat)
    requires x.Sane() && start <= |s| && 1 <= depth <= MAX_CTE_NESTING
    ensures r == CteList(s, start, x, base, depth)
    ensures visited == CteListCost(s, start, x, base, depth) <= Budget(LevelsLeft(depth), |s| - start)
    decreases |s|, 3
  {
    CteListCostBound(s, start, x, base, depth, CteListCost(s, start, x, base, depth), |s| - start);
    visited := 0;
    var index: nat := start;
    while true
      invariant start <= index <= |s|
      invariant CteList(s, start, x, base, depth) == CteList(s, index, x, base, depth)
      invariant visited + CteListCost(s, index, x, base, depth) == CteListCost(s, start, x, base, depth)
      decreases |s| - index
    {
      var turn, cost := WalkOneCte(s, index, x, base, depth);
      visited := visited + cost;
      if turn.Refused? {
        return Refused(turn.error), visited;
      }
      if turn.value.Answer? {
        return Ok((turn.value.keyword, turn.value.at)), visited;
      }
      index := turn.value.index;
    }
  }

  /** One turn of the loop: the CTE at `index`, its body, and what follows it. */
  method WalkOneCte(s: string, index: nat, x: Lexer, base: nat, depth: nat)
    returns (r: Result<Turn, Refusal>, visited: nat)
    requires x.Sane() && index <= |s| && 1 <= depth <= MAX_CTE_NESTING
    ensures r == CteTurn(s, index, x, base, depth) && visited == CteTurnCost(s, index, x, base, depth)
    decreases |s|, 2
  {
    var cte, own := ReadCte(s, index, x);
    var rest: nat;
    r, rest := WalkTurn(s, cte, x, base, depth);
    visited := own + rest;
  }

  method WalkTurn(s: string, cte: Result<CteShape, Refusal>, x: Lexer, base: nat, depth: nat)
    returns (r: Result<Turn, Refusal>, visited: nat)
    requires x.Sane() && 1 <= depth <= MAX_CTE_NESTING && IsShapeOf(cte, s)
    ensures r == TurnAfter(s, cte, x, base, depth) && visited == TurnAfterCost(s, cte, x, base, depth)
    decreases |s|, 1
  {
    var passage, passed := WalkBody(s, cte, x, base, depth);
    visited := passed;
    var through: Passage :- passage;
    if through.Halt? {
      return Ok(Answer(None, through.at)), visited;
    }
    var after, rest := ReadAfterBody(s, through.close, x, base, depth);
    return after, passed + rest;
  }

  /** The body of a CTE: the stretch [from, to) of the text, which starts at `lo` of the submitted one. */
  ghost predicate IsBodyOf(
    s: string, cte: Result<CteShape, Refusal>, inner: string, from: nat, to: nat, lo: nat, base: nat)
    requires IsShapeOf(cte, s)
  {
    && cte.Ok? && cte.value.BodyGroup? && from == cte.value.open + 1 && to + 1 == cte.value.close
    && lo == base + from && inner == s[from..to]
  }

  /** What the walk of a body comes to. */
  lemma BodyIsPassed(
    s: string, cte: Result<CteShape, Refusal>, inner: string, from: nat, to: nat, lo: nat, deeper: nat, body: Walk,
    x: Lexer, base: nat, depth: nat)
    returns (passage: Result<Passage, Refusal>)
    requires x.Sane() && IsShapeOf(cte, s) && IsBodyOf(s, cte, inner, from, to, lo, base) && deeper == depth + 1
    requires body == Resolve(inner, x, lo, deeper)
    ensures passage == ThroughBody(s, cte, x, base, depth)
    ensures passage ==
            if body.Refused? then Refused(body.error)
            else Ok(if IsQueryKeyword(body.value.0) then Through(cte.value.close) else Halt(from + body.value.1))
  {
    passage := ThroughBody(s, cte, x, base, depth);
  }

  lemma BodyIsCounted(
    s: string, cte: Result<CteShape, Refusal>, inner: string, from: nat, to: nat, lo: nat, deeper: nat, cost: nat,
    x: Lexer, base: nat, depth: nat)
    requires x.Sane() && IsShapeOf(cte, s) && IsBodyOf(s, cte, inner, from, to, lo, base) && deeper == depth + 1
    requires cost == ResolveCost(inner, x, lo, deeper)
    ensures BodyCost(s, cte, x, base, depth) == cost
  {
  }

  lemma BrokenIsPassed(s: string, cte: Result<CteShape, Refusal>, x: Lexer, base: nat, depth: nat)
    returns (passage: Result<Passage, Refusal>)
    requires x.Sane() && IsShapeOf(cte, s) && (cte.Refused? || cte.value.Broken?)
    ensures passage == ThroughBody(s, cte, x, base, depth) && BodyCost(s, cte, x, base, depth) == 0
    ensures passage == if cte.Refused? then Refused(cte.error) else Ok(Halt(cte.value.at))
  {
    passage := ThroughBody(s, cte, x, base, depth);
  }

  /** The body of a CTE, walked a level deeper. */
  method WalkBody(s: string, cte: Result<CteShape, Refusal>, x: Lexer, base: nat, depth: nat)
    returns (r: Result<Passage, Refusal>, visited: nat)
    requires x.Sane() && 1 <= depth <= MAX_CTE_NESTING && IsShapeOf(cte, s)
    ensures r == ThroughBody(s, cte, x, base, depth) && visited == BodyCost(s, cte, x, base, depth)
    decreases |s|, 0
  {
    if cte.Refused? || cte.value.Broken? {
      ghost var passage := BrokenIsPassed(s, cte, x, base, depth);
      return if cte.Refused? then Refused(cte.error) else Ok(Halt(cte.value.at)), 0;
    }
    var from: nat, to: nat, deeper: nat := cte.value.open + 1, cte.value.close - 1, depth + 1;
    var inner, lo: nat := s[from..to], base + from;
    var body;
    body, visited := ResolveQueryKeyword(inner, x, lo, deeper);
    ghost var passage := BodyIsPassed(s, cte, inner, from, to, lo, deeper, body, x, base, depth);
    BodyIsCounted(s, cte, inner, from, to, lo, deeper, visited, x, base, depth);
    if body.Refused? {
      r := Refused(body.error);
    } else if IsQueryKeyword(body.value.0) {
      r := Ok(Through(cte.value.close));
    } else {
      r := Ok(Halt(from + body.value.1));
    }
    assert r == passage;
  }

  /** What the walk of a parenthesised main statement at `n` comes to, and costs. */
  lemma TailIsPassed(s: string, close: nat, n: nat, main: Walk, cost: nat, x: Lexer, base: nat, depth: nat)
    returns (after: Result<Turn, Refusal>, total: nat)
    requires x.Sane() && 0 < close <= n <= |s| && TriviaEnd(s, close, false, x) == Ok(n) && CharAt(s, n, '(')
    requires main == Resolve(s[n..], x, base + n, depth + 1) && cost == ResolveCost(s[n..], x, base + n, depth + 1)
    ensures after == AfterBody(s, close, x, base, depth) && total == AfterBodyCost(s, close, x, base, depth) == cost
    ensures after ==
            if main.Refused? then Refused(main.error) else Ok(Answer(main.value.0, n + main.value.1))
  {
    after, total := AfterBody(s, close, x, base, depth), AfterBodyCost(s, close, x, base, depth);
  }

  method ReadAfterBody(s: string, close: nat, x: Lexer, base: nat, depth: nat)
    returns (r: Result<Turn, Refusal>, visited: nat)
    requires x.Sane() && 0 < close <= |s| && 1 <= depth <= MAX_CTE_NESTING
    ensures r == AfterBody(s, close, x, base, depth) && visited == AfterBodyCost(s, close, x, base, depth)
    decreases |s|, 0
  {
    visited := 0;
    var n: nat :- SkipTrivia(s, close, false, x);
    if CharAt(s, n, ',') {
      var next: nat :- SkipTrivia(s, n + 1, false, x);
      return Ok(Next(next)), 0;
    }
    if !CharAt(s, n, '(') {
      return Ok(Answer(WordAt(s, n), n)), 0;
    }
    r, visited := WalkTail(s, close, n, x, base, depth);
  }

  method WalkTail(s: string, close: nat, n: nat, x: Lexer, base: nat, depth: nat)
    returns (r: Result<Turn, Refusal>, visited: nat)
    requires x.Sane() && 0 < close <= n <= |s| && 1 <= depth <= MAX_CTE_NESTING
    requires TriviaEnd(s, close, false, x) == Ok(n) && CharAt(s, n, '(')
    ensures r == AfterBody(s, close, x, base, depth) && visited == AfterBodyCost(s, close, x, base, depth)
    decreases |s|, 0, 0
  {
    var main;
    main, visited := ResolveQueryKeyword(s[n..], x, base + n, depth + 1);
    ghost var after, total := TailIsPassed(s, close, n, main, visited, x, base, depth);
    if main.Refused? {
      r := Refused(main.error);
    } else {
      r := Ok(Answer(main.value.0, n + main.value.1));
    }
    assert r == after;
  }

  /** The gate's own walk: at most sixteen times the text is ever matched. */
  method WalkFromTheTop(s: string, x: Lexer) returns (r: Walk, visited: nat)
    requires x.Sane()
    ensures r == Resolve(s, x, 0, 1)
    ensures visited == ResolveCost(s, x, 0, 1) <= 16 * |s|
  {
    r, visited := ResolveQueryKeyword(s, x, 0, 1);
    BudgetIsProduct(LevelsLeft(1), |s|);
  }
}
