/**
 The read gate: the first keyword of a statement, and the walk over a CTE list to the main
 statement's keyword. The loops of the original are methods proved equal to the functions. The
 walk sees the shared lexer only through the `Lexer` interface.
 */
module SqlKeywords {
  import opened Outcomes
  import opened SqlScope
  import opened SqlLexer
  import opened SqlWrap

  const READ_STATEMENT_KEYWORDS: set<string> :=
    {"SELECT", "WITH", "VALUES", "SHOW", "DESCRIBE", "DESC", "EXPLAIN"}
  const QUERY_KEYWORDS: set<string> := {"SELECT", "VALUES"}
  const MAX_CTE_NESTING := 16

  // ----- words

  function WordEnd(s: string, i: nat): (e: nat)
    requires i <= |s|
    ensures i <= e <= |s|
    decreases |s| - i
  {
    if i < |s| && IsWordChar(s[i]) then WordEnd(s, i + 1) else i
  }

  function NameEnd(s: string, i: nat): (e: nat)
    requires i <= |s|
    ensures i <= e <= |s|
    decreases |s| - i
  {
    if i < |s| && IsNameChar(s[i]) then NameEnd(s, i + 1) else i
  }

  function UpperChar(c: char): char { if 'a' <= c <= 'z' then (c as int - 32) as char else c }

  /** Upper case of an ASCII word. */
  function Upper(t: string): (u: string)
    ensures |u| == |t|
  {
    seq(|t|, k requires 0 <= k < |t| => UpperChar(t[k]))
  }

  /** The upper-cased ASCII word at `i`, None when no word starts there. */
  function WordAt(s: string, i: nat): (w: Option<string>)
    requires i <= |s|
    ensures w.Some? ==> i + |w.value| == WordEnd(s, i) && w.value != ""
  {
    if i < |s| && IsWordStart(s[i]) then Some(Upper(s[i..WordEnd(s, i)])) else None
  }

  // ----- trivia and groups

  function TriviaEnd(s: string, i: nat, parens: bool, x: Lexer): (r: Result<nat, Refusal>)
    requires x.Sane() && i <= |s|
    ensures r.Ok? ==> i <= r.value <= |s|
    decreases |s| - i
  {
    if i == |s| then Ok(i)
    else if x.isSpace(s[i]) || (parens && s[i] == '(') then TriviaEnd(s, i + 1, parens, x)
    else
      var comment :- x.Comment(s, i);
      match comment
      case Some(c) => TriviaEnd(s, c, parens, x)
      case None => Ok(i)
  }

  method SkipTrivia(s: string, index: nat, parens: bool, x: Lexer) returns (r: Result<nat, Refusal>)
    requires x.Sane() && index <= |s|
    ensures r == TriviaEnd(s, index, parens, x)
  {
    var i := index;
    while i < |s|
      invariant i <= |s| && TriviaEnd(s, i, parens, x) == TriviaEnd(s, index, parens, x)
      decreases |s| - i
    {
      if x.isSpace(s[i]) || (parens && s[i] == '(') {
        i := i + 1;
        continue;
      }
      var comment: Found := x.Comment(s, i);
      match comment {
        case Refused(e) => return Refused(e);
        case Ok(None) => break;
        case Ok(Some(c)) => i := c;
      }
    }
    return Ok(i);
  }

  function FirstKeyword(s: string, x: Lexer): (r: Result<(Option<string>, nat), Refusal>)
    requires x.Sane()
    ensures r.Ok? ==> r.value.1 <= |s| && r.value.0 == WordAt(s, r.value.1)
  {
    var i :- TriviaEnd(s, 0, true, x);
    Ok((WordAt(s, i), i))
  }

  /** The parenthesised group opening at `open`, matched from `i` at nesting `depth`. */
  function GroupFrom(s: string, i: nat, depth: int, open: nat, x: Lexer): (r: Result<nat, Refusal>)
    requires x.Sane() && i <= |s|
    ensures r.Ok? ==> i < r.value <= |s|
    decreases |s| - i
  {
    if i == |s| then Refused(GroupNotClosed(open))
    else
      var skipped :- x.Lexeme(s, i);
      match skipped
      case Some(e) => GroupFrom(s, e, depth, open, x)
      case None =>
        if s[i] == '(' then GroupFrom(s, i + 1, depth + 1, open, x)
        else if s[i] == ')' then
          if depth - 1 == 0 then Ok(i + 1) else GroupFrom(s, i + 1, depth - 1, open, x)
        else GroupFrom(s, i + 1, depth, open, x)
  }

  function GroupEnd(s: string, open: nat, x: Lexer): (r: Result<nat, Refusal>)
    requires x.Sane() && CharAt(s, open, '(')
    ensures r.Ok? ==> open + 2 <= r.value <= |s|
  {
    GroupFrom(s, open, 0, open, x)
  }

  /** Characters the matcher passes from `i` on: to the group's end, or to where it refuses. */
  function GroupCostFrom(s: string, i: nat, depth: int, x: Lexer): (n: nat)
    requires x.Sane() && i <= |s|
    ensures i + n <= |s|
    decreases |s| - i
  {
    if i == |s| then 0
    else
      match x.Lexeme(s, i)
      case Refused(_) => 0
      case Ok(Some(e)) => e - i + GroupCostFrom(s, e, depth, x)
      case Ok(None) =>
        if s[i] == '(' then 1 + GroupCostFrom(s, i + 1, depth + 1, x)
        else if s[i] == ')' then if depth - 1 == 0 then 1 else 1 + GroupCostFrom(s, i + 1, depth - 1, x)
        else 1 + GroupCostFrom(s, i + 1, depth, x)
  }

  function GroupCost(s: string, open: nat, x: Lexer): nat
    requires x.Sane() && CharAt(s, open, '(')
  {
    GroupCostFrom(s, open, 0, x)
  }

  /** A group that is closed costs its own length. */
  lemma {:induction false} ClosedGroupCost(s: string, i: nat, depth: int, open: nat, x: Lexer)
    requires x.Sane() && i <= |s| && GroupFrom(s, i, depth, open, x).Ok?
    ensures i + GroupCostFrom(s, i, depth, x) == GroupFrom(s, i, depth, open, x).value
    decreases |s| - i
  {
    match x.Lexeme(s, i)
    case Ok(Some(e)) => ClosedGroupCost(s, e, depth, open, x);
    case Ok(None) =>
      if s[i] == '(' {
        ClosedGroupCost(s, i + 1, depth + 1, open, x);
      } else if s[i] == ')' {
        if depth - 1 != 0 {
          ClosedGroupCost(s, i + 1, depth - 1, open, x);
        }
      } else {
        ClosedGroupCost(s, i + 1, depth, open, x);
      }
    case Refused(_) =>
  }

  /** `visited` counts the characters the matcher passes. */
  method FindGroupEnd(s: string, open: nat, x: Lexer) returns (r: Result<nat, Refusal>, visited: nat)
    requires x.Sane() && CharAt(s, open, '(')
    ensures r == GroupEnd(s, open, x)
    ensures visited == GroupCost(s, open, x) <= |s| - open
    ensures r.Ok? ==> visited == r.value - open
  {
    var depth, position := 0, open;
    visited := 0;
    while position < |s|
      invariant position <= |s| && visited == position - open
      invariant GroupFrom(s, position, depth, open, x) == GroupEnd(s, open, x)
      invariant visited + GroupCostFrom(s, position, depth, x) == GroupCost(s, open, x)
      decreases |s| - position
    {
      var skipped := x.Lexeme(s, position);
      match skipped {
        case Refused(e) => return Refused(e), visited;
        case Ok(Some(e)) =>
          visited := visited + (e - position);
          position := e;
          continue;
        case Ok(None) =>
      }
      visited := visited + 1;
      if s[position] == '(' {
        depth := depth + 1;
      } else if s[position] == ')' {
        depth := depth - 1;
        if depth == 0 {
          return Ok(position + 1), visited;
        }
      }
      position := position + 1;
    }
    return Refused(GroupNotClosed(open)), visited;
  }

  function CteNameEnd(s: string, i: nat, x: Lexer): (r: Found)
    requires x.Sane() && i <= |s|
    ensures r.Ok? && r.value.Some? ==> i < r.value.value <= |s|
  {
    if i < |s| && IsWordStart(s[i]) then Ok(Some(NameEnd(s, i)))
    else if i == |s| then Ok(None)
    else if x.quotesName(s[i]) then
      x.Literal(s, i)
    else Ok(None)
  }

  // ----- the walk

  /** The walk's answer: the main keyword it found, if any, and its offset. */
  type Walk = Result<(Option<string>, nat), Refusal>

  /** One `name [(columns)] AS (body)` at a position: the body's group, or where the shape broke. */
  datatype CteShape = Broken(at: nat) | BodyGroup(open: nat, close: nat)

  /** From just after the optional column list: `AS (body)`. */
  function CteBody(s: string, i: nat, x: Lexer): (r: Result<CteShape, Refusal>)
    requires x.Sane() && i <= |s|
    ensures r.Ok? && r.value.Broken? ==> r.value.at <= |s|
    ensures r.Ok? && r.value.BodyGroup? ==> i < r.value.open && r.value.open + 2 <= r.value.close <= |s|
  {
    if WordAt(s, i) != Some("AS") then Ok(Broken(i))
    else
      var open :- TriviaEnd(s, i + 2, false, x);
      if !CharAt(s, open, '(') then Ok(Broken(open))
      else
        var close :- GroupEnd(s, open, x);
        Ok(BodyGroup(open, close))
  }

  function CteAt(s: string, i: nat, x: Lexer): (r: Result<CteShape, Refusal>)
    requires x.Sane() && i <= |s|
    ensures r.Ok? && r.value.Broken? ==> r.value.at <= |s|
    ensures r.Ok? && r.value.BodyGroup? ==> i < r.value.open && r.value.open + 2 <= r.value.close <= |s|
  {
    var nameEnd :- CteNameEnd(s, i, x);
    match nameEnd
    case None => Ok(Broken(i))
    case Some(e) =>
      var j :- TriviaEnd(s, e, false, x);
      if CharAt(s, j, '(') then
        var columns :- GroupEnd(s, j, x);
        var k :- TriviaEnd(s, columns, false, x);
        CteBody(s, k, x)
      else CteBody(s, j, x)
  }

  predicate IsQueryKeyword(w: Option<string>) { w.Some? && w.value in QUERY_KEYWORDS }

  /** What one turn of the walk's loop decides: go on at `index`, or answer. */
  datatype Turn = Next(index: nat) | Answer(keyword: Option<string>, at: nat)

  /** Where the walk stands after one CTE: past its body, or stopped at a shape it cannot resolve. */
  datatype Passage = Through(close: nat) | Halt(at: nat)

  /** The first keyword with a WITH resolved to the main statement; `base` and `depth` are the frame. */
  function Resolve(s: string, x: Lexer, base: nat, depth: nat): (r: Walk)
    requires x.Sane()
    ensures r.Ok? ==> r.value.1 <= |s|
    decreases |s|, 2 * |s| + 5
  {
    var first :- FirstKeyword(s, x);
    if first.0 != Some("WITH") then Ok(first)
    else if depth > MAX_CTE_NESTING then Refused(NestedTooDeep(base + first.1))
    else MainKeyword(s, first.1 + 4, x, base, depth)
  }

  /** Past the RECURSIVE of a CTE list, if there is one. */
  function ListStart(s: string, index: nat, x: Lexer): (r: Result<nat, Refusal>)
    requires x.Sane() && index <= |s|
    ensures r.Ok? ==> index <= r.value <= |s|
  {
    var i :- TriviaEnd(s, index, false, x);
    if WordAt(s, i) == Some("RECURSIVE") then TriviaEnd(s, i + 9, false, x) else Ok(i)
  }

  function MainKeyword(s: string, index: nat, x: Lexer, base: nat, depth: nat): (r: Walk)
    requires x.Sane() && index <= |s|
    ensures r.Ok? ==> r.value.1 <= |s|
    decreases |s|, 2 * |s| + 4
  {
    var i :- ListStart(s, index, x);
    CteList(s, i, x, base, depth)
  }

  function CteList(s: string, i: nat, x: Lexer, base: nat, depth: nat): (r: Walk)
    requires x.Sane() && i <= |s|
    ensures r.Ok? ==> r.value.1 <= |s|
    decreases |s|, 2 * (|s| - i) + 3
  {
    var turn :- CteTurn(s, i, x, base, depth);
    match turn
    case Next(index) => CteList(s, index, x, base, depth)
    case Answer(keyword, at) => Ok((keyword, at))
  }

  /** One CTE, and what follows it. */
  function CteTurn(s: string, i: nat, x: Lexer, base: nat, depth: nat): (r: Result<Turn, Refusal>)
    requires x.Sane() && i <= |s|
    ensures r.Ok? && r.value.Next? ==> i < r.value.index <= |s|
    ensures r.Ok? && r.value.Answer? ==> r.value.at <= |s|
    decreases |s|, 2 * (|s| - i) + 2
  {
    TurnAfter(s, CteAt(s, i, x), x, base, depth)
  }

  /** From the shape of one CTE: its body, and what follows it. */
  function TurnAfter(
    s: string, cte: Result<CteShape, Refusal>, x: Lexer, base: nat, depth: nat): (r: Result<Turn, Refusal>)
    requires x.Sane() && IsShapeOf(cte, s)
    ensures r.Ok? && r.value.Next? ==> cte.Ok? && cte.value.BodyGroup? && cte.value.close < r.value.index <= |s|
    ensures r.Ok? && r.value.Answer? ==> r.value.at <= |s|
    decreases |s|, 1
  {
    var through :- ThroughBody(s, cte, x, base, depth);
    match through
    case Halt(at) => Ok(Answer(None, at))
    case Through(close) => AfterBody(s, close, x, base, depth)
  }

  /** The body must itself resolve to a query keyword. */
  function ThroughBody(
    s: string, cte: Result<CteShape, Refusal>, x: Lexer, base: nat, depth: nat): (r: Result<Passage, Refusal>)
    requires x.Sane() && IsShapeOf(cte, s)
    ensures r.Ok? && r.value.Through? ==> cte.Ok? && cte.value.BodyGroup? && r.value.close == cte.value.close
    ensures r.Ok? && r.value.Halt? ==> r.value.at <= |s|
    decreases |s|, 0
  {
    var shape :- cte;
    match shape
    case Broken(at) => Ok(Halt(at))
    case BodyGroup(open, close) =>
      var body :- Resolve(s[open + 1..close - 1], x, base + open + 1, depth + 1);
      Ok(if IsQueryKeyword(body.0) then Through(close) else Halt(open + 1 + body.1))
  }

  predicate IsShapeOf(cte: Result<CteShape, Refusal>, s: string) {
    match cte
    case Ok(Broken(at)) => at <= |s|
    case Ok(BodyGroup(open, close)) => open + 2 <= close <= |s|
    case Refused(_) => true
  }

  /** After a CTE body: a comma and the next CTE, a parenthesised main statement, or its keyword. */
  function AfterBody(s: string, close: nat, x: Lexer, base: nat, depth: nat): (r: Result<Turn, Refusal>)
    requires x.Sane() && 0 < close <= |s|
    ensures r.Ok? && r.value.Next? ==> close < r.value.index <= |s|
    ensures r.Ok? && r.value.Answer? ==> close <= r.value.at <= |s|
    decreases |s|, 0
  {
    var n :- TriviaEnd(s, close, false, x);
    if CharAt(s, n, ',') then
      var next :- TriviaEnd(s, n + 1, false, x);
      Ok(Next(next))
    else if CharAt(s, n, '(') then
      var main :- Resolve(s[n..], x, base + n, depth + 1);
      Ok(Answer(main.0, n + main.1))
    else Ok(Answer(WordAt(s, n), n))
  }

  // ----- segments and gates

  function SegmentsFrom(s: string, start: nat, i: nat, x: Lexer): (r: Result<seq<(nat, nat)>, Refusal>)
    requires x.Sane() && start <= i <= |s|
    ensures r.Ok? ==> |r.value| > 0 && forall k :: 0 <= k < |r.value| ==> start <= r.value[k].0 <= r.value[k].1 <= |s|
    decreases |s| - i
  {
    if i == |s| then Ok([(start, |s|)])
    else
      var skipped :- x.Lexeme(s, i);
      match skipped
      case Some(e) => SegmentsFrom(s, start, e, x)
      case None =>
        if s[i] == ';' then
          var rest :- SegmentsFrom(s, i + 1, i + 1, x);
          Ok([(start, i)] + rest)
        else SegmentsFrom(s, start, i + 1, x)
  }

  function Prepend(segments: seq<(nat, nat)>, r: Result<seq<(nat, nat)>, Refusal>): Result<seq<(nat, nat)>, Refusal> {
    var rest :- r;
    Ok(segments + rest)
  }

  lemma PrependAppends(segments: seq<(nat, nat)>, one: (nat, nat), r: Result<seq<(nat, nat)>, Refusal>)
    ensures Prepend(segments, Prepend([one], r)) == Prepend(segments + [one], r)
    ensures Prepend([], r) == r
  {
    if r.Ok? {
      assert segments + ([one] + r.value) == segments + [one] + r.value;
      assert [] + r.value == r.value;
    }
  }

  method StatementSegments(s: string, x: Lexer) returns (r: Result<seq<(nat, nat)>, Refusal>)
    requires x.Sane()
    ensures r == SegmentsFrom(s, 0, 0, x)
  {
    ghost var whole := SegmentsFrom(s, 0, 0, x);
    var segments: seq<(nat, nat)>, start: nat, index: nat := [], 0, 0;
    PrependAppends([], (0, 0), whole);
    while index < |s|
      invariant start <= index <= |s|
      invariant whole == Prepend(segments, SegmentsFrom(s, start, index, x))
      decreases |s| - index
    {
      var skipped := x.Lexeme(s, index);
      if skipped.Refused? {
        return Refused(skipped.error);
      }
      if skipped.value.Some? {
        index := skipped.value.value;
      } else if s[index] == ';' {
        PrependAppends(segments, (start, index), SegmentsFrom(s, index + 1, index + 1, x));
        segments := segments + [(start, index)];
        start, index := index + 1, index + 1;
      } else {
        index := index + 1;
      }
    }
    return Ok(segments + [(start, |s|)]);
  }

  /** The gate on one statement; `Ok(())` when it is admitted. */
  function CheckStatement(segment: string, base: nat, x: Lexer): Result<(), Refusal>
    requires x.Sane()
  {
    var first :- FirstKeyword(segment, x);
    if first.0 == Some("WITH") then
      var main :- MainKeyword(segment, first.1 + 4, x, base, 1);
      if IsQueryKeyword(main.0) then Ok(()) else Refused(NotAQuery(base + main.1))
    else if first.0 == None then Refused(NoKeyword(base + first.1))
    else if first.0.value !in READ_STATEMENT_KEYWORDS then Refused(OtherKeyword(base + first.1))
    else Ok(())
  }

  /** The segments that hold more than white space and comments. */
  function NonBlank(s: string, segments: seq<(nat, nat)>, x: Lexer): (r: Result<seq<(nat, nat)>, Refusal>)
    requires x.Sane() && forall k :: 0 <= k < |segments| ==> segments[k].0 <= segments[k].1 <= |s|
    ensures r.Ok? ==> forall k :: 0 <= k < |r.value| ==> r.value[k].0 <= r.value[k].1 <= |s|
  {
    if segments == [] then Ok([])
    else
      var (start, end) := segments[0];
      var trivia :- TriviaEnd(s[start..end], 0, false, x);
      var rest :- NonBlank(s, segments[1..], x);
      Ok(if trivia < end - start then [segments[0]] + rest else rest)
  }

  function CheckSegments(s: string, segments: seq<(nat, nat)>, x: Lexer): Result<(), Refusal>
    requires x.Sane() && forall k :: 0 <= k < |segments| ==> segments[k].0 <= segments[k].1 <= |s|
  {
    if segments == [] then Ok(())
    else
      var _ :- CheckStatement(s[segments[0].0..segments[0].1], segments[0].0, x);
      CheckSegments(s, segments[1..], x)
  }

  function CheckEveryStatement(s: string, x: Lexer): Result<(), Refusal>
    requires x.Sane()
  {
    var all :- SegmentsFrom(s, 0, 0, x);
    var segments :- NonBlank(s, all, x);
    if segments == [] then Refused(NoStatement(0)) else CheckSegments(s, segments, x)
  }

  function IsRecursiveWith(s: string, x: Lexer): Result<bool, Refusal>
    requires x.Sane()
  {
    var first :- FirstKeyword(s, x);
    if first.0 != Some("WITH") then Ok(false)
    else
      var i :- TriviaEnd(s, first.1 + 4, false, x);
      Ok(WordAt(s, i) == Some("RECURSIVE"))
  }

  /** May the engine enclose the text in its LIMIT wrapper? */
  predicate IsSingleQueryStatement(s: string, d: Dialect)
    requires d.Valid()
  {
    LexerOfIsSane(d);
    var x := LexerOf(d);
    && IsSingleStatement(s, d)
    && IsRecursiveWith(s, x) == Ok(false)
    && Resolve(s, x, 0, 1).Ok?
    && IsQueryKeyword(Resolve(s, x, 0, 1).value.0)
  }
}
