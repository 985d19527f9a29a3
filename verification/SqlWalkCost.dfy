/**
 What the walk costs: the characters the parenthesis matcher passes, level by level. Each function
 follows the function of the walk it is named after.
 */
module SqlWalkCost {
  import opened Outcomes
  import opened SqlScope
  import opened SqlLexer
  import opened SqlKeywords

  // ----- the reading of one CTE

  function CteBodyCost(s: string, i: nat, x: Lexer): nat
    requires x.Sane() && i <= |s|
  {
    if WordAt(s, i) != Some("AS") then 0
    else
      var open := TriviaEnd(s, i + 2, false, x);
      if open.Refused? || !CharAt(s, open.value, '(') then 0 else GroupCost(s, open.value, x)
  }

  function CteCost(s: string, i: nat, x: Lexer): nat
    requires x.Sane() && i <= |s|
  {
    var name := CteNameEnd(s, i, x);
    if name.Refused? || name.value == None then 0 else ColumnsCost(s, name.value.value, x)
  }

  /** From the end of the CTE's name. */
  function ColumnsCost(s: string, e: nat, x: Lexer): nat
    requires x.Sane() && e <= |s|
  {
    var j := TriviaEnd(s, e, false, x);
    if j.Refused? then 0
    else if !CharAt(s, j.value, '(') then CteBodyCost(s, j.value, x)
    else GroupCost(s, j.value, x) + AfterColumnsCost(s, GroupEnd(s, j.value, x), x)
  }

  function AfterColumnsCost(s: string, columns: Result<nat, Refusal>, x: Lexer): nat
    requires x.Sane() && (columns.Ok? ==> columns.value <= |s|)
  {
    if columns.Refused? then 0
    else
      var k := TriviaEnd(s, columns.value, false, x);
      if k.Refused? then 0 else CteBodyCost(s, k.value, x)
  }

  // ----- the walk

  function ResolveCost(s: string, x: Lexer, base: nat, depth: nat): nat
    requires x.Sane()
    decreases |s|, 2 * |s| + 5
  {
    var first := FirstKeyword(s, x);
    if first.Refused? || first.value.0 != Some("WITH") || depth > MAX_CTE_NESTING then 0
    else MainKeywordCost(s, first.value.1 + 4, x, base, depth)
  }

  function MainKeywordCost(s: string, index: nat, x: Lexer, base: nat, depth: nat): nat
    requires x.Sane() && index <= |s|
    decreases |s|, 2 * |s| + 4
  {
    var i := ListStart(s, index, x);
    if i.Refused? then 0 else CteListCost(s, i.value, x, base, depth)
  }

  function CteListCost(s: string, i: nat, x: Lexer, base: nat, depth: nat): nat
    requires x.Sane() && i <= |s|
    decreases |s|, 2 * (|s| - i) + 3
  {
    var turn := CteTurn(s, i, x, base, depth);
    CteTurnCost(s, i, x, base, depth) +
    if turn.Ok? && turn.value.Next? then CteListCost(s, turn.value.index, x, base, depth) else 0
  }

  function CteTurnCost(s: string, i: nat, x: Lexer, base: nat, depth: nat): nat
    requires x.Sane() && i <= |s|
    decreases |s|, 2 * (|s| - i) + 2
  {
    CteCost(s, i, x) + TurnAfterCost(s, CteAt(s, i, x), x, base, depth)
  }

  function TurnAfterCost(s: string, cte: Result<CteShape, Refusal>, x: Lexer, base: nat, depth: nat): nat
    requires x.Sane() && IsShapeOf(cte, s)
    decreases |s|, 1
  {
    var through := ThroughBody(s, cte, x, base, depth);
    BodyCost(s, cte, x, base, depth) +
    if through.Ok? && through.value.Through? then AfterBodyCost(s, through.value.close, x, base, depth) else 0
  }

  /** The body is walked a level deeper. */
  function BodyCost(s: string, cte: Result<CteShape, Refusal>, x: Lexer, base: nat, depth: nat): nat
    requires x.Sane() && IsShapeOf(cte, s)
    decreases |s|, 0
  {
    if cte.Refused? || cte.value.Broken? then 0
    else ResolveCost(s[cte.value.open + 1..cte.value.close - 1], x, base + cte.value.open + 1, depth + 1)
  }

  /** So is a parenthesised main statement. */
  function AfterBodyCost(s: string, close: nat, x: Lexer, base: nat, depth: nat): nat
    requires x.Sane() && 0 < close <= |s|
    decreases |s|, 0
  {
    var n := TriviaEnd(s, close, false, x);
    if n.Refused? || CharAt(s, n.value, ',') || !CharAt(s, n.value, '(') then 0
    else ResolveCost(s[n.value..], x, base + n.value, depth + 1)
  }

  // ----- the bound

  /** Levels of WITH a walk at this depth may still enter. */
  function LevelsLeft(depth: nat): nat
    requires depth <= MAX_CTE_NESTING + 1
  {
    MAX_CTE_NESTING + 1 - depth
  }

  /** What a text of `n` characters may cost on this many levels: its length for each. */
  function Budget(levels: nat, n: nat): nat {
    if levels == 0 then 0 else n + Budget(levels - 1, n)
  }

  lemma {:induction false} BudgetIsProduct(levels: nat, n: nat)
    ensures Budget(levels, n) == levels * n
  {
    if levels > 0 {
      BudgetIsProduct(levels - 1, n);
      assert levels * n == (levels - 1) * n + n;
    }
  }

  lemma {:induction false} BudgetSplits(levels: nat, x: nat, y: nat, n: nat)
    requires x + y == n
    ensures Budget(levels, n) == Budget(levels, x) + Budget(levels, y)
  {
    if levels > 0 {
      BudgetSplits(levels - 1, x, y, n);
    }
  }

  lemma {:induction false} BudgetGrows(levels: nat, x: nat, y: nat)
    requires x <= y
    ensures Budget(levels, x) <= Budget(levels, y)
  {
    BudgetSplits(levels, x, y - x, y);
  }

  lemma AddParts(levels: nat, first: nat, last: nat, whole: nat, visited: nat, cost: nat)
    requires first + last == whole && visited <= Budget(levels, first) && cost <= Budget(levels, last)
    ensures visited + cost <= Budget(levels, whole)
  {
    BudgetSplits(levels, first, last, whole);
  }

  /** The part from `index` to `end` pays for its own matching and for one level less below it. */
  lemma {:induction false} CostOfCte(levels: nat, part: nat, whole: nat, passed: nat, inner: nat, slice: nat)
    requires levels > 0 && part <= whole && passed <= part && slice <= part
    requires inner <= Budget(levels - 1, slice)
    ensures passed + inner <= Budget(levels, part) <= Budget(levels, whole)
  {
    BudgetGrows(levels - 1, slice, part);
    BudgetGrows(levels, part, whole);
  }

  /** The groups of one CTE are passed once: no more than the stretch they lie in. */
  lemma CteBodyCostBound(s: string, i: nat, x: Lexer)
    requires x.Sane() && i <= |s|
    ensures i + CteBodyCost(s, i, x) <= |s|
    ensures var r := CteBody(s, i, x); r.Ok? && r.value.BodyGroup? ==> i + CteBodyCost(s, i, x) <= r.value.close
  {
    if WordAt(s, i) == Some("AS") {
      var open := TriviaEnd(s, i + 2, false, x);
      if open.Ok? && CharAt(s, open.value, '(') && GroupEnd(s, open.value, x).Ok? {
        ClosedGroupCost(s, open.value, 0, open.value, x);
      }
    }
  }

  lemma CteCostBound(s: string, i: nat, x: Lexer)
    requires x.Sane() && i <= |s|
    ensures i + CteCost(s, i, x) <= |s|
    ensures var r := CteAt(s, i, x); r.Ok? && r.value.BodyGroup? ==> i + CteCost(s, i, x) <= r.value.close
  {
    var name := CteNameEnd(s, i, x);
    if name.Ok? && name.value.Some? {
      var j := TriviaEnd(s, name.value.value, false, x);
      if j.Ok? && CharAt(s, j.value, '(') {
        ColumnsCostBound(s, j.value, x);
      } else if j.Ok? {
        CteBodyCostBound(s, j.value, x);
      }
    }
  }

  lemma ColumnsCostBound(s: string, j: nat, x: Lexer)
    requires x.Sane() && CharAt(s, j, '(')
    ensures var columns := GroupEnd(s, j, x);
            var cost := GroupCost(s, j, x) + AfterColumnsCost(s, columns, x);
            && j + cost <= |s|
            && (columns.Ok? && TriviaEnd(s, columns.value, false, x).Ok? ==>
                  var r := CteBody(s, TriviaEnd(s, columns.value, false, x).value, x);
                  r.Ok? && r.value.BodyGroup? ==> j + cost <= r.value.close)
  {
    var columns := GroupEnd(s, j, x);
    if columns.Ok? {
      ClosedGroupCost(s, j, 0, j, x);
      var k := TriviaEnd(s, columns.value, false, x);
      if k.Ok? {
        CteBodyCostBound(s, k.value, x);
      }
    }
  }

  /** How far a turn's cost is paid for: to the next CTE, or to the end of the text. */
  function TurnEnd(r: Result<Turn, Refusal>, s: string): nat {
    if r.Ok? && r.value.Next? then r.value.index else |s|
  }

  /**
   The whole walk of a text costs at most the text for each level of WITH that is left: the slices of
   one level are disjoint.
   */
  lemma {:induction false} ResolveCostBound(s: string, x: Lexer, base: nat, depth: nat)
    requires x.Sane() && 1 <= depth <= MAX_CTE_NESTING + 1
    ensures ResolveCost(s, x, base, depth) <= Budget(LevelsLeft(depth), |s|)
    decreases |s|, 2 * |s| + 5
  {
    var first := FirstKeyword(s, x);
    if first.Ok? && first.value.0 == Some("WITH") && depth <= MAX_CTE_NESTING {
      MainKeywordCostBound(s, first.value.1 + 4, x, base, depth);
    }
  }

  lemma {:induction false} MainKeywordCostBound(s: string, index: nat, x: Lexer, base: nat, depth: nat)
    requires x.Sane() && index <= |s| && 1 <= depth <= MAX_CTE_NESTING
    ensures MainKeywordCost(s, index, x, base, depth) <= Budget(LevelsLeft(depth), |s|)
    decreases |s|, 2 * |s| + 4
  {
    var i := ListStart(s, index, x);
    if i.Ok? {
      ListInText(s, i.value, x, base, depth, CteListCost(s, i.value, x, base, depth));
    }
  }

  lemma {:induction false} ListInText(s: string, i: nat, x: Lexer, base: nat, depth: nat, cost: nat)
    requires x.Sane() && i <= |s| && 1 <= depth <= MAX_CTE_NESTING && cost == CteListCost(s, i, x, base, depth)
    ensures cost <= Budget(LevelsLeft(depth), |s|)
    decreases |s|, 2 * |s| + 3, 2
  {
    var part := |s| - i;
    CteListCostBound(s, i, x, base, depth, cost, part);
    BudgetGrows(LevelsLeft(depth), part, |s|);
  }

  lemma {:induction false} CteListCostBound(
    s: string, i: nat, x: Lexer, base: nat, depth: nat, cost: nat, part: nat)
    requires x.Sane() && i <= |s| && 1 <= depth <= MAX_CTE_NESTING && cost == CteListCost(s, i, x, base, depth)
    requires part == |s| - i
    ensures cost <= Budget(LevelsLeft(depth), part)
    decreases |s|, 2 * (|s| - i) + 3, 1
  {
    var own, rest, end, first, onward := ListCostParts(s, i, x, base, depth, cost, part);
    if onward {
      var last := |s| - end;
      CteListCostBound(s, end, x, base, depth, rest, last);
      AddParts(LevelsLeft(depth), first, last, part, own, rest);
    }
  }

  /** The cost of the first turn, within its own stretch, and of the rest of the list if it goes on. */
  lemma {:induction false} ListCostParts(
    s: string, i: nat, x: Lexer, base: nat, depth: nat, cost: nat, part: nat)
    returns (own: nat, rest: nat, end: nat, first: nat, onward: bool)
    requires x.Sane() && i <= |s| && 1 <= depth <= MAX_CTE_NESTING && cost == CteListCost(s, i, x, base, depth)
    requires part == |s| - i
    ensures cost == own + rest && i <= end <= |s| && first == end - i
    ensures onward ==>
              i < end && own <= Budget(LevelsLeft(depth), first) && rest == CteListCost(s, end, x, base, depth)
    ensures !onward ==> rest == 0 && own <= Budget(LevelsLeft(depth), part)
    decreases |s|, 2 * (|s| - i) + 3, 0
  {
    var turn := CteTurn(s, i, x, base, depth);
    own, end := CteTurnCost(s, i, x, base, depth), TurnEnd(turn, s);
    first := end - i;
    CteTurnCostBound(s, i, turn, end, first, x, base, depth);
    onward := turn.Ok? && turn.value.Next?;
    if onward {
      rest := CteListCost(s, end, x, base, depth);
      ListCostOnward(s, i, turn, own, rest, x, base, depth);
    } else {
      rest := 0;
      ListCostAtEnd(s, i, turn, own, x, base, depth);
      BudgetGrows(LevelsLeft(depth), first, part);
    }
  }

  /** A turn that goes on costs its own and the rest of the list. */
  lemma ListCostOnward(
    s: string, i: nat, turn: Result<Turn, Refusal>, own: nat, rest: nat, x: Lexer, base: nat, depth: nat)
    requires x.Sane() && i <= |s| && turn == CteTurn(s, i, x, base, depth) && turn.Ok? && turn.value.Next?
    requires own == CteTurnCost(s, i, x, base, depth) && rest == CteListCost(s, turn.value.index, x, base, depth)
    ensures CteListCost(s, i, x, base, depth) == own + rest
  {
  }

  lemma ListCostAtEnd(s: string, i: nat, turn: Result<Turn, Refusal>, own: nat, x: Lexer, base: nat, depth: nat)
    requires x.Sane() && i <= |s| && turn == CteTurn(s, i, x, base, depth) && !(turn.Ok? && turn.value.Next?)
    requires own == CteTurnCost(s, i, x, base, depth)
    ensures CteListCost(s, i, x, base, depth) == own
  {
  }

  lemma {:induction false} CteTurnCostBound(
    s: string, i: nat, turn: Result<Turn, Refusal>, end: nat, size: nat, x: Lexer, base: nat, depth: nat)
    requires x.Sane() && i <= |s| && 1 <= depth <= MAX_CTE_NESTING
    requires turn == CteTurn(s, i, x, base, depth) && end == TurnEnd(turn, s) && size == end - i
    ensures CteTurnCost(s, i, x, base, depth) <= Budget(LevelsLeft(depth), size)
    decreases |s|, 2 * (|s| - i) + 2
  {
    var cte, own := CteAt(s, i, x), CteCost(s, i, x);
    CteCostBound(s, i, x);
    TurnAfterCostBound(s, i, cte, own, turn, end, size, x, base, depth);
  }

  /** A CTE at `i` whose own groups cost `own`, its body a level deeper, and what follows. */
  lemma {:induction false} TurnAfterCostBound(
    s: string, i: nat, cte: Result<CteShape, Refusal>, own: nat, turn: Result<Turn, Refusal>, end: nat, size: nat,
    x: Lexer, base: nat, depth: nat)
    requires x.Sane() && 1 <= depth <= MAX_CTE_NESTING && IsShapeOf(cte, s) && i + own <= |s|
    requires cte.Ok? && cte.value.BodyGroup? ==> i < cte.value.open && i + own <= cte.value.close
    requires turn == TurnAfter(s, cte, x, base, depth) && end == TurnEnd(turn, s) && size == end - i
    ensures own + TurnAfterCost(s, cte, x, base, depth) <= Budget(LevelsLeft(depth), size)
    decreases |s|, 1
  {
    var through, body := ThroughBody(s, cte, x, base, depth), BodyCost(s, cte, x, base, depth);
    if through.Ok? && through.value.Through? {
      var close := through.value.close;
      var part, rest := close - i, end - close;
      PassageCostBound(s, i, cte, own, part, |s| - i, x, base, depth);
      AfterBodyCostBound(s, close, turn, end, rest, x, base, depth);
      AddParts(LevelsLeft(depth), part, rest, size, own + body, AfterBodyCost(s, close, x, base, depth));
    } else if cte.Ok? && cte.value.BodyGroup? {
      PassageCostBound(s, i, cte, own, cte.value.close - i, size, x, base, depth);
    } else {
      PassageCostBound(s, i, cte, own, 0, size, x, base, depth);
    }
  }

  lemma {:induction false} PassageCostBound(
    s: string, i: nat, cte: Result<CteShape, Refusal>, own: nat, part: nat, whole: nat, x: Lexer, base: nat,
    depth: nat)
    requires x.Sane() && 1 <= depth <= MAX_CTE_NESTING && IsShapeOf(cte, s) && i + own <= |s| && whole == |s| - i
    requires cte.Ok? && cte.value.BodyGroup? ==>
               i < cte.value.open && i + own <= cte.value.close && part == cte.value.close - i
    ensures own + BodyCost(s, cte, x, base, depth) <= Budget(LevelsLeft(depth), whole)
    ensures cte.Ok? && cte.value.BodyGroup? ==>
              own + BodyCost(s, cte, x, base, depth) <= Budget(LevelsLeft(depth), part)
    decreases |s|, 0, 1
  {
    if cte.Ok? && cte.value.BodyGroup? {
      var open, close := cte.value.open, cte.value.close;
      assert cte == Ok(BodyGroup(open, close));
      BodyCostBound(s, i, open, close, own, part, whole, x, base, depth);
    } else {
      CostOfCte(LevelsLeft(depth), whole, whole, own, 0, 0);
    }
  }

  lemma {:induction false} BodyCostBound(
    s: string, i: nat, open: nat, close: nat, own: nat, part: nat, whole: nat, x: Lexer, base: nat, depth: nat)
    requires x.Sane() && 1 <= depth <= MAX_CTE_NESTING && i < open && open + 2 <= close <= |s| && i + own <= close
    requires part == close - i && whole == |s| - i
    ensures own + BodyCost(s, Ok(BodyGroup(open, close)), x, base, depth) <=
            Budget(LevelsLeft(depth), part) <= Budget(LevelsLeft(depth), whole)
    decreases |s|, 0, 0
  {
    var b, lo := s[open + 1..close - 1], base + open + 1;
    var inner := ResolveCost(b, x, lo, depth + 1);
    ResolveCostBound(b, x, lo, depth + 1);
    CostOfCte(LevelsLeft(depth), part, whole, own, inner, |b|);
    assert BodyCost(s, Ok(BodyGroup(open, close)), x, base, depth) == inner;
  }

  lemma {:induction false} AfterBodyCostBound(
    s: string, close: nat, turn: Result<Turn, Refusal>, end: nat, size: nat, x: Lexer, base: nat, depth: nat)
    requires x.Sane() && 0 < close <= |s| && 1 <= depth <= MAX_CTE_NESTING
    requires turn == AfterBody(s, close, x, base, depth) && end == TurnEnd(turn, s) && size == end - close
    ensures AfterBodyCost(s, close, x, base, depth) <= Budget(LevelsLeft(depth), size)
    decreases |s|, 0
  {
    var n := TriviaEnd(s, close, false, x);
    if n.Ok? && CharAt(s, n.value, '(') {
      TailCostBound(s, n.value, size, x, base, depth);
    }
  }

  /** A parenthesised main statement, walked a level deeper. */
  lemma {:induction false} TailCostBound(s: string, n: nat, size: nat, x: Lexer, base: nat, depth: nat)
    requires x.Sane() && 0 < n <= |s| && |s| - n <= size && 1 <= depth <= MAX_CTE_NESTING
    ensures ResolveCost(s[n..], x, base + n, depth + 1) <= Budget(LevelsLeft(depth), size)
    decreases |s|, 0, 0
  {
    var t, cost := s[n..], ResolveCost(s[n..], x, base + n, depth + 1);
    ResolveCostBound(t, x, base + n, depth + 1);
    CostOfCte(LevelsLeft(depth), |t|, size, 0, cost, |t|);
  }
}
