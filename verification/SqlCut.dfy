/**
 The wrap rule walks the whole text, the read gate its one statement. `t` here is `p` followed by
 a `;` and trivia, and every step of the walk gives the same answer on both.
 */
module SqlCut {
  import opened Outcomes
  import opened SqlScope
  import opened SqlSlices
  import opened SqlLexer
  import opened SqlKeywords

  /** `t` continues `p` with a `;` and nothing but white space and comments. */
  ghost predicate Cut(p: string, t: string, x: Lexer)
    requires x.Sane()
  {
    && |p| < |t| && p == t[..|p|] && t[|p|] == ';'
    && TriviaEnd(t, |p| + 1, false, x) == Ok(|t|)
  }

  /** Position `i` is a stop of the full text on the way to the `;`. */
  ghost predicate Stop(p: string, t: string, i: nat, x: Lexer)
    requires x.Sane()
  {
    i <= |p| && x.Reaches(t, i, |p|)
  }

  lemma SameStep(p: string, t: string, i: nat, x: Lexer)
    requires Lawful(x) && Cut(p, t, x) && Stop(p, t, i, x) && i < |p|
    ensures p[i] == t[i] && x.Comment(p, i) == x.Comment(t, i) && x.Lexeme(p, i) == x.Lexeme(t, i)
    ensures x.Step(t, i).Ok? && x.Step(t, i) == x.Step(p, i) && Stop(p, t, x.Step(t, i).value, x)
  {
    assert Embeds(p, t, 0);
    assert LocalAt(x, p, t, 0, i, |p|);
  }

  lemma {:induction false} SameTrivia(p: string, t: string, i: nat, parens: bool, x: Lexer) returns (j: nat)
    requires Lawful(x) && Cut(p, t, x) && Stop(p, t, i, x)
    ensures TriviaEnd(p, i, parens, x) == TriviaEnd(t, i, parens, x) == Ok(j) && i <= j && Stop(p, t, j, x)
    decreases |p| - i
  {
    j := i;
    if i < |p| {
      SameStep(p, t, i, x);
      if x.isSpace(t[i]) || (parens && t[i] == '(') {
        assert x.Step(t, i) == Ok(i + 1);
        j := SameTrivia(p, t, i + 1, parens, x);
      } else if x.Comment(t, i).value.Some? {
        j := SameTrivia(p, t, x.Comment(t, i).value.value, parens, x);
      }
    }
  }

  lemma {:induction false} SameWordEnd(p: string, t: string, i: nat, x: Lexer)
    requires Lawful(x) && Cut(p, t, x) && Stop(p, t, i, x)
    ensures WordEnd(p, i) == WordEnd(t, i) && Stop(p, t, WordEnd(p, i), x)
    decreases |p| - i
  {
    if i < |p| {
      SameStep(p, t, i, x);
      if IsWordChar(t[i]) {
        assert x.Step(t, i) == Ok(i + 1);
        SameWordEnd(p, t, i + 1, x);
      }
    }
  }

  lemma SameWord(p: string, t: string, i: nat, x: Lexer)
    requires Lawful(x) && Cut(p, t, x) && Stop(p, t, i, x)
    ensures WordAt(p, i) == WordAt(t, i)
    ensures WordAt(p, i).Some? ==> Stop(p, t, i + |WordAt(p, i).value|, x)
  {
    SameWordEnd(p, t, i, x);
    if i < |p| {
      assert p[i] == t[i];
      assert p[i..WordEnd(p, i)] == t[i..WordEnd(t, i)];
    }
  }

  lemma {:induction false} SameNameEnd(p: string, t: string, i: nat, x: Lexer)
    requires Lawful(x) && Cut(p, t, x) && Stop(p, t, i, x)
    requires i < |p| ==> p[i] == '$' ==> i > 0 && IsNameChar(p[i - 1])
    ensures NameEnd(p, i) == NameEnd(t, i) && Stop(p, t, NameEnd(p, i), x)
    decreases |p| - i
  {
    if i < |p| {
      SameStep(p, t, i, x);
      if IsNameChar(t[i]) {
        assert NoLiteralInWord(x, p, i);
        assert x.Step(t, i) == Ok(i + 1);
        SameNameEnd(p, t, i + 1, x);
      }
    }
  }

  lemma SameName(p: string, t: string, i: nat, x: Lexer)
    requires Lawful(x) && Cut(p, t, x) && Stop(p, t, i, x)
    ensures CteNameEnd(p, i, x) == CteNameEnd(t, i, x) && CteNameEnd(p, i, x).Ok?
    ensures CteNameEnd(p, i, x).value.Some? ==> Stop(p, t, CteNameEnd(p, i, x).value.value, x)
  {
    assert QuoteOpensName(x, t, i);
    if i < |p| {
      SameStep(p, t, i, x);
      if IsWordStart(p[i]) {
        SameNameEnd(p, t, i, x);
      } else {
        assert QuoteOpensName(x, p, i);
      }
    }
  }

  // ----- groups

  /** Trivia closes no group. */
  lemma {:induction false} TriviaClosesNothing(t: string, i: nat, k: int, open: nat, x: Lexer)
    requires x.Sane() && i <= |t| && TriviaEnd(t, i, false, x) == Ok(|t|)
    ensures GroupFrom(t, i, k, open, x) == Refused(GroupNotClosed(open))
    decreases |t| - i
  {
    if i < |t| {
      if x.isSpace(t[i]) {
        TriviaClosesNothing(t, i + 1, k, open, x);
      } else {
        TriviaClosesNothing(t, x.Comment(t, i).value.value, k, open, x);
      }
    }
  }

  lemma {:induction false} SameGroup(p: string, t: string, i: nat, k: int, open: nat, x: Lexer)
    requires Lawful(x) && Cut(p, t, x) && Stop(p, t, i, x)
    ensures GroupFrom(p, i, k, open, x) == GroupFrom(t, i, k, open, x)
    ensures GroupFrom(p, i, k, open, x).Ok? ==> Stop(p, t, GroupFrom(p, i, k, open, x).value, x)
    decreases |p| - i
  {
    if i == |p| {
      TriviaClosesNothing(t, i + 1, k, open, x);
    } else {
      SameStep(p, t, i, x);
      var lexeme := x.Lexeme(t, i).value;
      if lexeme.Some? {
        SameGroup(p, t, lexeme.value, k, open, x);
      } else {
        SameGroup(p, t, i + 1, if t[i] == '(' then k + 1 else if t[i] == ')' then k - 1 else k, open, x);
      }
    }
  }

  lemma SameCteBody(p: string, t: string, i: nat, x: Lexer)
    requires Lawful(x) && Cut(p, t, x) && Stop(p, t, i, x)
    ensures CteBody(p, i, x) == CteBody(t, i, x)
    ensures var r := CteBody(p, i, x); r.Ok? && r.value.BodyGroup? ==> Stop(p, t, r.value.close, x)
  {
    SameWord(p, t, i, x);
    if WordAt(p, i) == Some("AS") {
      var open := SameTrivia(p, t, i + 2, false, x);
      if open < |p| {
        assert p[open] == t[open];
        SameGroup(p, t, open, 0, open, x);
      }
    }
  }

  lemma SameCte(p: string, t: string, i: nat, x: Lexer)
    requires Lawful(x) && Cut(p, t, x) && Stop(p, t, i, x)
    ensures CteAt(p, i, x) == CteAt(t, i, x)
    ensures var r := CteAt(p, i, x); r.Ok? && r.value.BodyGroup? ==> Stop(p, t, r.value.close, x)
  {
    SameName(p, t, i, x);
    var name := CteNameEnd(p, i, x).value;
    if name.Some? {
      var j := SameTrivia(p, t, name.value, false, x);
      if CharAt(t, j, '(') {
        SameGroup(p, t, j, 0, j, x);
        if GroupEnd(t, j, x).Ok? {
          var k := SameTrivia(p, t, GroupEnd(t, j, x).value, false, x);
          SameCteBody(p, t, k, x);
        }
      } else {
        SameCteBody(p, t, j, x);
      }
    }
  }

  // ----- tails

  lemma {:induction false} TriviaIsPath(t: string, i: nat, x: Lexer)
    requires x.Sane() && i <= |t| && TriviaEnd(t, i, false, x) == Ok(|t|)
    ensures x.Reaches(t, i, |t|)
    decreases |t| - i
  {
    if i < |t| {
      if x.isSpace(t[i]) {
        assert x.Step(t, i) == Ok(i + 1);
        TriviaIsPath(t, i + 1, x);
      } else {
        TriviaIsPath(t, x.Comment(t, i).value.value, x);
      }
    }
  }

  /** Trivia to the end of the text is trivia to the end of a tail of it. */
  lemma {:induction false} TriviaOfTail(u: string, t: string, a: nat, i: nat, p: nat, x: Lexer)
    requires Lawful(x) && Embeds(u, t, a) && a + |u| == |t| && SliceStart(t, a) && i <= |u| && p == a + i
    requires TriviaEnd(t, p, false, x) == Ok(|t|)
    ensures TriviaEnd(u, i, false, x) == Ok(|u|)
    decreases |u| - i
  {
    if i < |u| {
      TriviaIsPath(t, p, x);
      assert LocalAt(x, u, t, a, i, |u|);
      assert u[i] == t[a + i];
      if x.isSpace(t[p]) {
        TriviaOfTail(u, t, a, i + 1, p + 1, x);
      } else {
        TriviaOfTail(u, t, a, x.Comment(u, i).value.value, x.Comment(t, p).value.value, x);
      }
    }
  }

  lemma {:induction false} PathOfTail(u: string, t: string, a: nat, i: nat, p: nat, j: nat, q: nat, x: Lexer)
    requires Lawful(x) && Embeds(u, t, a) && SliceStart(t, a) && i <= j <= |u| && p == a + i && q == a + j
    requires x.Reaches(t, p, q)
    ensures x.Reaches(u, i, j)
    decreases |u| - i
  {
    if i < j {
      assert LocalAt(x, u, t, a, i, j);
      PathOfTail(u, t, a, x.Step(u, i).value, x.Step(t, p).value, j, q, x);
    }
  }

  lemma TailIsCut(p: string, t: string, n: nat, x: Lexer)
    requires Lawful(x) && Cut(p, t, x) && Stop(p, t, n, x) && CharAt(t, n, '(')
    ensures Cut(p[n..], t[n..], x) && Stop(p[n..], t[n..], 0, x)
  {
    var u, v := t[n..], p[n..];
    SliceEmbeds(t, n, |t|);
    TriviaOfTail(u, t, n, |v| + 1, |p| + 1, x);
    PathOfTail(u, t, n, 0, n, |v|, |p|, x);
    assert v == u[..|v|];
  }

  // ----- the walk

  /** A slice of the statement is the same slice of the full text. */
  lemma SameSlice(p: string, t: string, lo: nat, hi: nat, x: Lexer)
    requires x.Sane() && Cut(p, t, x) && lo <= hi <= |p|
    ensures p[lo..hi] == t[lo..hi]
  {
  }

  lemma {:induction false} SameThroughBody(
    p: string, t: string, cte: Result<CteShape, Refusal>, x: Lexer, base: nat, depth: nat)
    requires x.Sane() && Cut(p, t, x) && IsShapeOf(cte, p)
    ensures IsShapeOf(cte, t) && ThroughBody(p, cte, x, base, depth) == ThroughBody(t, cte, x, base, depth)
  {
    if cte.Ok? && cte.value.BodyGroup? {
      SameSlice(p, t, cte.value.open + 1, cte.value.close - 1, x);
    }
  }

  /** What follows a body, as far as it can be read without walking on. */
  lemma SameAfterComma(p: string, t: string, n: nat, x: Lexer) returns (next: nat)
    requires Lawful(x) && Cut(p, t, x) && Stop(p, t, n, x) && CharAt(t, n, ',')
    ensures TriviaEnd(p, n + 1, false, x) == TriviaEnd(t, n + 1, false, x) == Ok(next) && Stop(p, t, next, x)
  {
    SameStep(p, t, n, x);
    assert x.Step(t, n) == Ok(n + 1);
    next := SameTrivia(p, t, n + 1, false, x);
  }

  /** After a body and its white space comes a comma, and with it the next CTE. */
  lemma SameCommaAfterBody(p: string, t: string, close: nat, n: nat, x: Lexer, base: nat, depth: nat)
    requires Lawful(x) && Cut(p, t, x) && 0 < close && Stop(p, t, close, x) && Stop(p, t, n, x)
    requires TriviaEnd(p, close, false, x) == TriviaEnd(t, close, false, x) == Ok(n) && CharAt(t, n, ',')
    ensures AfterBody(p, close, x, base, depth) == AfterBody(t, close, x, base, depth)
    ensures var r := AfterBody(p, close, x, base, depth); r.Ok? && r.value.Next? && Stop(p, t, r.value.index, x)
  {
    var next := SameAfterComma(p, t, n, x);
    assert p[n] == t[n];
  }

  /** Or the word that is the answer. */
  lemma SameWordAfterBody(p: string, t: string, close: nat, n: nat, x: Lexer, base: nat, depth: nat)
    requires Lawful(x) && Cut(p, t, x) && 0 < close && Stop(p, t, close, x) && Stop(p, t, n, x)
    requires TriviaEnd(p, close, false, x) == TriviaEnd(t, close, false, x) == Ok(n)
    requires !CharAt(t, n, ',') && !CharAt(t, n, '(')
    ensures AfterBody(p, close, x, base, depth) == AfterBody(t, close, x, base, depth) == Ok(Answer(WordAt(t, n), n))
  {
    SameWord(p, t, n, x);
    assert n < |p| ==> p[n] == t[n];
  }

  /** Or a parenthesised main statement, walked on its own. */
  lemma ParenAfterBody(s: string, close: nat, n: nat, main: Walk, x: Lexer, base: nat, next: nat, depth: nat)
    requires x.Sane() && 0 < close <= |s| && TriviaEnd(s, close, false, x) == Ok(n)
    requires CharAt(s, n, '(') && next == base + n
    requires Resolve(s[n..], x, next, depth + 1) == main
    ensures AfterBody(s, close, x, base, depth) ==
            match main
            case Ok(found) => Ok(Answer(found.0, n + found.1))
            case Refused(e) => Refused(e)
  {
  }

  /** The keyword it resolves to is the answer. */
  lemma ParenAnswer(
    s: string, close: nat, n: nat, w: string, inner: nat, off: nat, x: Lexer, base: nat, next: nat, depth: nat)
    requires x.Sane() && 0 < close <= |s| && TriviaEnd(s, close, false, x) == Ok(n)
    requires CharAt(s, n, '(') && next == base + n
    requires Resolve(s[n..], x, next, depth + 1) == Ok((Some(w), inner)) && off == n + inner
    ensures AfterBody(s, close, x, base, depth) == Ok(Answer(Some(w), off))
  {
    ParenAfterBody(s, close, n, Ok((Some(w), inner)), x, base, next, depth);
  }

  lemma SameParenAfterBody(
    p: string, t: string, close: nat, n: nat, main: Walk, x: Lexer, base: nat, next: nat, depth: nat)
    requires Lawful(x) && Cut(p, t, x) && 0 < close && Stop(p, t, close, x) && Stop(p, t, n, x)
    requires TriviaEnd(p, close, false, x) == TriviaEnd(t, close, false, x) == Ok(n) && next == base + n
    requires n < |p| && CharAt(t, n, '(')
    requires Resolve(p[n..], x, next, depth + 1) == Resolve(t[n..], x, next, depth + 1) == main
    ensures AfterBody(p, close, x, base, depth) == AfterBody(t, close, x, base, depth)
    ensures var r := AfterBody(p, close, x, base, depth); !(r.Ok? && r.value.Next?)
  {
    assert p[n] == t[n];
    ParenAfterBody(p, close, n, main, x, base, next, depth);
    ParenAfterBody(t, close, n, main, x, base, next, depth);
  }

  lemma {:induction false} SameAfterBody(p: string, t: string, close: nat, x: Lexer, base: nat, depth: nat)
    requires Lawful(x) && Cut(p, t, x) && 0 < close && Stop(p, t, close, x)
    ensures AfterBody(p, close, x, base, depth) == AfterBody(t, close, x, base, depth)
    ensures var r := AfterBody(p, close, x, base, depth); r.Ok? && r.value.Next? ==> Stop(p, t, r.value.index, x)
    decreases |p|, 0
  {
    var n := SameTrivia(p, t, close, false, x);
    if CharAt(t, n, ',') {
      SameCommaAfterBody(p, t, close, n, x, base, depth);
    } else if CharAt(t, n, '(') {
      TailIsCut(p, t, n, x);
      var next := base + n;
      SameResolve(p[n..], t[n..], x, next, depth + 1);
      SameParenAfterBody(p, t, close, n, Resolve(t[n..], x, next, depth + 1), x, base, next, depth);
    } else {
      SameWordAfterBody(p, t, close, n, x, base, depth);
    }
  }

  lemma {:induction false} SameTurn(
    p: string, t: string, cte: Result<CteShape, Refusal>, x: Lexer, base: nat, depth: nat)
    requires Lawful(x) && Cut(p, t, x) && IsShapeOf(cte, p) && IsShapeOf(cte, t)
    requires cte.Ok? && cte.value.BodyGroup? ==> Stop(p, t, cte.value.close, x)
    ensures TurnAfter(p, cte, x, base, depth) == TurnAfter(t, cte, x, base, depth)
    ensures var r := TurnAfter(p, cte, x, base, depth); r.Ok? && r.value.Next? ==> Stop(p, t, r.value.index, x)
    decreases |p|, 1
  {
    SameThroughBody(p, t, cte, x, base, depth);
    var through := ThroughBody(p, cte, x, base, depth);
    if through.Ok? && through.value.Through? {
      SameAfterBody(p, t, through.value.close, x, base, depth);
    }
  }

  lemma {:induction false} SameCteList(p: string, t: string, i: nat, x: Lexer, base: nat, depth: nat)
    requires Lawful(x) && Cut(p, t, x) && Stop(p, t, i, x)
    ensures CteList(p, i, x, base, depth) == CteList(t, i, x, base, depth)
    decreases |p|, 2 + |p| - i
  {
    SameCte(p, t, i, x);
    SameTurn(p, t, CteAt(p, i, x), x, base, depth);
    var turn := CteTurn(p, i, x, base, depth);
    assert turn == CteTurn(t, i, x, base, depth);
    if turn.Ok? && turn.value.Next? {
      SameCteList(p, t, turn.value.index, x, base, depth);
    }
  }

  lemma SameFirstKeyword(p: string, t: string, x: Lexer) returns (i: nat)
    requires Lawful(x) && Cut(p, t, x) && Stop(p, t, 0, x)
    ensures Stop(p, t, i, x) && FirstKeyword(p, x) == FirstKeyword(t, x) == Ok((WordAt(p, i), i))
    ensures WordAt(p, i).Some? ==> Stop(p, t, i + |WordAt(p, i).value|, x)
  {
    i := SameTrivia(p, t, 0, true, x);
    SameWord(p, t, i, x);
  }

  lemma SameListStart(p: string, t: string, i: nat, x: Lexer) returns (start: nat)
    requires Lawful(x) && Cut(p, t, x) && Stop(p, t, i, x)
    ensures ListStart(p, i, x) == ListStart(t, i, x) == Ok(start) && Stop(p, t, start, x)
  {
    start := SameTrivia(p, t, i, false, x);
    SameWord(p, t, start, x);
    if WordAt(p, start) == Some("RECURSIVE") {
      start := SameTrivia(p, t, start + 9, false, x);
    }
  }

  lemma {:induction false} SameMainKeyword(p: string, t: string, i: nat, x: Lexer, base: nat, depth: nat)
    requires Lawful(x) && Cut(p, t, x) && Stop(p, t, i, x)
    ensures MainKeyword(p, i, x, base, depth) == MainKeyword(t, i, x, base, depth)
    decreases |p|, |p| + 3
  {
    var start := SameListStart(p, t, i, x);
    SameCteList(p, t, start, x, base, depth);
  }

  /** The walk on the full text is the walk on its statement: keyword, offset and refusal alike. */
  lemma {:induction false} SameResolve(p: string, t: string, x: Lexer, base: nat, depth: nat)
    requires Lawful(x) && Cut(p, t, x) && Stop(p, t, 0, x)
    ensures Resolve(p, x, base, depth) == Resolve(t, x, base, depth)
    decreases |p|, |p| + 4
  {
    var i := SameFirstKeyword(p, t, x);
    if WordAt(p, i) == Some("WITH") {
      SameMainKeyword(p, t, i + 4, x, base, depth);
    }
  }
}
