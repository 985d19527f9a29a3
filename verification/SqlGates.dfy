/**
 The two gates and the wrap rule on the same text: a group's body can be lexed again without a new
 refusal, segments give the text back, and the walk on the full text is the walk on its one
 statement.
 */
module SqlGates {
  import opened Outcomes
  import opened SqlScope
  import opened SqlPaths
  import opened SqlSlices
  import opened SqlWrap
  import opened SqlLexer
  import opened SqlKeywords
  import opened SqlGrammar
  import SqlCut

  // ----- a closed group holds nothing unclosed

  /** Balance reaches into the slice. */
  lemma {:induction false} BalanceRestrict(t: string, s: string, a: nat, i: nat, p: nat, hi: nat, k: nat, x: Lexer)
    requires Lawful(x) && Embeds(t, s, a) && SliceStart(s, a) && i <= |t| && p == a + i && hi == a + |t|
    requires x.Reaches(s, p, hi) && Balanced(s, x, p, hi, k)
    ensures Balanced(t, x, i, |t|, k) && x.Reaches(t, i, |t|)
    decreases |t| - i
  {
    if i < |t| {
      assert LocalAt(x, t, s, a, i, |t|);
      assert t[i] == s[a + i];
      var k' :=
        if x.Lexeme(t, i).value.Some? then k else if t[i] == '(' then k + 1 else if t[i] == ')' then k - 1 else k;
      BalanceRestrict(t, s, a, x.Step(t, i).value, x.Step(s, p).value, hi, k', x);
    }
  }

  /** At every stop of a balanced stretch some nesting is open, and it balances out by the end. */
  lemma {:induction false} BalanceAtStop(t: string, i: nat, m: nat, k: nat, x: Lexer) returns (k': nat)
    requires x.Sane() && Balanced(t, x, i, |t|, k) && x.Reaches(t, i, m) && m <= |t|
    ensures Balanced(t, x, m, |t|, k')
    decreases |t| - i
  {
    if i == m {
      k' := k;
    } else {
      var next :=
        if x.Lexeme(t, i).value.Some? then k else if t[i] == '(' then k + 1 else if t[i] == ')' then k - 1 else k;
      k' := BalanceAtStop(t, x.Step(t, i).value, m, next, x);
    }
  }

  /** Where `k` levels are open and balance out, a matcher that opened `n` of them closes. */
  lemma {:induction false} BalanceCloses(t: string, i: nat, k: nat, n: nat, open: nat, x: Lexer)
    requires x.Sane() && i <= |t| && 0 < n <= k && Balanced(t, x, i, |t|, k)
    ensures GroupFrom(t, i, n, open, x).Ok?
    decreases |t| - i
  {
    var lexeme := x.Lexeme(t, i).value;
    if lexeme.Some? {
      BalanceCloses(t, lexeme.value, k, n, open, x);
    } else if t[i] == '(' {
      BalanceCloses(t, i + 1, k + 1, n + 1, open, x);
    } else if t[i] == ')' {
      if n > 1 {
        BalanceCloses(t, i + 1, k - 1, n - 1, open, x);
      }
    } else {
      BalanceCloses(t, i + 1, k, n, open, x);
    }
  }

  lemma GroupBodyIsBalanced(s: string, open: nat, close: nat, x: Lexer)
    requires Lawful(x) && open <= |s| && x.Reaches(s, open, |s|)
    requires CharAt(s, open, '(') && GroupEnd(s, open, x) == Ok(close)
    ensures var b := s[open + 1..close - 1]; Balanced(b, x, 0, |b|, 0) && x.Reaches(b, 0, |b|)
  {
    GroupBalance(s, open + 1, 0, open, close, x);
    SliceEmbeds(s, open + 1, close - 1);
    var b, lo, hi := s[open + 1..close - 1], open + 1, close - 1;
    BalanceRestrict(b, s, lo, 0, lo, hi, 0, x);
  }

  /** A group closed in the text is balanced up to its end. */
  lemma {:induction false} GroupBalance(s: string, i: nat, k: nat, open: nat, close: nat, x: Lexer)
    requires x.Sane() && i <= |s| && GroupFrom(s, i, k + 1, open, x) == Ok(close)
    ensures i < close <= |s| && Balanced(s, x, i, close - 1, k) && x.Reaches(s, i, close - 1)
    decreases |s| - i
  {
    var lexeme := x.Lexeme(s, i).value;
    if lexeme.Some? {
      GroupBalance(s, lexeme.value, k, open, close, x);
    } else if s[i] == '(' {
      GroupBalance(s, i + 1, k + 1, open, close, x);
    } else if s[i] == ')' {
      if k > 0 {
        GroupBalance(s, i + 1, k - 1, open, close, x);
      }
    } else {
      GroupBalance(s, i + 1, k, open, close, x);
    }
  }

  lemma BodyGroupCloses(b: string, m: nat, x: Lexer)
    requires x.Sane() && Balanced(b, x, 0, |b|, 0) && x.Reaches(b, 0, m) && CharAt(b, m, '(')
    ensures GroupEnd(b, m, x).Ok?
  {
    var k := BalanceAtStop(b, 0, m, 0, x);
    BalanceCloses(b, m + 1, k + 1, 1, m, x);
  }

  /**
   Locality of the walk: inside a group the matcher closed, on a text the scan accepts, lexing the
   body as a text of its own is never refused and every group opening in it is closed in it.
   */
  lemma ClosedGroupRefusesNothingNew(s: string, open: nat, close: nat, d: Dialect)
    requires d.Valid() && LexerOf(d).Sane() && ScanResult(s, d).Ok?
    requires Reach(s, d, 0, open) && CharAt(s, open, '(') && GroupEnd(s, open, LexerOf(d)) == Ok(close)
    ensures var b := s[open + 1..close - 1];
            && Reach(b, d, 0, |b|)
            && forall m :: Reach(b, d, 0, m) && CharAt(b, m, '(') ==> GroupEnd(b, m, LexerOf(d)).Ok?
  {
    SharedLexerIsLawful(d);
    ScanAcceptsIff(s, 0, 0, d);
    ReachSplit(s, d, 0, open, |s|);
    ReachesIsReach(s, open, |s|, d);
    GroupBodyIsBalanced(s, open, close, LexerOf(d));
    var b := s[open + 1..close - 1];
    ReachesIsReach(b, 0, |b|, d);
    forall m | Reach(b, d, 0, m) && CharAt(b, m, '(')
      ensures GroupEnd(b, m, LexerOf(d)).Ok?
    {
      ReachesIsReach(b, 0, m, d);
      BodyGroupCloses(b, m, LexerOf(d));
    }
  }

  // ----- segments

  /** The segments in order, with a `;` between neighbours. */
  function JoinSegments(s: string, segments: seq<(nat, nat)>): string
    requires forall k :: 0 <= k < |segments| ==> segments[k].0 <= segments[k].1 <= |s|
  {
    if segments == [] then ""
    else if |segments| == 1 then s[segments[0].0..segments[0].1]
    else s[segments[0].0..segments[0].1] + ";" + JoinSegments(s, segments[1..])
  }

  lemma JoinAtSemicolon(s: string, start: nat, i: nat, rest: seq<(nat, nat)>)
    requires start <= i < |s| && s[i] == ';' && rest != []
    requires forall k :: 0 <= k < |rest| ==> rest[k].0 <= rest[k].1 <= |s|
    requires JoinSegments(s, rest) == s[i + 1..]
    ensures JoinSegments(s, [(start, i)] + rest) == s[start..]
  {
    assert ([(start, i)] + rest)[1..] == rest;
    assert s[start..] == s[start..i] + ";" + s[i + 1..];
  }

  /** Cutting the text into segments loses nothing. */
  lemma {:induction false} SegmentsJoinBack(s: string, start: nat, i: nat, x: Lexer)
    requires x.Sane() && start <= i <= |s| && SegmentsFrom(s, start, i, x).Ok?
    ensures JoinSegments(s, SegmentsFrom(s, start, i, x).value) == s[start..]
    decreases |s| - i
  {
    if i < |s| {
      var lexeme := x.Lexeme(s, i).value;
      if lexeme.Some? {
        SegmentsJoinBack(s, start, lexeme.value, x);
      } else if s[i] == ';' {
        SegmentsJoinBack(s, i + 1, i + 1, x);
        JoinAtSemicolon(s, start, i, SegmentsFrom(s, i + 1, i + 1, x).value);
      } else {
        SegmentsJoinBack(s, start, i + 1, x);
      }
    }
  }

  // ----- the statement of an accepted text

  /** Where the one statement of an accepted text ends: at its `;` or at the end of the text. */
  function StatementCut(s: string, d: Dialect): (m: nat)
    requires d.Valid() && ScanResult(s, d).Ok?
    ensures m <= |s|
  {
    ScanAcceptsIff(s, 0, 0, d);
    var semis := Semicolons(s, 0, d).value;
    if semis == [] then |s| else semis[0]
  }

  lemma {:induction false} TriviaEndOfTrivia(s: string, i: nat, d: Dialect)
    requires d.Valid() && LexerOf(d).Sane() && i <= |s| && OnlyTrivia(s, i, d)
    ensures TriviaEnd(s, i, false, LexerOf(d)) == Ok(|s|)
    decreases |s| - i
  {
    if i < |s| {
      LexemeOf(s, i, d);
      OpenersAreComplete(s, i, d);
      TriviaEndOfTrivia(s, TokenAt(s, i, d).next, d);
    }
  }

  /** The trivia skipped from `i` reaches the end only when there is nothing but trivia. */
  lemma {:induction false} SolidStopsTrivia(s: string, i: nat, end: nat, d: Dialect)
    requires d.Valid() && LexerOf(d).Sane() && end <= i <= |s|
    requires TriviaEnd(s, i, false, LexerOf(d)) == Ok(|s|)
    ensures ScanFrom(s, i, false, end, d) == Ok(end)
    decreases |s| - i
  {
    if i < |s| {
      LexemeOf(s, i, d);
      OpenersAreComplete(s, i, d);
      SolidStopsTrivia(s, TokenAt(s, i, d).next, end, d);
    }
  }

  /** The stretch from `start` to `end`, cut at its first `;`. */
  function CutAt(start: nat, end: nat, semis: seq<nat>): seq<(nat, nat)> {
    if semis == [] then [(start, end)] else [(start, semis[0]), (semis[0] + 1, end)]
  }

  lemma {:induction false} SegmentsOfStatement(s: string, start: nat, i: nat, d: Dialect)
    requires d.Valid() && LexerOf(d).Sane() && start <= i <= |s| && OneStatement(s, i, d)
    ensures SegmentsFrom(s, start, i, LexerOf(d)) == Ok(CutAt(start, |s|, Semicolons(s, i, d).value))
    decreases |s| - i
  {
    if i < |s| {
      LexemeOf(s, i, d);
      if s[i] == ';' {
        TriviaAfterSemicolon(s, i, d);
        SegmentAtSemicolon(s, start, i, d);
      } else {
        var e := Step(s, i, d).value;
        StatementStep(s, i, e, d);
        SegmentStep(s, start, i, e, d);
        SegmentsOfStatement(s, start, e, d);
      }
    }
  }

  /** A step that meets no `;` changes neither the segments nor the `;` ahead. */
  lemma SegmentStep(s: string, start: nat, i: nat, e: nat, d: Dialect)
    requires d.Valid() && LexerOf(d).Sane() && start <= i < |s| && s[i] != ';' && Step(s, i, d) == Ok(e)
    ensures SegmentsFrom(s, start, i, LexerOf(d)) == SegmentsFrom(s, start, e, LexerOf(d))
    ensures Semicolons(s, i, d) == Semicolons(s, e, d)
  {
    LexemeOf(s, i, d);
  }

  lemma SegmentAtSemicolon(s: string, start: nat, i: nat, d: Dialect)
    requires d.Valid() && LexerOf(d).Sane() && start <= i < |s| && s[i] == ';' && OnlyTrivia(s, i + 1, d)
    ensures SegmentsFrom(s, start, i, LexerOf(d)) == Ok([(start, i), (i + 1, |s|)])
  {
    LexemeOf(s, i, d);
    NoSegmentInTrivia(s, i + 1, i + 1, d);
    assert [(start, i)] + [(i + 1, |s|)] == [(start, i), (i + 1, |s|)];
  }

  lemma TriviaAfterSemicolon(s: string, i: nat, d: Dialect)
    requires d.Valid() && i < |s| && s[i] == ';' && OneStatement(s, i, d)
    ensures OnlyTrivia(s, i + 1, d) && Semicolons(s, i, d) == Ok([i]) && Step(s, i, d) == Ok(i + 1)
  {
    TokenIsStep(s, i, d);
    var rest := Semicolons(s, i + 1, d).value;
    assert Semicolons(s, i, d).value == [i] + rest;
    assert ([i] + rest)[0] == i;
    TriviaReaches(s, i + 1, d);
    assert [i] + [] == [i];
  }

  lemma {:induction false} NoSegmentInTrivia(s: string, start: nat, i: nat, d: Dialect)
    requires d.Valid() && LexerOf(d).Sane() && start <= i <= |s| && OnlyTrivia(s, i, d)
    ensures SegmentsFrom(s, start, i, LexerOf(d)) == Ok([(start, |s|)])
    decreases |s| - i
  {
    if i < |s| {
      LexemeOf(s, i, d);
      TokenIsStep(s, i, d);
      NoSegmentInTrivia(s, start, TokenAt(s, i, d).next, d);
    }
  }

  /** In an accepted text the gate looks at exactly one segment. */
  lemma NonBlankIsStatement(s: string, d: Dialect)
    requires d.Valid() && LexerOf(d).Sane() && IsSingleStatement(s, d)
    ensures SegmentsFrom(s, 0, 0, LexerOf(d)).Ok?
    ensures NonBlank(s, SegmentsFrom(s, 0, 0, LexerOf(d)).value, LexerOf(d)) == Ok([(0, StatementCut(s, d))])
  {
    var m := StatementCut(s, d);
    SegmentsAtCut(s, m, d);
    StatementIsNotBlank(s, d);
    if m < |s| {
      TailIsBlank(s, d);
    }
    OnlyFirstIsNotBlank(s, m, LexerOf(d));
  }

  /** The statement up to its `;`, and what comes after it. */
  lemma SegmentsAtCut(s: string, m: nat, d: Dialect)
    requires d.Valid() && LexerOf(d).Sane() && IsSingleStatement(s, d) && m == StatementCut(s, d)
    ensures SegmentsFrom(s, 0, 0, LexerOf(d)) == Ok(if m < |s| then [(0, m), (m + 1, |s|)] else [(0, m)])
  {
    ScanAcceptsIff(s, 0, 0, d);
    SegmentsOfStatement(s, 0, 0, d);
  }

  lemma OnlyFirstIsNotBlank(s: string, m: nat, x: Lexer)
    requires x.Sane() && m <= |s|
    requires TriviaEnd(s[0..m], 0, false, x).Ok? && TriviaEnd(s[0..m], 0, false, x).value < m
    requires m < |s| ==> TriviaEnd(s[m + 1..|s|], 0, false, x) == Ok(|s| - (m + 1))
    ensures m < |s| ==> NonBlank(s, [(0, m), (m + 1, |s|)], x) == Ok([(0, m)])
    ensures m == |s| ==> NonBlank(s, [(0, m)], x) == Ok([(0, m)])
  {
    var none: seq<(nat, nat)> := [];
    assert [(0, m)][1..] == none && [(0, m)] + none == [(0, m)];
    if m < |s| {
      assert [(m + 1, |s|)][1..] == [];
      assert NonBlank(s, [(m + 1, |s|)], x) == Ok([]);
      assert [(0, m), (m + 1, |s|)][1..] == [(m + 1, |s|)];
    }
  }

  lemma TailIsBlank(s: string, d: Dialect)
    requires d.Valid() && LexerOf(d).Sane() && IsSingleStatement(s, d) && StatementCut(s, d) < |s|
    ensures var tail := s[StatementCut(s, d) + 1..|s|]; TriviaEnd(tail, 0, false, LexerOf(d)) == Ok(|tail|)
  {
    var m := StatementCut(s, d);
    var tail := s[m + 1..|s|];
    ScanAcceptsIff(s, 0, 0, d);
    TriviaEndOfTrivia(s, m + 1, d);
    SharedLexerIsLawful(d);
    SliceEmbeds(s, m + 1, |s|);
    SqlCut.TriviaOfTail(tail, s, m + 1, 0, m + 1, LexerOf(d));
  }

  /** The statement part: a stretch of the text that the scan's own lexer runs through. */
  lemma StatementIsStretch(s: string, d: Dialect)
    requires d.Valid() && LexerOf(d).Sane() && IsSingleStatement(s, d)
    ensures var m := StatementCut(s, d); Stretch(s[0..m], s, 0, LexerOf(d))
    ensures StatementCut(s, d) < |s| ==> SqlCut.Cut(s[0..StatementCut(s, d)], s, LexerOf(d))
  {
    var m := StatementCut(s, d);
    ScanAcceptsIff(s, 0, 0, d);
    ReachesIsReach(s, 0, m, d);
    SliceEmbeds(s, 0, m);
    if m < |s| {
      TriviaEndOfTrivia(s, m + 1, d);
    }
  }

  lemma StatementIsNotBlank(s: string, d: Dialect)
    requires d.Valid() && LexerOf(d).Sane() && IsSingleStatement(s, d)
    ensures var p := s[0..StatementCut(s, d)];
            TriviaEnd(p, 0, false, LexerOf(d)).Ok? && TriviaEnd(p, 0, false, LexerOf(d)).value < |p|
  {
    var m := StatementCut(s, d);
    ScanAcceptsIff(s, 0, 0, d);
    if m < |s| {
      CutIsNotBlank(s, m, d);
    } else {
      assert s[0..m] == s;
      WholeIsNotBlank(s, d);
    }
  }

  lemma CutIsNotBlank(s: string, m: nat, d: Dialect)
    requires d.Valid() && LexerOf(d).Sane() && IsSingleStatement(s, d)
    requires m == StatementCut(s, d) < |s|
    ensures TriviaEnd(s[0..m], 0, false, LexerOf(d)).Ok? && TriviaEnd(s[0..m], 0, false, LexerOf(d)).value < m
  {
    SharedLexerIsLawful(d);
    StatementIsStretch(s, d);
    ScanAcceptsIff(s, 0, 0, d);
    var j := SqlCut.SameTrivia(s[0..m], s, 0, false, LexerOf(d));
    if j == m {
      BlankBeforeSemicolon(s, 0, m, d);
    }
  }

  lemma WholeIsNotBlank(s: string, d: Dialect)
    requires d.Valid() && LexerOf(d).Sane() && IsSingleStatement(s, d) && Reach(s, d, 0, |s|)
    ensures TriviaEnd(s, 0, false, LexerOf(d)).Ok? && TriviaEnd(s, 0, false, LexerOf(d)).value < |s|
  {
    ReachesIsReach(s, 0, |s|, d);
    TriviaOnPath(s, 0, LexerOf(d));
    if TriviaEnd(s, 0, false, LexerOf(d)) == Ok(|s|) {
      SolidStopsTrivia(s, 0, 0, d);
    }
  }

  lemma {:induction false} TriviaOnPath(s: string, i: nat, x: Lexer)
    requires x.Sane() && i <= |s| && x.Reaches(s, i, |s|)
    ensures TriviaEnd(s, i, false, x).Ok?
    decreases |s| - i
  {
    if i < |s| {
      if x.isSpace(s[i]) {
        assert x.Step(s, i) == Ok(i + 1);
        TriviaOnPath(s, i + 1, x);
      } else if x.Comment(s, i).Ok? && x.Comment(s, i).value.Some? {
        TriviaOnPath(s, x.Comment(s, i).value.value, x);
      }
    }
  }

  /** Trivia up to the `;` means the scan finds no statement. */
  lemma {:induction false} BlankBeforeSemicolon(s: string, i: nat, m: nat, d: Dialect)
    requires d.Valid() && LexerOf(d).Sane() && i <= m < |s| && s[m] == ';' && OnlyTrivia(s, m + 1, d)
    requires TriviaEnd(s, i, false, LexerOf(d)) == Ok(m)
    ensures ScanFrom(s, i, false, 0, d) == Ok(0)
    decreases |s| - i
  {
    LexemeOf(s, i, d);
    TokenIsStep(s, i, d);
    if i == m {
      ScanAfterSemicolon(s, m + 1, 0, d);
    } else {
      BlankBeforeSemicolon(s, TokenAt(s, i, d).next, m, d);
    }
  }

  // ----- the gates agree

  /** On one statement the gate's check and the wrap rule's walk ask for the same keyword. */
  lemma CheckIsResolve(p: string, x: Lexer)
    requires x.Sane() && FirstKeyword(p, x).Ok? && FirstKeyword(p, x).value.0.Some?
    requires FirstKeyword(p, x).value.0.value in {"SELECT", "VALUES", "WITH"}
    ensures CheckStatement(p, 0, x).Ok? <==> Resolve(p, x, 0, 1).Ok? && IsQueryKeyword(Resolve(p, x, 0, 1).value.0)
  {
    var first := FirstKeyword(p, x).value;
    if first.0 == Some("WITH") {
      assert Resolve(p, x, 0, 1) == MainKeyword(p, first.1 + 4, x, 0, 1);
    }
  }

  lemma CheckEveryIsCheck(s: string, d: Dialect)
    requires d.Valid() && LexerOf(d).Sane() && IsSingleStatement(s, d)
    ensures CheckEveryStatement(s, LexerOf(d)).Ok? <==> CheckStatement(s[0..StatementCut(s, d)], 0, LexerOf(d)).Ok?
  {
    var x, m := LexerOf(d), StatementCut(s, d);
    NonBlankIsStatement(s, d);
    assert CheckEveryStatement(s, x) == CheckSegments(s, [(0, m)], x);
    assert [(0, m)][1..] == [];
  }

  /** The walks on the text and on its one statement are the same walk. */
  lemma WalkOfStatement(s: string, d: Dialect)
    requires d.Valid() && LexerOf(d).Sane() && IsSingleStatement(s, d)
    ensures var x, p := LexerOf(d), s[0..StatementCut(s, d)];
            Resolve(p, x, 0, 1) == Resolve(s, x, 0, 1) && FirstKeyword(p, x) == FirstKeyword(s, x)
  {
    var x, m := LexerOf(d), StatementCut(s, d);
    SharedLexerIsLawful(d);
    StatementIsStretch(s, d);
    if m < |s| {
      SqlCut.SameResolve(s[0..m], s, x, 0, 1);
      var _ := SqlCut.SameFirstKeyword(s[0..m], s, x);
    } else {
      assert s[0..m] == s;
    }
  }

  /**
   The wrap rule, the statement scan and the read gate agree exactly: a text may be wrapped if and
   only if the scan finds one statement, the read gate admits it, it starts with SELECT, VALUES or
   WITH, and its own WITH is not RECURSIVE.
   */
  lemma WrapRuleAgreesWithGates(s: string, d: Dialect)
    requires d.Valid() && LexerOf(d).Sane()
    ensures IsSingleQueryStatement(s, d) <==>
              && IsSingleStatement(s, d)
              && CheckEveryStatement(s, LexerOf(d)).Ok?
              && FirstKeyword(s, LexerOf(d)).Ok?
              && FirstKeyword(s, LexerOf(d)).value.0 in {Some("SELECT"), Some("VALUES"), Some("WITH")}
              && IsRecursiveWith(s, LexerOf(d)) == Ok(false)
  {
    var x := LexerOf(d);
    if IsSingleStatement(s, d) {
      CheckEveryIsCheck(s, d);
      WalkOfStatement(s, d);
      var first := FirstKeyword(s, x);
      if first.Ok? && first.value.0 in {Some("SELECT"), Some("VALUES"), Some("WITH")} {
        CheckIsResolve(s[0..StatementCut(s, d)], x);
      }
    }
  }

  /**
   The gates are sound for WITH: an admitted statement that starts with WITH derives from the CTE
   grammar, positions taken in the submitted text, and its main keyword is SELECT or VALUES.
   */
  lemma AdmittedWithDerives(s: string, d: Dialect) returns (q: Query)
    requires d.Valid() && LexerOf(d).Sane() && IsSingleStatement(s, d)
    requires CheckEveryStatement(s, LexerOf(d)).Ok?
    requires FirstKeyword(s, LexerOf(d)).Ok? && FirstKeyword(s, LexerOf(d)).value.0 == Some("WITH")
    ensures Derives(s, LexerOf(d), 0, StatementCut(s, d), q, 1) && q.With?
    ensures MainOf(q).1 in QUERY_KEYWORDS && WordIs(s, MainOf(q).0, MainOf(q).1)
  {
    var x, m := LexerOf(d), StatementCut(s, d);
    var p := s[0..m];
    SharedLexerIsLawful(d);
    StatementIsStretch(s, d);
    CheckEveryIsCheck(s, d);
    WalkOfStatement(s, d);
    CheckIsResolve(p, x);
    var (w, off) := Resolve(p, x, 0, 1).value;
    q := ResolveIsSound(p, s, 0, m, x, 1, w.value, off, off);
    DerivedMainIsWord(s, x, 0, m, q, 1);
  }
}
