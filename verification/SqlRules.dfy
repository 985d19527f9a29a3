/**
 The rules of the gates in plain terms: which statements are admitted and which may be wrapped, by
 their first word and the CTE grammar; what happens to several statements; where a refusal points.
 */
module SqlRules {
  import opened Outcomes
  import opened SqlScope
  import opened SqlPaths
  import opened SqlSlices
  import opened SqlWrap
  import opened SqlLexer
  import opened SqlKeywords
  import opened SqlGrammar
  import opened SqlGates
  import opened SqlComplete
  import opened SqlWords

  // ----- one statement

  /** The first word of a text, after white space, comments and opening parentheses. */
  ghost predicate StartsWith(s: string, d: Dialect, w: string)
    requires d.Valid() && LexerOf(d).Sane()
  {
    exists i: nat :: TriviaEnd(s, 0, true, LexerOf(d)) == Ok(i) && ReadsAs(s, i, w)
  }

  lemma StartsWithIff(s: string, d: Dialect, w: string)
    requires d.Valid() && LexerOf(d).Sane()
    ensures StartsWith(s, d, w) <==>
              FirstKeyword(s, LexerOf(d)).Ok? && FirstKeyword(s, LexerOf(d)).value.0 == Some(w)
  {
    var i := TriviaEnd(s, 0, true, LexerOf(d));
    if i.Ok? {
      WordAtIff(s, i.value, w);
    }
  }

  /** The statement derives from the CTE grammar, with or without its own RECURSIVE. */
  ghost predicate IsCteStatement(s: string, d: Dialect, recursive: bool)
    requires d.Valid() && LexerOf(d).Sane() && IsSingleStatement(s, d)
  {
    exists q: Query :: q.With? && q.recursive.Some? == recursive && Derives(s, LexerOf(d), 0, StatementCut(s, d), q, 1)
  }

  /**
   The read gate, word by word: one statement is admitted if and only if it starts with SELECT, VALUES,
   SHOW, DESCRIBE, DESC or EXPLAIN, or is a WITH of the CTE grammar.
   */
  lemma GateByWords(s: string, d: Dialect)
    requires d.Valid() && LexerOf(d).Sane() && IsSingleStatement(s, d)
    ensures CheckEveryStatement(s, LexerOf(d)).Ok? <==>
              || StartsWith(s, d, "SELECT") || StartsWith(s, d, "VALUES") || StartsWith(s, d, "SHOW")
              || StartsWith(s, d, "DESCRIBE") || StartsWith(s, d, "DESC") || StartsWith(s, d, "EXPLAIN")
              || IsCteStatement(s, d, false) || IsCteStatement(s, d, true)
  {
    StartsWithIff(s, d, "SELECT");
    StartsWithIff(s, d, "VALUES");
    StartsWithIff(s, d, "SHOW");
    StartsWithIff(s, d, "DESCRIBE");
    StartsWithIff(s, d, "DESC");
    StartsWithIff(s, d, "EXPLAIN");
    GateByKeyword(s, d);
  }

  lemma GateByKeyword(s: string, d: Dialect)
    requires d.Valid() && LexerOf(d).Sane() && IsSingleStatement(s, d)
    ensures var first := FirstKeyword(s, LexerOf(d));
            CheckEveryStatement(s, LexerOf(d)).Ok? <==>
              || (first.Ok? && first.value.0 in {Some("SELECT"), Some("VALUES"), Some("SHOW"),
                                                 Some("DESCRIBE"), Some("DESC"), Some("EXPLAIN")})
              || IsCteStatement(s, d, false) || IsCteStatement(s, d, true)
  {
    var first := FirstKeyword(s, LexerOf(d));
    GateAdmitsIff(s, d);
    GateIsGrammar(s, d);
    if first.Ok? && first.value.0.Some? {
      ReadWords(first.value.0.value);
    }
    if exists q: Query :: q.With? && Derives(s, LexerOf(d), 0, StatementCut(s, d), q, 1) {
      var q: Query :| q.With? && Derives(s, LexerOf(d), 0, StatementCut(s, d), q, 1);
      assert IsCteStatement(s, d, q.recursive.Some?);
    }
  }

  /** The whole text as a stretch of itself. */
  lemma WholeIsStretch(s: string, d: Dialect)
    requires d.Valid() && LexerOf(d).Sane() && IsSingleStatement(s, d)
    ensures Lawful(LexerOf(d)) && Stretch(s, s, 0, LexerOf(d)) && Stop(s, s, 0, 0, LexerOf(d))
  {
    SharedLexerIsLawful(d);
    ScanAcceptsIff(s, 0, 0, d);
    ReachesIsReach(s, 0, |s|, d);
    assert s[0..|s|] == s;
    SliceEmbeds(s, 0, |s|);
  }

  /** The walk's RECURSIVE is the grammar's. */
  lemma RecursiveIsDerived(s: string, d: Dialect, q: Query)
    requires d.Valid() && LexerOf(d).Sane() && IsSingleStatement(s, d)
    requires q.With? && Derives(s, LexerOf(d), 0, StatementCut(s, d), q, 1)
    ensures IsRecursiveWith(s, LexerOf(d)) == Ok(q.recursive.Some?)
  {
    WholeIsStretch(s, d);
    DerivedRecursive(s, LexerOf(d), StatementCut(s, d), q);
  }

  lemma DerivedRecursive(s: string, x: Lexer, hi: nat, q: Query)
    requires Lawful(x) && Stretch(s, s, 0, x) && q.With? && Derives(s, x, 0, hi, q, 1)
    ensures IsRecursiveWith(s, x) == Ok(q.recursive.Some?)
  {
    WithParts(s, x, hi, q);
    WithIsRead(s, q.at, q.at + 4, q.list.cte.name, q.list.cte.nameEnd, q.recursive, x);
  }

  lemma WithParts(s: string, x: Lexer, hi: nat, q: Query)
    requires x.Sane() && q.With? && Derives(s, x, 0, hi, q, 1)
    ensures q.at < |s| && TriviaBetween(s, x, 0, q.at, true) && WordIs(s, q.at, "WITH")
    ensures ListOpens(s, x, q.at + 4, q.recursive, q.list.cte.name)
    ensures NameIs(s, x, q.list.cte.name, q.list.cte.nameEnd)
  {
    ChainName(s, x, hi, q.list, 1);
  }

  lemma WithIsRead(s: string, at: nat, p: nat, name: nat, e: nat, recursive: Option<nat>, x: Lexer)
    requires Lawful(x) && Stretch(s, s, 0, x) && p == at + 4 && at < |s|
    requires TriviaBetween(s, x, 0, at, true) && WordIs(s, at, "WITH")
    requires ListOpens(s, x, p, recursive, name) && NameIs(s, x, name, e)
    ensures IsRecursiveWith(s, x) == Ok(recursive.Some?)
  {
    FirstWordRead(s, s, 0, at, at, "WITH", x);
    NameIsNotTrivia(s, name, e, x);
    RecursiveIsRead(s, p, name, recursive, x);
    assert FirstKeyword(s, x) == Ok((Some("WITH"), at));
  }

  lemma RecursiveIsRead(s: string, i: nat, name: nat, recursive: Option<nat>, x: Lexer)
    requires Lawful(x) && Stretch(s, s, 0, x) && Stop(s, s, 0, i, x) && name < |s|
    requires ListOpens(s, x, i, recursive, name) && NotTrivia(s, name, false, x)
    ensures TriviaEnd(s, i, false, x).Ok?
    ensures (WordAt(s, TriviaEnd(s, i, false, x).value) == Some("RECURSIVE")) == recursive.Some?
  {
    match recursive
    case None => TriviaRead(s, s, 0, i, name, i, name, false, x);
    case Some(r) =>
      WordIsNotTrivia(s, r, "RECURSIVE", false, x);
      TriviaRead(s, s, 0, i, r, i, r, false, x);
  }

  /**
   The wrap rule, word by word: one statement may be enclosed if and only if it starts with SELECT or
   VALUES, or is a WITH of the CTE grammar without RECURSIVE of its own.
   */
  lemma WrapByWords(s: string, d: Dialect)
    requires d.Valid() && LexerOf(d).Sane() && IsSingleStatement(s, d)
    ensures IsSingleQueryStatement(s, d) <==>
              StartsWith(s, d, "SELECT") || StartsWith(s, d, "VALUES") || IsCteStatement(s, d, false)
  {
    StartsWithIff(s, d, "SELECT");
    StartsWithIff(s, d, "VALUES");
    WrapRuleAgreesWithGates(s, d);
    GateByKeyword(s, d);
    GateIsGrammar(s, d);
    RecursivesAgree(s, d);
  }

  lemma RecursivesAgree(s: string, d: Dialect)
    requires d.Valid() && LexerOf(d).Sane() && IsSingleStatement(s, d)
    ensures IsCteStatement(s, d, false) ==> IsRecursiveWith(s, LexerOf(d)) == Ok(false)
    ensures IsCteStatement(s, d, true) ==> IsRecursiveWith(s, LexerOf(d)) == Ok(true)
  {
    forall q: Query | q.With? && Derives(s, LexerOf(d), 0, StatementCut(s, d), q, 1)
      ensures IsRecursiveWith(s, LexerOf(d)) == Ok(q.recursive.Some?)
    {
      RecursiveIsDerived(s, d, q);
    }
  }

  // ----- several statements

  /** The segment holds more than white space and comments. */
  ghost predicate HoldsStatement(s: string, segment: (nat, nat), x: Lexer)
    requires x.Sane() && segment.0 <= segment.1 <= |s|
  {
    var end := TriviaEnd(s[segment.0..segment.1], 0, false, x);
    end.Ok? && end.value < segment.1 - segment.0
  }

  ghost predicate InText(s: string, segments: seq<(nat, nat)>) {
    forall k :: 0 <= k < |segments| ==> segments[k].0 <= segments[k].1 <= |s|
  }

  ghost predicate Passes(s: string, segment: (nat, nat), x: Lexer)
    requires x.Sane() && segment.0 <= segment.1 <= |s|
  {
    CheckStatement(s[segment.0..segment.1], segment.0, x).Ok?
  }

  lemma {:induction false} NonBlankIff(s: string, segments: seq<(nat, nat)>, x: Lexer)
    requires x.Sane() && InText(s, segments)
    ensures NonBlank(s, segments, x).Ok? <==>
              forall k :: 0 <= k < |segments| ==> TriviaEnd(s[segments[k].0..segments[k].1], 0, false, x).Ok?
    ensures NonBlank(s, segments, x).Ok? ==>
              && (NonBlank(s, segments, x).value == [] <==>
                    forall k :: 0 <= k < |segments| ==> !HoldsStatement(s, segments[k], x))
              && (CheckSegments(s, NonBlank(s, segments, x).value, x).Ok? <==>
                    forall k :: 0 <= k < |segments| && HoldsStatement(s, segments[k], x) ==> Passes(s, segments[k], x))
  {
    if segments != [] {
      var rest := segments[1..];
      NonBlankIff(s, rest, x);
      assert forall k :: 0 < k < |segments| ==> segments[k] == rest[k - 1];
      assert forall k :: 0 <= k < |rest| ==> rest[k] == segments[k + 1];
      NonBlankHead(s, segments, x);
    }
  }

  lemma NonBlankHead(s: string, segments: seq<(nat, nat)>, x: Lexer)
    requires x.Sane() && InText(s, segments) && segments != []
    ensures var head, rest := segments[0], NonBlank(s, segments[1..], x);
            && (NonBlank(s, segments, x).Ok? <==> rest.Ok? && TriviaEnd(s[head.0..head.1], 0, false, x).Ok?)
            && (NonBlank(s, segments, x).Ok? ==>
                  var all := NonBlank(s, segments, x).value;
                  if HoldsStatement(s, head, x) then
                    && all != []
                    && (CheckSegments(s, all, x).Ok? <==> Passes(s, head, x) && CheckSegments(s, rest.value, x).Ok?)
                  else all == rest.value)
  {
    var rest := NonBlank(s, segments[1..], x);
    if rest.Ok? {
      assert ([segments[0]] + rest.value)[1..] == rest.value;
    }
  }

  /**
   The gate on any number of statements: every segment that holds one must pass, and there must be one;
   segments of white space and comments are passed over.
   */
  lemma EveryStatementIsChecked(s: string, x: Lexer)
    requires x.Sane()
    ensures CheckEveryStatement(s, x).Ok? <==>
              && SegmentsFrom(s, 0, 0, x).Ok?
              && var all := SegmentsFrom(s, 0, 0, x).value;
                 && (forall k :: 0 <= k < |all| ==> TriviaEnd(s[all[k].0..all[k].1], 0, false, x).Ok?)
                 && (exists k :: 0 <= k < |all| && HoldsStatement(s, all[k], x))
                 && (forall k :: 0 <= k < |all| && HoldsStatement(s, all[k], x) ==> Passes(s, all[k], x))
  {
    if SegmentsFrom(s, 0, 0, x).Ok? {
      NonBlankIff(s, SegmentsFrom(s, 0, 0, x).value, x);
    }
  }

  // ----- where a refusal points

  /** The text starts with WITH. */
  ghost predicate IsWith(t: string, x: Lexer)
    requires x.Sane()
  {
    FirstKeyword(t, x).Ok? && FirstKeyword(t, x).value.0 == Some("WITH")
  }

  /**
   What the gate refuses a statement that stands at `base` for, and where: at its first word, or at the
   place where the walk of its WITH ended.
   */
  lemma RefusalPoints(t: string, base: nat, x: Lexer)
    requires x.Sane() && CheckStatement(t, base, x).Refused?
    ensures var e := CheckStatement(t, base, x).error;
            var i := e.at - base;
            && (e.NoKeyword? && !IsWith(t, x) ==>
                  TriviaEnd(t, 0, true, x).Ok? ==> TriviaEnd(t, 0, true, x) == Ok(i) && WordAt(t, i) == None)
            && (e.OtherKeyword? && !IsWith(t, x) ==>
                  TriviaEnd(t, 0, true, x).Ok? ==>
                    && TriviaEnd(t, 0, true, x) == Ok(i)
                    && WordAt(t, i).Some? && WordAt(t, i).value !in READ_STATEMENT_KEYWORDS)
            && (IsWith(t, x) && MainKeyword(t, FirstKeyword(t, x).value.1 + 4, x, base, 1).Ok? ==>
                  e.NotAQuery? && i == MainKeyword(t, FirstKeyword(t, x).value.1 + 4, x, base, 1).value.1)
  {
  }

  /** A WITH below sixteen others is refused at its own place; any other is walked. */
  lemma DeepWithIsRefused(t: string, x: Lexer, base: nat, depth: nat)
    requires x.Sane() && IsWith(t, x)
    ensures depth > 16 ==> Resolve(t, x, base, depth) == Refused(NestedTooDeep(base + FirstKeyword(t, x).value.1))
    ensures depth <= 16 ==> Resolve(t, x, base, depth) == MainKeyword(t, FirstKeyword(t, x).value.1 + 4, x, base, depth)
  {
  }

  /**
   Where the shape of a CTE breaks: where no name stands, where the word after the name and its columns
   is not AS, or where no parenthesis opens after AS.
   */
  lemma BrokenPoints(s: string, i: nat, at: nat, x: Lexer)
    requires x.Sane() && i <= |s| && CteAt(s, i, x) == Ok(Broken(at))
    ensures || (at == i && CteNameEnd(s, i, x) == Ok(None))
            || (at <= |s| && WordAt(s, at) != Some("AS") && exists e: nat :: ColumnsReach(s, i, e, at, x))
            || (!CharAt(s, at, '(') && exists e: nat, p: nat :: AsReaches(s, i, e, p, at, x))
  {
    var name := CteNameEnd(s, i, x).value;
    if name.Some? {
      var e := name.value;
      var j := TriviaEnd(s, e, false, x).value;
      var p := if CharAt(s, j, '(') then TriviaEnd(s, GroupEnd(s, j, x).value, false, x).value else j;
      assert ColumnsReach(s, i, e, p, x);
      if WordAt(s, p) == Some("AS") {
        assert AsReaches(s, i, e, p, at, x);
      }
    }
  }

  /** A name ends at `e`; after it and its column list, if there is one, the next token starts at `p`. */
  ghost predicate ColumnsReach(s: string, i: nat, e: nat, p: nat, x: Lexer)
    requires x.Sane() && i <= |s|
  {
    CteNameEnd(s, i, x) == Ok(Some(e)) && e <= |s| && ColumnsEndAt(s, e, p, x)
  }

  /** And there stands AS, after which the next token starts at `q`. */
  ghost predicate AsReaches(s: string, i: nat, e: nat, p: nat, q: nat, x: Lexer)
    requires x.Sane() && i <= |s|
  {
    && ColumnsReach(s, i, e, p, x) && p <= |s| && WordAt(s, p) == Some("AS")
    && p + 2 <= |s| && TriviaEnd(s, p + 2, false, x) == Ok(q)
  }

  /** A body or a parenthesised main statement that stops the walk does so at its own place in the text. */
  lemma StopsInside(s: string, open: nat, close: nat, at: nat, x: Lexer, base: nat, depth: nat)
    requires x.Sane() && open + 2 <= close <= |s|
    ensures ThroughBody(s, Ok(BodyGroup(open, close)), x, base, depth) == Ok(Halt(at)) ==>
              var body := s[open + 1..close - 1];
              && FirstKeyword(body, x).Ok?
              && (!IsWith(body, x) ==>
                    at == open + 1 + FirstKeyword(body, x).value.1 && !IsQueryKeyword(FirstKeyword(body, x).value.0))
    ensures TriviaEnd(s, close, false, x).Ok? && !CharAt(s, TriviaEnd(s, close, false, x).value, ',') ==>
              var n, after := TriviaEnd(s, close, false, x).value, AfterBody(s, close, x, base, depth);
              && (!CharAt(s, n, '(') ==> after == Ok(Answer(WordAt(s, n), n)))
              && (CharAt(s, n, '(') && FirstKeyword(s[n..], x).Ok? && !IsWith(s[n..], x) ==>
                    after == Ok(Answer(FirstKeyword(s[n..], x).value.0, n + FirstKeyword(s[n..], x).value.1)))
  {
    var body := Resolve(s[open + 1..close - 1], x, base + open + 1, depth + 1);
    assert body.Ok? && !IsWith(s[open + 1..close - 1], x) ==> body == FirstKeyword(s[open + 1..close - 1], x);
  }

  /** A group that is not closed is reported where it opens. */
  lemma {:induction false} UnclosedGroupPoints(s: string, i: nat, depth: int, open: nat, at: nat, x: Lexer)
    requires x.Sane() && i <= |s| && GroupFrom(s, i, depth, open, x) == Refused(GroupNotClosed(at))
    requires forall k: nat :: i <= k < |s| && x.Lexeme(s, k).Refused? ==> !x.Lexeme(s, k).error.GroupNotClosed?
    ensures at == open
    decreases |s| - i
  {
    if i < |s| {
      match x.Lexeme(s, i)
      case Ok(Some(e)) => UnclosedGroupPoints(s, e, depth, open, at, x);
      case Ok(None) =>
        UnclosedGroupPoints(
          s, i + 1, if s[i] == '(' then depth + 1 else if s[i] == ')' then depth - 1 else depth, open, at, x);
      case Refused(_) =>
    }
  }
}
