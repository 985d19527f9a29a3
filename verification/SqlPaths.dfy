/**
 Lexical paths: the positions the scanner stops at, and what an accepted text looks like along
 them. The end of the module proves that every plausible reading sees the same `;`.
 */
module SqlPaths {
  import opened Outcomes
  import opened SqlScope
  import opened SqlReadings

  /** Every character at which a comment or a literal can open, on any dialect. */
  predicate IsLexerOpener(c: char) {
    c == '-' || c == '#' || c == '/' || c == '\'' || c == '"' || c == '`' || c == '$'
  }

  /** The lexer, consulted only where an opener stands: how far a comment or literal at `i` reaches. */
  function LexemeEnd(s: string, i: nat, d: Dialect): (r: Found)
    requires i < |s|
    ensures r.Ok? && r.value.Some? ==> i <= r.value.value <= |s|
    ensures d.Valid() && r.Ok? && r.value.Some? ==> i < r.value.value
  {
    if !IsLexerOpener(s[i]) then Ok(None)
    else
      match CommentEnd(s, i, d)
      case Ok(None) => LiteralEnd(s, i, d)
      case c => c
  }

  /** Skipping the lexer on the other characters changes nothing. */
  lemma OpenersAreComplete(s: string, i: nat, d: Dialect)
    requires i < |s|
    ensures LexemeEnd(s, i, d) ==
            match CommentEnd(s, i, d) { case Ok(None) => LiteralEnd(s, i, d) case c => c }
  {
  }

  /** The next position of the scanner: past the lexeme that opens at `i`, or one character on. */
  function Step(s: string, i: nat, d: Dialect): (r: Result<nat, Refusal>)
    requires d.Valid() && i < |s|
    ensures r.Ok? ==> i < r.value <= |s|
  {
    match LexemeEnd(s, i, d)
    case Ok(Some(e)) => Ok(e)
    case Ok(None) => Ok(i + 1)
    case Refused(x) => Refused(x)
  }

  /** The scanner, started at `i`, stops at `j`. */
  ghost predicate Reach(s: string, d: Dialect, i: nat, j: nat)
    requires d.Valid()
    decreases |s| - i
  {
    i == j || (i < j <= |s| && Step(s, i, d).Ok? && Reach(s, d, Step(s, i, d).value, j))
  }

  lemma {:induction false} ReachTrans(s: string, d: Dialect, i: nat, j: nat, k: nat)
    requires d.Valid() && Reach(s, d, i, j) && Reach(s, d, j, k)
    ensures Reach(s, d, i, k)
    decreases |s| - i
  {
    if i != j {
      ReachTrans(s, d, Step(s, i, d).value, j, k);
    }
  }

  /** Two stops on one path lie on the path from the first to the second. */
  lemma {:induction false} ReachSplit(s: string, d: Dialect, i: nat, j: nat, k: nat)
    requires d.Valid() && Reach(s, d, i, j) && Reach(s, d, i, k) && j <= k
    ensures Reach(s, d, j, k)
    decreases |s| - i
  {
    if i != j {
      ReachSplit(s, d, Step(s, i, d).value, j, k);
    }
  }

  /** From `i` on the text holds white space and comments only. */
  ghost predicate OnlyTrivia(s: string, i: nat, d: Dialect)
    requires d.Valid() && i <= |s|
    decreases |s| - i
  {
    i == |s| || (TokenAt(s, i, d).Trivia? && OnlyTrivia(s, TokenAt(s, i, d).next, d))
  }

  /** The tokens of the scan are the steps of the path. */
  lemma TokenIsStep(s: string, i: nat, d: Dialect)
    requires d.Valid() && i < |s|
    ensures Step(s, i, d) ==
            match TokenAt(s, i, d)
            case Trivia(next) => Ok(next)
            case Semicolon => Ok(i + 1)
            case Solid(r) => r
            case BadComment(x) => Refused(x)
    ensures s[i] == ';' <==> TokenAt(s, i, d) == Semicolon
  {
    OpenersAreComplete(s, i, d);
  }

  /** The top-level `;` the scanner's own lexer sees from `i` on. */
  function Semicolons(s: string, i: nat, d: Dialect): (r: Result<seq<nat>, Refusal>)
    requires d.Valid() && i <= |s|
    decreases |s| - i
  {
    if i == |s| then Ok([])
    else
      match Step(s, i, d)
      case Refused(x) => Refused(x)
      case Ok(e) =>
        match Semicolons(s, e, d)
        case Refused(x) => Refused(x)
        case Ok(rest) => Ok(if s[i] == ';' then [i] + rest else rest)
  }

  // ----- what acceptance means

  lemma {:induction false} TriviaReaches(s: string, i: nat, d: Dialect)
    requires d.Valid() && i <= |s| && OnlyTrivia(s, i, d)
    ensures Reach(s, d, i, |s|) && Semicolons(s, i, d) == Ok([])
    decreases |s| - i
  {
    if i < |s| {
      TokenIsStep(s, i, d);
      TriviaReaches(s, TokenAt(s, i, d).next, d);
    }
  }

  /** After the `;` the scan accepts exactly the texts that hold nothing but trivia. */
  lemma {:induction false} ScanAfterSemicolon(s: string, i: nat, end: nat, d: Dialect)
    requires d.Valid() && end <= i <= |s|
    ensures OnlyTrivia(s, i, d) <==> ScanFrom(s, i, true, end, d).Ok?
    ensures OnlyTrivia(s, i, d) ==> ScanFrom(s, i, true, end, d) == Ok(end)
    decreases |s| - i
  {
    if i < |s| && TokenAt(s, i, d).Trivia? {
      ScanAfterSemicolon(s, TokenAt(s, i, d).next, end, d);
    }
  }

  /** A top-level `;` before `k` on the scanner's path from `i`. */
  ghost predicate SemicolonBefore(s: string, i: nat, k: nat, d: Dialect)
    requires d.Valid()
  {
    exists j: nat :: i <= j < k && j < |s| && s[j] == ';' && Reach(s, d, i, j)
  }

  /**
   Where a refused scan stopped: at a comment or literal it could not read, with that refusal, or at the
   first token after a top-level `;` that is no trivia.
   */
  lemma {:induction false} ScanRefusalPoints(s: string, i: nat, seen: bool, end: nat, d: Dialect) returns (k: nat)
    requires d.Valid() && end <= i <= |s| && ScanFrom(s, i, seen, end, d).Refused?
    ensures i <= k < |s| && Reach(s, d, i, k) && !TokenAt(s, k, d).Trivia?
    ensures var e := ScanFrom(s, i, seen, end, d).error;
            || Step(s, k, d) == Refused(e)
            || (e == MoreSql(k) && !TokenAt(s, k, d).BadComment? && (seen || SemicolonBefore(s, i, k, d)))
    decreases |s| - i
  {
    TokenIsStep(s, i, d);
    var token := TokenAt(s, i, d);
    if token.Trivia? || (!seen && Step(s, i, d).Ok?) {
      var next := Step(s, i, d).value;
      k := ScanRefusalPoints(s, next, seen || token.Semicolon?, if token.Solid? then next else end, d);
      if !seen && token.Semicolon? {
        assert Reach(s, d, i, i);
      } else if SemicolonBefore(s, next, k, d) {
        var j: nat :| next <= j < k && j < |s| && s[j] == ';' && Reach(s, d, next, j);
        assert Reach(s, d, i, j);
      }
    } else {
      k := i;
    }
  }

  /** The shape of a text from `i` on: no top-level `;`, or one with nothing but trivia after it. */
  ghost predicate OneStatement(s: string, i: nat, d: Dialect)
    requires d.Valid() && i <= |s|
  {
    && Reach(s, d, i, |s|)
    && Semicolons(s, i, d).Ok?
    && var semis := Semicolons(s, i, d).value;
       || semis == []
       || (|semis| == 1 && i <= semis[0] < |s| && s[semis[0]] == ';' && Reach(s, d, i, semis[0]) &&
           OnlyTrivia(s, semis[0] + 1, d))
  }

  /** The scan accepts exactly the texts of that shape. */
  lemma {:induction false} ScanAcceptsIff(s: string, i: nat, end: nat, d: Dialect)
    requires d.Valid() && end <= i <= |s|
    ensures ScanFrom(s, i, false, end, d).Ok? <==> OneStatement(s, i, d)
    decreases |s| - i
  {
    if i < |s| {
      TokenIsStep(s, i, d);
      if s[i] == ';' {
        SemicolonCase(s, i, end, d);
      } else if Step(s, i, d).Ok? {
        var e := Step(s, i, d).value;
        ScanAcceptsIff(s, e, if TokenAt(s, i, d).Trivia? then end else e, d);
        StatementStep(s, i, e, d);
      }
    }
  }

  lemma SemicolonCase(s: string, i: nat, end: nat, d: Dialect)
    requires d.Valid() && end <= i < |s| && s[i] == ';'
    ensures ScanFrom(s, i, false, end, d).Ok? <==> OneStatement(s, i, d)
  {
    ScanAfterSemicolon(s, i + 1, end, d);
    assert Step(s, i, d) == Ok(i + 1);
    if OnlyTrivia(s, i + 1, d) {
      TriviaReaches(s, i + 1, d);
    }
  }

  lemma StatementStep(s: string, i: nat, e: nat, d: Dialect)
    requires d.Valid() && i < |s| && Step(s, i, d) == Ok(e) && s[i] != ';'
    ensures OneStatement(s, i, d) <==> OneStatement(s, e, d)
  {
    if Semicolons(s, e, d).Ok? && |Semicolons(s, e, d).value| == 1 {
      var p := Semicolons(s, e, d).value[0];
      SemicolonsAhead(s, e, d);
    }
  }

  lemma {:induction false} SemicolonsAhead(s: string, i: nat, d: Dialect)
    requires d.Valid() && i <= |s| && Semicolons(s, i, d).Ok?
    ensures forall k :: 0 <= k < |Semicolons(s, i, d).value| ==> i <= Semicolons(s, i, d).value[k] < |s|
    decreases |s| - i
  {
    if i < |s| {
      SemicolonsAhead(s, Step(s, i, d).value, d);
    }
  }

  // ----- readings of an accepted text

  /** No block comment on the scanner's path ends its body in a slash. */
  predicate NoSlashClose(s: string, i: nat, d: Dialect)
    requires d.Valid() && i <= |s|
    decreases |s| - i
  {
    i == |s| || Step(s, i, d).Refused? ||
    (&& (!OpensLineComment(s, i, d) && PairAt(s, i, '/', '*') ==> !EndsInSlash(s, i, Step(s, i, d).value))
     && NoSlashClose(s, Step(s, i, d).value, d))
  }

  /** A nesting reading ends every block comment on the path where the scanner does. */
  ghost predicate NestingAgrees(s: string, i: nat, d: Dialect)
    requires d.Valid() && i <= |s|
    decreases |s| - i
  {
    i == |s| || Step(s, i, d).Refused? ||
    (&& (!OpensLineComment(s, i, d) && PairAt(s, i, '/', '*') ==>
           ReadBlockEnd(s, i + 2, 1, true) == Some(Step(s, i, d).value))
     && NestingAgrees(s, Step(s, i, d).value, d))
  }

  /** The side condition on nesting readings is exact. */
  lemma {:induction false} NestingAgreesIff(s: string, i: nat, d: Dialect)
    requires d.Valid() && i <= |s|
    ensures NestingAgrees(s, i, d) <==> NoSlashClose(s, i, d)
    decreases |s| - i
  {
    if i < |s| && Step(s, i, d).Ok? {
      if !OpensLineComment(s, i, d) && PairAt(s, i, '/', '*') {
        NestedCommentAgreesIff(s, i);
      }
      NestingAgreesIff(s, Step(s, i, d).value, d);
    }
  }

  /** Where a reading's step lands against the scanner's: there, up to the LF of one CRLF. */
  predicate LandsAt(s: string, e: nat, e': nat)
    requires e <= |s| && e' <= |s|
  {
    e' == e || (e' == e + 1 && s[e] == '\n') || (e' + 1 == e && s[e'] == '\n')
  }

  lemma LineStepAgrees(s: string, i: nat, d: Dialect, r: Reading)
    requires d.Valid() && Plausible(r, d) && i < |s| && Step(s, i, d).Ok? && OpensLineComment(s, i, d)
    ensures ReadLexemeEnd(s, i, d, r).Some? && LandsAt(s, Step(s, i, d).value, ReadLexemeEnd(s, i, d, r).value)
  {
    OpenersAreComplete(s, i, d);
    CommentsOpenAlike(s, i, d, r);
    LineCommentReadingsAgree(s, i, d, r);
  }

  lemma BlockStepAgrees(s: string, i: nat, d: Dialect, r: Reading)
    requires d.Valid() && i < |s| && Step(s, i, d).Ok? && !OpensLineComment(s, i, d) && PairAt(s, i, '/', '*')
    requires r.nests ==> NoSlashClose(s, i, d)
    ensures ReadLexemeEnd(s, i, d, r) == Some(Step(s, i, d).value)
  {
    OpenersAreComplete(s, i, d);
    CommentsOpenAlike(s, i, d, r);
    FlatCommentAgrees(s, i);
    NestedCommentAgreesIff(s, i);
  }

  /** One step of a plausible reading lands where the scanner does, up to the LF of one CRLF. */
  lemma StepReadingsAgree(s: string, i: nat, d: Dialect, r: Reading)
    requires d.Valid() && Plausible(r, d) && i < |s| && Step(s, i, d).Ok?
    requires r.nests ==> NoSlashClose(s, i, d)
    ensures ReadLexemeEnd(s, i, d, r).Some? && LandsAt(s, Step(s, i, d).value, ReadLexemeEnd(s, i, d, r).value)
  {
    if OpensLineComment(s, i, d) {
      LineStepAgrees(s, i, d, r);
    } else if PairAt(s, i, '/', '*') {
      BlockStepAgrees(s, i, d, r);
    } else {
      OpenersAreComplete(s, i, d);
      LiteralReadingsAgree(s, i, d, r);
    }
  }

  lemma LineFeedIsPlain(s: string, i: nat, d: Dialect, r: Reading)
    requires d.Valid() && i < |s| && s[i] == '\n'
    ensures Step(s, i, d) == Ok(i + 1) && Semicolons(s, i, d) == Semicolons(s, i + 1, d)
    ensures ReadSemicolons(s, i, d, r) == ReadSemicolons(s, i + 1, d, r)
    ensures Reach(s, d, i, |s|) == Reach(s, d, i + 1, |s|)
    ensures NoSlashClose(s, i, d) == NoSlashClose(s, i + 1, d)
  {
    OthersArePlain(s, i, d, r);
  }

  /** Positions a line feed apart are the same to a reading. */
  lemma LineFeedApart(s: string, e: nat, e': nat, d: Dialect, r: Reading)
    requires d.Valid() && e <= |s| && e' <= |s|
    requires e' == e || (e' == e + 1 && s[e] == '\n') || (e == e' + 1 && s[e'] == '\n')
    ensures ReadSemicolons(s, e', d, r) == ReadSemicolons(s, e, d, r)
  {
    var low := if e <= e' then e else e';
    if e != e' {
      LineFeedIsPlain(s, low, d, r);
    }
  }

  /** The two steps differ by at most a line feed, so what a reading sees after them is the same. */
  lemma ReadingAfterStep(s: string, i: nat, d: Dialect, r: Reading)
    requires d.Valid() && Plausible(r, d) && i < |s| && Step(s, i, d).Ok?
    requires r.nests ==> NoSlashClose(s, i, d)
    ensures ReadLexemeEnd(s, i, d, r).Some?
    ensures ReadSemicolons(s, ReadLexemeEnd(s, i, d, r).value, d, r) == ReadSemicolons(s, Step(s, i, d).value, d, r)
  {
    StepReadingsAgree(s, i, d, r);
    LineFeedApart(s, Step(s, i, d).value, ReadLexemeEnd(s, i, d, r).value, d, r);
  }

  lemma {:induction false} PathReadingsAgree(s: string, i: nat, d: Dialect, r: Reading)
    requires d.Valid() && Plausible(r, d) && i <= |s| && Reach(s, d, i, |s|)
    requires r.nests ==> NoSlashClose(s, i, d)
    ensures Semicolons(s, i, d).Ok?
    ensures ReadSemicolons(s, i, d, r) == Some(Semicolons(s, i, d).value)
    decreases |s| - i
  {
    if i < |s| {
      PathReadingsAgree(s, Step(s, i, d).value, d, r);
      ReadingAfterStep(s, i, d, r);
    }
  }

  /**
   Fail closed: in a text the scanner accepts, every plausible reading sees the same top-level `;`,
   there is at most one, and only white space and comments follow it.
   */
  lemma AcceptedTextHasOneReading(s: string, d: Dialect, r: Reading)
    requires d.Valid() && Plausible(r, d) && ScanResult(s, d).Ok?
    requires r.nests ==> NoSlashClose(s, 0, d)
    ensures ReadSemicolons(s, 0, d, r).Some?
    ensures var semis := ReadSemicolons(s, 0, d, r).value;
            || semis == []
            || (|semis| == 1 && semis[0] < |s| && s[semis[0]] == ';' && OnlyTrivia(s, semis[0] + 1, d))
    ensures Ok(ReadSemicolons(s, 0, d, r).value) == Semicolons(s, 0, d)
  {
    ScanAcceptsIff(s, 0, 0, d);
    PathReadingsAgree(s, 0, d, r);
  }

  // ----- the side condition cannot be dropped

  /** A comment whose body is one slash, then a string literal that holds comment ends and a `;`. */
  const SLASH_CLOSE_TEXT := "a/*/*/'*/*/;--'"

  /**
   On this text the scanner sees no `;` at all and accepts; a nesting reading, plausible otherwise,
   sees one. `NoSlashClose` is the exact guard (see `NestingAgreesIff`).
   */
  lemma NestingReadingDisagrees(d: Dialect, r: Reading)
    requires d.Valid() && Plausible(r, d) && r.nests
    ensures ScanResult(SLASH_CLOSE_TEXT, d) == Ok(15) && Semicolons(SLASH_CLOSE_TEXT, 0, d) == Ok([])
    ensures !NoSlashClose(SLASH_CLOSE_TEXT, 0, d)
    ensures ReadSemicolons(SLASH_CLOSE_TEXT, 0, d, r) == Some([11])
  {
    var s := SLASH_CLOSE_TEXT;
    ScannerOnSlashClose(d);
    SecondLevelOpens();
    ReadingAfterSecondLevel(d, r);
    CommentsOpenAlike(s, 1, d, r);
    assert ReadLexemeEnd(s, 1, d, r) == Some(11);
    assert ReadSemicolons(s, 1, d, r) == Some([11]);
    OthersArePlain(s, 0, d, r);
  }

  lemma SecondLevelOpens()
    ensures ReadBlockEnd(SLASH_CLOSE_TEXT, 3, 1, true) == Some(11)
  {
    var s := SLASH_CLOSE_TEXT;
    assert ReadBlockEnd(s, 9, 1, true) == Some(11);
    assert ReadBlockEnd(s, 6, 2, true) == Some(11);
    assert ReadBlockEnd(s, 5, 2, true) == Some(11);
  }

  lemma ReadingAfterSecondLevel(d: Dialect, r: Reading)
    requires d.Valid() && Plausible(r, d)
    ensures ReadSemicolons(SLASH_CLOSE_TEXT, 11, d, r) == Some([11])
  {
    var s := SLASH_CLOSE_TEXT;
    assert ReadLineEnd(s, 15, r) == 15;
    assert ReadLineEnd(s, 14, r) == 15;
    assert ReadLineEnd(s, 13, r) == 15;
    CommentsOpenAlike(s, 12, d, r);
    assert OpeningAt(s, 12, d, r) == Line && ReadLexemeEnd(s, 12, d, r) == Some(15);
    assert ReadSemicolons(s, 12, d, r) == Some([]);
    OthersArePlain(s, 11, d, r);
    assert [11] + [] == [11];
  }

  lemma LiteralOfSlashClose(d: Dialect)
    requires d.Valid()
    ensures LiteralEnd(SLASH_CLOSE_TEXT, 6, d) == Ok(Some(15))
  {
    var s := SLASH_CLOSE_TEXT;
    var q := Delimiter('\'', 1);
    EscapedOfSlashClose(q);
    assert PrefixStart(s, 6, d) == 6 && s[6..6] == "";
    assert s[7] != '\'' && QuoteDelimiter(s, 6, d) == q;
  }

  lemma EscapedOfSlashClose(q: Delimiter)
    requires q == Delimiter('\'', 1)
    ensures EscapedEnd(SLASH_CLOSE_TEXT, 7, q, StringLiteral, 6) == Ok(15)
  {
    var s := SLASH_CLOSE_TEXT;
    assert EscapedEnd(s, 14, q, StringLiteral, 6) == Ok(15);
    assert EscapedEnd(s, 11, q, StringLiteral, 6) == Ok(15);
    assert EscapedEnd(s, 9, q, StringLiteral, 6) == Ok(15);
  }

  lemma CommentOfSlashClose()
    ensures BlockCommentEnd(SLASH_CLOSE_TEXT, 1) == Ok(6)
  {
    var s := SLASH_CLOSE_TEXT;
    assert FirstPair(s, 4, 15, '*', '/') == 4;
    assert FirstPair(s, 3, 4, '/', '*') == 4;
  }

  lemma ScannerOnSlashClose(d: Dialect)
    requires d.Valid()
    ensures var s := SLASH_CLOSE_TEXT;
            && Step(s, 0, d) == Ok(1) && Step(s, 1, d) == Ok(6) && Step(s, 6, d) == Ok(15)
            && ScanResult(s, d) == Ok(15) && Semicolons(s, 0, d) == Ok([]) && !NoSlashClose(s, 0, d)
  {
    var s := SLASH_CLOSE_TEXT;
    CommentOfSlashClose();
    LiteralOfSlashClose(d);
    assert TokenAt(s, 0, d) == Solid(Ok(1)) && TokenAt(s, 1, d) == Trivia(6) && TokenAt(s, 6, d) == Solid(Ok(15));
    assert ScanFrom(s, 6, false, 1, d) == Ok(15);
    assert Semicolons(s, 6, d) == Ok([]);
  }
}
