/**
 The lexer as the read gate sees it. `LexerOf` is the one shared with the statement scan; the laws
 at the end are what the walk's own theorems use of it.
 */
module SqlLexer {
  import opened Outcomes
  import opened SqlScope
  import opened SqlPaths
  import opened SqlSlices

  predicate IsWordStart(c: char) { IsAsciiLetter(c) || c == '_' }

  predicate IsWordChar(c: char) { IsWordStart(c) || IsAsciiDigit(c) }

  /** CTE names also admit `$`. */
  predicate IsNameChar(c: char) { IsWordChar(c) || c == '$' }

  predicate CharAt(s: string, i: nat, c: char) { i < |s| && s[i] == c }

  datatype Lexer = Lexer(
    comment: (string, nat) -> Found,
    literal: (string, nat) -> Found,
    isSpace: char -> bool,
    quotesName: char -> bool)
  {
    ghost predicate Ends(s: string, i: nat, r: Found) {
      r.Ok? && r.value.Some? ==> i < r.value.value <= |s|
    }

    ghost predicate Sane() {
      && (forall s: string, i: nat :: i < |s| ==> Ends(s, i, comment(s, i)) && Ends(s, i, literal(s, i)))
      && (forall c :: isSpace(c) ==> !IsMark(c) && !IsNameChar(c))
    }

    function Comment(s: string, i: nat): (r: Found)
      requires Sane() && i < |s|
      ensures r.Ok? && r.value.Some? ==> i < r.value.value <= |s|
    {
      if !IsLexerOpener(s[i]) then Ok(None)
      else
        assert Ends(s, i, comment(s, i));
        comment(s, i)
    }

    function Literal(s: string, i: nat): (r: Found)
      requires Sane() && i < |s|
      ensures r.Ok? && r.value.Some? ==> i < r.value.value <= |s|
    {
      assert Ends(s, i, literal(s, i));
      literal(s, i)
    }

    /** How far a comment or literal at `i` reaches, if one starts there. */
    function Lexeme(s: string, i: nat): (r: Found)
      requires Sane() && i < |s|
      ensures r.Ok? && r.value.Some? ==> i < r.value.value <= |s|
    {
      if !IsLexerOpener(s[i]) then Ok(None)
      else
        var found :- Comment(s, i);
        if found.Some? then Ok(found) else Literal(s, i)
    }

    function Step(s: string, i: nat): (r: Result<nat, Refusal>)
      requires Sane() && i < |s|
      ensures r.Ok? ==> i < r.value <= |s|
    {
      var lexeme :- Lexeme(s, i);
      Ok(if lexeme.Some? then lexeme.value else i + 1)
    }

    ghost predicate Reaches(s: string, i: nat, j: nat)
      requires Sane()
      decreases |s| - i
    {
      i == j || (i < j <= |s| && Step(s, i).Ok? && Reaches(s, Step(s, i).value, j))
    }
  }

  function LexerOf(d: Dialect): Lexer {
    Lexer(
      (s: string, i: nat) => if i < |s| then CommentEnd(s, i, d) else Ok(None),
      (s: string, i: nat) => if i < |s| then LiteralEnd(s, i, d) else Ok(None),
      d.isSpace,
      c => (c == '"' && !d.doubleQuoteIsEscapedString) || (c == '`' && d.backtickIdentifiers))
  }

  lemma LexerOfIsSane(d: Dialect)
    requires d.Valid()
    ensures LexerOf(d).Sane()
  {
  }

  // ----- the laws the walk relies on

  /** Slices start at the text's start, just inside a parenthesis, after a `;`, or at a parenthesis. */
  ghost predicate SliceStart(s: string, a: nat)
    requires a <= |s|
  {
    a == 0 || s[a - 1] == '(' || s[a - 1] == ';' || CharAt(s, a, '(')
  }

  /** Locality at one stop: the slice's lexemes there are those of the whole text. */
  ghost predicate LocalAt(x: Lexer, t: string, s: string, a: nat, i: nat, j: nat)
    requires x.Sane()
  {
    Embeds(t, s, a) && SliceStart(s, a) && i < j <= |t| && x.Reaches(s, a + i, a + j) ==>
      SameLexemes(x, t, s, a, i, a + i)
  }

  ghost predicate SameLexemes(x: Lexer, t: string, s: string, a: nat, i: nat, p: nat)
    requires x.Sane() && i < |t| && p < |s|
  {
    && x.Comment(s, p) == ShiftFound(x.Comment(t, i), a)
    && x.Lexeme(s, p) == ShiftFound(x.Lexeme(t, i), a)
  }

  /** A dollar sign inside a word opens no literal the lexer accepts. */
  ghost predicate NoLiteralInWord(x: Lexer, s: string, i: nat)
    requires x.Sane()
  {
    0 < i < |s| && s[i] == '$' && IsNameChar(s[i - 1]) ==> x.Lexeme(s, i).Ok? ==> x.Lexeme(s, i).value == None
  }

  /** A quoted name opens a literal, never a comment. */
  ghost predicate QuoteOpensName(x: Lexer, s: string, i: nat)
    requires x.Sane()
  {
    i < |s| && x.quotesName(s[i]) ==> IsMark(s[i]) && x.Comment(s, i) == Ok(None) && x.Lexeme(s, i) == x.Literal(s, i)
  }

  ghost predicate Lawful(x: Lexer) {
    && x.Sane()
    && (forall t, s, a: nat, i: nat, j: nat :: LocalAt(x, t, s, a, i, j))
    && (forall s, i: nat :: NoLiteralInWord(x, s, i))
    && (forall s, i: nat :: QuoteOpensName(x, s, i))
  }

  lemma LexemeOf(s: string, i: nat, d: Dialect)
    requires d.Valid() && LexerOf(d).Sane() && i < |s|
    ensures LexerOf(d).Lexeme(s, i) == LexemeEnd(s, i, d)
    ensures LexerOf(d).Comment(s, i) == if IsLexerOpener(s[i]) then CommentEnd(s, i, d) else Ok(None)
    ensures LexerOf(d).Step(s, i) == Step(s, i, d)
  {
  }

  lemma {:induction false} ReachesIsReach(s: string, i: nat, j: nat, d: Dialect)
    requires d.Valid() && LexerOf(d).Sane()
    ensures LexerOf(d).Reaches(s, i, j) == Reach(s, d, i, j)
    decreases |s| - i
  {
    if i < j <= |s| {
      LexemeOf(s, i, d);
      if Step(s, i, d).Ok? {
        ReachesIsReach(s, Step(s, i, d).value, j, d);
      }
    }
  }

  /** No literal prefix reaches into a slice the walk takes. */
  lemma SliceStartIsClear(s: string, a: nat, d: Dialect)
    requires d.Valid() && a <= |s| && SliceStart(s, a)
    ensures ClearStart(s, a, d)
  {
    assert a > 0 && (s[a - 1] == '(' || s[a - 1] == ';') ==> IsMark(s[a - 1]);
  }

  /** The comment half of locality. */
  lemma SharedCommentIsLocal(t: string, s: string, a: nat, i: nat, p: nat, d: Dialect)
    requires d.Valid() && LexerOf(d).Sane() && p == a + i && i < |t| && p < |s| && t[i] == s[p]
    requires CommentEnd(s, p, d) == ShiftFound(CommentEnd(t, i, d), a)
    ensures LexerOf(d).Comment(s, p) == ShiftFound(LexerOf(d).Comment(t, i), a)
  {
    LexemeOf(s, p, d);
    LexemeOf(t, i, d);
  }

  /** The whole-lexeme half. */
  lemma SharedLexemeIsLocal(t: string, s: string, a: nat, i: nat, p: nat, d: Dialect)
    requires d.Valid() && LexerOf(d).Sane() && p == a + i && i < |t| && p < |s|
    requires LexemeEnd(s, p, d) == ShiftFound(LexemeEnd(t, i, d), a)
    ensures LexerOf(d).Lexeme(s, p) == ShiftFound(LexerOf(d).Lexeme(t, i), a)
  {
    LexemeOf(s, p, d);
    LexemeOf(t, i, d);
  }

  /** At a stop inside a clear slice both lexers see the same lexeme. */
  lemma SameLexemeEnds(t: string, s: string, a: nat, i: nat, j: nat, p: nat, end: nat, d: Dialect)
    requires d.Valid() && Embeds(t, s, a) && ClearStart(s, a, d) && i < j <= |t| && p == a + i && end == a + j
    requires Reach(s, d, p, end)
    ensures t[i] == s[p]
    ensures CommentEnd(s, p, d) == ShiftFound(CommentEnd(t, i, d), a)
    ensures LexemeEnd(s, p, d) == ShiftFound(LexemeEnd(t, i, d), a)
  {
    assert t[i] == s[a + i];
    StepRestrictBefore(t, s, a, i, j, d);
  }

  lemma SharedStopIsLocal(t: string, s: string, a: nat, i: nat, j: nat, p: nat, end: nat, d: Dialect)
    requires d.Valid() && LexerOf(d).Sane() && Embeds(t, s, a) && SliceStart(s, a)
    requires i < j <= |t| && p == a + i && end == a + j && LexerOf(d).Reaches(s, p, end)
    ensures SameLexemes(LexerOf(d), t, s, a, i, p)
  {
    SliceStartIsClear(s, a, d);
    ReachesIsReach(s, p, end, d);
    SameLexemeEnds(t, s, a, i, j, p, end, d);
    SharedCommentIsLocal(t, s, a, i, p, d);
    SharedLexemeIsLocal(t, s, a, i, p, d);
  }

  lemma SharedLexerIsLocal(t: string, s: string, a: nat, i: nat, j: nat, d: Dialect)
    requires d.Valid() && LexerOf(d).Sane()
    ensures LocalAt(LexerOf(d), t, s, a, i, j)
  {
    if Embeds(t, s, a) && SliceStart(s, a) && i < j <= |t| && LexerOf(d).Reaches(s, a + i, a + j) {
      SharedStopIsLocal(t, s, a, i, j, a + i, a + j, d);
    }
  }

  lemma SharedLexerRefusesGluedDollar(s: string, i: nat, d: Dialect)
    requires d.Valid() && LexerOf(d).Sane()
    ensures NoLiteralInWord(LexerOf(d), s, i)
  {
    if 0 < i < |s| && s[i] == '$' && IsNameChar(s[i - 1]) {
      LexemeOf(s, i, d);
      assert d.IsIdentifierChar(s[i - 1]);
    }
  }

  /** The shared lexer obeys the laws, on every valid dialect. */
  lemma SharedLexerIsLawful(d: Dialect)
    requires d.Valid()
    ensures Lawful(LexerOf(d))
  {
    LexerOfIsSane(d);
    forall t, s, a: nat, i: nat, j: nat
      ensures LocalAt(LexerOf(d), t, s, a, i, j)
    {
      SharedLexerIsLocal(t, s, a, i, j, d);
    }
    forall s, i: nat
      ensures NoLiteralInWord(LexerOf(d), s, i)
    {
      SharedLexerRefusesGluedDollar(s, i, d);
    }
    forall s, i: nat
      ensures QuoteOpensName(LexerOf(d), s, i)
    {
      if i < |s| && LexerOf(d).quotesName(s[i]) {
        LexemeOf(s, i, d);
        assert CommentEnd(s, i, d) == Ok(None);
      }
    }
  }
}
