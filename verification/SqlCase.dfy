/**
 The case of ASCII letters never matters: texts that differ in nothing else get the same answer from
 the statement scan, the read gate and the wrap rule, refusals and offsets included.
 */
module SqlCase {
  import opened Outcomes
  import opened SqlScope
  import opened SqlReadings
  import opened SqlPaths
  import opened SqlWrap
  import opened SqlLexer
  import opened SqlKeywords
  import SqlCut

  /** The same letter, one of the two a capital. */
  predicate SameLetter(c: char, c': char) { IsCapitalOf(c, c') || IsCapitalOf(c', c) }

  /** The texts differ in the case of ASCII letters only. */
  predicate CaseApart(s: string, s': string) {
    |s| == |s'| && forall k :: 0 <= k < |s| ==> s[k] == s'[k] || SameLetter(s[k], s'[k])
  }

  lemma SlicesCaseApart(s: string, s': string, i: nat, j: nat)
    requires CaseApart(s, s') && i <= j <= |s|
    ensures CaseApart(s[i..j], s'[i..j])
  {
  }

  // ----- searching

  predicate HasNoLetter(cs: set<char>) { forall c <- cs :: !IsAsciiLetter(c) }

  lemma {:induction false} SameFirst(s: string, s': string, i: nat, hi: nat, cs: set<char>)
    requires CaseApart(s, s') && i <= hi <= |s| && HasNoLetter(cs)
    ensures FirstIn(s, i, hi, cs) == FirstIn(s', i, hi, cs)
    decreases hi - i
  {
    if i < hi {
      SameFirst(s, s', i + 1, hi, cs);
    }
  }

  lemma {:induction false} SameBareCr(s: string, s': string, i: nat, hi: nat)
    requires CaseApart(s, s') && i <= hi <= |s|
    ensures FirstBareCr(s, i, hi) == FirstBareCr(s', i, hi)
    decreases hi - i
  {
    if i < hi {
      SameBareCr(s, s', i + 1, hi);
    }
  }

  lemma {:induction false} SamePair(s: string, s': string, i: nat, hi: nat, a: char, b: char)
    requires CaseApart(s, s') && i <= hi <= |s| && !IsAsciiLetter(a) && !IsAsciiLetter(b)
    ensures FirstPair(s, i, hi, a, b) == FirstPair(s', i, hi, a, b)
    decreases hi - i
  {
    if i < hi {
      SamePair(s, s', i + 1, hi, a, b);
    }
  }

  // ----- comments

  lemma SameLineEnd(s: string, s': string, i: nat, d: Dialect)
    requires d.Valid() && CaseApart(s, s') && i < |s|
    ensures LineCommentEnd(s, i, d) == LineCommentEnd(s', i, d)
  {
    var ends := d.lineCommentTerminators;
    var t := FirstIn(s, i, |s|, ends);
    var end := if t == |s| then |s| else t + 1;
    SameFirst(s, s', i, |s|, ends);
    SameFirst(s, s', i, end, LINE_SEPARATORS);
    SameBareCr(s, s', i, end);
    SameMarks(s, s', i, t);
    var separator := FirstIn(s, i, end, LINE_SEPARATORS);
    var bareCr := if '\r' in ends then end else FirstBareCr(s, i, end);
    LineEndByParts(s, i, t, end, separator, bareCr, d);
    LineEndByParts(s', i, t, end, separator, bareCr, d);
  }

  lemma LineEndByParts(s: string, i: nat, t: nat, end: nat, separator: nat, bareCr: nat, d: Dialect)
    requires i < |s| && t == FirstIn(s, i, |s|, d.lineCommentTerminators) && end == if t == |s| then |s| else t + 1
    requires separator == FirstIn(s, i, end, LINE_SEPARATORS)
    requires bareCr == if '\r' in d.lineCommentTerminators then end else FirstBareCr(s, i, end)
    ensures LineCommentEnd(s, i, d) == LineEndFrom(s, i, t, end, separator, bareCr)
  {
  }

  /** The rules on a line comment, by the results of its searches. */
  function LineEndFrom(s: string, i: nat, t: nat, end: nat, separator: nat, bareCr: nat): Result<nat, Refusal>
    requires i <= t <= |s|
  {
    if separator < end then Refused(SeparatorInLineComment(separator))
    else if bareCr < end then Refused(BareCarriageReturn(bareCr))
    else if t == |s| then Ok(end)
    else
      var before := if s[t] == '\n' && t - 1 > i && s[t - 1] == '\r' then t - 2 else t - 1;
      if before > i && s[before] == '\\' then Refused(BackslashEndsLineComment(before)) else Ok(end)
  }

  /** What the comment rules look at around a terminator. */
  lemma SameMarks(s: string, s': string, i: nat, t: nat)
    requires CaseApart(s, s') && i <= t <= |s|
    ensures t < |s| ==> (s[t] == '\n') == (s'[t] == '\n')
    ensures 0 < t ==> (s[t - 1] == '\r') == (s'[t - 1] == '\r') && (s[t - 1] == '\\') == (s'[t - 1] == '\\')
    ensures 1 < t ==> (s[t - 2] == '\\') == (s'[t - 2] == '\\')
  {
  }

  lemma SameBlockEnd(s: string, s': string, i: nat)
    requires CaseApart(s, s') && PairAt(s, i, '/', '*')
    ensures PairAt(s', i, '/', '*') && BlockCommentEnd(s, i) == BlockCommentEnd(s', i)
  {
    var close := FirstPair(s, i + 2, |s|, '*', '/');
    SamePair(s, s', i + 2, |s|, '*', '/');
    SamePair(s, s', i + 2, close, '/', '*');
  }

  lemma SameComment(s: string, s': string, i: nat, d: Dialect)
    requires d.Valid() && CaseApart(s, s') && i < |s|
    ensures CommentEnd(s, i, d) == CommentEnd(s', i, d)
  {
    if OpensLineComment(s, i, d) {
      SameLineEnd(s, s', i, d);
    } else if PairAt(s, i, '/', '*') {
      SameBlockEnd(s, s', i);
    }
  }

  // ----- literals

  lemma SameDelimiter(s: string, s': string, i: nat, q: Delimiter)
    requires CaseApart(s, s') && !IsAsciiLetter(q.c)
    ensures DelimiterAt(s, i, q) == DelimiterAt(s', i, q) && DoubledAt(s, i, q) == DoubledAt(s', i, q)
  {
  }

  lemma {:induction false} SameEscapedEnd(s: string, s': string, i: nat, q: Delimiter, form: Form, opener: int)
    requires CaseApart(s, s') && q.n > 0 && !IsAsciiLetter(q.c)
    ensures EscapedEnd(s, i, q, form, opener) == EscapedEnd(s', i, q, form, opener)
    decreases |s| - i
  {
    if i < |s| {
      SameDelimiter(s, s', i, q);
      SameEscapedEnd(s, s', i + 1, q, form, opener);
      SameEscapedEnd(s, s', i + 2, q, form, opener);
    }
  }

  lemma {:induction false} SameFind(s: string, s': string, i: nat, q: Delimiter)
    requires CaseApart(s, s') && q.n > 0 && !IsAsciiLetter(q.c)
    ensures FindDelimiter(s, i, q) == FindDelimiter(s', i, q)
    decreases |s| - i
  {
    if i < |s| {
      SameDelimiter(s, s', i, q);
      SameFind(s, s', i + 1, q);
    }
  }

  lemma {:induction false} SameRun(s: string, s': string, lo: nat, c: nat)
    requires CaseApart(s, s') && c <= |s|
    ensures BackslashRun(s, lo, c) == BackslashRun(s', lo, c)
  {
    if c > lo {
      SameRun(s, s', lo, c - 1);
    }
  }

  lemma {:induction false} SameUnescapedEnd(
    s: string, s': string, body: nat, i: nat, q: Delimiter, form: Form, opener: int)
    requires CaseApart(s, s') && q.n > 0 && !IsAsciiLetter(q.c)
    ensures UnescapedEnd(s, body, i, q, form, opener) == UnescapedEnd(s', body, i, q, form, opener)
    decreases |s| - i
  {
    var close := FindDelimiter(s, i, q);
    SameFind(s, s', i, q);
    if close < |s| {
      SameRun(s, s', body, close);
      SameDelimiter(s, s', close, q);
      if BackslashRun(s, body, close) % 2 == 0 {
        UnescapedUnfolds(s, body, i, close, q, form, opener, DoubledAt(s, close, q));
        UnescapedUnfolds(s', body, i, close, q, form, opener, DoubledAt(s', close, q));
        if DoubledAt(s, close, q) {
          SameUnescapedEnd(s, s', body, close + 2, q, form, opener);
        }
      }
    }
  }

  lemma SameFormEnd(s: string, s': string, body: nat, q: Delimiter, form: Form)
    requires CaseApart(s, s') && q.n > 0 && !IsAsciiLetter(q.c)
    ensures FormEnd(s, body, q, form) == FormEnd(s', body, q, form)
  {
    if IsEscapedForm(form) {
      SameEscapedEnd(s, s', body, q, form, body - q.n);
    } else {
      SameUnescapedEnd(s, s', body, body, q, form, body - q.n);
    }
  }

  lemma {:induction false} SamePrefix(s: string, s': string, i: nat, d: Dialect)
    requires d.Valid() && CaseApart(s, s') && i <= |s|
    ensures PrefixStart(s, i, d) == PrefixStart(s', i, d)
  {
    if i > 0 {
      SamePrefix(s, s', i - 1, d);
    }
  }

  lemma {:induction false} SameLower(t: string, t': string)
    requires CaseApart(t, t')
    ensures Lower(t) == Lower(t')
  {
    if t != "" {
      SlicesCaseApart(t, t', 1, |t|);
      SameLower(t[1..], t'[1..]);
    }
  }

  lemma SameQuotedEnd(s: string, s': string, i: nat, d: Dialect)
    requires d.Valid() && CaseApart(s, s') && i < |s| && (s[i] == '\'' || s[i] == '"')
    ensures s'[i] == s[i] && QuotedEnd(s, i, d) == QuotedEnd(s', i, d)
  {
    var start, q := PrefixStart(s, i, d), QuoteDelimiter(s, i, d);
    SamePrefix(s, s', i, d);
    SlicesCaseApart(s, s', start, i);
    SameLower(s[start..i], s'[start..i]);
    SameDelimiter(s, s', i, Delimiter(s[i], 3));
    var form := FormOf(Lower(s[start..i]), q, d);
    if form.Some? {
      SameFormEnd(s, s', i + q.n, q, form.value);
    }
  }

  lemma SameLiteral(s: string, s': string, i: nat, d: Dialect)
    requires d.Valid() && CaseApart(s, s') && i < |s|
    ensures LiteralEnd(s, i, d) == LiteralEnd(s', i, d)
  {
    if s[i] == '\'' || s[i] == '"' {
      SameQuotedEnd(s, s', i, d);
    } else if s[i] == '`' {
      SameFormEnd(s, s', i + 1, Delimiter('`', 1), QuotedIdentifier);
    } else if PairAt(s, i, '$', '$') {
      SamePrefix(s, s', i, d);
      SameFormEnd(s, s', i + 2, Delimiter('$', 2), DollarString);
    }
  }

  // ----- the scan

  lemma SameToken(s: string, s': string, i: nat, d: Dialect)
    requires d.Valid() && CaseApart(s, s') && i < |s|
    ensures TokenAt(s, i, d) == TokenAt(s', i, d)
  {
    SameComment(s, s', i, d);
    SameLiteral(s, s', i, d);
    assert s[i] != s'[i] ==> IsAsciiLetter(s[i]) && IsAsciiLetter(s'[i]);
  }

  lemma {:induction false} SameScan(s: string, s': string, i: nat, seen: bool, end: nat, d: Dialect)
    requires d.Valid() && CaseApart(s, s') && end <= i <= |s|
    ensures ScanFrom(s, i, seen, end, d) == ScanFrom(s', i, seen, end, d)
    decreases |s| - i
  {
    if i < |s| {
      SameToken(s, s', i, d);
      match TokenAt(s, i, d)
      case Trivia(next) => SameScan(s, s', next, seen, end, d);
      case Semicolon => SameScan(s, s', i + 1, true, end, d);
      case Solid(r) =>
        if r.Ok? {
          SameScan(s, s', r.value, seen, r.value, d);
        }
      case BadComment(_) =>
    }
  }

  lemma SameVerdict(s: string, s': string, d: Dialect)
    requires d.Valid() && CaseApart(s, s')
    ensures ScanResult(s, d) == ScanResult(s', d) && IsSingleStatement(s, d) == IsSingleStatement(s', d)
  {
    SameScan(s, s', 0, false, 0, d);
  }

  // ----- lexers that do not look at case

  ghost predicate SameAt(x: Lexer, s: string, s': string, i: nat)
    requires x.Sane() && i < |s| && |s| == |s'|
  {
    x.Comment(s, i) == x.Comment(s', i) && x.Lexeme(s, i) == x.Lexeme(s', i) && x.Literal(s, i) == x.Literal(s', i)
  }

  ghost predicate Blind(x: Lexer) {
    && x.Sane()
    && (forall s, s', i: nat :: CaseApart(s, s') && i < |s| ==> SameAt(x, s, s', i))
    && (forall c :: IsAsciiLetter(c) ==> !x.quotesName(c))
  }

  lemma SharedLexerIsBlind(d: Dialect)
    requires d.Valid() && LexerOf(d).Sane()
    ensures Blind(LexerOf(d))
  {
    var x := LexerOf(d);
    forall s, s', i: nat | CaseApart(s, s') && i < |s|
      ensures SameAt(x, s, s', i)
    {
      SameComment(s, s', i, d);
      SameLiteral(s, s', i, d);
      LexemeOf(s, i, d);
      LexemeOf(s', i, d);
    }
  }

  // ----- words

  lemma {:induction false} SameWordEnd(s: string, s': string, i: nat)
    requires CaseApart(s, s') && i <= |s|
    ensures WordEnd(s, i) == WordEnd(s', i) && NameEnd(s, i) == NameEnd(s', i)
    decreases |s| - i
  {
    if i < |s| {
      SameWordEnd(s, s', i + 1);
    }
  }

  lemma SameUpper(t: string, t': string)
    requires CaseApart(t, t')
    ensures Upper(t) == Upper(t')
  {
  }

  lemma SameWord(s: string, s': string, i: nat)
    requires CaseApart(s, s') && i <= |s|
    ensures WordAt(s, i) == WordAt(s', i)
  {
    SameWordEnd(s, s', i);
    SlicesCaseApart(s, s', i, WordEnd(s, i));
    SameUpper(s[i..WordEnd(s, i)], s'[i..WordEnd(s, i)]);
  }

  // ----- the walk

  lemma {:induction false} SameTrivia(s: string, s': string, i: nat, parens: bool, x: Lexer)
    requires Blind(x) && CaseApart(s, s') && i <= |s|
    ensures TriviaEnd(s, i, parens, x) == TriviaEnd(s', i, parens, x)
    decreases |s| - i
  {
    if i < |s| {
      assert SameAt(x, s, s', i);
      if x.isSpace(s[i]) || (parens && s[i] == '(') {
        SameTrivia(s, s', i + 1, parens, x);
      } else if x.Comment(s, i).Ok? && x.Comment(s, i).value.Some? {
        SameTrivia(s, s', x.Comment(s, i).value.value, parens, x);
      }
    }
  }

  lemma SameFirstKeyword(s: string, s': string, x: Lexer)
    requires Blind(x) && CaseApart(s, s')
    ensures FirstKeyword(s, x) == FirstKeyword(s', x)
  {
    SameTrivia(s, s', 0, true, x);
    if TriviaEnd(s, 0, true, x).Ok? {
      SameWord(s, s', TriviaEnd(s, 0, true, x).value);
    }
  }

  lemma {:induction false} SameGroup(s: string, s': string, i: nat, depth: int, open: nat, x: Lexer)
    requires Blind(x) && CaseApart(s, s') && i <= |s|
    ensures GroupFrom(s, i, depth, open, x) == GroupFrom(s', i, depth, open, x)
    decreases |s| - i
  {
    if i < |s| {
      assert SameAt(x, s, s', i);
      var skipped := x.Lexeme(s, i);
      if skipped.Ok? {
        if skipped.value.Some? {
          SameGroup(s, s', skipped.value.value, depth, open, x);
        } else {
          var depth' := if s[i] == '(' then depth + 1 else if s[i] == ')' then depth - 1 else depth;
          SameGroup(s, s', i + 1, depth', open, x);
        }
      }
    }
  }

  lemma SameNameEnd(s: string, s': string, i: nat, x: Lexer)
    requires Blind(x) && CaseApart(s, s') && i <= |s|
    ensures CteNameEnd(s, i, x) == CteNameEnd(s', i, x)
  {
    SameWordEnd(s, s', i);
    if i < |s| {
      assert SameAt(x, s, s', i);
    }
  }

  lemma SameCteBody(s: string, s': string, i: nat, x: Lexer)
    requires Blind(x) && CaseApart(s, s') && i <= |s|
    ensures CteBody(s, i, x) == CteBody(s', i, x)
  {
    SameWord(s, s', i);
    if WordAt(s, i) == Some("AS") {
      SameTrivia(s, s', i + 2, false, x);
      var open := TriviaEnd(s, i + 2, false, x);
      if open.Ok? && CharAt(s, open.value, '(') {
        SameGroup(s, s', open.value, 0, open.value, x);
      }
    }
  }

  lemma SameAfterName(s: string, s': string, e: nat, x: Lexer)
    requires Blind(x) && CaseApart(s, s') && e <= |s|
    ensures TriviaEnd(s, e, false, x) == TriviaEnd(s', e, false, x)
    ensures var j := TriviaEnd(s, e, false, x);
            j.Ok? ==>
              && CharAt(s, j.value, '(') == CharAt(s', j.value, '(')
              && CteBody(s, j.value, x) == CteBody(s', j.value, x)
              && (CharAt(s, j.value, '(') ==> GroupEnd(s, j.value, x) == GroupEnd(s', j.value, x))
  {
    SameTrivia(s, s', e, false, x);
    var j := TriviaEnd(s, e, false, x);
    if j.Ok? {
      SameCteBody(s, s', j.value, x);
      if CharAt(s, j.value, '(') {
        SameGroup(s, s', j.value, 0, j.value, x);
      }
    }
  }

  lemma SameCte(s: string, s': string, i: nat, x: Lexer)
    requires Blind(x) && CaseApart(s, s') && i <= |s|
    ensures CteAt(s, i, x) == CteAt(s', i, x)
  {
    SameNameEnd(s, s', i, x);
    var name := CteNameEnd(s, i, x);
    if name.Ok? && name.value.Some? {
      SameAfterName(s, s', name.value.value, x);
      var j := TriviaEnd(s, name.value.value, false, x);
      if j.Ok? && CharAt(s, j.value, '(') && GroupEnd(s, j.value, x).Ok? {
        SameAfterName(s, s', GroupEnd(s, j.value, x).value, x);
      }
    }
  }

  lemma SameListStart(s: string, s': string, index: nat, x: Lexer)
    requires Blind(x) && CaseApart(s, s') && index <= |s|
    ensures ListStart(s, index, x) == ListStart(s', index, x)
  {
    SameTrivia(s, s', index, false, x);
    var i := TriviaEnd(s, index, false, x);
    if i.Ok? {
      SameWord(s, s', i.value);
      if WordAt(s, i.value) == Some("RECURSIVE") {
        SameTrivia(s, s', i.value + 9, false, x);
      }
    }
  }

  /** The walk, refusals and offsets included. */
  lemma {:induction false} SameResolve(s: string, s': string, x: Lexer, base: nat, depth: nat)
    requires Blind(x) && CaseApart(s, s')
    ensures Resolve(s, x, base, depth) == Resolve(s', x, base, depth)
    decreases |s|, 2 * |s| + 5
  {
    SameFirstKeyword(s, s', x);
    var first := FirstKeyword(s, x);
    if first.Ok? && first.value.0 == Some("WITH") {
      SameMainKeyword(s, s', first.value.1 + 4, x, base, depth);
    }
  }

  lemma {:induction false} SameMainKeyword(s: string, s': string, index: nat, x: Lexer, base: nat, depth: nat)
    requires Blind(x) && CaseApart(s, s') && index <= |s|
    ensures MainKeyword(s, index, x, base, depth) == MainKeyword(s', index, x, base, depth)
    decreases |s|, 2 * |s| + 4
  {
    SameListStart(s, s', index, x);
    var i := ListStart(s, index, x);
    if i.Ok? {
      SameCteList(s, s', i.value, x, base, depth);
    }
  }

  lemma {:induction false} SameCteList(s: string, s': string, i: nat, x: Lexer, base: nat, depth: nat)
    requires Blind(x) && CaseApart(s, s') && i <= |s|
    ensures CteList(s, i, x, base, depth) == CteList(s', i, x, base, depth)
    decreases |s|, 2 * (|s| - i) + 3
  {
    var turn := CteTurn(s, i, x, base, depth);
    SameCte(s, s', i, x);
    SameTurn(s, s', CteAt(s, i, x), x, base, depth);
    if turn.Ok? && turn.value.Next? {
      SameCteList(s, s', turn.value.index, x, base, depth);
    }
  }

  lemma {:induction false} SameTurn(
    s: string, s': string, cte: Result<CteShape, Refusal>, x: Lexer, base: nat, depth: nat)
    requires Blind(x) && CaseApart(s, s') && IsShapeOf(cte, s)
    ensures IsShapeOf(cte, s') && TurnAfter(s, cte, x, base, depth) == TurnAfter(s', cte, x, base, depth)
    decreases |s|, 1
  {
    SameThrough(s, s', cte, x, base, depth);
    var through := ThroughBody(s, cte, x, base, depth);
    if through.Ok? && through.value.Through? {
      SameAfterBody(s, s', through.value.close, x, base, depth);
    }
  }

  lemma {:induction false} SameThrough(
    s: string, s': string, cte: Result<CteShape, Refusal>, x: Lexer, base: nat, depth: nat)
    requires Blind(x) && CaseApart(s, s') && IsShapeOf(cte, s)
    ensures IsShapeOf(cte, s') && ThroughBody(s, cte, x, base, depth) == ThroughBody(s', cte, x, base, depth)
    decreases |s|, 0
  {
    if cte.Ok? && cte.value.BodyGroup? {
      var open, close := cte.value.open, cte.value.close;
      var b, b', lo := s[open + 1..close - 1], s'[open + 1..close - 1], base + open + 1;
      SlicesCaseApart(s, s', open + 1, close - 1);
      SameResolve(b, b', x, lo, depth + 1);
      var body := Resolve(b, x, lo, depth + 1);
      BodyIsWalk(s, cte, open, close, b, body, x, base, lo, depth);
      BodyIsWalk(s', cte, open, close, b', body, x, base, lo, depth);
    }
  }

  /** What the walk of a body makes of the passage through it. */
  function Passed(body: Walk, open: nat, close: nat): Result<Passage, Refusal> {
    match body
    case Ok(found) => Ok(if IsQueryKeyword(found.0) then Through(close) else Halt(open + 1 + found.1))
    case Refused(e) => Refused(e)
  }

  lemma BodyIsWalk(
    s: string, cte: Result<CteShape, Refusal>, open: nat, close: nat, b: string, body: Walk, x: Lexer, base: nat,
    lo: nat, depth: nat)
    requires x.Sane() && IsShapeOf(cte, s) && cte == Ok(BodyGroup(open, close))
    requires b == s[open + 1..close - 1] && lo == base + open + 1 && body == Resolve(b, x, lo, depth + 1)
    ensures ThroughBody(s, cte, x, base, depth) == Passed(body, open, close)
  {
  }

  lemma {:induction false} SameAfterBody(s: string, s': string, close: nat, x: Lexer, base: nat, depth: nat)
    requires Blind(x) && CaseApart(s, s') && 0 < close <= |s|
    ensures AfterBody(s, close, x, base, depth) == AfterBody(s', close, x, base, depth)
    decreases |s|, 0
  {
    SameTrivia(s, s', close, false, x);
    var r := TriviaEnd(s, close, false, x);
    if r.Ok? {
      var n := r.value;
      if CharAt(s, n, '(') {
        var next := base + n;
        SlicesCaseApart(s, s', n, |s|);
        SameResolve(s[n..], s'[n..], x, next, depth + 1);
        var main := Resolve(s[n..], x, next, depth + 1);
        SqlCut.ParenAfterBody(s, close, n, main, x, base, next, depth);
        SqlCut.ParenAfterBody(s', close, n, main, x, base, next, depth);
      } else {
        SameCommaOrWord(s, s', close, n, x, base, depth);
      }
    }
  }

  lemma SameCommaOrWord(s: string, s': string, close: nat, n: nat, x: Lexer, base: nat, depth: nat)
    requires Blind(x) && CaseApart(s, s') && 0 < close <= |s| && !CharAt(s, n, '(')
    requires TriviaEnd(s, close, false, x) == TriviaEnd(s', close, false, x) == Ok(n)
    ensures AfterBody(s, close, x, base, depth) == AfterBody(s', close, x, base, depth)
  {
    SameWord(s, s', n);
    if CharAt(s, n, ',') {
      SameTrivia(s, s', n + 1, false, x);
    }
    PlainAfterBody(s, close, n, x, base, depth);
    PlainAfterBody(s', close, n, x, base, depth);
  }

  /** Without a parenthesised main statement the walk does not go deeper. */
  lemma PlainAfterBody(s: string, close: nat, n: nat, x: Lexer, base: nat, depth: nat)
    requires x.Sane() && 0 < close <= |s| && TriviaEnd(s, close, false, x) == Ok(n) && !CharAt(s, n, '(')
    ensures n <= |s| && AfterBody(s, close, x, base, depth) == PlainTurn(s, n, x)
  {
  }

  function PlainTurn(s: string, n: nat, x: Lexer): Result<Turn, Refusal>
    requires x.Sane() && n <= |s|
  {
    if CharAt(s, n, ',') then
      var next :- TriviaEnd(s, n + 1, false, x);
      Ok(Next(next))
    else Ok(Answer(WordAt(s, n), n))
  }

  // ----- the gates

  lemma {:induction false} SameSegments(s: string, s': string, start: nat, i: nat, x: Lexer)
    requires Blind(x) && CaseApart(s, s') && start <= i <= |s|
    ensures SegmentsFrom(s, start, i, x) == SegmentsFrom(s', start, i, x)
    decreases |s| - i
  {
    if i < |s| {
      assert SameAt(x, s, s', i);
      var skipped := x.Lexeme(s, i);
      if skipped.Ok? {
        if skipped.value.Some? {
          SameSegments(s, s', start, skipped.value.value, x);
        } else {
          SameSegments(s, s', if s[i] == ';' then i + 1 else start, i + 1, x);
        }
      }
    }
  }

  lemma SameCheck(t: string, t': string, base: nat, x: Lexer)
    requires Blind(x) && CaseApart(t, t')
    ensures CheckStatement(t, base, x) == CheckStatement(t', base, x)
  {
    SameFirstKeyword(t, t', x);
    var first := FirstKeyword(t, x);
    if first.Ok? && first.value.0 == Some("WITH") {
      SameMainKeyword(t, t', first.value.1 + 4, x, base, 1);
    }
  }

  lemma {:induction false} SameNonBlank(s: string, s': string, segments: seq<(nat, nat)>, x: Lexer)
    requires Blind(x) && CaseApart(s, s')
    requires forall k :: 0 <= k < |segments| ==> segments[k].0 <= segments[k].1 <= |s|
    ensures NonBlank(s, segments, x) == NonBlank(s', segments, x)
  {
    if segments != [] {
      var (start, end) := segments[0];
      SlicesCaseApart(s, s', start, end);
      SameTrivia(s[start..end], s'[start..end], 0, false, x);
      SameNonBlank(s, s', segments[1..], x);
    }
  }

  lemma {:induction false} SameCheckSegments(s: string, s': string, segments: seq<(nat, nat)>, x: Lexer)
    requires Blind(x) && CaseApart(s, s')
    requires forall k :: 0 <= k < |segments| ==> segments[k].0 <= segments[k].1 <= |s|
    ensures CheckSegments(s, segments, x) == CheckSegments(s', segments, x)
  {
    if segments != [] {
      var (start, end) := segments[0];
      SlicesCaseApart(s, s', start, end);
      SameCheck(s[start..end], s'[start..end], start, x);
      SameCheckSegments(s, s', segments[1..], x);
    }
  }

  lemma SameGate(s: string, s': string, x: Lexer)
    requires Blind(x) && CaseApart(s, s')
    ensures CheckEveryStatement(s, x) == CheckEveryStatement(s', x)
  {
    SameSegments(s, s', 0, 0, x);
    var all := SegmentsFrom(s, 0, 0, x);
    if all.Ok? {
      SameNonBlank(s, s', all.value, x);
      var segments := NonBlank(s, all.value, x);
      if segments.Ok? {
        SameCheckSegments(s, s', segments.value, x);
      }
    }
  }

  lemma SameRecursive(s: string, s': string, x: Lexer)
    requires Blind(x) && CaseApart(s, s')
    ensures IsRecursiveWith(s, x) == IsRecursiveWith(s', x)
  {
    SameFirstKeyword(s, s', x);
    var first := FirstKeyword(s, x);
    if first.Ok? && first.value.0 == Some("WITH") {
      SameTrivia(s, s', first.value.1 + 4, false, x);
      var i := TriviaEnd(s, first.value.1 + 4, false, x);
      if i.Ok? {
        SameWord(s, s', i.value);
      }
    }
  }

  lemma SameWrapRule(s: string, s': string, d: Dialect)
    requires d.Valid() && LexerOf(d).Sane() && Blind(LexerOf(d)) && CaseApart(s, s')
    ensures IsSingleQueryStatement(s, d) == IsSingleQueryStatement(s', d)
  {
    SameVerdict(s, s', d);
    SameRecursive(s, s', LexerOf(d));
    SameResolve(s, s', LexerOf(d), 0, 1);
  }

  /** Neither gate and not the wrap rule look at the case of a letter: `select` is read as `SELECT`. */
  lemma CaseNeverMatters(s: string, s': string, d: Dialect)
    requires d.Valid() && LexerOf(d).Sane() && CaseApart(s, s')
    ensures ScanResult(s, d) == ScanResult(s', d)
    ensures CheckEveryStatement(s, LexerOf(d)) == CheckEveryStatement(s', LexerOf(d))
    ensures IsSingleQueryStatement(s, d) == IsSingleQueryStatement(s', d)
  {
    SharedLexerIsBlind(d);
    SameVerdict(s, s', d);
    SameGate(s, s', LexerOf(d));
    SameWrapRule(s, s', d);
  }
}
