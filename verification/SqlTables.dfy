/**
 What each engine's table makes of a text, character by character: which comments and literals open
 where, how each one is read, and what is refused. Nothing here is said in the scanner's own terms.
 */
module SqlTables {
  import opened Outcomes
  import opened SqlScope
  import opened SqlReadings

  // ----- how one construct is read

  /** The literal opening at `i` is read with backslash escapes. */
  ghost predicate ReadsEscaped(s: string, i: nat, n: nat, found: Found)
    requires i < |s| && n > 0
  {
    var e := ReadLiteralEnd(s, i + n, Delimiter(s[i], n), true);
    if e.Some? then found == Ok(e)
    else found.Refused? && found.error.UnterminatedLiteral? && found.error.at == i
  }

  /** It is read only where it ends at one place with escapes and without. */
  ghost predicate ReadsEitherWay(s: string, i: nat, n: nat, found: Found)
    requires i < |s| && n > 0
  {
    var q := Delimiter(s[i], n);
    var e, e' := ReadLiteralEnd(s, i + n, q, false), ReadLiteralEnd(s, i + n, q, true);
    if e.Some? && e == e' then found == Ok(e)
    else
      && found.Refused? && found.error.at == i
      && (if e.Some? then found.error.AmbiguousBackslash?
          else found.error.AmbiguousBackslash? || found.error.UnterminatedLiteral?)
  }

  /** The characters only some lexers end a line at. */
  const ODD_LINE_ENDS: set<char> :=
    {'\U{000B}', '\U{000C}', '\U{001C}', '\U{001D}', '\U{001E}', '\U{0085}', '\U{2028}', '\U{2029}'}

  /** `s[i..e]` is a line comment, up to and with its terminator. */
  ghost predicate IsLine(s: string, i: nat, e: nat, ends: set<char>) {
    && i < e <= |s| && (forall k :: i <= k < e - 1 ==> s[k] !in ends) && (e < |s| ==> s[e - 1] in ends)
  }

  /** No lexer ends it elsewhere, and none carries it on. */
  ghost predicate IsPlainLine(s: string, i: nat, e: nat, ends: set<char>)
    requires IsLine(s, i, e, ends)
  {
    && (forall k :: i <= k < e ==> s[k] !in ODD_LINE_ENDS)
    && ('\r' !in ends ==> forall k :: i <= k < e && s[k] == '\r' ==> k + 1 < e && s[k + 1] == '\n')
    && (s[e - 1] in ends ==> !BackslashBefore(s, i, e))
  }

  /** The character before the terminator, CRLF being one, is a backslash of the comment's body. */
  predicate BackslashBefore(s: string, i: nat, e: nat)
    requires i < e <= |s|
  {
    var t := if i + 2 < e && s[e - 2] == '\r' && s[e - 1] == '\n' then e - 2 else e - 1;
    i + 1 < t && s[t - 1] == '\\'
  }

  ghost predicate ReadsLine(s: string, i: nat, ends: set<char>, found: Found) {
    exists e :: IsLine(s, i, e, ends) && LineFound(s, i, e, ends, found)
  }

  ghost predicate LineFound(s: string, i: nat, e: nat, ends: set<char>, found: Found)
    requires IsLine(s, i, e, ends)
  {
    if IsPlainLine(s, i, e, ends) then found == Ok(Some(e))
    else
      && found.Refused? && i <= found.error.at < e
      && match found.error
         case SeparatorInLineComment(at) => s[at] in ODD_LINE_ENDS
         case BareCarriageReturn(at) => '\r' !in ends && s[at] == '\r' && !At(s[..e], at, "\r\n")
         case BackslashEndsLineComment(at) => BackslashBefore(s, i, e) && s[at] == '\\'
         case _ => false
  }

  /** `s[i..e]` is a flat block comment. */
  ghost predicate IsBlock(s: string, i: nat, e: nat) {
    i + 4 <= e <= |s| && At(s, e - 2, "*/") && forall k :: i + 2 <= k < e - 2 ==> !At(s, k, "*/")
  }

  ghost predicate ReadsBlock(s: string, i: nat, found: Found) {
    && (forall e :: IsBlock(s, i, e) ==>
          found == if exists k :: i + 2 <= k && k + 2 <= e - 2 && At(s, k, "/*")
                   then Refused(NestedBlockComment(i)) else Ok(Some(e)))
    && ((forall e :: !IsBlock(s, i, e)) ==> found == Refused(UnterminatedBlockComment(i)))
  }

  // ----- the constructs of the scanner

  lemma EscapedIsRead(s: string, i: nat, n: nat, form: Form)
    requires i < |s| && n > 0 && IsEscapedForm(form)
    ensures ReadsEscaped(s, i, n, Wrap(FormEnd(s, i + n, Delimiter(s[i], n), form)))
  {
    EscapedEndIsReading(s, i + n, Delimiter(s[i], n), form, i);
    EscapedRefuses(s, i + n, Delimiter(s[i], n), form, i);
  }

  lemma {:induction false} EscapedRefuses(s: string, i: nat, q: Delimiter, form: Form, opener: int)
    requires q.n > 0
    ensures var r := EscapedEnd(s, i, q, form, opener); r.Refused? ==> r.error == UnterminatedLiteral(form, opener)
    decreases |s| - i
  {
    if i < |s| && (s[i] == '\\' || DoubledAt(s, i, q)) {
      EscapedRefuses(s, i + 2, q, form, opener);
    }
    if i < |s| && !DelimiterAt(s, i, q) {
      EscapedRefuses(s, i + 1, q, form, opener);
    }
  }

  lemma UnescapedIsRead(s: string, i: nat, n: nat, form: Form)
    requires i < |s| && n > 0 && !IsEscapedForm(form) && s[i] != '\\'
    ensures ReadsEitherWay(s, i, n, Wrap(FormEnd(s, i + n, Delimiter(s[i], n), form)))
  {
    UnescapedAcceptsIff(s, i + n, i + n, Delimiter(s[i], n), form, i);
  }

  /** Before an odd run of backslashes the escape-honouring reading does not end at the candidate. */
  lemma {:induction false} OddRunIsPassed(s: string, i: nat, c: nat, q: Delimiter)
    requires q.n > 0 && q.c != '\\' && i <= c < |s| && DelimiterAt(s, c, q)
    requires forall j :: i <= j < c ==> !DelimiterAt(s, j, q)
    requires BackslashRun(s, i, c) % 2 == 1
    ensures ReadLiteralEnd(s, i, q, true) == ReadLiteralEnd(s, c + 1, q, true)
    decreases c - i
  {
    if i + 1 == c && s[i] == '\\' {
      assert BackslashRun(s, i, c) == 1 + BackslashRun(s, i, i);
    } else if s[i] == '\\' {
      RunParity(s, i, c);
      OddRunIsPassed(s, i + 2, c, q);
    } else {
      RunStops(s, i, i, c);
      OddRunIsPassed(s, i + 1, c, q);
    }
  }

  /** A run of one-character delimiters, read from its first and from its second. */
  lemma {:induction false} RunsDisagree(s: string, c: nat, q: Delimiter)
    requires q.n == 1 && q.c != '\\' && DelimiterAt(s, c, q)
    ensures var e := ReadLiteralEnd(s, c, q, false); e.Some? ==> e != ReadLiteralEnd(s, c + 1, q, true)
    decreases |s| - c
  {
    if DoubledAt(s, c, q) {
      assert DelimiterAt(s, c + 1, q);
      if c + 2 < |s| && DelimiterAt(s, c + 2, q) {
        assert DoubledAt(s, c + 1, q);
        RunsDisagree(s, c + 2, q);
      }
    }
  }

  lemma {:induction false} EndsAfter(s: string, i: nat, q: Delimiter, escapes: bool)
    requires q.n > 0
    ensures var e := ReadLiteralEnd(s, i, q, escapes); e.Some? ==> i + q.n <= e.value
    decreases |s| - i
  {
    if i < |s| {
      EndsAfter(s, i + 1, q, escapes);
      EndsAfter(s, i + 2, q, escapes);
    }
  }

  lemma {:induction false} FreeFindsNone(s: string, i: nat, q: Delimiter)
    requires q.n > 0 && forall j :: i <= j < |s| ==> !DelimiterAt(s, j, q)
    ensures ReadLiteralEnd(s, i, q, false) == None
    decreases |s| - i
  {
    if i < |s| {
      FreeFindsNone(s, i + 1, q);
    }
  }

  /** A candidate behind an odd run is the ambiguous shape: the two readings part there. */
  lemma OddRunParts(s: string, i: nat, c: nat, q: Delimiter)
    requires q.n > 0 && q.c != '\\' && i <= c < |s| && DelimiterAt(s, c, q)
    requires forall j :: i <= j < c ==> !DelimiterAt(s, j, q)
    requires BackslashRun(s, i, c) % 2 == 1
    ensures var e := ReadLiteralEnd(s, i, q, false); e.Some? ==> e != ReadLiteralEnd(s, i, q, true)
  {
    EscapeFreeReaches(s, i, c, q);
    OddRunIsPassed(s, i, c, q);
    if q.n == 1 {
      RunsDisagree(s, c, q);
    } else {
      EndsAfter(s, c + 1, q, true);
    }
  }

  /** The answer of the candidate-by-candidate reading, from the two readings alone. */
  ghost predicate Agreed(e: Option<nat>, e': Option<nat>, r: Result<nat, Refusal>, form: Form, opener: int) {
    if e.Some? && e == e' then r == Ok(e.value)
    else
      || r == Refused(AmbiguousBackslash(form, opener))
      || (e == None && r == Refused(UnterminatedLiteral(form, opener)))
  }

  /** It accepts exactly where they agree. */
  lemma {:induction false} UnescapedAcceptsIff(s: string, body: nat, i: nat, q: Delimiter, form: Form, opener: int)
    requires q.n > 0 && q.c != '\\' && CandidateStart(s, body, i)
    ensures Agreed(
              ReadLiteralEnd(s, i, q, false), ReadLiteralEnd(s, i, q, true), UnescapedEnd(s, body, i, q, form, opener),
              form, opener)
    decreases |s| - i
  {
    var close := FindDelimiter(s, i, q);
    NoneBeforeDelimiter(s, i, q);
    if close == |s| {
      FreeFindsNone(s, i, q);
    } else {
      if body < i {
        RunFrom(s, body, i, close);
      }
      if BackslashRun(s, body, close) % 2 == 1 {
        OddRunParts(s, i, close, q);
      } else {
        ReadingReaches(s, i, close, q);
        EscapeFreeReaches(s, i, close, q);
        UnescapedUnfolds(s, body, i, close, q, form, opener, DoubledAt(s, close, q));
        if DoubledAt(s, close, q) {
          UnescapedAcceptsIff(s, body, close + 2, q, form, opener);
        }
      }
    }
  }

  lemma LineIsRead(s: string, i: nat, d: Dialect)
    requires d.Valid() && i < |s| && OpensLineComment(s, i, d)
    ensures ReadsLine(s, i, d.lineCommentTerminators, CommentEnd(s, i, d))
  {
    var ends := d.lineCommentTerminators;
    var t := FirstIn(s, i, |s|, ends);
    var e := if t == |s| then |s| else t + 1;
    NoneBeforeFirst(s, i, |s|, ends);
    assert IsLine(s, i, e, ends);
    LineEndIsFound(s, i, e, d);
  }

  /** The scanner's two searches and its look before the terminator, as results. */
  ghost predicate LineAnswer(
    s: string, i: nat, e: nat, ends: set<char>, odd: nat, bare: nat, before: nat, found: Found)
    requires IsLine(s, i, e, ends)
  {
    && i <= odd <= e && i <= bare <= e
    && found ==
       if odd < e then Refused(SeparatorInLineComment(odd))
       else if bare < e then Refused(BareCarriageReturn(bare))
       else if s[e - 1] in ends && BackslashBefore(s, i, e) then Refused(BackslashEndsLineComment(before))
       else Ok(Some(e))
  }

  ghost predicate IsFirstOdd(s: string, i: nat, e: nat, odd: nat)
    requires e <= |s|
  {
    i <= odd <= e && (forall k :: i <= k < odd ==> s[k] !in ODD_LINE_ENDS) && (odd < e ==> s[odd] in ODD_LINE_ENDS)
  }

  ghost predicate IsFirstBare(s: string, i: nat, e: nat, bare: nat)
    requires e <= |s|
  {
    && i <= bare <= e
    && (forall k :: i <= k < bare && s[k] == '\r' ==> k + 1 < e && s[k + 1] == '\n')
    && (bare < e ==> s[bare] == '\r' && !(bare + 1 < e && s[bare + 1] == '\n'))
  }

  lemma LineFoundBy(s: string, i: nat, e: nat, ends: set<char>, odd: nat, bare: nat, before: nat, found: Found)
    requires IsLine(s, i, e, ends) && LineAnswer(s, i, e, ends, odd, bare, before, found)
    requires IsFirstOdd(s, i, e, odd)
    requires if '\r' in ends then bare == e else IsFirstBare(s, i, e, bare)
    requires s[e - 1] in ends && BackslashBefore(s, i, e) ==> i < before < e && s[before] == '\\'
    ensures LineFound(s, i, e, ends, found)
  {
    if bare < e {
      NoCrLfAt(s[..e], bare);
    }
  }

  lemma NoCrLfAt(u: string, k: nat)
    requires k < |u| && !(k + 1 < |u| && u[k + 1] == '\n')
    ensures !At(u, k, "\r\n")
  {
    if k + 2 <= |u| {
      assert u[k..k + 2][1] == u[k + 1];
    }
  }

  lemma LineEndIsAnswer(s: string, i: nat, t: nat, e: nat, odd: nat, bare: nat, before: nat, d: Dialect)
    requires d.Valid() && i < |s| && OpensLineComment(s, i, d) && IsLine(s, i, e, d.lineCommentTerminators)
    requires t == FirstIn(s, i, |s|, d.lineCommentTerminators) && e == if t == |s| then |s| else t + 1
    requires t == |s| ==> s[|s| - 1] !in d.lineCommentTerminators
    requires odd == FirstIn(s, i, e, LINE_SEPARATORS)
    requires bare == if '\r' in d.lineCommentTerminators then e else FirstBareCr(s, i, e)
    requires before == LastOfBody(s, i, e)
    ensures LineAnswer(s, i, e, d.lineCommentTerminators, odd, bare, before, CommentEnd(s, i, d))
  {
  }

  /** The position before the terminator, CRLF being one; 0 when there is none. */
  function LastOfBody(s: string, i: nat, e: nat): nat
    requires i < e <= |s|
  {
    if s[e - 1] == '\n' && e - 2 > i && s[e - 2] == '\r' then e - 3 else if e < 2 then 0 else e - 2
  }

  lemma LineEndIsFound(s: string, i: nat, e: nat, d: Dialect)
    requires d.Valid() && i < |s| && OpensLineComment(s, i, d) && IsLine(s, i, e, d.lineCommentTerminators)
    requires var t := FirstIn(s, i, |s|, d.lineCommentTerminators); e == if t == |s| then |s| else t + 1
    ensures LineFound(s, i, e, d.lineCommentTerminators, CommentEnd(s, i, d))
  {
    var ends := d.lineCommentTerminators;
    var t := FirstIn(s, i, |s|, ends);
    NoneBeforeFirst(s, i, |s|, ends);
    var odd := FirstIn(s, i, e, LINE_SEPARATORS);
    NoneBeforeFirst(s, i, e, LINE_SEPARATORS);
    var bare := if '\r' in ends then e else FirstBareCr(s, i, e);
    CrLfBeforeBareCr(s, i, e);
    BareCrIsBare(s, i, e);
    LineEndIsAnswer(s, i, t, e, odd, bare, LastOfBody(s, i, e), d);
    LineFoundBy(s, i, e, ends, odd, bare, LastOfBody(s, i, e), CommentEnd(s, i, d));
  }

  lemma {:induction false} BareCrIsBare(s: string, i: nat, hi: nat)
    requires i <= hi <= |s|
    ensures var k := FirstBareCr(s, i, hi); k < hi ==> s[k] == '\r' && !(k + 1 < hi && s[k + 1] == '\n')
    decreases hi - i
  {
    if i < hi && !(s[i] == '\r' && !(i + 1 < hi && s[i + 1] == '\n')) {
      BareCrIsBare(s, i + 1, hi);
    }
  }

  lemma PairsOfBlocks(s: string)
    ensures forall k: nat :: PairAt(s, k, '*', '/') <==> At(s, k, "*/")
    ensures forall k: nat :: PairAt(s, k, '/', '*') <==> At(s, k, "/*")
  {
    forall k: nat
      ensures PairAt(s, k, '*', '/') <==> At(s, k, "*/")
      ensures PairAt(s, k, '/', '*') <==> At(s, k, "/*")
    {
      PairsAreText(s, k, '*', '/', Delimiter('*', 1));
      PairsAreText(s, k, '/', '*', Delimiter('*', 1));
    }
  }

  /** The first closing pair is the only end a flat block can have. */
  lemma BlockEnds(s: string, i: nat, close: nat)
    requires i + 2 <= close <= |s| && close == FirstPair(s, i + 2, |s|, '*', '/')
    ensures forall e: nat :: IsBlock(s, i, e) ==> e == close + 2
    ensures close < |s| ==> IsBlock(s, i, close + 2)
  {
    NoneBeforePair(s, i + 2, |s|, '*', '/');
    PairsOfBlocks(s);
    forall e: nat | IsBlock(s, i, e)
      ensures e == close + 2
    {
      assert At(s, e - 2, "*/");
    }
  }

  lemma BlockIsRead(s: string, i: nat, d: Dialect)
    requires i < |s| && !OpensLineComment(s, i, d) && PairAt(s, i, '/', '*')
    ensures ReadsBlock(s, i, CommentEnd(s, i, d))
  {
    var close := FirstPair(s, i + 2, |s|, '*', '/');
    BlockEnds(s, i, close);
    if close < |s| {
      PairsOfBlocks(s);
      NoneBeforePair(s, i + 2, close, '/', '*');
    }
  }

  // ----- the tables

  /** How a text is read where something other than a comment may open. */
  datatype Manner = WithEscapes(n: nat) | EitherWay(n: nat) | Attached(start: int) | AttachedDollar | NoLiteral

  /** The scanner's answer, read in this manner. */
  ghost predicate ReadAs(m: Manner, s: string, i: nat, found: Found)
    requires i < |s|
  {
    match m
    case WithEscapes(n) => n > 0 && ReadsEscaped(s, i, n, found)
    case EitherWay(n) => n > 0 && ReadsEitherWay(s, i, n, found)
    case Attached(start) => found == Refused(GluedPrefix(start))
    case AttachedDollar => found == Refused(GluedDollar(i))
    case NoLiteral => found == Ok(None)
  }

  predicate IsQuote(c: char) { c == '\'' || c == '"' }

  /** One quote, or three where the dialect has such strings. */
  function QuoteCount(s: string, i: nat, triple: bool): nat
    requires i < |s|
  {
    if triple && At(s, i, Times(s[i], 3)) then 3 else 1
  }

  /**
   BigQuery: strings and `b` literals in both quotes, one or three of them, with escapes; raw literals
   under `r`, `rb` and `br`; quoted names in backticks.
   */
  function BigQueryManner(s: string, i: nat, p: string): Manner
    requires i < |s|
  {
    if IsQuote(s[i]) then
      if p == "" || SameUpToCase(p, "b") then WithEscapes(QuoteCount(s, i, true))
      else if SameUpToCase(p, "r") || SameUpToCase(p, "rb") || SameUpToCase(p, "br") then
        EitherWay(QuoteCount(s, i, true))
      else Attached(i - |p|)
    else if s[i] == '`' then EitherWay(1)
    else NoLiteral
  }

  /** Snowflake: strings in single quotes with escapes, names in double quotes, dollar strings, no prefix at all. */
  function SnowflakeManner(s: string, i: nat, p: string): Manner
    requires i < |s|
  {
    if IsQuote(s[i]) then
      if p != "" then Attached(i - |p|) else if s[i] == '\'' then WithEscapes(1) else EitherWay(1)
    else if At(s, i, "$$") then if p == "" then EitherWay(2) else AttachedDollar
    else NoLiteral
  }

  /**
   Databricks: strings in both quotes with escapes, raw strings under `r`, hexadecimal literals under
   `x` in single quotes, quoted names in backticks.
   */
  function DatabricksManner(s: string, i: nat, p: string): Manner
    requires i < |s|
  {
    if IsQuote(s[i]) then
      if p == "" then WithEscapes(1)
      else if SameUpToCase(p, "r") || (SameUpToCase(p, "x") && s[i] == '\'') then EitherWay(1)
      else Attached(i - |p|)
    else if s[i] == '`' then EitherWay(1)
    else NoLiteral
  }

  /** The manner of a quote, by the form the scanner gives it. */
  function MannerOf(form: Option<Form>, n: nat, start: int): Manner {
    match form
    case None => Attached(start)
    case Some(f) => if IsEscapedForm(f) then WithEscapes(n) else EitherWay(n)
  }

  /** What the scanner answers at a quote of this form whose prefix starts at `start`. */
  function FoundOf(form: Option<Form>, s: string, i: nat, n: nat, start: int): Found
    requires i < |s| && n > 0
  {
    match form
    case None => Refused(GluedPrefix(start))
    case Some(f) => Wrap(FormEnd(s, i + n, Delimiter(s[i], n), f))
  }

  lemma QuotedEndIs(s: string, i: nat, start: nat, p: string, n: nat, form: Option<Form>, d: Dialect)
    requires i < |s| && IsQuote(s[i]) && start == PrefixStart(s, i, d) && s[start..i] == p
    requires n > 0 && Delimiter(s[i], n) == QuoteDelimiter(s, i, d) && form == FormOf(Lower(p), Delimiter(s[i], n), d)
    ensures LiteralEnd(s, i, d) == FoundOf(form, s, i, n, start)
  {
  }

  lemma DelimiterIsCount(s: string, i: nat, n: nat, d: Dialect)
    requires i < |s| && n == QuoteCount(s, i, d.tripleQuotedStrings)
    ensures QuoteDelimiter(s, i, d) == Delimiter(s[i], n)
  {
    PairsAreText(s, i, '-', '-', Delimiter(s[i], 3));
  }

  lemma QuoteIsForm(s: string, i: nat, p: string, start: nat, n: nat, form: Option<Form>, d: Dialect)
    requires i < |s| && IsQuote(s[i]) && GluedTo(s[..i], p, d) && n == QuoteCount(s, i, d.tripleQuotedStrings)
    requires start == i - |p| && form == FormOf(Lower(p), Delimiter(s[i], n), d)
    ensures LiteralEnd(s, i, d) == FoundOf(form, s, i, n, start)
  {
    PrefixOfGlued(s, i, p, d);
    DelimiterIsCount(s, i, n, d);
    QuotedEndIs(s, i, start, p, n, form, d);
  }

  lemma PrefixOfGlued(s: string, i: nat, p: string, d: Dialect)
    requires i <= |s| && GluedTo(s[..i], p, d)
    ensures PrefixStart(s, i, d) == i - |p| && s[PrefixStart(s, i, d)..i] == p
  {
    PrefixIsGlued(s, i, d);
    GluedIsUnique(s[..i], p, s[PrefixStart(s, i, d)..i], d);
  }

  /** A quote is read in the manner of its form. */
  lemma QuoteIsRead(s: string, i: nat, p: string, start: nat, n: nat, form: Option<Form>, d: Dialect)
    requires i < |s| && IsQuote(s[i]) && GluedTo(s[..i], p, d) && n == QuoteCount(s, i, d.tripleQuotedStrings)
    requires start == i - |p| && form == FormOf(Lower(p), Delimiter(s[i], n), d)
    ensures ReadAs(MannerOf(form, n, start), s, i, LiteralEnd(s, i, d))
  {
    var found := LiteralEnd(s, i, d);
    QuoteIsForm(s, i, p, start, n, form, d);
    FormIsRead(s, i, n, form, start, found);
  }

  lemma FormIsRead(s: string, i: nat, n: nat, form: Option<Form>, start: int, found: Found)
    requires i < |s| && n > 0 && s[i] != '\\' && found == FoundOf(form, s, i, n, start)
    ensures ReadAs(MannerOf(form, n, start), s, i, found)
  {
    if form.Some? {
      if IsEscapedForm(form.value) {
        EscapedIsRead(s, i, n, form.value);
      } else {
        UnescapedIsRead(s, i, n, form.value);
      }
    }
  }

  lemma BacktickIsRead(s: string, i: nat, d: Dialect)
    requires i < |s| && s[i] == '`' && d.backtickIdentifiers
    ensures ReadAs(EitherWay(1), s, i, LiteralEnd(s, i, d))
  {
    var found := Wrap(FormEnd(s, i + 1, Delimiter('`', 1), QuotedIdentifier));
    assert LiteralEnd(s, i, d) == found;
    UnescapedIsRead(s, i, 1, QuotedIdentifier);
  }

  lemma DollarIsRead(s: string, i: nat, p: string, d: Dialect)
    requires i < |s| && At(s, i, "$$") && d.dollarStrings && GluedTo(s[..i], p, d)
    ensures ReadAs(if p == "" then EitherWay(2) else AttachedDollar, s, i, LiteralEnd(s, i, d))
  {
    DollarIsForm(s, i, p, d);
    UnescapedIsRead(s, i, 2, DollarString);
  }

  lemma DollarIsForm(s: string, i: nat, p: string, d: Dialect)
    requires i < |s| && At(s, i, "$$") && d.dollarStrings && GluedTo(s[..i], p, d)
    ensures s[i] == '$' && LiteralEnd(s, i, d) ==
            if p == "" then Wrap(FormEnd(s, i + 2, Delimiter(s[i], 2), DollarString)) else Refused(GluedDollar(i))
  {
    PairsAreText(s, i, '$', '$', Delimiter('$', 2));
    PrefixOfGlued(s, i, p, d);
  }

  lemma OthersOpenNothing(s: string, i: nat, d: Dialect)
    requires i < |s| && !IsQuote(s[i]) && !(s[i] == '`' && d.backtickIdentifiers)
    requires !(d.dollarStrings && At(s, i, "$$"))
    ensures LiteralEnd(s, i, d) == Ok(None)
  {
    PairsAreText(s, i, '$', '$', Delimiter('$', 2));
  }

  /** Comments open at `--` and at the other openers of the dialect, and block comments where no line comment does. */
  lemma CommentIsRead(s: string, i: nat, d: Dialect)
    requires d.Valid() && i < |s|
    ensures var found := CommentEnd(s, i, d);
            if At(s, i, "--") || (d.hashLineComments && s[i] == '#') || (d.doubleSlashLineComments && At(s, i, "//"))
            then ReadsLine(s, i, d.lineCommentTerminators, found)
            else if At(s, i, "/*") then ReadsBlock(s, i, found)
            else found == Ok(None)
  {
    PairsAreText(s, i, '-', '-', Delimiter('-', 1));
    PairsAreText(s, i, '/', '/', Delimiter('-', 1));
    PairsAreText(s, i, '/', '*', Delimiter('-', 1));
    if OpensLineComment(s, i, d) {
      LineIsRead(s, i, d);
    } else if PairAt(s, i, '/', '*') {
      BlockIsRead(s, i, d);
    }
  }

  /** `lower` is `p` in lower case, as far as the prefixes of the tables can tell. */
  predicate IsLower(p: string, lower: string) {
    && (lower == "" <==> p == "")
    && (lower == "r" <==> SameUpToCase(p, "r"))
    && (lower == "b" <==> SameUpToCase(p, "b"))
    && (lower == "x" <==> SameUpToCase(p, "x"))
    && (lower == "rb" <==> SameUpToCase(p, "rb"))
    && (lower == "br" <==> SameUpToCase(p, "br"))
  }

  lemma PrefixesByLetters(p: string)
    ensures IsLower(p, Lower(p))
  {
    LowerLength(p);
    LowerIsSame(p, "r");
    LowerIsSame(p, "b");
    LowerIsSame(p, "x");
    LowerIsSame(p, "rb");
    LowerIsSame(p, "br");
  }

  lemma BigQueryForms(
    s: string, i: nat, p: string, lower: string, n: nat, isSpace: char -> bool, isAlnum: char -> bool)
    requires i < |s| && IsQuote(s[i]) && n == QuoteCount(s, i, true) && IsLower(p, lower)
    ensures MannerOf(FormOf(lower, Delimiter(s[i], n), BigQuery(isSpace, isAlnum)), n, i - |p|) ==
            BigQueryManner(s, i, p)
  {
  }

  lemma SnowflakeForms(s: string, i: nat, p: string, lower: string, isSpace: char -> bool, isAlnum: char -> bool)
    requires i < |s| && IsQuote(s[i]) && IsLower(p, lower)
    ensures MannerOf(FormOf(lower, Delimiter(s[i], 1), Snowflake(isSpace, isAlnum)), 1, i - |p|) ==
            SnowflakeManner(s, i, p)
  {
  }

  lemma DatabricksForms(s: string, i: nat, p: string, lower: string, isSpace: char -> bool, isAlnum: char -> bool)
    requires i < |s| && IsQuote(s[i]) && IsLower(p, lower)
    ensures MannerOf(FormOf(lower, Delimiter(s[i], 1), Databricks(isSpace, isAlnum)), 1, i - |p|) ==
            DatabricksManner(s, i, p)
  {
  }

  /** What BigQuery's table makes of every position: literals as above, comments from `#` and `--` to the line feed. */
  lemma BigQueryReads(s: string, i: nat, p: string, isSpace: char -> bool, isAlnum: char -> bool)
    requires CharactersFit(isSpace, isAlnum) && i < |s| && GluedTo(s[..i], p, BigQuery(isSpace, isAlnum))
    ensures ReadAs(BigQueryManner(s, i, p), s, i, LiteralEnd(s, i, BigQuery(isSpace, isAlnum)))
    ensures var found := CommentEnd(s, i, BigQuery(isSpace, isAlnum));
            if At(s, i, "--") || s[i] == '#' then ReadsLine(s, i, {'\n'}, found)
            else if At(s, i, "/*") then ReadsBlock(s, i, found)
            else found == Ok(None)
  {
    var d := BigQuery(isSpace, isAlnum);
    CommentIsRead(s, i, d);
    if IsQuote(s[i]) {
      var n := QuoteCount(s, i, true);
      PrefixesByLetters(p);
      QuoteIsRead(s, i, p, i - |p|, n, FormOf(Lower(p), Delimiter(s[i], n), d), d);
      BigQueryForms(s, i, p, Lower(p), n, isSpace, isAlnum);
    } else if s[i] == '`' {
      BacktickIsRead(s, i, d);
    } else {
      OthersOpenNothing(s, i, d);
    }
  }

  /** The same of Snowflake's, with comments from `//` and `--` to the line feed. */
  lemma SnowflakeReads(s: string, i: nat, p: string, isSpace: char -> bool, isAlnum: char -> bool)
    requires CharactersFit(isSpace, isAlnum) && i < |s| && GluedTo(s[..i], p, Snowflake(isSpace, isAlnum))
    ensures ReadAs(SnowflakeManner(s, i, p), s, i, LiteralEnd(s, i, Snowflake(isSpace, isAlnum)))
    ensures var found := CommentEnd(s, i, Snowflake(isSpace, isAlnum));
            if At(s, i, "--") || At(s, i, "//") then ReadsLine(s, i, {'\n'}, found)
            else if At(s, i, "/*") then ReadsBlock(s, i, found)
            else found == Ok(None)
  {
    var d := Snowflake(isSpace, isAlnum);
    CommentIsRead(s, i, d);
    if IsQuote(s[i]) {
      PrefixesByLetters(p);
      QuoteIsRead(s, i, p, i - |p|, 1, FormOf(Lower(p), Delimiter(s[i], 1), d), d);
      SnowflakeForms(s, i, p, Lower(p), isSpace, isAlnum);
    } else if At(s, i, "$$") {
      DollarIsRead(s, i, p, d);
    } else {
      OthersOpenNothing(s, i, d);
    }
  }

  /** And of Databricks', with comments from `--` to the first CR or LF. */
  lemma DatabricksReads(s: string, i: nat, p: string, isSpace: char -> bool, isAlnum: char -> bool)
    requires CharactersFit(isSpace, isAlnum) && i < |s| && GluedTo(s[..i], p, Databricks(isSpace, isAlnum))
    ensures ReadAs(DatabricksManner(s, i, p), s, i, LiteralEnd(s, i, Databricks(isSpace, isAlnum)))
    ensures var found := CommentEnd(s, i, Databricks(isSpace, isAlnum));
            if At(s, i, "--") then ReadsLine(s, i, {'\r', '\n'}, found)
            else if At(s, i, "/*") then ReadsBlock(s, i, found)
            else found == Ok(None)
  {
    var d := Databricks(isSpace, isAlnum);
    CommentIsRead(s, i, d);
    if IsQuote(s[i]) {
      PrefixesByLetters(p);
      QuoteIsRead(s, i, p, i - |p|, 1, FormOf(Lower(p), Delimiter(s[i], 1), d), d);
      DatabricksForms(s, i, p, Lower(p), isSpace, isAlnum);
    } else if s[i] == '`' {
      BacktickIsRead(s, i, d);
    } else {
      OthersOpenNothing(s, i, d);
    }
  }

  /** An unknown engine gets what all three share: both quotes, no prefix, `--` to the line feed. */
  lemma FallbackReads(s: string, i: nat, p: string, isSpace: char -> bool, isAlnum: char -> bool)
    requires CharactersFit(isSpace, isAlnum) && i < |s| && GluedTo(s[..i], p, Fallback(isSpace, isAlnum))
    ensures ReadAs(if IsQuote(s[i]) then SnowflakeManner(s, i, p) else NoLiteral, s, i,
                   LiteralEnd(s, i, Fallback(isSpace, isAlnum)))
    ensures var found := CommentEnd(s, i, Fallback(isSpace, isAlnum));
            if At(s, i, "--") then ReadsLine(s, i, {'\n'}, found)
            else if At(s, i, "/*") then ReadsBlock(s, i, found)
            else found == Ok(None)
  {
    var d := Fallback(isSpace, isAlnum);
    CommentIsRead(s, i, d);
    if IsQuote(s[i]) {
      PrefixesByLetters(p);
      QuoteIsRead(s, i, p, i - |p|, 1, FormOf(Lower(p), Delimiter(s[i], 1), d), d);
      FallbackForms(s, i, p, Lower(p), isSpace, isAlnum);
    } else {
      OthersOpenNothing(s, i, d);
    }
  }

  lemma FallbackForms(s: string, i: nat, p: string, lower: string, isSpace: char -> bool, isAlnum: char -> bool)
    requires i < |s| && IsQuote(s[i]) && IsLower(p, lower)
    ensures MannerOf(FormOf(lower, Delimiter(s[i], 1), Fallback(isSpace, isAlnum)), 1, i - |p|) ==
            SnowflakeManner(s, i, p)
  {
  }
}
