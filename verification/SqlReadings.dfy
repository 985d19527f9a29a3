/**
 "Where two plausible readings could disagree, refuse": a family of reference lexers, each reading
 the text one character at a time, and the proof that they all see the same top-level `;` in
 every text the scanner accepts. The readings open comments and literals by their own rules.
 */
module SqlReadings {
  import opened Outcomes
  import opened SqlScope

  // ----- words of the specification

  /** The text `t` stands in `s` at `i`. */
  predicate At(s: string, i: nat, t: string) { i + |t| <= |s| && s[i..i + |t|] == t }

  /** `c`, `n` times. */
  function Times(c: char, n: nat): (t: string)
    ensures |t| == n && forall k :: 0 <= k < n ==> t[k] == c
  {
    seq(n, _ => c)
  }

  /** The scanner's pairs and delimiters are texts that stand in the text. */
  lemma PairsAreText(s: string, i: nat, a: char, b: char, q: Delimiter)
    ensures PairAt(s, i, a, b) <==> At(s, i, [a, b])
    ensures DelimiterAt(s, i, q) <==> At(s, i, Times(q.c, q.n))
    ensures DoubledAt(s, i, q) <==> q.n == 1 && At(s, i, [q.c, q.c])
  {
    if At(s, i, Times(q.c, q.n)) {
      assert forall k :: i <= k < i + q.n ==> s[k] == s[i..i + q.n][k - i];
    }
  }

  /** Every character at which some lexer may end a line. */
  const SPLIT_LINES: set<char> :=
    {'\n', '\U{000B}', '\U{000C}', '\r', '\U{001C}', '\U{001D}', '\U{001E}', '\U{0085}', '\U{2028}', '\U{2029}'}

  predicate IsNamePart(c: char, d: Dialect) { d.isAlnum(c) || c == '_' || c == '$' }

  /** `p` is what is glued to the end of `before`: all the identifier characters it ends in. */
  predicate GluedTo(before: string, p: string, d: Dialect) {
    && |p| <= |before| && before[|before| - |p|..] == p
    && (forall k :: 0 <= k < |p| ==> IsNamePart(p[k], d))
    && (|p| < |before| ==> !IsNamePart(before[|before| - |p| - 1], d))
  }

  /** `p` is the lower-case text `lower`, some of its letters capital. */
  predicate SameUpToCase(p: string, lower: string) {
    |p| == |lower| && forall k :: 0 <= k < |p| ==> p[k] == lower[k] || IsCapitalOf(p[k], lower[k])
  }

  predicate IsCapitalOf(c: char, lower: char) { 'a' <= lower <= 'z' && c as int + 32 == lower as int }

  /** The quotes in which a backslash is sure to escape: a string of the dialect, bare or with a cooked prefix. */
  ghost predicate SurelyEscapes(before: string, quote: char, d: Dialect) {
    || (quote == '\'' && GluedTo(before, "", d))
    || (quote == '"' && GluedTo(before, "", d) && d.doubleQuoteIsEscapedString)
    || ((quote == '\'' || quote == '"') &&
        exists p, b :: GluedTo(before, p, d) && b in d.cookedPrefixes && SameUpToCase(p, b))
  }

  /**
   One plausible lexer: the characters that end a line comment, those a backslash carries the
   comment over, whether CRLF ends it as a pair, whether block comments nest, and whether it
   honours backslashes in what a quote opens, given the text before the quote.
   */
  datatype Reading = Reading(
    lineEnds: set<char>,
    continues: set<char>,
    pairsCrLf: bool,
    nests: bool,
    honours: (string, char) -> bool)

  /**
   The readings the design note calls plausible for a dialect. Raw and hexadecimal literals, quoted
   names, dollar strings and quotes after an unknown prefix may be read either way.
   */
  ghost predicate Plausible(r: Reading, d: Dialect) {
    && d.lineCommentTerminators <= r.lineEnds <= SPLIT_LINES && r.continues <= SPLIT_LINES
    && forall before, quote :: SurelyEscapes(before, quote, d) ==> r.honours(before, quote)
  }

  /**
   The family is as wide as that: with any further line ends and continuations, nesting or not, both the
   reading that honours every backslash and the one that honours none but the sure ones belong to it.
   */
  lemma ExtremesArePlausible(lineEnds: set<char>, continues: set<char>, pairsCrLf: bool, nests: bool, d: Dialect)
    requires d.lineCommentTerminators <= lineEnds <= SPLIT_LINES && continues <= SPLIT_LINES
    ensures Plausible(Reading(lineEnds, continues, pairsCrLf, nests, (before, quote) => true), d)
    ensures Plausible(
              Reading(lineEnds, continues, pairsCrLf, nests, (before, quote) => SurelyEscapes(before, quote, d)), d)
  {
  }

  // ----- the reference lexer

  function ReadLineEnd(s: string, i: nat, r: Reading): (e: nat)
    requires i <= |s|
    ensures i <= e <= |s|
    decreases |s| - i
  {
    if i == |s| then |s|
    else if s[i] == '\\' && i + 1 < |s| && s[i + 1] in r.continues then ReadLineEnd(s, i + 2, r)
    else if s[i] in r.lineEnds then
      if r.pairsCrLf && PairAt(s, i, '\r', '\n') then i + 2 else i + 1
    else ReadLineEnd(s, i + 1, r)
  }

  /** End of a block comment read from `i` inside `depth` open comments, None when it never ends. */
  function ReadBlockEnd(s: string, i: nat, depth: nat, nests: bool): (e: Option<nat>)
    requires depth > 0
    ensures e.Some? ==> i + 2 <= e.value <= |s|
    decreases |s| - i
  {
    if i + 1 >= |s| then None
    else if PairAt(s, i, '*', '/') then
      if depth == 1 then Some(i + 2) else ReadBlockEnd(s, i + 2, depth - 1, nests)
    else if nests && PairAt(s, i, '/', '*') then ReadBlockEnd(s, i + 2, depth + 1, nests)
    else ReadBlockEnd(s, i + 1, depth, nests)
  }

  function ReadLiteralEnd(s: string, i: nat, q: Delimiter, escapes: bool): (e: Option<nat>)
    requires q.n > 0
    ensures e.Some? ==> i < e.value <= |s|
    decreases |s| - i
  {
    if i >= |s| then None
    else if escapes && s[i] == '\\' then ReadLiteralEnd(s, i + 2, q, escapes)
    else if DelimiterAt(s, i, q) then
      if DoubledAt(s, i, q) then ReadLiteralEnd(s, i + 2, q, escapes) else Some(i + q.n)
    else ReadLiteralEnd(s, i + 1, q, escapes)
  }

  datatype Opening = Line | Block | Quoted(q: Delimiter, escapes: bool) | Plain

  /** What a reading sees opening at `i`. */
  function OpeningAt(s: string, i: nat, d: Dialect, r: Reading): (o: Opening)
    requires i < |s|
    ensures o.Quoted? ==> o.q.n > 0
  {
    if At(s, i, "--") || (d.hashLineComments && At(s, i, "#"))
       || (d.doubleSlashLineComments && At(s, i, "//")) then Line
    else if At(s, i, "/*") then Block
    else if At(s, i, "'") || At(s, i, "\"") then
      var n := if d.tripleQuotedStrings && At(s, i, Times(s[i], 3)) then 3 else 1;
      Quoted(Delimiter(s[i], n), r.honours(s[..i], s[i]))
    else if d.backtickIdentifiers && At(s, i, "`") then Quoted(Delimiter('`', 1), r.honours(s[..i], '`'))
    else if d.dollarStrings && At(s, i, "$$") then Quoted(Delimiter('$', 2), r.honours(s[..i], '$'))
    else Plain
  }

  function ReadLexemeEnd(s: string, i: nat, d: Dialect, r: Reading): (e: Option<nat>)
    requires i < |s|
    ensures e.Some? ==> i < e.value <= |s|
  {
    match OpeningAt(s, i, d, r)
    case Line => Some(ReadLineEnd(s, i + 1, r))
    case Block => ReadBlockEnd(s, i + 2, 1, r.nests)
    case Quoted(q, escapes) => ReadLiteralEnd(s, i + q.n, q, escapes)
    case Plain => Some(i + 1)
  }

  /** The positions of the top-level `;` a reading sees from `i` on; None when a construct never ends. */
  function ReadSemicolons(s: string, i: nat, d: Dialect, r: Reading): Option<seq<nat>>
    requires i <= |s|
    decreases |s| - i
  {
    if i == |s| then Some([])
    else
      match ReadLexemeEnd(s, i, d, r)
      case None => None
      case Some(e) =>
        match ReadSemicolons(s, e, d, r)
        case None => None
        case Some(rest) => Some(if s[i] == ';' then [i] + rest else rest)
  }

  // ----- line comments

  /**
   Wherever the scanner ends a line comment, every plausible reading ends it there too, up to the
   LF of one CRLF, which is white space either way.
   */
  lemma LineCommentReadingsAgree(s: string, i: nat, d: Dialect, r: Reading)
    requires d.Valid() && Plausible(r, d)
    requires i < |s| && OpensLineComment(s, i, d) && LineCommentEnd(s, i, d).Ok?
    ensures var e := LineCommentEnd(s, i, d).value;
            var e' := ReadLineEnd(s, i + 1, r);
            || e' == e
            || (e' == e + 1 && s[e] == '\n' && s[e - 1] == '\r')
            || (e' + 1 == e && s[e'] == '\n' && s[e' - 1] == '\r')
  {
    var t := FirstIn(s, i, |s|, d.lineCommentTerminators);
    ReadUpTo(s, i, i + 1, t, d, r);
  }

  /** The reading walks from `k` to the terminator `t` (or to the CR just before it). */
  lemma {:induction false} ReadUpTo(s: string, i: nat, k: nat, t: nat, d: Dialect, r: Reading)
    requires d.Valid() && Plausible(r, d)
    requires i < k <= |s| && OpensLineComment(s, i, d) && LineCommentEnd(s, i, d).Ok?
    requires t == FirstIn(s, i, |s|, d.lineCommentTerminators) && k <= t
    ensures var e' := ReadLineEnd(s, k, r);
            if t == |s| then e' == |s|
            else if s[t] == '\n' && t - 1 >= k && s[t - 1] == '\r' && '\r' in r.lineEnds then
              e' == if r.pairsCrLf then t + 1 else t
            else if r.pairsCrLf && PairAt(s, t, '\r', '\n') then e' == t + 2
            else e' == t + 1
    decreases t - k
  {
    var end := if t == |s| then |s| else t + 1;
    NoneBeforeFirst(s, i, |s|, d.lineCommentTerminators);
    NoneBeforeFirst(s, i, end, LINE_SEPARATORS);
    CrLfBeforeBareCr(s, i, end);
    assert FirstIn(s, i, end, LINE_SEPARATORS) == end;
    assert '\r' !in d.lineCommentTerminators ==> FirstBareCr(s, i, end) == end;
    if k < t {
      assert s[k] !in LINE_SEPARATORS && s[k] != '\n';
      if k + 1 < t {
        assert s[k + 1] !in LINE_SEPARATORS && s[k + 1] != '\n';
      }
      if s[k] == '\r' {
        assert k + 1 == t && s[t] == '\n';
      } else {
        assert s[k] !in r.lineEnds;
        if k + 1 < t && s[k + 1] == '\r' {
          assert '\r' !in d.lineCommentTerminators;
          assert s[k + 2] == '\n' && t == k + 2;
        }
        assert !(s[k] == '\\' && k + 1 < |s| && s[k + 1] in r.continues);
        ReadUpTo(s, i, k + 1, t, d, r);
      }
    }
  }

  // ----- block comments

  /** The character just before the closing pair belongs to the comment body and is a slash. */
  predicate EndsInSlash(s: string, i: nat, e: nat)
    requires i + 4 <= e <= |s|
  {
    i + 4 < e && s[e - 3] == '/'
  }

  /** A flat reading always ends a block comment where the scanner does. */
  lemma FlatCommentAgrees(s: string, i: nat)
    requires PairAt(s, i, '/', '*') && BlockCommentEnd(s, i).Ok?
    ensures ReadBlockEnd(s, i + 2, 1, false) == Some(BlockCommentEnd(s, i).value)
  {
    NoneBeforePair(s, i + 2, |s|, '*', '/');
    FlatReadsTo(s, i + 2, BlockCommentEnd(s, i).value - 2);
  }

  lemma {:induction false} FlatReadsTo(s: string, k: nat, close: nat)
    requires k <= close && PairAt(s, close, '*', '/')
    requires forall j :: k <= j < close ==> !PairAt(s, j, '*', '/')
    ensures ReadBlockEnd(s, k, 1, false) == Some(close + 2)
    decreases close - k
  {
    if k < close {
      FlatReadsTo(s, k + 1, close);
    }
  }

  /**
   A nesting reading ends an accepted block comment where the scanner does if and only if the
   comment's body does not end in a slash: that slash and the closing star open a second level.
   */
  lemma NestedCommentAgreesIff(s: string, i: nat)
    requires PairAt(s, i, '/', '*') && BlockCommentEnd(s, i).Ok?
    ensures var e := BlockCommentEnd(s, i).value;
            ReadBlockEnd(s, i + 2, 1, true) == Some(e) <==> !EndsInSlash(s, i, e)
  {
    var close := BlockCommentEnd(s, i).value - 2;
    NoneBeforePair(s, i + 2, |s|, '*', '/');
    NoneBeforePair(s, i + 2, close, '/', '*');
    NestedReadsTo(s, i + 2, close);
  }

  lemma {:induction false} NestedReadsTo(s: string, k: nat, close: nat)
    requires k <= close && PairAt(s, close, '*', '/')
    requires forall j :: k <= j < close ==> !PairAt(s, j, '*', '/')
    requires forall j :: k <= j && j + 2 <= close ==> !PairAt(s, j, '/', '*')
    ensures if k < close && s[close - 1] == '/'
            then ReadBlockEnd(s, k, 1, true) != Some(close + 2)
            else ReadBlockEnd(s, k, 1, true) == Some(close + 2)
    decreases close - k
  {
    if k < close {
      if k + 1 == close && s[k] == '/' {
        assert ReadBlockEnd(s, k, 1, true) == ReadBlockEnd(s, close + 1, 2, true);
        assert s[close + 1] == '/';
      } else {
        NestedReadsTo(s, k + 1, close);
      }
    }
  }

  // ----- literals

  /** The escape-honouring reading of the scanner is the reading that honours escapes. */
  lemma {:induction false} EscapedEndIsReading(s: string, i: nat, q: Delimiter, form: Form, opener: int)
    requires q.n > 0
    ensures var r := EscapedEnd(s, i, q, form, opener);
            ReadLiteralEnd(s, i, q, true) == if r.Ok? then Some(r.value) else None
    decreases |s| - i
  {
    if i < |s| {
      if s[i] == '\\' || DoubledAt(s, i, q) {
        EscapedEndIsReading(s, i + 2, q, form, opener);
      } 
      if !DelimiterAt(s, i, q) {
        EscapedEndIsReading(s, i + 1, q, form, opener);
      }
    }
  }

  /** Dropping two characters off the front of a run, the first a backslash, keeps its parity. */
  lemma {:induction false} RunParity(s: string, i: nat, c: nat)
    requires i + 2 <= c <= |s| && s[i] == '\\'
    ensures BackslashRun(s, i, c) % 2 == BackslashRun(s, i + 2, c) % 2
    decreases c
  {
    if i + 2 < c && s[c - 1] == '\\' {
      RunParity(s, i, c - 1);
    } else if i + 2 == c {
      assert BackslashRun(s, i, i + 1) == 1 + BackslashRun(s, i, i);
    }
  }

  /** A run stops at a character that is not a backslash. */
  lemma {:induction false} RunStops(s: string, lo: nat, i: nat, c: nat)
    requires lo <= i < c <= |s| && s[i] != '\\'
    ensures BackslashRun(s, lo, c) == BackslashRun(s, i + 1, c)
    decreases c
  {
    if i + 1 < c {
      RunStops(s, lo, i, c - 1);
    }
  }

  /** The escape-honouring reading, started where no delimiter lies before `c`, stops exactly at `c`. */
  lemma {:induction false} ReadingReaches(s: string, i: nat, c: nat, q: Delimiter)
    requires q.n > 0 && q.c != '\\' && i <= c < |s| && DelimiterAt(s, c, q)
    requires forall j :: i <= j < c ==> !DelimiterAt(s, j, q)
    requires BackslashRun(s, i, c) % 2 == 0
    ensures ReadLiteralEnd(s, i, q, true) == ReadLiteralEnd(s, c, q, true)
    decreases c - i
  {
    if i < c {
      if s[i] == '\\' {
        if i + 1 == c {
          assert false;
        } else {
          RunParity(s, i, c);
          ReadingReaches(s, i + 2, c, q);
        }
      } else {
        RunStops(s, i, i, c);
        ReadingReaches(s, i + 1, c, q);
      }
    }
  }

  /** The escape-free reading skips to the next delimiter. */
  lemma {:induction false} EscapeFreeReaches(s: string, i: nat, c: nat, q: Delimiter)
    requires q.n > 0 && i <= c < |s|
    requires forall j :: i <= j < c ==> !DelimiterAt(s, j, q)
    ensures ReadLiteralEnd(s, i, q, false) == ReadLiteralEnd(s, c, q, false)
    decreases c - i
  {
    if i < c {
      EscapeFreeReaches(s, i + 1, c, q);
    }
  }

  /** The literal body at or after a candidate: everything before `i` is the body start or a delimiter. */
  ghost predicate CandidateStart(s: string, body: nat, i: nat) {
    i == body || (body < i <= |s| && s[i - 1] != '\\')
  }

  /**
   Where the candidate-by-candidate reading accepts, the escape-honouring and the escape-free
   readings both end the literal there, for any delimiter that is not a backslash.
   */
  lemma {:induction false} UnescapedReadingsAgree(
    s: string, body: nat, i: nat, q: Delimiter, form: Form, opener: int, escapes: bool)
    requires q.n > 0 && q.c != '\\' && CandidateStart(s, body, i)
    requires UnescapedEnd(s, body, i, q, form, opener).Ok?
    ensures ReadLiteralEnd(s, i, q, escapes) == Some(UnescapedEnd(s, body, i, q, form, opener).value)
    decreases |s| - i
  {
    var close := FindDelimiter(s, i, q);
    NoneBeforeDelimiter(s, i, q);
    if escapes {
      if body < i {
        RunFrom(s, body, i, close);
      }
      ReadingReaches(s, i, close, q);
    } else {
      EscapeFreeReaches(s, i, close, q);
    }
    if DoubledAt(s, close, q) {
      UnescapedReadingsAgree(s, body, close + 2, q, form, opener, escapes);
    }
  }

  lemma RunFrom(s: string, body: nat, i: nat, c: nat)
    requires body < i <= c <= |s| && s[i - 1] != '\\'
    ensures BackslashRun(s, body, c) == BackslashRun(s, i, c)
  {
    RunStops(s, body, i - 1, c);
  }

  /** The two literal loops of the scanner agree wherever the stricter one accepts. */
  lemma UnescapedAcceptedIsEscaped(s: string, body: nat, q: Delimiter, form: Form, opener: int)
    requires q.n > 0 && q.c != '\\' && UnescapedEnd(s, body, body, q, form, opener).Ok?
    ensures EscapedEnd(s, body, q, form, opener) == UnescapedEnd(s, body, body, q, form, opener)
  {
    UnescapedReadingsAgree(s, body, body, q, form, opener, true);
    EscapedEndIsReading(s, body, q, form, opener);
  }

  /** Every reading of an accepted quoted construct ends it where the scanner does. */
  lemma FormReadingsAgree(s: string, body: nat, q: Delimiter, form: Form, escapes: bool)
    requires q.n > 0 && q.c != '\\' && FormEnd(s, body, q, form).Ok? && (IsEscapedForm(form) ==> escapes)
    ensures ReadLiteralEnd(s, body, q, escapes) == Some(FormEnd(s, body, q, form).value)
  {
    if IsEscapedForm(form) {
      EscapedEndIsReading(s, body, q, form, body - q.n);
    } else {
      UnescapedReadingsAgree(s, body, body, q, form, body - q.n, escapes);
    }
  }

  // ----- openings

  lemma {:induction false} PrefixIsRun(s: string, i: nat, d: Dialect)
    requires i <= |s|
    ensures var start := PrefixStart(s, i, d);
            && (forall k :: start <= k < i ==> IsNamePart(s[k], d))
            && (start > 0 ==> !IsNamePart(s[start - 1], d))
    decreases i
  {
    if i > 0 && IsNamePart(s[i - 1], d) {
      PrefixIsRun(s, i - 1, d);
    }
  }

  /** The scanner's prefix is all that is glued to the quote. */
  lemma PrefixIsGlued(s: string, i: nat, d: Dialect)
    requires i <= |s|
    ensures GluedTo(s[..i], s[PrefixStart(s, i, d)..i], d)
  {
    PrefixIsRun(s, i, d);
    RunIsGlued(s, PrefixStart(s, i, d), i, d);
  }

  lemma RunIsGlued(s: string, start: nat, i: nat, d: Dialect)
    requires start <= i <= |s| && (forall k :: start <= k < i ==> IsNamePart(s[k], d))
    requires start > 0 ==> !IsNamePart(s[start - 1], d)
    ensures GluedTo(s[..i], s[start..i], d)
  {
    assert s[..i][start..] == s[start..i];
  }

  /** Nothing else is. */
  lemma GluedIsUnique(before: string, p: string, p': string, d: Dialect)
    requires GluedTo(before, p, d) && GluedTo(before, p', d)
    ensures p == p'
  {
  }

  /** Lower case undoes capitals and nothing else. */
  lemma {:induction false} LowerIsSame(p: string, b: string)
    requires forall k :: 0 <= k < |b| ==> !('A' <= b[k] <= 'Z')
    ensures Lower(p) == b <==> SameUpToCase(p, b)
  {
    if p != "" {
      LowerLength(p);
      if |b| == |p| {
        LowerIsSame(p[1..], b[1..]);
        assert Lower(p) == b <==> Lower(p)[0] == b[0] && Lower(p)[1..] == b[1..];
        assert SameUpToCase(p, b) <==>
               (p[0] == b[0] || IsCapitalOf(p[0], b[0])) && SameUpToCase(p[1..], b[1..]) by {
          assert forall k :: 0 < k < |p| ==> p[k] == p[1..][k - 1] && b[k] == b[1..][k - 1];
        }
      }
    }
  }

  lemma {:induction false} LowerLength(p: string)
    ensures |Lower(p)| == |p|
    ensures forall k :: 0 <= k < |p| ==> !('A' <= Lower(p)[k] <= 'Z')
  {
    if p != "" {
      LowerLength(p[1..]);
    }
  }

  /** Where the scanner reads escapes, so does every plausible reading. */
  lemma EscapedFormsAreSure(s: string, i: nat, d: Dialect, r: Reading)
    requires Plausible(r, d) && i < |s| && (s[i] == '\'' || s[i] == '"')
    requires var form := FormOf(Lower(s[PrefixStart(s, i, d)..i]), QuoteDelimiter(s, i, d), d);
             form.Some? && IsEscapedForm(form.value)
    ensures r.honours(s[..i], s[i])
  {
    var p := s[PrefixStart(s, i, d)..i];
    PrefixIsGlued(s, i, d);
    LowerLength(p);
    LowerIsSame(p, Lower(p));
    assert SurelyEscapes(s[..i], s[i], d);
  }

  lemma LiteralReadingsAgree(s: string, i: nat, d: Dialect, r: Reading)
    requires Plausible(r, d) && i < |s| && CommentEnd(s, i, d) == Ok(None) && LiteralEnd(s, i, d).Ok?
    ensures var l := LiteralEnd(s, i, d).value;
            ReadLexemeEnd(s, i, d, r) == if l.Some? then l else Some(i + 1)
  {
    OpeningsAgree(s, i, d, r);
    match OpeningAt(s, i, d, r)
    case Quoted(q, escapes) =>
      QuotedReadingsAgree(s, i, d, r, q, escapes);
    case _ =>
  }

  /** Where the scanner sees no comment, a reading opens a literal of the same delimiter or none. */
  lemma OpeningsAgree(s: string, i: nat, d: Dialect, r: Reading)
    requires i < |s| && CommentEnd(s, i, d) == Ok(None)
    ensures var o := OpeningAt(s, i, d, r);
            if s[i] == '\'' || s[i] == '"' then o == Quoted(QuoteDelimiter(s, i, d), r.honours(s[..i], s[i]))
            else if s[i] == '`' && d.backtickIdentifiers then o == Quoted(Delimiter('`', 1), r.honours(s[..i], '`'))
            else if d.dollarStrings && PairAt(s, i, '$', '$') then
              o == Quoted(Delimiter('$', 2), r.honours(s[..i], '$'))
            else o == Plain
  {
    CommentsOpenAlike(s, i, d, r);
    PairsAreText(s, i, '$', '$', Delimiter(s[i], 3));
    assert s[i..i + 1] == [s[i]];
  }

  /** Nothing opens at any other character. */
  lemma OthersArePlain(s: string, i: nat, d: Dialect, r: Reading)
    requires i < |s| && s[i] !in {'-', '#', '/', '\'', '"', '`', '$'}
    ensures OpeningAt(s, i, d, r) == Plain
  {
    if i + 1 < |s| {
      assert s[i..i + 2][0] == s[i];
    }
    assert s[i..i + 1] == [s[i]];
  }

  /** Comments open where the scanner opens them. */
  lemma CommentsOpenAlike(s: string, i: nat, d: Dialect, r: Reading)
    requires i < |s|
    ensures OpeningAt(s, i, d, r) == Line <==> OpensLineComment(s, i, d)
    ensures OpeningAt(s, i, d, r) == Block <==> !OpensLineComment(s, i, d) && PairAt(s, i, '/', '*')
  {
    PairsAreText(s, i, '-', '-', Delimiter('-', 1));
    PairsAreText(s, i, '/', '/', Delimiter('-', 1));
    PairsAreText(s, i, '/', '*', Delimiter('-', 1));
    assert s[i..i + 1] == [s[i]];
  }

  lemma QuoteReadingsAgree(s: string, i: nat, d: Dialect, q: Delimiter, escapes: bool, form: Form)
    requires i < |s| && (s[i] == '\'' || s[i] == '"') && q.n > 0 && q.c != '\\'
    requires LiteralEnd(s, i, d) == Wrap(FormEnd(s, i + q.n, q, form)) && LiteralEnd(s, i, d).Ok?
    requires IsEscapedForm(form) ==> escapes
    ensures LiteralEnd(s, i, d).value.Some? && ReadLiteralEnd(s, i + q.n, q, escapes) == LiteralEnd(s, i, d).value
  {
    FormReadingsAgree(s, i + q.n, q, form, escapes);
  }

  lemma QuoteCase(s: string, i: nat, d: Dialect, r: Reading, q: Delimiter, escapes: bool)
    requires Plausible(r, d) && i < |s| && (s[i] == '\'' || s[i] == '"') && LiteralEnd(s, i, d).Ok?
    requires q == QuoteDelimiter(s, i, d) && escapes == r.honours(s[..i], s[i])
    ensures LiteralEnd(s, i, d).value.Some? && ReadLiteralEnd(s, i + q.n, q, escapes) == LiteralEnd(s, i, d).value
  {
    var form := FormOf(Lower(s[PrefixStart(s, i, d)..i]), q, d).value;
    if IsEscapedForm(form) {
      EscapedFormsAreSure(s, i, d, r);
    }
    QuoteReadingsAgree(s, i, d, q, escapes, form);
  }

  lemma BacktickCase(s: string, i: nat, d: Dialect, q: Delimiter, escapes: bool)
    requires i < |s| && s[i] == '`' && d.backtickIdentifiers && LiteralEnd(s, i, d).Ok? && q == Delimiter('`', 1)
    ensures LiteralEnd(s, i, d).value.Some? && ReadLiteralEnd(s, i + q.n, q, escapes) == LiteralEnd(s, i, d).value
  {
    FormReadingsAgree(s, i + 1, q, QuotedIdentifier, escapes);
  }

  lemma DollarCase(s: string, i: nat, d: Dialect, q: Delimiter, escapes: bool)
    requires i < |s| && d.dollarStrings && PairAt(s, i, '$', '$') && LiteralEnd(s, i, d).Ok? && q == Delimiter('$', 2)
    ensures LiteralEnd(s, i, d).value.Some? && ReadLiteralEnd(s, i + q.n, q, escapes) == LiteralEnd(s, i, d).value
  {
    FormReadingsAgree(s, i + 2, q, DollarString, escapes);
  }

  lemma QuotedReadingsAgree(s: string, i: nat, d: Dialect, r: Reading, q: Delimiter, escapes: bool)
    requires Plausible(r, d) && i < |s| && CommentEnd(s, i, d) == Ok(None) && LiteralEnd(s, i, d).Ok?
    requires OpeningAt(s, i, d, r) == Quoted(q, escapes)
    ensures LiteralEnd(s, i, d).value.Some? && ReadLiteralEnd(s, i + q.n, q, escapes) == LiteralEnd(s, i, d).value
  {
    OpeningsAgree(s, i, d, r);
    if s[i] == '\'' || s[i] == '"' {
      QuoteCase(s, i, d, r, q, escapes);
    } else if s[i] == '`' {
      BacktickCase(s, i, d, q, escapes);
    } else {
      DollarCase(s, i, d, q, escapes);
    }
  }
}
