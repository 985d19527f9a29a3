/**
 The fail-closed single-statement scanner: comments, literals, and the one-statement scan.
 Each loop of the original is a method proved equal to a recursive function, and the laws of
 the scanner are proved about the functions.
 */
module SqlScope {
  import opened Outcomes

  // ----- characters and dialects

  /** The code points at which some lexer might end a line comment. */
  const LINE_SEPARATORS: set<char> :=
    {'\U{000B}', '\U{000C}', '\U{001C}', '\U{001D}', '\U{001E}', '\U{0085}', '\U{2028}', '\U{2029}'}

  /** The characters that mean something to the scanner or to the walks built on it. */
  predicate IsMark(c: char) {
    c == '-' || c == '#' || c == '/' || c == '*' || c == '\'' || c == '"' || c == '`' || c == '$' ||
    c == ';' || c == '(' || c == ')' || c == ',' || c == '\\'
  }

  predicate IsAsciiLetter(c: char) { 'a' <= c <= 'z' || 'A' <= c <= 'Z' }

  predicate IsAsciiDigit(c: char) { '0' <= c <= '9' }

  /** What the scanner needs of the Unicode predicates. */
  ghost predicate CharactersFit(isSpace: char -> bool, isAlnum: char -> bool) {
    && (forall c :: isSpace(c) ==> !isAlnum(c) && c != '_' && !IsMark(c))
    && (forall c :: isAlnum(c) ==> !IsMark(c))
    && (forall c :: IsAsciiLetter(c) || IsAsciiDigit(c) ==> isAlnum(c))
    && isSpace('\n') && isSpace('\r') && isSpace(' ')
  }

  /**
   One dialect table. The two Unicode predicates the scanner asks of a character travel with the
   table and stay abstract: `Valid` lists everything the model assumes about them.
   */
  datatype Dialect = Dialect(
    doubleQuoteIsEscapedString: bool,
    backtickIdentifiers: bool,
    hashLineComments: bool,
    doubleSlashLineComments: bool,
    dollarStrings: bool,
    tripleQuotedStrings: bool,
    rawPrefixes: set<string>,
    cookedPrefixes: set<string>,
    hexPrefixes: set<string>,
    lineCommentTerminators: set<char>,
    isSpace: char -> bool,
    isAlnum: char -> bool)
  {
    predicate IsIdentifierChar(c: char) { isAlnum(c) || c == '_' || c == '$' }

    ghost predicate Valid() {
      && CharactersFit(isSpace, isAlnum)
      && (lineCommentTerminators == {'\n'} || lineCommentTerminators == {'\r', '\n'})
    }
  }

  function BigQuery(isSpace: char -> bool, isAlnum: char -> bool): Dialect {
    Dialect(true, true, true, false, false, true, {"r", "rb", "br"}, {"b"}, {}, {'\n'}, isSpace, isAlnum)
  }

  function Snowflake(isSpace: char -> bool, isAlnum: char -> bool): Dialect {
    Dialect(false, false, false, true, true, false, {}, {}, {}, {'\n'}, isSpace, isAlnum)
  }

  function Databricks(isSpace: char -> bool, isAlnum: char -> bool): Dialect {
    Dialect(true, true, false, false, false, false, {"r"}, {}, {"x"}, {'\r', '\n'}, isSpace, isAlnum)
  }

  function Fallback(isSpace: char -> bool, isAlnum: char -> bool): Dialect {
    Dialect(false, false, false, false, false, false, {}, {}, {}, {'\n'}, isSpace, isAlnum)
  }

  /** All four tables are valid as soon as the characters fit, and there are characters that do. */
  lemma TablesAreValid(isSpace: char -> bool, isAlnum: char -> bool)
    ensures CharactersFit(isSpace, isAlnum) <==> BigQuery(isSpace, isAlnum).Valid()
    ensures CharactersFit(isSpace, isAlnum) <==> Snowflake(isSpace, isAlnum).Valid()
    ensures CharactersFit(isSpace, isAlnum) <==> Databricks(isSpace, isAlnum).Valid()
    ensures CharactersFit(isSpace, isAlnum) <==> Fallback(isSpace, isAlnum).Valid()
    ensures CharactersFit(c => c in {' ', '\t', '\n', '\r'}, c => IsAsciiLetter(c) || IsAsciiDigit(c))
  {
  }

  // ----- refusals

  datatype Form = StringLiteral | BytesLiteral | RawString | HexLiteral | QuotedIdentifier | DollarString

  datatype Refusal =
    | SeparatorInLineComment(at: int)
    | BareCarriageReturn(at: int)
    | BackslashEndsLineComment(at: int)
    | UnterminatedBlockComment(at: int)
    | NestedBlockComment(at: int)
    | UnterminatedLiteral(form: Form, at: int)
    | AmbiguousBackslash(form: Form, at: int)
    | GluedPrefix(at: int)
    | GluedDollar(at: int)
    | MoreSql(at: int)
    | NoStatement(at: int)
    | GroupNotClosed(at: int)
    | NestedTooDeep(at: int)
    | NotAQuery(at: int)
    | NoKeyword(at: int)
    | OtherKeyword(at: int)

  type Found = Result<Option<nat>, Refusal>

  // ----- searching

  /** First position in [i, hi) holding a character of `cs`, or `hi`. */
  function FirstIn(s: string, i: nat, hi: nat, cs: set<char>): (k: nat)
    requires i <= hi <= |s|
    ensures i <= k <= hi
    ensures k < hi ==> s[k] in cs
    decreases hi - i
  {
    if i == hi || s[i] in cs then i else FirstIn(s, i + 1, hi, cs)
  }

  lemma {:induction false} NoneBeforeFirst(s: string, i: nat, hi: nat, cs: set<char>)
    requires i <= hi <= |s|
    ensures forall j :: i <= j < FirstIn(s, i, hi, cs) ==> s[j] !in cs
    decreases hi - i
  {
    if i < hi && s[i] !in cs {
      NoneBeforeFirst(s, i + 1, hi, cs);
    }
  }

  /** First CR in [i, hi) that no LF follows before `hi`, or `hi`. */
  function FirstBareCr(s: string, i: nat, hi: nat): (k: nat)
    requires i <= hi <= |s|
    ensures i <= k <= hi
    decreases hi - i
  {
    if i == hi || (s[i] == '\r' && !(i + 1 < hi && s[i + 1] == '\n')) then i
    else FirstBareCr(s, i + 1, hi)
  }

  lemma {:induction false} CrLfBeforeBareCr(s: string, i: nat, hi: nat)
    requires i <= hi <= |s|
    ensures forall j :: i <= j < FirstBareCr(s, i, hi) && s[j] == '\r' ==> j + 1 < hi && s[j + 1] == '\n'
    decreases hi - i
  {
    if i < hi && !(s[i] == '\r' && !(i + 1 < hi && s[i + 1] == '\n')) {
      CrLfBeforeBareCr(s, i + 1, hi);
    }
  }

  predicate PairAt(s: string, i: nat, a: char, b: char) {
    i + 1 < |s| && s[i] == a && s[i + 1] == b
  }

  /** First position k of the pair `ab` with i <= k and k + 2 <= hi, or `hi` when there is none. */
  function FirstPair(s: string, i: nat, hi: nat, a: char, b: char): (k: nat)
    requires i <= hi <= |s|
    ensures i <= k <= hi
    ensures k < hi ==> k + 2 <= hi && PairAt(s, k, a, b)
    decreases hi - i
  {
    if i + 2 > hi then hi
    else if PairAt(s, i, a, b) then i
    else FirstPair(s, i + 1, hi, a, b)
  }

  lemma {:induction false} NoneBeforePair(s: string, i: nat, hi: nat, a: char, b: char)
    requires i <= hi <= |s|
    ensures forall j :: i <= j < FirstPair(s, i, hi, a, b) && j + 2 <= hi ==> !PairAt(s, j, a, b)
    decreases hi - i
  {
    if i + 2 <= hi && !PairAt(s, i, a, b) {
      NoneBeforePair(s, i + 1, hi, a, b);
    }
  }

  // ----- comments

  /** Where the line comment at `index` is over, under the scanner's three rules on its terminators. */
  function LineCommentEnd(s: string, index: nat, d: Dialect): (r: Result<nat, Refusal>)
    requires index < |s|
    ensures r.Ok? ==> index <= r.value <= |s|
    ensures r.Ok? && s[index] !in d.lineCommentTerminators ==> index < r.value
  {
    var t := FirstIn(s, index, |s|, d.lineCommentTerminators);
    var end := if t == |s| then |s| else t + 1;
    var separator := FirstIn(s, index, end, LINE_SEPARATORS);
    if separator < end then Refused(SeparatorInLineComment(separator))
    else
      var bareCr := if '\r' in d.lineCommentTerminators then end else FirstBareCr(s, index, end);
      if bareCr < end then Refused(BareCarriageReturn(bareCr))
      else if t == |s| then Ok(end)
      else
        var before := if s[t] == '\n' && t - 1 > index && s[t - 1] == '\r' then t - 2 else t - 1;
        if before > index && s[before] == '\\' then Refused(BackslashEndsLineComment(before))
        else Ok(end)
  }

  function BlockCommentEnd(s: string, index: nat): (r: Result<nat, Refusal>)
    requires PairAt(s, index, '/', '*')
    ensures r.Ok? ==> index + 4 <= r.value <= |s|
  {
    var close := FirstPair(s, index + 2, |s|, '*', '/');
    if close == |s| then Refused(UnterminatedBlockComment(index))
    else if FirstPair(s, index + 2, close, '/', '*') < close then Refused(NestedBlockComment(index))
    else Ok(close + 2)
  }

  predicate OpensLineComment(s: string, i: nat, d: Dialect)
    requires i < |s|
  {
    PairAt(s, i, '-', '-') || (d.hashLineComments && s[i] == '#') ||
    (d.doubleSlashLineComments && PairAt(s, i, '/', '/'))
  }

  /** End of the comment opening at `i`, None when none opens there. */
  function CommentEnd(s: string, i: nat, d: Dialect): (r: Found)
    requires i < |s|
    ensures r.Ok? && r.value.Some? ==> i <= r.value.value <= |s|
    ensures r.Ok? && r.value.Some? && s[i] !in d.lineCommentTerminators ==> i < r.value.value
  {
    if OpensLineComment(s, i, d) then
      match LineCommentEnd(s, i, d)
      case Ok(e) => Ok(Some(e))
      case Refused(x) => Refused(x)
    else if PairAt(s, i, '/', '*') then
      match BlockCommentEnd(s, i)
      case Ok(e) => Ok(Some(e))
      case Refused(x) => Refused(x)
    else Ok(None)
  }

  // ----- literals

  /** Every delimiter the original passes is one character repeated once, twice or three times. */
  datatype Delimiter = Delimiter(c: char, n: nat)

  predicate DelimiterAt(s: string, i: nat, q: Delimiter) {
    i + q.n <= |s| && forall k :: i <= k < i + q.n ==> s[k] == q.c
  }

  /** A one-character delimiter doubled at `i`. */
  predicate DoubledAt(s: string, i: nat, q: Delimiter) {
    q.n == 1 && PairAt(s, i, q.c, q.c)
  }

  /** The escape-honouring reading of a literal body from position `i`. */
  function EscapedEnd(s: string, i: nat, q: Delimiter, form: Form, opener: int): (r: Result<nat, Refusal>)
    requires q.n > 0
    ensures r.Ok? ==> i < r.value <= |s|
    decreases |s| - i
  {
    if i >= |s| then Refused(UnterminatedLiteral(form, opener))
    else if s[i] == '\\' then EscapedEnd(s, i + 2, q, form, opener)
    else if DelimiterAt(s, i, q) then
      if DoubledAt(s, i, q) then EscapedEnd(s, i + 2, q, form, opener) else Ok(i + q.n)
    else EscapedEnd(s, i + 1, q, form, opener)
  }

  /** First delimiter at or after `i`, or |s|. */
  function FindDelimiter(s: string, i: nat, q: Delimiter): (k: nat)
    requires q.n > 0
    ensures i < |s| ==> i <= k <= |s|
    ensures i >= |s| ==> k == |s|
    ensures k < |s| ==> DelimiterAt(s, k, q)
    decreases |s| - i
  {
    if i >= |s| then |s| else if DelimiterAt(s, i, q) then i else FindDelimiter(s, i + 1, q)
  }

  lemma {:induction false} NoneBeforeDelimiter(s: string, i: nat, q: Delimiter)
    requires q.n > 0
    ensures forall j :: i <= j < FindDelimiter(s, i, q) ==> !DelimiterAt(s, j, q)
    decreases |s| - i
  {
    if i < |s| && !DelimiterAt(s, i, q) {
      NoneBeforeDelimiter(s, i + 1, q);
    }
  }

  /** Length of the backslash run that ends just before `c`, not reaching below `lo`. */
  function BackslashRun(s: string, lo: nat, c: nat): (n: nat)
    requires c <= |s|
    ensures n <= c
    ensures lo <= c ==> lo + n <= c
  {
    if c <= lo || s[c - 1] != '\\' then 0 else 1 + BackslashRun(s, lo, c - 1)
  }

  /** The candidate-by-candidate reading of an escape-free literal, refusing ambiguous backslashes. */
  function UnescapedEnd(s: string, body: nat, i: nat, q: Delimiter, form: Form, opener: int): (r: Result<nat, Refusal>)
    requires q.n > 0
    ensures r.Ok? ==> i < r.value <= |s|
    decreases |s| - i
  {
    var close := FindDelimiter(s, i, q);
    if close == |s| then Refused(UnterminatedLiteral(form, opener))
    else if BackslashRun(s, body, close) % 2 == 1 then Refused(AmbiguousBackslash(form, opener))
    else if DoubledAt(s, close, q) then UnescapedEnd(s, body, close + 2, q, form, opener)
    else Ok(close + q.n)
  }

  /** One candidate of the escape-free reading, its backslashes in order. */
  lemma UnescapedUnfolds(
    s: string, body: nat, i: nat, close: nat, q: Delimiter, form: Form, opener: int, doubled: bool)
    requires q.n > 0 && close == FindDelimiter(s, i, q) < |s| && BackslashRun(s, body, close) % 2 == 0
    requires doubled == DoubledAt(s, close, q)
    ensures doubled ==> UnescapedEnd(s, body, i, q, form, opener) == UnescapedEnd(s, body, close + 2, q, form, opener)
    ensures !doubled ==> UnescapedEnd(s, body, i, q, form, opener) == Ok(close + q.n)
  {
  }

  /** The candidate an accepting reading looks at first. */
  lemma UnescapedReads(s: string, body: nat, i: nat, e: nat, q: Delimiter, form: Form, opener: int)
    returns (close: nat, doubled: bool, next: nat)
    requires q.n > 0 && UnescapedEnd(s, body, i, q, form, opener) == Ok(e)
    ensures close == FindDelimiter(s, i, q) < |s| && BackslashRun(s, body, close) % 2 == 0
    ensures doubled == DoubledAt(s, close, q) && next == close + (if doubled then 2 else q.n) <= e
    ensures if doubled then UnescapedEnd(s, body, next, q, form, opener) == Ok(e) else e == next
  {
    close := FindDelimiter(s, i, q);
    doubled := DoubledAt(s, close, q);
    next := close + if doubled then 2 else q.n;
  }

  method EscapedLiteralEnd(s: string, body: nat, q: Delimiter, form: Form) returns (r: Result<nat, Refusal>)
    requires q.n > 0
    ensures r == EscapedEnd(s, body, q, form, body - q.n)
  {
    var index := body;
    while index < |s|
      invariant EscapedEnd(s, index, q, form, body - q.n) == EscapedEnd(s, body, q, form, body - q.n)
      decreases |s| - index
    {
      if s[index] == '\\' {
        index := index + 2;
        continue;
      }
      if DelimiterAt(s, index, q) {
        if DoubledAt(s, index, q) {
          index := index + 2;
          continue;
        }
        return Ok(index + q.n);
      }
      index := index + 1;
    }
    return Refused(UnterminatedLiteral(form, body - q.n));
  }

  method CountBackslashes(s: string, body: nat, close: nat) returns (run: nat)
    requires close <= |s|
    ensures run == BackslashRun(s, body, close)
  {
    run := 0;
    while close - run - 1 >= body && s[close - run - 1] == '\\'
      invariant run <= close
      invariant run + BackslashRun(s, body, close - run) == BackslashRun(s, body, close)
      decreases close - run
    {
      run := run + 1;
    }
  }

  method UnescapedLiteralEnd(s: string, body: nat, q: Delimiter, form: Form) returns (r: Result<nat, Refusal>)
    requires q.n > 0
    ensures r == UnescapedEnd(s, body, body, q, form, body - q.n)
  {
    var opener := body - q.n;
    ghost var whole, from: nat := UnescapedEnd(s, body, body, q, form, opener), body;
    var close := FindDelimiter(s, body, q);
    while close != |s|
      invariant close == FindDelimiter(s, from, q)
      invariant whole == UnescapedEnd(s, body, from, q, form, opener)
      decreases |s| - close
    {
      var run := CountBackslashes(s, body, close);
      if run % 2 == 1 {
        return Refused(AmbiguousBackslash(form, opener));
      }
      UnescapedUnfolds(s, body, from, close, q, form, opener, DoubledAt(s, close, q));
      if !DoubledAt(s, close, q) {
        return Ok(close + q.n);
      }
      from := close + 2;
      close := FindDelimiter(s, close + 2, q);
    }
    return Refused(UnterminatedLiteral(form, opener));
  }

  /** Start of the identifier characters immediately before `i`. */
  function PrefixStart(s: string, i: nat, d: Dialect): (k: nat)
    requires i <= |s|
    ensures k <= i
  {
    if i > 0 && d.IsIdentifierChar(s[i - 1]) then PrefixStart(s, i - 1, d) else i
  }

  method PrefixBefore(s: string, index: nat, d: Dialect) returns (prefix: string)
    requires index <= |s|
    ensures prefix == s[PrefixStart(s, index, d)..index]
  {
    var start: nat := index;
    while start > 0 && d.IsIdentifierChar(s[start - 1])
      invariant start <= index
      invariant PrefixStart(s, start, d) == PrefixStart(s, index, d)
    {
      start := start - 1;
    }
    prefix := s[start..index];
  }

  /** ASCII lower case: no other character lower-cases into a literal prefix. */
  function Lower(t: string): string {
    if t == "" then ""
    else [if 'A' <= t[0] <= 'Z' then (t[0] as int + 32) as char else t[0]] + Lower(t[1..])
  }

  predicate IsEscapedForm(form: Form) { form == StringLiteral || form == BytesLiteral }

  /** How a quote with this prefix is read, None when an unknown prefix is attached to it. */
  function FormOf(prefix: string, q: Delimiter, d: Dialect): Option<Form> {
    if prefix == "" then
      if q.c == '"' && !d.doubleQuoteIsEscapedString then Some(QuotedIdentifier) else Some(StringLiteral)
    else if prefix in d.rawPrefixes then Some(RawString)
    else if prefix in d.cookedPrefixes then Some(BytesLiteral)
    else if prefix in d.hexPrefixes && q == Delimiter('\'', 1) then Some(HexLiteral)
    else None
  }

  function QuoteDelimiter(s: string, i: nat, d: Dialect): (q: Delimiter)
    requires i < |s|
    ensures 1 <= q.n <= 3 && q.c == s[i] && DelimiterAt(s, i, q)
  {
    if d.tripleQuotedStrings && DelimiterAt(s, i, Delimiter(s[i], 3)) then Delimiter(s[i], 3)
    else Delimiter(s[i], 1)
  }

  /** End (exclusive) of a literal of this form whose body starts at `body`. */
  function FormEnd(s: string, body: nat, q: Delimiter, form: Form): (r: Result<nat, Refusal>)
    requires q.n > 0
    ensures r.Ok? ==> body < r.value <= |s|
  {
    if IsEscapedForm(form) then EscapedEnd(s, body, q, form, body - q.n)
    else UnescapedEnd(s, body, body, q, form, body - q.n)
  }

  function QuotedEnd(s: string, i: nat, d: Dialect): (r: Result<nat, Refusal>)
    requires i < |s| && (s[i] == '\'' || s[i] == '"')
    ensures r.Ok? ==> i + 1 < r.value <= |s|
  {
    var start := PrefixStart(s, i, d);
    var q := QuoteDelimiter(s, i, d);
    match FormOf(Lower(s[start..i]), q, d)
    case Some(form) => FormEnd(s, i + q.n, q, form)
    case None => Refused(GluedPrefix(start))
  }

  /** The quoted construct, if any, that opens at `i`. */
  function LiteralEnd(s: string, i: nat, d: Dialect): (r: Found)
    requires i < |s|
    ensures r.Ok? && r.value.Some? ==> i < r.value.value <= |s|
  {
    if s[i] == '\'' || s[i] == '"' then Wrap(QuotedEnd(s, i, d))
    else if s[i] == '`' && d.backtickIdentifiers then
      Wrap(FormEnd(s, i + 1, Delimiter('`', 1), QuotedIdentifier))
    else if d.dollarStrings && PairAt(s, i, '$', '$') then
      if PrefixStart(s, i, d) < i then Refused(GluedDollar(i))
      else Wrap(FormEnd(s, i + 2, Delimiter('$', 2), DollarString))
    else Ok(None)
  }

  function Wrap(r: Result<nat, Refusal>): Found {
    match r
    case Ok(e) => Ok(Some(e))
    case Refused(x) => Refused(x)
  }

  // ----- the one-statement scan

  /** What the scan finds at one position: trivia up to `next`, a `;`, or part of the statement. */
  datatype Token = Trivia(next: nat) | Semicolon | Solid(end: Result<nat, Refusal>) | BadComment(error: Refusal)

  function TokenAt(s: string, i: nat, d: Dialect): (k: Token)
    requires d.Valid() && i < |s|
    ensures k.Trivia? ==> i < k.next <= |s|
    ensures k.Solid? && k.end.Ok? ==> i < k.end.value <= |s|
  {
    match CommentEnd(s, i, d)
    case Refused(x) => BadComment(x)
    case Ok(Some(c)) => Trivia(c)
    case Ok(None) =>
      if d.isSpace(s[i]) then Trivia(i + 1)
      else if s[i] == ';' then Semicolon
      else
        match LiteralEnd(s, i, d)
        case Refused(x) => Solid(Refused(x))
        case Ok(Some(e)) => Solid(Ok(e))
        case Ok(None) => Solid(Ok(i + 1))
  }

  /** The scan from position `i`: `seen` is whether the `;` was read, `end` the statement end so far. */
  function ScanFrom(s: string, i: nat, seen: bool, end: nat, d: Dialect): (r: Result<nat, Refusal>)
    requires d.Valid() && i <= |s| && end <= i
    ensures r.Ok? ==> end <= r.value <= |s|
    decreases |s| - i
  {
    if i == |s| then Ok(end)
    else
      match TokenAt(s, i, d)
      case BadComment(x) => Refused(x)
      case Trivia(next) => ScanFrom(s, next, seen, end, d)
      case Semicolon => if seen then Refused(MoreSql(i)) else ScanFrom(s, i + 1, true, end, d)
      case Solid(r) =>
        if seen then Refused(MoreSql(i))
        else
          match r
          case Refused(x) => Refused(x)
          case Ok(e) => ScanFrom(s, e, seen, e, d)
  }

  function ScanResult(s: string, d: Dialect): (r: Result<nat, Refusal>)
    requires d.Valid()
    ensures r.Ok? ==> r.value <= |s|
  {
    ScanFrom(s, 0, false, 0, d)
  }

  method Scan(s: string, d: Dialect) returns (r: Result<nat, Refusal>)
    requires d.Valid()
    ensures r == ScanResult(s, d)
  {
    var index, seen, statementEnd := 0, false, 0;
    while index < |s|
      invariant statementEnd <= index <= |s|
      invariant ScanFrom(s, index, seen, statementEnd, d) == ScanResult(s, d)
      decreases |s| - index
    {
      var ch := s[index];
      var comment := CommentEnd(s, index, d);
      match comment {
        case Refused(x) => return Refused(x);
        case Ok(Some(c)) =>
          index := c;
          continue;
        case Ok(None) =>
      }
      if d.isSpace(ch) {
        index := index + 1;
        continue;
      }
      if seen {
        return Refused(MoreSql(index));
      }
      if ch == ';' {
        seen := true;
        index := index + 1;
        continue;
      }
      var literal := LiteralEnd(s, index, d);
      match literal {
        case Refused(x) => return Refused(x);
        case Ok(Some(e)) =>
          index, statementEnd := e, e;
        case Ok(None) =>
          index := index + 1;
          statementEnd := index;
      }
    }
    return Ok(statementEnd);
  }
}
