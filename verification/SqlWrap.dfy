/**
 The LIMIT wrapper: what `single_statement_body` hands to an engine, and why enclosing it in
 `SELECT * FROM (...) AS cost_guard_row_cap LIMIT n` cannot change how it is lexed.
 */
module SqlWrap {
  import opened Outcomes
  import opened SqlScope
  import opened SqlPaths
  import opened SqlSlices

  function StripLeft(s: string, d: Dialect): string {
    if s != "" && d.isSpace(s[0]) then StripLeft(s[1..], d) else s
  }

  function StripRight(s: string, d: Dialect): string {
    if s != "" && d.isSpace(s[|s| - 1]) then StripRight(s[..|s| - 1], d) else s
  }

  function Strip(s: string, d: Dialect): string {
    StripRight(StripLeft(s, d), d)
  }

  function DropSemicolons(s: string): string {
    if s != "" && s[|s| - 1] == ';' then DropSemicolons(s[..|s| - 1]) else s
  }

  /** The statement without its trailing `;`, white space and comments. */
  function SingleStatementBody(s: string, d: Dialect): string
    requires d.Valid()
  {
    match ScanResult(s, d)
    case Ok(end) => Strip(s[..end], d)
    case Refused(_) => Strip(DropSemicolons(Strip(s, d)), d)
  }

  predicate IsSingleStatement(s: string, d: Dialect)
    requires d.Valid()
  {
    var r := ScanResult(s, d);
    r.Ok? && r.value > 0
  }

  function Decimal(n: nat): (t: string)
    ensures t != "" && forall k :: 0 <= k < |t| ==> IsAsciiDigit(t[k])
  {
    var digit := ['0' + (n % 10) as char];
    if n < 10 then digit else Decimal(n / 10) + digit
  }

  const WRAP_HEAD := "SELECT * FROM ("
  const WRAP_TAIL := ") AS cost_guard_row_cap LIMIT "

  function WrapInLimit(body: string, limit: nat): string {
    WRAP_HEAD + body + (WRAP_TAIL + Decimal(limit))
  }

  // ----- facts about the scan's result

  /** The result is the end the scan started with, or lies beyond its start. */
  lemma {:induction false} ScanAdvances(s: string, i: nat, seen: bool, end: nat, d: Dialect)
    requires d.Valid() && end <= i <= |s| && ScanFrom(s, i, seen, end, d).Ok?
    ensures var v := ScanFrom(s, i, seen, end, d).value; v == end || (v > i && !seen)
    decreases |s| - i
  {
    if i < |s| {
      match TokenAt(s, i, d)
      case Trivia(next) => ScanAdvances(s, next, seen, end, d);
      case Semicolon => ScanAdvances(s, i + 1, true, end, d);
      case Solid(r) => ScanAdvances(s, r.value, seen, r.value, d);
      case BadComment(_) =>
    }
  }

  /** A result beyond the start does not depend on the end the scan started with. */
  lemma {:induction false} ScanForgets(s: string, i: nat, end: nat, end': nat, d: Dialect)
    requires d.Valid() && end <= i <= |s| && end' <= i
    requires ScanFrom(s, i, false, end, d).Ok? && ScanFrom(s, i, false, end, d).value > i
    ensures ScanFrom(s, i, false, end', d) == ScanFrom(s, i, false, end, d)
    decreases |s| - i
  {
    match TokenAt(s, i, d)
    case Trivia(next) =>
      ScanAdvances(s, next, false, end, d);
      ScanForgets(s, next, end, end', d);
    case Semicolon =>
      ScanAdvances(s, i + 1, true, end, d);
    case Solid(_) =>
    case BadComment(_) =>
  }

  lemma {:induction false} EscapedEndsInDelimiter(s: string, i: nat, q: Delimiter, form: Form, o: int)
    requires q.n > 0 && EscapedEnd(s, i, q, form, o).Ok?
    ensures s[EscapedEnd(s, i, q, form, o).value - 1] == q.c
    decreases |s| - i
  {
    if s[i] == '\\' || (DelimiterAt(s, i, q) && DoubledAt(s, i, q)) {
      EscapedEndsInDelimiter(s, i + 2, q, form, o);
    } else if !DelimiterAt(s, i, q) {
      EscapedEndsInDelimiter(s, i + 1, q, form, o);
    }
  }

  lemma {:induction false} UnescapedEndsInDelimiter(s: string, body: nat, i: nat, q: Delimiter, form: Form, o: int)
    requires q.n > 0 && UnescapedEnd(s, body, i, q, form, o).Ok?
    ensures s[UnescapedEnd(s, body, i, q, form, o).value - 1] == q.c
    decreases |s| - i
  {
    var close := FindDelimiter(s, i, q);
    if DoubledAt(s, close, q) {
      UnescapedEndsInDelimiter(s, body, close + 2, q, form, o);
    }
  }

  lemma FormEndsInDelimiter(s: string, body: nat, q: Delimiter, form: Form)
    requires q.n > 0 && FormEnd(s, body, q, form).Ok?
    ensures s[FormEnd(s, body, q, form).value - 1] == q.c
  {
    if IsEscapedForm(form) {
      EscapedEndsInDelimiter(s, body, q, form, body - q.n);
    } else {
      UnescapedEndsInDelimiter(s, body, body, q, form, body - q.n);
    }
  }

  lemma LiteralEndsInMark(s: string, i: nat, d: Dialect)
    requires i < |s| && LiteralEnd(s, i, d).Ok? && LiteralEnd(s, i, d).value.Some?
    ensures IsMark(s[LiteralEnd(s, i, d).value.value - 1])
  {
    if s[i] == '\'' || s[i] == '"' {
      var q := QuoteDelimiter(s, i, d);
      var form := FormOf(Lower(s[PrefixStart(s, i, d)..i]), q, d).value;
      FormEndsInDelimiter(s, i + q.n, q, form);
    } else if s[i] == '`' {
      FormEndsInDelimiter(s, i + 1, Delimiter('`', 1), QuotedIdentifier);
    } else {
      FormEndsInDelimiter(s, i + 2, Delimiter('$', 2), DollarString);
    }
  }

  /** The statement end after one step that met no `;`. */
  function NextEnd(s: string, i: nat, end: nat, d: Dialect): (n: nat)
    requires d.Valid() && end <= i < |s| && Step(s, i, d).Ok?
    ensures n <= Step(s, i, d).value
  {
    if TokenAt(s, i, d).Trivia? then end else Step(s, i, d).value
  }

  lemma ScanUnfolds(s: string, i: nat, end: nat, d: Dialect)
    requires d.Valid() && end <= i < |s| && s[i] != ';' && Step(s, i, d).Ok?
    ensures ScanFrom(s, i, false, end, d) == ScanFrom(s, Step(s, i, d).value, false, NextEnd(s, i, end, d), d)
  {
    TokenIsStep(s, i, d);
  }

  /** Before the statement's end the scan meets no `;`, and every step stays inside the statement. */
  lemma ScanStepInside(s: string, i: nat, end: nat, v: nat, d: Dialect)
    requires d.Valid() && end <= i < |s| && i < v && ScanFrom(s, i, false, end, d) == Ok(v)
    ensures s[i] != ';' && Step(s, i, d).Ok? && Step(s, i, d).value <= v
    ensures TokenAt(s, i, d).Trivia? ==> Step(s, i, d).value < v
    ensures ScanFrom(s, Step(s, i, d).value, false, NextEnd(s, i, end, d), d) == Ok(v)
  {
    TokenIsStep(s, i, d);
    if s[i] == ';' {
      ScanAdvances(s, i + 1, true, end, d);
    } else {
      ScanUnfolds(s, i, end, d);
      ScanAdvances(s, Step(s, i, d).value, false, NextEnd(s, i, end, d), d);
    }
  }

  lemma SolidStep(s: string, i: nat, d: Dialect)
    requires d.Valid() && i < |s| && TokenAt(s, i, d).Solid? && Step(s, i, d).Ok?
    ensures !d.isSpace(s[Step(s, i, d).value - 1])
  {
    OpenersAreComplete(s, i, d);
    if LiteralEnd(s, i, d).value.Some? {
      LiteralEndsInMark(s, i, d);
    }
  }

  /** The step that brings the statement's end to `v` is a solid token. */
  lemma LastStepIsSolid(s: string, i: nat, end: nat, v: nat, d: Dialect)
    requires d.Valid() && end <= i < |s| && Step(s, i, d).Ok? && s[i] != ';'
    requires end < v && NextEnd(s, i, end, d) == v
    ensures i < v <= |s| && TokenAt(s, i, d) == Solid(Ok(v)) && !d.isSpace(s[v - 1])
  {
    TokenIsStep(s, i, d);
    SolidStep(s, i, d);
  }

  /** From `i` on the text holds nothing but trivia and at most one `;`. */
  ghost predicate NothingFollows(s: string, i: nat, d: Dialect)
    requires d.Valid() && i <= |s|
    decreases |s| - i
  {
    i == |s| ||
    match TokenAt(s, i, d)
    case Trivia(next) => NothingFollows(s, next, d)
    case Semicolon => OnlyTrivia(s, i + 1, d)
    case Solid(_) => false
    case BadComment(_) => false
  }

  /** A scan that does not move the end on has met nothing else. */
  lemma {:induction false} UnmovedEnd(s: string, i: nat, end: nat, d: Dialect)
    requires d.Valid() && end <= i <= |s| && ScanFrom(s, i, false, end, d) == Ok(end)
    ensures NothingFollows(s, i, d)
    decreases |s| - i
  {
    if i < |s| {
      match TokenAt(s, i, d)
      case Trivia(next) => UnmovedEnd(s, next, end, d);
      case Semicolon => ScanAfterSemicolon(s, i + 1, end, d);
      case Solid(_) =>
      case BadComment(_) =>
    }
  }

  /**
   The statement ends with its last solid token, the one that opens at `k` on the scanner's path: a
   token that is neither blank, comment nor `;`, and after it come only trivia and at most one `;`.
   */
  lemma {:induction false} StatementEndsSolid(s: string, i: nat, end: nat, v: nat, d: Dialect) returns (k: nat)
    requires d.Valid() && end <= i <= |s| && ScanFrom(s, i, false, end, d) == Ok(v) && end < v
    ensures i <= k < v <= |s| && Reach(s, d, i, k) && TokenAt(s, k, d) == Solid(Ok(v))
    ensures !d.isSpace(s[v - 1]) && NothingFollows(s, v, d)
    decreases |s| - i
  {
    ScanAdvances(s, i, false, end, d);
    ScanStepInside(s, i, end, v, d);
    if NextEnd(s, i, end, d) == v {
      LastStepIsSolid(s, i, end, v, d);
      UnmovedEnd(s, v, v, d);
      k := i;
    } else {
      ScanAdvances(s, Step(s, i, d).value, false, NextEnd(s, i, end, d), d);
      k := StatementEndsSolid(s, Step(s, i, d).value, NextEnd(s, i, end, d), v, d);
    }
  }

  // ----- the body

  lemma NextEndRestrict(t: string, s: string, a: nat, i: nat, end: nat, p: nat, pe: nat, d: Dialect)
    requires d.Valid() && Embeds(t, s, a) && ClearStart(s, a, d) && end <= i < |t| && p == a + i && pe == a + end
    requires Step(s, p, d).Ok? && Step(s, p, d).value <= a + |t|
    ensures t[i] == s[p] && Step(t, i, d).Ok? && Step(s, p, d).value == a + Step(t, i, d).value
    ensures NextEnd(s, p, pe, d) == a + NextEnd(t, i, end, d)
  {
    StepRestrict(t, s, a, i, d);
    assert t[i] == s[a + i];
  }

  /**
   Scanning the statement alone gives the statement's own end: nothing of it is left over. The scan
   of the whole text stands at `p` with statement end `pe`, that of the slice at `i` with `end`.
   */
  lemma {:induction false} ScanRestrict(
    t: string, s: string, a: nat, i: nat, end: nat, p: nat, pe: nat, v: nat, d: Dialect)
    requires d.Valid() && Embeds(t, s, a) && ClearStart(s, a, d) && end <= i <= |t|
    requires p == a + i && pe == a + end && v == a + |t| && ScanFrom(s, p, false, pe, d) == Ok(v)
    ensures ScanFrom(t, i, false, end, d) == Ok(|t|)
    decreases |t| - i
  {
    ScanAdvances(s, p, false, pe, d);
    if i < |t| {
      ScanStepInside(s, p, pe, v, d);
      NextEndRestrict(t, s, a, i, end, p, pe, d);
      ScanUnfolds(t, i, end, d);
      ScanRestrict(
        t, s, a, Step(t, i, d).value, NextEnd(t, i, end, d), Step(s, p, d).value, NextEnd(s, p, pe, d), v, d);
    }
  }

  /** Stripping white space is taking a slice. */
  lemma {:induction false} StripLeftIsSlice(s: string, d: Dialect) returns (lo: nat)
    ensures lo <= |s| && StripLeft(s, d) == s[lo..]
    ensures forall k :: 0 <= k < lo ==> d.isSpace(s[k])
    ensures lo < |s| ==> !d.isSpace(s[lo])
  {
    if s != "" && d.isSpace(s[0]) {
      lo := StripLeftIsSlice(s[1..], d);
      assert forall k :: 0 < k < lo + 1 ==> s[k] == s[1..][k - 1];
      lo := lo + 1;
    } else {
      lo := 0;
    }
  }

  lemma {:induction false} ScanSkipsSpaces(s: string, i: nat, lo: nat, d: Dialect)
    requires d.Valid() && i <= lo <= |s| && forall k :: i <= k < lo ==> d.isSpace(s[k])
    ensures ScanFrom(s, i, false, 0, d) == ScanFrom(s, lo, false, 0, d)
    decreases lo - i
  {
    if i < lo {
      ScanSkipsSpaces(s, i + 1, lo, d);
    }
  }

  /** The body is the slice of the text from its first solid character to the statement's end. */
  lemma BodyIsSlice(s: string, d: Dialect) returns (lo: nat)
    requires d.Valid() && IsSingleStatement(s, d)
    ensures lo < ScanResult(s, d).value && SingleStatementBody(s, d) == s[lo..ScanResult(s, d).value]
    ensures forall k :: 0 <= k < lo ==> d.isSpace(s[k])
    ensures !d.isSpace(s[lo])
  {
    var end := ScanResult(s, d).value;
    lo := StripLeftIsSlice(s[..end], d);
    var last := StatementEndsSolid(s, 0, 0, end, d);
    assert s[..end][end - 1] == s[end - 1];
    assert s[..end][lo..] == s[lo..end];
    assert s[lo..end][|s[lo..end]| - 1] == s[end - 1];
    assert forall k :: 0 <= k < lo ==> s[k] == s[..end][k];
  }

  /**
   The body scans as one statement that ends at its own last character: no trailing `;`, comment
   or white space is left in it.
   */
  lemma BodyScansWhole(s: string, d: Dialect)
    requires d.Valid() && IsSingleStatement(s, d)
    ensures var b := SingleStatementBody(s, d); b != "" && ScanResult(b, d) == Ok(|b|)
  {
    var lo := BodyIsSlice(s, d);
    var end := ScanResult(s, d).value;
    var b := s[lo..end];
    ScanSkipsSpaces(s, 0, lo, d);
    ScanAdvances(s, lo, false, 0, d);
    ScanForgets(s, lo, 0, lo, d);
    if lo > 0 {
      assert d.isSpace(s[lo - 1]);
    }
    ScanRestrict(b, s, lo, 0, 0, lo, lo, end, d);
  }

  lemma BodyIsIdempotent(s: string, d: Dialect)
    requires d.Valid() && IsSingleStatement(s, d)
    ensures var b := SingleStatementBody(s, d); SingleStatementBody(b, d) == b
  {
    var b := SingleStatementBody(s, d);
    BodyScansWhole(s, d);
    var lo := BodyIsSlice(s, d);
    var lo' := BodyIsSlice(b, d);
    assert b[0] == s[lo];
    assert lo' == 0;
  }

  // ----- the wrapper

  predicate IsHarmless(c: char) { !IsLexerOpener(c) && c != ';' }

  /** Over characters that open nothing the scan only moves the statement end along. */
  lemma {:induction false} ScanHarmless(s: string, i: nat, j: nat, end: nat, d: Dialect)
    requires d.Valid() && end <= i < j <= |s|
    requires forall k :: i <= k < j ==> IsHarmless(s[k])
    requires !d.isSpace(s[j - 1])
    ensures ScanFrom(s, i, false, end, d) == ScanFrom(s, j, false, j, d)
    decreases j - i
  {
    OpenersAreComplete(s, i, d);
    if i + 1 < j {
      ScanHarmless(s, i + 1, j, if d.isSpace(s[i]) then end else i + 1, d);
    }
  }

  lemma NextEndExtend(t: string, s: string, a: nat, i: nat, end: nat, p: nat, pe: nat, d: Dialect)
    requires d.Valid() && Embeds(t, s, a) && ClearStart(s, a, d) && ClearEnd(t, s, a) && end <= i < |t|
    requires p == a + i && pe == a + end
    requires Step(t, i, d).Ok? && (TokenAt(t, i, d).Trivia? ==> Step(t, i, d).value < |t|)
    ensures t[i] == s[p] && Step(s, p, d).Ok? && Step(s, p, d).value == a + Step(t, i, d).value
    ensures NextEnd(s, p, pe, d) == a + NextEnd(t, i, end, d)
  {
    TokenIsStep(t, i, d);
    StepExtend(t, s, a, i, d);
    assert t[i] == s[a + i];
  }

  /**
   Scanning a whole-statement body inside a larger text comes out at the body's end. The scan of
   the body stands at `i` with `end`, that of the larger text at `p` with `pe`.
   */
  lemma {:induction false} ScanExtend(
    t: string, s: string, a: nat, i: nat, end: nat, p: nat, pe: nat, d: Dialect)
    requires d.Valid() && Embeds(t, s, a) && ClearStart(s, a, d) && ClearEnd(t, s, a) && end <= i <= |t|
    requires p == a + i && pe == a + end && ScanFrom(t, i, false, end, d) == Ok(|t|)
    ensures ScanFrom(s, p, false, pe, d) == ScanFrom(s, a + |t|, false, a + |t|, d)
    decreases |t| - i
  {
    if i < |t| {
      ScanStepInside(t, i, end, |t|, d);
      NextEndExtend(t, s, a, i, end, p, pe, d);
      ScanUnfolds(s, p, pe, d);
      ScanExtend(t, s, a, Step(t, i, d).value, NextEnd(t, i, end, d), Step(s, p, d).value, NextEnd(s, p, pe, d), d);
    }
  }

  /**
   Wrap composition: around the body of an accepted statement the LIMIT wrapper is itself exactly
   one statement, it ends at its last character, and it holds no top-level `;`.
   */
  lemma WrapperScansWhole(s: string, limit: nat, d: Dialect)
    requires d.Valid() && IsSingleStatement(s, d)
    ensures var w := WrapInLimit(SingleStatementBody(s, d), limit);
            ScanResult(w, d) == Ok(|w|) && Semicolons(w, 0, d) == Ok([])
  {
    var b := SingleStatementBody(s, d);
    var w := WrapInLimit(b, limit);
    BodyScansWhole(s, d);
    WrapperLayout(b, limit);
    var a := |WRAP_HEAD|;
    ScanHarmless(w, 0, a, 0, d);
    ScanExtend(b, w, a, 0, 0, a, a, d);
    ScanHarmless(w, a + |b|, |w|, a + |b|, d);
    WholeScanHasNoSemicolon(w, d);
  }

  /** Where the body sits in the wrapper, and that the wrapper's own text opens nothing. */
  lemma WrapperLayout(b: string, limit: nat)
    ensures var w, a := WrapInLimit(b, limit), |WRAP_HEAD|;
            && a + |b| < |w| && Embeds(b, w, a)
            && (forall k :: 0 <= k < a ==> IsHarmless(w[k]))
            && w[a - 1] == '(' && w[a + |b|] == ')'
            && (forall k :: a + |b| <= k < |w| ==> IsHarmless(w[k]))
            && IsAsciiDigit(w[|w| - 1])
  {
    var w, a, tail := WrapInLimit(b, limit), |WRAP_HEAD|, WRAP_TAIL + Decimal(limit);
    assert forall k :: 0 <= k < a ==> IsHarmless(WRAP_HEAD[k]);
    assert forall k :: 0 <= k < a ==> w[k] == WRAP_HEAD[k];
    TailIsHarmless(limit);
    assert forall k :: a + |b| <= k < |w| ==> w[k] == tail[k - a - |b|];
  }

  lemma TailIsHarmless(limit: nat)
    ensures var tail := WRAP_TAIL + Decimal(limit);
            && (forall k :: 0 <= k < |tail| ==> IsHarmless(tail[k]))
            && IsAsciiDigit(tail[|tail| - 1])
  {
    assert forall k :: 0 <= k < |WRAP_TAIL| ==> IsHarmless(WRAP_TAIL[k]);
  }

  lemma WholeScanHasNoSemicolon(s: string, d: Dialect)
    requires d.Valid() && s != "" && ScanResult(s, d) == Ok(|s|)
    ensures Semicolons(s, 0, d) == Ok([])
  {
    NoSemicolonBefore(s, 0, 0, d);
  }

  lemma {:induction false} NoSemicolonBefore(s: string, i: nat, end: nat, d: Dialect)
    requires d.Valid() && end <= i <= |s| && ScanFrom(s, i, false, end, d) == Ok(|s|)
    ensures Semicolons(s, i, d) == Ok([])
    decreases |s| - i
  {
    if i < |s| {
      ScanStepInside(s, i, end, |s|, d);
      NoSemicolonBefore(s, Step(s, i, d).value, NextEnd(s, i, end, d), d);
    }
  }
}
