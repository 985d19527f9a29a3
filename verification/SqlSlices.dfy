/**
 Locality of the lexer. The gates lex the same characters several times: as the whole text, as a
 `;` segment, as the slice of a CTE body, inside the LIMIT wrapper. Here a text `t` sits inside a
 text `s` at offset `a`, and the lexemes of one are the lexemes of the other.
 */
module SqlSlices {
  import opened Outcomes
  import opened SqlScope
  import opened SqlPaths

  /** `t` is the part of `s` that starts at `a`. */
  ghost predicate Embeds(t: string, s: string, a: nat) {
    a + |t| <= |s| && forall k :: 0 <= k < |t| ==> t[k] == s[a + k]
  }

  /** No literal of the slice can have a prefix that starts before the slice. */
  ghost predicate ClearStart(s: string, a: nat, d: Dialect)
    requires a <= |s|
  {
    a == 0 || !d.IsIdentifierChar(s[a - 1]) || (a < |s| && s[a] == '(')
  }

  /** What follows the slice, if anything, is a closing parenthesis. */
  ghost predicate ClearEnd(t: string, s: string, a: nat)
    requires a + |t| <= |s|
  {
    a + |t| == |s| || s[a + |t|] == ')'
  }

  function Shift(r: Result<nat, Refusal>, a: nat): Result<nat, Refusal> {
    match r
    case Ok(e) => Ok(e + a)
    case Refused(x) => Refused(x)
  }

  function ShiftFound(r: Found, a: nat): Found {
    match r
    case Ok(Some(e)) => Ok(Some(e + a))
    case _ => r
  }

  // ----- searches

  lemma FirstInShift(t: string, s: string, a: nat, i: nat, hi: nat, hi': nat, cs: set<char>)
    requires Embeds(t, s, a) && i <= hi <= |t| && a + hi <= hi' <= |s|
    requires FirstIn(t, i, hi, cs) < hi || FirstIn(s, a + i, hi', cs) < a + hi || hi' == a + hi
    ensures FirstIn(s, a + i, hi', cs) == a + FirstIn(t, i, hi, cs)
  {
    var k, k' := FirstIn(t, i, hi, cs), FirstIn(s, a + i, hi', cs);
    NoneBeforeFirst(t, i, hi, cs);
    NoneBeforeFirst(s, a + i, hi', cs);
    assert k < |t| ==> t[k] == s[a + k];
    assert k' < a + |t| ==> t[k' - a] == s[a + (k' - a)];
  }

  lemma FirstBareCrShift(t: string, s: string, a: nat, i: nat, hi: nat)
    requires Embeds(t, s, a) && i <= hi <= |t|
    ensures FirstBareCr(s, a + i, a + hi) == a + FirstBareCr(t, i, hi)
    decreases hi - i
  {
    if i < hi {
      assert t[i] == s[a + i];
      if i + 1 < hi {
        assert t[i + 1] == s[a + (i + 1)];
      }
      FirstBareCrShift(t, s, a, i + 1, hi);
    }
  }

  lemma PairShift(t: string, s: string, a: nat, i: nat, x: char, y: char)
    requires Embeds(t, s, a) && i + 1 < |t|
    ensures PairAt(t, i, x, y) == PairAt(s, a + i, x, y)
  {
    assert t[i] == s[a + i] && t[i + 1] == s[a + (i + 1)];
  }

  lemma FirstPairShift(t: string, s: string, a: nat, i: nat, hi: nat, hi': nat, x: char, y: char)
    requires Embeds(t, s, a) && i <= hi <= |t| && a + hi <= hi' <= |s|
    requires FirstPair(t, i, hi, x, y) < hi || FirstPair(s, a + i, hi', x, y) + 2 <= a + hi || hi' == a + hi
    ensures FirstPair(s, a + i, hi', x, y) == a + FirstPair(t, i, hi, x, y)
  {
    var k, k' := FirstPair(t, i, hi, x, y), FirstPair(s, a + i, hi', x, y);
    NoneBeforePair(t, i, hi, x, y);
    NoneBeforePair(s, a + i, hi', x, y);
    if a + k < k' {
      PairShift(t, s, a, k, x, y);
    } else if k' < a + k {
      PairShift(t, s, a, k' - a, x, y);
    }
  }

  // ----- comments

  /** The character rule C looks at, two before the terminator when it is the LF of a CRLF. */
  function BeforeTerminator(s: string, index: nat, k: nat): int
    requires k < |s|
  {
    if s[k] == '\n' && k - 1 > index && s[k - 1] == '\r' then k - 2 else k - 1
  }

  lemma BackslashShift(t: string, s: string, a: nat, i: nat, k: nat)
    requires Embeds(t, s, a) && i <= k < |t|
    ensures BeforeTerminator(s, a + i, a + k) == a + BeforeTerminator(t, i, k)
    ensures var b := BeforeTerminator(t, i, k); b > i ==> t[b] == s[a + b]
  {
    assert t[k] == s[a + k];
    assert k > 0 ==> t[k - 1] == s[a + (k - 1)];
    assert k > 1 ==> t[k - 2] == s[a + (k - 2)];
  }

  /** Rules B and C for a line comment at `i` whose terminator is at `k` and whose end is `end`. */
  predicate RulesHold(s: string, i: nat, k: nat, end: nat, d: Dialect)
    requires i <= k <= end <= |s|
  {
    && FirstIn(s, i, end, LINE_SEPARATORS) == end
    && ('\r' in d.lineCommentTerminators || FirstBareCr(s, i, end) == end)
    && (k < end ==> !(BeforeTerminator(s, i, k) > i && s[BeforeTerminator(s, i, k)] == '\\'))
  }

  function LineCommentByRules(s: string, i: nat, d: Dialect): (e: Option<nat>)
    requires i < |s|
    ensures LineCommentEnd(s, i, d).Ok? == e.Some? && (e.Some? ==> LineCommentEnd(s, i, d) == Ok(e.value))
  {
    var k := FirstIn(s, i, |s|, d.lineCommentTerminators);
    var end := if k == |s| then |s| else k + 1;
    if RulesHold(s, i, k, end, d) then Some(end) else None
  }

  lemma RulesShift(t: string, s: string, a: nat, i: nat, k: nat, end: nat, d: Dialect)
    requires Embeds(t, s, a) && i <= k <= end <= |t|
    ensures RulesHold(t, i, k, end, d) == RulesHold(s, a + i, a + k, a + end, d)
  {
    FirstInShift(t, s, a, i, end, a + end, LINE_SEPARATORS);
    FirstBareCrShift(t, s, a, i, end);
    if k < end {
      BackslashShift(t, s, a, i, k);
    }
  }

  lemma LineCommentShift(t: string, s: string, a: nat, i: nat, d: Dialect)
    requires d.Valid() && Embeds(t, s, a) && i < |t|
    requires FirstIn(t, i, |t|, d.lineCommentTerminators) < |t| || a + |t| == |s|
    ensures var e, e' := LineCommentByRules(t, i, d), LineCommentByRules(s, a + i, d);
            e'.Some? == e.Some? && (e.Some? ==> e'.value == a + e.value)
  {
    FirstInShift(t, s, a, i, |t|, |s|, d.lineCommentTerminators);
    var k := FirstIn(t, i, |t|, d.lineCommentTerminators);
    RulesShift(t, s, a, i, k, if k == |t| then |t| else k + 1, d);
  }

  /** Comment openers look one character ahead; a closing parenthesis completes none of them. */
  lemma OpenerShift(t: string, s: string, a: nat, i: nat, d: Dialect)
    requires d.Valid() && Embeds(t, s, a) && i < |t|
    requires i + 1 < |t| || ClearEnd(t, s, a)
    ensures OpensLineComment(t, i, d) == OpensLineComment(s, a + i, d)
    ensures PairAt(t, i, '/', '*') == PairAt(s, a + i, '/', '*')
    ensures PairAt(t, i, '$', '$') == PairAt(s, a + i, '$', '$')
  {
    assert t[i] == s[a + i];
    if i + 1 < |t| {
      assert t[i + 1] == s[a + (i + 1)];
    }
  }

  // ----- literals

  lemma DelimiterShift(t: string, s: string, a: nat, i: nat, q: Delimiter)
    requires Embeds(t, s, a) && i + q.n <= |t|
    ensures DelimiterAt(t, i, q) == DelimiterAt(s, a + i, q)
  {
    if DelimiterAt(s, a + i, q) {
      forall k | i <= k < i + q.n
        ensures t[k] == q.c
      {
        assert t[k] == s[a + k];
      }
    }
    if DelimiterAt(t, i, q) {
      forall k | a + i <= k < a + i + q.n
        ensures s[k] == q.c
      {
        assert t[k - a] == s[a + (k - a)];
      }
    }
  }

  lemma {:induction false} BackslashRunShift(t: string, s: string, a: nat, lo: nat, c: nat)
    requires Embeds(t, s, a) && c <= |t|
    ensures BackslashRun(t, lo, c) == BackslashRun(s, a + lo, a + c)
    decreases c
  {
    if lo < c {
      assert t[c - 1] == s[a + (c - 1)];
      BackslashRunShift(t, s, a, lo, c - 1);
    }
  }

  /** A literal of the whole text that ends inside the slice ends there in the slice. */
  lemma {:induction false} EscapedRestrict(
    t: string, s: string, a: nat, i: nat, q: Delimiter, form: Form, o: int, o': int)
    requires Embeds(t, s, a) && q.n > 0
    requires EscapedEnd(s, a + i, q, form, o).Ok? && EscapedEnd(s, a + i, q, form, o).value <= a + |t|
    ensures EscapedEnd(t, i, q, form, o') == Ok(EscapedEnd(s, a + i, q, form, o).value - a)
    decreases |t| - i
  {
    assert t[i] == s[a + i];
    if s[a + i] == '\\' {
      EscapedRestrict(t, s, a, i + 2, q, form, o, o');
    } else if DelimiterAt(s, a + i, q) {
      DelimiterShift(t, s, a, i, q);
      if i + 1 < |t| {
        PairShift(t, s, a, i, q.c, q.c);
      }
      if DoubledAt(s, a + i, q) {
        EscapedRestrict(t, s, a, i + 2, q, form, o, o');
      }
    } else {
      if i + q.n <= |t| {
        DelimiterShift(t, s, a, i, q);
      }
      EscapedRestrict(t, s, a, i + 1, q, form, o, o');
    }
  }

  /** A literal of the slice ends in the whole text where it ends in the slice. */
  lemma {:induction false} EscapedExtend(
    t: string, s: string, a: nat, i: nat, q: Delimiter, form: Form, o: int, o': int)
    requires Embeds(t, s, a) && ClearEnd(t, s, a) && q.n > 0 && q.c != ')'
    requires EscapedEnd(t, i, q, form, o').Ok?
    ensures EscapedEnd(s, a + i, q, form, o) == Ok(EscapedEnd(t, i, q, form, o').value + a)
    decreases |t| - i
  {
    assert t[i] == s[a + i];
    DelimiterAtEnd(t, s, a, i, q);
    if t[i] == '\\' || (DelimiterAt(t, i, q) && DoubledAt(t, i, q)) {
      EscapedExtend(t, s, a, i + 2, q, form, o, o');
    } else if !DelimiterAt(t, i, q) {
      EscapedExtend(t, s, a, i + 1, q, form, o, o');
    }
  }

  lemma DelimiterAtEnd(t: string, s: string, a: nat, i: nat, q: Delimiter)
    requires Embeds(t, s, a) && ClearEnd(t, s, a) && q.n > 0 && q.c != ')' && i < |t|
    ensures DelimiterAt(t, i, q) == DelimiterAt(s, a + i, q)
    ensures DoubledAt(t, i, q) == DoubledAt(s, a + i, q)
  {
    if i + q.n <= |t| {
      DelimiterShift(t, s, a, i, q);
    } else if a + i + q.n <= |s| {
      assert s[a + |t|] == ')';
    }
    if i + 1 < |t| {
      PairShift(t, s, a, i, q.c, q.c);
    }
  }

  lemma FindRestrict(t: string, s: string, a: nat, i: nat, q: Delimiter)
    requires Embeds(t, s, a) && q.n > 0
    requires FindDelimiter(s, a + i, q) + q.n <= a + |t|
    ensures FindDelimiter(t, i, q) + a == FindDelimiter(s, a + i, q)
  {
    var k, k' := FindDelimiter(t, i, q), FindDelimiter(s, a + i, q);
    NoneBeforeDelimiter(t, i, q);
    NoneBeforeDelimiter(s, a + i, q);
    assert k' < |s|;
    DelimiterShift(t, s, a, k' - a, q);
    if a + k < k' {
      DelimiterShift(t, s, a, k, q);
    }
  }

  lemma FindExtend(t: string, s: string, a: nat, i: nat, q: Delimiter)
    requires Embeds(t, s, a) && ClearEnd(t, s, a) && q.n > 0 && q.c != ')'
    requires FindDelimiter(t, i, q) < |t|
    ensures FindDelimiter(s, a + i, q) == FindDelimiter(t, i, q) + a
  {
    var k, k' := FindDelimiter(t, i, q), FindDelimiter(s, a + i, q);
    NoneBeforeDelimiter(t, i, q);
    NoneBeforeDelimiter(s, a + i, q);
    DelimiterAtEnd(t, s, a, k, q);
    if k' < a + k {
      DelimiterAtEnd(t, s, a, k' - a, q);
    }
  }

  /** The first candidate of the whole text, seen in the slice. */
  lemma CandidateRestrict(
    t: string, s: string, a: nat, body: nat, i: nat, pb: nat, p: nat, q: Delimiter, close': nat, doubled: bool)
    returns (close: nat)
    requires Embeds(t, s, a) && q.n > 0 && pb == a + body && p == a + i && close' == FindDelimiter(s, p, q)
    requires doubled == DoubledAt(s, close', q) && BackslashRun(s, pb, close') % 2 == 0
    requires close' + (if doubled then 2 else q.n) <= a + |t|
    ensures close == FindDelimiter(t, i, q) < |t| && close' == a + close
    ensures doubled == DoubledAt(t, close, q) && BackslashRun(t, body, close) % 2 == 0
  {
    FindRestrict(t, s, a, i, q);
    close := FindDelimiter(t, i, q);
    BackslashRunShift(t, s, a, body, close);
    if close + 1 < |t| {
      PairShift(t, s, a, close, q.c, q.c);
    }
  }

  /** And what a reading of the slice makes of it. */
  lemma ReadCandidate(
    t: string, s: string, a: nat, body: nat, i: nat, pb: nat, p: nat, q: Delimiter, form: Form, o': int, close': nat,
    doubled: bool, next': nat)
    returns (next: nat)
    requires Embeds(t, s, a) && q.n > 0 && pb == a + body && p == a + i && close' == FindDelimiter(s, p, q)
    requires doubled == DoubledAt(s, close', q) && BackslashRun(s, pb, close') % 2 == 0
    requires next' == close' + (if doubled then 2 else q.n) <= a + |t|
    ensures i < next <= |t| && next' == a + next
    ensures UnescapedEnd(t, body, i, q, form, o') ==
            if doubled then UnescapedEnd(t, body, next, q, form, o') else Ok(next)
  {
    var close := CandidateRestrict(t, s, a, body, i, pb, p, q, close', doubled);
    UnescapedUnfolds(t, body, i, close, q, form, o', doubled);
    next := close + if doubled then 2 else q.n;
  }

  lemma {:induction false} UnescapedRestrict(
    t: string, s: string, a: nat, body: nat, i: nat, pb: nat, p: nat, e: nat, q: Delimiter, form: Form, o: int, o': int)
    requires Embeds(t, s, a) && q.n > 0 && pb == a + body && p == a + i
    requires UnescapedEnd(s, pb, p, q, form, o) == Ok(e) && e <= a + |t|
    ensures a <= e && UnescapedEnd(t, body, i, q, form, o') == Ok(e - a)
    decreases |t| - i
  {
    var close', doubled, next' := UnescapedReads(s, pb, p, e, q, form, o);
    var next := ReadCandidate(t, s, a, body, i, pb, p, q, form, o', close', doubled, next');
    if doubled {
      UnescapedRestrict(t, s, a, body, next, pb, next', e, q, form, o, o');
    }
  }

  /** The first candidate of the slice, seen in the text around it. */
  lemma CandidateExtend(
    t: string, s: string, a: nat, body: nat, i: nat, pb: nat, p: nat, q: Delimiter, close: nat, doubled: bool)
    returns (close': nat)
    requires Embeds(t, s, a) && ClearEnd(t, s, a) && q.n > 0 && q.c != ')' && close == FindDelimiter(t, i, q) < |t|
    requires pb == a + body && p == a + i
    requires doubled == DoubledAt(t, close, q) && BackslashRun(t, body, close) % 2 == 0
    ensures close' == FindDelimiter(s, p, q) < |s| && close' == a + close
    ensures doubled == DoubledAt(s, close', q) && BackslashRun(s, pb, close') % 2 == 0
  {
    FindExtend(t, s, a, i, q);
    close' := FindDelimiter(s, p, q);
    BackslashRunShift(t, s, a, body, close);
    DelimiterAtEnd(t, s, a, close, q);
  }

  /** And what a reading of that text makes of it. */
  lemma ReadAround(
    t: string, s: string, a: nat, body: nat, i: nat, pb: nat, p: nat, q: Delimiter, form: Form, o: int, close: nat,
    doubled: bool, next: nat)
    returns (next': nat)
    requires Embeds(t, s, a) && ClearEnd(t, s, a) && q.n > 0 && q.c != ')' && close == FindDelimiter(t, i, q) < |t|
    requires pb == a + body && p == a + i && next == close + (if doubled then 2 else q.n)
    requires doubled == DoubledAt(t, close, q) && BackslashRun(t, body, close) % 2 == 0
    ensures next' == a + next
    ensures UnescapedEnd(s, pb, p, q, form, o) ==
            if doubled then UnescapedEnd(s, pb, next', q, form, o) else Ok(next')
  {
    var close' := CandidateExtend(t, s, a, body, i, pb, p, q, close, doubled);
    UnescapedUnfolds(s, pb, p, close', q, form, o, doubled);
    next' := close' + if doubled then 2 else q.n;
  }

  lemma {:induction false} UnescapedExtend(
    t: string, s: string, a: nat, body: nat, i: nat, pb: nat, p: nat, e: nat, q: Delimiter, form: Form, o: int, o': int)
    requires Embeds(t, s, a) && ClearEnd(t, s, a) && q.n > 0 && q.c != ')' && pb == a + body && p == a + i
    requires UnescapedEnd(t, body, i, q, form, o') == Ok(e)
    ensures UnescapedEnd(s, pb, p, q, form, o) == Ok(e + a)
    decreases |t| - i
  {
    var close, doubled, next := UnescapedReads(t, body, i, e, q, form, o');
    var next' := ReadAround(t, s, a, body, i, pb, p, q, form, o, close, doubled, next);
    if doubled {
      UnescapedExtend(t, s, a, body, next, pb, next', e, q, form, o, o');
    }
  }

  lemma FormRestrict(t: string, s: string, a: nat, body: nat, q: Delimiter, form: Form)
    requires Embeds(t, s, a) && q.n > 0
    requires FormEnd(s, a + body, q, form).Ok? && FormEnd(s, a + body, q, form).value <= a + |t|
    ensures FormEnd(t, body, q, form) == Ok(FormEnd(s, a + body, q, form).value - a)
  {
    var b, o := a + body, body - q.n;
    var e := FormEnd(s, b, q, form).value;
    if IsEscapedForm(form) {
      EscapedRestrict(t, s, a, body, q, form, b - q.n, o);
    } else {
      UnescapedRestrict(t, s, a, body, body, b, b, e, q, form, b - q.n, o);
    }
  }

  lemma FormExtend(t: string, s: string, a: nat, body: nat, q: Delimiter, form: Form)
    requires Embeds(t, s, a) && ClearEnd(t, s, a) && q.n > 0 && q.c != ')' && FormEnd(t, body, q, form).Ok?
    ensures FormEnd(s, a + body, q, form) == Ok(FormEnd(t, body, q, form).value + a)
  {
    var b, o := a + body, body - q.n;
    var e := FormEnd(t, body, q, form).value;
    if IsEscapedForm(form) {
      EscapedExtend(t, s, a, body, q, form, b - q.n, o);
    } else {
      UnescapedExtend(t, s, a, body, body, b, b, e, q, form, b - q.n, o);
    }
  }

  lemma {:induction false} PrefixShift(t: string, s: string, a: nat, i: nat, d: Dialect)
    requires d.Valid() && Embeds(t, s, a) && i <= |t| && ClearStart(s, a, d)
    requires i < |t| ==> t[i] != '('
    requires i == |t| ==> 0 < i
    ensures PrefixStart(s, a + i, d) == a + PrefixStart(t, i, d)
    decreases i
  {
    if i > 0 {
      assert t[i - 1] == s[a + (i - 1)];
      if d.IsIdentifierChar(t[i - 1]) {
        PrefixShift(t, s, a, i - 1, d);
      }
    } else {
      assert t[0] == s[a];
    }
  }

  lemma SliceShift(t: string, s: string, a: nat, i: nat, j: nat)
    requires Embeds(t, s, a) && i <= j <= |t|
    ensures t[i..j] == s[a + i..a + j]
  {
    forall k | 0 <= k < j - i
      ensures t[i..j][k] == s[a + i..a + j][k]
    {
      assert t[i + k] == s[a + (i + k)];
    }
  }

  lemma PrefixTextShift(t: string, s: string, a: nat, i: nat, d: Dialect)
    requires d.Valid() && Embeds(t, s, a) && i < |t| && ClearStart(s, a, d) && t[i] != '('
    ensures PrefixStart(s, a + i, d) == a + PrefixStart(t, i, d)
    ensures s[PrefixStart(s, a + i, d)..a + i] == t[PrefixStart(t, i, d)..i]
  {
    PrefixShift(t, s, a, i, d);
    SliceShift(t, s, a, PrefixStart(t, i, d), i);
  }

  // ----- whole lexemes

  /** A comment of the whole text that ends inside the slice is the same comment of the slice. */
  lemma CommentRestrict(t: string, s: string, a: nat, i: nat, d: Dialect)
    requires d.Valid() && Embeds(t, s, a) && i < |t| && CommentEnd(s, a + i, d).Ok?
    requires CommentEnd(s, a + i, d).value.Some? ==> CommentEnd(s, a + i, d).value.value <= a + |t|
    ensures ShiftFound(CommentEnd(t, i, d), a) == CommentEnd(s, a + i, d)
  {
    assert t[i] == s[a + i];
    if i + 1 < |t| {
      OpenerShift(t, s, a, i, d);
    }
    if OpensLineComment(s, a + i, d) {
      LineRestrict(t, s, a, i, d);
    } else if PairAt(s, a + i, '/', '*') {
      BlockShift(t, s, a, i);
    }
  }

  lemma LineRestrict(t: string, s: string, a: nat, i: nat, d: Dialect)
    requires d.Valid() && Embeds(t, s, a) && i < |t| && OpensLineComment(s, a + i, d)
    requires LineCommentEnd(s, a + i, d).Ok? && LineCommentEnd(s, a + i, d).value <= a + |t|
    ensures OpensLineComment(t, i, d)
    ensures Shift(LineCommentEnd(t, i, d), a) == LineCommentEnd(s, a + i, d)
  {
    assert t[i] == s[a + i];
    var k := FirstIn(s, a + i, |s|, d.lineCommentTerminators);
    assert s[a + i] == '#' || k >= a + i + 2;
    if i + 1 < |t| {
      OpenerShift(t, s, a, i, d);
    }
    FirstInShift(t, s, a, i, |t|, |s|, d.lineCommentTerminators);
    LineCommentShift(t, s, a, i, d);
    var _ := LineCommentByRules(t, i, d);
    var _ := LineCommentByRules(s, a + i, d);
  }

  lemma BlockShift(t: string, s: string, a: nat, i: nat)
    requires Embeds(t, s, a) && i + 1 < |t| && PairAt(s, a + i, '/', '*')
    requires || (BlockCommentEnd(s, a + i).Ok? && BlockCommentEnd(s, a + i).value <= a + |t|)
             || (PairAt(t, i, '/', '*') && BlockCommentEnd(t, i).Ok?)
    ensures PairAt(t, i, '/', '*')
    ensures Shift(BlockCommentEnd(t, i), a) == BlockCommentEnd(s, a + i)
  {
    PairShift(t, s, a, i, '/', '*');
    FirstPairShift(t, s, a, i + 2, |t|, |s|, '*', '/');
    var close := FirstPair(t, i + 2, |t|, '*', '/');
    FirstPairShift(t, s, a, i + 2, close, a + close, '/', '*');
  }

  /** A comment of the slice is the same comment of the whole text, unless it runs to the slice's end. */
  lemma CommentExtend(t: string, s: string, a: nat, i: nat, d: Dialect)
    requires d.Valid() && Embeds(t, s, a) && ClearEnd(t, s, a) && i < |t| && CommentEnd(t, i, d).Ok?
    requires CommentEnd(t, i, d).value.Some? ==> CommentEnd(t, i, d).value.value < |t|
    ensures CommentEnd(s, a + i, d) == ShiftFound(CommentEnd(t, i, d), a)
  {
    OpenerShift(t, s, a, i, d);
    if OpensLineComment(t, i, d) {
      LineExtend(t, s, a, i, d);
    } else if PairAt(t, i, '/', '*') {
      BlockShift(t, s, a, i);
    }
  }

  lemma LineExtend(t: string, s: string, a: nat, i: nat, d: Dialect)
    requires d.Valid() && Embeds(t, s, a) && i < |t| && OpensLineComment(t, i, d)
    requires LineCommentEnd(t, i, d).Ok? && LineCommentEnd(t, i, d).value < |t|
    ensures Shift(LineCommentEnd(t, i, d), a) == LineCommentEnd(s, a + i, d)
  {
    LineCommentShift(t, s, a, i, d);
    var _ := LineCommentByRules(t, i, d);
    var _ := LineCommentByRules(s, a + i, d);
  }

  lemma QuoteDelimiterShift(t: string, s: string, a: nat, i: nat, d: Dialect)
    requires Embeds(t, s, a) && i < |t|
    requires a + i + QuoteDelimiter(s, a + i, d).n <= a + |t| || (ClearEnd(t, s, a) && t[i] != ')')
    ensures QuoteDelimiter(t, i, d) == QuoteDelimiter(s, a + i, d)
  {
    assert t[i] == s[a + i];
    var q := Delimiter(t[i], 3);
    if i + 3 <= |t| {
      DelimiterShift(t, s, a, i, q);
    } else if DelimiterAt(s, a + i, q) && ClearEnd(t, s, a) && t[i] != ')' {
      assert s[a + |t|] == ')';
    }
  }

  /** The literals of the whole text that end inside the slice are those of the slice. */
  lemma LiteralRestrict(t: string, s: string, a: nat, i: nat, d: Dialect)
    requires d.Valid() && Embeds(t, s, a) && ClearStart(s, a, d) && i < |t| && LiteralEnd(s, a + i, d).Ok?
    requires LiteralEnd(s, a + i, d).value.Some? ==> LiteralEnd(s, a + i, d).value.value <= a + |t|
    ensures ShiftFound(LiteralEnd(t, i, d), a) == LiteralEnd(s, a + i, d)
  {
    assert t[i] == s[a + i];
    if t[i] == '\'' || t[i] == '"' {
      QuotedLiteralRestrict(t, s, a, i, d);
    } else if t[i] == '`' && d.backtickIdentifiers {
      BacktickRestrict(t, s, a, i, d);
    } else if d.dollarStrings {
      DollarRestrict(t, s, a, i, d);
    }
  }

  lemma QuotedLiteralRestrict(t: string, s: string, a: nat, i: nat, d: Dialect)
    requires d.Valid() && Embeds(t, s, a) && ClearStart(s, a, d) && i < |t|
    requires t[i] == s[a + i] && (t[i] == '\'' || t[i] == '"')
    requires LiteralEnd(s, a + i, d).Ok? && LiteralEnd(s, a + i, d).value.Some?
    requires LiteralEnd(s, a + i, d).value.value <= a + |t|
    ensures ShiftFound(LiteralEnd(t, i, d), a) == LiteralEnd(s, a + i, d)
  {
    QuotedRestrict(t, s, a, i, d);
  }

  lemma BacktickRestrict(t: string, s: string, a: nat, i: nat, d: Dialect)
    requires Embeds(t, s, a) && i < |t| && t[i] == s[a + i] == '`' && d.backtickIdentifiers
    requires LiteralEnd(s, a + i, d).Ok? && LiteralEnd(s, a + i, d).value.Some?
    requires LiteralEnd(s, a + i, d).value.value <= a + |t|
    ensures ShiftFound(LiteralEnd(t, i, d), a) == LiteralEnd(s, a + i, d)
  {
    FormRestrict(t, s, a, i + 1, Delimiter('`', 1), QuotedIdentifier);
  }

  lemma QuotedRestrict(t: string, s: string, a: nat, i: nat, d: Dialect)
    requires d.Valid() && Embeds(t, s, a) && ClearStart(s, a, d) && i < |t|
    requires t[i] == s[a + i] && (s[a + i] == '\'' || s[a + i] == '"')
    requires QuotedEnd(s, a + i, d).Ok? && QuotedEnd(s, a + i, d).value <= a + |t|
    ensures Shift(QuotedEnd(t, i, d), a) == QuotedEnd(s, a + i, d)
  {
    PrefixTextShift(t, s, a, i, d);
    var q := QuoteDelimiter(s, a + i, d);
    QuoteDelimiterShift(t, s, a, i, d);
    var form := FormOf(Lower(t[PrefixStart(t, i, d)..i]), q, d);
    if form.Some? {
      FormRestrict(t, s, a, i + q.n, q, form.value);
    }
  }

  lemma DollarRestrict(t: string, s: string, a: nat, i: nat, d: Dialect)
    requires d.Valid() && Embeds(t, s, a) && ClearStart(s, a, d) && i < |t|
    requires t[i] == s[a + i] && d.dollarStrings
    requires t[i] != '\'' && t[i] != '"' && !(t[i] == '`' && d.backtickIdentifiers)
    requires LiteralEnd(s, a + i, d).Ok?
    requires LiteralEnd(s, a + i, d).value.Some? ==> LiteralEnd(s, a + i, d).value.value <= a + |t|
    ensures ShiftFound(LiteralEnd(t, i, d), a) == LiteralEnd(s, a + i, d)
  {
    if i + 1 < |t| {
      PairShift(t, s, a, i, '$', '$');
    }
    if PairAt(s, a + i, '$', '$') {
      PrefixShift(t, s, a, i, d);
      FormRestrict(t, s, a, i + 2, Delimiter('$', 2), DollarString);
    }
  }

  lemma LiteralExtend(t: string, s: string, a: nat, i: nat, d: Dialect)
    requires d.Valid() && Embeds(t, s, a) && ClearStart(s, a, d) && ClearEnd(t, s, a) && i < |t|
    requires LiteralEnd(t, i, d).Ok?
    ensures LiteralEnd(s, a + i, d) == ShiftFound(LiteralEnd(t, i, d), a)
  {
    assert t[i] == s[a + i];
    if t[i] == '\'' || t[i] == '"' {
      QuotedLiteralExtend(t, s, a, i, d);
    } else if t[i] == '`' && d.backtickIdentifiers {
      FormExtend(t, s, a, i + 1, Delimiter('`', 1), QuotedIdentifier);
    } else if d.dollarStrings {
      DollarExtend(t, s, a, i, d);
    }
  }

  lemma QuotedLiteralExtend(t: string, s: string, a: nat, i: nat, d: Dialect)
    requires d.Valid() && Embeds(t, s, a) && ClearStart(s, a, d) && ClearEnd(t, s, a) && i < |t|
    requires t[i] == s[a + i] && (t[i] == '\'' || t[i] == '"') && LiteralEnd(t, i, d).Ok?
    ensures LiteralEnd(s, a + i, d) == ShiftFound(LiteralEnd(t, i, d), a)
  {
    QuotedExtend(t, s, a, i, d);
  }

  lemma DollarExtend(t: string, s: string, a: nat, i: nat, d: Dialect)
    requires d.Valid() && Embeds(t, s, a) && ClearStart(s, a, d) && ClearEnd(t, s, a) && i < |t|
    requires t[i] == s[a + i] && d.dollarStrings && LiteralEnd(t, i, d).Ok?
    requires t[i] != '\'' && t[i] != '"' && !(t[i] == '`' && d.backtickIdentifiers)
    ensures LiteralEnd(s, a + i, d) == ShiftFound(LiteralEnd(t, i, d), a)
  {
    OpenerShift(t, s, a, i, d);
    if PairAt(t, i, '$', '$') {
      PrefixShift(t, s, a, i, d);
      FormExtend(t, s, a, i + 2, Delimiter('$', 2), DollarString);
    }
  }

  lemma QuotedExtend(t: string, s: string, a: nat, i: nat, d: Dialect)
    requires d.Valid() && Embeds(t, s, a) && ClearStart(s, a, d) && ClearEnd(t, s, a) && i < |t|
    requires t[i] == s[a + i] && (t[i] == '\'' || t[i] == '"') && QuotedEnd(t, i, d).Ok?
    ensures QuotedEnd(s, a + i, d) == Shift(QuotedEnd(t, i, d), a)
  {
    PrefixTextShift(t, s, a, i, d);
    QuoteDelimiterShift(t, s, a, i, d);
    var q := QuoteDelimiter(t, i, d);
    var form := FormOf(Lower(t[PrefixStart(t, i, d)..i]), q, d);
    if form.Some? {
      FormExtend(t, s, a, i + q.n, q, form.value);
    }
  }

  /** One step of the whole text that stays inside the slice is the same step of the slice. */
  lemma StepRestrict(t: string, s: string, a: nat, i: nat, d: Dialect)
    requires d.Valid() && Embeds(t, s, a) && ClearStart(s, a, d) && i < |t|
    requires Step(s, a + i, d).Ok? && Step(s, a + i, d).value <= a + |t|
    ensures CommentEnd(s, a + i, d) == ShiftFound(CommentEnd(t, i, d), a)
    ensures LexemeEnd(s, a + i, d) == ShiftFound(LexemeEnd(t, i, d), a)
    ensures Step(s, a + i, d) == Shift(Step(t, i, d), a)
  {
    OpenersAreComplete(s, a + i, d);
    OpenersAreComplete(t, i, d);
    CommentRestrict(t, s, a, i, d);
    if CommentEnd(s, a + i, d) == Ok(None) {
      LiteralRestrict(t, s, a, i, d);
    }
  }

  /** One step of the slice is the same step of the whole text, unless it is a comment that runs to the slice's end. */
  lemma StepExtend(t: string, s: string, a: nat, i: nat, d: Dialect)
    requires d.Valid() && Embeds(t, s, a) && ClearStart(s, a, d) && ClearEnd(t, s, a) && i < |t|
    requires Step(t, i, d).Ok?
    requires CommentEnd(t, i, d).Ok? && CommentEnd(t, i, d).value.Some? ==> Step(t, i, d).value < |t|
    ensures CommentEnd(s, a + i, d) == ShiftFound(CommentEnd(t, i, d), a)
    ensures LexemeEnd(s, a + i, d) == ShiftFound(LexemeEnd(t, i, d), a)
    ensures Step(s, a + i, d) == Shift(Step(t, i, d), a)
  {
    OpenersAreComplete(s, a + i, d);
    OpenersAreComplete(t, i, d);
    CommentExtend(t, s, a, i, d);
    if CommentEnd(t, i, d) == Ok(None) {
      LiteralExtend(t, s, a, i, d);
    }
  }

  /**
   Locality: on the slice between two stops of the scanner, the scanner stops at exactly the
   corresponding positions, so lexing the slice again can refuse nothing new.
   */
  lemma {:induction false} ReachRestrict(t: string, s: string, a: nat, i: nat, j: nat, d: Dialect)
    requires d.Valid() && Embeds(t, s, a) && ClearStart(s, a, d)
    requires i <= j <= |t| && Reach(s, d, a + i, a + j)
    ensures Reach(t, d, i, j)
    decreases |t| - i
  {
    if i < j {
      StepRestrictBefore(t, s, a, i, j, d);
      ReachRestrict(t, s, a, Step(t, i, d).value, j, d);
    }
  }

  lemma StepRestrictBefore(t: string, s: string, a: nat, i: nat, j: nat, d: Dialect)
    requires d.Valid() && Embeds(t, s, a) && ClearStart(s, a, d)
    requires i < j <= |t| && Reach(s, d, a + i, a + j)
    ensures Step(s, a + i, d).Ok? && Step(s, a + i, d).value <= a + j
    ensures Reach(s, d, Step(s, a + i, d).value, a + j)
    ensures CommentEnd(s, a + i, d) == ShiftFound(CommentEnd(t, i, d), a)
    ensures LexemeEnd(s, a + i, d) == ShiftFound(LexemeEnd(t, i, d), a)
    ensures Step(s, a + i, d) == Shift(Step(t, i, d), a)
  {
    StepRestrict(t, s, a, i, d);
  }

  lemma SliceEmbeds(s: string, lo: nat, hi: nat)
    requires lo <= hi <= |s|
    ensures Embeds(s[lo..hi], s, lo)
  {
  }
}
