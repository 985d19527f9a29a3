/**
 The wrapper read back: the number its LIMIT stands for, the text around the statement, and what the
 body of a text is that the scanner refuses.
 */
module SqlLimit {
  import opened Outcomes
  import opened SqlScope
  import opened SqlWrap

  // ----- numerals

  /** A decimal numeral without leading zeros. */
  predicate IsNumeral(t: string) {
    t != "" && (forall k :: 0 <= k < |t| ==> '0' <= t[k] <= '9') && (|t| > 1 ==> t[0] != '0')
  }

  /** The number a run of digits stands for. */
  function NumberOf(t: string): nat
    requires forall k :: 0 <= k < |t| ==> '0' <= t[k] <= '9'
  {
    if t == "" then 0 else 10 * NumberOf(t[..|t| - 1]) + (t[|t| - 1] as int - '0' as int)
  }

  /** The printed number is a numeral, and reads back as the number. */
  lemma {:induction false} DecimalReads(n: nat)
    ensures IsNumeral(Decimal(n)) && NumberOf(Decimal(n)) == n
  {
    var t := Decimal(n);
    if n < 10 {
      assert t[..|t| - 1] == "";
    } else {
      DecimalReads(n / 10);
      assert t[..|t| - 1] == Decimal(n / 10);
      assert t[0] == Decimal(n / 10)[0];
      if |Decimal(n / 10)| == 1 {
        assert Decimal(n / 10)[..0] == "";
      }
    }
  }

  // ----- the LIMIT of a text

  /** Where the digits a text ends in start. */
  function NumeralStart(w: string): (i: nat)
    ensures i <= |w| && forall k :: i <= k < |w| ==> '0' <= w[k] <= '9'
  {
    if w != "" && '0' <= w[|w| - 1] <= '9' then NumeralStart(w[..|w| - 1]) else |w|
  }

  /** The number of rows the LIMIT a text ends in allows. */
  function LimitOf(w: string): Option<nat> {
    var i := NumeralStart(w);
    if i < |w| && i >= 7 && w[i - 7..i] == " LIMIT " then Some(NumberOf(w[i..])) else None
  }

  lemma {:induction false} NumeralStartIs(u: string, t: string)
    requires u != "" && !('0' <= u[|u| - 1] <= '9') && forall k :: 0 <= k < |t| ==> '0' <= t[k] <= '9'
    ensures NumeralStart(u + t) == |u|
    decreases |t|
  {
    if t == "" {
      assert u + t == u;
    } else {
      assert (u + t)[..|u + t| - 1] == u + t[..|t| - 1];
      NumeralStartIs(u, t[..|t| - 1]);
    }
  }

  /** The text encloses the body as a derived table under a LIMIT of `limit` rows. */
  ghost predicate Encloses(w: string, body: string, limit: nat) {
    exists numeral: string ::
      && IsNumeral(numeral) && NumberOf(numeral) == limit
      && w == "SELECT * FROM (" + body + ") AS cost_guard_row_cap LIMIT " + numeral
  }

  /** The wrapper is that text, and its LIMIT reads back as the number it was built with. */
  lemma WrapperReads(body: string, limit: nat)
    ensures Encloses(WrapInLimit(body, limit), body, limit)
    ensures LimitOf(WrapInLimit(body, limit)) == Some(limit)
  {
    var w, numeral := WrapInLimit(body, limit), Decimal(limit);
    DecimalReads(limit);
    var u := "SELECT * FROM (" + body + ") AS cost_guard_row_cap LIMIT ";
    assert w == u + numeral;
    assert w == "SELECT * FROM (" + body + ") AS cost_guard_row_cap LIMIT " + numeral;
    NumeralStartIs(u, numeral);
    assert w[|u|..] == numeral;
    LimitWordAt(body, u, w);
  }

  lemma LimitWordAt(body: string, u: string, w: string)
    requires u == "SELECT * FROM (" + body + ") AS cost_guard_row_cap LIMIT " && |u| <= |w| && w[..|u|] == u
    ensures w[|u| - 7..|u|] == " LIMIT "
  {
    var tail := ") AS cost_guard_row_cap LIMIT ";
    assert u[|u| - 7..] == tail[23..] == " LIMIT ";
    assert w[|u| - 7..|u|] == w[..|u|][|u| - 7..];
  }

  // ----- the body of a refused text

  ghost predicate IsBlank(t: string, d: Dialect) { forall k :: 0 <= k < |t| ==> d.isSpace(t[k]) }

  ghost predicate HasSolidEnds(t: string, d: Dialect) {
    t == "" || (!d.isSpace(t[0]) && !d.isSpace(t[|t| - 1]))
  }

  ghost predicate IsSemicolons(t: string) { forall k :: 0 <= k < |t| ==> t[k] == ';' }

  lemma {:induction false} StripRightIsSlice(s: string, d: Dialect)
    ensures StripRight(s, d) <= s && IsBlank(s[|StripRight(s, d)|..], d)
    ensures StripRight(s, d) == "" || !d.isSpace(StripRight(s, d)[|StripRight(s, d)| - 1])
  {
    if s != "" && d.isSpace(s[|s| - 1]) {
      var u, r := s[..|s| - 1], StripRight(s, d);
      StripRightIsSlice(u, d);
      assert r == u[..|r|] == s[..|r|];
      assert s[|r|..] == u[|r|..] + [s[|s| - 1]];
    } else {
      assert s[|s|..] == "";
    }
  }

  /** Stripping leaves white space on neither side and takes nothing else away. */
  lemma StripParts(s: string, d: Dialect) returns (front: string, back: string)
    ensures s == front + Strip(s, d) + back && IsBlank(front, d) && IsBlank(back, d) && HasSolidEnds(Strip(s, d), d)
  {
    var lo := StripLeftIsSlice(s, d);
    front := s[..lo];
    StripRightIsSlice(s[lo..], d);
    back := s[lo..][|Strip(s, d)|..];
    assert s == front + s[lo..];
    assert s[lo..] == Strip(s, d) + back;
  }

  lemma {:induction false} DropSemicolonsParts(s: string) returns (semicolons: string)
    ensures s == DropSemicolons(s) + semicolons && IsSemicolons(semicolons)
    ensures DropSemicolons(s) == "" || DropSemicolons(s)[|DropSemicolons(s)| - 1] != ';'
  {
    if s != "" && s[|s| - 1] == ';' {
      semicolons := DropSemicolonsParts(s[..|s| - 1]);
      semicolons := semicolons + ";";
    } else {
      semicolons := "";
    }
  }

  /**
   Of a text the scanner refuses, the body is what stands before one run of `;` at its end: blanks on
   both sides of that run and before the body go, and no `;` that stands right after the body stays.
   */
  lemma RefusedBodyIsTrimmed(s: string, d: Dialect)
    returns (front: string, before: string, semicolons: string, back: string)
    requires d.Valid() && ScanResult(s, d).Refused?
    ensures var b := SingleStatementBody(s, d);
            && s == front + b + before + semicolons + back && HasSolidEnds(b, d)
            && IsBlank(front, d) && IsBlank(before, d) && IsBlank(back, d) && IsSemicolons(semicolons)
            && (before == "" && b != "" ==> b[|b| - 1] != ';')
  {
    var b := SingleStatementBody(s, d);
    var front1;
    front1, back := StripParts(s, d);
    semicolons := DropSemicolonsParts(Strip(s, d));
    var dropped := DropSemicolons(Strip(s, d));
    front, before := StripParts(dropped, d);
    assert s == front1 + (front + b + before + semicolons) + back;
    assert s == (front1 + front) + b + before + semicolons + back;
    front := front1 + front;
  }
}
