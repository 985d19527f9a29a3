/**
 What reaches the provider, under every plausible lexer: around the body of an accepted statement
 the LIMIT wrapper holds no top-level `;` in any of them.
 */
module SqlDispatch {
  import opened Outcomes
  import opened SqlScope
  import opened SqlReadings
  import opened SqlPaths
  import opened SqlSlices
  import opened SqlWrap

  /** A block comment opens at `i` and its body, up to the scanner's step, ends in a slash. */
  predicate SlashCloses(s: string, i: nat, d: Dialect)
    requires d.Valid() && i < |s| && Step(s, i, d).Ok?
  {
    !OpensLineComment(s, i, d) && PairAt(s, i, '/', '*') && EndsInSlash(s, i, Step(s, i, d).value)
  }

  /** One step of the side condition. */
  lemma NoSlashCloseStep(s: string, i: nat, d: Dialect)
    requires d.Valid() && i < |s| && Step(s, i, d).Ok?
    ensures NoSlashClose(s, i, d) <==> !SlashCloses(s, i, d) && NoSlashClose(s, Step(s, i, d).value, d)
  {
  }

  /** The same lexeme, seen in the slice and in the text around it, ends in a slash in both or in neither. */
  lemma SameSlashClose(t: string, s: string, a: nat, i: nat, p: nat, d: Dialect)
    requires d.Valid() && Embeds(t, s, a) && p == a + i && i < |t| && Step(t, i, d).Ok? && Step(s, p, d).Ok?
    requires Step(s, p, d).value == a + Step(t, i, d).value
    ensures SlashCloses(t, i, d) <==> SlashCloses(s, p, d)
  {
    assert t[i] == s[p];
    if i + 1 < |t| {
      assert t[i + 1] == s[p + 1];
      var e := Step(t, i, d).value;
      if i + 4 < e {
        assert t[e - 3] == s[a + (e - 3)];
      }
    }
  }

  /** The condition passes from the text to the statement's own slice. */
  lemma {:induction false} NoSlashRestrict(
    t: string, s: string, a: nat, i: nat, end: nat, p: nat, pe: nat, v: nat, d: Dialect)
    requires d.Valid() && Embeds(t, s, a) && ClearStart(s, a, d) && end <= i <= |t|
    requires p == a + i && pe == a + end && v == a + |t| && ScanFrom(s, p, false, pe, d) == Ok(v)
    requires NoSlashClose(s, p, d)
    ensures NoSlashClose(t, i, d)
    decreases |t| - i
  {
    ScanAdvances(s, p, false, pe, d);
    if i < |t| {
      ScanStepInside(s, p, pe, v, d);
      NextEndRestrict(t, s, a, i, end, p, pe, d);
      SameSlashClose(t, s, a, i, p, d);
      NoSlashCloseStep(s, p, d);
      NoSlashCloseStep(t, i, d);
      NoSlashRestrict(
        t, s, a, Step(t, i, d).value, NextEnd(t, i, end, d), Step(s, p, d).value, NextEnd(s, p, pe, d), v, d);
    }
  }

  /** And from the slice to the text the slice is put into. */
  lemma {:induction false} NoSlashExtend(
    t: string, s: string, a: nat, i: nat, end: nat, p: nat, pe: nat, v: nat, d: Dialect)
    requires d.Valid() && Embeds(t, s, a) && ClearStart(s, a, d) && ClearEnd(t, s, a) && end <= i <= |t|
    requires p == a + i && pe == a + end && v == a + |t| && ScanFrom(t, i, false, end, d) == Ok(|t|)
    requires NoSlashClose(t, i, d) && NoSlashClose(s, v, d)
    ensures NoSlashClose(s, p, d)
    decreases |t| - i
  {
    if i < |t| {
      ScanStepInside(t, i, end, |t|, d);
      NextEndExtend(t, s, a, i, end, p, pe, d);
      SameSlashClose(t, s, a, i, p, d);
      NoSlashCloseStep(t, i, d);
      NoSlashCloseStep(s, p, d);
      NoSlashExtend(
        t, s, a, Step(t, i, d).value, NextEnd(t, i, end, d), Step(s, p, d).value, NextEnd(s, p, pe, d), v, d);
    }
  }

  /** Characters that open nothing do not matter to it. */
  lemma {:induction false} NoSlashHarmless(s: string, i: nat, j: nat, d: Dialect)
    requires d.Valid() && i <= j <= |s| && forall k :: i <= k < j ==> IsHarmless(s[k])
    ensures NoSlashClose(s, i, d) <==> NoSlashClose(s, j, d)
    decreases j - i
  {
    if i < j {
      OpenersAreComplete(s, i, d);
      assert Step(s, i, d) == Ok(i + 1);
      NoSlashCloseStep(s, i, d);
      NoSlashHarmless(s, i + 1, j, d);
    }
  }

  lemma BodyHasNoSlashClose(s: string, d: Dialect)
    requires d.Valid() && IsSingleStatement(s, d) && NoSlashClose(s, 0, d)
    ensures NoSlashClose(SingleStatementBody(s, d), 0, d)
  {
    var lo := BodyIsSlice(s, d);
    var end := ScanResult(s, d).value;
    ScanSkipsSpaces(s, 0, lo, d);
    ScanAdvances(s, lo, false, 0, d);
    ScanForgets(s, lo, 0, lo, d);
    NoSlashHarmless(s, 0, lo, d);
    if lo > 0 {
      assert d.isSpace(s[lo - 1]);
    }
    SliceEmbeds(s, lo, end);
    NoSlashRestrict(s[lo..end], s, lo, 0, 0, lo, lo, end, d);
  }

  /** The wrapper carries the side condition of the caller's text. */
  lemma WrapperHasNoSlashClose(s: string, limit: nat, d: Dialect)
    requires d.Valid() && IsSingleStatement(s, d) && NoSlashClose(s, 0, d)
    ensures NoSlashClose(WrapInLimit(SingleStatementBody(s, d), limit), 0, d)
  {
    var b := SingleStatementBody(s, d);
    var w, a := WrapInLimit(b, limit), |WRAP_HEAD|;
    BodyScansWhole(s, d);
    BodyHasNoSlashClose(s, d);
    WrapperLayout(b, limit);
    NoSlashHarmless(w, a + |b|, |w|, d);
    NoSlashExtend(b, w, a, 0, 0, a, a, a + |b|, d);
    NoSlashHarmless(w, 0, a, d);
  }

  /**
   Fail closed, wrapper included: in the text that encloses an accepted statement no plausible
   reading sees a top-level `;`.
   */
  lemma WrappedTextHasNoSemicolon(s: string, limit: nat, d: Dialect, r: Reading)
    requires d.Valid() && Plausible(r, d) && IsSingleStatement(s, d)
    requires r.nests ==> NoSlashClose(s, 0, d)
    ensures ReadSemicolons(WrapInLimit(SingleStatementBody(s, d), limit), 0, d, r) == Some([])
  {
    WrapperScansWhole(s, limit, d);
    if r.nests {
      WrapperHasNoSlashClose(s, limit, d);
    }
    AcceptedTextHasOneReading(WrapInLimit(SingleStatementBody(s, d), limit), d, r);
  }
}
