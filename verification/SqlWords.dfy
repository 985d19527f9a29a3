/**
 Words and names of the read gate, by their letters: which stretch of a text is a word, what its
 capitals are, what may name a CTE, and which words open a read.
 */
module SqlWords {
  import opened Outcomes
  import opened SqlScope
  import opened SqlReadings
  import opened SqlPaths
  import opened SqlLexer
  import opened SqlKeywords

  predicate OpensWord(c: char) { 'a' <= c <= 'z' || 'A' <= c <= 'Z' || c == '_' }

  predicate InWord(c: char) { OpensWord(c) || '0' <= c <= '9' }

  predicate InName(c: char) { InWord(c) || c == '$' }

  /** The characters of [i, e) are all of the kind, the one at `e` is not. */
  ghost predicate IsRun(s: string, i: nat, e: nat, kind: char -> bool) {
    i <= e <= |s| && (forall k :: i <= k < e ==> kind(s[k])) && (e < |s| ==> !kind(s[e]))
  }

  /** `u` is `c`, or its capital where `c` is one of a to z. */
  predicate IsUpperOf(u: char, c: char) { if 'a' <= c <= 'z' then IsCapitalOf(u, c) else u == c }

  /** The word at `i` reads `w` in capitals: a letter or `_`, then letters, digits and `_` as far as they go. */
  ghost predicate ReadsAs(s: string, i: nat, w: string) {
    && w != "" && i < |s| && OpensWord(s[i]) && IsRun(s, i, i + |w|, InWord)
    && forall k :: 0 <= k < |w| ==> IsUpperOf(w[k], s[i + k])
  }

  lemma {:induction false} WordEndIsRun(s: string, i: nat)
    requires i <= |s|
    ensures IsRun(s, i, WordEnd(s, i), InWord) && IsRun(s, i, NameEnd(s, i), InName)
    decreases |s| - i
  {
    if i < |s| {
      WordEndIsRun(s, i + 1);
    }
  }

  lemma RunIsUnique(s: string, i: nat, e: nat, e': nat, kind: char -> bool)
    requires IsRun(s, i, e, kind) && IsRun(s, i, e', kind)
    ensures e == e'
  {
  }

  /** The gate's word at a position is the word that stands there, in capitals: no other, and none where none stands. */
  lemma WordAtIff(s: string, i: nat, w: string)
    requires i <= |s|
    ensures WordAt(s, i) == Some(w) <==> ReadsAs(s, i, w)
    ensures WordAt(s, i) == None <==> !(i < |s| && OpensWord(s[i]))
  {
    WordEndIsRun(s, i);
    if ReadsAs(s, i, w) {
      RunIsUnique(s, i, i + |w|, WordEnd(s, i), InWord);
      assert Upper(s[i..i + |w|]) == w;
    } else if WordAt(s, i) == Some(w) {
      assert forall k :: 0 <= k < |w| ==> w[k] == UpperChar(s[i..WordEnd(s, i)][k]) == UpperChar(s[i + k]);
    }
  }

  /** No lower-case letter is left in it. */
  lemma WordsAreCapital(s: string, i: nat, w: string)
    requires i <= |s| && WordAt(s, i) == Some(w)
    ensures forall k :: 0 <= k < |w| ==> InWord(w[k]) && !('a' <= w[k] <= 'z')
  {
    WordAtIff(s, i, w);
  }

  /** What may name a CTE, and where the name ends: an unquoted run, or a quoted name of the dialect. */
  lemma CteNameIff(s: string, i: nat, e: nat, x: Lexer)
    requires x.Sane() && i <= |s| && (forall c :: x.quotesName(c) ==> !OpensWord(c))
    ensures CteNameEnd(s, i, x) == Ok(Some(e)) <==>
              && i < |s|
              && if OpensWord(s[i]) then IsRun(s, i, e, InName)
                 else x.quotesName(s[i]) && x.Literal(s, i) == Ok(Some(e))
  {
    WordEndIsRun(s, i);
    if i < |s| && OpensWord(s[i]) && IsRun(s, i, e, InName) {
      RunIsUnique(s, i, e, NameEnd(s, i), InName);
    }
  }

  /** Quoted names: backticks on BigQuery and Databricks, double quotes on Snowflake. */
  lemma QuotesOfNames(c: char, isSpace: char -> bool, isAlnum: char -> bool)
    ensures LexerOf(BigQuery(isSpace, isAlnum)).quotesName(c) <==> c == '`'
    ensures LexerOf(Snowflake(isSpace, isAlnum)).quotesName(c) <==> c == '"'
    ensures LexerOf(Databricks(isSpace, isAlnum)).quotesName(c) <==> c == '`'
  {
  }

  /** The words that open a read: these seven, and no statement that writes. */
  lemma ReadWords(w: string)
    ensures w in READ_STATEMENT_KEYWORDS <==>
              || w == "SELECT" || w == "WITH" || w == "VALUES" || w == "SHOW"
              || w == "DESCRIBE" || w == "DESC" || w == "EXPLAIN"
    ensures w in QUERY_KEYWORDS <==> w == "SELECT" || w == "VALUES"
    ensures forall v <- ["INSERT", "UPDATE", "DELETE", "MERGE", "CREATE", "ALTER",
                         "DROP", "TRUNCATE", "CALL", "GRANT"] ::
              v !in READ_STATEMENT_KEYWORDS && v !in QUERY_KEYWORDS
  {
  }
}
