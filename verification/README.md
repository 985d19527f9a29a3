# cost-guard-mcp: a verified model of the guard

`cost-guard-mcp` is a server that prices SQL written by a language model and runs it under caps on
BigQuery, Snowflake and Databricks. This project models the part of it that decides whether such text
is safe to price and run, and what a result may claim, and proves properties of that part. Run
`dafny verify dfyconfig.toml` (Dafny 4.11) to check it.

## The modules

| file | what it models |
|---|---|
| `Outcomes` | optional values and raised refusals, shared by all modules |
| `SqlScope` | the dialect tables, comment and literal lexers and the one-statement scan of `sql_scope.py` |
| `SqlReadings`, `SqlPaths` | a family of reference lexers with openings of their own, and the proof that an accepted text has one reading |
| `SqlTables` | what each dialect table makes of every position, in terms of the readings |
| `SqlSlices`, `SqlWrap`, `SqlDispatch` | lexing a slice against lexing the whole; the statement body, the LIMIT wrapper, and what every lexer sees of it |
| `SqlLimit` | the wrapper's text and the number read back from its LIMIT; the body of a refused text |
| `SqlLexer` | the lexer as the read gate sees it, and the laws it obeys |
| `SqlKeywords`, `SqlWalkCost`, `SqlWalk` | the read gate of `sql_scope_keywords.py`: functions, what the walk costs, and the loops |
| `SqlGrammar`, `SqlComplete` | the CTE grammar; the walk accepts exactly what derives from it |
| `SqlCut`, `SqlGates` | the walk on a text and on its statement, how the gates agree |
| `SqlWords`, `SqlCase`, `SqlRules` | words by their letters, letter case, and the gates' rules in literal words |
| `JsonText` | compact JSON and its UTF-8 size (RFC 8259 section 7, RFC 4648 section 4) |
| `JsonReader`, `ByteReader` | readers of compact JSON, base 64 and UTF-8, from RFC 8259, RFC 4648 and RFC 3629, and that they read back what is rendered |
| `ResultRows`, `ResultBounds` | normalisation and the size estimate |
| `ResultDecode` | what the sent rows mean to a reader: the cells that came from the warehouse |
| `ResultKeys`, `ResultExact`, `ResultOvershoot` | when the estimate is a lower bound, when it is exact, and how far below the exact size it can lie |
| `ResultFetch` | the paged fetch and the trim |
| `BigQueryCaps` | dollars to bytes and back |
| `RunQueryBounded` | one bounded run, from the gates to the verdict |
| `InFlightSlots` | the slot protocol of cancellable calls, as interleaved steps |
| `SnowflakePricing`, `SnowflakeGuard` | credit rates and runtime tiers; what the estimate may observe, issue and charge |
| `SnowflakeFigures` | what a figure is made of, in terms of the answers |
| `SnowflakeFloor` | when the figure is at least the price of the warehouse as it really is |

Loops and state changes of the program are methods and classes here; each is proved equal to a
function, and the theorems are about the functions. An exception is a `Refused` result. What a
warehouse, a connector or a cancellation does is an input, and every theorem holds for all of them.
Dollars are exact reals. The two Unicode predicates the scanner uses stay abstract: `Dialect.Valid`
lists what is assumed of them (white space, identifier characters and the marks of the lexer are
disjoint, ASCII letters and digits are identifier characters, CR, LF and blank are white space), and
`SqlScope.TablesAreValid` says that the four tables need no more.
`LexerOf(d).Sane()` in a contract holds of every valid dialect (`SqlLexer.LexerOfIsSane`).

## The main results

1. A text the scanner accepts has the same top-level `;` under every plausible lexer, at most one, and
   only white space and comments after it (`SqlPaths.AcceptedTextHasOneReading`; for lexers that nest
   comments, under the condition of the first point below). A plausible lexer may honour or ignore
   backslashes after any prefix but the cooked ones, in quoted names and in dollar strings. The same
   holds of the text that is dispatched, wrapper included
   (`RunQueryBounded.DispatchedTextHasOneReading`). What each engine's table reads at every position,
   refusals and their offsets included, is stated without the scanner (`SqlTables.BigQueryReads`,
   `SqlTables.SnowflakeReads`, `SqlTables.DatabricksReads`).
2. On one statement the read gate admits exactly the WITH statements that derive from the CTE grammar,
   every body at every depth included, and the other statements whose first keyword is on the read list
   (`SqlComplete.GateAdmitsIff`, in literal words `SqlRules.GateByWords`); the keyword the walk finds
   stands at the reported place in the submitted text (`SqlGrammar.ResolveIsSound`), and letter case
   changes no answer of scan, gate or wrap rule (`SqlCase.CaseNeverMatters`).
3. The scan, the read gate and the wrap rule agree exactly (`SqlGates.WrapRuleAgreesWithGates`), and
   the LIMIT wrapper is itself one statement (`SqlWrap.WrapperScansWhole`) whose LIMIT reads back as
   the row cap and one (`RunQueryBounded.DispatchTextReads`).
4. The whole recursive walk passes at most sixteen times the text (`SqlWalkCost.ResolveCostBound`,
   `SqlWalk.WalkFromTheTop`).
5. The fetch's size estimate is a lower bound on the exact size of what is sent for all values exactly
   while no two keys of a mapping read the same (`ResultKeys.BoundHoldsIffKeysDistinct`), so `ok` is
   never a truncated result and a size stop is a size refusal (`RunQueryBounded.Run`,
   `RunQueryBounded.FetchDecides`); and it is never less than a sixteenth of that size
   (`ResultOvershoot.RowOvershoot`), nor than a sixth of it exactly where `ResultOvershoot.SixHoldsIff` says.
   What is sent, read as JSON, is the first rows of the caller's own result, cell by cell, and under `ok`
   all of them (`RunQueryBounded.ResultMeansItsRows`).
6. Free slots and holding threads always add up, whatever is interleaved, and a call cancelled before
   its check never dispatches (`InFlightSlots.SlotsAreConserved`,
   `InFlightSlots.CancelledBeforeCheckNeverDispatches`).
7. A Snowflake estimate issues nothing that could resume a warehouse unless the one exact row allows
   it (`SnowflakeGuard.ScriptIsGuarded`), and for every answer the exact condition is known under
   which its figure is at least the price of the observed warehouse (`SnowflakeFloor.EstimateFloorIff`).
   The figure is hours times credits an hour times dollars a credit, the hours being the mean of the runs
   that count (`SnowflakeFigures.FigureIsProduct`, `SnowflakeFigures.HistoryIsMean`).

## Where the code and its documentation disagree

The model follows the code; each point has a lemma.

- The scanner's design note says every disagreement between readings is refused. The test for a nested
  comment looks only before the closing pair, so a comment whose body ends in a slash is accepted and
  a nesting lexer reads past it. `SqlReadings.NestedCommentAgreesIff` gives the exact condition,
  `SqlPaths.NestingReadingDisagrees` a text on which a `;` is missed.
- The estimate is called a strict lower bound. It is an equality on rows of bare primitives
  (`ResultExact.BareRowsAreExact`), and with distinct keys exactly on the rows whose keys and leaves all
  cost one byte a character, without binary data and without a cut container
  (`ResultExact.RowEstimateIsExactIff`). It can overestimate when keys of one mapping collide after
  stringification, as the module text concedes: under given keys it is a lower bound for all values if
  and only if their texts are distinct (`ResultKeys.BoundHoldsIffKeysDistinct`, and for column names
  `ResultKeys.RowBoundHoldsIffNamesDistinct`; `ResultBounds.CollidingKeysBreakTheBound` is one input).
- A fetch is said to exceed the cap by about six times at worst, for text of control characters. For all
  rows with text over a given alphabet that holds if and only if the alphabet has no surrogate and no
  container may be cut at the nesting cap (`ResultOvershoot.SixHoldsIff`, one character at a time
  `ResultOvershoot.CharacterKeepsToSixIff`). Text of lone surrogates costs seven bytes a character
  (`ResultOvershoot.SurrogatesCostSeven`), and cut containers, named there without a figure, cost sixteen
  times their estimate in the limit (`ResultOvershoot.OverDeepCosts`). Those two factors are never passed
  (`ResultOvershoot.RowOvershoot`).
- The derived byte cap is said to make the provider admit what the gate admits. That holds for the
  unrounded price (`BigQueryCaps.GateAdmitsProviderAdmits`); the gate compares a figure rounded to six
  decimals, which can overshoot by at most one MiB (`BigQueryCaps.RoundedGateOvershoot`,
  `BigQueryCaps.RoundedGateCanOvershoot`), and does so for exactly the dollar caps that
  `BigQueryCaps.RoundedGateOvershootsIff` names.
- The Snowflake figure is said to be priced at the observed warehouse and never below it. For a bound
  STANDARD row of known size `SnowflakeFloor.EstimateFloorIff` gives the exact condition. The rate falls
  short in two ways (`SnowflakeFloor.RateCoversIff`): a failed region read discards the observed size
  (`SnowflakeFloor.FailedRegionUndercuts`), and a region that is not read or not recognised, or a
  generation that is not, leaves the Gen2 premium out (`SnowflakeFloor.SuspendedGen2Undercuts`). A larger
  asserted size or a dearer edition can make up for either. Independently of the rate, a query history
  whose run times sum below zero turns the order around (`SnowflakeFloor.HoursNegativeIff`,
  `SnowflakeFloor.NegativeHistoryUndercuts`). A failed region read also lets a warehouse of another type
  have a figure (`SnowflakeGuard.UnobservedHasNoFigure`).

## Model

| member | source | states |
|---|---|---|
| SqlScope.Scan | src/cost_guard_mcp/sql_scope.py:283-317 | the scanning loop returns what the token-by-token reading of the text returns, refusals and their offsets included; what a token is, the rows of `SqlTables` say |
| SqlScope.EscapedLiteralEnd | src/cost_guard_mcp/sql_scope.py:210-224 | the loop ends a literal at the first undoubled delimiter no backslash protects, or refuses at the opener |
| SqlScope.UnescapedLiteralEnd | src/cost_guard_mcp/sql_scope.py:227-253 | the candidate loop tests the backslash run before the doubling and refuses an odd run |
| SqlScope.CountBackslashes | src/cost_guard_mcp/sql_scope.py:240-242 | counts the backslash run before a candidate, not past the body's start |
| SqlScope.PrefixBefore | src/cost_guard_mcp/sql_scope.py:153-158 | the maximal run of identifier characters before a quote |
| SqlScope.NoneBeforeFirst | src/cost_guard_mcp/sql_scope.py:163-165 | a terminator or separator search returns the first one: none lies before it |
| SqlScope.CrLfBeforeBareCr | src/cost_guard_mcp/sql_scope.py:58-58 | before the first bare CR every CR is followed by its LF |
| SqlScope.NoneBeforeDelimiter | src/cost_guard_mcp/sql_scope.py:238-238 | a candidate delimiter is the first from where the search started |
| SqlScope.TablesAreValid | src/cost_guard_mcp/sql_scope.py:85-140 | each of the four dialect tables is valid exactly when the character predicates fit, and some do |
| SqlReadings.LineCommentReadingsAgree | src/cost_guard_mcp/sql_scope.py:39-58 | where a line comment is accepted, all terminator sets, with or without continuation, end it at one place up to the LF of one CRLF |
| SqlReadings.FlatCommentAgrees | src/cost_guard_mcp/sql_scope.py:195-207 | a flat reading ends every accepted block comment where the scanner does |
| SqlReadings.NestedCommentAgreesIff | src/cost_guard_mcp/sql_scope.py:196-207 | a nesting reading does so if and only if the body does not end in a slash |
| SqlReadings.UnescapedReadingsAgree | src/cost_guard_mcp/sql_scope.py:227-253 | an accepted raw, hex, dollar or quoted-identifier body ends at the same place with and without escapes |
| SqlReadings.UnescapedAcceptedIsEscaped | src/cost_guard_mcp/sql_scope.py:210-253 | whenever the stricter literal loop returns, the escape-honouring loop returns the same end |
| SqlReadings.LiteralReadingsAgree | src/cost_guard_mcp/sql_scope.py:256-280 | every reading of an accepted quoted construct that honours backslashes where its prefix or quote lets it, glued prefixes included, ends it where the scanner does |
| SqlReadings.ExtremesArePlausible | src/cost_guard_mcp/sql_scope.py:10-18 | the family of readings holds the lexer that honours every backslash and the one that honours only the sure ones, with any of the further line ends, continuations and nestings |
| SqlReadings.PairsAreText | src/cost_guard_mcp/sql_scope.py:163-253 | the two-character tests and the delimiter tests are tests for that text at that place |
| SqlReadings.PrefixIsGlued | src/cost_guard_mcp/sql_scope.py:153-158 | the prefix is the longest run of letters, digits, `_` and `$` that stands right before the quote |
| SqlReadings.LowerIsSame | src/cost_guard_mcp/sql_scope.py:259-259 | a lower-cased prefix equals a lower-case word iff the prefix is that word up to case |
| SqlTables.BigQueryReads | src/cost_guard_mcp/sql_scope.py:85-96 | at every position of every text: quotes of one or three under no prefix or `b` end with escapes, under `r`, `rb`, `br` and in backticks only where both readings agree, other prefixes are refused at their start; `#` and `--` comments run to the LF |
| SqlTables.SnowflakeReads | src/cost_guard_mcp/sql_scope.py:97-108 | strings in single quotes end with escapes, names in double quotes and dollar strings only where both readings agree, every prefix is refused; `//` and `--` comments run to the LF |
| SqlTables.DatabricksReads | src/cost_guard_mcp/sql_scope.py:109-120 | strings in both quotes end with escapes, `r` strings, single-quoted `x` literals and backticks only where both readings agree, other prefixes are refused; `--` comments run to the first CR or LF |
| SqlTables.FallbackReads | src/cost_guard_mcp/sql_scope.py:121-135 | an unknown engine gets the forms all tables share |
| SqlTables.UnescapedAcceptsIff | src/cost_guard_mcp/sql_scope.py:227-253 | a raw, hex, dollar or quoted-name body is accepted exactly where the readings with and without escapes end it at one place, and refused as ambiguous or unterminated elsewhere |
| SqlTables.LineIsRead | src/cost_guard_mcp/sql_scope.py:163-192 | a line comment is accepted, up to and with its first terminator, iff no other line separator, no bare CR and no backslash before the terminator occurs in it; each refusal points at one |
| SqlTables.BlockIsRead | src/cost_guard_mcp/sql_scope.py:195-207 | a block comment is accepted up to its first closing pair iff no opening pair occurs before it; refusals point at its start |
| SqlPaths.OpenersAreComplete | src/cost_guard_mcp/sql_scope.py:325-329 | consulting the lexer only at the opener characters misses no comment and no literal |
| SqlPaths.ScanAcceptsIff | src/cost_guard_mcp/sql_scope.py:283-317 | the scan accepts exactly the texts whose lexical path reaches the end with no top-level `;`, or one followed by trivia only |
| SqlPaths.ScanRefusalPoints | src/cost_guard_mcp/sql_scope.py:283-317 | a refused scan stopped at a comment or literal it could not read, with that refusal and offset, or at the first token after a top-level `;` that is no trivia |
| SqlPaths.NestingAgreesIff | src/cost_guard_mcp/sql_scope.py:195-207 | on a whole text the nesting side condition is exact |
| SqlPaths.AcceptedTextHasOneReading | src/cost_guard_mcp/sql_scope.py:10-18 | fail closed: every plausible reading of an accepted text, its openings stated apart from the scanner, sees the same top-level `;`, at most one, with only trivia after it |
| SqlPaths.NestingReadingDisagrees | src/cost_guard_mcp/sql_scope.py:199-206 | a concrete accepted text in which a nesting reading sees a `;` the scanner does not |
| SqlSlices.ReachRestrict | src/cost_guard_mcp/sql_scope_keywords.py:99-105 | locality: a slice that starts clear of a prefix is lexed exactly as the enclosing text lexes it |
| SqlSlices.StepExtend | src/cost_guard_mcp/sql_scope.py:332-366 | a step of a slice is the same step of the text around it when nothing after the slice can join its last lexeme |
| SqlWrap.StatementEndsSolid | src/cost_guard_mcp/sql_scope.py:283-286 | the statement ends with its last solid token: one on the scanner's path that is neither blank, comment nor `;`, with only trivia and at most one `;` after it |
| SqlWrap.BodyScansWhole | src/cost_guard_mcp/sql_scope.py:369-386 | the body scans as one statement ending at its own last character: no trailing `;`, comment or blank is left |
| SqlWrap.BodyIsIdempotent | src/cost_guard_mcp/sql_scope.py:369-386 | taking the body of a body changes nothing |
| SqlWrap.WrapperScansWhole | src/cost_guard_mcp/engines/bigquery.py:343-352 | the wrapped text scans as exactly one statement ending at its last character, with no top-level `;` |
| SqlDispatch.WrappedTextHasNoSemicolon | src/cost_guard_mcp/engines/bigquery.py:343-352 | no plausible reading sees a top-level `;` in the wrapper around an accepted statement |
| SqlDispatch.WrapperHasNoSlashClose | src/cost_guard_mcp/sql_scope.py:199-206 | the wrapper carries the nesting side condition of the caller's text |
| SqlLimit.DecimalReads | src/cost_guard_mcp/engines/bigquery.py:352-352 | the printed row count is a numeral without leading zeros and reads back as the count |
| SqlLimit.WrapperReads | src/cost_guard_mcp/engines/bigquery.py:352-352 | the wrapper is the literal head, the body, the literal tail and a numeral of the limit; the LIMIT the text ends in reads back as that limit |
| SqlLimit.RefusedBodyIsTrimmed | src/cost_guard_mcp/sql_scope.py:382-385 | of a text the scanner refuses the body is all but outer blanks and one run of `;` at the end |
| SqlLexer.SharedLexerIsLawful | src/cost_guard_mcp/sql_scope_keywords.py:99-105 | the lexer both gates share is local on the slices the walk takes, opens nothing inside a word and reads a quoted name as one literal |
| SqlKeywords.SkipTrivia | src/cost_guard_mcp/sql_scope_keywords.py:108-119 | the loop skips exactly white space, comments and, when asked, opening parentheses |
| SqlKeywords.FindGroupEnd | src/cost_guard_mcp/sql_scope_keywords.py:135-152 | the matcher's loop returns the matching parenthesis outside literals and comments and passes no character twice: exactly the group, when it is closed |
| SqlKeywords.StatementSegments | src/cost_guard_mcp/sql_scope_keywords.py:219-235 | the segmenter's loop returns the top-level segments |
| SqlWalk.WalkCteList | src/cost_guard_mcp/sql_scope_keywords.py:192-216 | the walk's loop computes the recursive walk, at exactly the cost of the list and within the budget of its levels |
| SqlWalk.ResolveQueryKeyword | src/cost_guard_mcp/sql_scope_keywords.py:167-179 | descent stops past sixteen levels of WITH; the cost is exactly that of the recursive walk and within budget |
| SqlWalk.WalkFromTheTop | src/cost_guard_mcp/sql_scope_keywords.py:69-75 | on every text the walk ends, and what the matcher passes, counted exactly, is at most sixteen times its length |
| SqlWalkCost.ResolveCostBound | src/cost_guard_mcp/sql_scope_keywords.py:69-75 | a walk with that many levels of WITH left costs at most the text for each, slices of one level being disjoint |
| SqlWalkCost.CteCostBound | src/cost_guard_mcp/sql_scope_keywords.py:192-208 | the column list and the body group of one CTE are passed once, within the stretch they lie in |
| SqlKeywords.ClosedGroupCost | src/cost_guard_mcp/sql_scope_keywords.py:135-152 | matching a group that is closed costs its own length |
| SqlGrammar.ResolveIsSound | src/cost_guard_mcp/sql_scope_keywords.py:167-216 | a keyword resolved on a slice comes with a derivation of that stretch of the text, and its offset plus the slice's points at that word |
| SqlGrammar.DerivedMainIsWord | src/cost_guard_mcp/sql_scope_keywords.py:182-188 | the main keyword of a derivation is the query word that stands in the text at its position |
| SqlCut.SameResolve | src/cost_guard_mcp/sql_scope_keywords.py:283-304 | the walk on a statement followed by `;` and trivia is the walk on the statement alone |
| SqlGates.ClosedGroupRefusesNothingNew | src/cost_guard_mcp/sql_scope_keywords.py:135-152 | lexing the body of a closed group raises no new lexer refusal and every group opening in it is closed in it |
| SqlGates.SegmentsJoinBack | src/cost_guard_mcp/sql_scope_keywords.py:219-235 | the segments joined with `;` give the text back |
| SqlGates.NonBlankIsStatement | src/cost_guard_mcp/sql_scope_keywords.py:257-269 | in an accepted text the gate looks at exactly one segment, the statement |
| SqlGates.WalkOfStatement | src/cost_guard_mcp/sql_scope_keywords.py:301-301 | the walks on the full text and on its one statement are the same walk |
| SqlGates.WrapRuleAgreesWithGates | src/cost_guard_mcp/sql_scope_keywords.py:283-304 | a text may be wrapped iff the scan finds one statement, the read gate admits it, it starts with SELECT, VALUES or WITH and its own WITH is not RECURSIVE |
| SqlGates.AdmittedWithDerives | src/cost_guard_mcp/sql_scope_keywords.py:238-250 | an admitted WITH statement derives from the grammar and its main keyword is SELECT or VALUES |
| SqlComplete.ResolveIsComplete | src/cost_guard_mcp/sql_scope_keywords.py:167-216 | on a stretch of the text that derives from the grammar the walk finds the derivation's main keyword, at its position |
| SqlComplete.GateIsGrammar | src/cost_guard_mcp/sql_scope_keywords.py:238-250 | a WITH is admitted if and only if the statement derives from the CTE grammar |
| SqlComplete.GateAdmitsIff | src/cost_guard_mcp/sql_scope_keywords.py:238-269 | the whole gate on one statement: a derivable WITH, or another first keyword on the read list, and nothing else |
| SqlWords.WordAtIff | src/cost_guard_mcp/sql_scope_keywords.py:122-124 | the word at a place is `w` iff an ASCII letter or `_` stands there and `w` is the maximal run of letters, digits and `_` with its lower-case letters capitalised; none iff no such character stands there |
| SqlWords.CteNameIff | src/cost_guard_mcp/sql_scope_keywords.py:155-164 | a CTE name is a maximal run of letters, digits, `_` and `$`, or a quoted name |
| SqlWords.QuotesOfNames | src/cost_guard_mcp/sql_scope_keywords.py:161-163 | names are quoted by backticks on BigQuery and Databricks, by double quotes on Snowflake |
| SqlWords.ReadWords | src/cost_guard_mcp/sql_scope_keywords.py:41-46 | the read words are those seven, the query words SELECT and VALUES, and no writing statement is among them |
| SqlCase.CaseNeverMatters | src/cost_guard_mcp/sql_scope_keywords.py:59-62 | texts that differ in the case of ASCII letters only have the same scan result, gate answer and wrap decision |
| SqlRules.GateByWords | src/cost_guard_mcp/sql_scope_keywords.py:238-254 | one statement is admitted iff it starts with SELECT, VALUES, SHOW, DESCRIBE, DESC or EXPLAIN, or is a WITH of the grammar |
| SqlRules.WrapByWords | src/cost_guard_mcp/sql_scope_keywords.py:283-304 | one statement may be wrapped iff it starts with SELECT or VALUES or is a WITH of the grammar without RECURSIVE |
| SqlRules.RecursiveIsDerived | src/cost_guard_mcp/sql_scope_keywords.py:272-280 | the RECURSIVE test finds the RECURSIVE of the derivation |
| SqlRules.EveryStatementIsChecked | src/cost_guard_mcp/sql_scope_keywords.py:257-269 | of any number of statements each that holds more than trivia must pass, and there must be one |
| SqlRules.RefusalPoints | src/cost_guard_mcp/sql_scope_keywords.py:238-254 | the offset of a refusal is that of the first word, or of where the walk of the WITH stopped |
| SqlRules.BrokenPoints | src/cost_guard_mcp/sql_scope_keywords.py:192-203 | where the shape of a CTE breaks: no name, no AS, or no parenthesis after it |
| JsonText.Base64 | src/cost_guard_mcp/tools/result_rows.py:98-99 | four characters for every three bytes begun, all of one byte in JSON |
| JsonText.SafeTextHasNoSurrogate | src/cost_guard_mcp/tools/result_rows.py:33-48 | safe text holds no lone surrogate and text without one is unchanged |
| JsonText.ArrayBytes | src/cost_guard_mcp/result_bounds.py:204-207 | the list form costs the rows and its framing |
| JsonReader.RenderReads | src/cost_guard_mcp/result_bounds.py:190-193 | a reader of compact JSON takes every rendered value back to the value, escapes, names, order and nesting included, and stops where it ends |
| JsonReader.ShortestForm | src/cost_guard_mcp/result_bounds.py:190-193 | every character of a string is written in the shortest form a reader takes for it |
| JsonReader.IntegerReads | src/cost_guard_mcp/tools/result_rows.py:87-88 | a printed integer is a JSON number and reads back as the integer |
| ByteReader.Base64Reads | src/cost_guard_mcp/tools/result_rows.py:93-94 | base 64 reads back as the bytes |
| ByteReader.BytesRead | src/cost_guard_mcp/result_bounds.py:190-193 | the measured size is the number of UTF-8 bytes, and they decode to the text when it has no lone surrogate |
| ResultRows.JsonSafeValue | src/cost_guard_mcp/tools/result_rows.py:72-109 | the recursion returns the normalised cell and tallies every container cut at depth 64; what the cell means to a reader is `ResultDecode.CellArrives` |
| ResultRows.NormaliseAllRows | src/cost_guard_mcp/tools/result_rows.py:112-137 | the nested loops return the normalised rows in order and count the cells that were cut; what they mean to a reader is `ResultDecode.SentRowsMeanTheRows` |
| ResultRows.MappingKeepsAllIff | src/cost_guard_mcp/result_bounds.py:29-33 | a mapping keeps all its members iff no two keys collide after stringification |
| ResultRows.NormalisedDepth | src/cost_guard_mcp/tools/result_rows.py:51-55 | a normalised cell nests at most 64 containers |
| ResultDecode.CellArrives | src/cost_guard_mcp/tools/result_rows.py:72-109 | a cell with clean text, distinct keys and at most 64 levels reads back as it was: null, booleans, integers, finite floats, text, bytes, lists and mappings in order |
| ResultDecode.KeyArrives | src/cost_guard_mcp/tools/result_rows.py:99-105 | a key reads as Python prints it: None, True, False, the integer, the text, or base 64 of the bytes |
| ResultDecode.SentRowsMeanTheRows | src/cost_guard_mcp/tools/result_rows.py:112-137 | the rendered rows read as a list of as many objects; every column is there in order under its name, and every cell nothing cuts as it was |
| ResultDecode.SafeTextSpellsOut | src/cost_guard_mcp/tools/result_rows.py:33-48 | safe text is the text with each lone surrogate spelled out in digits that name it |
| ResultDecode.CutIsSpelledOut | src/cost_guard_mcp/tools/result_rows.py:51-55 | a container from the sixty-fifth level on becomes the placeholder text |
| ResultDecode.CutIff | src/cost_guard_mcp/tools/result_rows.py:95-98 | something is cut in a cell iff it nests more than 64 containers |
| ResultDecode.CutCellsAreCounted | src/cost_guard_mcp/tools/result_rows.py:129-140 | the count of cut cells of a row is the number of its columns with such a cell |
| ResultBounds.EstimateIsLowerBound | src/cost_guard_mcp/result_bounds.py:97-121 | for a cell of any shape and depth the estimate is at most the exact size of the normalised cell, when keys stay distinct |
| ResultBounds.RowEstimateIsLowerBound | src/cost_guard_mcp/result_bounds.py:75-94 | the same of a row |
| ResultBounds.CollidingKeysBreakTheBound | src/cost_guard_mcp/result_bounds.py:29-33 | the concrete mapping on which the bound fails |
| ResultKeys.CollisionBreaksTheBound | src/cost_guard_mcp/result_bounds.py:29-33 | for any keys of which two collide there are leaf values for which the estimate exceeds the exact size |
| ResultKeys.BoundHoldsIffKeysDistinct | src/cost_guard_mcp/result_bounds.py:97-121 | at every depth that is kept, the estimate is a lower bound under given keys for all values iff the key texts are distinct |
| ResultKeys.RowBoundHoldsIffNamesDistinct | src/cost_guard_mcp/result_bounds.py:75-94 | the same of a row and its column names |
| ResultExact.BareRowsAreExact | src/cost_guard_mcp/result_bounds.py:91-92 | an equality for rows of bare finite primitives under plain, distinct names |
| ResultExact.EstimateIsExactIff | src/cost_guard_mcp/result_bounds.py:97-121 | with distinct keys a cell's estimate is its exact size iff all its keys and leaves cost one byte a character, it holds no binary data and none of its containers is cut |
| ResultExact.RowEstimateIsExactIff | src/cost_guard_mcp/result_bounds.py:16-23 | the same of a row, and the estimate is strictly below the exact size of every other row |
| ResultOvershoot.CellOvershoot | src/cost_guard_mcp/result_bounds.py:18-22 | a cell of any shape costs at most 16 times its estimate, 7 times when nothing is cut, 6 times when besides no text or key has a lone surrogate, a byte granted to each |
| ResultOvershoot.RowOvershoot | src/cost_guard_mcp/result_bounds.py:18-22 | the same of a row, without the extra byte and without a side condition |
| ResultOvershoot.SurrogatesCostSeven | src/cost_guard_mcp/tools/result_rows.py:33-48 | for every surrogate and every length, text of copies of it costs seven bytes a character |
| ResultOvershoot.OverDeepCosts | src/cost_guard_mcp/result_bounds.py:18-22 | rows of containers cut at the cap cost 16 times their estimate up to a constant, so the factor cannot be lowered |
| ResultOvershoot.SixHoldsIff | src/cost_guard_mcp/result_bounds.py:18-22 | for all rows with text over an alphabet the documented factor of six holds iff no container may be cut and the alphabet has no surrogate |
| ResultOvershoot.CharacterKeepsToSixIff | src/cost_guard_mcp/result_bounds.py:18-22 | text of copies of one character stays within six for every length iff the character is no surrogate |
| ResultFetch.CollectRows | src/cost_guard_mcp/result_bounds.py:129-153 | the loop returns the capped rows and says whether it stopped early |
| ResultFetch.CollectedIsUnique | src/cost_guard_mcp/result_bounds.py:129-153 | what a fetch must return leaves no choice of rows or flag |
| ResultFetch.LimitChangesNothing | src/cost_guard_mcp/engines/bigquery.py:371-373 | cutting the rows to one more than the cap upstream changes neither rows nor flag |
| ResultFetch.CollectPages | src/cost_guard_mcp/result_bounds.py:156-187 | the paged fetch returns the fetch of the delivered rows; the deadline check runs exactly before requests that follow a full page, with the exact count |
| ResultFetch.NextPage | src/cost_guard_mcp/result_bounds.py:177-187 | one turn of the generator: the deadline check only after a full page, then the request |
| ResultFetch.PagingIsInvisible | src/cost_guard_mcp/result_bounds.py:156-187 | two pagings of the same rows give the same result |
| ResultFetch.TrimRowsToByteCap | src/cost_guard_mcp/result_bounds.py:210-237 | the longest prefix that fits: every longer one exceeds the cap, both byte counts are the printed sizes, rows are dropped iff the total exceeds the cap |
| BigQueryCaps.CeilToMibIsLeast | src/cost_guard_mcp/engines/bigquery.py:242-242 | the one law of rounding up: a multiple of a MiB, not below the bytes, and below a multiple exactly when they are |
| BigQueryCaps.BilledBytesIsLeast | src/cost_guard_mcp/engines/bigquery.py:228-233 | a bill is the least multiple of a MiB that covers the bytes and ten MiB |
| BigQueryCaps.PriceIsProportional | src/cost_guard_mcp/engines/bigquery.py:199-201 | a TiB costs 6.25 dollars and prices add up |
| BigQueryCaps.RoundHalfEvenIsNearest | src/cost_guard_mcp/engines/bigquery.py:199-201 | rounding gives the nearest integer, of two equally near ones the even one |
| BigQueryCaps.Round6Law | src/cost_guard_mcp/engines/bigquery.py:197-201 | rounding to six decimals keeps order and moves a figure by at most half a unit |
| BigQueryCaps.DerivedCapBounds | src/cost_guard_mcp/engines/bigquery.py:225-243 | every derived cap lies between 10 MiB and the int64 maximum |
| BigQueryCaps.DerivedCapMonotone | src/cost_guard_mcp/engines/bigquery.py:225-243 | a larger dollar cap never derives a smaller byte cap |
| BigQueryCaps.GateAdmitsProviderAdmits | src/cost_guard_mcp/engines/bigquery.py:225-233 | what the unrounded dollar gate admits, the provider admits |
| BigQueryCaps.ProviderAdmitsIff | src/cost_guard_mcp/engines/bigquery.py:225-233 | the provider admits exactly the byte counts that do not exceed the derived cap: the bytes the dollars buy rounded up to a MiB, or 10 MiB |
| BigQueryCaps.RoundedGateOvershoot | src/cost_guard_mcp/engines/bigquery.py:199-201 | with the rounded figure the bill passes the derived cap by at most one MiB |
| BigQueryCaps.RoundedGateCanOvershoot | src/cost_guard_mcp/engines/bigquery.py:199-201 | a concrete byte count the rounded gate admits and the provider refuses |
| BigQueryCaps.RoundedGateOvershootsIff | src/cost_guard_mcp/engines/bigquery.py:199-201 | for a given dollar cap such a byte count exists iff the derived cap and one byte more still rounds to an admitted figure, below the int64 ceiling |
| BigQueryCaps.BillStaysNearCap | src/cost_guard_mcp/engines/bigquery.py:225-243 | a bill within the derived cap costs less than the dollar cap plus one MiB, unless at the floor |
| RunQueryBounded.AttachedCapNeverRises | src/cost_guard_mcp/tools/run_query_bounded.py:219-240 | the attached byte cap is the least of the caller's and the one a finite BigQuery dollar cap derives, so never above the caller's; it counts as derived iff the dollars set it |
| RunQueryBounded.EachEngineHasItsTable | src/cost_guard_mcp/sql_scope.py:136-140 | each engine's text is scanned with that engine's table |
| RunQueryBounded.DispatchTextReads | src/cost_guard_mcp/engines/bigquery.py:343-352 | the text sent is the literal wrapper around the statement body with a LIMIT that reads back as the row cap and one, or the caller's own text, by the wrap rule |
| RunQueryBounded.AdmittedBillStaysNearCap | src/cost_guard_mcp/tools/run_query_bounded.py:143-240 | what the gates admit of so many bytes on BigQuery bills at most one MiB above the attached cap, or the ten MiB minimum |
| RunQueryBounded.DispatchedTextIsOneStatement | src/cost_guard_mcp/engines/bigquery.py:343-352 | wrapped or not, the dispatched text is one statement by the scanner that admitted it |
| RunQueryBounded.DispatchedTextHasOneReading | src/cost_guard_mcp/engines/bigquery.py:343-352 | to every plausible lexer the dispatched text has no top-level `;` but the submitted trailing one |
| RunQueryBounded.EstimateBelowExact | src/cost_guard_mcp/result_bounds.py:137-143 | the running estimate never passes the exact size of the rows so far |
| RunQueryBounded.ExactBelowMultiple | src/cost_guard_mcp/result_bounds.py:18-22 | the rows held while the estimate is within the cap serialise to at most 16 times the estimate, 7 times when nothing is cut, 6 times when besides no text or key has a lone surrogate |
| RunQueryBounded.FetchDecides | src/cost_guard_mcp/tools/run_query_bounded.py:315-385 | however the fetch stopped, its rows decide the size verdict as the capped rows would, so a stop under the row cap is never reported as a row cap |
| RunQueryBounded.Conclude | src/cost_guard_mcp/tools/run_query_bounded.py:301-401 | normalise, measure, then size before row cap, with the longest fitting prefix |
| RunQueryBounded.VerdictIsHonest | src/cost_guard_mcp/tools/run_query_bounded.py:315-401 | `ok` means the complete normalised result within both caps; anything returned is a prefix of it that fits |
| RunQueryBounded.VerdictIsSharp | src/cost_guard_mcp/tools/run_query_bounded.py:315-401 | with distinct keys each verdict holds exactly when its cap is exceeded, and a row-cap refusal carries exactly the capped rows |
| RunQueryBounded.ResultMeansItsRows | src/cost_guard_mcp/tools/run_query_bounded.py:301-401 | what is returned is at most 8 MiB and reads as the first rows of the complete result, under `ok` as all of them |
| RunQueryBounded.CheckRequest | src/cost_guard_mcp/tools/run_query_bounded.py:66-103 | the checks before any estimate raise the failure of the first one that does not hold, in the order statement, read, NaN cap, row cap, byte cap |
| RunQueryBounded.CheckCaps | src/cost_guard_mcp/tools/run_query_bounded.py:143-217 | the dollar gate refuses before the byte gate; a figure above a finite cap refuses and one at most it does not, infinity refuses no figure, minus infinity every one; a cap without a figure refuses |
| RunQueryBounded.Run | src/cost_guard_mcp/tools/run_query_bounded.py:49-401 | dispatch happens iff every gate admits and no cancellation came, always last, with a LIMIT that reads back as the row cap and one, and only for figures at most the caps; each failure and refusal names the first gate that did not admit; the verdict is judged on the rows that LIMIT lets through |
| InFlightSlots.StepConserves | src/cost_guard_mcp/server.py:132-180 | every step keeps free slots plus holding threads at the bound |
| InFlightSlots.SlotsAreConserved | src/cost_guard_mcp/server.py:132-180 | in every run of any interleaving they add up to the bound |
| InFlightSlots.DispatchesAreBounded | src/cost_guard_mcp/server.py:98-102 | running dispatches, those of cancelled calls included, never exceed the bound |
| InFlightSlots.RefusalMeansFull | src/cost_guard_mcp/server.py:155-161 | a call is turned away iff as many other calls as the bound hold slots |
| InFlightSlots.SlotsAreReleasedOnce | src/cost_guard_mcp/server.py:155-175 | each acquired slot is released exactly once, at its thread's exit; no statement is sent twice |
| InFlightSlots.CancelledBeforePickUpTakesNoSlot | src/cost_guard_mcp/server.py:149-154 | a cancel before pickup leaks nothing |
| InFlightSlots.CancelledBeforeCheckNeverDispatches | src/cost_guard_mcp/tools/run_query_bounded.py:242-251 | a call cancelled before its check step never dispatches, whatever else happens |
| InFlightSlots.SlotsComeBack | src/cost_guard_mcp/server.py:162-175 | from every reachable state one exit per holding thread frees every slot |
| InFlightSlots.BoundedSemaphore.Acquire | src/cost_guard_mcp/server.py:155-155 | non-blocking: takes a slot iff one is free |
| InFlightSlots.BoundedSemaphore.Release | src/cost_guard_mcp/server.py:175-175 | gives a slot back, and fails beyond the bound |
| InFlightSlots.Server.PickUpCall | src/cost_guard_mcp/server.py:149-154 | a worker thread skips a job whose future is already cancelled |
| InFlightSlots.Server.AcquireSlot | src/cost_guard_mcp/server.py:155-161 | the acquire step on the call's own thread |
| InFlightSlots.Server.CheckCancelled | src/cost_guard_mcp/tools/run_query_bounded.py:242-251 | the check step raises iff the call was cancelled by then |
| InFlightSlots.Server.DispatchStatement | src/cost_guard_mcp/tools/run_query_bounded.py:253-266 | the dispatch step, only from a cleared call |
| InFlightSlots.Server.ExitCall | src/cost_guard_mcp/server.py:162-175 | leaving by return or exception releases the slot, and the release never fails |
| SnowflakePricing.TablesFollowTheRule | src/cost_guard_mcp/pricing/snowflake_pricing.py:9-20 | the tables obey the published rule: sizes double, Gen2 is 1.35 or 1.25 times Gen1 and ends at 4X-Large |
| SnowflakePricing.RateGrowsWithSize | src/cost_guard_mcp/pricing/snowflake_pricing.py:88-109 | a larger size bills strictly more on every generation and cloud, across the fall back to Gen1 too |
| SnowflakePricing.LargerSizeIsUpperBound | src/cost_guard_mcp/engines/snowflake.py:727-727 | choosing by credits chooses by size |
| SnowflakePricing.TiersByBytes | src/cost_guard_mcp/pricing/runtime_scaling.py:16-32 | the walk over the tiers gives 1, 4, 20 or 100 by the bounds 10 GB, 100 GB and 1 TB, each bound belonging to the tier above |
| SnowflakePricing.RuntimeGrowsWithBytes | src/cost_guard_mcp/pricing/runtime_scaling.py:24-32 | more bytes never mean less runtime, and never less than the baseline |
| SnowflakeGuard.MatchingOne | src/cost_guard_mcp/engines/snowflake.py:542-553 | the filter keeps one row iff exactly one position bears the stored name |
| SnowflakeGuard.ShowWarehouseRow | src/cost_guard_mcp/engines/snowflake.py:454-568 | which statements the observation issues and what it concludes from arbitrary answers |
| SnowflakeGuard.ResolvedIffBound | src/cost_guard_mcp/engines/snowflake.py:479-495 | a row is bound iff exactly one SHOW row bears the pinned stored name |
| SnowflakeGuard.LookupWarehouseFacts | src/cost_guard_mcp/engines/snowflake.py:623-650 | the region is read only after a bound row that allows it, and a failed read discards the observation |
| SnowflakeGuard.HistoryGuard | src/cost_guard_mcp/engines/snowflake.py:889-923 | the history read is allowed iff resuming is, or the caller named a warehouse whose one row is STARTED and the region read succeeded |
| SnowflakeGuard.ScriptIsGuarded | src/cost_guard_mcp/engines/snowflake.py:582-598 | over a whole estimate, CURRENT_REGION and QUERY_HISTORY are issued exactly under those conditions |
| SnowflakeGuard.RegionFollowsShow | src/cost_guard_mcp/engines/snowflake.py:638-650 | the region read directly follows the SHOW that allowed it, and only allow-listed names are looked up |
| SnowflakeGuard.UnobservedHasNoFigure | src/cost_guard_mcp/engines/snowflake.py:690-725 | rows without exactly one exact match have no rate; another type or an unknown size has none exactly when the region read did not fail |
| SnowflakeGuard.FigureIsMonotone | src/cost_guard_mcp/engines/snowflake.py:667-776 | for hours of either sign: more hours never lower the figure; a larger asserted size or a dearer edition never lower it at hours that are not negative, and never raise it at hours that are not positive |
| SnowflakeGuard.RuntimeIsMonotone | src/cost_guard_mcp/engines/snowflake.py:779-819 | more bytes never lower the hours that are priced |
| SnowflakeGuard.HistoricalHoursBetween | src/cost_guard_mcp/engines/snowflake.py:270-286 | the historical hours lie between the shortest and the longest run that counted |
| SnowflakeGuard.ExplainEstimate | src/cost_guard_mcp/engines/snowflake.py:926-1023 | bad arguments issue nothing; a failure never reaches a guarded statement; a success issues exactly the guarded script and prices the observation |
| SnowflakeFigures.HistoryIsMean | src/cost_guard_mcp/engines/snowflake.py:270-286 | the hours of a history are the mean time of exactly the runs of the same text that read bytes, each once; none when there is none |
| SnowflakeFigures.HoursByAnswers | src/cost_guard_mcp/engines/snowflake.py:779-817 | history first when it may be read and has such a run, else 30, 120, 600 or 3000 seconds by the bytes, else no hours |
| SnowflakeFigures.RateByObservation | src/cost_guard_mcp/engines/snowflake.py:667-761 | the rate is that of the larger size by doubling, with the Gen2 factor where generation and cloud are known; the asserted size when the lookup failed; none otherwise |
| SnowflakeFigures.PriceIsDearer | src/cost_guard_mcp/engines/snowflake.py:764-776 | two, three, four or six dollars a credit, by the dearer of the two editions |
| SnowflakeFigures.FigureIsProduct | src/cost_guard_mcp/engines/snowflake.py:926-1023 | the figure is hours times rate times price to six decimals, and there is one iff rate and hours are known |
| SnowflakeFigures.AllowedNames | src/cost_guard_mcp/engines/snowflake.py:178-191 | an allowed name is 1 to 255 characters that need no quotes |
| SnowflakeFigures.PinnedNameIsStored | src/cost_guard_mcp/engines/snowflake.py:479-495 | the name looked for is the argument with its letters capitalised, or the session's own unchanged |
| SnowflakeFigures.LookupByAnswers | src/cost_guard_mcp/engines/snowflake.py:506-553 | the four ways a lookup ends, by the answers |
| SnowflakeFloor.RateCoversIff | src/cost_guard_mcp/engines/snowflake.py:667-761 | the rate reaches the warehouse's own exactly when the asserted size is larger, or the size and generation observed are the ones priced, case by case for a region read, not read and failed |
| SnowflakeFloor.FloorHoldsIff | src/cost_guard_mcp/engines/snowflake.py:670-671 | before rounding, for all hours, the figure is at least the warehouse's price exactly when the editions make up for what the rate leaves out |
| SnowflakeFloor.FigureNeverBelowObserved | src/cost_guard_mcp/engines/snowflake.py:939-942 | the rounded figure is not below the warehouse's price where that condition holds, and for any runtime of the byte tiers only there |
| SnowflakeFloor.EstimateFloorIff | src/cost_guard_mcp/engines/snowflake.py:977-1006 | the same of a whole estimate over arbitrary answers, in terms of the request and the answers |
| SnowflakeFloor.HoursNegativeIff | src/cost_guard_mcp/engines/snowflake.py:270-286 | hours are negative iff a history may be read and its counted run times sum below zero; below the baseline only with a history |
| SnowflakeFloor.FailedRegionUndercuts | src/cost_guard_mcp/engines/snowflake.py:638-650 | a started 6X-Large whose region read fails is priced below itself |
| SnowflakeFloor.SuspendedGen2Undercuts | src/cost_guard_mcp/engines/snowflake.py:734-761 | a suspended Gen2 Large is priced below itself on every cloud |
| SnowflakeFloor.NegativeHistoryUndercuts | src/cost_guard_mcp/engines/snowflake.py:779-800 | a history of a negative run time prices a larger asserted size below the observed one |

## Left out

- Clients, sessions, HTTP, retries, timeouts and polling: their answers are inputs, their calls a trace. A failed deadline check is `Late` in the paged fetch and `Fails` in a run.
- The environment variables that switch a gate off or allow resuming: the gates are modelled as on; `allowResume` is an input.
- Refusal wording, hints, caveats, logging and redaction. A refusal carries its kind and offset only.
- Databricks pricing and its warehouse guard, which repeat the Snowflake shape with fewer cases.
- Floating-point rounding: dollars and hours are reals. NaN and the infinities are values of the cost cap only.
- Unicode tables for white space, identifier characters and upper case: abstract, or ASCII where the program restricts itself to ASCII.
- Whether the warehouses lex as assumed: the family of readings is the specification.
- Parenthesis balance outside the CTE walk: the program does not check it.
- Non-text column names, non-scalar dictionary keys and driver types beyond text, binary, native and other.
- The white-space folding under which the text of a history row is that of the query: whether it is so is an input of the row.
- The spellings of warehouse sizes and editions: an unknown one is `None`, a known one a value; a SHOW row's state is STARTED or not, after the stripping and upper-casing of the program.
- Multi-statement scripts under the operator's opt-out: `CheckEveryStatement` models the loop over segments, the theorems about the gates take one statement.
- RunQueryBounded.Run: takes the provider's complete result as one row sequence; that a paged delivery gives the same rows is `ResultFetch.PagingIsInvisible`.
- SnowflakeFloor.EstimateFloorIff: says nothing of a warehouse that was not bound to one row, whose figure, if any, is priced at the asserted size, nor of a type other than STANDARD, for which the program has no rate to compare with.
- InFlightSlots.SlotsComeBack: that a warehouse query ends at all is the warehouse's business; the model says that every exit frees its slot.
