# STEP data analysis and file-tool helpers, modelled in Dafny

This project models the core of a Java file server whose tools read and edit
files under configured roots and analyse STEP (ISO 10303-21) CAD files.
The core has five parts:

- **`StepDataAnalyzer`** is the one-pass engine over the `DATA;` section of a
  STEP file. The model covers:
  - the entity scanner (`parseEntity`, `findMatchingParen`, `findStatementEnd`);
  - the recursive-descent argument `Parser`;
  - the record extractors (`PRODUCT`, formations, definitions, usage
    relations, measure items, `CARTESIAN_POINT`);
  - `normalizeEntityText`;
  - `analyze`, with its collected type counts, parts list, assembly tree,
    bounding box and the geometry, topology and PMI summaries;
  - the paged `listEntities`.
- **`StepModelInfoParser`** provides the string codec of ISO 10303-21 clause
  6.4.3: `\X\hh`, plus `\X2\…\X0\` and `\X4\…\X0\` hex runs. It also
  provides the argument helpers `extractParenContent`, `splitTopLevelArgs`
  and `extractStringLiterals`.
- **`FileIndexCache`** has two parts:
  - a name index of bounded per-name path buckets, with a time to live and
    cleanup on every 2000th record;
  - a time-limited LRU cache of directory listings.
- **`PendingFileWriteStore`** is the table of writes waiting for confirmation.
  It is keyed by token and each entry has an expiry time.
- **The pure helpers of `FileMcpTools`** are:
  - the `resolve*` clamps;
  - line excerpts and head truncation;
  - the search context buffer and emitted-line bookkeeping;
  - the capped warning list;
  - `joinLines`, base-path containment and `indexOfIgnoreCase`;
  - the index logic of `insert_lines` and `delete_lines`.

**How Java is represented**

- A Java string is a sequence of UTF-16 code units: `JString = seq<Char16>`.
- The Unicode-dependent library calls are the total functions of a `JavaLib`
  value passed to every operation that uses them: `Character.isWhitespace`,
  `isDigit`, `isLetterOrDigit`, `toUpperCase`, `toLowerCase`, ignore-case
  `regionMatches` and `Double.parseDouble`.
- Clocks and random tokens are parameters.
- A loop of the source is a method proved equal to a recursive specification
  function. The source's properties are lemmas about those functions.
- An object whose fields the source updates is a class with `modifies`
  clauses: the argument parser, the node budget, the bounding-box
  accumulator, both caches and the pending-write store.
- `StepWriter` is an independent writer for argument lists. It exists only as
  the partner of the parser, for the round-trip lemmas.

**Behaviour of the source worth knowing**

- The assembly node budget is consumed by every node the walk reaches
  except cycle leaves and the one leaf cut by the depth limit; childless
  leaves consume it too. The leaf refused by the budget is still added,
  so a truncated tree holds at most one node more than the budget
  (`StepAssembly.BuildAssemblyTree`).
- `PendingFileWriteStore` caps only the bytes of each entry. Nothing caps the
  number of entries.
- `listEntities` reports `hasMore` as soon as a page fills, even when no
  further match follows.
- Each `resolve*` clamp is `min(max(floor, v), cap)`. Its result is at least
  the floor only when the configured cap is at least the floor.

## Model

| member | source | states |
|---|---|---|
| JavaText.Trim | src/main/java/org/example/filesystem/FileIndexCache.java:247-250 | `String.trim`: the result is a slice of the string with only units at or below U+0020 cut from either side, and it neither starts nor ends with such a unit (so a string without them is unchanged) |
| JavaText.WrapInt | src/main/java/org/example/filesystem/step/StepDataAnalyzer.java:403 | Java `int` wrap-around: the result is in the 32-bit range, congruent to the input modulo 2^32, and equal to it when the input already fits |
| JavaText.IndexOfChar | src/main/java/org/example/filesystem/step/StepDataAnalyzer.java:305 | `indexOf(char, from)`: the first index at or after `from` holding the unit, or -1 when none does |
| StepEscapes.HexValue | src/main/java/org/example/filesystem/step/StepModelInfoParser.java:492-501 | the value 0-15 of an upper- or lower-case hex digit, and -1 exactly for a unit that is neither |
| StepEscapes.HexDigitValues | src/main/java/org/example/filesystem/step/StepModelInfoParser.java:492-501 | reading back either spelling of a digit gives its value |
| StepEscapes.HexByte | src/main/java/org/example/filesystem/step/StepModelInfoParser.java:479-486 | non-negative exactly when both units are hex digits, and then high digit times 16 plus low digit |
| StepEscapes.HexByteOfDigits | src/main/java/org/example/filesystem/step/StepModelInfoParser.java:479-486 | every byte written as two hex digits reads back as itself |
| StepEscapes.HexNumberOfDigits | src/main/java/org/example/filesystem/step/StepModelInfoParser.java:463 | a number written as a fixed-width hex group parses back to the same number (the `Integer.parseInt(group, 16)` step) |
| StepEscapes.FindEndMarker | src/main/java/org/example/filesystem/step/StepModelInfoParser.java:421-439 | the first `\X0\` at or after `from`, or -1 when there is none |
| StepEscapes.IndexOfEndMarker | src/main/java/org/example/filesystem/step/StepModelInfoParser.java:421-439 | the search loop returns exactly the first end marker |
| StepEscapes.Usable | src/main/java/org/example/filesystem/step/StepModelInfoParser.java:453-457 | the usable digit count is a whole number of groups and drops fewer than one group |
| StepEscapes.DecodeHexSequence | src/main/java/org/example/filesystem/step/StepModelInfoParser.java:441-477 | the decoding loop computes the specification `DecodeHex` of the run |
| StepEscapes.KeepHexDigits | src/main/java/org/example/filesystem/step/StepModelInfoParser.java:446-451 | the filter loop keeps exactly the hex digits, in order |
| StepEscapes.DecodeWholeGroups | src/main/java/org/example/filesystem/step/StepModelInfoParser.java:460-475 | the group loop decodes the usable prefix group by group, failing on a group that overflows `int` |
| StepEscapes.GroupStep | src/main/java/org/example/filesystem/step/StepModelInfoParser.java:460-475 | one group either fails the whole run (value above `Integer.MAX_VALUE`) or contributes its units ahead of the rest |
| StepEscapes.EscapeStep | src/main/java/org/example/filesystem/step/StepModelInfoParser.java:378-417 | one pass of the escape loop produces exactly the piece and resume index of the specification `EscapeAt` |
| StepEscapes.DecodeStepEscapes | src/main/java/org/example/filesystem/step/StepModelInfoParser.java:364-419 | the decoding loop computes the specification `DecodeAt` of the whole text |
| StepEscapes.DecodeStep | src/main/java/org/example/filesystem/step/StepModelInfoParser.java:378-417 | decoding from an index is the piece at that index followed by decoding from its resume index |
| StepEscapes.NoBackslashUnchanged | src/main/java/org/example/filesystem/step/StepModelInfoParser.java:365-367 | text without a backslash decodes to itself |
| StepEscapes.PlainStretch | src/main/java/org/example/filesystem/step/StepModelInfoParser.java:416 | a stretch without backslashes is copied through verbatim |
| StepEscapes.NonHexIgnored | src/main/java/org/example/filesystem/step/StepModelInfoParser.java:446-451 | non-hex units inside a run do not change what it decodes to |
| StepEscapes.ShortRunRejected | src/main/java/org/example/filesystem/step/StepModelInfoParser.java:453-457 | a non-empty run with fewer hex digits than one group does not decode |
| StepEscapes.DroppedTail | src/main/java/org/example/filesystem/step/StepModelInfoParser.java:453-454 | digits beyond the last whole group are dropped without effect |
| StepEscapes.WholeGroups | src/main/java/org/example/filesystem/step/StepModelInfoParser.java:453-475 | a run decodes as the whole groups of its hex digits |
| StepEscapes.HexOnlyAppend | src/main/java/org/example/filesystem/step/StepModelInfoParser.java:446-451 | filtering hex digits distributes over concatenation |
| StepEscapes.EncodeGroups | src/main/java/org/example/filesystem/step/StepModelInfoParser.java:453-457 | the encoder, partner of the decoder: it writes only hex digits, in whole groups |
| StepEscapes.EncodeRun | src/main/java/org/example/filesystem/step/StepModelInfoParser.java:390-403 | an encoded run is the `\X2\` or `\X4\` opener, the groups, then `\X0\` |
| StepEscapes.DecodeEncodedGroups | src/main/java/org/example/filesystem/step/StepModelInfoParser.java:460-475 | decoding encoded groups gives back their UTF-16 units (round trip) |
| StepEscapes.DecodeHexEncoded | src/main/java/org/example/filesystem/step/StepModelInfoParser.java:441-477 | the hex-sequence decoder inverts the group encoder |
| StepEscapes.RunDecodes | src/main/java/org/example/filesystem/step/StepModelInfoParser.java:390-403 | a well-formed run in the text decodes to its units, and decoding resumes after its `\X0\` |
| StepEscapes.RunOfDigits | src/main/java/org/example/filesystem/step/StepModelInfoParser.java:390-403 | the run recogniser accepts a well-formed run and resumes after its `\X0\` |
| StepEscapes.RunEndMarker | src/main/java/org/example/filesystem/step/StepModelInfoParser.java:394 | the end marker found after a run of hex digits is the one that closes it |
| StepEscapes.Ucs2RoundTrip | src/main/java/org/example/filesystem/step/StepModelInfoParser.java:390-403 | a `\X2\` run encoding any UTF-16 units decodes back to those units |
| StepEscapes.Ucs4Units | src/main/java/org/example/filesystem/step/StepModelInfoParser.java:467-471 | in `\X4\` mode every valid code point becomes its UTF-16 encoding (`Character.toChars`) |
| StepEscapes.SingleGroup | src/main/java/org/example/filesystem/step/StepModelInfoParser.java:460-475 | one group decodes to its units unless its value overflows `int`, in which case the run fails |
| StepEscapes.InvalidCodePointSkipped | src/main/java/org/example/filesystem/step/StepModelInfoParser.java:467-471 | an `\X4\` group above U+10FFFF that fits an `int` is skipped, yielding nothing |
| StepEscapes.RunAtFails | src/main/java/org/example/filesystem/step/StepModelInfoParser.java:390-416 | when a run's digits do not decode, the backslash is copied literally and scanning resumes one unit on |
| StepEscapes.OverflowStaysLiteral | src/main/java/org/example/filesystem/step/StepModelInfoParser.java:463-465 | an `\X4\` group whose value overflows `int` leaves the whole escape literal |
| StepEscapes.ShortRunStaysLiteral | src/main/java/org/example/filesystem/step/StepModelInfoParser.java:453-457 | a run shorter than one group leaves the backslash literal |
| StepEscapes.ByteEscape | src/main/java/org/example/filesystem/step/StepModelInfoParser.java:406-413 | `\X\hh` decodes to the single unit with code hh and resumes after the two digits |
| StepEscapes.BadByteEscape | src/main/java/org/example/filesystem/step/StepModelInfoParser.java:406-416 | `\X\` without two hex digits after it copies the backslash literally |
| StepEscapes.ChineseExample | src/test/java/org/example/filesystem/step/StepModelInfoParserTest.java:10-12 | `\X2\4E2D6587\X0\` decodes to the two units U+4E2D U+6587 |
| StepEscapes.ExampleEncoding | src/test/java/org/example/filesystem/step/StepModelInfoParserTest.java:10-12 | the encoder writes those two units as that exact escape |
| StepEscapes.ReadQuoted | src/main/java/org/example/filesystem/step/StepModelInfoParser.java:344-358 | the literal reader stops at a lone quote (never at a doubled one) or at the end of the text |
| StepEscapes.ReadQuotedBody | src/main/java/org/example/filesystem/step/StepDataAnalyzer.java:822-836 | the literal-reading loop returns exactly the body and stop index of `ReadQuoted` |
| StepEscapes.QuotedUnit | src/main/java/org/example/filesystem/step/StepDataAnalyzer.java:825-835 | one pass of that loop either closes the literal or reads one body unit (`''` as one quote) |
| StepEscapes.EscapeQuotes | src/main/java/org/example/filesystem/step/StepDataAnalyzer.java:843-848 | quote doubling never shortens the text and leaves quote-free text unchanged |
| StepEscapes.QuotedRoundTrip | src/main/java/org/example/filesystem/step/StepModelInfoParser.java:344-358 | reading a literal written with doubled quotes gives back the original body and stops at the closing quote |
| StepHeaderText.ExtractParenContent | src/main/java/org/example/filesystem/step/StepModelInfoParser.java:235-277 | the text strictly between the `(` at `open` and its string-aware matching `)`; absent exactly when there is no `(` at `open` or it is unmatched |
| StepHeaderText.TopCommas | src/main/java/org/example/filesystem/step/StepModelInfoParser.java:279-327 | the separating commas, in increasing order, each a comma of the text |
| StepHeaderText.SplitTopLevelArgs | src/main/java/org/example/filesystem/step/StepModelInfoParser.java:279-327 | blank input gives no pieces; otherwise the trimmed pieces between top-level commas, one more than there are such commas |
| StepHeaderText.SplitTrimmed | src/main/java/org/example/filesystem/step/StepModelInfoParser.java:290-326 | the splitting loop yields the trimmed pieces of the specification `SplitFrom` |
| StepHeaderText.SplitUnit | src/main/java/org/example/filesystem/step/StepModelInfoParser.java:292-325 | one pass of the loop either cuts a piece at a top-level comma or advances its depth and string state |
| StepHeaderText.SplitCount | src/main/java/org/example/filesystem/step/StepModelInfoParser.java:279-327 | the piece count equals the number of top-level commas plus one |
| StepHeaderText.SplitJoins | src/main/java/org/example/filesystem/step/StepModelInfoParser.java:279-327 | joining the pieces with commas gives back the text: nothing is lost or reordered |
| StepHeaderText.SplitJoinsBack | src/main/java/org/example/filesystem/step/StepModelInfoParser.java:279-327 | the untrimmed pieces of a non-blank input rejoin to the trimmed input |
| StepHeaderText.TopCommasSkipLiteral | src/main/java/org/example/filesystem/step/StepModelInfoParser.java:296-305 | commas inside a quoted literal (with `''` escapes) never split |
| StepHeaderText.PlainCommas | src/main/java/org/example/filesystem/step/StepModelInfoParser.java:279-327 | in text without quotes or parentheses every comma separates |
| StepHeaderText.ExtractStringLiterals | src/main/java/org/example/filesystem/step/StepModelInfoParser.java:334-362 | blank or quote-free text yields no literals; otherwise each quoted run in order, `''` turned into `'`, escapes decoded |
| StepHeaderText.FirstStringLiteral | src/main/java/org/example/filesystem/step/StepModelInfoParser.java:329-332 | the first literal, absent exactly when there is none |
| StepHeaderText.LiteralRoundTrip | src/main/java/org/example/filesystem/step/StepModelInfoParser.java:334-362 | a single literal written with doubled quotes is read back as its original text |
| StepHeaderText.OReillyExample | src/test/java/org/example/filesystem/step/StepModelInfoParserTest.java:52-61 | `'O''Reilly'` yields the literal `O'Reilly` |
| StepHeaderText.EscapeQuotesAppend | src/main/java/org/example/filesystem/step/StepDataAnalyzer.java:843-848 | quote doubling distributes over concatenation |
| StepRecords.GeometricToleranceIsTolerance | src/main/java/org/example/filesystem/step/StepDataAnalyzer.java:850-870 | every `GEOMETRIC_TOLERANCE` type name is a PMI type |
| StepRecords.ParseProduct | src/main/java/org/example/filesystem/step/StepDataAnalyzer.java:936-942 | the id, name and description are the text arguments 0, 1 and 2, each absent exactly when that argument is not text |
| StepRecords.ParseFormation | src/main/java/org/example/filesystem/step/StepDataAnalyzer.java:944-948 | the product reference is argument 2 exactly when that argument is a reference |
| StepRecords.ParseDefinition | src/main/java/org/example/filesystem/step/StepDataAnalyzer.java:950-956 | id and description from arguments 0 and 1, the formation reference from argument 2 when it is a reference |
| StepRecords.ParseRelation | src/main/java/org/example/filesystem/step/StepDataAnalyzer.java:958-985 | a relation exactly when the type is a relation type and arguments 3 and 4 are references; then parent, child, blank-to-null name and description, and a reference designator only for non-generic types with non-blank text |
| StepRecords.ParseMeasure | src/main/java/org/example/filesystem/step/StepDataAnalyzer.java:987-1004 | a measure exactly when argument 1 is a typed value; its value is the typed value's leading number, its unit the reference in argument 2 |
| StepRecords.ProductRoundTrip | src/main/java/org/example/filesystem/step/StepDataAnalyzer.java:936-942 | written product arguments parse back to the product |
| StepRecords.FormationRoundTrip | src/main/java/org/example/filesystem/step/StepDataAnalyzer.java:944-948 | written formation arguments parse back to the formation |
| StepRecords.DefinitionRoundTrip | src/main/java/org/example/filesystem/step/StepDataAnalyzer.java:950-956 | written definition arguments parse back to the definition |
| StepRecords.UsageRoundTrip | src/main/java/org/example/filesystem/step/StepDataAnalyzer.java:958-985 | a written usage occurrence parses back to its relation |
| StepRecords.UsageWithoutChild | src/main/java/org/example/filesystem/step/StepDataAnalyzer.java:966-970 | a usage whose child argument is `$` yields no relation |
| StepRecords.EscapeStepString | src/main/java/org/example/filesystem/step/StepDataAnalyzer.java:843-848 | quote-free text is unchanged; otherwise each quote is doubled, so the length grows by the quote count |
| StepRecords.NormalizeEntityText | src/main/java/org/example/filesystem/step/StepDataAnalyzer.java:811-841 | quote-free text is unchanged; otherwise the loop computes `NormalizeFrom`, re-quoting each literal's decoded body |
| StepRecords.NormalizeStep | src/main/java/org/example/filesystem/step/StepDataAnalyzer.java:816-839 | a non-quote unit is copied; a literal becomes quote, escaped decoded body, quote, and normalising resumes after it |
| StepRecords.NormalizePlain | src/main/java/org/example/filesystem/step/StepDataAnalyzer.java:816-821 | text without quotes normalises to itself |
| StepRecords.NormalizedLiteralReadsBack | src/main/java/org/example/filesystem/step/StepDataAnalyzer.java:811-841 | reading the first literal of the normalised text gives the decoded body of the original literal |
| StepScanner.SkipWs | src/main/java/org/example/filesystem/step/StepDataAnalyzer.java:350-360 | the first non-white-space index at or after the cursor |
| StepScanner.CursorSkipWs | src/main/java/org/example/filesystem/step/StepDataAnalyzer.java:350-360 | the loop returns exactly `SkipWs` |
| StepScanner.FirstMatch | src/main/java/org/example/filesystem/step/StepDataAnalyzer.java:362-378 | the first index from `from` where the needle matches ignoring case, or -1 |
| StepScanner.IndexOfIgnoreCase | src/main/java/org/example/filesystem/step/StepDataAnalyzer.java:362-378 | the search loop returns exactly that first match of the lower-cased needle |
| StepScanner.ParenScan | src/main/java/org/example/filesystem/step/StepDataAnalyzer.java:448-481 | the matching parenthesis is a `)` at or after the opening one, or -1 |
| StepScanner.FindMatchingParen | src/main/java/org/example/filesystem/step/StepDataAnalyzer.java:448-481 | the loop returns exactly `ParenScan` from the opening parenthesis |
| StepScanner.SemiScan | src/main/java/org/example/filesystem/step/StepDataAnalyzer.java:483-517 | the statement end is a `;` at or after `from`, or -1 |
| StepScanner.FindStatementEnd | src/main/java/org/example/filesystem/step/StepDataAnalyzer.java:483-517 | the loop returns exactly `SemiScan` from `max(0, from)` |
| StepScanner.ParenScanSkipsLiteral | src/main/java/org/example/filesystem/step/StepDataAnalyzer.java:456-470 | parentheses inside a quoted literal (with `''` escapes) are ignored |
| StepScanner.SemiScanSkipsLiteral | src/main/java/org/example/filesystem/step/StepDataAnalyzer.java:491-506 | semicolons inside a quoted literal are ignored |
| StepScanner.DigitValue | src/main/java/org/example/filesystem/step/StepDataAnalyzer.java:403 | the id accumulated in 32-bit `int` arithmetic stays in the `int` range |
| StepScanner.EntityAt | src/main/java/org/example/filesystem/step/StepDataAnalyzer.java:383-446 | an entity only at `#` followed by a digit; on success the raw text is the slice from the start to `next`, and `start < next <= length`, so both scan loops advance |
| StepScanner.EntityShape | src/main/java/org/example/filesystem/step/StepDataAnalyzer.java:383-446 | an entity exactly when the text at `start` reads `#`, a maximal run of digits, optional whitespace, `=`, optional whitespace, a non-empty maximal identifier of letters, digits and `_`, optional whitespace and `(` with a matching `)`; then the id is the digits' value, the type the upper-cased identifier and the arguments the text between the parentheses |
| StepScanner.EntityBodyIs | src/main/java/org/example/filesystem/step/StepDataAnalyzer.java:433-445 | with a matching `)` the entity is id, upper-cased type, the text between the parentheses, and the raw text through the `;` (or just past the `)` when there is none) |
| StepScanner.ReadDigits | src/main/java/org/example/filesystem/step/StepDataAnalyzer.java:396-406 | the digit loop stops at the first non-digit, with its `int` value |
| StepScanner.ReadIdent | src/main/java/org/example/filesystem/step/StepDataAnalyzer.java:416-424 | the type-name loop stops at the first unit that is neither letter, digit nor `_` |
| StepScanner.ParseEntity | src/main/java/org/example/filesystem/step/StepDataAnalyzer.java:383-446 | `parseEntity` returns exactly `EntityAt` |
| StepScanner.ParseAfterId | src/main/java/org/example/filesystem/step/StepDataAnalyzer.java:407-415 | no digits or no `=` after them yields nothing; otherwise parsing continues at the type name |
| StepScanner.ParseEntityBody | src/main/java/org/example/filesystem/step/StepDataAnalyzer.java:416-432 | an empty type name or a missing `(` yields nothing |
| StepScanner.ParseEntityArgs | src/main/java/org/example/filesystem/step/StepDataAnalyzer.java:433-445 | an unmatched `(` yields nothing; otherwise the entity of `EntityBodyIs` |
| StepValues.NormalizeExponent | src/main/java/org/example/filesystem/step/StepDataAnalyzer.java:673-691 | every `D`/`d` exponent letter is rewritten to `E` and nothing else changes |
| StepValues.ValueAt | src/main/java/org/example/filesystem/step/StepDataAnalyzer.java:590-671 | the parser is total and each value read before the end consumes at least one unit |
| StepValues.ItemsAt | src/main/java/org/example/filesystem/step/StepDataAnalyzer.java:570-588 | a list of items is non-empty exactly when text remains, and never reads past the end |
| StepValues.ArgsOf | src/main/java/org/example/filesystem/step/StepDataAnalyzer.java:543-559 | the arguments are empty exactly for blank text |
| StepValues.ParseArgsText | src/main/java/org/example/filesystem/step/StepDataAnalyzer.java:543-559 | the static `parseArgs` returns exactly `ArgsOf` |
| StepValues.SkipWsBlank | src/main/java/org/example/filesystem/step/StepDataAnalyzer.java:543-548 | skipping white space reaches the end exactly for blank text |
| StepValues.Parser.constructor | src/main/java/org/example/filesystem/step/StepDataAnalyzer.java:566-568 | the parser starts at index 0 of its text |
| StepValues.Parser.Eof | src/main/java/org/example/filesystem/step/StepDataAnalyzer.java:769-771 | true exactly when the index is at or past the end |
| StepValues.Parser.Peek | src/main/java/org/example/filesystem/step/StepDataAnalyzer.java:773-775 | the unit at the index while one remains, NUL at the end of the text |
| StepValues.Parser.SkipWhitespace | src/main/java/org/example/filesystem/step/StepDataAnalyzer.java:763-767 | moves the index to `SkipWs` of where it was |
| StepValues.Parser.ParseArgs | src/main/java/org/example/filesystem/step/StepDataAnalyzer.java:570-588 | from index 0 returns exactly `ArgsOf` of the text |
| StepValues.Parser.ParseItems | src/main/java/org/example/filesystem/step/StepDataAnalyzer.java:616-630 | the comma-separated item loop returns `ItemsAt`'s items and leaves the index at its stop |
| StepValues.Parser.ItemTail | src/main/java/org/example/filesystem/step/StepDataAnalyzer.java:619-629 | after an item, a comma continues the list and anything else ends it, consuming a `)` when closing |
| StepValues.Parser.ParseGroup | src/main/java/org/example/filesystem/step/StepDataAnalyzer.java:608-632 | a parenthesised list: `()` is empty, otherwise the items, stopping at the end of text when unclosed |
| StepValues.Parser.ParseValue | src/main/java/org/example/filesystem/step/StepDataAnalyzer.java:590-594 | returns `ValueAt`'s value and index: `$` (null) at the end of text, else the token |
| StepValues.Parser.ParseToken | src/main/java/org/example/filesystem/step/StepDataAnalyzer.java:595-670 | the dispatch on the first unit returns exactly `TokenAt`; `#` without digits is null |
| StepValues.Parser.ParseNamed | src/main/java/org/example/filesystem/step/StepDataAnalyzer.java:636-665 | an identifier is an enum unless `(` follows, then a typed value with its items |
| StepValues.Parser.ParseNumber | src/main/java/org/example/filesystem/step/StepDataAnalyzer.java:673-691 | consumes the number units and keeps the raw text with the library's reading of it after exponent rewriting |
| StepValues.Parser.ParseEnum | src/main/java/org/example/filesystem/step/StepDataAnalyzer.java:693-706 | consumes through the closing `.`, or to the end when there is none |
| StepValues.Parser.ParseIdent | src/main/java/org/example/filesystem/step/StepDataAnalyzer.java:708-720 | consumes the identifier units after its first unit |
| StepValues.Parser.ParseString | src/main/java/org/example/filesystem/step/StepDataAnalyzer.java:722-745 | the literal's body with `''` as one quote and escapes decoded, index just past the closing quote |
| StepValues.Parser.ParseInt | src/main/java/org/example/filesystem/step/StepDataAnalyzer.java:747-761 | no digits gives nothing and consumes nothing; otherwise the `int` value of the digit run |
| StepValues.ItemsComma | src/main/java/org/example/filesystem/step/StepDataAnalyzer.java:620-624 | a comma after an item puts that item ahead of the items that follow |
| StepValues.ItemsStop | src/main/java/org/example/filesystem/step/StepDataAnalyzer.java:625-629 | without a comma the list ends after that item |
| StepValues.AsString | src/main/java/org/example/filesystem/step/StepDataAnalyzer.java:782-794 | present exactly for an in-range string or enum argument, and then its text |
| StepValues.AsRef | src/main/java/org/example/filesystem/step/StepDataAnalyzer.java:796-805 | present exactly for an in-range reference argument, and then its id |
| StepValues.BlankToNull | src/main/java/org/example/filesystem/step/StepDataAnalyzer.java:807-809 | present exactly for present non-blank text, unchanged |
| StepWriter.ValueRoundTrip | src/main/java/org/example/filesystem/step/StepDataAnalyzer.java:590-671 | a written `$`, a reference with an `int` id, or a string without backslashes parses back to itself, ending where it was written |
| StepWriter.RefRoundTrip | src/main/java/org/example/filesystem/step/StepDataAnalyzer.java:600-604 | `#` and the decimal of an `int` id parses back to that reference |
| StepWriter.StringRoundTrip | src/main/java/org/example/filesystem/step/StepDataAnalyzer.java:722-745 | a quote-doubled literal parses back to its text |
| StepWriter.DecimalValue | src/main/java/org/example/filesystem/step/StepDataAnalyzer.java:747-761 | the decimal of an `int` reads back as the number |
| StepWriter.ItemsRoundTrip | src/main/java/org/example/filesystem/step/StepDataAnalyzer.java:570-588 | comma-separated written values parse back to the same list, to the end of the text |
| StepWriter.ArgsRoundTrip | src/main/java/org/example/filesystem/step/StepDataAnalyzer.java:543-559 | parsing a written argument list of such values gives back the list |
| StepBox.BoxOf | src/main/java/org/example/filesystem/step/StepDataAnalyzer.java:1358-1363 | no box without points; otherwise the point count equals the number of points |
| StepBox.BoxContains | src/main/java/org/example/filesystem/step/StepDataAnalyzer.java:1341-1363 | every accepted point lies in the box, and min ≤ max on every axis |
| StepBox.BoxAttained | src/main/java/org/example/filesystem/step/StepDataAnalyzer.java:1341-1363 | every bound of the box is a coordinate of some point |
| StepBox.BoxAccumulator.constructor | src/main/java/org/example/filesystem/step/StepDataAnalyzer.java:1331-1339 | an accumulator starts with no points |
| StepBox.BoxAccumulator.Add | src/main/java/org/example/filesystem/step/StepDataAnalyzer.java:1341-1356 | the running min, max and count now cover one more point |
| StepBox.BoxAccumulator.ToBoundingBox | src/main/java/org/example/filesystem/step/StepDataAnalyzer.java:1358-1363 | the box of all points added, absent when none were |
| StepBox.PointOf | src/main/java/org/example/filesystem/step/StepDataAnalyzer.java:1006-1027 | a point exactly when argument 1 is a list whose first min(3, n) items are parsed numbers; missing coordinates are 0 |
| StepBox.TryAddCartesianPoint | src/main/java/org/example/filesystem/step/StepDataAnalyzer.java:1006-1027 | adds to the box exactly the point of the arguments, when there is one |
| StepBox.ShortPointPadded | src/main/java/org/example/filesystem/step/StepDataAnalyzer.java:1016-1026 | a two-coordinate point is padded with z = 0, not skipped |
| StepBox.UnparsedCoordinateRejects | src/main/java/org/example/filesystem/step/StepDataAnalyzer.java:1016-1021 | a coordinate that does not parse rejects the point |
| StepScan.NextEntity | src/main/java/org/example/filesystem/step/StepDataAnalyzer.java:163-182 | one pass of the cursor loop stops at the end, at `ENDSEC` or when no `#` follows; otherwise it moves the cursor strictly forward and yields the next entity of the stream |
| StepScan.KindOfSwitch | src/main/java/org/example/filesystem/step/StepDataAnalyzer.java:202-238 | each branch of the `switch` is taken by exactly its case labels' type names |
| StepScan.CollectCounts | src/main/java/org/example/filesystem/step/StepDataAnalyzer.java:194 | the type counts are exactly how many kept entities have each type |
| StepScan.CollectRelations | src/main/java/org/example/filesystem/step/StepDataAnalyzer.java:222-229 | every relation that parses is collected, in order |
| StepScan.CollectMeasures | src/main/java/org/example/filesystem/step/StepDataAnalyzer.java:230-235 | the first `maxMeasures` measure items that parse are collected, in order |
| StepScan.CollectSnippets | src/main/java/org/example/filesystem/step/StepDataAnalyzer.java:241-243 | the first `maxPmiSnippets` PMI entities give the snippets, in order |
| StepScan.CollectProducts | src/main/java/org/example/filesystem/step/StepDataAnalyzer.java:203-208 | the product map holds exactly the declared ids, each with its last declaration |
| StepScan.CollectFormations | src/main/java/org/example/filesystem/step/StepDataAnalyzer.java:209-215 | the formation map holds exactly the declared ids of either formation type, each with its last declaration |
| StepScan.CollectDefinitions | src/main/java/org/example/filesystem/step/StepDataAnalyzer.java:216-221 | the definition map holds exactly the declared ids, each with its last declaration |
| StepScan.CollectEntity | src/main/java/org/example/filesystem/step/StepDataAnalyzer.java:194-243 | the loop body extends the collected data and the box by exactly one entity |
| StepScan.RecordEntity | src/main/java/org/example/filesystem/step/StepDataAnalyzer.java:202-238 | the `switch` files the entity in the map or list of its branch and nowhere else |
| StepScan.KeepSnippet | src/main/java/org/example/filesystem/step/StepDataAnalyzer.java:241-243 | a PMI snippet is kept only while the list is below its cap |
| StepScan.AddEntityPoint | src/main/java/org/example/filesystem/step/StepDataAnalyzer.java:197-199 | a `CARTESIAN_POINT` adds its point to the box, if it has one |
| StepScan.Kept | src/main/java/org/example/filesystem/step/StepDataAnalyzer.java:184-191 | the kept entities are the first `max(0, maxEntities)` of the stream |
| StepScan.ScanData | src/main/java/org/example/filesystem/step/StepDataAnalyzer.java:159-244 | the scan collects exactly the kept entities; it is truncated exactly when the stream is longer than the cap, and then `parsed` is the cap plus one |
| StepSummaries.StrLessTotal | src/main/java/org/example/filesystem/step/StepDataAnalyzer.java:1033-1036 | the type-name order is total, so the ranking ties are all broken |
| StepSummaries.StrLessTransitive | src/main/java/org/example/filesystem/step/StepDataAnalyzer.java:1033-1036 | the type-name order is transitive |
| StepSummaries.TopOf | src/main/java/org/example/filesystem/step/StepDataAnalyzer.java:1029-1039 | the first `n` entries by rank hold their own counts, at most one per type |
| StepSummaries.TopOfSorted | src/main/java/org/example/filesystem/step/StepDataAnalyzer.java:1033-1036 | the selection is ordered by count descending, then type name ascending |
| StepSummaries.TopOfAhead | src/main/java/org/example/filesystem/step/StepDataAnalyzer.java:1029-1039 | every type left out ranks below every type selected |
| StepSummaries.TopCounts | src/main/java/org/example/filesystem/step/StepDataAnalyzer.java:1029-1039 | empty when `max ≤ 0`; otherwise `min(types, max)` entries, each with its count |
| StepSummaries.TopCountsRanked | src/main/java/org/example/filesystem/step/StepDataAnalyzer.java:1029-1039 | the top counts are sorted, have no duplicate type, and no type left out outranks one kept |
| StepSummaries.GeometrySummaryOf | src/main/java/org/example/filesystem/step/StepDataAnalyzer.java:1244-1268 | absent without entities; otherwise the box, the precise and tessellated flags from marker types, and the top geometry counts |
| StepSummaries.TopologySummaryOf | src/main/java/org/example/filesystem/step/StepDataAnalyzer.java:1270-1282 | absent without entities; otherwise the top topology counts |
| StepSummaries.PmiSummaryOf | src/main/java/org/example/filesystem/step/StepDataAnalyzer.java:1284-1302 | absent exactly when there are no counts, measures or snippets; otherwise the top PMI counts, measures and snippets |
| StepSummaries.SummaryListsOnlyItsTypes | src/main/java/org/example/filesystem/step/StepDataAnalyzer.java:1244-1302 | a summary lists only types its predicate selects, with their counts |
| StepParts.ProductIdOf | src/main/java/org/example/filesystem/step/StepDataAnalyzer.java:1062-1070 | the product id is known exactly when the definition's formation exists and refers to a product |
| StepParts.PartOf | src/main/java/org/example/filesystem/step/StepDataAnalyzer.java:1057-1099 | a part carries its definition's fields; product fields are filled only when the product exists |
| StepParts.DanglingProductKeepsId | src/main/java/org/example/filesystem/step/StepDataAnalyzer.java:1062-1080 | a product reference to a missing product keeps its id and leaves the product fields empty |
| StepParts.MissingFormationKeepsPart | src/main/java/org/example/filesystem/step/StepDataAnalyzer.java:1057-1070 | a missing formation leaves the fields empty rather than skipping the part |
| StepParts.BuildParts | src/main/java/org/example/filesystem/step/StepDataAnalyzer.java:1041-1100 | one part per definition, at most `maxParts`, no definition twice, and the warning exactly when definitions were left out |
| StepAssembly.EffectiveRelations | src/main/java/org/example/filesystem/step/StepDataAnalyzer.java:1113-1116 | the usage relations when any exist, otherwise all relations |
| StepAssembly.EdgesOfAppend | src/main/java/org/example/filesystem/step/StepDataAnalyzer.java:1127-1137 | a relation appends its edge to its parent's list, in relation order |
| StepAssembly.BuildAdjacency | src/main/java/org/example/filesystem/step/StepDataAnalyzer.java:1127-1137 | the loop builds exactly the adjacency and child set of the relations |
| StepAssembly.RootSet | src/main/java/org/example/filesystem/step/StepDataAnalyzer.java:1141-1149 | roots are parents; every parent that is never a child is a root; non-empty whenever there are relations |
| StepAssembly.RootsAreNotChildren | src/main/java/org/example/filesystem/step/StepDataAnalyzer.java:1141-1149 | when some parent is never a child, no root is a child |
| StepAssembly.InferRoots | src/main/java/org/example/filesystem/step/StepDataAnalyzer.java:1141-1149 | the root loop returns exactly `RootSet` |
| StepAssembly.PartIndexFinds | src/main/java/org/example/filesystem/step/StepDataAnalyzer.java:1118-1125 | every part is found under its definition id |
| StepAssembly.BuildPartIndex | src/main/java/org/example/filesystem/step/StepDataAnalyzer.java:1118-1125 | the loop builds exactly `PartIndex` |
| StepAssembly.NodeBudget.constructor | src/main/java/org/example/filesystem/step/StepDataAnalyzer.java:1321-1323 | the budget is at least 1, nothing used, not truncated |
| StepAssembly.NodeBudget.TryConsume | src/main/java/org/example/filesystem/step/StepDataAnalyzer.java:1325-1328 | counts one use, and succeeds exactly while the count stays within the budget |
| StepAssembly.BuildNode | src/main/java/org/example/filesystem/step/StepDataAnalyzer.java:1180-1242 | nothing once truncated; past the depth limit a truncated leaf; a revisited id a leaf plus a cycle warning; every node follows the adjacency; while the budget lasts the node is expanded along every edge out of it (cycle leaves excepted); the nodes other than cycle leaves number the budget uses, plus one for the refused leaf when truncated |
| StepAssembly.BuildChildren | src/main/java/org/example/filesystem/step/StepDataAnalyzer.java:1220-1240 | children follow their edges in order, all of them unless the budget ran out; every child but a truncating last one is expanded in full; the nodes other than cycle leaves number the budget uses, plus one when truncated; warnings only grow, by cycle warnings |
| StepAssembly.ExpandRoots | src/main/java/org/example/filesystem/step/StepDataAnalyzer.java:1152-1172 | distinct roots, each following the adjacency, all of them unless truncated; every root but a truncating last one is expanded in full; the nodes other than cycle leaves number the budget uses, plus one when truncated |
| StepAssembly.BuildAssemblyTree | src/main/java/org/example/filesystem/step/StepDataAnalyzer.java:1102-1178 | no tree without relations; otherwise distinct roots from `RootSet` of the effective relations, every root but a truncating last one expanded in full along every edge (cycle leaves excepted), at most `max(1, maxAssemblyNodes)` nodes other than cycle leaves, plus one when truncated, cycle warnings then the truncation warning when cut short |
| StepAnalyze.PartsAndTree | src/main/java/org/example/filesystem/step/StepDataAnalyzer.java:246-252 | the parts list is one part per collected definition up to `maxParts`; the tree is `TreeBuilt` over those parts and the collected relations: absent exactly without relations, else distinct roots from the root set of the effective relations, following their adjacency, all of them unless truncated, expanded in full but for a truncating last one, within the node budget |
| StepAnalyze.Summarize | src/main/java/org/example/filesystem/step/StepDataAnalyzer.java:246-266 | the report carries the top counts, parts, relations, box and summaries of what was collected, with empty lists reported absent, and the tree built (`TreeBuilt`) over the reported parts and the collected relations |
| StepAnalyze.Analyze | src/main/java/org/example/filesystem/step/StepDataAnalyzer.java:124-267 | blank text or no `DATA;` yields only a warning; otherwise the summary of the first `maxEntities` entities after `DATA;`, with `parsed = maxEntities + 1` on overflow; that summary includes the tree built (`TreeBuilt`) over its parts and relations |
| StepAnalyze.AnalyzeFrom | src/main/java/org/example/filesystem/step/StepDataAnalyzer.java:159-266 | the summary (`Summarizes`, tree included) of the entities kept by the scan from the cursor, truncated exactly past `maxEntities` |
| StepList.ResolveOffset | src/main/java/org/example/filesystem/step/StepDataAnalyzer.java:285 | absent or negative offset is 0, otherwise kept |
| StepList.ResolveLimit | src/main/java/org/example/filesystem/step/StepDataAnalyzer.java:286 | the page size is clamped to [1, maximum], with the default when absent |
| StepList.ResolveFilter | src/main/java/org/example/filesystem/step/StepDataAnalyzer.java:287-288 | no filter for absent or blank text, otherwise the trimmed upper-cased text |
| StepList.MatchingMembers | src/main/java/org/example/filesystem/step/StepDataAnalyzer.java:325 | an entity matches exactly when it is scanned and its type contains the filter |
| StepList.PagesCover | src/main/java/org/example/filesystem/step/StepDataAnalyzer.java:325-335 | consecutive pages of size `k` concatenate to one page of `n·k` matches |
| StepList.ListingPageSize | src/main/java/org/example/filesystem/step/StepDataAnalyzer.java:325-335 | a page never exceeds the page size and is full whenever `hasMore` |
| StepList.ScanPage | src/main/java/org/example/filesystem/step/StepDataAnalyzer.java:298-336 | the loop returns the page of matches among the kept entities, `hasMore` exactly when matches reach past it, and the scan count and truncation of the entity cap |
| StepList.PageEntity | src/main/java/org/example/filesystem/step/StepDataAnalyzer.java:325-335 | one entity extends the match count and the page by exactly its own contribution |
| StepList.ListEntities | src/main/java/org/example/filesystem/step/StepDataAnalyzer.java:269-348 | blank text or no `DATA;` yields an empty listing with one warning; otherwise the listing of the resolved page, `nextOffset = offset + limit` exactly when `hasMore` |
| StepList.ListPage | src/main/java/org/example/filesystem/step/StepDataAnalyzer.java:298-347 | the listing of the stream once arguments are resolved, with the truncation warning exactly when truncated |
| FileTools.Clamp | src/main/java/org/example/mcp/FileMcpTools.java:2309-2315 | never above the cap; at least the floor when the configuration allows; an in-range value or default is kept |
| FileTools.ClampIdempotent | src/main/java/org/example/mcp/FileMcpTools.java:2309-2391 | clamping a clamped value changes nothing |
| FileTools.ClampMonotone | src/main/java/org/example/mcp/FileMcpTools.java:2309-2391 | clamping preserves order |
| FileTools.ResolveLimit | src/main/java/org/example/mcp/FileMcpTools.java:2309-2315 | in [1, listMaxLimit]; the default when absent |
| FileTools.ResolveTreeMaxDepth | src/main/java/org/example/mcp/FileMcpTools.java:2317-2322 | in [0, treeMaxDepth]; the default when absent |
| FileTools.ResolveTreeMaxEntries | src/main/java/org/example/mcp/FileMcpTools.java:2324-2329 | in [1, treeMaxEntries]; the default when absent |
| FileTools.ResolveReadMaxBytes | src/main/java/org/example/mcp/FileMcpTools.java:2331-2336 | in [1, readMaxBytes]; the maximum when absent |
| FileTools.ResolveStepModelInfoMaxBytes | src/main/java/org/example/mcp/FileMcpTools.java:2338-2342 | in [1, 128 MiB]; 16 MiB when absent |
| FileTools.ResolveStepDataMaxEntities | src/main/java/org/example/mcp/FileMcpTools.java:2344-2348 | in [1, 5 000 000]; 500 000 when absent |
| FileTools.ResolveReadRangeMaxBytes | src/main/java/org/example/mcp/FileMcpTools.java:2350-2356 | an `int` in [1, readRangeMaxBytes]; an in-range request is kept |
| FileTools.ResolveReadLinesMaxLines | src/main/java/org/example/mcp/FileMcpTools.java:2358-2363 | in [1, readLinesMaxLines]; the default when absent |
| FileTools.ResolveSearchMaxMatches | src/main/java/org/example/mcp/FileMcpTools.java:2365-2370 | in [1, searchMaxMatches]; the default when absent |
| FileTools.ResolveSearchMaxFiles | src/main/java/org/example/mcp/FileMcpTools.java:2372-2377 | in [1, searchMaxFiles]; the default when absent |
| FileTools.ResolveSearchMaxDepth | src/main/java/org/example/mcp/FileMcpTools.java:2379-2384 | in [0, searchMaxDepth]; the default when absent |
| FileTools.ResolveSearchMaxLineLength | src/main/java/org/example/mcp/FileMcpTools.java:2386-2391 | in [20, searchMaxLineLength]; the maximum when absent |
| FileTools.ResolveContextLines | src/main/java/org/example/mcp/FileMcpTools.java:2955-2959 | in [0, 200]; 0 when absent |
| FileTools.TruncateLineHead | src/main/java/org/example/mcp/FileMcpTools.java:2859-2872 | a line that fits is kept; otherwise its first `max - 1` units plus `…` (just `…` when `max ≤ 1`), with the original length |
| FileTools.Window | src/main/java/org/example/mcp/FileMcpTools.java:2825-2840 | the excerpt window lies inside the line and has width `min(n, max(1, max - 2))` |
| FileTools.BuildExcerpt | src/main/java/org/example/mcp/FileMcpTools.java:2817-2857 | a line that fits is returned unchanged; otherwise the excerpt is no longer than the maximum, truncated, with the original length |
| FileTools.ExcerptShowsMatch | src/main/java/org/example/mcp/FileMcpTools.java:2817-2857 | a match short enough for the window appears whole in the excerpt |
| FileTools.WindowCoversMatch | src/main/java/org/example/mcp/FileMcpTools.java:2825-2840 | such a match lies inside the window |
| FileTools.LastN | src/main/java/org/example/mcp/FileMcpTools.java:2877-2885 | the last `max(0, n)` items, in order |
| FileTools.LastNPush | src/main/java/org/example/mcp/FileMcpTools.java:2877-2885 | trimming after each push keeps the same items as trimming once at the end |
| FileTools.PushBeforeBuffer | src/main/java/org/example/mcp/FileMcpTools.java:2877-2885 | the buffer keeps the last `maxSize` lines in order, and nothing changes when `maxSize ≤ 0` |
| FileTools.EmitFilteredLine | src/main/java/org/example/mcp/FileMcpTools.java:2909-2953 | the line number index stays exact; a known line is updated in place (a context line upgraded to a match) and every other entry is untouched |
| FileTools.IndexedDistinct | src/main/java/org/example/mcp/FileMcpTools.java:2909-2953 | no two emitted lines share a line number |
| FileTools.EmitContextLine | src/main/java/org/example/mcp/FileMcpTools.java:2904-2905 | a line number already present leaves the output as it was; a new one appends exactly one context line (not matched, no column, text cut at the head) and indexes it |
| FileTools.EmitTailContext | src/main/java/org/example/mcp/FileMcpTools.java:2887-2907 | nothing for a non-positive count; otherwise the output grows by exactly `ContextLines` of the last `contextToEmit` buffered lines, and each of their line numbers is indexed |
| FileTools.EmitContextLines | src/main/java/org/example/mcp/FileMcpTools.java:2900-2906 | the loop appends, in order, one context line per buffered line number not yet present, never changes an earlier entry, and indexes every item |
| FileTools.ContextLinesFresh | src/main/java/org/example/mcp/FileMcpTools.java:2904-2905 | the emitted context lines are no more than the buffered ones and carry only line numbers that were not yet present |
| FileTools.ContextLinesCover | src/main/java/org/example/mcp/FileMcpTools.java:2900-2906 | every buffered line number not yet present gets a context line |
| FileTools.ContextLinesDistinct | src/main/java/org/example/mcp/FileMcpTools.java:2917-2918 | the emitted context lines never repeat a line number |
| FileTools.AddWarningLimited | src/main/java/org/example/mcp/FileMcpTools.java:3009-3022 | below 50 the warning is added; at 50 the overflow marker once; beyond, nothing |
| FileTools.WarnedShape | src/main/java/org/example/mcp/FileMcpTools.java:3009-3022 | any sequence of warnings leaves the first 50, plus the marker once if more came: never more than 51 |
| FileTools.ResolvedEol | src/main/java/org/example/mcp/FileMcpTools.java:3123-3140 | the separator is the given end of line, or `\n` when it is empty |
| FileTools.JoinLines | src/main/java/org/example/mcp/FileMcpTools.java:3123-3140 | the separator between lines, a trailing one exactly when `endsWithNewline`; an empty list gives that separator or nothing |
| FileTools.SplitJoined | src/main/java/org/example/mcp/FileMcpTools.java:3123-3140 | splitting joined lines at the separator gives them back |
| FileTools.NormalizeDisplayPath | src/main/java/org/example/mcp/FileMcpTools.java:3278-3283 | every backslash becomes `/` and nothing else changes |
| FileTools.NormalizeBasePath | src/main/java/org/example/mcp/FileMcpTools.java:3285-3291 | the normalised path when non-blank, else `.` |
| FileTools.UnderBaseCases | src/main/java/org/example/mcp/FileMcpTools.java:2995-3007 | true for a blank or missing base, for the base itself, and for the base followed by a separator |
| FileTools.UnderBaseTransitive | src/main/java/org/example/mcp/FileMcpTools.java:2995-3007 | containment under a base is transitive |
| FileTools.UnderBaseIgnoresSeparators | src/main/java/org/example/mcp/FileMcpTools.java:2995-3007 | normalising separators first does not change the answer |
| FileTools.IndexOfIgnoreCase | src/main/java/org/example/mcp/FileMcpTools.java:2971-2986 | 0 for an empty token, -1 for one longer than the text, otherwise the first ignore-case match |
| FileTools.InsertLines | src/main/java/org/example/mcp/FileMcpTools.java:1804-1826 | `atLine` must be positive; the inserted lines appear, in order, before line `atLine` (1 to n + 1) or after it (1 to n); other lines keep their order; other positions are refused |
| FileTools.DeleteLines | src/main/java/org/example/mcp/FileMcpTools.java:1827-1849 | applied exactly when 1 ≤ from ≤ to ≤ n; then exactly those lines go and the rest keep their order |
| FileTools.DeleteUndoesInsert | src/main/java/org/example/mcp/FileMcpTools.java:1804-1849 | deleting the lines just inserted gives back the original lines |
| FileIndexing.Without | src/main/java/org/example/filesystem/FileIndexCache.java:358 | removing a key from the access queue drops that key, keeps every other one and shortens a duplicate-free queue by one |
| FileIndexing.EvictLoop | src/main/java/org/example/filesystem/FileIndexCache.java:392-399 | the eviction loop drops keys from the front of the queue until at most the cap remain |
| FileIndexing.EvictKeepsNewest | src/main/java/org/example/filesystem/FileIndexCache.java:330-336 | eviction keeps the newest `min(n, max)` keys, and each kept key keeps its value |
| FileIndexing.NameBucket.Touch | src/main/java/org/example/filesystem/FileIndexCache.java:314-316 | the bucket now expires `ttl` after `now` and keeps its paths |
| FileIndexing.NameBucket.Put | src/main/java/org/example/filesystem/FileIndexCache.java:322-337 | the bucket files the path under `rootId|path` and evicts from the front while over the cap |
| FileIndexing.NameBucket.Snapshot | src/main/java/org/example/filesystem/FileIndexCache.java:339-344 | every held path, once each |
| FileIndexing.PutWithinBound | src/main/java/org/example/filesystem/FileIndexCache.java:322-337 | a re-recorded key is replaced in place; a new key is queued last; only a full bucket drops its oldest key |
| FileIndexing.PutKeepsPath | src/main/java/org/example/filesystem/FileIndexCache.java:322-344 | after `put` the bucket is within its cap and its snapshot contains the path |
| FileIndexing.SafeToMillis | src/main/java/org/example/filesystem/FileIndexCache.java:252-260 | at least 1; a positive duration is kept, the fallback used when absent |
| FileIndexing.NewDirKey | src/main/java/org/example/filesystem/FileIndexCache.java:297-303 | null root id becomes `root0`, null path `.`, a blank glob null, offset at least 0, limit at least 1 |
| FileIndexing.NewDirKeyIdempotent | src/main/java/org/example/filesystem/FileIndexCache.java:297-303 | normalising a normalised key changes nothing |
| FileIndexing.OutsideDirectory | src/main/java/org/example/filesystem/FileIndexCache.java:408-416 | the queue keeps exactly the keys outside the directory |
| FileIndexing.TtlLruCache.constructor | src/main/java/org/example/filesystem/FileIndexCache.java:360-363 | at least one entry, and a time to live of at least 1 ms (10 minutes by default) |
| FileIndexing.TtlLruCache.Get | src/main/java/org/example/filesystem/FileIndexCache.java:365-381 | a miss changes nothing; an entry expired at `now` is removed and nothing returned; a hit returns the value and becomes most recently used |
| FileIndexing.TtlLruCache.Put | src/main/java/org/example/filesystem/FileIndexCache.java:383-401 | the entry is stored as most recently used and the least recently used are evicted down to `maxEntries`, never the new entry |
| FileIndexing.TtlLruCache.InvalidateByDirectory | src/main/java/org/example/filesystem/FileIndexCache.java:403-418 | removes exactly the keys whose root id and directory both match; nothing for a missing argument |
| FileIndexing.DropDirectory | src/main/java/org/example/filesystem/FileIndexCache.java:403-418 | the kept entries are exactly those outside the directory, unchanged |
| FileIndexing.KeptTracked | src/main/java/org/example/filesystem/FileIndexCache.java:403-418 | invalidation keeps the queue in step with the map and never grows it |
| FileIndexing.Indexed | src/main/java/org/example/filesystem/FileIndexCache.java:86-97 | only the recorded name's bucket changes, and it expires `ttl` after `now` |
| FileIndexing.IndexedKeepsPath | src/main/java/org/example/filesystem/FileIndexCache.java:86-97 | after recording, the bucket is valid, live and holds the path |
| FileIndexing.RecordedIsFound | src/main/java/org/example/filesystem/FileIndexCache.java:79-165 | a path just recorded is found by a lookup of its name whose filters accept it |
| FileIndexing.LiveBuckets | src/main/java/org/example/filesystem/FileIndexCache.java:235-245 | the buckets not expired at `now`, unchanged |
| FileIndexing.CleanedUpBounds | src/main/java/org/example/filesystem/FileIndexCache.java:207-233 | after cleanup at most `maxNames` live, unchanged buckets remain, and only expired ones go when live ones fit |
| FileIndexing.Filtered | src/main/java/org/example/filesystem/FileIndexCache.java:136-164 | exactly the paths the case and kind filters accept |
| FileIndexing.FilterPaths | src/main/java/org/example/filesystem/FileIndexCache.java:151-163 | the filter loop returns exactly `Filtered` |
| FileIndexing.FilterNothing | src/main/java/org/example/filesystem/FileIndexCache.java:137-140 | without filters the snapshot is returned whole |
| FileIndexing.FileIndexCache.constructor | src/main/java/org/example/filesystem/FileIndexCache.java:52-61 | the time to live is at least 1 ms (30 minutes by default) and every maximum at least 1 |
| FileIndexing.FileIndexCache.RecordName | src/main/java/org/example/filesystem/FileIndexCache.java:79-104 | a no-op when disabled or for a blank name or path; otherwise the path is filed under the trimmed lower-cased name, and every 2000th record runs cleanup |
| FileIndexing.FileIndexCache.LookupByName | src/main/java/org/example/filesystem/FileIndexCache.java:114-165 | nothing for a missing key; an expired bucket is removed and nothing returned; otherwise the bucket is touched and its filtered snapshot returned |
| FileIndexing.FileIndexCache.CleanupExpiredNameBuckets | src/main/java/org/example/filesystem/FileIndexCache.java:235-245 | the loop removes exactly the expired buckets and keeps the key count exact |
| FileIndexing.FileIndexCache.CleanupNameIndexIfNeeded | src/main/java/org/example/filesystem/FileIndexCache.java:207-233 | nothing when disabled; otherwise expired buckets go, then arbitrary buckets until `maxNames` remain |
| FileIndexing.FileIndexCache.DropNames | src/main/java/org/example/filesystem/FileIndexCache.java:225-232 | removes buckets until exactly `maxNames` remain |
| FileIndexing.FileIndexCache.GetDirectoryListCache | src/main/java/org/example/filesystem/FileIndexCache.java:170-175 | a value exactly when enabled and the entry has not expired; when disabled nothing changes; when enabled the cache changes as `get` does: an unknown key leaves it as it was, an expired entry is removed from the values and the order, a live one becomes the most recently accessed |
| FileIndexing.FileIndexCache.PutDirectoryListCache | src/main/java/org/example/filesystem/FileIndexCache.java:180-195 | nothing when disabled; otherwise the cache state is exactly what `put` leaves (the entry stored as most recent, then least recent entries evicted to the cap), the counter grows by the nameable entries, and when no cleanup falls among those records the name index is `RecordedAll` of the entries |
| FileIndexing.FileIndexCache.RecordEntries | src/main/java/org/example/filesystem/FileIndexCache.java:187-194 | records every entry with a name and a path, in order, counting each; when the counter crosses no multiple of 2000 the name index is exactly `RecordedAll`, each nameable entry filed under its key in turn |
| FileIndexing.RecordedAllKeys | src/main/java/org/example/filesystem/FileIndexCache.java:187-194 | recording a listing adds to the index exactly the keys of its entries that have a name and a path not blank, and removes none |
| FileIndexing.FileIndexCache.RecordEntry | src/main/java/org/example/filesystem/FileIndexCache.java:188-193 | an entry that is not recorded changes neither the index nor the counter; a recorded one adds one to the counter and, unless that record runs the cleanup, files its path under its key |
| FileIndexing.FileIndexCache.InvalidateDirectoryLists | src/main/java/org/example/filesystem/FileIndexCache.java:200-205 | nothing when disabled; otherwise the directory's listings are invalidated |
| PendingWrites.Live | src/main/java/org/example/filesystem/PendingFileWriteStore.java:95-103 | the entries not expired at `now`, unchanged |
| PendingWrites.LiveIdempotent | src/main/java/org/example/filesystem/PendingFileWriteStore.java:95-103 | a second cleanup at the same instant removes nothing |
| PendingWrites.LiveShrinks | src/main/java/org/example/filesystem/PendingFileWriteStore.java:119-121 | an entry live at a later instant was live at every earlier one |
| PendingWrites.PendingWriteStore.constructor | src/main/java/org/example/filesystem/PendingFileWriteStore.java:32-35 | an empty store with the given time to live and byte cap |
| PendingWrites.PendingWriteStore.CleanupExpired | src/main/java/org/example/filesystem/PendingFileWriteStore.java:95-103 | the loop removes exactly the entries with `now > expiresAt` |
| PendingWrites.PendingWriteStore.Create | src/main/java/org/example/filesystem/PendingFileWriteStore.java:37-70 | expired entries are dropped first; content over the byte cap is refused; otherwise the entry is stored under its token, expiring `ttl` after `now`, and with a non-negative `ttl` it is live at `now` |
| PendingWrites.PendingWriteStore.Get | src/main/java/org/example/filesystem/PendingFileWriteStore.java:72-85 | nothing for a missing, blank or unknown token; an expired entry is removed and nothing returned; otherwise the entry, which stays |
| PendingWrites.PendingWriteStore.Remove | src/main/java/org/example/filesystem/PendingFileWriteStore.java:87-93 | the token is always gone; the entry is returned exactly when it was present and not expired |
| PendingWrites.CreatedIsLive | src/main/java/org/example/filesystem/PendingFileWriteStore.java:52-69 | a new entry is live when created and expires exactly after `now + ttl` |

## Left out

- Unicode behaviour: the `JavaLib` functions (white space, digits, letters, case mapping, `regionMatches`, `Double.parseDouble`) are parameters with no properties, except where a lemma assumes the ASCII behaviour (`AsciiSane`). Floating-point values are the library's results, taken as given.
- `HashMap` iteration order: the order of parts, roots, name-index cleanup and cleanup removals is a nondeterministic choice, and nothing proved depends on it.
- `FileIndexing.NameBucket.Snapshot`: the source copies `paths.values()` in hash order; the model returns the paths in queue order, and only membership is meant.
- `NameBucket` is a value that the index replaces, not an object: buckets never leave the index, so there is no aliasing to model.
- `FileIndexing.FileIndexCache.PutDirectoryListCache` and `FileIndexing.FileIndexCache.RecordEntries`: when a cleanup falls among the records of one listing, the resulting name index is not stated; only that the index stays within its bounds and the counter. Each single record's effect, cleanup included, is stated on `FileIndexing.FileIndexCache.RecordName`.
- Clocks: each operation takes one `now`, where the Java code may read the clock twice (cleanup, then the lookup or the new entry).
- I/O, concurrency (`ConcurrentHashMap`, atomics, `synchronized`), UUID generation and SHA-256 hashing: a single thread is modelled; the token and hashes are parameters.
- Warning texts: warnings are tokens carrying their numbers, not the Chinese messages.
- Null inputs of the Java code: strings, lists and keys are never null; optional values are `Option`.
- `StepParts.BuildParts`, `StepAnalyze.PartsAndTree`, `StepAnalyze.Summarize`, `StepAnalyze.Analyze` and `StepAnalyze.AnalyzeFrom`: `maxParts` is required to be non-negative, as the resolved limits always are.
- 32-bit integers: entity ids wrap as Java `int` (`WrapInt`); other counters are unbounded, which matches the source below 2^31 entities.
- `FileIndexing.SafeToMillis`: a `Duration` that overflows `toMillis` is not modelled; the fallback path is taken only for an absent duration.
- `splitToLines`, regular expressions, JSON argument parsing and the tool methods of `FileMcpTools` depend on `java.util.regex`, Jackson and the file system and are not part of this model.
- `FileTools.BuildExcerpt`: the window arithmetic is unbounded; the source's `int` subtraction cannot overflow for real line lengths.
- `FileTools.BuildExcerpt` requires `maxLineLength >= 0`; the source throws on a negative maximum when the line is longer.
- `StepModelInfoParser.parse`, `extractHeaderSection`, `extractProductNames` and `extractStatementArgs` are not part of this model.
- `SecurePathResolver`, `HashingUtils` and the configuration classes are not part of this model.
- The case-sensitive `indexOf` wrapper and `equalsName` of `FileMcpTools` are not modelled separately; `FileIndexing.Filtered` uses exact name equality for the case-sensitive filter.
- `FileTools.AddWarningLimited` returns the new list instead of appending in place.
- `StepValues.Parser.ParseToken`: `parseValue` is split into the white-space step (`ParseValue`) and the dispatch (`ParseToken`); the split changes no behaviour.
- `StepWriter.ArgsRoundTrip`: the round trip covers `$`, references and strings without backslashes; numbers depend on `Double.parseDouble`, and enums, lists and typed values are not written by the model's writer.
