# Mapping-rule compiler and fixed-width record codec — a Dafny model

This project models the core of a health-assessment export tool. The tool
turns loosely structured records into lines of an exact fixed width, as
described by a layout spec. It has four pure stages:

- **Rule parser** (`ParseRules`). It reads the three textual mini-languages
  of a mapping rule: a source expression (`COL:<TABLE>.<column>` or
  `RESP:<Q>:<FIELD>`), a transform pipeline (`trim|lower|date:yyyymmdd`)
  and a pad rule (`pad:right:space`, `pad:left:0`). An unknown source or
  transform is an error, returned as a `Result`. An unknown pad rule
  quietly means "none".
- **Writer-plan compiler** (`WriterPlan`). Each export field, with its rule
  if it has one, becomes a plan entry. `Resolve` plays the entry's
  `getValue` closure and turns a record context into a string of exactly
  the field's declared length. The steps are: raw value with its default,
  date rendering, transforms left to right, then padding or truncation.
- **Fixed-width line builder** (`FixedWidth`). It starts from a row of
  spaces and copies every resolved value to its 1-indexed offset. Writes
  outside the row are clipped, and overlapping fields resolve
  last-writer-wins in plan order.
- **Validation engine** (`Validate`). It checks each field's value:
  `LEN_MISMATCH` (which stops further checks on that field), then
  `BAD_DODID10` and `BAD_DATE` for the two checked domain types.

Three smaller pure pieces are modelled as well:

- the test-data generator's xorshift32 generator (`Rng`), as state-passing
  functions over `bv32`;
- the layout-spec importer's enumeration parser and domain guesser
  (`SpecImport`);
- the schema loader's `GO`-batch splitter (`SchemaApply`).

`Text` holds the JavaScript string primitives the code relies on: `trim`,
`split`, `join`, `indexOf`, case mapping and `\d`. `Common` holds
`Option`, `Result` and an order-keeping filter-map.

Record rows are `map<string, Value>`, where `Value` is `VNull`, `VStr`,
`VDate` or `VOther`. A JavaScript `Date` is represented by its
`toISOString()` text.

Where the program's declarations or tests say one thing and its code does
another, the model follows what the code does:

- The `SourceExpr` type names only `ASSESSMENT`, `DEPLOYER` and
  `PROVIDER_REVIEW` as tables, but the `COL:` parser casts the table name
  `as any` and never checks it
  (features/mapping/mapping_compile_part_01_parse_rules.ts:2 and 29).
- Any table other than `ASSESSMENT` or `DEPLOYER` reads the provider-review
  row.
- Export fields declare an `end_pos`, but a plan entry's length is the
  field's `field_length` and `buildWriterPlan` never reads `end_pos`.
- The unit test at tests/unit/validate_record.spec.ts:42-59 expects
  `"2026-02-14"` in an 8-character `DATE_YYYYMMDD` field to draw
  `BAD_DATE`. The engine checks length first, so that value draws
  `LEN_MISMATCH` instead. `Validate.DateExample` proves the code's outcome;
  `Validate.DateDomainExample` shows `BAD_DATE` for a wrong date of the
  right length.

## Model

| member | source | states |
|---|---|---|
| `ParseRules.ParseColSource` | features/mapping/mapping_compile_part_01_parse_rules.ts:24-31 | a `COL:` text parses exactly when a `.` follows the prefix; the table is the text before the first `.` (unchecked) and the column is everything after it; otherwise the error names the text |
| `ParseRules.ParseRespSource` | features/mapping/mapping_compile_part_01_parse_rules.ts:33-38 | a `RESP:` text parses exactly when the rest holds exactly one `:`, so it splits into two parts; otherwise it is an error naming the text |
| `ParseRules.ParseSourceExpression` | features/mapping/mapping_compile_part_01_parse_rules.ts:23-41 | accepted texts are exactly the well-formed `COL:` and `RESP:` texts, and each prints back to its input; every other text is one of three errors, chosen by prefix |
| `ParseRules.RenderThenParse` | features/mapping/mapping_compile_part_01_parse_rules.ts:24-39 | round trip: `COL:`+T+`.`+c and `RESP:`+q+`:`+f parse back to their source when T has no `.` and q, f have no `:` |
| `ParseRules.ColSourceExample` | tests/unit/mapping_parse_rules.spec.ts:9-15 | `COL:ASSESSMENT.event_date` gives (ASSESSMENT, event_date) |
| `ParseRules.RespSourceExample` | tests/unit/mapping_parse_rules.spec.ts:17-23 | `RESP:DEM:LNAME` gives (DEM, LNAME) |
| `ParseRules.UnknownSourceExample` | tests/unit/mapping_parse_rules.spec.ts:36-37 | `WAT:???` is an unknown-source error |
| `ParseRules.OpOfToken` | features/mapping/mapping_compile_part_01_parse_rules.ts:50-53 | a token names a transform exactly when it is one of the three op names, and it names that op |
| `ParseRules.ParseOps` | features/mapping/mapping_compile_part_01_parse_rules.ts:48-55 | one op per token, in order, when every token is known; otherwise the error names the first unknown token |
| `ParseRules.ParseTransformPipeline` | features/mapping/mapping_compile_part_01_parse_rules.ts:43-56 | absent or blank text gives `[]`; otherwise one op per non-empty trimmed bar-separated token, in order, or an error naming the first token that is not a transform |
| `ParseRules.PipelineRoundTrip` | features/mapping/mapping_compile_part_01_parse_rules.ts:43-56 | any list of ops, printed joined by bars, parses back to that list |
| `ParseRules.PipelineExample` | tests/unit/mapping_parse_rules.spec.ts:25-28 | the pipeline of `trim`, `lower` and `date:yyyymmdd` joined by bars gives [trim, lower, date_yyyymmdd] |
| `ParseRules.UnknownSecondOp` | features/mapping/mapping_compile_part_01_parse_rules.ts:49-53 | a known op followed by an unknown token makes the whole pipeline an error naming that token |
| `ParseRules.UnknownOpExample` | tests/unit/mapping_parse_rules.spec.ts:38 | `trim` then `wut`, joined by a bar, is an error on `wut` |
| `ParseRules.ParsePadRule` | features/mapping/mapping_compile_part_01_parse_rules.ts:58-64 | total: trimmed `pad:right:space` gives right_space and trimmed `pad:left:0` gives left_zero (both iff); blank or absent gives none |
| `ParseRules.PadRoundTrip` | features/mapping/mapping_compile_part_01_parse_rules.ts:58-64 | every pad rule's text, with any surrounding whitespace, parses back to that rule |
| `WriterPlan.ToIsoDateIfDate` | features/mapping/mapping_compile_part_02_build_writer_plan.ts:28-36 | a date gives exactly the first 10 characters of its ISO text (all of it when shorter); a string matching `^\d{4}-\d{2}-\d{2}T` is cut to its 10-character date; other strings and values keep their text; null gives "" |
| `WriterPlan.DateRendersLikeIsoText` | features/mapping/mapping_compile_part_02_build_writer_plan.ts:28-36 | a date and the string of its ISO text render alike, as the `YYYY-MM-DD` date part |
| `WriterPlan.RawValue` | features/mapping/mapping_compile_part_02_build_writer_plan.ts:126-136 | a column source reads its row's cell, or the default when the cell is missing or null, with dates rendered; a response source reads key `Q:FIELD`, or the default, with no date rendering |
| `WriterPlan.UnknownTableReadsProviderReview` | features/mapping/mapping_compile_part_02_build_writer_plan.ts:130-132 | any table name other than ASSESSMENT or DEPLOYER, misspelt ones included, reads the provider-review row |
| `WriterPlan.NormalizeDate` | features/mapping/mapping_compile_part_02_build_writer_plan.ts:43-50 | `date:yyyymmdd` trims, keeps 8 digits, turns a leading `DDDD-DD-DD` into its 8 digits, and otherwise keeps the trimmed text |
| `WriterPlan.NormalizeDateIdempotent` | features/mapping/mapping_compile_part_02_build_writer_plan.ts:43-50 | normalising a date twice is normalising it once |
| `WriterPlan.ApplyTransform` | features/mapping/mapping_compile_part_02_build_writer_plan.ts:41-50 | `trim` gives the trimmed text; `lower` lower-cases each character in place; `date:yyyymmdd` gives the trimmed text when it is eight digits, the first ten characters without their dashes when it starts with `YYYY-MM-DD`, and the trimmed text otherwise |
| `WriterPlan.ApplyTransformIdempotent` | features/mapping/mapping_compile_part_02_build_writer_plan.ts:41-50 | each transform applied to its own result changes nothing |
| `WriterPlan.ApplyTransforms` | features/mapping/mapping_compile_part_02_build_writer_plan.ts:38-53 | an empty pipeline returns the value unchanged, and a one-step pipeline is that step |
| `WriterPlan.ApplyTransformsAppend` | features/mapping/mapping_compile_part_02_build_writer_plan.ts:38-53 | transforms compose left to right: running a pipeline in two pieces is running it whole |
| `WriterPlan.PadToLength` | features/mapping/mapping_compile_part_02_build_writer_plan.ts:55-65 | exactly `length` characters: a longer value is cut on the right; a shorter one is prefixed with `0`s under left_zero and followed by spaces otherwise |
| `WriterPlan.PadToLengthIdempotent` | features/mapping/mapping_compile_part_02_build_writer_plan.ts:55-65 | padding is idempotent, and a value of exact length is returned unchanged |
| `WriterPlan.Resolve` | features/mapping/mapping_compile_part_02_build_writer_plan.ts:124-141 | every resolved value has exactly the entry's length; a field without a rule resolves to spaces; a field with a rule resolves to its raw value, transformed, then cut or padded by `PadToLength` under the rule's own pad (zeros in front for left_zero, spaces behind otherwise) |
| `WriterPlan.BuildWriterPlan` | features/mapping/mapping_compile_part_02_build_writer_plan.ts:113-146 | one entry per field, in field order, copying name, start position and domain type; length is `field_length`, not derived from `end_pos` |
| `WriterPlan.ResolvedLengthIsFieldLength` | features/mapping/mapping_compile_part_02_build_writer_plan.ts:122-139 | for every compiled field and every record, the resolved value has exactly `field_length` characters |
| `WriterPlan.TimestampColumnToDigits` | features/mapping/mapping_compile_part_02_build_writer_plan.ts:32-50 | an ISO timestamp string in a column, under `date:yyyymmdd`, gives the 8 digits of its date |
| `WriterPlan.LeftZeroColumn` | features/mapping/mapping_compile_part_02_build_writer_plan.ts:59-63 | a short trimmed column value under `trim` and left_zero resolves to leading zeros followed by the value |
| `WriterPlan.LeftZeroExample` | tests/unit/mapping_writer_plan.spec.ts:92-126 | `"7"` left-zero padded to 3 is `"007"` |
| `WriterPlan.TrimLowerResponse` | features/mapping/mapping_compile_part_02_build_writer_plan.ts:134-139 | a response with surrounding whitespace, under trim then lower and right_space, resolves to its lowercased core followed by spaces |
| `WriterPlan.EmailExample` | tests/unit/mapping_writer_plan.spec.ts:56-90 | `"  TeSt@EXAMPLE.com  "` in a 20-character field resolves to `test@example.com` plus 4 spaces |
| `WriterPlan.DateColumn` | features/mapping/mapping_compile_part_02_build_writer_plan.ts:28-29 | a `Date` cell under `date:yyyymmdd` in an 8-character field resolves to the 8 digits of its calendar date |
| `WriterPlan.CertifyDateExample` | tests/unit/mapping_writer_plan.spec.ts:20-54 | a 2026-02-14T12:34:56Z date in `provider_review.certify_date` resolves to `20260214` |
| `FixedWidth.PlaceFields` | features/fixed_width/fixed_width_writer_part_01_place_fields.ts:8-22 | the placement loop produces the last-writer-wins line, and a name map holding each name's last value |
| `FixedWidth.BuildFixedWidthLine` | features/fixed_width/fixed_width_writer_part_01_place_fields.ts:3-23 | the line has exactly `rowLength` characters (0 for a negative length); each position holds what the last entry covering it writes; `fieldValues` maps every name to its last entry's resolved value |
| `FixedWidth.UncoveredStaysSpace` | features/fixed_width/fixed_width_writer_part_01_place_fields.ts:8 | a position covered by no field stays a space |
| `FixedWidth.LastWriterWins` | features/fixed_width/fixed_width_writer_part_01_place_fields.ts:11-20 | the last field covering a position sets it to `v[i]`, or a space past the value's end, with `i` below the declared length |
| `FixedWidth.DisjointPlacementsCommute` | features/fixed_width/fixed_width_writer_part_01_place_fields.ts:11-20 | fields that share no position can be placed in either order |
| `FixedWidth.SingleFieldExample` | tests/unit/fixed_width_line.spec.ts:9-30 | `"ABC"` at start 2, length 3, on width 10 gives `" ABC      "` |
| `FixedWidth.OverlapExample` | tests/unit/fixed_width_line.spec.ts:32-62 | `HELLO`@1 then `ZZ`@4 on width 6 gives `"HELZZ "` |
| `Validate.IsBlank` | features/validate/validate_part_01_rules_engine.ts:12-14 | a value is blank exactly when it is all whitespace |
| `Validate.DomainFindings` | features/validate/validate_part_01_rules_engine.ts:37-60 | DODID10 flags a non-blank value whose trim is not 10 digits, and DATE_YYYYMMDD one whose trim is not 8 digits (both iff), reporting the trimmed value with the fixed expected text and message of each code; other domain types are never checked |
| `Validate.FieldFindings` | features/validate/validate_part_01_rules_engine.ts:24-60 | a missing value is ""; a value of the wrong length gives exactly one LEN_MISMATCH with expected and actual lengths and no domain check; otherwise the domain findings |
| `Validate.ValidateRecord` | features/validate/validate_part_01_rules_engine.ts:16-64 | every finding of every plan entry is reported, and every reported finding is a finding of some plan entry; no more findings than entries, all carrying the record ordinal and the name of a plan entry |
| `Validate.ValidateRecordAppend` | features/validate/validate_part_01_rules_engine.ts:23-63 | findings come out in plan order: validating two pieces of a plan concatenates their findings |
| `Validate.SingleField` | features/validate/validate_part_01_rules_engine.ts:23-60 | a one-entry plan reports exactly that entry's findings; with `ValidateRecordAppend`, a record's findings are its entries' findings in plan order, at most one each |
| `Validate.BlankHasNoDomainFinding` | features/validate/validate_part_01_rules_engine.ts:12-14 | a whitespace-only value never draws a domain finding |
| `Validate.ResolvedValuesHaveNoLenMismatch` | features/validate/validate_part_01_rules_engine.ts:25-35 | when the values are what the plan resolves to, LEN_MISMATCH never fires |
| `Validate.DuplicateNameLenMismatch` | features/validate/validate_part_01_rules_engine.ts:24-25 | when two entries share a name, the earlier entry is checked against the later value and can draw LEN_MISMATCH |
| `Validate.LengthMismatchExample` | tests/unit/validate_record.spec.ts:6-21 | `"AB"` in a 5-character field gives one LEN_MISMATCH with expected 5 and actual 2 |
| `Validate.DodidExample` | tests/unit/validate_record.spec.ts:23-40 | `1234567890` passes DODID10 and `ABCDEF1234` gives one BAD_DODID10 |
| `Validate.DigitRunPassesDodid` | features/validate/validate_part_01_rules_engine.ts:39 | a trimmed run of ten digits draws no BAD_DODID10 finding |
| `Validate.DateDomainExample` | features/validate/validate_part_01_rules_engine.ts:51-60 | `20260214` passes DATE_YYYYMMDD and `2026-2-1` draws one BAD_DATE |
| `Validate.DateExample` | tests/unit/validate_record.spec.ts:42-59 | through `validateRecord`, `20260214` passes and `2026-2-1` gives BAD_DATE, but `2026-02-14` gives LEN_MISMATCH |
| `Rng.NewRng` | features/generator/generator_part_01_rng.ts:4-7 | the state is the seed modulo 2^32, or 0x12345678 when that is 0, so it is never 0 |
| `Rng.NextUint32` | features/generator/generator_part_01_rng.ts:9-17 | the returned number is the new state, in [0, 2^32); it is 0 only from state 0 |
| `Rng.NextUint32FromOne` | features/generator/generator_part_01_rng.ts:9-17 | the 13/17/5 shifts take state 1 to 270369, also from `new Rng(1)` |
| `Rng.StreamNonZero` | features/generator/generator_part_01_rng.ts:9-17 | a generator with a non-zero state never returns or reaches 0 |
| `Rng.SameSeedSameStream` | tests/unit/rng.spec.ts:5-13 | two generators with the same seed produce identical sequences |
| `Rng.Int` | features/generator/generator_part_01_rng.ts:23-27 | one step; when min <= max the result lies in [min, max] and is congruent to the drawn number; a zero span gives no number |
| `Rng.Pick` | features/generator/generator_part_01_rng.ts:29-31 | on a non-empty list the result is an element of it; on an empty one there is none |
| `Rng.Alpha` | features/generator/generator_part_01_rng.ts:33-38 | n characters, each in A..Z, advancing the state exactly n times |
| `Rng.Digits` | features/generator/generator_part_01_rng.ts:40-44 | n characters, each in 0..9, advancing the state exactly n times |
| `Rng.AlphaFollowsStream` | features/generator/generator_part_01_rng.ts:33-38 | letter i is the i-th drawn number modulo 26 |
| `Rng.DigitsFollowStream` | features/generator/generator_part_01_rng.ts:40-44 | digit i is the i-th drawn number modulo 10 |
| `SpecImport.StripQuotes` | features/spec_import/spec_import_part_02_upsert_catalog.ts:25-26 | the leading and trailing runs of `"` are removed and the middle is kept: the result starts and ends without `"`, and is the text after the leading quotes less a tail made only of `"` |
| `SpecImport.StripQuotesIdempotent` | features/spec_import/spec_import_part_02_upsert_catalog.ts:25-26 | stripping a second time changes nothing |
| `SpecImport.PairOf` | features/spec_import/spec_import_part_02_upsert_catalog.ts:21-27 | a part is a pair exactly when its first `=` is at index 1 or later and the cleaned text before it is non-empty; the code is that cleaned text and the meaning the cleaned text after the first `=` |
| `SpecImport.PairOfFirstEquals` | features/spec_import/spec_import_part_02_upsert_catalog.ts:21-25 | a part splits at its first `=`, so further `=` belong to the meaning (`a = b = c` means `b = c`) |
| `SpecImport.ParseEnumPairs` | features/spec_import/spec_import_part_02_upsert_catalog.ts:11-31 | a result exactly when the text holds `=` and some comma-separated part is a pair; the result is then the pairs of the parts, in order (never an empty list) |
| `SpecImport.ParsedPairsExist` | features/spec_import/spec_import_part_02_upsert_catalog.ts:13-30 | pairs are returned exactly when the text holds `=` and some part is a pair |
| `SpecImport.ParsedPairsComeFromParts` | features/spec_import/spec_import_part_02_upsert_catalog.ts:15-28 | every returned pair comes from a part, every pair-shaped part is returned, and every code is non-empty and unquoted |
| `SpecImport.EnumPairsRoundTrip` | features/spec_import/spec_import_part_02_upsert_catalog.ts:11-31 | printing clean pairs as `code=meaning` joined by `,` parses back to those pairs |
| `SpecImport.GuessDomain` | features/spec_import/spec_import_part_02_upsert_catalog.ts:33-64 | the first test that holds decides: TEXT, then DATE_YYYYMMDD, DODID10, ENUM_YN with [Y=Yes, N=No], ENUM with the parsed pairs, else SPEC_RAW; raw_spec is the trimmed text, or "Text Field" when blank |
| `SpecImport.GuessIgnoresSurroundingWhitespace` | features/spec_import/spec_import_part_02_upsert_catalog.ts:34 | whitespace around the values column does not change the guess, and an absent column is guessed as a blank one |
| `SpecImport.ValidatedDomainNames` | features/spec_import/spec_import_part_02_upsert_catalog.ts:40-46 | the DATE and DODID domains are stored under exactly the names the validator compares against |
| `SchemaApply.Lines` | db/db_schema_apply.ts:7 | one line per `\n`-separated part, none holding a `\n`: each part but the last with one final `\r` removed, and the last part as it is |
| `SchemaApply.LinesJoin` | db/db_schema_apply.ts:7 | without `\r` the lines join back into the text |
| `SchemaApply.LinesCons` | db/db_schema_apply.ts:7 | a first line ended by `\n` becomes that line without a final `\r`, followed by the lines of the rest |
| `SchemaApply.SplitGoBatches` | db/db_schema_apply.ts:5-25 | the loop computes the batches of the lines; each is non-empty and trimmed, and there are at most (GO lines + 1) |
| `SchemaApply.GroupsHoldNoSeparator` | db/db_schema_apply.ts:11-18 | `GO` lines are separators only and never part of a batch |
| `SchemaApply.GroupsKeepOrder` | db/db_schema_apply.ts:11-23 | the groups hold every non-separator line exactly once, in input order |
| `SchemaApply.BatchesComeFromGroups` | db/db_schema_apply.ts:13-14 | each batch is the trimmed text of one group |
| `SchemaApply.GroupsGiveBatches` | db/db_schema_apply.ts:13-14 | each group whose text is not blank gives a batch |
| `SchemaApply.NoSeparatorOneBatch` | db/db_schema_apply.ts:21-22 | input without GO lines gives `[trim(text)]`, or `[]` when that is blank |
| `SchemaApply.TwoStatementScript` | db/db_schema_apply.ts:7-22 | two statements around a GO line ending in `\r\n` give two batches |
| `Text.Trim` | features/mapping/mapping_compile_part_01_parse_rules.ts:44 | the result has no whitespace at either end, and it is empty exactly when the input is all whitespace |
| `Text.TrimOfPadded` | features/mapping/mapping_compile_part_02_build_writer_plan.ts:41 | trimming removes exactly the surrounding whitespace |
| `Text.Split` | features/mapping/mapping_compile_part_01_parse_rules.ts:36 | one more part than separators, none holding a separator, and they join back into the input |
| `Text.SplitJoin` | features/mapping/mapping_compile_part_01_parse_rules.ts:46 | splitting undoes joining when no part holds the separator |
| `Text.Lower` | features/mapping/mapping_compile_part_02_build_writer_plan.ts:42 | same length; each character is its ASCII lower-case mapping |
| `Text.LowerIdempotent` | features/mapping/mapping_compile_part_02_build_writer_plan.ts:42 | lower-casing twice is lower-casing once |
| `Text.UpperChars` | features/spec_import/spec_import_part_02_upsert_catalog.ts:44 | same length; each character is its ASCII upper-case mapping |
| `Text.NatToString` | features/validate/validate_part_01_rules_engine.ts:30-32 | a non-empty run of decimal digits denoting the number, with a leading `0` only for 0 |
| `Text.IndexOf` | features/mapping/mapping_compile_part_01_parse_rules.ts:27 | -1 exactly when absent; otherwise the first position of the character |

## Left out

- Database access: connection handling, `loadExportFields`, `loadParsedRules`, and the catalog upserts (`upsertExportSpec`, `upsertDomain`, `upsertEnumValues`, `replaceExportFields`, `importSpecToDb`). Also left out: error persistence, report queries, `applySqlFile` and `applySchemaFromDir`. These are SQL text sent to a driver.
- The generator's insert stages. They write to the database, read the wall clock, and rely on a module-level cache and SQL locking.
- Spreadsheet reading (the `xlsx` wrapper), streaming lines to a file, printing charts, and the command-line entry point. These are I/O.
- `Rng.nextFloat01`: floating point.
- Real `Date` handling: a date cell is represented by its already-rendered ISO text. The UTC calendar computation of `toISOString` is not modelled.
- Text.Lower: ASCII letters only; JavaScript's full Unicode `toLowerCase` table is not modelled.
- Text.Upper: ASCII letters only. So `guessDomain`'s `field_name.toUpperCase() === "DODID"` misses non-ASCII letters that upper-case to ASCII (such as dotless `ı`). The case-blind regular expressions `/date/i`, `/checked/i` and `/^\s*GO\s*$/i` are exact, because without the `u` flag they only fold ASCII.
- Text.Trim: exact for ECMAScript whitespace and line terminators, over `char` rather than UTF-16 code units.
- All string lengths, indices and slices count Unicode scalar values (Dafny `char`), where JavaScript counts UTF-16 code units. A character outside the Basic Multilingual Plane, such as an emoji, counts 1 here and 2 in the TypeScript code. The four members below differ from the program only on such text.
- WriterPlan.PadToLength: pads and cuts by `char`, so a value holding an emoji is cut or padded one unit later than by `slice` and `repeat`. Its length is a `nat`, so a negative `field_length` on a mapped field is not modelled: there `padToLength` cuts with `slice(0, length)`, which drops that many characters from the end of the value (all of them when it is no longer), and never pads.
- WriterPlan.Resolve: inherits that difference, so its length guarantee is in `char`s rather than UTF-16 units.
- Validate.FieldFindings: compares `char` length with `field_length`, so `"😀"` in a 2-character field draws `LEN_MISMATCH` here and not in the program.
- FixedWidth.PlaceFields: positions and widths are in `char`s, so a value holding an emoji occupies one column fewer than in the program's line.
- Lengths, positions and counts are mathematical integers. Field lengths are `nat`, so a negative `field_length` is not modelled: on an unmapped field the program throws a `RangeError` from `" ".repeat`, and on a mapped field see the `WriterPlan.PadToLength` line. Fractional numbers are not modelled.
- A missing row object in the record context (`ctx.assessment` undefined) is represented by an empty row, which resolves the same way.
- The generator is a value passed from draw to draw rather than a mutable object.
