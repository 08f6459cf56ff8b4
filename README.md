# MySQL EXPLAIN advisor: a Dafny model of its core

The tool reads a file of SQL statements and runs `EXPLAIN FORMAT=json` on each one. It then writes a short report about each plan: how the table is accessed, and whether it scans many rows. It builds its database connection string from a `${key}` template filled with values from a configuration file.

This project models three pieces of that program and proves what they promise:

- **Statement splitting** (`splitSQLStatements`). The input is cut at every `;`, with no notion of quotes or comments. Each piece is trimmed with `strings.TrimSpace`, and empty pieces are dropped.
  - Module `GoStrings` models Go's white-space class and `TrimSpace`.
  - Module `SqlSplit` has three parts:
    - `SplitSemicolon` is the split function handed to `bufio.Scanner`.
    - `SplitStatements` is the scanning loop.
    - `Statements` is a reference definition: split at every `;`, trim each piece, keep the non-empty ones.
  - The loop is proved to return exactly `Statements` of its input. The properties of the result are proved about `Statements`.
- **The plan advisory table** (module `PlanAdvisory`). This covers:
  - the decoded plan document as datatypes (`CostInfo`, `TableInfo`, `QueryBlock`, `ExplainResult`), with Go's `int64` as the newtype `Int64`;
  - the `switch` on the access-type string;
  - the rule that adds a high-volume advisory when more than 1000 rows are examined per scan.
  - The texts of the advisories are kept verbatim in `Message`.
- **`${key}` templates** (module `Template`).
  - `KvTemplate.Render` is the template's text passed through `Substitute`.
  - `Substitute` is a left-to-right scanner with the matching rule of the regular expression `\${(.*?)}`. A placeholder is `${`, then a key, then the first `}` after it. The key may not contain a newline, because `.` does not match one. Placeholders do not overlap, and substituted text is never scanned again.
  - An absent key reads as `""`, as a Go map lookup does.

Strings are sequences of Unicode code points. Module `SeqFacts` holds small facts about sequence concatenation and slicing that the proofs share. Module `Wrappers` holds `Option`.

## Model

| member | source | states |
|---|---|---|
| GoStrings.IsSpace | MysqlExplainJsonAnalysis.go:96 | within Latin-1 the white space is exactly tab, newline, vertical tab, form feed, carriage return, space, NEL (U+0085) and NBSP (U+00A0); no white-space character lies outside tab..U+3000 |
| GoStrings.TrimSpace | MysqlExplainJsonAnalysis.go:96 | the trimmed statement is empty or starts and ends with a non-white-space character |
| GoStrings.TrimSpaceCut | MysqlExplainJsonAnalysis.go:96 | the trim is a contiguous part of the text, and everything cut off before and after it is white space |
| GoStrings.TrimSpaceOfTrimmed | MysqlExplainJsonAnalysis.go:96 | text with no white space at its ends is left unchanged |
| GoStrings.TrimSpaceIdempotent | MysqlExplainJsonAnalysis.go:96 | trimming twice is trimming once |
| GoStrings.TrimSpaceEmpty | MysqlExplainJsonAnalysis.go:96-97 | the trim is empty exactly when the text is all white space; this is the case the `statement != ""` test drops |
| GoStrings.TrimSpaceKeepsOut | MysqlExplainJsonAnalysis.go:96 | trimming introduces no character, so a `;`-free piece gives a `;`-free statement |
| SqlSplit.IndexOfSemicolon | MysqlExplainJsonAnalysis.go:83-87 | the position of the first `;`, or -1 exactly when there is none, with no `;` before it |
| SqlSplit.IndexOfSemicolonPrefix | MysqlExplainJsonAnalysis.go:79-93 | a `;` already in the buffered data is found at the same place however much input follows; since `SplitSemicolon` consumes exactly up to that first `;`, a buffered prefix holding a `;` yields the same token and advance as the whole rest |
| SqlSplit.SplitSemicolon | MysqlExplainJsonAnalysis.go:82-92 | with a `;`, the token is the data before the first `;` and the `;` is consumed with it; with none, at the end of input the whole non-empty rest is the last token; otherwise there is no token and nothing is consumed; no token ever holds a `;`; whenever there is a `;`, the advance is one past `IndexOfSemicolon` |
| SqlSplit.PiecesNoSemicolon | MysqlExplainJsonAnalysis.go:83-85 | no piece between separators holds a `;` |
| SqlSplit.JoinPieces | MysqlExplainJsonAnalysis.go:83-89 | splitting at every `;` and joining with `;` gives back the text |
| SqlSplit.PiecesJoin | MysqlExplainJsonAnalysis.go:83-89 | joining `;`-free pieces and splitting again gives back the pieces |
| SqlSplit.PiecesCount | MysqlExplainJsonAnalysis.go:83-89 | there is exactly one piece more than there are `;` in the text |
| SqlSplit.PiecesSeparated | MysqlExplainJsonAnalysis.go:83-89 | the pieces of `a;b` are the pieces of `a` followed by the pieces of `b` |
| SqlSplit.Kept | MysqlExplainJsonAnalysis.go:96-99 | a piece is dropped exactly when it is all white space; otherwise its single statement is its trim, with no white space at either end |
| SqlSplit.Clean | MysqlExplainJsonAnalysis.go:95-99 | filtering never yields more statements than there are pieces |
| SqlSplit.CleanMembers | MysqlExplainJsonAnalysis.go:96-99 | the statements kept are exactly the non-empty trims of the pieces |
| SqlSplit.CleanAppend | MysqlExplainJsonAnalysis.go:95-99 | pieces are trimmed and filtered one at a time, in order |
| SqlSplit.ScanStep | MysqlExplainJsonAnalysis.go:82-99 | each token the split function returns contributes its trim, if non-empty, ahead of the statements of the text after it |
| SqlSplit.AdvanceKeeps | MysqlExplainJsonAnalysis.go:95-99 | one scanner round keeps the invariant: statements so far, then those of the unread input, are all the statements |
| SqlSplit.SplitStatements | MysqlExplainJsonAnalysis.go:77-106 | the scanning loop returns exactly the text split at every `;`, each piece trimmed, empty ones dropped, in the original order, including a final piece with no closing `;` |
| SqlSplit.StatementsWellFormed | MysqlExplainJsonAnalysis.go:83-85 | every statement is non-empty, has no white space at either end and holds no `;` |
| SqlSplit.StatementsTrimmed | MysqlExplainJsonAnalysis.go:96 | every statement is its own trim |
| SqlSplit.StatementsCount | MysqlExplainJsonAnalysis.go:83-89 | there are at most one more statements than there are `;` in the text |
| SqlSplit.StatementsSeparated | MysqlExplainJsonAnalysis.go:83-99 | the statements of `a;b` are those of `a` followed by those of `b` |
| SqlSplit.StatementsNoSemicolon | MysqlExplainJsonAnalysis.go:88-89 | text with no `;` is one statement, its trim, or none when that trim is empty |
| SqlSplit.StatementsOfSeparators | MysqlExplainJsonAnalysis.go:96-99 | text made only of `;` and white space, such as `;;` or a trailing `;`, yields no statement |
| PlanAdvisory.Classify | MysqlExplainJsonAnalysis.go:201-231 | a string is an unknown access type exactly when it is none of the seven codes the `switch` lists |
| PlanAdvisory.CodeClassify | MysqlExplainJsonAnalysis.go:34 | classifying an access-type string loses nothing: its code is the string |
| PlanAdvisory.ClassifyCode | MysqlExplainJsonAnalysis.go:201-231 | every access type is recovered from its code |
| PlanAdvisory.AccessAdvisory | MysqlExplainJsonAnalysis.go:201-231 | the access-type advisory is never the high-volume one, and is the unknown-type advisory exactly for unknown types |
| PlanAdvisory.AccessTable | MysqlExplainJsonAnalysis.go:201-231 | each of `ALL`, `index`, `range`, `ref`, `const`, `unique_subquery`, `index_subquery` selects its own advisory and only it does; any other string, compared case-sensitively, selects the unknown-type advisory |
| PlanAdvisory.Advisories | MysqlExplainJsonAnalysis.go:201-235 | one or two advisories: first the access-type one, then the high-volume one exactly when more than 1000 rows are examined per scan |
| PlanAdvisory.PlanAdvisories | MysqlExplainJsonAnalysis.go:201-235 | the advisories of a plan are read from its query block's table: its access type and its examined-row count |
| PlanAdvisory.OneAccessAdvisory | MysqlExplainJsonAnalysis.go:201-231 | every table gets exactly one access-type advisory |
| PlanAdvisory.Message | MysqlExplainJsonAnalysis.go:201-235 | the nine advisory texts, verbatim; no contract of its own, `MessageNonEmpty` states what it promises |
| PlanAdvisory.MessageNonEmpty | MysqlExplainJsonAnalysis.go:201-235 | every advisory's text is non-empty, so every access-type string maps to some advisory that writes text |
| PlanAdvisory.HighVolumeShape | MysqlExplainJsonAnalysis.go:233-235 | above 1000 rows the advisories are the access-type one followed by the high-volume one, whatever the access type; at or below 1000 the access-type one alone |
| PlanAdvisory.AdvisoriesDependOnlyOn | MysqlExplainJsonAnalysis.go:201-235 | the choice depends only on the access type and the examined-row count, not on names, costs, filters or columns |
| PlanAdvisory.FullScanOfManyRows | MysqlExplainJsonAnalysis.go:202-203 | `ALL` with 5000 rows gets the full-scan and the high-volume advisories |
| PlanAdvisory.ConstLookupOfOneRow | MysqlExplainJsonAnalysis.go:213-217 | `const` with 1 row gets only the "already optimal" advisory |
| Template.NewKvTemplate | KvTemplate.go:12-14 | the template keeps the text it is given, verbatim |
| Template.Lookup | KvTemplate.go:21 | a key in the map reads as its value, a missing key as the empty string (Go's zero value) |
| Template.Substitute | KvTemplate.go:17-22 | no contract of its own; its meaning is given by `PlainStep`, `PlaceholderStep`, `UnterminatedStep` and `RenderSegments` below |
| Template.KvTemplate.Render | KvTemplate.go:16-26 | a template with no placeholder renders as itself |
| Template.KeyEnd | KvTemplate.go:17 | the key after `${` ends at the first `}`, provided no newline comes before it; when there is no such `}`, no `}` closes a valid key |
| Template.Keys | KvTemplate.go:20-21 | every key rendering looks up holds no `}` and no newline |
| Template.KeyEndOf | KvTemplate.go:17 | after a valid key, the next `}` closes it |
| Template.PlaceholderStep | KvTemplate.go:17-22 | a placeholder at the front becomes its key's value, and scanning resumes after its `}` without looking at the value |
| Template.PlainStep | KvTemplate.go:17-19 | text with no `${` is copied unchanged, and rendering goes on after it |
| Template.UnterminatedStep | KvTemplate.go:17-19 | a `${` that no `}` closes before a newline is copied as text |
| Template.RenderPlain | KvTemplate.go:17-19 | a template with no placeholder renders as itself, whatever the values |
| Template.RenderEmptyIdentity | KvTemplate.go:16-26 | with no values, a template renders as itself exactly when it holds no placeholder |
| Template.RenderEmptyNoLonger | KvTemplate.go:16-26 | with no values, rendering never makes a template longer |
| Template.RenderEmptyShorter | KvTemplate.go:16-26 | with no values, rendering shortens every template that holds a placeholder |
| Template.RenderDependsOnlyOnKeys | KvTemplate.go:20-21 | values that agree on the keys a template looks up render it alike |
| Template.RenderSegments | KvTemplate.go:16-26 | a template written as plain text and placeholders renders as the text with each placeholder replaced once, in order |
| Template.RenderTwoPlaceholders | KvTemplate.go:16-26 | `${a}-${b}` with `a` mapped to `x` and `b` to `y` renders as `x-y`, for any two distinct keys |
| Template.RenderAbsentKey | KvTemplate.go:21 | a placeholder whose key is absent renders as nothing, and is not an error |
| Template.RenderFirstBrace | KvTemplate.go:17 | in `${a}b}`, the first `}` ends the key and the second is copied as text |
| Template.RenderNewlineBlocks | KvTemplate.go:17 | `${a`, a newline, then `}` is not a placeholder, even when the key `a` plus a newline has a value |
| Template.RenderNoRescan | KvTemplate.go:18-19 | a value that looks like a placeholder is inserted as it is, not replaced again |

## Left out

- Database access (MysqlExplainJsonAnalysis.go:120-163): opening the connection, running `EXPLAIN FORMAT=json` and reading its rows. This is network I/O through a foreign driver.
- File I/O (MysqlExplainJsonAnalysis.go:61-75, 128-146): `readMysqlConfigMap`, reading `check.sql`, creating the report file and redirecting the log. The configuration map reaches the model as the `values` parameter of `Render`.
- `parseExplainJSON` (MysqlExplainJsonAnalysis.go:52-59) is a call to `encoding/json`. Only the datatypes it fills are modelled.
- Report printing (MysqlExplainJsonAnalysis.go:165-199, 237-245): echoing fields with `fmt.Fprintf`. Only the advisory texts are kept, in `Message`.
- Building the connection string in `main` (MysqlExplainJsonAnalysis.go:110-117) is not modelled beyond `Render` itself.
- `log.Fatal`, including the `scanner.Err()` check at MysqlExplainJsonAnalysis.go:101-103, and `bufio.Scanner`'s 64 KiB token limit. These are process termination and library buffer limits; the model has no error path for an over-long statement.
- SqlSplit.SplitStatements: hands the split function the whole unread rest with the end-of-input flag set, instead of the scanner's growing buffer. `SplitSemicolon` is proved to consume exactly up to `IndexOfSemicolon`, and `IndexOfSemicolonPrefix` shows that position does not move when more input follows, so a buffered prefix holding a `;` gives the same token; the scanner's buffer growth itself is not modelled.
- GoStrings.TrimSpace: works on code points. Go works on UTF-8 bytes, and invalid byte sequences are not modelled.
- PlanAdvisory.Int64: only bounds the row counts. JSON decoding errors for numbers out of range are not modelled.
- Template.Substitute: stands in for the regular-expression engine. Input that is not valid UTF-8, which the engine reads as U+FFFD, is not modelled.
- Template.RenderTwoPlaceholders: is stated for any two distinct keys and values, with the template written as the concatenation `"${" + a + "}" + ("-" + ("${" + b + "}"))`. There is no separate lemma on the literal `"${a}-${b}"`.
