# Mode-table consistency check, modelled in Dafny

The stepper-control sketch declares three things that have to agree:
- an enum `TestMode`, whose last enumerator `MODE_COUNT` counts the test modes;
- a `modeNames` table with one display name per mode;
- a `modeSpeeds` table with one speed per mode.

The test `test_mode_arrays_match_enum` (tests/test_modes.py) reads these
declarations with `parse_modes` and asserts that both tables have
`MODE_COUNT` entries. This project models that reader and the verdict. It
proves what they compute: how `MODE_COUNT` gets its value, which lines are
skipped, when the test raises, and which sketches pass.

Modules, one per file:

- `Outcomes` (outcomes.dfy): `Option`, `Result` and the two exceptions the
  reader can raise. These are `ValueError` from `int`, carrying the rejected
  text, and the "MODE_COUNT not found" assertion.
- `Seqs` (seqs.dfy): a flat map and small sequence facts.
- `PyStr` (pystr.dfy): Python's `strip()`, `rstrip(',')`, `split(sep)[0]`
  and the first `=` of `split('=', 1)`, over Python's whitespace set.
  `strip()` is characterised by the padding it removes, and it is unique.
- `PyInt` (pyint.dfy): `int(text, 0)` for signed decimal, `0x`, `0o` and
  `0b` literals. It comes with `str` and `hex` as partners. For `str` the
  round trip holds in both directions: `int(str(n), 0) == n`, and `str`
  gives back every canonical decimal literal. For `hex` only
  `int(hex(n), 0) == n` is proved.
- `SourceLines` (source_lines.dfy): the line cleaner
  `line.split("//")[0].strip().rstrip(',')` that is shared by the enum and
  the speed table.
- `EnumParse` (enum_parse.dfy): lines 11-32, the value of `MODE_COUNT`.
  - The loop is proved equal to an independent reference: the enumerator
    numbering rule of section 6.7.2.2, paragraph 3, of the C11 standard
    (ISO/IEC 9899:2011).
  - Enum bodies written the usual way read back as the enumerators they
    declare.
- `ModeTables` (mode_tables.dfy): line 36 (the quoted names) and lines
  40-42 (the speeds). Each has a renderer as its partner and a round-trip
  lemma.
- `ModeCheck` (mode_check.dfy): `parse_modes` as a whole, and the three
  assertions of the test as a verdict.

The operations that only compute carry their meaning in lemmas, each with
a row below:
- `EnumParse.ParseModeCount` (lines 11-32): `ParseModeCountIsC11`,
  `LaterLinesNeverExamined`, `BlankLineSkipped`, `ModeCountNotFoundIff`,
  `SequentialEnumCountsModes`.
- `EnumParse.ModeCountFrom` (lines 25-32): `ModeCountFromMatchesSpec`,
  which relates it to the reference `EnumParse.ModeCountSpec`, whose
  step form is `SpecCons`.
- `EnumParse.DeclaredBy` (lines 16-24): `ReadEntry`, `ReadEnumerator`,
  `DeclaredByStripped`, `AssignmentLine`, `DeclaredEnumBody`.
- `EnumParse.EnumLines` (line 11): `DeclaredIgnoresPrefilter`.
- `ModeTables.ParseSpeeds` and `ModeTables.SpeedEntry` (lines 40-42):
  `SpeedsRoundTrip`, `CodelessLineSkipped`, `CodeLineGivesOneSpeed`,
  `LoneCommaRaises`, `SeparatorSpeedRaises`.
- `ModeCheck.ParseModes` (lines 5-44): `ParseModesRaises`,
  `ParseWrittenSketch`.

The reader is modelled from the lines of each declaration's body, so the
regular expressions that cut those bodies out of the file are not part of
the model (see "Left out").

## Model

| member | source | states |
|---|---|---|
| PyStr.Strip | tests/test_modes.py:11 | `strip()` yields text with no whitespace at either end, and the input is exactly that text padded with whitespace on both sides |
| PyStr.StripUnique | tests/test_modes.py:16 | any way of writing a string as whitespace around a trimmed text determines `strip()`: the result is that text |
| PyStr.StripPadded | tests/test_modes.py:21 | whitespace added on both sides of a trimmed text is removed again by `strip()`, whatever the whitespace |
| PyStr.SplitHead | tests/test_modes.py:16 | `split("//")[0]` is a prefix of the line that holds no `//`, and it is the whole line unless a `//` follows it directly |
| PyStr.RStripChar | tests/test_modes.py:16 | `rstrip(',')` removes exactly the trailing run of commas: the result is a prefix, everything removed is a comma, and the result does not end in one |
| PyStr.IndexOf | tests/test_modes.py:20 | `split('=', 1)` cuts at the first `=`: that index holds `=` and none comes before it; without a `=` there is no cut |
| PyStr.FindInPadded | tests/test_modes.py:16 | whitespace around a line does not move its first `//` relative to the text: `find` in the padded line is `find` in the text, shifted by the padding |
| PyInt.ParseInt | tests/test_modes.py:22 | `int(x, 0)` raises `ValueError` carrying its own argument; blank text always raises; a negative result needs a leading `-` |
| PyInt.SeparatorRaises | tests/test_modes.py:22 | text holding an information separator (U+001C-U+001F) anywhere raises: `strip` treats them as whitespace, but `int` does not skip them |
| PyInt.DecimalRoundTrip | tests/test_modes.py:22 | `int(str(n), 0) == n` for every integer `n`, negative ones included |
| PyInt.HexRoundTrip | tests/test_modes.py:22 | `int(hex(n), 0) == n` for every non-negative `n` |
| PyInt.CanonicalRoundTrip | tests/test_modes.py:42 | the other direction: every literal `str` could have written parses, and `str` of its value gives the literal back |
| PyInt.InnerSpaceRaises | tests/test_modes.py:22 | an initialiser with whitespace inside it, such as `1 + 1`, raises |
| PyInt.OnlyLiteralsParse | tests/test_modes.py:22 | whatever `int(x, 0)` accepts is, after the whitespace, a single literal: every character is a digit, a base-prefix letter or a leading sign |
| PyInt.ExpressionsRaise | tests/test_modes.py:22 | C initialiser expressions without spaces, `A+1`, `1<<2` and `(4)`, make `int` raise |
| SourceLines.CodeBeforeComment | tests/test_modes.py:16 | on a line with code and then a comment, everything from the first `//` on is discarded and the code before it is stripped, whatever the indentation and the gap |
| SourceLines.CodeOfIndented | tests/test_modes.py:40-41 | an indented line without a comment has its stripped text as its code |
| SourceLines.CleanLine | tests/test_modes.py:16 | a cleaned line is the line's code up to a trailing run of commas; it starts with no whitespace, ends in no comma and holds no `//` |
| SourceLines.CodeTextOfStripped | tests/test_modes.py:11 | stripping a line before cleaning it, as line 11 does, leaves its code unchanged |
| SourceLines.CleanToken | tests/test_modes.py:16 | an indented token with an optional comma cleans to the token; whitespace before the comma survives because `strip` runs first |
| SourceLines.CommentLineIsBlank | tests/test_modes.py:16-18 | a line that is only a comment, however indented, cleans to nothing |
| EnumParse.ReadEnumerator | tests/test_modes.py:23-24 | an entry is implicit exactly when it holds no `=`, and then the whole entry is the name |
| EnumParse.ReadEntry | tests/test_modes.py:19-22 | for every entry with an `=`, the name is the stripped text before the first `=` and the initialiser is what `int` makes of the stripped text after it, however the `=` is spaced |
| EnumParse.LiteralInitializers | tests/test_modes.py:22 | an initialiser written by `str(v)` gives `v` and one written by `hex(n)` gives `n`; the expression `A+1` is rejected with its text |
| EnumParse.ModeCountFromMatchesSpec | tests/test_modes.py:13-32 | from any enumerator and any running value, the loop returns what C11 numbering prescribes for the first `MODE_COUNT`, or the error of the first malformed literal before it, or "not found" |
| EnumParse.ParseModeCountIsC11 | tests/test_modes.py:11-32 | the whole enum reader equals the C11 reference on the enumerators the block declares, with numbering from 0 |
| EnumParse.SpecCons | tests/test_modes.py:23-29 | in the reference, an implicit enumerator takes the running value, an explicit one its literal, `MODE_COUNT` ends the count, and any other enumerator passes its value plus one on |
| EnumParse.DeclaredByStripped | tests/test_modes.py:11 | stripping a line first changes nothing it declares, and a blank line declares nothing |
| EnumParse.AssignmentLine | tests/test_modes.py:16-22 | an indented line `NAME = literal,` declares `NAME` with the initialiser `int` makes of the literal |
| EnumParse.DeclaredIgnoresPrefilter | tests/test_modes.py:11 | the prefilter of line 11, which strips lines and drops blank ones, changes none of the enumerators the loop sees |
| EnumParse.LaterLinesNeverExamined | tests/test_modes.py:26-28 | once a block decides the outcome (a `MODE_COUNT` or a rejected literal), appending any lines changes nothing |
| EnumParse.BlankLineSkipped | tests/test_modes.py:16-18 | a line that cleans to nothing can be removed anywhere in the block without changing the result or the running value |
| EnumParse.ModeCountNotFoundIff | tests/test_modes.py:31-32 | "MODE_COUNT not found" is raised exactly when no declared enumerator is `MODE_COUNT` and none has a rejected literal |
| EnumParse.DeclaredEnumBody | tests/test_modes.py:15-24 | the lines of an enum written the usual way declare exactly the enumerators it was written from |
| EnumParse.WrittenEnumIsC11 | tests/test_modes.py:13-32 | on any enum written with identifiers and decimal initialisers, the reader gives the value C11 gives `MODE_COUNT` |
| EnumParse.CountAfterImplicits | tests/test_modes.py:23-29 | after a run of enumerators without initialisers, `MODE_COUNT` is the running value advanced once per enumerator |
| EnumParse.SequentialEnumCountsModes | tests/test_modes.py:13-29 | in the usual layout, modes without initialisers and then `MODE_COUNT`, the count is the number of modes |
| EnumParse.ReadDecimalAssignment | tests/test_modes.py:19-22 | `NAME = str(v)` is read as enumerator `NAME` with value `v` |
| EnumParse.SpaceBeforeCommaHidesCount | tests/test_modes.py:26 | a closing line `MODE_COUNT ,` declares `"MODE_COUNT "`, so the reader reports the count as not found |
| EnumParse.RejectedLiteralRaises | tests/test_modes.py:20-22 | a first line `NAME = literal,` whose literal `int` refuses raises `ValueError(literal)`, whatever follows |
| EnumParse.AssignedCount | tests/test_modes.py:19-28 | a first line `MODE_COUNT = literal,` yields `int(literal, 0)`, whatever follows |
| ModeTables.Quoted | tests/test_modes.py:36 | no extracted name contains a quote or a line feed, and there are at most half as many names as characters |
| ModeTables.NamesRoundTrip | tests/test_modes.py:36 | the names of a rendered `modeNames` table are read back exactly, in order |
| ModeTables.EscapedQuoteEndsName | tests/test_modes.py:36 | the lazy match ignores C escapes: `"a\"b"` yields the single name `a\` |
| ModeTables.ParseAll | tests/test_modes.py:42 | the speeds are read exactly when every entry parses, one value per entry and in order; otherwise the error names the first rejected entry |
| ModeTables.CodelessLineSkipped | tests/test_modes.py:40-41 | a blank or comment-only line can be removed anywhere in the speed table without changing the result |
| ModeTables.CodeLineGivesOneSpeed | tests/test_modes.py:40-42 | a line with code contributes exactly one speed, placed between the speeds of the lines before and after it |
| ModeTables.SeparatorSpeedRaises | tests/test_modes.py:41-42 | a speed line `5<U+001F>,` (the unit separator, at which `splitlines` does not break) keeps the separator through `strip`, because the comma shields it, and `int` then raises |
| ModeTables.LoneCommaRaises | tests/test_modes.py:41-42 | a line holding only a comma passes the filter and then `int('', 0)` raises |
| ModeTables.SpeedsRoundTrip | tests/test_modes.py:40-42 | the speeds of a rendered `modeSpeeds` table are read back exactly, in order |
| ModeCheck.ParseModesRaises | tests/test_modes.py:5-44 | an exception from the enum escapes whatever the tables hold; the names table never raises; an exception from the speed table escapes once the enum has been read |
| ModeCheck.TestModeArraysMatchEnum | tests/test_modes.py:51-53 | the test passes exactly when parsing succeeds and both tables have `MODE_COUNT` entries; the third assertion never decides the outcome |
| ModeCheck.ParseWrittenSketch | tests/test_modes.py:5-44 | for a sketch written the usual way, `parse_modes` returns its names, its speeds and the C11 value of `MODE_COUNT`, or the reference's error |
| ModeCheck.WrittenSketchVerdict | tests/test_modes.py:47-53 | a written sketch passes exactly when C11 gives `MODE_COUNT` a value and both tables have that many entries |
| ModeCheck.SequentialSketchVerdict | tests/test_modes.py:47-53 | in the usual layout, the sketch passes exactly when there is one name and one speed per mode; otherwise the first table that disagrees is reported |

## Left out

- Reading the sketch file (lines 6 and 48): the model starts from the file's contents.
- Locating the three declarations with `re.search` and the assertions that they exist (lines 8-10, 34-35, 38-39). The enum and speed bodies are given as their lines, and the `modeNames` body as its text.
- `splitlines()` (lines 11 and 40): the bodies are given already split into lines. A modelled line may still hold a character at which `splitlines()` breaks (`\n`, `\r`, `\v`, `\f`, U+001C-U+001E, U+0085, U+2028, U+2029), so lemmas stated over all lines also cover lines the program cannot produce.
- PyInt.ParseInt: differs from Python's `int(x, 0)` on two kinds of input. It does not model `_` separators between digits or non-ASCII decimal digits, which Python accepts, so on such literals the model raises where Python returns a value. It also has no limit on the length of a decimal literal, while CPython 3.11 and later raise on more than 4300 digits, so there the model returns a value where Python raises.
- The names table is modelled by the semantics of the lazy pattern `"(.*?)"` (where `.` stops at a line feed), not by a general regular-expression engine.
- The message text of the `AssertionError` raised by lines 32 and 51-53: the model reports which check failed, not its message.
- The order of work inside the loop of lines 15-32: the model reads every line into an enumerator first and numbers them afterwards. This gives the same result, because reading a line cannot fail; a rejected literal raises only when the numbering reaches it.
- The firmware sketch itself (`Stepper Control Example.ino`) is not part of this model.
