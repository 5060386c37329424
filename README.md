# Column tables, code-line counts, filters and dated directories

This project models the core of `analysis_tools`, a set of small Python
tools for astronomy work, in Dafny, and proves properties of the model.

- **The column reader `readcol`** (`analysis_tools/io/readcol.py`). It reads
  a text file line by line and cuts each line into fields. Blank lines and
  comment lines are passed over; the other lines are counted as rows. The row
  numbered `headerstart` names the columns. It drops a lone `#` field and cuts
  a `#` glued to the first name. When `headerstart == datastart`, the columns
  are named `"0"`, `"1"`, and so on instead. Every row from `datastart` on
  adds its k-th field to column k. A missing file, or one with no columns,
  gives `([], [])`.
- **The column writer `writecol`** (`analysis_tools/io/writecol.py`). It
  refuses an existing file unless `overwrite` is set. It then refuses ragged
  columns, then a header of the wrong length. Only after those checks does it
  open the file, in mode `'a+'` or `'w'`. It writes an optional header line
  and one line per row.
- **`muttontools/col_readwrite.py`** holds the same two functions, line for
  line. In that copy the delimiter parameter is spelled `deliminator` and the
  writer adds cells without `str()`. Every `ReadCol` and `WriteCol` member
  therefore models both files. The table below cites each member's lines in
  one of the two.
- **The older pair in `muttontools/better_file_writer.py`.** Its reader
  takes the physical line `datastart-1` as the header and every other line as
  data. It always splits on whitespace and returns `(cols, header)`. Its
  writer makes no checks.
- **The code-line counter `count_code_lines`**
  (`analysis_tools/count_lines/count_lines.py`).
- **The two-stage filter `andwhere`** (`muttontools/where.py`), over integers.
- **`make_timestamp_dir`** (`analysis_tools/dir/make_timestamp_dir.py`). It
  creates `dest/YYYY.MM.DD/`, or the first free `_N` variant of it.

A file is a `Files.TextFile`: an existence flag and the file's text. Both
change in place under `Open` and `Write`. Its lines are the pieces that
iterating over the text yields, each ending with its newline.

Each reader is specified by a left fold, `Run`, of a per-line `Step` over
those lines. `ReadSpec` is the function that gives its result. The source's
own loops are methods: `ReadCol.ReadCol`, `BetterFileWriter.ReadCol`,
`CountLines.CountScript` and `CountLines.CountCodeLines`. Their loop
invariants tie the loop's variables to the fold over the lines already read.
The writers are methods too: `WriteCol.WriteCol` and
`BetterFileWriter.WriteCol`. They grow each line in a loop, `BuildLine`, and
write through the file object. They are proved to leave exactly the text that
`WriteSpec` or `LegacyText` describes.

Exceptions the source lets escape are outcomes, not preconditions:
- in the reader, a data row before any column count (`NameError`) and a
  header row of nothing but `#` (`IndexError`);
- in the writer, empty `data` (`IndexError`);
- in `andwhere`, an unknown test string and a comparison of some entry with `None`;
- in the older reader, a missing file, a blank header line and a data line
  before the header.

The printed notices of `writecol` are a list of tags in the result, in the
order they are printed.

Modules:
- `text.dfy`: tokenising, line layout, lines of a text and `strip`;
- `files.dfy`: the file;
- `readcol.dfy` and `writecol.dfy`: the reader and the writer;
- `roundtrip.dfy`: write-then-read, and the behaviour the tests check;
- `better_file_writer.dfy`: the older pair;
- `count_lines.dfy`: the code-line counter;
- `where.dfy`: the filter;
- `timestamp_dir.dfy`: the dated directory.

## Model

| member | source | states |
|---|---|---|
| `Text.Split` | analysis_tools/io/readcol.py:81 | splitting on a one-character class of separators yields at least one piece, and no piece holds a separator |
| `Text.NonEmpty` | analysis_tools/io/readcol.py:84-85 | the kept pieces are non-empty pieces of the input, and there are no more of them than pieces |
| `Text.RemoveEmpty` | analysis_tools/io/readcol.py:84-85 | the loop of `remove('')` calls ends with exactly the non-empty pieces, in their order |
| `Text.TokensShape` | analysis_tools/io/readcol.py:71-85 | every field of a line is non-empty and free of separators |
| `Text.TokensOfLine` | analysis_tools/io/writecol.py:91-99 | a row of separator-free cells laid out with a delimiter of separators tokenises back to exactly those cells |
| `Text.LinesOfBody` | analysis_tools/io/writecol.py:91-99 | the lines written one per row are read back one by one, one line per row |
| `Text.LinesAppend` | analysis_tools/io/writecol.py:78 | text appended after a final newline keeps the old lines and adds the new ones after them |
| `Text.Strip` | analysis_tools/count_lines/count_lines.py:44 | the stripped line neither starts nor ends with whitespace, and it is empty exactly when the line is all whitespace |
| `Text.StripIsSlice` | analysis_tools/count_lines/count_lines.py:44 | `strip()` keeps one slice of the line, with nothing but whitespace before it and after it |
| `Text.StripUnpadded` | analysis_tools/count_lines/count_lines.py:44 | a line with no whitespace at either end is its own `strip()` |
| `Text.NatToString` | analysis_tools/dir/make_timestamp_dir.py:32-34 | `str` of a natural number is a non-empty string of digits whose decimal value is the number, with no leading zero except for 0 itself, and one digit long exactly below ten |
| `Text.NatToStringInjective` | analysis_tools/dir/make_timestamp_dir.py:32-34 | two numbers have the same numeral if and only if they are equal |
| `Files.TextFile.Open` | analysis_tools/io/writecol.py:78 | opening creates a missing file; `'w'` empties an existing one, and `'a+'` keeps its text |
| `Files.TextFile.Write` | analysis_tools/io/writecol.py:88 | a write puts its text after what the file already holds |
| `ReadCol.AppendRow` | analysis_tools/io/readcol.py:124-126 | field k goes to the end of column k for every k below both counts; the other columns are unchanged |
| `ReadCol.ReadSpec` | analysis_tools/io/readcol.py:129-134 | whatever is read has one name per column, and the header is empty exactly when there are no columns |
| `ReadCol.RunWf` | muttontools/col_readwrite.py:100-122 | in every state the reader reaches, `header`, `cols` and `ncols` agree in length once set, and nothing is set before |
| `ReadCol.RunFailed` | analysis_tools/io/readcol.py:136 | once an exception is raised, no later line changes the outcome |
| `ReadCol.SkippedLineInvisible` | analysis_tools/io/readcol.py:93-127 | a blank or comment line, wherever it stands, changes nothing: no header, no data, no row counted |
| `ReadCol.PassOver` | analysis_tools/io/readcol.py:96-127 | rows before the header row, and rows between it and `datastart`, change only the row count |
| `ReadCol.DataRows` | analysis_tools/io/readcol.py:124-127 | once the columns exist, each counted row adds field k to column k for k below both counts, so extra fields are dropped and short rows leave columns ragged |
| `ReadCol.HeaderStep` | analysis_tools/io/readcol.py:96-106 | the header row fixes the column count at the number of names and starts one empty column per name |
| `ReadCol.LoneHashHeader` | analysis_tools/io/readcol.py:98-100 | a lone leading `#` field is dropped and the column count is the rest |
| `ReadCol.GluedHashHeader` | analysis_tools/io/readcol.py:108-110 | exactly one `#` glued to the first name is cut off |
| `ReadCol.HashOnlyHeader` | analysis_tools/io/readcol.py:98-109 | a header row of nothing but `#` raises `IndexError` |
| `ReadCol.NoHeaderRow` | muttontools/col_readwrite.py:118-131 | without a header, the first data row names the columns `"0"` to `"n-1"` and is also the first row of every column |
| `ReadCol.DataBeforeColumns` | analysis_tools/io/readcol.py:124-125 | a data row before any column count raises `NameError` |
| `ReadCol.ReadsHeaderAndRows` | analysis_tools/io/readcol.py:93-134 | `headerstart` rows of preamble, the header row, the rows up to `datastart`, then data: the result is the header's names and, per column, the matching fields of the data rows |
| `ReadCol.ReadsWithoutHeader` | analysis_tools/io/readcol.py:114-134 | with `headerstart == datastart`, the columns are named by number and hold the fields of every row from the first data row on |
| `ReadCol.NothingToRead` | analysis_tools/io/readcol.py:129-138 | a missing file, and a file of blank and comment lines only (an empty file among them), read as `([], [])` |
| `ReadCol.AppendFields` | analysis_tools/io/readcol.py:125-126 | the `zip` loop appends field k to column k for k below both the field count and `ncols` |
| `ReadCol.CountedRow` | analysis_tools/io/readcol.py:96-127 | one counted row on the reader's local variables: the header, no-header and data branches give the fold's next state, or the fold's exception |
| `ReadCol.ReadCol` | analysis_tools/io/readcol.py:60-138 | the reader returns exactly what `ReadSpec` gives for the file, missing or present, including its exceptions |
| `WriteCol.BuildLine` | analysis_tools/io/writecol.py:81-88 | the loop builds the starter followed by the cells, each followed by the delimiter and the last by a newline |
| `WriteCol.WriteRows` | analysis_tools/io/writecol.py:91-99 | the row loop adds one line per row, for rows 0 to `nrows-1`, after the file's text |
| `WriteCol.WriteTable` | muttontools/col_readwrite.py:209-229 | the open file gains the header line, if any, and then the rows, and nothing else |
| `WriteCol.WriteCol` | analysis_tools/io/writecol.py:48-99 | the notices printed, the ending and the file afterwards are exactly those of `WriteSpec` |
| `WriteCol.ExistingFileGuarded` | analysis_tools/io/writecol.py:49-52 | an existing file with overwrite off is left as it is, whatever the mode, data or header, and only the halting notice is printed |
| `WriteCol.WrittenExactly` | analysis_tools/io/writecol.py:49-78 | the file is written if and only if it may be replaced, the columns are non-empty and of one length, and the header is empty or fits |
| `WriteCol.RefusalChangesNothing` | muttontools/col_readwrite.py:180-207 | any ending but a write leaves the file's existence and text as they were |
| `WriteCol.NoticeOrder` | analysis_tools/io/writecol.py:49-76 | the existence notice is always first; a shape error, if any, is the second and last notice, and a header mismatch names both lengths |
| `WriteCol.GuardedRepeat` | tests/test_writecol.py:36-44 | with overwrite off, repeating the same call leaves the file as the first call left it |
| `WriteCol.ModeDecidesKeptText` | analysis_tools/io/writecol.py:78 | after a write, `'a+'` leaves the old text followed by the table, and `'w'` or a new file leaves only the table |
| `WriteCol.LineCount` | analysis_tools/io/writecol.py:81-99 | the written text has one line per row, plus one for a non-empty header |
| `RoundTrip.HeaderLineFields` | analysis_tools/io/readcol.py:96-110 | with a starter of whitespace, or of `#` then whitespace, or a bare `#`, the header line is counted and its names come back as the header |
| `RoundTrip.RowLines` | analysis_tools/io/readcol.py:81-93 | the row lines are all counted, and their fields are exactly the rows |
| `RoundTrip.ReadsWritten` | analysis_tools/io/readcol.py:60-134 | a header line and row lines of whitespace-free cells read back as the header and the columns of those rows |
| `RoundTrip.ReadsDelimited` | analysis_tools/io/readcol.py:71-72 | with a delimiter of its own, lines joined by it read back as the header and columns |
| `RoundTrip.WriteThenRead` | analysis_tools/io/writecol.py:78-99 | a table written where no old text is kept reads back as its header and data |
| `RoundTrip.AppendThenRead` | tests/test_colio.py:77-89 | a headed write, then an appending write of more rows without a header: the file reads back as the first header over each column's two blocks joined |
| `RoundTrip.NominalScenario` | tests/test_writecol.py:27-34 | the nominal table is written with the creation notice and reads back as written |
| `RoundTrip.OverwriteOffScenario` | tests/test_writecol.py:36-44 | the second call's first notice is the halting one, and the file stays as the first call wrote it |
| `RoundTrip.AppendScenario` | tests/test_writecol.py:46-58 | appending two rows with `'a+'` prints the reuse notice and reads back as six rows under `x y` |
| `RoundTrip.TruncateScenario` | tests/test_writecol.py:60-72 | rewriting with `'w'` prints the reuse notice and leaves only the new rows |
| `RoundTrip.RefusalScenarios` | tests/test_writecol.py:74-99 | ragged columns, and headers of 3 and of 1 names over 2 columns, are refused with the expected notice as the second |
| `RoundTrip.NominalFile` | tests/test_readcol.py:27-28 | `"x y\n1 .1\n2 .2\n3 .3\n4 .4\n"` reads as `x`, `y` over the two columns |
| `RoundTrip.SingleColumnFile` | tests/test_readcol.py:49-50 | a one-column file reads as one column |
| `RoundTrip.NoHeaderFile` | tests/test_readcol.py:52-53 | with `headerstart = datastart = 0`, the rows read under the names `"0"` and `"1"` |
| `RoundTrip.PipeFile` | tests/test_readcol.py:46-47 | the nominal table joined by `\|` reads back with delimiter `"\|"` |
| `BetterFileWriter.DataLines` | muttontools/better_file_writer.py:46-50 | past the header, every physical line, blank or not, advances the counter and gives field k to column k for k below the header's length |
| `BetterFileWriter.ReadsOnlyFromFirstLine` | muttontools/better_file_writer.py:29-57 | columns come back if and only if the file exists, `datastart` is 1 and the first line is not blank; they then hold the later lines' fields under the first line's names |
| `BetterFileWriter.BlankLineAddsNothing` | muttontools/better_file_writer.py:47-50 | a blank line past the header adds to the count and nothing to the columns |
| `BetterFileWriter.ReadCol` | muttontools/better_file_writer.py:19-57 | the older reader returns exactly what its `ReadSpec` gives, exceptions included |
| `BetterFileWriter.HeaderLineNames` | muttontools/better_file_writer.py:38-43 | a lone `#` field before the names is dropped, so the header line's names are the header |
| `BetterFileWriter.WriteCol` | muttontools/better_file_writer.py:62-92 | with no existence or shape checks, the file is opened in the given mode and gains the header line and the rows |
| `BetterFileWriter.LegacyIsTrimmedSerialize` | muttontools/better_file_writer.py:67-90 | the unchecked writer writes what the checked one would for the header cut to `ncols` names and the columns cut to the first column's length |
| `BetterFileWriter.AgreesWithCheckedWriter` | muttontools/better_file_writer.py:62-92 | where the checked writer writes, both write the same text; where the file exists and overwrite is off, only the unchecked one changes it |
| `BetterFileWriter.WriteThenRead` | muttontools/better_file_writer.py:30-57 | a table the unchecked writer puts in a new file comes back from the older reader as `(cols, header)` |
| `BetterFileWriter.LeadingBlankLine` | muttontools/better_file_writer.py:35-38 | a blank first line is skipped by the io reader but taken for the header by the older one, which raises |
| `BetterFileWriter.GluedHash` | muttontools/better_file_writer.py:38-43 | a `#` glued to the first name is cut off by the io reader and kept by the older one |
| `BetterFileWriter.BlankLineExample` | muttontools/better_file_writer.py:35-44 | `"\nx y\n1 2\n"` reads as the table in the io reader and raises in the older one |
| `BetterFileWriter.GluedHashExample` | muttontools/better_file_writer.py:38-44 | `"#x y\n1 2\n"` gives names `x`, `y` in the io reader and `#x`, `y` in the older one |
| `CountLines.CountScript` | analysis_tools/count_lines/count_lines.py:34-62 | the per-line loop over a script returns the script's code-line count |
| `CountLines.RemoveFirst` | analysis_tools/count_lines/count_lines.py:28-29 | the `in` test and `remove` drop the first listing entry at the given path, if there is one, and nothing else |
| `CountLines.CountCodeLines` | analysis_tools/count_lines/count_lines.py:25-68 | the total reported is the sum of the counts of the listed scripts, without the counter's own file |
| `CountLines.CountBound` | analysis_tools/count_lines/count_lines.py:60-62 | every line adds at most one to the count |
| `CountLines.ScriptCountBound` | analysis_tools/count_lines/count_lines.py:40-62 | a script's count is at most its number of lines |
| `CountLines.NewlineTestNeverFires` | analysis_tools/count_lines/count_lines.py:49 | a stripped line is never `"\n"`, so that test never decides anything |
| `CountLines.BlankAndCommentSkipped` | analysis_tools/count_lines/count_lines.py:44-48 | a line that is blank or starts with `#` or `;` once stripped is skipped, inside or outside a docstring |
| `CountLines.InsideDocstring` | analysis_tools/count_lines/count_lines.py:50 | inside a docstring any line not opening with a triple quote is skipped |
| `CountLines.BareTripleQuoteToggles` | analysis_tools/count_lines/count_lines.py:56-58 | a line that is one triple quote of either style, indented or not, flips the docstring flag |
| `CountLines.OneLineDocstring` | analysis_tools/count_lines/count_lines.py:51-52 | a docstring opened and closed on one line is skipped and leaves the flag alone |
| `CountLines.NoDocstringIsFilter` | analysis_tools/count_lines/count_lines.py:40-62 | outside docstrings, the count grows by the number of lines that are not blank, comments or triple quotes |
| `CountLines.InsideDocstringCountsNothing` | analysis_tools/count_lines/count_lines.py:46-53 | lines inside an open docstring that never close it count nothing and keep it open |
| `CountLines.SumConcat` | analysis_tools/count_lines/count_lines.py:66 | the total over two listings one after the other is the sum of their totals |
| `CountLines.SumBound` | analysis_tools/count_lines/count_lines.py:32-66 | the total is at most the number of lines in all scripts |
| `CountLines.SelfExcluded` | analysis_tools/count_lines/count_lines.py:28-30 | the counter's own file adds nothing when listed; every other script is counted |
| `CountLines.NoSelfListed` | analysis_tools/count_lines/count_lines.py:32-66 | without the counter's file in the listing, the total is the plain sum |
| `Where.Select` | muttontools/where.py:48-55 | `np.where(...)[0]` gives, in increasing order and in range, exactly the indices whose entry passes the test |
| `Where.Gather` | muttontools/where.py:61 | fancy indexing gives the entries at the given indices, in their order |
| `Where.SelectBothSpec` | muttontools/where.py:73-91 | the one-pass reference keeps, in increasing order, exactly the indices whose entry passes both tests |
| `Where.EqualityIsAtLeast` | muttontools/where.py:56-57 | `"=="` behaves as `">="`, as the first test and as the second |
| `Where.SingleTest` | muttontools/where.py:64-68 | with one test, the result is every index, in order, whose entry passes, or the entries at those indices |
| `Where.StagedMembers` | muttontools/where.py:86-91 | an index is kept by the two stages if and only if its entry passes both tests |
| `Where.StagedIsBoth` | muttontools/where.py:73-91 | the two stages, `indices1[indices2]`, give the one-pass reference's list |
| `Where.TwoTests` | muttontools/where.py:70-91 | with two tests, the indices returned are increasing, in range, and exactly those whose entry passes both |
| `Where.TwoTestValues` | muttontools/where.py:86-93 | with two tests and values asked for, the result is `data` at exactly the indices the index form returns |
| `Where.Faults` | muttontools/where.py:58-84 | an unknown first test and a second value without a test raise; a second test without a value raises when the first stage kept an entry, and gives an empty result when it kept none |
| `Where.NothingToCompare` | muttontools/where.py:61-91 | over `[5]`, `x > 10` keeps nothing, so the test against None returns no index, while `x > 1` keeps 5 and the comparison with None raises |
| `Where.DocExample` | muttontools/where.py:14-19 | over `[1, 2, 3]`, `x > 1` and `x < 3` keep index 1 |
| `Where.DocExampleValues` | muttontools/where.py:20-21 | the same call asking for values returns `[2]` |
| `Where.EqualityAsWritten` | muttontools/where.py:56-57 | as written, `"=="` over `[1, 2]` with value 1 returns both indices, although only the first entry equals 1 |
| `Where.IntendedEquality` | muttontools/where.py:56-57 | read as equality, `"=="` keeps exactly the indices, in order, whose entry equals the value |
| `Where.IntendedElsewhereAsWritten` | muttontools/where.py:48-84 | the corrected reading agrees with the source on every call that does not use `"=="` |
| `TimestampDir.PadTwoDigits` | analysis_tools/dir/make_timestamp_dir.py:36-39 | a month or day below 100 becomes exactly two digits, and one of ten or more is unchanged |
| `TimestampDir.NumberedDistinct` | analysis_tools/dir/make_timestamp_dir.py:52 | different suffixes give different paths |
| `TimestampDir.NameShape` | analysis_tools/dir/make_timestamp_dir.py:31-41 | a four-digit year gives a ten-character name of digits with dots at positions 4 and 7 |
| `TimestampDir.Example` | analysis_tools/dir/make_timestamp_dir.py:41 | 5 January 2016 is named `2016.01.05` |
| `TimestampDir.FirstFree` | analysis_tools/dir/make_timestamp_dir.py:51-55 | a path the suffix search returns did not exist |
| `TimestampDir.DirTree.MakeDir` | analysis_tools/dir/make_timestamp_dir.py:46 | `mkdir` adds the one new path to the existing directories |
| `TimestampDir.MakeTimestampDir` | analysis_tools/dir/make_timestamp_dir.py:31-55 | the path returned is the choice made over the directories as they were, and exactly that path is added; nothing is added when none is returned |
| `TimestampDir.ChoiceIsFresh` | analysis_tools/dir/make_timestamp_dir.py:45-55 | the path chosen did not exist before |
| `TimestampDir.FirstFreeIsFirst` | analysis_tools/dir/make_timestamp_dir.py:51-55 | a numbered path is returned only when every smaller suffix is taken |
| `TimestampDir.FirstFreeNone` | analysis_tools/dir/make_timestamp_dir.py:51-55 | the search finds nothing if and only if every suffix in its range is taken |
| `TimestampDir.NoneWhenAllTaken` | analysis_tools/dir/make_timestamp_dir.py:44-55 | nothing is created if and only if the plain path and `_1` to `_49` all exist |
| `TimestampDir.ChoiceIsMinimal` | analysis_tools/dir/make_timestamp_dir.py:44-52 | the plain path, when free, is chosen; otherwise the smallest free suffix from 1 to 49 is |
| `TimestampDir.FiftyNeverTried` | analysis_tools/dir/make_timestamp_dir.py:49-51 | with the plain path and `_1` to `_49` taken, nothing is created even when `_50` is free, which the 1-to-50 search would create |
| `TimestampDir.IntendedNoneWhenAllTaken` | analysis_tools/dir/make_timestamp_dir.py:17-18 | searching 1 to 50, nothing is created exactly when all 50 suffixes and the plain path are taken; otherwise the choice is fresh and the smallest free one |

## Left out

- Console output is left out. The reader's "reading", "ncols" and "No valid
  columns" lines, the per-script lines of the counter, and the older pair's
  `print(header)`, `print(cols)` and `print(i)` are not modelled. The
  writer's notices are tags in its result.
- `CountLines.CountCodeLines` returns the total that `count_code_lines`
  prints. It does not model the print.
- Real files are left out: `open`, `os.path.isfile`, `os.path.isdir`,
  `os.mkdir`, closing, permissions and races between checking and creating.
  A file is an existence flag and a string; the directories are a set of
  path strings.
- `glob.glob` is not modelled: the listing of scripts and their texts is a
  parameter.
- `time.localtime` is not modelled: the date is a parameter, with no check
  that it is a real date.
- `os.path.join` is modelled by `Text.PathJoin` for POSIX paths. It leaves out
  path normalisation, and `os.path.isdir(p + '/')` becomes membership of
  `p + "/"`.
- The delimiter is a set of literal characters. Regular-expression
  metacharacters such as `]`, `^` or `\` inside the character class built at
  analysis_tools/io/readcol.py:72 are not modelled.
- The whitespace set is the six ASCII characters ` \t\n\r\v\f`. In the
  source, `\s` and `str.strip()` in Python 3 also match U+001C to U+001F,
  U+0085, U+00A0 and other Unicode spaces.
- Python's universal-newline translation of `\r\n` and `\r` is not modelled.
  Lines end at `'\n'` only.
- Cells are strings. `str()` of other cell types in the io writer is not
  modelled.
- Only the writer modes `'a+'` and `'w'` are modelled.
- Python 2 is not modelled. The comprehension variable `i` at
  muttontools/better_file_writer.py:44 is scoped as in Python 3.
- `andwhere` works over integers; numpy arrays of floats or strings and
  mixed-type comparisons are not modelled. The docstring's example, with
  `1.1` and `'2.5'`, is stated as `DocExample` with 1 and 3.
- `BetterFileWriter.WriteCol`: its three crash paths are preconditions, not
  modelled outcomes. They are empty `data` (`data[0]`), a header shorter than
  the number of columns (`header[j]`) and a column shorter than the first
  (`data[j][i]`). The model also does not capture that the file is already
  opened, and so created or emptied, before such a crash.
- The older reader's `comment` and `deliminator` parameters are unused in the
  source, so the model does not take them.
- muttontools/colio.py, which tests/test_colio.py imports, is not part of
  this model. Its tests are stated over the `ReadCol` and `WriteCol` model.
- The test files under `tests/test_files/` are not part of this model.
  - The concrete lemmas use the texts that the expected results imply.
  - The comment-character, non-default-start and mixed-space-and-tab tests
    are covered by the general lemmas `SkippedLineInvisible`, `NothingToRead`,
    `ReadsHeaderAndRows` and `ReadsWritten` (with any whitespace delimiter).
    They have no concrete lemma.
- tests/test_readcol.py:47 passes the keyword `deliminator` to a reader whose
  parameter is `delimiter`. `RoundTrip.PipeFile` states the call with
  `delimiter="|"`.
- The docstring of `make_timestamp_dir` promises suffixes 1 to 50, but the
  code tries 1 to 49. The methods follow the code (see Findings).
- `parse_args` and the `__main__` blocks are not modelled.
- The FITS, jitter, MJD and astropy-table scripts are outside the core.

## Findings

| source | as written | input that shows it | evidently intended | confidence | as-written member | corrected member |
|---|---|---|---|---|---|---|
| muttontools/where.py:56-57 | the `'=='` branch selects with `>=`; lines 81-82 do the same in the second stage | `data=[1, 2]`, `val1=1`, `test1='=='`, `return_indices=True` gives indices `[0, 1]` | `==`, giving `[0]` | high; not executed | `Where.EqualityAsWritten` | `Where.IntendedEquality` |
| analysis_tools/dir/make_timestamp_dir.py:51 | `range(1,50)` tries suffixes 1 to 49 | the plain path and `_1` to `_49` exist and `_50` does not: nothing is created and `None` is returned | suffixes 1 to 50, as the docstring at lines 17-18 says | medium; not executed | `TimestampDir.FiftyNeverTried` | `TimestampDir.IntendedNoneWhenAllTaken` |

`AndWhere` and `MakeTimestampDir` follow the code as written. The corrected
definitions, `AndWhereIntended` and `ChoiceIntended`, stand beside them:
- `Where.IntendedElsewhereAsWritten` proves that the correction changes
  nothing outside `"=="`;
- `Where.IntendedEqualityExample` gives `[0]` on the input above.
