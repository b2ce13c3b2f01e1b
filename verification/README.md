# Table detection and normalisation, modelled in Dafny

The repository is a chat bot that finds tables pasted into messages and turns each one
into clean CSV with a row count and a column count. The logic all sits in one class,
`TableFormatter`, and there are two versions of it. The current one is
`src/main/tablebeautifier/utils/table_formatter.py`; an older one is kept as
`backup/table_formatter.py`. Both are modelled here, each in its own modules, and they
share the primitives they have in common.

For the current formatter:

- `Detection` holds the line classifier `_looks_like_table_line` and the quick gate
  `is_table_like`.
- `Grouping` holds the block grouper of `process_all_inputs`. It is parameterised by
  the classifier, so both versions use it.
- `Pipeline` holds `process_all_inputs`: the outer-fence strip, then each block
  formatted on its own with per-block failure isolation.
- `_clean_and_format_table` is split by pass:
  - `Cleaning` and `Patterns`: fences, inline code, divider rows and edge pipes;
  - `Separators`: `_detect_delimiter`;
  - `Reading` and `Frames`: the CSV reader as a grid of optional cells, and
    `dropna(axis=1, how="all")`;
  - `Header`: `_first_row_looks_like_header` and column naming;
  - `RowIndex`: `_has_row_index_column` and the inserted "Row" column;
  - `Coercion`: numeric coercion;
  - `Formatter`: the whole pass and its counts.

For the older formatter:

- `BackupDetection` holds its classifier and gate.
- `BackupCleaning` holds its divider filter, edge-pipe strip and `_detect_delimiter`.
- `BackupFormatter` holds its reader, `_detect_header`, naming, index insertion, NaN fill
  and `process_all_inputs`. In this version, one block that cannot be read stops the
  whole scan.

`Text` and `Numbers` model the Python string operations both versions use: `strip`,
`split`, `splitlines`, the `\s{2,}` search and split, `str(n)`, and the decimal-literal
recogniser standing in for `pd.to_numeric`. `Results` holds `Option` and `Result`.

The pandas `DataFrame` is modelled as a rectangle of `Option<string>` cells held column
by column. `None` is NaN. The formatted table is a list of named columns with a row count
and a column count; the CSV text pandas writes from it is not modelled.

The code settles these points as follows:

- `_detect_delimiter` looks at the first non-empty line only, and on a tie it keeps the
  earliest of comma, tab, semicolon and pipe, so comma wins ties.
- No divider line forces a header. The header vote uses the first row alone, and the row
  is a header when at least half of its counted cells read as words.
- The recognised index names are exactly "#", "row" and "id".
- Numeric coercion runs over every column, the inserted "Row" column included.
- A header cell that repeats another is not renamed; only blank header cells get a
  `Column_<n>` placeholder. A missing header cell is named "nan".
- A missing cell reaches numeric coercion as the text "nan", so it counts as a
  non-empty cell that is not a number in the 60% vote, and a text column shows "nan"
  there.
- The whitespace-run separator is a regex, so pandas' python engine splits each line
  with its outer whitespace stripped; an indented line has as many fields as the others.

Some behaviour the proofs bring out, all as written in the code:

- The current classifier decides any line that holds a pipe by its pipe cells alone.
  The older one does that only for lines that begin and end with a pipe, so two cells
  around a single pipe, such as "a|b", make a table line for the current one and not
  for the older one.
- The older divider filter matches only the start of a line. It therefore also drops a
  data row whose first cell is a lone dash, such as "| - | 5 |".
- The older header vote divides by the full row width, so missing cells count against
  a header: a title word over two or more missing cells is data there and a header for
  the current vote, which leaves missing cells out.
- The older separator search runs over the whole text, line breaks included. A space at
  the end of a line is enough to make the whitespace-run separator win over commas.

## Model

| member | source | states |
|---|---|---|
| Detection.ClassifierSeesStripped | src/main/tablebeautifier/utils/table_formatter.py:159-161 | A line and its stripped form are classified alike. |
| Detection.DelimiterGuardRedundant | src/main/tablebeautifier/utils/table_formatter.py:172-178 | The "at least two delimiters" guard adds nothing. Three non-empty cells between delimiters already imply two delimiters, in both directions. |
| Detection.MultiSpaceGuardRedundant | src/main/tablebeautifier/utils/table_formatter.py:181-184 | The whitespace-run rule holds exactly when splitting on runs gives at least three non-empty parts. |
| Detection.PlainTextIsNotTableLine | src/main/tablebeautifier/utils/table_formatter.py:151-186 | A line with no comma, tab, semicolon, pipe or whitespace run is never a table line. |
| Detection.DelimitedCellsAreTableLine | src/main/tablebeautifier/utils/table_formatter.py:171-178 | Three or more trimmed cells joined by a comma, tab or semicolon they do not contain always make a table line. |
| Detection.PipeCellsAreTableLine | src/main/tablebeautifier/utils/table_formatter.py:163-169 | Two or more trimmed pipe-free cells joined by pipes always make a table line. |
| Detection.EdgePipesAbsent | src/main/tablebeautifier/utils/table_formatter.py:166-167 | The edge-pipe substitutions leave a trimmed line alone when it neither starts nor ends with a pipe. |
| Detection.UniformDelimiterIsTableLike | src/main/tablebeautifier/utils/table_formatter.py:59-67 | If every gate line has at least two of one delimiter, the text is table-like. |
| Detection.BlankHasNoGateLines | src/main/tablebeautifier/utils/table_formatter.py:46-55 | Blank text yields no gate lines. |
| Detection.Needed | src/main/tablebeautifier/utils/table_formatter.py:65-66 | The threshold is `max(1, n // 2)`: at least one, at least half the sample rounded down, and equal to one of the two. |
| Detection.NoSignalIsNotTableLike | src/main/tablebeautifier/utils/table_formatter.py:59-78 | When no sampled line holds a delimiter twice or a whitespace run, and the first two lines are not a pipe header over a divider, the text is not table-like. |
| Detection.FenceInvariant | src/main/tablebeautifier/utils/table_formatter.py:46-57 | Wrapping text in a code fence leaves the answer unchanged, when the text is not itself fenced. |
| Grouping.Group | src/main/tablebeautifier/utils/table_formatter.py:103-127 | Grouping loses, reorders and duplicates no line. Each block is a non-empty run of table lines after context lines that hold none. Blocks after the first have context, and trailing lines hold no table line. |
| Grouping.PartitionUnique | src/main/tablebeautifier/utils/table_formatter.py:110-127 | Any two splits of the same lines that meet those rules are equal. |
| Grouping.GroupIsThePartition | src/main/tablebeautifier/utils/table_formatter.py:111-127 | Any split meeting the rules is what the grouper computes. |
| Grouping.NoBlocksIffNoTable | src/main/tablebeautifier/utils/table_formatter.py:124-127 | There are no blocks exactly when no line is a table line. |
| Grouping.AfterFirstBlock | src/main/tablebeautifier/utils/table_formatter.py:113-121 | After the first block's context and rows, the rest starts with a non-table line and is itself a valid split. |
| Pipeline.OutputOfPartition | src/main/tablebeautifier/utils/table_formatter.py:96-146 | The output is determined by the unique split of the unfenced lines: any valid split gives the same result. |
| Pipeline.NoTableLines | src/main/tablebeautifier/utils/table_formatter.py:123-127 | A message with no table line comes back whole, joined and stripped, as the final context. |
| Pipeline.CollectFrom | src/main/tablebeautifier/utils/table_formatter.py:129-143 | Every table returned comes from a block that formatted, with that block's own stripped context. Every text returned comes from a block whose formatting raised. |
| Pipeline.CollectAllOk | src/main/tablebeautifier/utils/table_formatter.py:131-134 | When every block formats, all tables come back in block order and no failure text is added. |
| Pipeline.CollectIsolation | src/main/tablebeautifier/utils/table_formatter.py:131-143 | A block that raises adds its raw text to the trailing list and leaves the tables already collected unchanged. A block that formats only appends its table. |
| Pipeline.AllBlocksFormat | src/main/tablebeautifier/utils/table_formatter.py:129-134 | If every block formats, the results are exactly the blocks' tables in order. |
| Pipeline.ProcessBlocks | src/main/tablebeautifier/utils/table_formatter.py:129-143 | Each block adds exactly one entry, either a table or a failure text. |
| Patterns.StripLeadingPipe | src/main/tablebeautifier/utils/table_formatter.py:24 | A line whose first non-space is a pipe loses exactly whitespace, one pipe and whitespace from the front. Any other line is unchanged. |
| Patterns.StripTrailingPipe | src/main/tablebeautifier/utils/table_formatter.py:25 | The same at the back of the line. |
| Patterns.RemoveInlineCode | src/main/tablebeautifier/utils/table_formatter.py:27 | Removing inline code keeps every non-backtick character in order. Only an unpaired final backtick survives. |
| Cleaning.UnfenceWrapped | src/main/tablebeautifier/utils/table_formatter.py:197-200 | A block wrapped in fences gives back exactly its inner text. |
| Cleaning.UnfenceNoBacktick | src/main/tablebeautifier/utils/table_formatter.py:199-200 | A block with no backtick is not changed by the fence removal. |
| Cleaning.NoInlineCode | src/main/tablebeautifier/utils/table_formatter.py:202 | Text with no backtick is not changed by the inline-code removal. |
| Cleaning.EdgePipesOfPipeFree | src/main/tablebeautifier/utils/table_formatter.py:209-211 | A pipe-free line is not changed by the edge-pipe removal. |
| Cleaning.TableText | src/main/tablebeautifier/utils/table_formatter.py:213-214 | The text handed to the reader is empty or has no whitespace at either end. |
| Cleaning.DividersOnlyIsEmpty | src/main/tablebeautifier/utils/table_formatter.py:206-216 | A block made only of divider rows leaves no text. |
| Cleaning.PlainBlockUnchanged | src/main/tablebeautifier/utils/table_formatter.py:197-214 | A block with no backtick, pipe or divider reaches the reader as its stripped self. |
| Separators.DetectDelimiter | src/main/tablebeautifier/utils/table_formatter.py:311-340 | Whitespace runs are chosen exactly when the first content line has a run and no delimiter occurs twice. Otherwise the choice occurs most often, and every delimiter earlier in order occurs strictly less. |
| Separators.DelimiterUnique | src/main/tablebeautifier/utils/table_formatter.py:335-338 | At most one delimiter meets the most-and-earliest rule. |
| Separators.NoSeparatorMeansComma | src/main/tablebeautifier/utils/table_formatter.py:337-340 | With no delimiter and no whitespace run on the first content line, the choice is comma. |
| Separators.FieldsOfJoin | src/main/tablebeautifier/utils/table_formatter.py:226-232 | Cutting cells joined by a separator they do not contain gives the cells back. |
| Separators.FieldsOfSpacedLine | src/main/tablebeautifier/utils/table_formatter.py:222-241 | Trimmed cells without whitespace runs, separated by whitespace runs, are cut back into the same cells whatever whitespace surrounds the line. |
| Reading.ReadRowOfJoin | src/main/tablebeautifier/utils/table_formatter.py:226-232 | Trimmed cells joined by a separator are read back as present and unchanged. |
| Reading.ReadRowOfSpacedLine | src/main/tablebeautifier/utils/table_formatter.py:222-241 | Such a line, indented or not, is read as those cells, all present. |
| Reading.ReadGrid | src/main/tablebeautifier/utils/table_formatter.py:226-241 | A grid that is read has one row per non-blank line and all columns the same height. |
| Frames.ToGridCells | src/main/tablebeautifier/utils/table_formatter.py:226-241 | Reading fails exactly when there is no row or a row is wider than the first. Otherwise each field sits at its own row and column, and the padding is missing. |
| Frames.DropEmptyKeepsValued | src/main/tablebeautifier/utils/table_formatter.py:244 | Dropping all-missing columns changes nothing exactly when every column has a value. |
| Frames.DropEmptyIdempotent | src/main/tablebeautifier/utils/table_formatter.py:261 | Dropping empty columns a second time drops nothing more. |
| Frames.DropEmptyNoRows | src/main/tablebeautifier/utils/table_formatter.py:296 | With no rows left, every column is dropped. |
| Header.DigitRowIsData | src/main/tablebeautifier/utils/table_formatter.py:342-375 | A first row whose counted cells all hold a digit is data. |
| Header.WordRowIsHeader | src/main/tablebeautifier/utils/table_formatter.py:361-375 | A first row of counted word-like cells is a header. |
| Header.MixedCodeRowIsData | src/main/tablebeautifier/utils/table_formatter.py:361-375 | The row `alpha-01;150;true` is data: a code with digits and a number do not vote for a header, so one word in three falls short of half. |
| Header.MissingCellIgnored | src/main/tablebeautifier/utils/table_formatter.py:355-358 | A missing cell changes neither the count of cells considered nor the count of word-like cells. |
| Header.PlaceholdersDistinct | src/main/tablebeautifier/utils/table_formatter.py:253 | The `Column_<n>` placeholders of different positions differ. |
| Header.HeaderName | src/main/tablebeautifier/utils/table_formatter.py:251-253 | A header name is never empty and is the stripped cell whenever the cell is present and not blank. |
| Header.PositionalNamesDistinct | src/main/tablebeautifier/utils/table_formatter.py:256-258 | Without a header, the column names are pairwise distinct. |
| RowIndex.WithRowIndex | src/main/tablebeautifier/utils/table_formatter.py:264-266 | The result always has an index column. An existing one is kept unchanged. Insertion adds exactly one column, and fails only when a column elsewhere is already named "Row". |
| RowIndex.InsertRowColumn | src/main/tablebeautifier/utils/table_formatter.py:266 | The "Row" column goes first, with one cell per row, and the other columns follow unchanged. |
| RowIndex.RowNameIsIndexName | src/main/tablebeautifier/utils/table_formatter.py:21 | "Row" is one of the recognised index names. |
| RowIndex.CountingColumnIsIndex | src/main/tablebeautifier/utils/table_formatter.py:391-399 | A first column holding 1..n is taken for an index, whatever its name. |
| RowIndex.RowNumbersCount | src/main/tablebeautifier/utils/table_formatter.py:393-398 | The inserted cells read back as the integers 1..n. |
| RowIndex.WithRowIndexIdempotent | src/main/tablebeautifier/utils/table_formatter.py:264-270 | Numbering a numbered table changes nothing. |
| RowIndex.WithRowIndexShape | src/main/tablebeautifier/utils/table_formatter.py:264-266 | Numbering keeps every column at one cell per row. |
| RowIndex.PresentAll | src/main/tablebeautifier/utils/table_formatter.py:394 | Dropping missing values from an all-present list gives the values back. |
| Numbers.ParseNumber | src/main/tablebeautifier/utils/table_formatter.py:283 | A text reads as a number exactly when, after an optional sign, it is a decimal literal. A digit string reads as its value; a minus gives a value at most zero, and otherwise it is at least zero. |
| Numbers.ParseSigned | src/main/tablebeautifier/utils/table_formatter.py:283 | A leading minus negates the value of the rest and a leading plus changes nothing. |
| Numbers.ParseNatToString | src/main/tablebeautifier/utils/table_formatter.py:393-394 | The text of a natural number reads back as that number. |
| Numbers.NatToStringInjective | src/main/tablebeautifier/utils/table_formatter.py:253 | Different numbers have different texts. |
| Coercion.Coerce | src/main/tablebeautifier/utils/table_formatter.py:273-293 | A column keeps its name and height. A numeric column holds only numbers and missing cells; a text column holds no missing cell. A missing input cell becomes missing in a numeric column and "nan" in a text column. |
| Coercion.MissingCellsKeepText | src/main/tablebeautifier/utils/table_formatter.py:277-290 | Missing cells vote as text: numbers filling less than 60% of a column, the rest missing, leave it text, with "nan" where cells were missing. |
| Coercion.AllNumbersConvert | src/main/tablebeautifier/utils/table_formatter.py:283-288 | A column of numbers turns numeric and keeps each value stripped. |
| Coercion.WordsStayText | src/main/tablebeautifier/utils/table_formatter.py:283-290 | A column whose present cells all hold a letter stays text, stripped, with "nan" for missing cells and "" for blank ones. |
| Coercion.NumericKeepsValue | src/main/tablebeautifier/utils/table_formatter.py:285-288 | A column turned numeric keeps at least one value, so the final drop keeps it. |
| Coercion.RowNumbersNumeric | src/main/tablebeautifier/utils/table_formatter.py:266-288 | The inserted "Row" column turns numeric with its cells unchanged. |
| Coercion.LetterNotNumber | src/main/tablebeautifier/utils/table_formatter.py:283 | Text holding a letter never reads as a number. |
| Formatter.CleanAndFormat | src/main/tablebeautifier/utils/table_formatter.py:191-306 | Empty cleaned text gives `("", 0, 0)`. Failure needs non-empty text and comes from the reader or a clashing "Row" column. Every result has one cell per row in each column, and the row count is zero exactly when the column count is. |
| Formatter.FromGrid | src/main/tablebeautifier/utils/table_formatter.py:248-306 | A read grid fails only on a "Row" clash. Otherwise the row count is the data rows, and the column count is the kept columns plus one unless an index is already there. |
| Formatter.Numbered | src/main/tablebeautifier/utils/table_formatter.py:263-306 | The same counts, stated over the kept named columns. |
| Formatter.Finish | src/main/tablebeautifier/utils/table_formatter.py:295-306 | After coercion and the final drop, every column survives when there is a row, and none does when there is none. |
| Formatter.CoercedShape | src/main/tablebeautifier/utils/table_formatter.py:273-293 | Coercion keeps heights; a numeric column has a value, and a text column has every cell. |
| Formatter.FinalDrop | src/main/tablebeautifier/utils/table_formatter.py:296 | The final drop removes nothing when there is a row, and everything when there is none. |
| Formatter.RowsAreDataLines | src/main/tablebeautifier/utils/table_formatter.py:304 | The row count is the number of non-blank cleaned lines, less one when the first row is the header. |
| Formatter.InsertedRowFirst | src/main/tablebeautifier/utils/table_formatter.py:264-266 | Without an index column, the first output column is "Row" holding 1..n. |
| Formatter.ExistingIndexKept | src/main/tablebeautifier/utils/table_formatter.py:267-270 | With an index column, no column is added and the first column keeps its name. |
| BackupDetection.StripPipesSlice | backup/table_formatter.py:76 | What is left is the text less a run of pipes at each end. |
| BackupDetection.PipeFreeLinesAgree | backup/table_formatter.py:64-93 | On a line without a pipe, the older and the current classifier agree. |
| BackupDetection.SingleCellPipeRow | backup/table_formatter.py:73-77 | A line wrapped in pipes with no pipe inside is never a table line. |
| BackupDetection.DelimitedCellsAreBackupLine | backup/table_formatter.py:79-86 | Three or more trimmed cells joined by any of the four delimiters make a table line. |
| BackupDetection.SinglePipeLine | backup/table_formatter.py:73-86 | Two trimmed cells around a single pipe, holding no comma, tab, semicolon, pipe or whitespace run, make a table line for the current classifier and not for the older one. |
| BackupDetection.BackupGateLines | backup/table_formatter.py:16 | Every gate line is trimmed and non-empty. |
| BackupDetection.FewLinesOneSignal | backup/table_formatter.py:16-25 | With two or three lines, one line holding a comma, tab, pipe or semicolon makes the text table-like. |
| BackupDetection.ProseIsNotTableLike | backup/table_formatter.py:16-25 | Lines with none of those characters and no whitespace run are never table-like. |
| BackupDetection.FewLinesGate | backup/table_formatter.py:16-25 | With two or three lines, the text is table-like exactly when some line holds a comma, tab, pipe, semicolon or whitespace run. |
| BackupCleaning.DividerRowDropped | backup/table_formatter.py:103-106 | One divider row, two dash cells between pipes, is dropped; DashCellOpensDivider states the general case. |
| BackupCleaning.DashCellRowDropped | backup/table_formatter.py:103-106 | A data row opening with a lone-dash cell is dropped too. |
| BackupCleaning.DashCellOpensDivider | backup/table_formatter.py:105 | Any line opening with a pipe, a dash cell and a pipe matches the divider pattern. |
| BackupCleaning.OtherLinesKept | backup/table_formatter.py:105 | A line whose first non-space is not a pipe, colon or dash is kept. |
| BackupCleaning.DividerHasPipe | backup/table_formatter.py:105 | A line matching the divider pattern holds a pipe. |
| BackupCleaning.PipeFreeBlockUnchanged | backup/table_formatter.py:102-112 | A pipe-free block reaches the reader unchanged, less a final newline. |
| BackupCleaning.DividersOnlyLeaveNothing | backup/table_formatter.py:102-112 | A block of divider-opening lines leaves no text. |
| BackupCleaning.PickDelimiter | backup/table_formatter.py:143-156 | Pipe when the text has a pipe; else tab when it has a tab; else semicolon when it has one; else whitespace runs when it has one; else comma. Each choice holds exactly under its condition. |
| BackupCleaning.LineEndSpaceMeansRuns | backup/table_formatter.py:147-154 | A space before a line break makes the whitespace-run separator win over commas. |
| BackupFormatter.RawRowOfJoin | backup/table_formatter.py:115-121 | Non-empty fields joined by a comma, tab or semicolon they do not hold are read back unchanged, spaces included. |
| BackupFormatter.RawPipeRow | backup/table_formatter.py:114-121 | With the pipe, whitespace around the line is not read: pipe-free fields come back as they are, the outer spaces dropped. |
| BackupFormatter.RawSpacedRow | backup/table_formatter.py:114-121 | With whitespace runs, an indented line is read as its cells, like any other. |
| BackupFormatter.DigitFirstRowIsData | backup/table_formatter.py:158-168 | A first row of digit strings and missing cells is not a header. |
| BackupFormatter.WordFirstRowIsHeader | backup/table_formatter.py:158-168 | A first row of present, non-blank, non-numeric cells is a header. |
| BackupFormatter.MissingCellsOutvote | backup/table_formatter.py:162-168 | Missing cells count against a header: a title word over two or more missing cells is data for the older formatter and a header for the current one. |
| BackupFormatter.StringLikeAll | backup/table_formatter.py:165-167 | When every column is text-like in row one, the count is the width. |
| BackupFormatter.StringLikeNone | backup/table_formatter.py:165-167 | When no column is, the count is zero. |
| BackupFormatter.BackupNamed | backup/table_formatter.py:124-128 | Naming keeps the width, and every column holds the data rows: all rows, less the header when there is one. |
| BackupFormatter.AddRowColumn | backup/table_formatter.py:130-132 | The result always has an index-named column. An existing one anywhere keeps the columns unchanged; otherwise "Row" holding 1..n goes first. |
| BackupFormatter.InsertedRowIsUnique | backup/table_formatter.py:132 | The inserted "Row" column is the only one with that name. |
| BackupFormatter.IndexAnywhere | backup/table_formatter.py:170-174 | An "ID" column in last place prevents the insertion. |
| BackupFormatter.FillAllFacts | backup/table_formatter.py:134-135 | Filling keeps names and heights and leaves no missing cell. |
| BackupFormatter.AddRowColumnCells | backup/table_formatter.py:130-132 | Insertion keeps every column at one cell per row. |
| BackupFormatter.AssembledShape | backup/table_formatter.py:130-141 | Numbering and filling give one present cell per row in every column, an index column, and the width plus one unless an index was there. |
| BackupFormatter.FinishedShape | backup/table_formatter.py:123-141 | The counts returned are the data rows and the number of columns, which is the read width plus one unless an index was already named. |
| BackupFormatter.BackupCleanAndFormat | backup/table_formatter.py:102-141 | Formatting fails exactly when the cleaned text cannot be read with the chosen separator. |
| BackupFormatter.DividerOnlyBlockFails | backup/table_formatter.py:102-121 | A block of divider rows leaves nothing to read and fails. |
| BackupFormatter.FormatBlocksOk | backup/table_formatter.py:56-59 | The scan succeeds exactly when every block formats. |
| BackupFormatter.FormatBlocksValues | backup/table_formatter.py:57-59 | On success, the tables are the blocks' results in order, with their contexts. |
| BackupFormatter.FormatBlocksErr | backup/table_formatter.py:56-58 | On failure, the error is that of the first block that fails, and every block before it formats. |
| BackupFormatter.BackupNoTableLines | backup/table_formatter.py:37-62 | A message with no table line comes back whole, stripped, as the remaining text. |
| BackupFormatter.BackupScanOfPartition | backup/table_formatter.py:37-62 | Given the split of the lines, the scan succeeds exactly when every block formats. It then returns one table per block and the stripped trailing lines. |

## Left out

- Slack handlers, the app entry point and logging are not modelled. They are I/O around
  the formatter.
- `format_as_text_table` in both versions is left out. It is a pandas pretty-printer
  used only for display.
- The CSV text written by `to_csv` is left out: quoting, float rendering and the
  stripped trailing newline. The model returns the columns, the row count and the
  column count.
- CSV quoting in `read_csv` is left out, and so is the C-engine-to-Python-engine
  fallback. Fields are cut at every separator.
- `read_csv` turns tokens such as "NA" or "null" into NaN by default. The model treats
  only empty fields as missing.
- Floating point is left out. `pd.to_numeric` is modelled as a decimal-literal
  recogniser; exponents, "inf" and "nan" literals are not numbers here. The 60% and 50%
  ratios are compared exactly in integers.
- Numbers.ParseNumber: keeps only the truncated integer part, which is what the index
  check's `.astype(int)` uses. Fractional values are not kept.
- Character classes are modelled as what Python's `str.isspace` and the source's
  explicit ranges name; `\w` and `\d` are not extended to other Unicode scripts.
- `Detection.DelimiterRule` splits on the bare delimiter rather than on
  `\s*d\s*`. The stripped non-empty cells are the same either way.
- Reading.ReadCell: strips all whitespace from both ends of a field, where the C engine
  and the `csv` module skip only spaces at the front (`skipinitialspace`). Later passes
  strip trailing whitespace again, but a field made only of other whitespace, such as a
  no-break space or a tab under a comma separator, is a present cell for pandas and a
  missing one here. pandas then keeps its column, names it and fills it with "", where
  the model drops it and counts one column fewer.
- Reading.ReadGrid: skips every blank line, and pandas skips fewer. With a comma, tab or
  semicolon separator the C engine skips a line only when it is made of spaces and tabs
  and holds no separator. So under the tab separator a blank line holding a tab is a row
  of missing cells: one example is the "\t\t" that removing inline code leaves of
  "``\t``\t``". A line of other whitespace, such as a no-break space, is a row too. With
  the pipe or the whitespace-run separator the python engine skips every blank line, as
  the model does.
- BackupFormatter.RawGrid: skips every blank line, where the python engine keeps any line
  that splits into more than one field. Under the tab separator a blank line holding a
  tab, as in "a\tb\n\t\nc\td", is therefore a row of missing cells, which the fill turns
  into empty text. Every other blank line is skipped, as here.
- The older formatter's numeric typing of columns is approximated: a column is numeric
  when every present cell, stripped, reads as a number. pandas' own dtype inference
  (booleans, "1.0" renderings of numeric header cells) is not modelled.
- Coercion of duplicate column names, where pandas returns a frame for `df[col]`, is
  not modelled. The model coerces each column on its own.
