# nsaph-cms fixed-width conversion engine, modelled in Dafny

This project models the part of nsaph-cms that turns CMS Medicare and
Medicaid deliveries into loadable data. A delivery is a layout document
(`.fts`) describing fixed-width columns, plus one or more raw data files
(`.dat`).

- `MedicareFile` reads a layout document: the metadata preamble, the separator
  line of dashes that lays out the column template, and the column rows.
- It then decodes every fixed-width record of the `.dat` files. Each record is
  validated against the data set's year and written as a CSV row.
- Records that fail to decode are counted as bad lines.
- The conversion status of a data set (`NONE`, `EMPTY`, `READY`,
  `MISMATCH: l1=>l2`, `ERROR: ...`) is derived from line counts.
- `fts2yaml` turns the layout documents of a Medicaid or Medicare data set into
  a table schema:
  - columns with SQL types;
  - indices;
  - a primary key;
  - the synthetic `FILE` and `RECORD` columns.
- The SAS side walks `<root>/<year>/<type>/<file>.sas7bdat` and registers one
  table per file. It finds the beneficiary, state, zip and year key columns
  among the introspected columns, adding a generated year or an alias where
  needed.
- The two MedPAR converters find the file sets under a directory, infer each
  set's year from its path, and decide which data sets to (re)convert.

Modules, one per source file (plus shared helpers):

| module | file | models |
|---|---|---|
| `Wrappers` | `wrappers.dfy` | `Option` and `Result` |
| `PyText`, `PyPath` | `py_text.dfy`, `py_path.dfy` | the Python string, `int()` and `os.path` operations the core relies on |
| `McrLayout` | `mcr_layout.dfy` | `width`, `ColumnAttribute`, `ColumnDef`, `Column`, `MedicareFile.init`, the record length |
| `McrRecord` | `mcr_record.dfy` | `read_record` and `validate` |
| `McrExport` | `mcr_export.dfy` | the block loop of `export` over one `.dat` file |
| `McrStatus` | `mcr_status.dfy` | the two line counts, `status` and its texts |
| `McrFile` | `mcr_file.dfy` | the `MedicareFile` class: `__init__`, `init`, `export`, `status`, `status_message` |
| `FtsColumns` | `fts_column.dfy` | `ColumnReader`, the FTS columns, `analyze_format`, `to_sql_type`, `column_to_dict`, `to_dict` |
| `FtsSchema` | `fts_schema.dfy` | `CMSFTS.read_file`, `MedicaidFTS`, `MedicareFTS` |
| `McrSas` | `mcr_sas.dfy` | `MedicareSAS.traverse` and `handle_sas_file` |
| `SasRegistry` | `mcr_sas2yaml.dfy` | `SASIntrospector`: `matches`, `handle`, `add_sas_table`, `process` |
| `MedparConverter` | `medpar_converter.dfy` | `MedParFileSet`, `find` and `convert_dataset` of `tools/medpar_converter.py` |
| `CmsMedparConverter` | `cms_medpar_converter.dfy` | `convert_dataset` of `tools/cms/medpar_converter.py` |

Everything the code gets from outside is a parameter of the model:
- The file system is the `Files` value: layout documents as lines, `.dat`
  files as bytes, CSV outputs as text.
- UTF-8 decoding and the date parser are the `Runtime` value.
- The lists `glob` returns are given in the order returned.
- The columns the SAS introspector reports are a map from file to columns.
- For a MedPAR data set, the status text and the outcome of exporting it are
  given.

The export loop can read the same block forever. This happens, for example,
with a record length of 0. The model returns the outcome `Stuck` there, and
`McrExport.ZeroLengthStuck` shows the case happens.

In these places the model follows the code as written:
- A missing year column is not a setup error. `validate` raises an
  `AssertionError` per record, and `export` counts that record as a bad line.
- A field that fails to convert is not rejected on its own. Its raw text is
  written, and only the fourth failing field of a record rejects it.
- A `MISMATCH` data set is skipped by the newer converter like a `READY` one.
  The earlier converter skips nothing.
- The newer converter's skip test compares with the bare word `ERROR`, so a
  data set whose status is `ERROR: ...` is exported again.
  `MedparConverter.ConvertDataset` keeps that behaviour;
  `MedparConverter.ConvertDatasetCorrected` is the intended one (see
  "## Findings").
- The last column of an `.fts` template is open-ended. The `ColumnDef` of
  `mcr_file.py` is not: every span there is closed.
- `analyze_format` calls `x(1)` on a list, so a format with a scale always
  raises. `NUMERIC` never comes out of `to_sql_type`.

## Model

| member | source | states |
|---|---|---|
| `McrLayout.WidthWithScale` | src/python/cms/tools/mcr_file.py:35-39 | `width` reads a formatted `"w.d"` back as exactly that width and scale |
| `McrLayout.WidthWithoutScale` | src/python/cms/tools/mcr_file.py:35-39 | a plain integer reads back as that width with no scale |
| `McrLayout.ArgOf` | src/python/cms/tools/mcr_file.py:54-58 | a `str` attribute always yields its text; only an `int` or `width` conversion can give `None` |
| `McrLayout.MakeColumnDef` | src/python/cms/tools/mcr_file.py:62-77 | a separator line of other than seven tokens raises; otherwise the attributes are the running-offset template of its tokens |
| `McrLayout.OffsetsIncrease` | src/python/cms/tools/mcr_file.py:68-77 | the template's spans are increasing and pairwise disjoint |
| `McrLayout.OffsetCutsToken` | src/python/cms/tools/mcr_file.py:68-77 | each span lies inside the separator line and cuts exactly its own token out of it |
| `McrLayout.TemplateOfSeparator` | src/python/cms/tools/mcr_file.py:68-77 | the spans of a separator line's template are increasing and pairwise disjoint, and each cuts its own token back out of the line |
| `McrLayout.TemplateRoundTrip` | src/python/cms/tools/mcr_file.py:68-77 | slicing the separator line with the span of token `i` of its own template gives back token `i` |
| `McrLayout.NewColumn` | src/python/cms/tools/mcr_file.py:84-94 | a column is built exactly when start and width convert; its start is 0-based, `end - start` is the width, name, type and scale come from the row |
| `McrLayout.HeaderEnd` | src/python/cms/tools/mcr_file.py:136-139 | the preamble loop stops at the first separator line, or at the last line when there is none |
| `McrLayout.MetadataKeys` | src/python/cms/tools/mcr_file.py:140-142 | the metadata keys are exactly the texts before the first colon of the preamble lines holding one |
| `McrLayout.MetadataLastWins` | src/python/cms/tools/mcr_file.py:140-142 | a key takes its value from the last preamble line carrying it |
| `McrLayout.RowsEnd` | src/python/cms/tools/mcr_file.py:145-153 | the column rows end at the first later line holding "End of Document", blank, or starting "Note:", else at the end of the document |
| `McrLayout.InsertLength` | src/python/cms/tools/mcr_file.py:155 | assigning into the ordered dictionary keeps the size for a known name and grows it by one for a new one |
| `McrLayout.InsertKeepsUnique` | src/python/cms/tools/mcr_file.py:155 | an assignment keeps short names unique, keeps every other name at its place, and makes the new column the one under its name |
| `McrLayout.AssignKeyedByName` | src/python/cms/tools/mcr_file.py:145-155 | after the row loop the short names are unique, there are at most as many columns as rows, and the last row read is kept under its name |
| `McrLayout.AssignKeepsLatest` | src/python/cms/tools/mcr_file.py:145-155 | after the row loop every row's column is found under its short name, the last row carrying a name is the column kept under it, and every kept column is one of the rows read |
| `McrLayout.AssignErrorPersists` | src/python/cms/tools/mcr_file.py:145-155 | once a row fails to read, the rows after it change nothing |
| `McrLayout.AssignErrorFromRow` | src/python/cms/tools/mcr_file.py:154-155 | the error that aborts the row loop is one row's own error |
| `McrLayout.ParseLayoutErrors` | src/python/cms/tools/mcr_file.py:133-155 | `init` fails only for an empty document, a separator line without seven tokens, or a row whose start or width does not convert |
| `McrLayout.ColumnsKeyedByName` | src/python/cms/tools/mcr_file.py:145-155 | the rows of a document give uniquely named columns, no more than the rows, each row's short name present, the last row of each name kept under it, and only rows kept |
| `McrLayout.DropCommas` | src/python/cms/tools/mcr_file.py:125-127 | the result holds no comma, and a comma-free text is left as it is |
| `McrLayout.DropCommasAppend` | src/python/cms/tools/mcr_file.py:125-127 | `replace(',', '')` works piece by piece over a concatenation, so every other character is kept in order |
| `McrLayout.DropCommasChar` | src/python/cms/tools/mcr_file.py:125-127 | a single character is dropped exactly when it is a comma |
| `McrLayout.BlockSizeOf` | src/python/cms/tools/mcr_file.py:123-128 | a layout without the record-length key raises |
| `McrLayout.BlockSizeRoundTrip` | src/python/cms/tools/mcr_file.py:123-128 | a record length written as a number with surrounding whitespace reads back exactly |
| `McrLayout.BlockSizeGroupedRoundTrip` | src/python/cms/tools/mcr_file.py:123-128 | a record length written with a thousands separator, such as `1,234`, with surrounding whitespace, reads back as its digits without the comma |
| `McrRecord.ConvertCases` | src/python/cms/tools/mcr_file.py:167-180 | text fields keep their raw text; blank integers and dates are `None`; an integer fails exactly when `int` rejects it, a date exactly when the parser does |
| `McrRecord.ConvertField` | src/python/cms/tools/mcr_file.py:167-180 | the `try` block computes the conversion `ConvertCases` characterises |
| `McrRecord.SlicePieces` | src/python/cms/tools/mcr_file.py:159-162 | one slice per column, each `data[start:end]` of that column |
| `McrRecord.ReadRecord` | src/python/cms/tools/mcr_file.py:157-190 | the two loops of `read_record` compute the decoded record or the exception `DecodedRecordValues` and `FourthFailureRaises` describe |
| `McrRecord.ReadField` | src/python/cms/tools/mcr_file.py:165-189 | one field of the second loop: decode, convert, or keep the raw text and count the failure |
| `McrRecord.DecodedPrefixValues` | src/python/cms/tools/mcr_file.py:164-189 | a decoded prefix holds one value per column, in order, each the converted value or raw text, with at most three failures |
| `McrRecord.DecodedRecordValues` | src/python/cms/tools/mcr_file.py:157-190 | a returned record has one value per column, each its field's converted value or raw text, and at most three fields failed |
| `McrRecord.FewFailuresTolerated` | src/python/cms/tools/mcr_file.py:181-189 | with every field decodable and every column ordered, up to three failures never raise |
| `McrRecord.ErrorPersists` | src/python/cms/tools/mcr_file.py:164-189 | once a prefix raises, the whole record raises the same exception |
| `McrRecord.FourthFailureRaises` | src/python/cms/tools/mcr_file.py:186-189 | the fourth failing field raises `MedparParseException` at its column's start, whatever follows |
| `McrRecord.FourthFailureAborts` | src/python/cms/tools/mcr_file.py:186-189 | the same stated on field outcomes: a fourth failure aborts at that column |
| `McrRecord.ThreeFailuresTolerated` | src/python/cms/tools/mcr_file.py:181-189 | a record of decodable fields with three failures is returned |
| `McrRecord.ParseErrorAtColumn` | src/python/cms/tools/mcr_file.py:189 | a `MedparParseException` always reports the start of one of the layout's columns |
| `McrRecord.RecordParseErrorAtColumn` | src/python/cms/tools/mcr_file.py:157-190 | the same for the record of a block |
| `McrRecord.YearColumn` | src/python/cms/tools/mcr_file.py:193-199 | `MEDPAR_YR_NUM` wins over `BENE_ENROLLMT_REF_YR`; no year column exactly when neither exists |
| `McrRecord.Validate` | src/python/cms/tools/mcr_file.py:192-200 | a record validates exactly when a year column exists and the value at its order is the file's year text; no year column raises |
| `McrRecord.IntegerYearRejected` | src/python/cms/tools/mcr_file.py:200 | a year decoded as an integer never equals the year text, so such a record is rejected |
| `McrExport.Read` | src/python/cms/tools/mcr_file.py:281 | `read(l)` returns the next `l` bytes, fewer at the end of the file, all of them when `l` is negative |
| `McrExport.BlockAt` | src/python/cms/tools/mcr_file.py:280-281 | the block is a prefix of the unread input, `block_size + 100` long or all that is left |
| `McrExport.ScanFrom` | src/python/cms/tools/mcr_file.py:295-297 | the scan stops at the first CR/LF byte from `pos` on, or at `block_size - 1` when there is none |
| `McrExport.SkipTerminators` | src/python/cms/tools/mcr_file.py:302-303 | the skip moves past exactly a run of CR/LF bytes and stops at the end or at another byte |
| `McrExport.Finish` | src/python/cms/tools/mcr_file.py:302-306 | an iteration that goes on consumes at least one byte and no more than the block |
| `McrExport.Step` | src/python/cms/tools/mcr_file.py:279-306 | one iteration goes on by a positive advance no longer than the input left |
| `McrExport.ExportDat` | src/python/cms/tools/mcr_file.py:277-306 | the `while` loop with its remainder and file position computes the run `ExportTally` and `CleanFileExported` describe |
| `McrExport.Pass` | src/python/cms/tools/mcr_file.py:279-306 | one loop pass keeps remainder and position in step and leaves the rest of the run unchanged |
| `McrExport.Iterate` | src/python/cms/tools/mcr_file.py:280-306 | one loop pass is exactly one `Step` of the run |
| `McrExport.RemainderIsTail` | src/python/cms/tools/mcr_file.py:304 | `block[idx:]` is the input after the bytes the iteration consumed |
| `McrExport.BlockIsTopUp` | src/python/cms/tools/mcr_file.py:280-281 | the remainder plus the top-up read is the block `BlockAt` describes |
| `McrExport.TryBlock` | src/python/cms/tools/mcr_file.py:284-301 | the `try`/`except` of one iteration: write, count as bad, or reject and scan |
| `McrExport.ScanToTerminator` | src/python/cms/tools/mcr_file.py:295-297 | the scan after a parse error is the one `ScanFrom` describes |
| `McrExport.SkipRun` | src/python/cms/tools/mcr_file.py:302-303 | the CR/LF skip loop is the one `SkipTerminators` describes |
| `McrExport.TriedTally` | src/python/cms/tools/mcr_file.py:285-301 | the `try` of an iteration settles at most one record and writes only a good row |
| `McrExport.StepKeepsTally` | src/python/cms/tools/mcr_file.py:279-306 | one step counts its record, writes only good rows and keeps the counters sound |
| `McrExport.RunKeepsTally` | src/python/cms/tools/mcr_file.py:279-306 | over a run the rows are the old ones plus good rows only, one per good record, and every counted record was written or is a bad line |
| `McrExport.ExportTally` | src/python/cms/tools/mcr_file.py:273-306 | for one file every written row is good and the counters agree |
| `McrExport.TriedIndex` | src/python/cms/tools/mcr_file.py:284-301 | with records of two bytes or more, the `try` leaves `idx` inside the block, at 0 only on a CR/LF byte |
| `McrExport.StepConsumes` | src/python/cms/tools/mcr_file.py:302-304 | with such records every completed iteration consumes at least one byte |
| `McrExport.NeverStuck` | src/python/cms/tools/mcr_file.py:279-306 | hence such a file is never read forever |
| `McrExport.ZeroLengthStuck` | src/python/cms/tools/mcr_file.py:280-304 | with a record length of 0 a record not followed by CR/LF leaves `idx` at 0, so the same block is read forever |
| `McrExport.CleanBlock` | src/python/cms/tools/mcr_file.py:280-284 | the block of a framed file holds the first record, its line feed and the next record's first byte |
| `McrExport.CleanStep` | src/python/cms/tools/mcr_file.py:279-306 | one step over a framed file consumes exactly the first record and its line feed, and writes it |
| `McrExport.EmptyRestDone` | src/python/cms/tools/mcr_file.py:282-283 | nothing left to read ends the loop |
| `McrExport.CleanRun` | src/python/cms/tools/mcr_file.py:279-306 | the run over a framed file is the run over the records after the first, once the first is written |
| `McrExport.CleanRowsDecoded` | src/python/cms/tools/mcr_file.py:286-288 | each clean row is the record `read_record` returns for its block |
| `McrExport.CleanFileExported` | src/python/cms/tools/mcr_file.py:271-306 | a file of clean records each followed by a line feed is read to its end, every record written in order, and no bad line |
| `McrStatus.NewlinesAppend` | src/python/cms/tools/mcr_file.py:213-219 | counting line feeds chunk by chunk counts them in the whole file |
| `McrStatus.CountLinesInSource` | src/python/cms/tools/mcr_file.py:202-233 | the chunked loop returns the line feeds of all `.dat` files together |
| `McrStatus.LineEnd` | src/python/cms/tools/mcr_file.py:240-241 | a non-empty text's first line, with its break, is non-empty and inside the text |
| `McrStatus.CountLinesInDest` | src/python/cms/tools/mcr_file.py:235-243 | the loop over the CSV counts its lines |
| `McrStatus.CsvLineCount` | src/python/cms/tools/mcr_file.py:235-243 | for rows that hold no CR or LF, counting the lines of the CSV writer's output gives back the number of rows written |
| `McrStatus.RowEnd` | src/python/cms/tools/mcr_file.py:240-241 | a row without line breaks followed by `\r\n` is one line |
| `McrStatus.ReadyIff` | src/python/cms/tools/mcr_file.py:245-255 | `READY` exactly when both sides are readable, the CSV has a line and the counts agree |
| `McrStatus.MismatchCounts` | src/python/cms/tools/mcr_file.py:252-254 | `MISMATCH` carries both counts, and they differ |
| `McrStatus.EmptyIff` | src/python/cms/tools/mcr_file.py:249-251 | an empty CSV has no line, a non-empty one at least one |
| `McrStatus.StatusRoundTrip` | src/python/cms/tools/mcr_file.py:245-259 | every status text parses back as the status it came from |
| `McrStatus.FailedRoundTrip` | src/python/cms/tools/mcr_file.py:256-259 | an `ERROR: ` text parses back with its message |
| `McrStatus.MismatchRoundTrip` | src/python/cms/tools/mcr_file.py:253-254 | a `MISMATCH` text parses back with its counts |
| `McrStatus.CountsRoundTrip` | src/python/cms/tools/mcr_file.py:254 | the counts formatted `l1=>l2` read back as they were |
| `McrStatus.CountsSplit` | src/python/cms/tools/mcr_file.py:254 | the two counts are cut apart at `=>` |
| `McrFile.SetupMissing` | src/python/cms/tools/mcr_file.py:113-114 | `Not found` is raised exactly when the layout document does not exist |
| `McrFile.SetupYear` | src/python/cms/tools/mcr_file.py:123-131 | a data set that opens has its metadata's record length and the given year, else the last four characters of its name |
| `McrFile.SetupFound` | src/python/cms/tools/mcr_file.py:113-122 | an existing layout document is loaded |
| `McrFile.LoadStops` | src/python/cms/tools/mcr_file.py:122 | a layout document that fails to parse stops the setup with that error |
| `McrFile.LoadGoesOn` | src/python/cms/tools/mcr_file.py:122-131 | a parsed document leaves the record length and the year to the setup |
| `McrFile.MedicareFile.constructor` | src/python/cms/tools/mcr_file.py:103-121 | the paths `__init__` derives (`dest` defaulting to the directory, the `.fts` and `.csv.gz` names), with empty metadata and columns |
| `McrFile.MedicareFile.Open` | src/python/cms/tools/mcr_file.py:101-131 | `__init__` fails exactly as the setup does and otherwise holds the parsed layout, record length and year |
| `McrFile.MedicareFile.Load` | src/python/cms/tools/mcr_file.py:122-131 | `init`, then the record length and the year, or the first error |
| `McrFile.MedicareFile.Finish` | src/python/cms/tools/mcr_file.py:123-131 | the record length and year of a parsed layout, or the error converting them |
| `McrFile.MedicareFile.SetSizes` | src/python/cms/tools/mcr_file.py:128-131 | sets `block_size` and `year` |
| `McrFile.MedicareFile.Init` | src/python/cms/tools/mcr_file.py:133-155 | the preamble and row loops leave exactly the parsed layout's metadata and columns, or its error |
| `McrFile.MedicareFile.ReadRows` | src/python/cms/tools/mcr_file.py:145-155 | the row loop gives the columns of the rows after the separator line |
| `McrFile.MedicareFile.Export` | src/python/cms/tools/mcr_file.py:264-315 | `export` runs the block loop over the `.dat` files in order into one CSV |
| `McrFile.MedicareFile.Status` | src/python/cms/tools/mcr_file.py:245-259 | `status` is the text of the status of the CSV and the `.dat` files |
| `McrFile.MedicareFile.StatusMessage` | src/python/cms/tools/mcr_file.py:261-262 | the layout path, `": "`, then the status |
| `McrFile.ExportGoesOn` | src/python/cms/tools/mcr_file.py:271-306 | after a file read to its end, `export` writes its rows and goes on with the rest |
| `McrFile.ExportRows` | src/python/cms/tools/mcr_file.py:269-306 | `export` writes the rows of the files it read, in order |
| `McrFile.AllRowsGood` | src/python/cms/tools/mcr_file.py:286-288 | rows of files whose rows are all good are all good |
| `McrFile.ExportReadsInOrder` | src/python/cms/tools/mcr_file.py:271-278 | `export` reads the files in order, each through the block loop from fresh counters |
| `McrFile.ExportWritesGoodRows` | src/python/cms/tools/mcr_file.py:264-306 | everything `export` writes has one value per column and the file's year |
| `McrFile.ExportCompletes` | src/python/cms/tools/mcr_file.py:264-315 | `export` completes exactly when it read every file to its end |
| `McrFile.ExportStops` | src/python/cms/tools/mcr_file.py:264-315 | an early stop comes from the last file read, or from the first file that cannot be opened |
| `FtsColumns.ReaderOf` | src/python/cms/fts2yaml.py:62-69 | one span per token of the separator line |
| `FtsColumns.NewColumnReader` | src/python/cms/fts2yaml.py:58-69 | the wrong number of tokens for the dialect raises; otherwise the spans follow with a running offset and the last is open |
| `FtsColumns.JoinLength` | src/python/cms/fts2yaml.py:63-68 | the separator line ends where the last token ends |
| `FtsColumns.InnerCut` | src/python/cms/fts2yaml.py:64-68 | a span before the last cuts its own token out of the separator line |
| `FtsColumns.LastCut` | src/python/cms/fts2yaml.py:69 | the open last span cuts the last token |
| `FtsColumns.ReaderCut` | src/python/cms/fts2yaml.py:62-69 | each span cuts its own token out of the separator line |
| `FtsColumns.ReaderSpans` | src/python/cms/fts2yaml.py:62-69 | the spans start at 0, are one byte apart, only the last is open, and the `int` fields are the dialect's |
| `FtsColumns.ReaderCuts` | src/python/cms/fts2yaml.py:58-69 | each span of a reader built from a separator line cuts its own token out of it |
| `FtsColumns.ArgOf` | src/python/cms/fts2yaml.py:47-51 | a `str` attribute yields the stripped text; an `int` attribute yields `None` where `int` raises |
| `FtsColumns.NewColumn` | src/python/cms/fts2yaml.py:151-177 | a Medicaid row always gives a column; a Medicare row needs integer start and width, and gets a 0-based start with `end = start + width` |
| `FtsColumns.RowOutcome` | src/python/cms/fts2yaml.py:71-73 | a Medicaid row always yields a column; a Medicare row does exactly when its start and width read as integers |
| `FtsColumns.ColumnEquality` | src/python/cms/fts2yaml.py:92-104 | column equality is an equivalence that ignores long name, start and end |
| `FtsColumns.AnalyzeFormat` | src/python/cms/fts2yaml.py:106-127 | no format: numeric with the column's width; a leading digit keeps numeric, a leading letter is dropped and makes it non-numeric; a scale always raises |
| `FtsColumns.AnalyzeFormatRoundTrip` | src/python/cms/fts2yaml.py:106-127 | a format written as a number reads back that width; a letter before it makes it non-numeric; a scale raises |
| `FtsColumns.FormatWidth` | src/python/cms/fts2yaml.py:108-118 | a format of digits is a numeric width, and a non-digit before it makes it non-numeric |
| `FtsColumns.SqlTypeCases` | src/python/cms/fts2yaml.py:129-145 | each SQL type comes from exactly one column type, `NUMERIC` never comes out, and an unknown type raises |
| `FtsColumns.NumColumnTypes` | src/python/cms/fts2yaml.py:137-142 | a `NUM` column with a width format is `INT`, with a letter first a string of that width |
| `FtsColumns.WithSynthetic` | src/python/cms/fts2yaml.py:247-272 | the file column is always appended, then the record column for Medicare and Medicaid `ip`, each ordered by its 1-based position |
| `FtsColumns.ColumnToDict` | src/python/cms/fts2yaml.py:274-286 | the entry has the SQL type and the label, an index for listed columns, and the file source for the original-file column |
| `FtsColumns.FileEntry` | src/python/cms/fts2yaml.py:262-286 | the file column is a 128-character string read from the file name, indexed before loading |
| `FtsColumns.RecordEntry` | src/python/cms/fts2yaml.py:250-286 | the record column is a serial |
| `FtsColumns.EntriesShape` | src/python/cms/fts2yaml.py:288-297 | `to_dict` succeeds exactly when every column has a type, with one entry per column in order under its name |
| `FtsColumns.TableShape` | src/python/cms/fts2yaml.py:288-297 | the same for the table, with the primary key as given and a failure while there are no columns |
| `FtsSchema.ScanEnd` | src/python/cms/fts2yaml.py:212-217 | the separator search stops at the first separator line, else the last line, else 0 |
| `FtsSchema.RowsEndAtTerminator` | src/python/cms/fts2yaml.py:223-233 | the rows end at a line that ends them, inside the document, and nowhere before |
| `FtsSchema.RowsReadInOrder` | src/python/cms/fts2yaml.py:223-233 | the `k`-th row comes from line `i + 1 + k`, which does not end the rows |
| `FtsSchema.NoTerminatorMeansNoEnd` | src/python/cms/fts2yaml.py:223-225 | running off the document means no later line ends the rows |
| `FtsSchema.RowsTerminated` | src/python/cms/fts2yaml.py:222-233 | a document's rows end at a line that ends them |
| `FtsSchema.RowsReadFrom` | src/python/cms/fts2yaml.py:222-233 | the `k`-th column of a document is read from line `i + 1 + k` |
| `FtsSchema.RowsUnterminated` | src/python/cms/fts2yaml.py:223-225 | an `IndexError` past the end means no line after the separator ends the rows |
| `FtsSchema.LocateSeparator` | src/python/cms/fts2yaml.py:210-220 | the reader is built from the separator first; then a separator on the first or last line, or none, raises "not found" |
| `FtsSchema.NotFoundCases` | src/python/cms/fts2yaml.py:212-220 | "not found" means no separator line, or one on the first or last line whose template could be built |
| `FtsSchema.FirstDifference` | src/python/cms/fts2yaml.py:243-245 | the first index from `k` where the layouts differ, with equal columns before it |
| `FtsSchema.ReconcileIff` | src/python/cms/fts2yaml.py:236-245 | reconciling succeeds exactly when nothing was read or the layouts agree column by column, and then keeps what was read; a mismatch names a column that differs |
| `FtsSchema.FindSeparator` | src/python/cms/fts2yaml.py:210-217 | the search loop stops where `ScanEnd` says |
| `FtsSchema.SeparatorIsScanEnd` | src/python/cms/fts2yaml.py:212-216 | the first separator line is where the scan stops |
| `FtsSchema.ReadRows` | src/python/cms/fts2yaml.py:222-233 | the row loop gives the rows `RowsTerminated` and `RowsReadFrom` describe |
| `FtsSchema.EndsRowsAt` | src/python/cms/fts2yaml.py:226-231 | the three stop tests on one line |
| `FtsSchema.ReadRowAt` | src/python/cms/fts2yaml.py:232 | `column_reader.read` on one line |
| `FtsSchema.ReconcileColumns` | src/python/cms/fts2yaml.py:236-245 | the reconciliation loop decides as `ReconcileIff` describes |
| `FtsSchema.MedicareYearKnown` | src/python/cms/fts2yaml.py:344-349 | every Medicare file type has a year column, so the `ValueError` is never raised |
| `FtsSchema.MedicareStateIndexed` | src/python/cms/fts2yaml.py:350-352 | among the indices a Medicare data set adds itself, the state is there for `mbsf_ab` and `mbsf_abcd` and for no other type, and the beneficiary always (with the shared list, a later data set also carries these; see "## Findings") |
| `FtsSchema.MedicaidIndices` | src/python/cms/fts2yaml.py:311-319 | the age group is indexed only for `ps`, the file column always |
| `FtsSchema.IndexList.constructor` | src/python/cms/fts2yaml.py:181-188 | a list of index names holding the given items |
| `FtsSchema.CmsFts.constructor` | src/python/cms/fts2yaml.py:190-202 | a data set with its name, dialect, key and index list, and no columns |
| `FtsSchema.CmsFts.ReadFile` | src/python/cms/fts2yaml.py:207-245 | the first read sets the columns, a later one must agree, and nothing changes when reading raises |
| `FtsSchema.CmsFts.InitFiles` | src/python/cms/fts2yaml.py:321-329 | every document found is read in order, stopping at the first that raises |
| `FtsSchema.ReadAllAgree` | src/python/cms/fts2yaml.py:321-329 | every document read without error has the kept layout, column by column |
| `FtsSchema.SyntheticNonEmpty` | src/python/cms/fts2yaml.py:235 | a document read without error has the synthetic file column, so its layout is never empty |
| `FtsSchema.ReadLaterAgree` | src/python/cms/fts2yaml.py:236-245 | once a layout is kept, later documents leave it and each agrees with it |
| `FtsSchema.NewMedicaid` | src/python/cms/fts2yaml.py:305-319 | the lower-cased name must be `ps` or `ip`; the data set gets the common indices plus its own, and its key |
| `FtsSchema.NewMedicare` | src/python/cms/fts2yaml.py:337-352 | corrected: the name must be a Medicare file type; the key is file and record, and the data set's own indices are the common ones plus beneficiary and year, and the state for `mbsf_ab*` |
| `FtsSchema.NewMedicareShared` | src/python/cms/fts2yaml.py:337-352 | as written: the name must be a Medicare file type, and `+=` and `append` extend the class-level list by the data set's beneficiary, year and state columns, the list every data set of the process holds |
| `FtsSchema.SharedMedicareLeak` | src/python/cms/fts2yaml.py:337-352 | as written, building `mbsf_ab` and then `medpar` in one process leaves `STATE_CD` and `RFRNC_YR` among `medpar`'s indices |
| `FtsSchema.SeparateMedicareIndices` | src/python/cms/fts2yaml.py:337-352 | corrected: with their own lists, `medpar` indexes neither `STATE_CD` nor `RFRNC_YR`, while `mbsf_ab` indexes both |
| `FtsSchema.InitMedicare` | src/python/cms/fts2yaml.py:354-356 | one document, read from the given path |
| `FtsSchema.NewMedicaidShared` | src/python/cms/fts2yaml.py:198 | as written: `self.indices` is the class-level list, so `+=` and `append` extend it for every data set |
| `FtsSchema.SharedIndicesLeak` | src/python/cms/fts2yaml.py:311-319 | with the shared list, `ip` indexes the `ps`-only age group and year; `ps`'s list also gains the `ip` additions, but no emitted table shows that, since `registry.py` dumps `ps` before `ip` is built |
| `FtsSchema.SeparateIndices` | src/python/cms/fts2yaml.py:311-319 | with separate lists, `ip` indexes neither the age group nor `MAX_YR_DT`, and `ps` does not index `YR_NUM` |
| `FtsSchema.SharedIndexMarksAgeGroup` | src/python/cms/fts2yaml.py:279-280 | with the shared list an `ip` age-group column is marked for an index it should not have |
| `McrSas.TableName` | src/python/cms/tools/mcr_sas.py:58-63 | `mcr_bene_<year>` for `denominator`, `mcr_ip_<year>` for `inpatient`, none for anything else |
| `McrSas.HandleSasFile` | src/python/cms/tools/mcr_sas.py:48-65 | the table, file, type and year passed to `handle`, or the first error raised |
| `McrSas.HandleSasFileCases` | src/python/cms/tools/mcr_sas.py:48-65 | a file is handled exactly when its year directory passes the ambiguity test and parses, and its type is known; the year is the parsed directory |
| `McrSas.AllFileHasYear` | src/python/cms/tools/mcr_sas.py:52-57 | in the `all_file` warning case `int()` never fails |
| `McrSas.TableNameYear` | src/python/cms/tools/mcr_sas.py:58-61 | the year reads back from the table name, so two years give different tables |
| `McrSas.HandleLaidOut` | src/python/cms/tools/mcr_sas.py:48-65 | a file at `<root>/<year>/<type>/<name>` whose name holds the year goes to that year's table for its type |
| `McrSas.Dispatch` | src/python/cms/tools/mcr_sas.py:41-45 | a SAS file goes to `handle_sas_file`, any other file raises |
| `McrSas.Run` | src/python/cms/tools/mcr_sas.py:41-45 | the values before the first error, and that error |
| `McrSas.RunInOrder` | src/python/cms/tools/mcr_sas.py:41-45 | the values collected are the outcomes at the same positions |
| `McrSas.RunStops` | src/python/cms/tools/mcr_sas.py:41-45 | the run stops at the first error with that error, and completes without one |
| `McrSas.RunAppend` | src/python/cms/tools/mcr_sas.py:39-45 | running two lists one after the other is running their concatenation |
| `McrSas.TraceHandlesInOrder` | src/python/cms/tools/mcr_sas.py:41-45 | every `handle` call is `handle_sas_file`'s outcome for the file at its position, a SAS file |
| `McrSas.TraceStops` | src/python/cms/tools/mcr_sas.py:41-45 | the walk stops at the first file it cannot dispatch, and completes exactly when every file is handled |
| `McrSas.Gather` | src/python/cms/tools/mcr_sas.py:38-40 | the files of every root directory, one list after another |
| `McrSas.DispatchFile` | src/python/cms/tools/mcr_sas.py:42-45 | one dispatch step |
| `McrSas.Traverse` | src/python/cms/tools/mcr_sas.py:33-46 | the `handle` calls and the error of the walk over the gathered files |
| `SasRegistry.StarFreeMatch` | src/python/cms/tools/mcr_sas2yaml.py:51-54 | a candidate without `*` matches exactly itself |
| `SasRegistry.StarMatch` | src/python/cms/tools/mcr_sas2yaml.py:51-54 | a lone `*` matches exactly the texts without a line feed |
| `SasRegistry.PrefixStarMatch` | src/python/cms/tools/mcr_sas2yaml.py:51-54 | `bid_5333*` matches exactly the names starting with `bid_5333` with no line feed after it |
| `SasRegistry.PatternMatchIff` | src/python/cms/tools/mcr_sas2yaml.py:51-54 | the pattern loop succeeds exactly when some candidate with `*` matches |
| `SasRegistry.MatchesIff` | src/python/cms/tools/mcr_sas2yaml.py:47-55 | `matches` holds exactly when some candidate, read as a pattern, matches the whole name |
| `SasRegistry.ExactMatch` | src/python/cms/tools/mcr_sas2yaml.py:49-50 | every text matches itself read as a pattern |
| `SasRegistry.AnyMatchIff` | src/python/cms/tools/mcr_sas2yaml.py:47-55 | the pattern test over all candidates finds a matching one |
| `SasRegistry.MatchesAny` | src/python/cms/tools/mcr_sas2yaml.py:47-55 | `matches` is the pattern test over all candidates |
| `SasRegistry.BindRow` | src/python/cms/tools/mcr_sas2yaml.py:86-93 | the inner loop binds every matched key, and fails on a key bound already |
| `SasRegistry.Bind` | src/python/cms/tools/mcr_sas2yaml.py:81-93 | the bindings after every column, or the key of the first clash |
| `SasRegistry.BindRowSpec` | src/python/cms/tools/mcr_sas2yaml.py:86-93 | one row binds every key it matches and fails exactly on one bound before |
| `SasRegistry.BindOk` | src/python/cms/tools/mcr_sas2yaml.py:81-93 | on success every key is bound to its one candidate column, if any |
| `SasRegistry.BindErr` | src/python/cms/tools/mcr_sas2yaml.py:89-91 | on failure the key named has two candidate columns |
| `SasRegistry.BindIff` | src/python/cms/tools/mcr_sas2yaml.py:81-93 | binding succeeds exactly when no key has two candidate columns |
| `SasRegistry.MarkColumnIs` | src/python/cms/tools/mcr_sas2yaml.py:94-95 | a column is indexed exactly when `index_all` holds and it is no key's candidate |
| `SasRegistry.KeyStep` | src/python/cms/tools/mcr_sas2yaml.py:97-133 | an unbound year is generated, any other unbound key raises, a key of its own name is indexed, another name gets an alias |
| `SasRegistry.Finish` | src/python/cms/tools/mcr_sas2yaml.py:97-133 | the columns after the second loop over the first keys, or the first missing key |
| `SasRegistry.FinishErr` | src/python/cms/tools/mcr_sas2yaml.py:99-116 | the second loop fails exactly on the first unbound key other than the year |
| `SasRegistry.FinishKeeps` | src/python/cms/tools/mcr_sas2yaml.py:117-120 | the second loop keeps every column in place, changing only the index of a key of its own name |
| `SasRegistry.FinishAdds` | src/python/cms/tools/mcr_sas2yaml.py:99-133 | an unbound year gets the generated column and a key under another name gets its alias |
| `SasRegistry.FinishOnlyAdds` | src/python/cms/tools/mcr_sas2yaml.py:99-133 | the second loop appends nothing but the year column and aliases |
| `SasRegistry.SasTableOf` | src/python/cms/tools/mcr_sas2yaml.py:65-161 | the table entry of one file, or the first error raised |
| `SasRegistry.SasTableMultiple` | src/python/cms/tools/mcr_sas2yaml.py:88-91 | "Multiple columns" is raised exactly when some key has two candidates, and names one |
| `SasRegistry.UnboundIffNoCandidate` | src/python/cms/tools/mcr_sas2yaml.py:81-99 | a key is unbound exactly when no column is its candidate |
| `SasRegistry.SasTableOk` | src/python/cms/tools/mcr_sas2yaml.py:65-161 | the table is built exactly when no key has two candidates and the beneficiary, state and zip keys each have one |
| `SasRegistry.SasTableNoColumn` | src/python/cms/tools/mcr_sas2yaml.py:97-116 | a missing beneficiary, state or zip column raises "No column" for the first of them |
| `SasRegistry.OwnCandidate` | src/python/cms/tools/mcr_sas2yaml.py:70-80 | a column named after a key is that key's candidate |
| `SasRegistry.SasTableKeeps` | src/python/cms/tools/mcr_sas2yaml.py:81-120 | the reported columns keep their place and all but the index, which becomes `"true"` for a key-named column and, with `index_all`, for every non-candidate |
| `SasRegistry.SasTableHasKey` | src/python/cms/tools/mcr_sas2yaml.py:97-133 | every key has an indexed column of its own name: found, generated or an alias |
| `SasRegistry.SasTableYear` | src/python/cms/tools/mcr_sas2yaml.py:100-115 | without a year candidate the table gets the generated year column |
| `SasRegistry.SasTableAlias` | src/python/cms/tools/mcr_sas2yaml.py:117-133 | a key whose candidate has another name gets an alias computed as that column |
| `SasRegistry.SasTableOnlyAdds` | src/python/cms/tools/mcr_sas2yaml.py:97-153 | the table holds only the reported columns, the generated ones, then `FILE` and `RECORD` |
| `SasRegistry.BindErrPersists` | src/python/cms/tools/mcr_sas2yaml.py:89-91 | once binding fails, it fails with the same key on every longer prefix |
| `SasRegistry.FinishErrPersists` | src/python/cms/tools/mcr_sas2yaml.py:116 | once the second loop fails, it fails with the same key on all keys |
| `SasRegistry.BindColumn` | src/python/cms/tools/mcr_sas2yaml.py:85-93 | the inner loop for one column is `BindRow` on its tests, and `is_key` says whether any key matched |
| `SasRegistry.BindAll` | src/python/cms/tools/mcr_sas2yaml.py:81-95 | the first loop's bindings and marked columns, or the first clash |
| `SasRegistry.MarkPlain` | src/python/cms/tools/mcr_sas2yaml.py:94-95 | indexes a non-key column when `index_all` holds |
| `SasRegistry.CompleteKeys` | src/python/cms/tools/mcr_sas2yaml.py:97-133 | the second loop computes `Finish` over all four keys |
| `SasRegistry.Register` | src/python/cms/tools/mcr_sas2yaml.py:57-63 | `handle` adds or replaces exactly the file's table, or fails |
| `SasRegistry.RegisterAllKeeps` | src/python/cms/tools/mcr_sas2yaml.py:155-161 | every table already registered stays, unchanged unless a file is dispatched to it |
| `SasRegistry.RegisterAllLastWins` | src/python/cms/tools/mcr_sas2yaml.py:155-161 | each table holds the entry of the last file dispatched to it |
| `SasRegistry.SasIntrospector.constructor` | src/python/cms/tools/mcr_sas2yaml.py:43-45 | a registry holding the given tables |
| `SasRegistry.SasIntrospector.AddSasTable` | src/python/cms/tools/mcr_sas2yaml.py:65-161 | the entry is written under the table name; an error leaves the registry as it was |
| `SasRegistry.SasIntrospector.Handle` | src/python/cms/tools/mcr_sas2yaml.py:57-63 | the registry becomes `Register`'s tables, with `index_all` for denominator files; an error leaves it |
| `SasRegistry.SasIntrospector.Process` | src/python/cms/tools/mcr_sas2yaml.py:35-41 | the tables after `handle` for each dispatched file in turn, and the first error of the walk or the registry |
| `MedparConverter.Insert` | src/python/cms/tools/medpar_converter.py:81-84 | inserting into a sorted list keeps it sorted and one longer |
| `MedparConverter.InsertPermutes` | src/python/cms/tools/medpar_converter.py:81-84 | inserting adds exactly the element |
| `MedparConverter.SortStrings` | src/python/cms/tools/medpar_converter.py:81-87 | `sorted` returns its strings in ascending order |
| `MedparConverter.SortStringsPermutes` | src/python/cms/tools/medpar_converter.py:81-87 | `sorted` returns a permutation of its input |
| `MedparConverter.ScanYear` | src/python/cms/tools/medpar_converter.py:53-60 | the year found is in 2000..2029 or none (identical loop at cms/medpar_converter.py:36-43) |
| `MedparConverter.ScanYearNone` | src/python/cms/tools/medpar_converter.py:53-62 | no year exactly when no path component is a year in range contained in the name |
| `MedparConverter.ScanYearOutermost` | src/python/cms/tools/medpar_converter.py:53-60 | the year is that of the outermost qualifying path component |
| `MedparConverter.InferYear` | src/python/cms/tools/medpar_converter.py:53-60 | the loop over the path components computes `ScanYear`, stopping where `split` no longer shortens the path |
| `MedparConverter.SlashesLoop` | src/python/cms/tools/medpar_converter.py:53-55 | as written, a directory of four or more slashes never shortens, so the loop never ends |
| `MedparConverter.RootSlashesLoop` | src/python/cms/tools/medpar_converter.py:53-55 | `////` is such a directory |
| `MedparConverter.ScanAsWrittenAgrees` | src/python/cms/tools/medpar_converter.py:53-60 | where the loop as written ends it finds `ScanYear`'s year; without slashes it always ends |
| `MedparConverter.FileSetOf` | src/python/cms/tools/medpar_converter.py:46-62 | "Could not find year" exactly when no year is found; a file set's year is in range |
| `MedparConverter.NewFileSet` | src/python/cms/tools/medpar_converter.py:47-62 | the constructor builds `FileSetOf`'s file set or raises its error |
| `MedparConverter.FileSetYear` | src/python/cms/tools/medpar_converter.py:53-60 | a file set's year is the value of the outermost qualifying component |
| `MedparConverter.FtsFiles` | src/python/cms/tools/medpar_converter.py:81-84 | the listed `.fts` files, exactly |
| `MedparConverter.DatFiles` | src/python/cms/tools/medpar_converter.py:86-87 | the listed `.dat` files of the base name, exactly |
| `MedparConverter.DatForIs` | src/python/cms/tools/medpar_converter.py:86-87 | a layout's data files are sorted and are exactly the listed `<base>*.dat` files |
| `MedparConverter.LayoutsAre` | src/python/cms/tools/medpar_converter.py:81-84 | the layouts are sorted and are exactly the listed `.fts` files |
| `MedparConverter.Collect` | src/python/cms/tools/medpar_converter.py:85-94 | the values of the outcomes, or the first error |
| `MedparConverter.CollectOk` | src/python/cms/tools/medpar_converter.py:85-94 | success means every outcome succeeded, the values in order |
| `MedparConverter.CollectErr` | src/python/cms/tools/medpar_converter.py:85-94 | failure is the first failing outcome's error |
| `MedparConverter.FindOk` | src/python/cms/tools/medpar_converter.py:79-94 | each data set found is a listed layout, in sorted order, with its sorted non-empty data files and a year in range |
| `MedparConverter.FindCount` | src/python/cms/tools/medpar_converter.py:79-94 | one data set per layout |
| `MedparConverter.FindErr` | src/python/cms/tools/medpar_converter.py:79-94 | `find` fails exactly when some layout fails, with the first failure |
| `MedparConverter.MismatchFirst` | src/python/cms/tools/medpar_converter.py:88-92 | `Mismatch` for a layout exactly when no listed file is one of its `.dat` files |
| `MedparConverter.FindOne` | src/python/cms/tools/medpar_converter.py:86-93 | one step of the `find` loop |
| `MedparConverter.FindDatasets` | src/python/cms/tools/medpar_converter.py:79-94 | the loop computes `Find`, which `FindOk`, `FindErr` and `MismatchFirst` characterise (identical loop at cms/medpar_converter.py:54-67) |
| `MedparConverter.ReaderDestination` | src/python/cms/tools/medpar_converter.py:63-68 | the reader writes to `<basepath>/<year>`, and the year text reads back as the year |
| `MedparConverter.ErrorStatusNotSkipped` | src/python/cms/tools/medpar_converter.py:108 | as written, an `ERROR: ...` status is not skipped |
| `MedparConverter.SkippedIff` | src/python/cms/tools/medpar_converter.py:108 | corrected: a status is skipped exactly when it is not `NONE` or `EMPTY` |
| `MedparConverter.SkippedAsWrittenIff` | src/python/cms/tools/medpar_converter.py:108 | as written, a status is skipped exactly when it is `READY`, a `MISMATCH`, or an error whose message mentions `MISMATCH` |
| `MedparConverter.ConvertDataset` | src/python/cms/tools/medpar_converter.py:104-115 | as written: skipped exactly when the status passes `status in ["READY", "ERROR"] or "MISMATCH" in status`, keeping the status; success exactly when not skipped and the export returns; FAILED when the status or the export raises |
| `MedparConverter.ErrorStatusExported` | src/python/cms/tools/medpar_converter.py:104-115 | as written, a data set whose status is `ERROR: ` and a message without `MISMATCH` is exported again, giving SUCCESS or FAILED |
| `MedparConverter.ConvertsAsWritten` | src/python/cms/tools/medpar_converter.py:104-115 | as written, only a `READY` or `MISMATCH` data set (or an error mentioning `MISMATCH`) is skipped; every other one is exported |
| `MedparConverter.ConvertDatasetCorrected` | src/python/cms/tools/medpar_converter.py:104-115 | corrected: the same decision with the intended skip test (`READY`, any `ERROR...`, or `MISMATCH`) |
| `MedparConverter.ConvertsOnlyUndone` | src/python/cms/tools/medpar_converter.py:104-115 | corrected: only a `NONE` or `EMPTY` data set is exported |
| `CmsMedparConverter.ConvertDataset` | src/python/cms/tools/cms/medpar_converter.py:77-90 | the reader has the data set's directory and name, writes to `<path>/<year>`; nothing is skipped; success exactly when the export returns |
| `CmsMedparConverter.ReconvertsReady` | src/python/cms/tools/cms/medpar_converter.py:77-90 | a `READY` data set is skipped by the newer converter but converted again here, as if never converted |

## Left out

- Logging, `print`, progress timers and `run.log` are not modelled, because they do not change what is computed.
- `gzip`, `csv` and `shutil` I/O is not modelled. The CSV writer is the list of rows it receives, and the line count reads a given text.
- `MedicareFile.info`, `__str__`, `list` and the `__main__` blocks are not modelled. They only print.
- `glob` is not modelled. Its result is given in the order returned, and the model does not check that base names hold no glob metacharacters.
- The `ThreadPoolExecutor` in `convert` and `status` is not modelled. It runs data sets concurrently and prints results in completion order. The model decides each data set on its own.
- The `Medpar` reader class is not part of this model. The MedPAR converters take its status text and its export outcome as inputs.
- `McrStatus.CsvLineCount`: holds only for rows without CR or LF. No member ties the rows of a `Tally` to that text: an exported `Text` value may hold bytes 10 or 13, and `QUOTE_MINIMAL` then quotes it over several lines, so `count_lines_in_dest` counts more lines than rows written.
- `MedparConverter.FindErr`: `MedParFileSet.__init__` also constructs a `Medpar` reader (medpar_converter.py:63-68, reached from line 93); the model takes that construction to succeed, so an exception it raises is not among the errors of `find`.
- `MedparConverter.FindDatasets`: likewise takes the `Medpar` construction in each `MedParFileSet` to succeed.
- `CmsMedparConverter.ConvertDataset`: building `Medpar` there happens outside the `try`, so a constructor exception escapes `convert_dataset`; the model takes construction to succeed.
- The introspector of SAS files (`nsaph.loader.introspector`) is not part of this model. Its columns are given per file, with `split` taken as name and attributes.
- The registry document is not modelled. Loading and saving it (`MedicareRegistry`, YAML dump) are outside the model, and so are domain nesting and key order.
- PostgreSQL type names (`PG_INT_TYPE`, `PG_SERIAL_TYPE`, ...) are opaque strings.
- `SasRegistry.MatchesIff`: `re.fullmatch` is modelled only for the metacharacter `*`, the only one the candidate lists use.
- `str.isdigit` and `int()` are modelled for ASCII digits only, and `str.upper`/`str.lower` (`PyText.Upper`, `PyText.Lower`) for ASCII letters only: Python maps other Unicode letters too, such as `ß` to `SS`.
- `PyText` and `PyPath`: `os.path` is modelled for POSIX paths only.
- `McrExport.ExportDat`: where the source reads the same block forever, the model stops with the `Stuck` outcome.
- The date parser and UTF-8 decoding are parameters. The value a date parses to is kept as its text.

## Findings

| source | as written | input that shows it | evidently intended | confidence | as-written member | corrected member |
|---|---|---|---|---|---|---|
| src/python/cms/fts2yaml.py:198 | `self.indices = self.common_indices`, and `+=`/`append` then mutate the class-level list | `MedicaidFTS("ps")` then `MedicaidFTS("ip")` in one process, as `update_medicaid` does: the `ip` table indexes `EL_AGE_GRP_CD` and `MAX_YR_DT` (the `ps` table is emitted before `ip` is built, so it is unaffected) | each data set extends its own copy of the common indices | not executed | `FtsSchema.SharedIndicesLeak` | `FtsSchema.SeparateIndices` |
| src/python/cms/fts2yaml.py:350-352 | `self.indices += [...]` and `self.indices.append("STATE_CD")` extend the class-level list inherited from line 198 | `MedicareFTS("mbsf_ab")` then `MedicareFTS("medpar")` in one process: `medpar`'s indices hold `STATE_CD` and `RFRNC_YR` (`registry.update_medicare` builds one data set per process, so it is not affected) | each data set extends its own copy of the common indices | not executed | `FtsSchema.SharedMedicareLeak` | `FtsSchema.SeparateMedicareIndices` |
| src/python/cms/tools/medpar_converter.py:108 | `status in ["READY", "ERROR"]` compares with the bare word, while `status()` returns `"ERROR: " + message` | a data set whose status is `ERROR: permission denied` is exported again | skip any status starting with `ERROR` | not executed | `MedparConverter.ErrorStatusExported` | `MedparConverter.ConvertsOnlyUndone` |
| src/python/cms/tools/medpar_converter.py:53-60 | `while len(d) > 3: d, e = os.path.split(d)` | a layout directory `////`: `split` returns it unchanged and the loop never ends | stop when `split` no longer shortens the path | not executed | `MedparConverter.SlashesLoop` | `MedparConverter.InferYear` |
