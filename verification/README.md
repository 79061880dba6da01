# PPE-Analytics export converter, modelled in Dafny

This project models the conversion core of `ppe_analytics_upload`. That program takes a zip
archive of CSV exports and reads the export date from the name of its `item_list_...` member.
It converts every CSV member to a spreadsheet workbook, stores the workbooks in a second
archive, and renames the source archive after the export date.

The model has three parts:

- **Sheet-paging writer** (`SheetWriter`, `Sanitizer`). `csv2xlsx_filelike` is a pure fold over
  the CSV records. It emits the commands the converter issues to the workbook library:
  add a worksheet, write a row, register a table, autofit, close. `csv2xlsx_from_bytes` and
  `csv2xlsx` repeat the same loop, so this one model covers all three.
  - `Page` is the loop as written, with `ws_count` and `line_count`. `ConvertLoop` is the same
    loop in imperative form.
  - `Layout` and `Render` are an independent description of the intended workbook. The data
    is cut into pages of `limit - 1` records, and each page becomes a sheet headed by the
    header row.
  - `ConvertRenders` proves that the loop issues exactly the commands that build that workbook.
- **Export date** (`ExportDate`, `Decimal`).
  - The pattern `.*_(\d{12,14}).*\.csv`, applied with `findall` and keeping the last match, is
    an explicit scanner. It finds the last underscore that is followed by at least twelve
    digits and, later on the same line, by `.csv`.
  - `strptime` becomes fixed-width fields with a calendar validity check.
  - `strftime("%Y%m%d%H%M%S")` is proved to round-trip with the parser.
- **Archive pipeline** (`Pipeline`). `process_export` is a trace of file-system events:
  create the new archive, store a member, rename. The model keeps these orderings:
  - The date is extracted first.
  - Only `.csv` members are converted, in archive order.
  - The rename is the last event, and happens only when every member converted.

Behaviour of the code worth knowing:

- The illegal-character check uses an anchored `match`. A record is therefore cleaned only
  when some field *starts* with an illegal character. An illegal character later in a field is
  written unchanged (`Sanitizer.AnchoredDetection`).
- Columns are auto-fitted only on the last sheet, not on every sheet.
- The row limit counts the header. Every sheet holds at most `limit - 1` data records.
- The source archive is renamed to a bare name in the working directory, not to a sibling of
  the source. The returned pair holds the source path as given, before the rename.
- An empty CSV text is a failure after `Sheet1` has already been added. `next(reader)` raises
  before any row, table or close.

## Model

| member | source | states |
|---|---|---|
| `Sanitizer.Strip` | ppe_analytics_upload/csv2xlsx.py:13 | removing the pattern's characters (0x00-0x08, 0x0B-0x0C, 0x0E-0x1F) leaves a field with none of them and no longer than before |
| `Sanitizer.StripAppend` | ppe_analytics_upload/csv2xlsx.py:145 | removal distributes over concatenation, so the kept characters stay in their order |
| `Sanitizer.StripCounts` | ppe_analytics_upload/csv2xlsx.py:145 | every legal character occurs after removal exactly as often as before; no illegal one remains |
| `Sanitizer.StripFixesClean` | ppe_analytics_upload/csv2xlsx.py:145 | removal leaves a field unchanged exactly when it holds no illegal character |
| `Sanitizer.StripIdempotent` | ppe_analytics_upload/csv2xlsx.py:145 | removing twice equals removing once |
| `Sanitizer.Sanitize` | ppe_analytics_upload/csv2xlsx.py:141-145 | the written record has the input's field count; it is the input itself unless some field starts with an illegal character, else every field is cleaned; the result never triggers the check again |
| `Sanitizer.SanitizeIdempotent` | ppe_analytics_upload/csv2xlsx.py:141-145 | sanitizing a sanitized record changes nothing |
| `Sanitizer.AnchoredDetection` | ppe_analytics_upload/csv2xlsx.py:141-142 | an illegal character after a field's first position does not trigger cleaning; one at the start of a field cleans every field |
| `SheetWriter.SheetNameInjective` | ppe_analytics_upload/csv2xlsx.py:137-138 | the names `Sheet<k>` of different sheets differ |
| `SheetWriter.Convert` | ppe_analytics_upload/csv2xlsx.py:113-123 | the conversion fails exactly when there is no record; then the only command is adding `Sheet1`; otherwise it starts by adding `Sheet1` and writing the header at row 0 |
| `SheetWriter.PageEnds` | ppe_analytics_upload/csv2xlsx.py:124-159 | from any state, the loop over the remaining records ends by registering a table over the header, then autofit, then close, and issues neither autofit nor close before that |
| `SheetWriter.PageRenders` | ppe_analytics_upload/csv2xlsx.py:124-159 | from any state with `1 <= line_count <= limit`, the loop fills the current sheet up to the limit, registers its table, lays the remaining records out as fresh sheets, fits and closes |
| `SheetWriter.ConvertRenders` | ppe_analytics_upload/csv2xlsx.py:110-159 | for a limit of at least 2 a non-empty conversion issues exactly the commands that build `Layout` sheet by sheet, then autofit and close |
| `SheetWriter.LayoutShape` | ppe_analytics_upload/csv2xlsx.py:121-148 | `max(1, ceil(n/(limit-1)))` sheets named `Sheet1`, `Sheet2`, ... in order; each has the header as row 0 and at most `limit` rows; all but the last exactly `limit`; no empty continuation sheet; the data rows of all sheets, in order, are the sanitized input records |
| `SheetWriter.SingleSheet` | ppe_analytics_upload/csv2xlsx.py:121-148 | when the data fits under the limit the workbook is one sheet: the header, then every sanitized record in order |
| `SheetWriter.RowsFitFormat` | ppe_analytics_upload/csv2xlsx.py:110-111 | with the converter's limit of 1,048,566 rows no sheet reaches the format's 1,048,576-row ceiling |
| `SheetWriter.ConvertTrace` | ppe_analytics_upload/csv2xlsx.py:151-159 | one sheet added and one table registered per sheet; autofit exactly once, right after the last sheet's table; close exactly once, as the last command |
| `SheetWriter.ConvertLoop` | ppe_analytics_upload/csv2xlsx.py:113-159 | the loop with `ws_count` and `line_count` issues the same commands as `Convert`, keeping `1 <= line_count <= limit` |
| `ExportDate.CsvLater` | ppe_analytics_upload/utils.py:36 | `.*\.csv` matches from a position exactly when a `.csv` follows on the same line |
| `ExportDate.LastQualifying` | ppe_analytics_upload/utils.py:36-37 | the backtracking leading `.*` picks the last underscore followed by at least 12 digits and a later `.csv` |
| `ExportDate.DateText` | ppe_analytics_upload/utils.py:36-41 | no match exactly when no underscore qualifies; otherwise the text is 12 to 14 digits right after the last qualifying underscore, the whole digit run or its first 14 digits |
| `ExportDate.ExportNameText` | ppe_analytics_upload/utils.py:36-39 | `item_list_<digits>.csv<tail>` yields exactly its digits for any tail without an underscore, `.bak` included (no end anchor) |
| `ExportDate.Fields` | ppe_analytics_upload/utils.py:42-48 | a two-digit year reads as 1969 to 2068 and a four-digit one as at most 9999; every other field is below 100 |
| `ExportDate.Valid` | ppe_analytics_upload/utils.py:48 | a valid date has a day from 1 to 31; February has at most 29 days and the 29th only in a leap year; no February 30; a 31st only in the seven long months; any day up to the 28th is valid exactly when year, month and time of day are in range |
| `ExportDate.DaysInMonth` | ppe_analytics_upload/utils.py:48 | months have 28 to 31 days, 29 exactly for February of a Gregorian leap year |
| `ExportDate.ParseText` | ppe_analytics_upload/utils.py:42-48 | 13 digits, or fields that do not form a real date and time, fail with a date error; a result is always a valid date read field by field |
| `ExportDate.CenturyExpansion` | ppe_analytics_upload/utils.py:42-45 | 12 digits read the same instant as the same digits behind `20` (two-digit year up to 68) or `19` (otherwise) |
| `ExportDate.ExportDateFromFile` | ppe_analytics_upload/utils.py:21-48 | only date errors; a name without a match fails; a result is valid and comes from the matched 12 or 14 digits; conversely, matched 12 or 14 digits that form a valid date are that result |
| `ExportDate.TwoDigitYearExample` | ppe_analytics_upload/utils.py:36-48 | `item_list_230101120000.csv` gives 2023-01-01 12:00:00 |
| `ExportDate.FourDigitYearExample` | ppe_analytics_upload/utils.py:36-48 | `item_list_20230101120000.csv.bak` gives the same instant |
| `ExportDate.NoTimestampExample` | ppe_analytics_upload/utils.py:36-41 | `item_list_abc.csv` is a date error |
| `ExportDate.ThirteenDigits` | ppe_analytics_upload/utils.py:42-47 | a 13-digit timestamp is a date error |
| `ExportDate.ExtractDate` | ppe_analytics_upload/utils.py:9-18 | a missing-marker error exactly when no name starts with `item_list_`; otherwise the result is the date of the first such name |
| `ExportDate.FirstMarkerDecides` | ppe_analytics_upload/utils.py:12-15 | the names after the first `item_list_` name never change the outcome, even when the first fails to parse |
| `ExportDate.Timestamp` | main.py:71 | the formatted stamp is 14 digits |
| `ExportDate.TimestampOfFourDigitYear` | main.py:71 | formatting a date read from 14 digits returns those digits |
| `ExportDate.TimestampOfTwoDigitYear` | main.py:71 | formatting a date read from 12 digits returns them behind the century `20` or `19` |
| `ExportDate.ParseOfTimestamp` | main.py:71 | reading back the stamp of any valid date gives that date |
| `ExportDate.ExportNameRoundTrip` | ppe_analytics_upload/utils.py:36-48 | the member name `item_list_<stamp>.csv` of any valid date is read back as that date |
| `Pipeline.XlsxName` | main.py:100 | the stored name ends in `.xlsx`, and replacing that ending with `.csv` gives the member's name back |
| `Pipeline.XlsxNameInjective` | main.py:100 | different `.csv` members are stored under different names |
| `Pipeline.ConvertMember` | main.py:86-101 | undecodable bytes fail with an encoding error, an unreadable CSV text with a format error, an empty one with the writer's empty-input error; stored bytes are the serialized commands of the writer run on the decoded, non-empty records with the converter's row limit; decodable, readable, non-empty input always converts |
| `Pipeline.ConvertMemberRenders` | main.py:86-101 | a member that decodes to at least one record is stored as the serialized workbook `Layout` describes, sheet by sheet, then autofit and close |
| `Pipeline.CsvMembers` | main.py:82-85 | exactly the `.csv` members of the archive are selected; a one-member archive gives itself or nothing |
| `Pipeline.CsvMembersAppend` | main.py:82-85 | selection distributes over concatenation, so selected members keep their archive order and multiplicity |
| `Pipeline.ConvertAll` | main.py:82-101 | every event of the loop is a stored member; with no failure one is stored per `.csv` member, after a failure fewer |
| `Pipeline.ConvertAllStores` | main.py:82-101 | `.csv` members are stored in archive order under their `.xlsx` names, others skipped; the loop stops at the first failing member with its error, otherwise all are stored |
| `Pipeline.DateFailureTouchesNothing` | main.py:70-81 | a date failure ends the run before any archive is created, any member converted or anything renamed |
| `Pipeline.ProcessExport` | main.py:64-103 | a date failure is the whole result with no event; otherwise the first event creates the new archive; success exactly when the last event is a rename, and then the pair starts with the source path as given |
| `Pipeline.ConvertArchive` | main.py:72-103 | the new archive `<parent>/PPE-Analytics_fullexport_xlsx_<stamp>.zip` is created first; success exactly when the last event renames the source to `PPE-Analytics_fullexport_csv_<stamp>.zip`; no rename before the last event; success returns the source and the new archive's path |
| `Pipeline.ConvertArchiveEvents` | main.py:72-103 | past the date, the new archive is created first; the rename to the bare `PPE-Analytics_fullexport_csv_<stamp>.zip` is the last event and happens iff every `.csv` member converts; then the result is the pre-rename source path and `<parent>/PPE-Analytics_fullexport_xlsx_<stamp>.zip`; on failure nothing is renamed, only the members before the failing one are stored, and the error is that member's |
| `Pipeline.StampIsExportDigits` | main.py:70-75 | when the first marked member is `item_list_<14 digits>.csv` naming a valid date, both archives carry exactly those digits |

## Left out

- `upload_to_ppe_analytics` (main.py:40-61) is left out. It is an HTTP session, multipart POSTs and reading `config.toml`: network and file I/O.
- `main` and `no_gui` in main.py, `main` in csv2xlsx.py, and build.py are left out. They are argument parsing, file globbing and a packaging script.
- `detect_file_encoding` is left out, together with the encoding-detection branch of `csv2xlsx` and its `IOError`. It is a statistical heuristic and is switched off by default.
- The CSV dialect reader and `splitlines` are not modelled: records come already split. The reader is the `readCsv` parameter of `Pipeline.Codecs`, and it may fail.
- UTF-8 decoding is the `decode` parameter, a partial function. The workbook library's serialization is the `serialize` parameter. Table XML, column-width computation and the binary format are not modelled.
- Writing and reading of zip files, spooled temporary files, the compression mode and the rename system call are not modelled. They appear only as events. The new archive is never explicitly closed in the source; that resource behaviour is left out.
- Logging with `print` and the `silent` flag are left out, because they do not affect the result.
- `ExportDate.DateText`: the pattern's `\d` is modelled as the ASCII digits `0`-`9`. Python's `str` patterns also match other Unicode decimal digits, and those are not modelled.
- `ExportDate.Timestamp`: `%Y` is modelled as four zero-padded digits. Some Python builds print years below 1000 without padding, so for such years the stamp, and `ExportDate.TimestampOfFourDigitYear`, depend on the platform. Years of 1000 or more are unaffected.
- `SheetWriter.LayoutShape`, `SheetWriter.ConvertRenders` and `SheetWriter.SingleSheet` are stated only for row limits of at least 2. With a limit of 1, every record opens a sheet and the first sheet holds only the header. The converter's own limit is 1,048,566.
- Paths are lists of components. The parent of a single-component path is the working directory, and the file-system root is not distinguished.
