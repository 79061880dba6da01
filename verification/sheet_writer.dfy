/** The sheet-paging CSV-to-workbook writer of ppe_analytics_upload/csv2xlsx.py
    (`csv2xlsx_filelike`, whose loop `csv2xlsx_from_bytes` and `csv2xlsx` repeat).
    The workbook library is seen only through the commands the converter issues to it, so a
    conversion is a trace of `Command`s. `Page` is the converter's own loop; `Layout` and
    `Render` describe, independently, the workbook it is meant to produce. */
module SheetWriter {
  import opened Outcomes
  import opened Decimal
  import opened Sanitizer

  /** The destination format's hard row ceiling per sheet. */
  const ExcelRowLimit: nat := 1_048_576
  const RowMargin: nat := 10
  /** `output_file_row_limit`: the rows a sheet may hold, header included. */
  const OutputRowLimit: nat := ExcelRowLimit - RowMargin

  type Record = seq<string>

  /** The calls the converter makes on the workbook and its current sheet. */
  datatype Command =
    | AddWorksheet(name: string)
    | WriteRow(row: nat, col: nat, cells: Record)
    | AddTable(firstRow: nat, firstCol: nat, lastRow: int, lastCol: int, headers: Record)
    | Autofit
    | Close

  datatype Status = Completed | Failed(error: Error)

  /** The commands issued, and whether the conversion returned or raised. */
  datatype Run = Run(trace: seq<Command>, status: Status)

  /** `f"Sheet{ws_count}"`. */
  function SheetName(k: nat): string {
    "Sheet" + Show(k)
  }

  /** Sheet names never repeat. */
  lemma SheetNameInjective(i: nat, j: nat)
    requires SheetName(i) == SheetName(j)
    ensures i == j
  {
    assert SheetName(i)[5..] == Show(i);
    assert SheetName(j)[5..] == Show(j);
    ShowInjective(i, j);
  }

  /** The table registered over rows `0 .. rows - 1` and the header's columns. */
  function Table(header: Record, rows: nat): Command {
    AddTable(0, 0, rows - 1, |header| - 1, header)
  }

  /** The loop over the records after the header. `sheet` is `ws_count` and `line` is
      `line_count`, the next free row of the current sheet. */
  function Page(header: Record, rest: seq<Record>, limit: nat, sheet: nat, line: nat): seq<Command>
    decreases |rest|
  {
    if |rest| == 0 then
      [Table(header, line), Autofit, Close]
    else if line >= limit then
      [Table(header, line), AddWorksheet(SheetName(sheet + 1)), WriteRow(0, 0, header)]
      + ([WriteRow(1, 0, Sanitize(rest[0]))] + Page(header, rest[1..], limit, sheet + 1, 2))
    else
      [WriteRow(line, 0, Sanitize(rest[0]))] + Page(header, rest[1..], limit, sheet, line + 1)
  }

  /** `r` ends by registering a table over `header`, then autofitting and closing, and does
      neither of the last two earlier. */
  predicate EndsOnce(r: seq<Command>, header: Record) {
    && |r| >= 3 && r[|r| - 2..] == [Autofit, Close]
    && r[|r| - 3].AddTable? && r[|r| - 3].headers == header
    && forall i :: 0 <= i < |r| - 2 ==> r[i] != Autofit && r[i] != Close
  }

  lemma EndsOnceAfter(pre: seq<Command>, r: seq<Command>, header: Record)
    requires forall i :: 0 <= i < |pre| ==> pre[i] != Autofit && pre[i] != Close
    requires EndsOnce(r, header)
    ensures EndsOnce(pre + r, header)
  {
    var s := pre + r;
    assert s[|s| - 2..] == r[|r| - 2..];
    assert s[|s| - 3] == r[|r| - 3];
    forall i | 0 <= i < |s| - 2
      ensures s[i] != Autofit && s[i] != Close
    {
      if i >= |pre| {
        assert s[i] == r[i - |pre|];
      }
    }
  }

  /** Whatever the records, the loop ends by adding the last sheet's table over the header
      and then autofitting and closing the workbook, and it does neither of those earlier. */
  lemma {:induction false} PageEnds(header: Record, rest: seq<Record>, limit: nat, sheet: nat, line: nat)
    ensures EndsOnce(Page(header, rest, limit, sheet, line), header)
    decreases |rest|
  {
    if |rest| == 0 {
      assert Page(header, rest, limit, sheet, line) == [Table(header, line), Autofit, Close];
    } else if line >= limit {
      PageEnds(header, rest[1..], limit, sheet + 1, 2);
      var pre := [Table(header, line), AddWorksheet(SheetName(sheet + 1)), WriteRow(0, 0, header)]
                 + [WriteRow(1, 0, Sanitize(rest[0]))];
      var t := Page(header, rest[1..], limit, sheet + 1, 2);
      assert Page(header, rest, limit, sheet, line) == pre + t;
      EndsOnceAfter(pre, t, header);
    } else {
      PageEnds(header, rest[1..], limit, sheet, line + 1);
      var pre := [WriteRow(line, 0, Sanitize(rest[0]))];
      EndsOnceAfter(pre, Page(header, rest[1..], limit, sheet, line + 1), header);
    }
  }

  /** `csv2xlsx_filelike` on already-split records. The first sheet is added before the
      header is read, so an empty input leaves exactly that call behind and fails. */
  function Convert(records: seq<Record>, limit: nat): (r: Run)
    ensures r.status == Completed <==> |records| > 0
    ensures |records| == 0 ==> r.trace == [AddWorksheet(SheetName(1))] && r.status == Failed(EmptyInput)
    ensures |records| > 0 ==> |r.trace| >= 2 && r.trace[..2] == [AddWorksheet(SheetName(1)), WriteRow(0, 0, records[0])]
  {
    if |records| == 0 then
      Run([AddWorksheet(SheetName(1))], Failed(EmptyInput))
    else
      Run([AddWorksheet(SheetName(1)), WriteRow(0, 0, records[0])]
          + Page(records[0], records[1..], limit, 1, 1), Completed)
  }

  // ---------------------------------------------------------------------------------------
  // The intended workbook, stated independently of the loop.

  /** One sheet as it ends up in the workbook: its name and its rows from row 0 on. */
  datatype Sheet = Sheet(name: string, rows: seq<Record>)

  /** `xs` cut into consecutive pages of `size` elements; the last page holds the rest and
      is empty only when `xs` is. */
  function Chunks<T>(xs: seq<T>, size: nat): (pages: seq<seq<T>>)
    requires size >= 1
    ensures |pages| >= 1
    decreases |xs|
  {
    if |xs| <= size then [xs] else [xs[..size]] + Chunks(xs[size..], size)
  }

  function Flatten<T>(pages: seq<seq<T>>): seq<T> {
    if |pages| == 0 then [] else pages[0] + Flatten(pages[1..])
  }

  function SanitizeAll(recs: seq<Record>): (r: seq<Record>)
    ensures |r| == |recs|
    ensures forall i :: 0 <= i < |recs| ==> r[i] == Sanitize(recs[i])
  {
    seq(|recs|, i requires 0 <= i < |recs| => Sanitize(recs[i]))
  }

  /** Pages of data as sheets named from `first` on, each headed by the header row. */
  function Sheets(header: Record, pages: seq<seq<Record>>, first: nat): (sheets: seq<Sheet>)
    ensures |sheets| == |pages|
    ensures forall i :: 0 <= i < |pages| ==>
      sheets[i] == Sheet(SheetName(first + i), [header] + SanitizeAll(pages[i]))
  {
    seq(|pages|, i requires 0 <= i < |pages| => Sheet(SheetName(first + i), [header] + SanitizeAll(pages[i])))
  }

  /** The workbook a conversion with row limit `limit` should produce. */
  function Layout(header: Record, data: seq<Record>, limit: nat): seq<Sheet>
    requires limit >= 2
  {
    Sheets(header, Chunks(data, limit - 1), 1)
  }

  function WriteRows(rows: seq<Record>, start: nat): seq<Command> {
    if |rows| == 0 then [] else [WriteRow(start, 0, rows[0])] + WriteRows(rows[1..], start + 1)
  }

  /** The commands that build `sheets` in order: each sheet added, its rows written from
      row 0 and a table registered over exactly those rows. */
  function Render(header: Record, sheets: seq<Sheet>): seq<Command> {
    if |sheets| == 0 then []
    else
      [AddWorksheet(sheets[0].name)] + WriteRows(sheets[0].rows, 0)
      + [Table(header, |sheets[0].rows|)] + Render(header, sheets[1..])
  }

  /** The data rows of a workbook: every sheet's rows after its header row, in sheet order. */
  function DataRows(sheets: seq<Sheet>): seq<Record> {
    if |sheets| == 0 then []
    else (if |sheets[0].rows| == 0 then [] else sheets[0].rows[1..]) + DataRows(sheets[1..])
  }

  // ---------------------------------------------------------------------------------------
  // The loop produces the intended workbook.

  lemma WriteRowsPeel(recs: seq<Record>, start: nat)
    requires |recs| > 0
    ensures WriteRows(SanitizeAll(recs), start)
         == [WriteRow(start, 0, Sanitize(recs[0]))] + WriteRows(SanitizeAll(recs[1..]), start + 1)
  {
    assert SanitizeAll(recs)[1..] == SanitizeAll(recs[1..]);
  }

  lemma SheetsPeel(header: Record, pages: seq<seq<Record>>, first: nat)
    requires |pages| > 0
    ensures Sheets(header, pages, first)
         == [Sheet(SheetName(first), [header] + SanitizeAll(pages[0]))] + Sheets(header, pages[1..], first + 1)
  {
    var l := Sheets(header, pages, first);
    var r := [Sheet(SheetName(first), [header] + SanitizeAll(pages[0]))] + Sheets(header, pages[1..], first + 1);
    assert |l| == |r|;
    forall i | 0 <= i < |l|
      ensures l[i] == r[i]
    {
      if i > 0 {
        assert first + i == (first + 1) + (i - 1);
      }
    }
  }

  /** The commands that build the sheets of `xs` paged by `limit - 1`, from sheet `first` on;
      nothing when no record is left. */
  function Later(header: Record, xs: seq<Record>, limit: nat, first: nat): seq<Command>
    requires limit >= 2
  {
    if |xs| == 0 then [] else Render(header, Sheets(header, Chunks(xs, limit - 1), first))
  }

  /** Those commands are the first sheet's header, data rows and table, then the sheets of
      what is left. */
  lemma RenderFirstPage(header: Record, xs: seq<Record>, limit: nat, first: nat)
    requires limit >= 2
    ensures var k := Min(|xs|, limit - 1);
      Render(header, Sheets(header, Chunks(xs, limit - 1), first))
      == [AddWorksheet(SheetName(first)), WriteRow(0, 0, header)]
         + WriteRows(SanitizeAll(xs[..k]), 1) + [Table(header, 1 + k)]
         + Later(header, xs[k..], limit, first + 1)
  {
    var k := Min(|xs|, limit - 1);
    var pages := Chunks(xs, limit - 1);
    assert pages[0] == xs[..k];
    var s0 := Sheet(SheetName(first), [header] + SanitizeAll(xs[..k]));
    var rest := Sheets(header, pages[1..], first + 1);
    assert Sheets(header, pages, first) == [s0] + rest by {
      SheetsPeel(header, pages, first);
    }
    assert Render(header, rest) == Later(header, xs[k..], limit, first + 1) by {
      assert pages[1..] == if k < |xs| then Chunks(xs[k..], limit - 1) else [];
    }
    assert WriteRows(s0.rows, 0) == [WriteRow(0, 0, header)] + WriteRows(SanitizeAll(xs[..k]), 1) by {
      assert s0.rows[1..] == SanitizeAll(xs[..k]);
    }
    RenderPeel(header, s0, rest);
    var wr, later := WriteRows(SanitizeAll(xs[..k]), 1), Later(header, xs[k..], limit, first + 1);
    assert |s0.rows| == 1 + k;
    assert [AddWorksheet(s0.name)] + ([WriteRow(0, 0, header)] + wr) + [Table(header, 1 + k)] + later
        == [AddWorksheet(SheetName(first)), WriteRow(0, 0, header)] + wr + [Table(header, 1 + k)] + later;
  }

  lemma RenderPeel(header: Record, s0: Sheet, rest: seq<Sheet>)
    ensures Render(header, [s0] + rest)
         == [AddWorksheet(s0.name)] + WriteRows(s0.rows, 0) + [Table(header, |s0.rows|)] + Render(header, rest)
  {
    assert ([s0] + rest)[1..] == rest;
  }

  /** What the loop should issue from a state with `line` rows on sheet `sheet`: fill the
      current sheet up to the limit, register its table, lay the remaining records out as
      fresh sheets, then fit the columns and close. */
  function Remaining(header: Record, rest: seq<Record>, limit: nat, sheet: nat, line: nat): seq<Command>
    requires limit >= 2 && line <= limit
  {
    var k := Min(|rest|, limit - line);
    WriteRows(SanitizeAll(rest[..k]), line) + [Table(header, line + k)]
    + Later(header, rest[k..], limit, sheet + 1) + [Autofit, Close]
  }

  /** The step of the loop that writes into a sheet with room left. */
  lemma FillStep(header: Record, rest: seq<Record>, limit: nat, sheet: nat, line: nat)
    requires limit >= 2 && 1 <= line < limit && |rest| > 0
    requires Page(header, rest[1..], limit, sheet, line + 1) == Remaining(header, rest[1..], limit, sheet, line + 1)
    ensures Page(header, rest, limit, sheet, line) == Remaining(header, rest, limit, sheet, line)
  {
    RemainingFill(header, rest, limit, sheet, line);
  }

  /** With room left on the sheet, the intended commands start with the next record's row. */
  lemma RemainingFill(header: Record, rest: seq<Record>, limit: nat, sheet: nat, line: nat)
    requires limit >= 2 && 1 <= line < limit && |rest| > 0
    ensures Remaining(header, rest, limit, sheet, line)
         == [WriteRow(line, 0, Sanitize(rest[0]))] + Remaining(header, rest[1..], limit, sheet, line + 1)
  {
    var k := Min(|rest|, limit - line);
    var row := [WriteRow(line, 0, Sanitize(rest[0]))];
    var rows := WriteRows(SanitizeAll(rest[1..][..k - 1]), line + 1);
    var table := [Table(header, line + k)];
    var tail := Later(header, rest[k..], limit, sheet + 1);
    var fin := [Autofit, Close];
    assert Remaining(header, rest[1..], limit, sheet, line + 1) == rows + table + tail + fin by {
      assert k - 1 == Min(|rest[1..]|, limit - (line + 1));
      assert rest[1..][k - 1..] == rest[k..];
      assert (line + 1) + (k - 1) == line + k;
      RemainingUnfold(header, rest[1..], limit, sheet, line + 1, k - 1);
    }
    assert Remaining(header, rest, limit, sheet, line) == row + rows + table + tail + fin by {
      RemainingUnfold(header, rest, limit, sheet, line, k);
      assert rest[..k][1..] == rest[1..][..k - 1];
      WriteRowsPeel(rest[..k], line);
    }
    Reassociate4(row, rows, table, tail, fin);
  }

  lemma RemainingUnfold(header: Record, rest: seq<Record>, limit: nat, sheet: nat, line: nat, k: nat)
    requires limit >= 2 && line <= limit && k == Min(|rest|, limit - line)
    ensures Remaining(header, rest, limit, sheet, line)
         == WriteRows(SanitizeAll(rest[..k]), line) + [Table(header, line + k)]
            + Later(header, rest[k..], limit, sheet + 1) + [Autofit, Close]
  {
  }

  lemma Reassociate4<T>(a: seq<T>, b: seq<T>, c: seq<T>, d: seq<T>, e: seq<T>)
    ensures a + (b + c + d + e) == a + b + c + d + e
  {
  }

  /** The sheets laid out from a full sheet on: the new sheet's header and its first record,
      then the rest of that page, its table and the later sheets. */
  lemma LaterPeel(header: Record, rest: seq<Record>, limit: nat, sheet: nat)
    requires limit >= 2 && |rest| > 0
    ensures var k2 := Min(|rest| - 1, limit - 2);
      Later(header, rest, limit, sheet + 1)
      == [AddWorksheet(SheetName(sheet + 1)), WriteRow(0, 0, header)]
         + ([WriteRow(1, 0, Sanitize(rest[0]))] + WriteRows(SanitizeAll(rest[1..][..k2]), 2))
         + [Table(header, 2 + k2)] + Later(header, rest[1..][k2..], limit, sheet + 2)
  {
    var k2 := Min(|rest| - 1, limit - 2);
    RenderFirstPage(header, rest, limit, sheet + 1);
    assert Min(|rest|, limit - 1) == k2 + 1;
    assert rest[..k2 + 1][1..] == rest[1..][..k2];
    WriteRowsPeel(rest[..k2 + 1], 1);
    assert rest[1..][k2..] == rest[k2 + 1..];
  }

  /** The step of the loop that finds the sheet full and starts the next one. */
  lemma ResetStep(header: Record, rest: seq<Record>, limit: nat, sheet: nat)
    requires limit >= 2 && |rest| > 0
    requires Page(header, rest[1..], limit, sheet + 1, 2) == Remaining(header, rest[1..], limit, sheet + 1, 2)
    ensures Page(header, rest, limit, sheet, limit) == Remaining(header, rest, limit, sheet, limit)
  {
    var k2 := Min(|rest| - 1, limit - 2);
    var rows := WriteRows(SanitizeAll(rest[1..][..k2]), 2);
    var table := [Table(header, 2 + k2)];
    var tail := Later(header, rest[1..][k2..], limit, sheet + 2);
    var first := [AddWorksheet(SheetName(sheet + 1)), WriteRow(0, 0, header)];
    var w1 := [WriteRow(1, 0, Sanitize(rest[0]))];
    var fin := [Autofit, Close];
    calc {
      Page(header, rest, limit, sheet, limit);
      { PageAtLimit(header, rest, limit, sheet); }
      [Table(header, limit)] + first + (w1 + Page(header, rest[1..], limit, sheet + 1, 2));
      [Table(header, limit)] + first + (w1 + (rows + table + tail + fin));
      { Reassociate([Table(header, limit)], first, w1, rows, table, tail, fin); }
      [Table(header, limit)] + (first + (w1 + rows) + table + tail) + fin;
      { LaterPeel(header, rest, limit, sheet); }
      [Table(header, limit)] + Later(header, rest, limit, sheet + 1) + fin;
      { RemainingAtLimit(header, rest, limit, sheet); }
      Remaining(header, rest, limit, sheet, limit);
    }
  }

  lemma PageAtLimit(header: Record, rest: seq<Record>, limit: nat, sheet: nat)
    requires |rest| > 0
    ensures Page(header, rest, limit, sheet, limit)
            == [Table(header, limit)] + [AddWorksheet(SheetName(sheet + 1)), WriteRow(0, 0, header)]
               + ([WriteRow(1, 0, Sanitize(rest[0]))] + Page(header, rest[1..], limit, sheet + 1, 2))
  {
  }

  lemma RemainingAtLimit(header: Record, rest: seq<Record>, limit: nat, sheet: nat)
    requires limit >= 2
    ensures Remaining(header, rest, limit, sheet, limit)
            == [Table(header, limit)] + Later(header, rest, limit, sheet + 1) + [Autofit, Close]
  {
    assert rest[..0] == [] && rest[0..] == rest;
  }

  lemma Reassociate<T>(a: seq<T>, b: seq<T>, c: seq<T>, d: seq<T>, e: seq<T>, f: seq<T>, g: seq<T>)
    ensures a + b + (c + (d + e + f + g)) == a + (b + (c + d) + e + f) + g
  {
  }

  /** The loop, from any state with `1 <= line <= limit`, issues what `Remaining` says. */
  lemma {:induction false} PageRenders(header: Record, rest: seq<Record>, limit: nat, sheet: nat, line: nat)
    requires limit >= 2 && 1 <= line <= limit
    ensures Page(header, rest, limit, sheet, line) == Remaining(header, rest, limit, sheet, line)
    decreases |rest|
  {
    if |rest| == 0 {
      assert rest[..0] == [];
    } else if line >= limit {
      PageRenders(header, rest[1..], limit, sheet + 1, 2);
      ResetStep(header, rest, limit, sheet);
    } else {
      PageRenders(header, rest[1..], limit, sheet, line + 1);
      FillStep(header, rest, limit, sheet, line);
    }
  }

  /** A non-empty conversion issues exactly the commands that build `Layout`, then fits the
      columns of the sheet it is on (the last) and closes the workbook. */
  lemma ConvertRenders(records: seq<Record>, limit: nat)
    requires limit >= 2 && |records| > 0
    ensures Convert(records, limit).trace
         == Render(records[0], Layout(records[0], records[1..], limit)) + [Autofit, Close]
  {
    var header, data := records[0], records[1..];
    var k := Min(|data|, limit - 1);
    var start := [AddWorksheet(SheetName(1)), WriteRow(0, 0, header)];
    var rest := WriteRows(SanitizeAll(data[..k]), 1) + [Table(header, 1 + k)] + Later(header, data[k..], limit, 2);
    var fin := [Autofit, Close];
    assert Convert(records, limit).trace == start + Page(header, data, limit, 1, 1);
    assert Page(header, data, limit, 1, 1) == rest + fin by {
      PageRenders(header, data, limit, 1, 1);
    }
    assert Render(header, Layout(header, data, limit)) == start + rest by {
      assert Layout(header, data, limit) == Sheets(header, Chunks(data, limit - 1), 1);
      RenderFirstPage(header, data, limit, 1);
    }
    assert start + (rest + fin) == (start + rest) + fin;
  }

  // ---------------------------------------------------------------------------------------
  // The shape of the intended workbook.

  /** `max(1, ceil(n / size))` pages for `n` elements: for `n > 0`, the page count `k` is
      the one with `(k - 1) * size < n <= k * size`. */
  lemma {:induction false} ChunksCount<T>(xs: seq<T>, size: nat)
    requires size >= 1
    ensures var k := |Chunks(xs, size)|;
      && (|xs| == 0 ==> k == 1)
      && (|xs| > 0 ==> (k - 1) * size < |xs| <= k * size)
    decreases |xs|
  {
    if |xs| > size {
      ChunksCount(xs[size..], size);
      var k' := |Chunks(xs[size..], size)|;
      assert |Chunks(xs, size)| == k' + 1;
      assert (k' + 1) * size == k' * size + size;
      assert (k' + 1 - 1) * size == (k' - 1) * size + size;
    }
  }

  /** Every page holds at most `size` elements, every page but the last exactly `size`, and
      no page is empty unless the input is. */
  lemma {:induction false} ChunksSizes<T>(xs: seq<T>, size: nat)
    requires size >= 1
    ensures var pages := Chunks(xs, size);
      && (forall i :: 0 <= i < |pages| ==> |pages[i]| <= size)
      && (forall i :: 0 <= i < |pages| - 1 ==> |pages[i]| == size)
      && (|xs| > 0 ==> forall i :: 0 <= i < |pages| ==> |pages[i]| >= 1)
    decreases |xs|
  {
    if |xs| > size {
      ChunksSizes(xs[size..], size);
      var pages := Chunks(xs, size);
      assert pages[1..] == Chunks(xs[size..], size);
      forall i | 1 <= i < |pages|
        ensures pages[i] == Chunks(xs[size..], size)[i - 1]
      {
      }
    }
  }

  /** The pages, put back together, are the input: nothing dropped, repeated or moved. */
  lemma {:induction false} ChunksFlatten<T>(xs: seq<T>, size: nat)
    requires size >= 1
    ensures Flatten(Chunks(xs, size)) == xs
    decreases |xs|
  {
    if |xs| <= size {
      assert Flatten([xs]) == xs + Flatten([xs][1..]);
      assert [xs][1..] == [];
    } else {
      ChunksFlatten(xs[size..], size);
      var pages := Chunks(xs, size);
      assert pages[1..] == Chunks(xs[size..], size);
      assert xs == xs[..size] + xs[size..];
    }
  }

  lemma SanitizeAllAppend(a: seq<Record>, b: seq<Record>)
    ensures SanitizeAll(a + b) == SanitizeAll(a) + SanitizeAll(b)
  {
  }

  /** The data rows of sheets built from pages are the sanitized records of the pages. */
  lemma {:induction false} DataRowsOfSheets(header: Record, pages: seq<seq<Record>>, first: nat)
    ensures DataRows(Sheets(header, pages, first)) == SanitizeAll(Flatten(pages))
    decreases |pages|
  {
    if |pages| > 0 {
      SheetsPeel(header, pages, first);
      DataRowsOfSheets(header, pages[1..], first + 1);
      var sheets := Sheets(header, pages, first);
      assert sheets[1..] == Sheets(header, pages[1..], first + 1);
      assert sheets[0].rows[1..] == SanitizeAll(pages[0]);
      SanitizeAllAppend(pages[0], Flatten(pages[1..]));
    }
  }

  /** The workbook for `n` data records and row limit `limit`: `max(1, ceil(n / (limit - 1)))`
      sheets (stated without division: one sheet for no data, else `k` sheets with
      `(k - 1) * (limit - 1) < n <= k * (limit - 1)`) named `Sheet1`, `Sheet2`, ... in order; each starts with the header row and holds
      at most `limit` rows, every sheet but the last exactly `limit`; and the rows after the
      headers, sheet by sheet, are the sanitized records in input order. */
  lemma LayoutShape(header: Record, data: seq<Record>, limit: nat)
    requires limit >= 2
    ensures var sheets := Layout(header, data, limit);
      && (|data| == 0 ==> |sheets| == 1)
      && (|data| > 0 ==> (|sheets| - 1) * (limit - 1) < |data| <= |sheets| * (limit - 1))
      && (forall i :: 0 <= i < |sheets| ==>
            && sheets[i].name == SheetName(i + 1)
            && 1 <= |sheets[i].rows| <= limit
            && sheets[i].rows[0] == header)
      && (forall i :: 0 <= i < |sheets| - 1 ==> |sheets[i].rows| == limit)
      && (|data| > 0 ==> forall i :: 0 <= i < |sheets| ==> |sheets[i].rows| >= 2)
      && DataRows(sheets) == SanitizeAll(data)
  {
    var pages := Chunks(data, limit - 1);
    ChunksCount(data, limit - 1);
    ChunksSizes(data, limit - 1);
    ChunksFlatten(data, limit - 1);
    DataRowsOfSheets(header, pages, 1);
  }

  /** Fewer data records than the limit leaves room for: one sheet, the header and then every
      record in order. */
  lemma SingleSheet(header: Record, data: seq<Record>, limit: nat)
    requires limit >= 2 && |data| <= limit - 1
    ensures Layout(header, data, limit) == [Sheet(SheetName(1), [header] + SanitizeAll(data))]
  {
  }

  /** With the converter's own limit no sheet reaches the format's row ceiling. */
  lemma RowsFitFormat(header: Record, data: seq<Record>)
    ensures forall s :: s in Layout(header, data, OutputRowLimit) ==> |s.rows| < ExcelRowLimit
  {
    var sheets := Layout(header, data, OutputRowLimit);
    LayoutShape(header, data, OutputRowLimit);
    forall s | s in sheets
      ensures |s.rows| < ExcelRowLimit
    {
      var i :| 0 <= i < |sheets| && sheets[i] == s;
    }
  }

  // ---------------------------------------------------------------------------------------
  // The command trace: one table per sheet, autofit once on the last sheet, close once last.

  function Count(trace: seq<Command>, p: Command -> bool): nat {
    if |trace| == 0 then 0 else (if p(trace[0]) then 1 else 0) + Count(trace[1..], p)
  }

  lemma {:induction false} CountAppend(a: seq<Command>, b: seq<Command>, p: Command -> bool)
    ensures Count(a + b, p) == Count(a, p) + Count(b, p)
    decreases |a|
  {
    if |a| == 0 {
      assert a + b == b;
    } else {
      assert (a + b)[1..] == a[1..] + b;
      CountAppend(a[1..], b, p);
    }
  }

  predicate IsSheetCmd(c: Command) { c.AddWorksheet? }
  predicate IsTableCmd(c: Command) { c.AddTable? }
  predicate IsAutofitCmd(c: Command) { c.Autofit? }
  predicate IsCloseCmd(c: Command) { c.Close? }

  lemma {:induction false} CountWriteRows(rows: seq<Record>, start: nat, p: Command -> bool)
    requires forall r: nat, c: nat, cells :: !p(WriteRow(r, c, cells))
    ensures Count(WriteRows(rows, start), p) == 0
    decreases |rows|
  {
    if |rows| > 0 {
      CountWriteRows(rows[1..], start + 1, p);
      CountAppend([WriteRow(start, 0, rows[0])], WriteRows(rows[1..], start + 1), p);
    }
  }

  /** Building sheets adds each sheet and registers one table for it, and neither fits
      columns nor closes the workbook. */
  lemma {:induction false} RenderCounts(header: Record, sheets: seq<Sheet>)
    ensures Count(Render(header, sheets), IsSheetCmd) == |sheets|
    ensures Count(Render(header, sheets), IsTableCmd) == |sheets|
    ensures Count(Render(header, sheets), IsAutofitCmd) == 0
    ensures Count(Render(header, sheets), IsCloseCmd) == 0
    decreases |sheets|
  {
    if |sheets| > 0 {
      RenderCounts(header, sheets[1..]);
      var a := [AddWorksheet(sheets[0].name)];
      var w := WriteRows(sheets[0].rows, 0);
      var t := [Table(header, |sheets[0].rows|)];
      var r := Render(header, sheets[1..]);
      assert Render(header, sheets) == a + w + t + r;
      CountsOfBlock(a, w, t, r, IsSheetCmd);
      CountsOfBlock(a, w, t, r, IsTableCmd);
      CountsOfBlock(a, w, t, r, IsAutofitCmd);
      CountsOfBlock(a, w, t, r, IsCloseCmd);
      CountWriteRows(sheets[0].rows, 0, IsSheetCmd);
      CountWriteRows(sheets[0].rows, 0, IsTableCmd);
      CountWriteRows(sheets[0].rows, 0, IsAutofitCmd);
      CountWriteRows(sheets[0].rows, 0, IsCloseCmd);
    }
  }

  lemma CountsOfBlock(a: seq<Command>, w: seq<Command>, t: seq<Command>, r: seq<Command>, p: Command -> bool)
    ensures Count(a + w + t + r, p) == Count(a, p) + Count(w, p) + Count(t, p) + Count(r, p)
  {
    CountAppend(a + w + t, r, p);
    CountAppend(a + w, t, p);
    CountAppend(a, w, p);
  }

  /** A successful conversion closes the workbook exactly once, as its last command, and fits
      columns exactly once, just before, right after the last sheet's table; it adds one
      sheet and registers one table per sheet of `Layout`. */
  lemma ConvertTrace(records: seq<Record>, limit: nat)
    requires limit >= 2 && |records| > 0
    ensures var t := Convert(records, limit).trace;
      var sheets := Layout(records[0], records[1..], limit);
      && |t| >= 3
      && t[|t| - 1] == Close && t[|t| - 2] == Autofit
      && t[|t| - 3] == Table(records[0], |sheets[|sheets| - 1].rows|)
      && Count(t, IsCloseCmd) == 1 && Count(t, IsAutofitCmd) == 1
      && Count(t, IsSheetCmd) == |sheets| && Count(t, IsTableCmd) == |sheets|
  {
    var header := records[0];
    var sheets := Layout(header, records[1..], limit);
    var body := Render(header, sheets);
    ConvertRenders(records, limit);
    RenderCounts(header, sheets);
    RenderEndsWithTable(header, sheets);
    var fin: seq<Command> := [Autofit, Close];
    var t := Convert(records, limit).trace;
    assert t == body + fin;
    assert t[|t| - 3] == body[|body| - 1];
    CountAppend(body, fin, IsCloseCmd);
    CountAppend(body, fin, IsAutofitCmd);
    CountAppend(body, fin, IsSheetCmd);
    CountAppend(body, fin, IsTableCmd);
  }

  lemma {:induction false} RenderEndsWithTable(header: Record, sheets: seq<Sheet>)
    requires |sheets| > 0
    ensures var r := Render(header, sheets);
      |r| > 0 && r[|r| - 1] == Table(header, |sheets[|sheets| - 1].rows|)
    decreases |sheets|
  {
    if |sheets| > 1 {
      RenderEndsWithTable(header, sheets[1..]);
    }
  }

  // ---------------------------------------------------------------------------------------
  // The converter's loop as written, with its counters.

  /** One turn of the loop: what it appends to the commands issued so far, by whether the
      current sheet is full. */
  lemma LoopStep(trace: seq<Command>, header: Record, rest: seq<Record>, limit: nat, sheet: nat, line: nat)
    requires |rest| > 0
    ensures line >= limit ==>
      (trace + Page(header, rest, limit, sheet, line)
       == trace + [Table(header, line), AddWorksheet(SheetName(sheet + 1)), WriteRow(0, 0, header)]
          + [WriteRow(1, 0, Sanitize(rest[0]))] + Page(header, rest[1..], limit, sheet + 1, 2))
    ensures line < limit ==>
      (trace + Page(header, rest, limit, sheet, line)
       == trace + [WriteRow(line, 0, Sanitize(rest[0]))] + Page(header, rest[1..], limit, sheet, line + 1))
  {
  }

  /** `csv2xlsx_filelike` as a loop over the records with `ws_count` and `line_count`; it
      issues the same commands as `Convert`, and `line_count` stays within `1 .. limit` (within
      `1 .. 2` for a limit below 2, where every record opens a sheet of its own). */
  method ConvertLoop(records: seq<Record>, limit: nat) returns (run: Run)
    ensures run == Convert(records, limit)
  {
    if |records| == 0 {
      return Run([AddWorksheet(SheetName(1))], Failed(EmptyInput));
    }
    var header := records[0];
    var trace := [AddWorksheet(SheetName(1)), WriteRow(0, 0, header)];
    var wsCount: nat := 1;
    var lineCount: nat := 1;
    var i := 1;
    while i < |records|
      invariant 1 <= i <= |records|
      invariant 1 <= lineCount <= if limit >= 2 then limit else 2
      invariant trace + Page(header, records[i..], limit, wsCount, lineCount) == Convert(records, limit).trace
    {
      assert records[i..][0] == records[i] && records[i..][1..] == records[i + 1..];
      LoopStep(trace, header, records[i..], limit, wsCount, lineCount);
      if lineCount >= limit {
        trace := trace + [Table(header, lineCount), AddWorksheet(SheetName(wsCount + 1)), WriteRow(0, 0, header)];
        wsCount := wsCount + 1;
        lineCount := 1;
      }
      trace := trace + [WriteRow(lineCount, 0, Sanitize(records[i]))];
      lineCount := lineCount + 1;
      i := i + 1;
    }
    trace := trace + [Table(header, lineCount), Autofit, Close];
    run := Run(trace, Completed);
  }
}
