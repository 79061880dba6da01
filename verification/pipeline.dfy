/** `process_export` of main.py: read the export date from the archive's member names, convert
    every `.csv` member to a workbook stored in a new archive, and only then rename the source
    archive. File-system effects are recorded as `Event`s; UTF-8 decoding, the CSV reader and
    the workbook's serialization are parameters, since they are not part of this model. */
module Pipeline {
  import opened Outcomes
  import opened SheetWriter
  import opened Decimal
  import opened ExportDate

  newtype byte = x: int | 0 <= x < 256

  /** A path as its components; the last one is the file's name. The empty path is `.`. */
  datatype Path = Path(parts: seq<string>)

  /** `path.parent`. */
  function Parent(p: Path): Path {
    if |p.parts| == 0 then p else Path(p.parts[..|p.parts| - 1])
  }

  /** `parent / name`. */
  function Join(dir: Path, name: string): Path {
    Path(dir.parts + [name])
  }

  datatype Member = Member(name: string, data: seq<byte>)

  /** The outside collaborators a conversion goes through, each of which may fail. */
  datatype Codecs = Codecs(
    decode: seq<byte> -> Option<string>,
    readCsv: string -> Option<seq<Record>>,
    serialize: seq<Command> -> seq<byte>)

  /** What `process_export` does to the file system, in order. */
  datatype Event =
    | CreateArchive(path: Path)
    | StoreMember(name: string, data: seq<byte>)
    | Rename(source: Path, target: Path)

  /** The effects of a run and what it returned or raised. */
  datatype Report = Report(events: seq<Event>, result: Result<(Path, Path)>)

  const CsvArchivePrefix: string := "PPE-Analytics_fullexport_csv_"
  const XlsxArchivePrefix: string := "PPE-Analytics_fullexport_xlsx_"

  function CsvArchiveName(stamp: string): string {
    CsvArchivePrefix + stamp + ".zip"
  }

  function XlsxArchiveName(stamp: string): string {
    XlsxArchivePrefix + stamp + ".zip"
  }

  predicate IsCsvName(name: string) {
    |name| >= 4 && name[|name| - 4..] == ".csv"
  }

  /** `name.removesuffix(".csv") + ".xlsx"` for a `.csv` name. */
  function XlsxName(name: string): (r: string)
    requires IsCsvName(name)
    ensures |r| == |name| + 1 && r[|r| - 5..] == ".xlsx"
    ensures r[..|r| - 5] + ".csv" == name
  {
    name[..|name| - 4] + ".xlsx"
  }

  /** Distinct `.csv` members are stored under distinct names. */
  lemma XlsxNameInjective(a: string, b: string)
    requires IsCsvName(a) && IsCsvName(b) && XlsxName(a) == XlsxName(b)
    ensures a == b
  {
  }

  function Names(archive: seq<Member>): (names: seq<string>)
    ensures |names| == |archive|
    ensures forall i :: 0 <= i < |archive| ==> names[i] == archive[i].name
  {
    seq(|archive|, i requires 0 <= i < |archive| => archive[i].name)
  }

  /** One member through the converter: decode strictly as UTF-8, read the CSV records, run
      the sheet-paging writer with the converter's row limit and serialize the workbook. */
  function ConvertMember(c: Codecs, m: Member): (r: Result<seq<byte>>)
    ensures c.decode(m.data).None? ==> r == Err(Encoding)
    ensures c.decode(m.data).Some? && c.readCsv(c.decode(m.data).value).None? ==> r == Err(CsvFormat)
    ensures c.decode(m.data).Some? && c.readCsv(c.decode(m.data).value) == Some([]) ==> r == Err(EmptyInput)
    ensures r.Ok? ==>
      && c.decode(m.data).Some? && c.readCsv(c.decode(m.data).value).Some?
      && |c.readCsv(c.decode(m.data).value).value| > 0
      && r.value == c.serialize(Convert(c.readCsv(c.decode(m.data).value).value, OutputRowLimit).trace)
    ensures (c.decode(m.data).Some? && c.readCsv(c.decode(m.data).value).Some?
             && |c.readCsv(c.decode(m.data).value).value| > 0) ==> r.Ok?
  {
    match c.decode(m.data)
    case None => Err(Encoding)
    case Some(text) =>
      match c.readCsv(text)
      case None => Err(CsvFormat)
      case Some(records) =>
        var run := Convert(records, OutputRowLimit);
        if run.status.Failed? then Err(run.status.error) else Ok(c.serialize(run.trace))
  }

  /** A member that decodes to at least one record converts to the serialized workbook the
      records lay out: the header on top of every sheet, at most `OutputRowLimit - 1` data
      rows per sheet, each sheet closed by its table, then autofit and close. */
  lemma ConvertMemberRenders(c: Codecs, m: Member)
    requires c.decode(m.data).Some? && c.readCsv(c.decode(m.data).value).Some?
    requires |c.readCsv(c.decode(m.data).value).value| > 0
    ensures var records := c.readCsv(c.decode(m.data).value).value;
      ConvertMember(c, m)
        == Ok(c.serialize(Render(records[0], Layout(records[0], records[1..], OutputRowLimit)) + [Autofit, Close]))
  {
    ConvertRenders(c.readCsv(c.decode(m.data).value).value, OutputRowLimit);
  }

  /** The `.csv` members of an archive, in archive order. */
  function CsvMembers(archive: seq<Member>): (ms: seq<Member>)
    ensures forall i :: 0 <= i < |ms| ==> IsCsvName(ms[i].name)
    ensures forall m :: m in ms ==> m in archive
    ensures forall m :: m in archive && IsCsvName(m.name) ==> m in ms
    ensures |archive| == 1 ==> ms == if IsCsvName(archive[0].name) then archive else []
  {
    if |archive| == 0 then []
    else if IsCsvName(archive[0].name) then [archive[0]] + CsvMembers(archive[1..])
    else CsvMembers(archive[1..])
  }

  /** Selection keeps archive order: the `.csv` members of two consecutive stretches of the
      archive are those of the first stretch followed by those of the second. */
  lemma {:induction false} CsvMembersAppend(a: seq<Member>, b: seq<Member>)
    ensures CsvMembers(a + b) == CsvMembers(a) + CsvMembers(b)
    decreases |a|
  {
    if |a| > 0 {
      assert (a + b)[0] == a[0];
      assert (a + b)[1..] == a[1..] + b;
      CsvMembersAppend(a[1..], b);
    } else {
      assert a + b == b;
    }
  }

  /** The conversion loop: the members stored so far and, if a member failed, why. */
  datatype Progress = Progress(stored: seq<Event>, failure: Option<Error>)

  /** `ConvertMember` with the run's codecs fixed: the loop body, one member at a time. */
  function Converter(c: Codecs): Member -> Result<seq<byte>> {
    m => ConvertMember(c, m)
  }

  /** The loop over the source archive's members, with `convert` as the loop body. */
  function ConvertAll(convert: Member -> Result<seq<byte>>, archive: seq<Member>): (p: Progress)
    ensures forall i :: 0 <= i < |p.stored| ==> p.stored[i].StoreMember?
    ensures p.failure.None? ==> |p.stored| == |CsvMembers(archive)|
    ensures p.failure.Some? ==> |p.stored| < |CsvMembers(archive)|
  {
    if |archive| == 0 then Progress([], None)
    else if !IsCsvName(archive[0].name) then ConvertAll(convert, archive[1..])
    else
      match convert(archive[0])
      case Err(e) => Progress([], Some(e))
      case Ok(bytes) =>
        var p := ConvertAll(convert, archive[1..]);
        Progress([StoreMember(XlsxName(archive[0].name), bytes)] + p.stored, p.failure)
  }

  /** `process_export`: the export date first; nothing is touched when it cannot be read. */
  function ProcessExport(source: Path, archive: seq<Member>, c: Codecs): (r: Report)
    ensures ExtractDate(Names(archive)).Err? ==> r == Report([], Err(ExtractDate(Names(archive)).error))
    ensures ExtractDate(Names(archive)).Ok? ==> |r.events| >= 1 && r.events[0].CreateArchive?
    ensures r.result.Ok? <==> |r.events| >= 1 && r.events[|r.events| - 1].Rename?
    ensures r.result.Ok? ==> r.result.value.0 == source
  {
    match ExtractDate(Names(archive))
    case Err(e) => Report([], Err(e))
    case Ok(date) => ConvertArchive(source, Timestamp(date), archive, c)
  }

  /** The rest of `process_export` once the timestamp `stamp` is known. The returned pair is
      the source path as given, before the rename, and the new archive next to it; the
      renamed archive is a bare name in the working directory. */
  function ConvertArchive(source: Path, stamp: string, archive: seq<Member>, c: Codecs): (r: Report)
    ensures |r.events| >= 1 && r.events[0] == CreateArchive(Join(Parent(source), XlsxArchiveName(stamp)))
    ensures r.result.Ok? <==> r.events[|r.events| - 1] == Rename(source, Path([CsvArchiveName(stamp)]))
    ensures r.result.Ok? ==> r.result.value == (source, Join(Parent(source), XlsxArchiveName(stamp)))
    ensures forall i :: 0 <= i < |r.events| - 1 ==> !r.events[i].Rename?
  {
    var xlsxPath := Join(Parent(source), XlsxArchiveName(stamp));
    var progress := ConvertAll(Converter(c), archive);
    var events := [CreateArchive(xlsxPath)] + progress.stored;
    match progress.failure
    case Some(e) => Report(events, Err(e))
    case None => Report(events + [Rename(source, Path([CsvArchiveName(stamp)]))], Ok((source, xlsxPath)))
  }

  // ---------------------------------------------------------------------------------------
  // Properties of a run.

  /** The stores the loop should make: the `.csv` members in archive order, each under its
      `.xlsx` name with its converted bytes. */
  predicate StoresOf(convert: Member -> Result<seq<byte>>, ms: seq<Member>, stored: seq<Event>)
    requires forall i :: 0 <= i < |ms| ==> IsCsvName(ms[i].name)
  {
    && |stored| <= |ms|
    && forall i :: 0 <= i < |stored| ==>
         convert(ms[i]).Ok? && stored[i] == StoreMember(XlsxName(ms[i].name), convert(ms[i]).value)
  }

  lemma StoresCons(convert: Member -> Result<seq<byte>>, m: Member, ms: seq<Member>, stored: seq<Event>)
    requires IsCsvName(m.name) && convert(m).Ok?
    requires forall i :: 0 <= i < |ms| ==> IsCsvName(ms[i].name)
    requires StoresOf(convert, ms, stored)
    ensures StoresOf(convert, [m] + ms, [StoreMember(XlsxName(m.name), convert(m).value)] + stored)
  {
    var ms', stored' := [m] + ms, [StoreMember(XlsxName(m.name), convert(m).value)] + stored;
    forall i | 1 <= i < |stored'|
      ensures stored'[i] == stored[i - 1] && ms'[i] == ms[i - 1]
    {
    }
  }

  /** What the loop over `archive` should leave behind: the `.csv` members stored in order
      under their `.xlsx` names, up to the first that fails and with that member's error, or
      all of them. */
  predicate LoopStores(convert: Member -> Result<seq<byte>>, archive: seq<Member>) {
    var ms, p := CsvMembers(archive), ConvertAll(convert, archive);
    && StoresOf(convert, ms, p.stored)
    && (p.failure.None? ==> |p.stored| == |ms|)
    && (p.failure.Some? ==> |p.stored| < |ms| && convert(ms[|p.stored|]) == Err(p.failure.value))
  }

  /** The loop stores the `.csv` members in order and skips the others; it stops at the
      first member that fails, with that member's error, and otherwise has stored them all. */
  lemma {:induction false} ConvertAllStores(convert: Member -> Result<seq<byte>>, archive: seq<Member>)
    ensures var ms, p := CsvMembers(archive), ConvertAll(convert, archive);
      && StoresOf(convert, ms, p.stored)
      && (p.failure.None? ==> |p.stored| == |ms|)
      && (p.failure.Some? ==> |p.stored| < |ms| && convert(ms[|p.stored|]) == Err(p.failure.value))
    decreases |archive|
  {
    if |archive| > 0 {
      ConvertAllStores(convert, archive[1..]);
      if !IsCsvName(archive[0].name) {
        SkipStep(convert, archive);
      } else if convert(archive[0]).Err? {
        FailStep(convert, archive);
      } else {
        StoreStep(convert, archive);
      }
    }
    assert LoopStores(convert, archive);
  }

  lemma SkipStep(convert: Member -> Result<seq<byte>>, archive: seq<Member>)
    requires |archive| > 0 && !IsCsvName(archive[0].name)
    requires LoopStores(convert, archive[1..])
    ensures LoopStores(convert, archive)
  {
    assert CsvMembers(archive) == CsvMembers(archive[1..]);
    assert ConvertAll(convert, archive) == ConvertAll(convert, archive[1..]);
  }

  lemma FailStep(convert: Member -> Result<seq<byte>>, archive: seq<Member>)
    requires |archive| > 0 && IsCsvName(archive[0].name) && convert(archive[0]).Err?
    ensures LoopStores(convert, archive)
  {
    var ms := CsvMembers(archive);
    assert ms == [archive[0]] + CsvMembers(archive[1..]);
    assert ConvertAll(convert, archive) == Progress([], Some(convert(archive[0]).error));
  }

  lemma StoreStep(convert: Member -> Result<seq<byte>>, archive: seq<Member>)
    requires |archive| > 0 && IsCsvName(archive[0].name) && convert(archive[0]).Ok?
    requires LoopStores(convert, archive[1..])
    ensures LoopStores(convert, archive)
  {
    var m, rest := archive[0], archive[1..];
    var q, p := ConvertAll(convert, rest), ConvertAll(convert, archive);
    var ms, ms' := CsvMembers(archive), CsvMembers(rest);
    assert ms == [m] + ms';
    assert p == Progress([StoreMember(XlsxName(m.name), convert(m).value)] + q.stored, q.failure);
    assert StoresOf(convert, ms, p.stored) by {
      StoresCons(convert, m, ms', q.stored);
    }
    if q.failure.Some? {
      assert ms[|p.stored|] == ms'[|q.stored|];
    }
  }

  /** A name without the marker, a timestamp or a valid date ends the run before anything is
      created, converted or renamed. */
  lemma DateFailureTouchesNothing(source: Path, archive: seq<Member>, c: Codecs)
    requires ExtractDate(Names(archive)).Err?
    ensures ProcessExport(source, archive, c) == Report([], Err(ExtractDate(Names(archive)).error))
  {
  }

  /** A run that gets past the date creates the new archive first, stores the converted `.csv`
      members in archive order up to the first failure, and renames the source last, only
      when every member converted. The rename target is the bare `PPE-Analytics_fullexport_
      csv_<stamp>.zip`; the returned pair is the source path as given and the new archive
      `PPE-Analytics_fullexport_xlsx_<stamp>.zip` beside it, both with the same stamp. */
  lemma ConvertArchiveEvents(source: Path, stamp: string, archive: seq<Member>, c: Codecs)
    ensures var r := ConvertArchive(source, stamp, archive, c);
      var xlsxPath := Join(Parent(source), XlsxArchiveName(stamp));
      var ms := CsvMembers(archive);
      && |r.events| >= 1 && r.events[0] == CreateArchive(xlsxPath)
      && (r.result.Ok? <==> forall i :: 0 <= i < |ms| ==> ConvertMember(c, ms[i]).Ok?)
      && (r.result.Ok? ==>
            && r.result.value == (source, xlsxPath)
            && |r.events| == |ms| + 2
            && StoresOf(Converter(c), ms, r.events[1..|ms| + 1])
            && r.events[|r.events| - 1] == Rename(source, Path([CsvArchiveName(stamp)])))
      && (r.result.Err? ==>
            && (forall i :: 0 <= i < |r.events| ==> !r.events[i].Rename?)
            && |r.events| - 1 < |ms|
            && StoresOf(Converter(c), ms, r.events[1..])
            && ConvertMember(c, ms[|r.events| - 1]) == Err(r.result.error))
  {
    var r := ConvertArchive(source, stamp, archive, c);
    var convert := Converter(c);
    var ms, p := CsvMembers(archive), ConvertAll(convert, archive);
    ConvertAllStores(convert, archive);
    if p.failure.None? {
      assert r.events[1..|ms| + 1] == p.stored;
      assert forall i :: 0 <= i < |ms| ==> convert(ms[i]).Ok?;
    } else {
      assert r.events[1..] == p.stored;
      assert convert(ms[|p.stored|]) == Err(p.failure.value);
    }
  }

  /** Past the date, `process_export` is the conversion of the archive under the stamp of
      the export date. */
  lemma ProcessExportConverts(source: Path, archive: seq<Member>, c: Codecs)
    requires ExtractDate(Names(archive)).Ok?
    ensures ProcessExport(source, archive, c)
            == ConvertArchive(source, Timestamp(ExtractDate(Names(archive)).value), archive, c)
  {
  }

  /** The stamp of both archives is the digits of the export name when they hold a
      four-digit year. */
  lemma StampIsExportDigits(before: seq<Member>, t: string, data: seq<byte>, after: seq<Member>)
    requires forall i :: 0 <= i < |before| ==> !StartsWith(before[i].name, Marker)
    requires AllDigits(t) && |t| == 14 && ParseText(t).Ok?
    ensures var archive := before + [Member(Marker + t + ".csv" + "", data)] + after;
      ExtractDate(Names(archive)).Ok? && Timestamp(ExtractDate(Names(archive)).value) == t
  {
    var name := Marker + t + ".csv" + "";
    var archive := before + [Member(name, data)] + after;
    assert Names(archive) == Names(before) + [name] + Names(after);
    assert StartsWith(name, Marker) by {
      assert name[..|Marker|] == Marker;
    }
    FirstMarkerDecides(Names(before), name, Names(after));
    ExportNameText(t, "");
    TimestampOfFourDigitYear(t);
  }
}
