/** The export date of ppe_analytics_upload/utils.py: the timestamp in the name of the first
    archive member called `item_list_...`, found with the pattern `.*_(\d{12,14}).*\.csv`
    and read with `strptime` as `%y%m%d%H%M%S` (12 digits) or `%Y%m%d%H%M%S` (14 digits);
    and its `strftime("%Y%m%d%H%M%S")` form used in main.py. */
module ExportDate {
  import opened Outcomes
  import opened Decimal

  /** The prefix that marks the member carrying the export date. */
  const Marker: string := "item_list_"

  predicate StartsWith(s: string, prefix: string) {
    |prefix| <= |s| && s[..|prefix|] == prefix
  }

  // ---------------------------------------------------------------------------------------
  // The filename pattern. Its `.` matches anything but a line break; `findall` reports one
  // match per line at most, and the code keeps the last one.

  /** The number of consecutive digits in `s` from position `j` on. */
  function DigitRun(s: string, j: nat): (n: nat)
    requires j <= |s|
    ensures j + n <= |s|
    ensures forall k :: j <= k < j + n ==> IsDigit(s[k])
    ensures j + n < |s| ==> !IsDigit(s[j + n])
    decreases |s| - j
  {
    if j < |s| && IsDigit(s[j]) then 1 + DigitRun(s, j + 1) else 0
  }

  predicate CsvAt(s: string, p: nat) {
    p + 4 <= |s| && s[p..p + 4] == ".csv"
  }

  predicate NoBreak(s: string, j: nat, p: nat)
    requires j <= p <= |s|
  {
    forall q :: j <= q < p ==> s[q] != '\n'
  }

  /** `.*\.csv` from position `j`: a `.csv` further on in the same line. */
  function CsvLater(s: string, j: nat): (b: bool)
    ensures b <==> exists p :: j <= p && CsvAt(s, p) && NoBreak(s, j, p)
    decreases |s| - j
  {
    if j + 4 > |s| then false
    else if CsvAt(s, j) then true
    else if s[j] == '\n' then
      assert forall p :: j < p && p <= |s| ==> !NoBreak(s, j, p);
      false
    else
      var b := CsvLater(s, j + 1);
      assert b ==> exists p :: j <= p && CsvAt(s, p) && NoBreak(s, j, p);
      assert (exists p :: j <= p && CsvAt(s, p) && NoBreak(s, j, p)) ==> b by {
        if p :| j <= p && CsvAt(s, p) && NoBreak(s, j, p) {
          assert p != j;
          assert NoBreak(s, j + 1, p);
        }
      }
      b
  }

  /** An underscore at `i` from which the pattern's tail `_(\d{12,14}).*\.csv` matches: at
      least twelve digits follow, and later in the same line a `.csv`. */
  predicate Qualifies(s: string, i: nat) {
    i < |s| && s[i] == '_' && DigitRun(s, i + 1) >= 12 && CsvLater(s, i + 13)
  }

  /** The greedy leading `.*` backtracks from the right: the last qualifying underscore
      before position `n`. */
  function LastQualifying(s: string, n: nat): (r: Option<nat>)
    requires n <= |s|
    ensures r.None? ==> forall j :: 0 <= j < n ==> !Qualifies(s, j)
    ensures r.Some? ==> r.value < n && Qualifies(s, r.value)
    ensures r.Some? ==> forall j :: r.value < j < n ==> !Qualifies(s, j)
  {
    if n == 0 then None
    else if Qualifies(s, n - 1) then Some(n - 1)
    else LastQualifying(s, n - 1)
  }

  /** The pattern's group is `t`, taken after the underscore at `i`: the last qualifying
      one, followed by `t`, which is all of the digit run or its first fourteen digits. */
  predicate Captures(s: string, i: nat, t: string) {
    && Qualifies(s, i)
    && (forall j :: i < j < |s| ==> !Qualifies(s, j))
    && i + 1 + |t| <= |s|
    && t == s[i + 1 .. i + 1 + |t|]
    && (|t| == 14 || DigitRun(s, i + 1) == |t|)
  }

  /** `pattern.findall(filename)[-1]`, or `None` when the list is empty. */
  function DateText(s: string): (r: Option<string>)
    ensures r.None? <==> forall i :: 0 <= i < |s| ==> !Qualifies(s, i)
    ensures r.Some? ==> 12 <= |r.value| <= 14 && AllDigits(r.value)
    ensures r.Some? ==> exists i :: Captures(s, i, r.value)
  {
    match LastQualifying(s, |s|)
    case None => None
    case Some(i) =>
      var n := Min(DigitRun(s, i + 1), 14);
      var t := s[i + 1 .. i + 1 + n];
      assert AllDigits(t) by {
        forall k | 0 <= k < |t|
          ensures IsDigit(t[k])
        {
          assert t[k] == s[i + 1 + k];
        }
      }
      assert Captures(s, i, t);
      Some(t)
  }

  // ---------------------------------------------------------------------------------------
  // Dates.

  datatype DateTime = DateTime(year: int, month: int, day: int, hour: int, minute: int, second: int)

  predicate IsLeapYear(y: int) {
    y % 4 == 0 && (y % 100 != 0 || y % 400 == 0)
  }

  function DaysInMonth(y: int, m: int): (days: int)
    requires 1 <= m <= 12
    ensures 28 <= days <= 31
    ensures days == 29 <==> m == 2 && IsLeapYear(y)
  {
    if m == 2 then (if IsLeapYear(y) then 29 else 28)
    else if m == 4 || m == 6 || m == 9 || m == 11 then 30
    else 31
  }

  /** What `datetime` accepts: years 1 to 9999, a day that exists in its month of the
      proleptic Gregorian calendar, and a time of day without leap seconds. */
  function Valid(d: DateTime): (ok: bool)
    ensures ok ==> 1 <= d.day <= 31
    ensures ok && d.month == 2 ==> d.day <= 29 && (d.day == 29 ==> IsLeapYear(d.year))
    ensures ok && d.day == 30 ==> d.month != 2
    ensures ok && d.day == 31 ==> d.month in {1, 3, 5, 7, 8, 10, 12}
    ensures d.day <= 28 ==> (ok <==> && 1 <= d.year <= 9999 && 1 <= d.month <= 12 && 1 <= d.day
                                     && 0 <= d.hour < 24 && 0 <= d.minute < 60 && 0 <= d.second < 60)
  {
    && 1 <= d.year <= 9999
    && 1 <= d.month <= 12
    && 1 <= d.day <= DaysInMonth(d.year, d.month)
    && 0 <= d.hour < 24
    && 0 <= d.minute < 60
    && 0 <= d.second < 60
  }

  /** The fields `strptime` reads from 12 or 14 digits. The directives are consecutive and
      must consume the whole text, so every field takes its full width: two digits each,
      four for `%Y`. A two-digit year up to 68 is in the 2000s, any other in the 1900s. */
  function Fields(t: string): (d: DateTime)
    requires AllDigits(t) && (|t| == 12 || |t| == 14)
    ensures |t| == 12 ==> 1969 <= d.year <= 2068
    ensures |t| == 14 ==> 0 <= d.year <= 9999
    ensures && 0 <= d.month < 100 && 0 <= d.day < 100 && 0 <= d.hour < 100
            && 0 <= d.minute < 100 && 0 <= d.second < 100
  {
    assert Pow10(2) == 100 && Pow10(4) == 10000;
    var w := |t| - 10;
    var y := Value(t[..w]);
    var year := if w == 4 then y else if y <= 68 then 2000 + y else 1900 + y;
    DateTime(year, Value(t[w..w + 2]), Value(t[w + 2..w + 4]), Value(t[w + 4..w + 6]),
             Value(t[w + 6..w + 8]), Value(t[w + 8..w + 10]))
  }

  /** The length dispatch and `strptime` on the matched digits. */
  function ParseText(t: string): (r: Result<DateTime>)
    requires AllDigits(t) && 12 <= |t| <= 14
    ensures r.Ok? ==> Valid(r.value) && |t| != 13 && r.value == Fields(t)
    ensures r.Err? ==> r.error == DateParse
    ensures r.Err? <==> |t| == 13 || !Valid(Fields(t))
  {
    if |t| == 13 then Err(DateParse)
    else
      var d := Fields(t);
      if Valid(d) then Ok(d) else Err(DateParse)
  }

  /** `get_export_date_from_file`. */
  function ExportDateFromFile(name: string): (r: Result<DateTime>)
    ensures r.Err? ==> r.error == DateParse
    ensures DateText(name).None? ==> r.Err?
    ensures r.Ok? ==> Valid(r.value)
    ensures r.Ok? ==> DateText(name).Some? && |DateText(name).value| != 13
                      && r.value == Fields(DateText(name).value)
    ensures DateText(name).Some? && |DateText(name).value| != 13 && Valid(Fields(DateText(name).value))
            ==> r == Ok(Fields(DateText(name).value))
  {
    match DateText(name)
    case None => Err(DateParse)
    case Some(t) => ParseText(t)
  }

  /** `extract_date_from_zipfile` over the archive's member names: the date of the first
      member whose name starts with `item_list_`, and of no other. */
  function ExtractDate(names: seq<string>): (r: Result<DateTime>)
    ensures r.Ok? ==> Valid(r.value)
    ensures r == Err(MissingExportMarker) <==> forall i :: 0 <= i < |names| ==> !StartsWith(names[i], Marker)
    ensures forall i :: 0 <= i < |names| && StartsWith(names[i], Marker)
                        && (forall j :: 0 <= j < i ==> !StartsWith(names[j], Marker))
                        ==> r == ExportDateFromFile(names[i])
  {
    if |names| == 0 then Err(MissingExportMarker)
    else if StartsWith(names[0], Marker) then ExportDateFromFile(names[0])
    else
      var r := ExtractDate(names[1..]);
      assert forall i :: 1 <= i < |names| ==> names[i] == names[1..][i - 1];
      r
  }

  /** Only the first marked member is read: whatever follows it, even a parsable name after
      one that fails, does not change the outcome. */
  lemma FirstMarkerDecides(before: seq<string>, name: string, after: seq<string>)
    requires forall i :: 0 <= i < |before| ==> !StartsWith(before[i], Marker)
    requires StartsWith(name, Marker)
    ensures ExtractDate(before + [name] + after) == ExportDateFromFile(name)
  {
    var names := before + [name] + after;
    assert names[|before|] == name;
    assert forall j :: 0 <= j < |before| ==> names[j] == before[j];
  }

  // ---------------------------------------------------------------------------------------
  // `strftime("%Y%m%d%H%M%S")`.

  /** The export timestamp: year in four digits, the other fields in two. */
  function Timestamp(d: DateTime): (s: string)
    requires Valid(d)
    ensures |s| == 14 && AllDigits(s)
  {
    Fixed(d.year, 4) + Fixed(d.month, 2) + Fixed(d.day, 2)
    + Fixed(d.hour, 2) + Fixed(d.minute, 2) + Fixed(d.second, 2)
  }

  lemma Slices14(t: string)
    requires |t| == 14
    ensures t == t[..4] + t[4..6] + t[6..8] + t[8..10] + t[10..12] + t[12..14]
  {
  }

  /** Formatting a date read from 14 digits gives those digits back. */
  lemma TimestampOfFourDigitYear(t: string)
    requires AllDigits(t) && |t| == 14 && ParseText(t).Ok?
    ensures Timestamp(ParseText(t).value) == t
  {
    FixedOfValue(t[..4]);
    FixedOfValue(t[4..6]);
    FixedOfValue(t[6..8]);
    FixedOfValue(t[8..10]);
    FixedOfValue(t[10..12]);
    FixedOfValue(t[12..14]);
    Slices14(t);
  }

  /** Formatting a date read from 12 digits gives them back behind the century. */
  lemma TimestampOfTwoDigitYear(t: string)
    requires AllDigits(t) && |t| == 12 && ParseText(t).Ok?
    ensures Timestamp(ParseText(t).value) == (if Value(t[..2]) <= 68 then "20" else "19") + t
  {
    var u := (if Value(t[..2]) <= 68 then "20" else "19") + t;
    CenturyExpansion(t);
    assert ParseText(u) == ParseText(t);
    TimestampOfFourDigitYear(u);
  }

  /** Reading the timestamp of a date back gives the date. */
  lemma ParseOfTimestamp(d: DateTime)
    requires Valid(d)
    ensures ParseText(Timestamp(d)) == Ok(d)
  {
    var s := Timestamp(d);
    assert Pow10(4) == 10000 && Pow10(2) == 100;
    assert s[..4] == Fixed(d.year, 4);
    assert s[4..6] == Fixed(d.month, 2);
    assert s[6..8] == Fixed(d.day, 2);
    assert s[8..10] == Fixed(d.hour, 2);
    assert s[10..12] == Fixed(d.minute, 2);
    assert s[12..14] == Fixed(d.second, 2);
    ValueOfFixed(d.year, 4);
    ValueOfFixed(d.month, 2);
    ValueOfFixed(d.day, 2);
    ValueOfFixed(d.hour, 2);
    ValueOfFixed(d.minute, 2);
    ValueOfFixed(d.second, 2);
  }

  // ---------------------------------------------------------------------------------------
  // Member names as the exporter writes them.

  /** A run of `n` digits ended by a non-digit or the end of the text has length `n`. */
  lemma DigitRunIs(s: string, j: nat, n: nat)
    requires j + n <= |s|
    requires forall k :: j <= k < j + n ==> IsDigit(s[k])
    requires j + n < |s| ==> !IsDigit(s[j + n])
    ensures DigitRun(s, j) == n
  {
    var m := DigitRun(s, j);
    assert m <= n by {
      if j + n < |s| {
        assert !IsDigit(s[j + n]);
      }
    }
    assert m >= n by {
      if j + m < |s| {
        assert !IsDigit(s[j + m]);
      }
    }
  }

  /** The name `item_list_<digits>.csv<tail>` yields exactly its 12 to 14 digits when the
      tail has no underscore; the pattern has no end anchor, so the tail may be anything
      else, `.bak` included. */
  lemma ExportNameText(t: string, tail: string)
    requires AllDigits(t) && 12 <= |t| <= 14
    requires forall k :: 0 <= k < |tail| ==> tail[k] != '_'
    ensures DateText(Marker + t + ".csv" + tail) == Some(t)
  {
    var s := Marker + t + ".csv" + tail;
    MarkerQualifies(t, tail);
    NothingQualifiesAfterMarker(t, tail);
    assert LastQualifying(s, |s|) == Some(9);
    assert |Marker| == 10;
    Middle(Marker, t, ".csv", tail);
  }

  lemma Middle(a: string, b: string, c: string, d: string)
    ensures (a + b + c + d)[|a|..|a| + |b|] == b
  {
  }

  lemma MarkerQualifies(t: string, tail: string)
    requires AllDigits(t) && 12 <= |t| <= 14
    ensures var s := Marker + t + ".csv" + tail;
      Qualifies(s, 9) && DigitRun(s, 10) == |t|
  {
    var s := Marker + t + ".csv" + tail;
    var e := 10 + |t|;
    assert s[9] == '_';
    assert forall k :: 10 <= k < e ==> s[k] == t[k - 10];
    assert s[e] == '.';
    assert s[e..e + 4] == ".csv";
    DigitRunIs(s, 10, |t|);
    assert CsvAt(s, e);
    assert NoBreak(s, 22, e);
  }

  lemma NothingQualifiesAfterMarker(t: string, tail: string)
    requires AllDigits(t)
    requires forall k :: 0 <= k < |tail| ==> tail[k] != '_'
    ensures var s := Marker + t + ".csv" + tail;
      forall j :: 9 < j < |s| ==> !Qualifies(s, j)
  {
    var s := Marker + t + ".csv" + tail;
    var e := 10 + |t|;
    forall j | 9 < j < |s|
      ensures s[j] != '_'
    {
      if j < e {
        assert s[j] == t[j - 10];
      } else if j < e + 4 {
        assert s[e..e + 4] == ".csv";
        assert s[j] == ".csv"[j - e];
      } else {
        assert s[j] == tail[j - e - 4];
      }
    }
  }

  /** Twelve digits and the same digits behind their century name the same instant. */
  lemma CenturyExpansion(t: string)
    requires AllDigits(t) && |t| == 12
    ensures var c := if Value(t[..2]) <= 68 then "20" else "19";
      AllDigits(c + t) && Fields(c + t) == Fields(t)
  {
    var c := if Value(t[..2]) <= 68 then "20" else "19";
    var u := c + t;
    DigitsAppend(c, t);
    var d, e := Fields(u), Fields(t);
    assert d.year == e.year by {
      assert u[..4] == c + t[..2];
      CenturyValue(c, t[..2]);
      TwoDigitValue(c);
    }
    assert d.month == e.month by { SliceAfter(c, t, 2, 4); }
    assert d.day == e.day by { SliceAfter(c, t, 4, 6); }
    assert d.hour == e.hour by { SliceAfter(c, t, 6, 8); }
    assert d.minute == e.minute by { SliceAfter(c, t, 8, 10); }
    assert d.second == e.second by { SliceAfter(c, t, 10, 12); }
  }

  lemma CenturyValue(c: string, y: string)
    requires c == "20" || c == "19"
    requires |y| == 2 && AllDigits(y)
    ensures AllDigits(c + y) && Value(c + y) == 100 * Value(c) + Value(y)
  {
    var s := c + y;
    assert s[..2] == c && s[2..] == y;
    FourDigitValue(s);
  }

  lemma SliceAfter(c: string, t: string, i: nat, j: nat)
    requires i <= j <= |t|
    ensures (c + t)[|c| + i..|c| + j] == t[i..j]
  {
  }

  /** The fields of the two-digit-year timestamp `230101120000`. */
  lemma ExampleFields()
    ensures AllDigits("230101120000") && Fields("230101120000") == DateTime(2023, 1, 1, 12, 0, 0)
  {
    var t := "230101120000";
    TwoDigitValue(t[..2]);
    TwoDigitValue(t[2..4]);
    TwoDigitValue(t[4..6]);
    TwoDigitValue(t[6..8]);
    TwoDigitValue(t[8..10]);
    TwoDigitValue(t[10..12]);
  }

  /** The examples of the exporter's names: a two-digit and a four-digit year for the same
      instant, one name without a timestamp, and a timestamp of thirteen digits. */
  lemma TwoDigitYearExample()
    ensures ExportDateFromFile(Marker + "230101120000" + ".csv" + "") == Ok(DateTime(2023, 1, 1, 12, 0, 0))
  {
    ExportNameText("230101120000", "");
    ExampleFields();
  }

  lemma FourDigitYearExample()
    ensures ExportDateFromFile(Marker + ("20" + "230101120000") + ".csv" + ".bak") == Ok(DateTime(2023, 1, 1, 12, 0, 0))
  {
    var t := "230101120000";
    ExampleFields();
    assert Value(t[..2]) == 23 by {
      TwoDigitValue(t[..2]);
    }
    CenturyExpansion(t);
    ExportNameText("20" + t, ".bak");
  }

  lemma NoTimestampExample()
    ensures ExportDateFromFile(Marker + "abc" + ".csv") == Err(DateParse)
  {
    var s := Marker + "abc" + ".csv";
    forall i | 0 <= i < |s|
      ensures !Qualifies(s, i)
    {
      if i == 0 {
        assert s[0] == 'i';
      } else {
        assert |s| == 17;
        assert !CsvLater(s, i + 13);
      }
    }
  }

  lemma ThirteenDigits(t: string)
    requires AllDigits(t) && |t| == 13
    ensures ExportDateFromFile(Marker + t + ".csv" + "") == Err(DateParse)
  {
    ExportNameText(t, "");
  }

  /** The name the exporter writes for a date is read back as that date. */
  lemma ExportNameRoundTrip(d: DateTime)
    requires Valid(d)
    ensures ExportDateFromFile(Marker + Timestamp(d) + ".csv" + "") == Ok(d)
  {
    ExportNameText(Timestamp(d), "");
    ParseOfTimestamp(d);
  }
}
