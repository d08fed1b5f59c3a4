/** handleDownloadReport (App.tsx): the roster merged with the session's
    check-ins, and the name of the exported workbook. */
module Report {
  import opened Wrappers
  import opened Text
  import opened Types
  import opened Matcher
  import opened Logs

  const StatusColumn := "Attendance Status"
  const TimeColumn := "Check-in Time"
  const PresentLabel := "Present"
  const AbsentLabel := "Absent"
  const SheetName := "Attendance Report"
  const ExportSuffix := "_Attendance.xlsx"

  /** Index of the earliest successful entry with the given key. */
  function FirstSuccess(logs: seq<ScanLog>, m: ColumnMapping, key: string): (r: Option<nat>)
    ensures r.Some? ==> r.value < |logs| && IsSuccess(logs[r.value]) && KeyOf(logs[r.value], m) == key
    ensures r.Some? ==> forall j | 0 <= j < r.value :: !(IsSuccess(logs[j]) && KeyOf(logs[j], m) == key)
    ensures r.None? ==> forall j | 0 <= j < |logs| :: !(IsSuccess(logs[j]) && KeyOf(logs[j], m) == key)
  {
    if |logs| == 0 then None
    else if IsSuccess(logs[0]) && KeyOf(logs[0], m) == key then Some(0)
    else match FirstSuccess(logs[1..], m, key)
      case None => None
      case Some(k) => Some(k + 1)
  }

  /** checkInMap, as logs.forEach builds it: each successful entry sets its
      key's time unless the key already has one. */
  function CheckInMap(logs: seq<ScanLog>, m: ColumnMapping, showTime: Instant -> string): map<string, string> {
    if |logs| == 0 then map[]
    else
      var c := CheckInMap(logs[..|logs| - 1], m, showTime);
      var l := logs[|logs| - 1];
      if IsSuccess(l) && KeyOf(l, m) !in c then c[KeyOf(l, m) := showTime(l.result.timestamp)] else c
  }

  /** One report row: the roster row with the two attendance columns set
      (replacing columns of the same name). */
  function MergeRow(row: Row, m: ColumnMapping, checkIns: map<string, string>): Row {
    var key := IdOf(row, m);
    if key in checkIns then row[StatusColumn := Str(PresentLabel)][TimeColumn := Str(checkIns[key])]
    else row[StatusColumn := Str(AbsentLabel)][TimeColumn := Str("")]
  }

  /** excelData.map(...): the report rows, in roster order. */
  function BuildReport(rows: seq<Row>, m: ColumnMapping, checkIns: map<string, string>): seq<Row> {
    seq(|rows|, k requires 0 <= k < |rows| => MergeRow(rows[k], m, checkIns))
  }

  /** Index of the last '.' in s. */
  function LastDot(s: string): (r: Option<nat>)
    ensures r.Some? ==> r.value < |s| && s[r.value] == '.' && forall j | r.value < j < |s| :: s[j] != '.'
    ensures r.None? ==> forall j | 0 <= j < |s| :: s[j] != '.'
  {
    if |s| == 0 then None
    else if s[|s| - 1] == '.' then Some(|s| - 1)
    else LastDot(s[..|s| - 1])
  }

  /** fileName.replace(/\.[^/.]+$/, ""): drop a final extension. */
  function StripExtension(name: string): string {
    match LastDot(name)
    case Some(i) => if i + 1 < |name| && '/' !in name[i + 1..] then name[..i] else name
    case None => name
  }

  /** The regular expression matches at i: a '.' followed by one or more
      characters, none of them '/' or '.', up to the end of the name. */
  predicate ExtensionAt(name: string, i: nat) {
    && i + 1 < |name| && name[i] == '.'
    && forall j | i < j < |name| :: name[j] != '/' && name[j] != '.'
  }

  /** `${fileNameClean}_Attendance.xlsx` */
  function ExportName(name: string): string {
    StripExtension(name) + ExportSuffix
  }

  /** What writeFile receives: one sheet of report rows, and the file name. */
  datatype Export = Export(sheet: string, rows: seq<Row>, fileName: string)

  /** The download: nothing when the roster is empty ("No data to export."). */
  function ReportOf(rows: seq<Row>, logs: seq<ScanLog>, m: ColumnMapping, fileName: string,
                    showTime: Instant -> string): Option<Export> {
    if |rows| == 0 then None
    else Some(Export(SheetName, BuildReport(rows, m, CheckInMap(logs, m, showTime)), ExportName(fileName)))
  }

  /** The loop of handleDownloadReport that fills checkInMap. */
  method CheckInTimes(logs: seq<ScanLog>, m: ColumnMapping, showTime: Instant -> string)
    returns (checkIns: map<string, string>)
    ensures checkIns == CheckInMap(logs, m, showTime)
  {
    checkIns := map[];
    var i := 0;
    while i < |logs|
      invariant 0 <= i <= |logs|
      invariant checkIns == CheckInMap(logs[..i], m, showTime)
    {
      var l := logs[i];
      assert logs[..i + 1][..i] == logs[..i];
      if l.result.status == Success && l.result.data.Some? {
        var key := IdOf(l.result.data.value, m);
        if key !in checkIns {
          checkIns := checkIns[key := showTime(l.result.timestamp)];
        }
      }
      i := i + 1;
    }
    assert logs[..i] == logs;
  }

  // ----- properties of the report -----

  /** The check-in times hold exactly the successful keys, each with the time
      of its earliest successful entry. */
  lemma {:induction false} CheckInMapSpec(logs: seq<ScanLog>, m: ColumnMapping, showTime: Instant -> string, key: string)
    ensures key in CheckInMap(logs, m, showTime) <==> FirstSuccess(logs, m, key).Some?
    ensures key in CheckInMap(logs, m, showTime) ==>
      CheckInMap(logs, m, showTime)[key] == showTime(logs[FirstSuccess(logs, m, key).value].result.timestamp)
  {
    if |logs| > 0 {
      var init := logs[..|logs| - 1];
      var l := logs[|logs| - 1];
      CheckInMapSpec(init, m, showTime, key);
      var f := FirstSuccess(init, m, key);
      assert forall j | 0 <= j < |init| :: init[j] == logs[j];
      if f.Some? {
        assert FirstSuccess(logs, m, key) == f by {
          FirstSuccessPrefix(logs, init, m, key);
        }
      } else if IsSuccess(l) && KeyOf(l, m) == key {
        assert FirstSuccess(logs, m, key) == Some(|logs| - 1) by {
          FirstSuccessPrefix(logs, init, m, key);
        }
      } else {
        FirstSuccessPrefix(logs, init, m, key);
      }
    }
  }

  /** FirstSuccess is determined by the first-index characterisation. */
  lemma FirstSuccessPrefix(logs: seq<ScanLog>, init: seq<ScanLog>, m: ColumnMapping, key: string)
    requires |init| + 1 == |logs| && forall j | 0 <= j < |init| :: init[j] == logs[j]
    ensures FirstSuccess(init, m, key).Some? ==> FirstSuccess(logs, m, key) == FirstSuccess(init, m, key)
    ensures FirstSuccess(init, m, key).None? ==>
      FirstSuccess(logs, m, key) ==
        if IsSuccess(logs[|init|]) && KeyOf(logs[|init|], m) == key then Some(|init|) else None
  {
    var f := FirstSuccess(init, m, key);
    var g := FirstSuccess(logs, m, key);
    if f.Some? {
      assert g.Some?;
      assert !(g.value < f.value) && !(f.value < g.value);
    } else if g.Some? {
      assert g.value == |init|;
    }
  }

  /** The report has one row per roster row, in order, and the two attendance
      columns on top of the row's own columns, which keep their values. */
  lemma ReportShape(rows: seq<Row>, m: ColumnMapping, checkIns: map<string, string>)
    ensures var report := BuildReport(rows, m, checkIns);
      && |report| == |rows|
      && forall k | 0 <= k < |rows| ::
        && report[k].Keys == rows[k].Keys + {StatusColumn, TimeColumn}
        && forall c | c in rows[k] && c != StatusColumn && c != TimeColumn :: report[k][c] == rows[k][c]
  {
  }

  /** A roster row is Present exactly when some successful entry has its ID,
      and then carries the time of the earliest one; otherwise it is Absent
      with an empty time. */
  lemma ReportAttendance(rows: seq<Row>, logs: seq<ScanLog>, m: ColumnMapping, showTime: Instant -> string, k: nat)
    requires k < |rows|
    ensures var row := BuildReport(rows, m, CheckInMap(logs, m, showTime))[k];
      var key := IdOf(rows[k], m);
      && (row[StatusColumn] == Str(PresentLabel) <==>
            exists i | 0 <= i < |logs| :: IsSuccess(logs[i]) && KeyOf(logs[i], m) == key)
      && (row[StatusColumn] != Str(PresentLabel) ==>
            row[StatusColumn] == Str(AbsentLabel) && row[TimeColumn] == Str(""))
      && (row[StatusColumn] == Str(PresentLabel) ==>
            row[TimeColumn] == Str(showTime(logs[FirstSuccess(logs, m, key).value].result.timestamp)))
  {
    var key := IdOf(rows[k], m);
    CheckInMapSpec(logs, m, showTime, key);
    var f := FirstSuccess(logs, m, key);
    if f.Some? {
      assert IsSuccess(logs[f.value]) && KeyOf(logs[f.value], m) == key;
    }
  }

  /** Present rows are exactly those whose ID is a success key. */
  lemma PresentIffChecked(rows: seq<Row>, logs: seq<ScanLog>, m: ColumnMapping, showTime: Instant -> string, k: nat)
    requires k < |rows|
    ensures BuildReport(rows, m, CheckInMap(logs, m, showTime))[k][StatusColumn] == Str(PresentLabel)
      <==> IdOf(rows[k], m) in SuccessKeys(logs, m)
  {
    ReportAttendance(rows, logs, m, showTime, k);
    SuccessKeysMembership(logs, m, IdOf(rows[k], m));
  }

  /** A later entry that is no success, or a success for a key already
      checked in, leaves the report as it was. */
  lemma LaterLogsKeepReport(rows: seq<Row>, logs: seq<ScanLog>, l: ScanLog, m: ColumnMapping,
                            fileName: string, showTime: Instant -> string)
    requires IsSuccess(l) ==> KeyOf(l, m) in SuccessKeys(logs, m)
    ensures ReportOf(rows, logs + [l], m, fileName, showTime) == ReportOf(rows, logs, m, fileName, showTime)
  {
    var logs' := logs + [l];
    assert logs'[..|logs|] == logs;
    if IsSuccess(l) {
      SuccessKeysMembership(logs, m, KeyOf(l, m));
      CheckInMapSpec(logs, m, showTime, KeyOf(l, m));
    }
  }

  /** The regular expression strips exactly a final extension: it changes the
      name exactly when it matches, and then removes from the match on. */
  lemma StripExtensionSpec(name: string)
    ensures StripExtension(name) != name <==> exists i: nat :: ExtensionAt(name, i)
    ensures forall i: nat | ExtensionAt(name, i) :: StripExtension(name) == name[..i]
  {
    match LastDot(name)
    case Some(i) =>
      if i + 1 < |name| && '/' !in name[i + 1..] {
        assert forall j | i < j < |name| :: name[j] == name[i + 1..][j - i - 1];
        assert ExtensionAt(name, i);
        assert |name[..i]| < |name|;
      } else if i + 1 < |name| {
        var j :| i + 1 <= j < |name| && name[j] == '/';
        assert name[j] == name[i + 1..][j - i - 1];
      }
    case None =>
      assert forall i: nat | i < |name| :: name[i] != '.';
  }

  /** The last dot is the one with no dot after it. */
  lemma LastDotAt(s: string, i: nat)
    requires i < |s| && s[i] == '.'
    requires forall j | i < j < |s| :: s[j] != '.'
    ensures LastDot(s) == Some(i)
  {
  }

  /** A final extension is dropped, and only the final one. */
  lemma ExportNameDropsLastExtension()
    ensures ExportName("a.b.xlsx") == "a.b_Attendance.xlsx"
  {
    LastDotAt("a.b.xlsx", 3);
    assert "a.b.xlsx"[4..] == "xlsx";
    assert "a.b.xlsx"[..3] == "a.b";
  }

  /** A name without a dot, or ending in a dot, is kept whole. */
  lemma ExportNameKeepsBareName()
    ensures ExportName("roster") == "roster_Attendance.xlsx"
    ensures ExportName("roster.") == "roster._Attendance.xlsx"
  {
    NoDotIn("roster");
    LastDotAt("roster.", 6);
  }

  lemma NoDotIn(s: string)
    requires forall j | 0 <= j < |s| :: s[j] != '.'
    ensures StripExtension(s) == s
  {
  }

  /** A dot followed by a '/' does not start an extension. */
  lemma ExportNameKeepsDotBeforeSlash()
    ensures ExportName("a.b/c") == "a.b/c" + ExportSuffix
  {
    var name := "a.b/c";
    assert name[1] == '.' && name[3] == '/';
    assert forall j | 1 < j < |name| :: name[j] != '.';
    SlashAfterDot(name, 1, 3);
  }

  lemma SlashAfterDot(name: string, i: nat, k: nat)
    requires i < k < |name| && name[i] == '.' && name[k] == '/'
    requires forall j | i < j < |name| :: name[j] != '.'
    ensures StripExtension(name) == name
  {
    LastDotAt(name, i);
    assert name[i + 1..][k - i - 1] == '/';
  }
}
