/** The check-in session state of App.tsx: the loaded roster, its file name and
    column mapping, the scan log, the result on screen and the set of keys
    checked in so far, with the handlers that update them. */
module Sessions {
  import opened Wrappers
  import opened Types
  import opened Matcher
  import opened ColumnRoles
  import opened Checkin
  import opened Logs
  import opened Report

  /** The session invariant over the state's parts: the checked-in set is
      exactly the keys of the successful log entries, each a roster ID and each
      logged once; every entry is one of the three outcomes a scan produces,
      and every success carries its row. */
  ghost predicate Invariant(roster: seq<Row>, m: ColumnMapping, verified: set<string>, logs: seq<ScanLog>) {
    && KeysInRoster(roster, m, verified)
    && verified == SuccessKeys(logs, m)
    && SuccessesHaveData(logs)
    && DistinctSuccesses(logs, m)
    && forall i | 0 <= i < |logs| :: logs[i].result.status in {Success, NotFound, Duplicate}
  }

  /** A scan, logged, keeps the invariant, and its DUPLICATE results carry a row. */
  lemma ScanKeepsInvariant(roster: seq<Row>, m: ColumnMapping, verified: set<string>, logs: seq<ScanLog>,
                           text: string, now: Instant, logId: string)
    requires Invariant(roster, m, verified, logs)
    ensures var o := Verify(roster, m, verified, text, now);
      && Invariant(roster, m, o.verified, logs + [ScanLog(o.result, logId)])
      && (o.result.status == Duplicate ==> o.result.data.Some?)
  {
    var o := Verify(roster, m, verified, text, now);
    var l := ScanLog(o.result, logId);
    var logs' := logs + [l];
    ScanOutcomes(roster, m, verified, text, now);
    VerifyKeepsKeysInRoster(roster, m, verified, text, now);
    if FindMatch(roster, m, text).row.None? {
      MissNeverDuplicate(roster, m, verified, text, now);
    }
    SuccessKeysAppend(logs, l, m);
    AppendKeepsDistinct(logs, l, m);
    assert forall i | 0 <= i < |logs| :: logs'[i] == logs[i];
  }

  class Session {
    var roster: seq<Row>
    var fileName: string
    var mapping: ColumnMapping
    var logs: seq<ScanLog>
    var current: Option<VerificationResult>
    var verifiedIds: set<string>

    /** The session invariant on the current state. */
    ghost predicate Valid()
      reads this
    {
      Invariant(roster, mapping, verifiedIds, logs)
    }

    /** The state before anything is loaded. */
    constructor()
      ensures Valid()
      ensures roster == [] && fileName == "" && mapping == Unmapped
      ensures logs == [] && current.None? && verifiedIds == {}
    {
      roster := [];
      fileName := "";
      mapping := Unmapped;
      logs := [];
      current := None;
      verifiedIds := {};
    }

    /** handleFileUpload once the file is read: `parsed` is the first sheet's
        rows, or None when reading or parsing failed, and `headers` the keys of
        its first row. A non-empty roster replaces the old one, gets a fresh
        mapping and clears the log and the checked-in set; otherwise only the
        file name is cleared. */
    method Load(name: string, headers: seq<string>, parsed: Option<seq<Row>>, reply: AiReply)
      requires Valid()
      requires parsed.Some? && |parsed.value| > 0 ==>
        |headers| > 0 && forall h | h in headers :: h in parsed.value[0]
      modifies this
      ensures Valid()
      ensures current == old(current)
      ensures parsed.Some? && |parsed.value| > 0 ==>
        && roster == parsed.value && fileName == name
        && mapping == AnalyzeColumns(headers, reply)
        && logs == [] && verifiedIds == {}
      ensures !(parsed.Some? && |parsed.value| > 0) ==>
        && fileName == ""
        && roster == old(roster) && mapping == old(mapping)
        && logs == old(logs) && verifiedIds == old(verifiedIds)
    {
      fileName := name;
      if parsed.Some? && |parsed.value| > 0 {
        mapping := AnalyzeColumns(headers, reply);
        roster := parsed.value;
        logs := [];
        verifiedIds := {};
      } else {
        fileName := "";
      }
    }

    /** handleResult: show the result and append it to the log. Only Scan
        calls it, after deciding the result with Verify, and Scan is what
        keeps Valid(); on its own Record promises only the new state. */
    method Record(result: VerificationResult, logId: string)
      modifies this
      ensures logs == old(logs) + [ScanLog(result, logId)]
      ensures current == Some(result)
      ensures roster == old(roster) && fileName == old(fileName)
      ensures mapping == old(mapping) && verifiedIds == old(verifiedIds)
    {
      current := Some(result);
      logs := logs + [ScanLog(result, logId)];
    }

    /** handleScan: resolve the scan, decide DUPLICATE / SUCCESS / NOT_FOUND
        by the resolved key, and record the result. `now` is the clock and
        `logId` the entry id, both supplied by the caller. */
    method Scan(text: string, now: Instant, logId: string) returns (result: VerificationResult)
      requires Valid()
      modifies this
      ensures Valid()
      ensures var o := Verify(old(roster), old(mapping), old(verifiedIds), text, now);
        result == o.result && verifiedIds == o.verified
      ensures logs == old(logs) + [ScanLog(result, logId)] && current == Some(result)
      ensures roster == old(roster) && fileName == old(fileName) && mapping == old(mapping)
      ensures result.status == Duplicate ==> result.data.Some?
    {
      ghost var o := Verify(roster, mapping, verifiedIds, text, now);
      ScanKeepsInvariant(roster, mapping, verifiedIds, logs, text, now, logId);
      var r := FindMatchLoop(roster, mapping, text);
      var key := UniqueKey(r, mapping);
      if key in verifiedIds {
        result := VerificationResult(Duplicate, r.row, Some(DuplicateMessage), now, r.matchedId);
      } else if r.row.Some? {
        verifiedIds := verifiedIds + {key};
        result := VerificationResult(Success, r.row, None, now, r.matchedId);
      } else {
        result := VerificationResult(NotFound, None, Some(NotFoundMessage), now, Shown(text));
      }
      assert result == o.result && verifiedIds == o.verified;
      Record(result, logId);
    }

    /** resetSession: roster, file name, log and checked-in set are emptied;
        the mapping and the result on screen stay. */
    method Reset()
      modifies this
      ensures Valid()
      ensures roster == [] && fileName == "" && logs == [] && verifiedIds == {}
      ensures mapping == old(mapping) && current == old(current)
    {
      roster := [];
      fileName := "";
      logs := [];
      verifiedIds := {};
    }

    /** handleDownloadReport: nothing for an empty roster; otherwise the
        roster with each row marked Present exactly when its ID is checked in. */
    method DownloadReport(showTime: Instant -> string) returns (download: Option<Export>)
      requires Valid()
      ensures download == ReportOf(roster, logs, mapping, fileName, showTime)
      ensures download.Some? ==> forall k | 0 <= k < |roster| ::
        download.value.rows[k][StatusColumn] == Str(PresentLabel) <==> IdOf(roster[k], mapping) in verifiedIds
    {
      if |roster| == 0 {
        return None;
      }
      var checkIns := CheckInTimes(logs, mapping, showTime);
      download := Some(Export(SheetName, BuildReport(roster, mapping, checkIns), ExportName(fileName)));
      forall k | 0 <= k < |roster|
        ensures download.value.rows[k][StatusColumn] == Str(PresentLabel) <==> IdOf(roster[k], mapping) in verifiedIds
      {
        PresentIffChecked(roster, logs, mapping, showTime, k);
      }
    }

    /** The dashboard's Verified counter is the number of checked-in keys, and
        Verified plus Issues is the number of log entries. */
    lemma Counters()
      requires Valid()
      ensures |verifiedIds| == SuccessCount(logs)
      ensures SuccessCount(logs) + IssueCount(logs) == |logs|
    {
      CountIsKeyCount(logs, mapping);
      CountsPartition(logs);
    }
  }
}
