/** The scan log of a session and what is read off it: the Verified and Issues
    counters of the dashboard (components/Dashboard.tsx) and the keys of the
    successful check-ins. */
module Logs {
  import opened Types
  import opened Matcher

  /** A log entry that checks a row in: SUCCESS with the matched row. */
  predicate IsSuccess(l: ScanLog) {
    l.result.status == Success && l.result.data.Some?
  }

  /** String(log.data[mapping.idColumn]).trim() of a successful entry. */
  function KeyOf(l: ScanLog, m: ColumnMapping): string
    requires IsSuccess(l)
  {
    IdOf(l.result.data.value, m)
  }

  /** The keys of the successful entries, gathered entry by entry. */
  function SuccessKeys(logs: seq<ScanLog>, m: ColumnMapping): set<string> {
    if |logs| == 0 then {}
    else
      var l := logs[|logs| - 1];
      SuccessKeys(logs[..|logs| - 1], m) + if IsSuccess(l) then {KeyOf(l, m)} else {}
  }

  /** logs.filter(l => l.status === 'SUCCESS').length */
  function SuccessCount(logs: seq<ScanLog>): nat {
    if |logs| == 0 then 0
    else (if logs[0].result.status == Success then 1 else 0) + SuccessCount(logs[1..])
  }

  /** logs.filter(l => l.status !== 'SUCCESS').length */
  function IssueCount(logs: seq<ScanLog>): nat {
    if |logs| == 0 then 0
    else (if logs[0].result.status != Success then 1 else 0) + IssueCount(logs[1..])
  }

  /** Every SUCCESS entry carries its row. */
  ghost predicate SuccessesHaveData(logs: seq<ScanLog>) {
    forall i | 0 <= i < |logs| && logs[i].result.status == Success :: logs[i].result.data.Some?
  }

  /** No two successful entries check in the same key. */
  ghost predicate DistinctSuccesses(logs: seq<ScanLog>, m: ColumnMapping) {
    forall i, j | 0 <= i < j < |logs| && IsSuccess(logs[i]) && IsSuccess(logs[j]) ::
      KeyOf(logs[i], m) != KeyOf(logs[j], m)
  }

  // ----- properties of the log -----

  /** A key is among the success keys exactly when some successful entry has it. */
  lemma {:induction false} SuccessKeysMembership(logs: seq<ScanLog>, m: ColumnMapping, k: string)
    ensures k in SuccessKeys(logs, m) <==>
      exists i | 0 <= i < |logs| :: IsSuccess(logs[i]) && KeyOf(logs[i], m) == k
  {
    if |logs| > 0 {
      var init := logs[..|logs| - 1];
      SuccessKeysMembership(init, m, k);
      assert forall i | 0 <= i < |init| :: init[i] == logs[i];
    }
  }

  /** Appending an entry adds its key when it is a success and nothing otherwise. */
  lemma SuccessKeysAppend(logs: seq<ScanLog>, l: ScanLog, m: ColumnMapping)
    ensures SuccessKeys(logs + [l], m) == SuccessKeys(logs, m) + if IsSuccess(l) then {KeyOf(l, m)} else {}
  {
    assert (logs + [l])[..|logs|] == logs;
  }

  /** An entry whose key is new keeps the successful keys distinct. */
  lemma AppendKeepsDistinct(logs: seq<ScanLog>, l: ScanLog, m: ColumnMapping)
    requires DistinctSuccesses(logs, m)
    requires IsSuccess(l) ==> KeyOf(l, m) !in SuccessKeys(logs, m)
    ensures DistinctSuccesses(logs + [l], m)
  {
    var logs' := logs + [l];
    assert forall i | 0 <= i < |logs| :: logs'[i] == logs[i];
    if IsSuccess(l) {
      SuccessKeysMembership(logs, m, KeyOf(l, m));
    }
  }

  /** The counters count one more in exactly the column the new entry belongs to. */
  lemma {:induction false} CountsAppend(logs: seq<ScanLog>, l: ScanLog)
    ensures SuccessCount(logs + [l]) == SuccessCount(logs) + if l.result.status == Success then 1 else 0
    ensures IssueCount(logs + [l]) == IssueCount(logs) + if l.result.status != Success then 1 else 0
  {
    if |logs| > 0 {
      assert (logs + [l])[1..] == logs[1..] + [l];
      CountsAppend(logs[1..], l);
    } else {
      assert [] + [l] == [l];
    }
  }

  /** Verified plus Issues is the number of entries. */
  lemma {:induction false} CountsPartition(logs: seq<ScanLog>)
    ensures SuccessCount(logs) + IssueCount(logs) == |logs|
  {
    if |logs| > 0 {
      CountsPartition(logs[1..]);
    }
  }

  /** With distinct keys the Verified counter is the number of checked-in keys. */
  lemma {:induction false} CountIsKeyCount(logs: seq<ScanLog>, m: ColumnMapping)
    requires SuccessesHaveData(logs)
    requires DistinctSuccesses(logs, m)
    ensures |SuccessKeys(logs, m)| == SuccessCount(logs)
  {
    if |logs| > 0 {
      var init := logs[..|logs| - 1];
      var l := logs[|logs| - 1];
      assert logs == init + [l];
      CountIsKeyCount(init, m);
      CountsAppend(init, l);
      if IsSuccess(l) {
        SuccessKeysMembership(init, m, KeyOf(l, m));
        assert KeyOf(l, m) !in SuccessKeys(init, m);
      }
    }
  }
}
