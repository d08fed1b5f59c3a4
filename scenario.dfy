/** A worked session: a two-person roster, four scans and the report. Alice
    is checked in by ID, her email is then a duplicate, an unknown code is not
    found, and a tab-separated badge dump checks Bob in through its first token. */
module Scenario {
  import opened Wrappers
  import opened Text
  import opened Types
  import opened Matcher
  import opened Checkin
  import opened Logs
  import opened Report

  const Alice: Row := map["ID" := Str("A1"), "Name" := Str("Alice"), "Email" := Str("a@x.com")]
  const Bob: Row := map["ID" := Str("B2"), "Name" := Str("Bob")]
  const Roster: seq<Row> := [Alice, Bob]
  const Columns := ColumnMapping("ID", "Name", "Email", "", "", "")

  /** The badge dump: ID, name and email separated by tabs. */
  const Dump := "B2\tBob\tsome@team.com"

  lemma RosterKeys()
    ensures IdOf(Alice, Columns) == "A1" && IdOf(Bob, Columns) == "B2"
    ensures EmailOf(Alice, Columns) == "a@x.com" && EmailOf(Bob, Columns) == "undefined"
  {
    AliceKeys();
    BobKeys();
  }

  lemma AliceKeys()
    ensures IdOf(Alice, Columns) == "A1" && EmailOf(Alice, Columns) == "a@x.com"
  {
    assert Get(Alice, "ID") == Str("A1");
    assert Get(Alice, "Email") == Str("a@x.com");
    AliceCodesAreTrimmed();
    assert Lower("a@x.com") == "a@x.com";
  }

  lemma BobKeys()
    ensures IdOf(Bob, Columns) == "B2" && EmailOf(Bob, Columns) == "undefined"
  {
    assert Get(Bob, "ID") == Str("B2");
    assert Get(Bob, "Email") == Missing;
    assert Trim("B2") == "B2";
    UndefinedIsLowerTrimmed();
  }

  lemma UndefinedIsLowerTrimmed()
    ensures Lower(Trim("undefined")) == "undefined"
  {
    assert Trim("undefined") == "undefined";
    assert Lower("undefined") == "undefined";
  }

  lemma AliceCodesAreTrimmed()
    ensures Trim("A1") == "A1" && Trim("a@x.com") == "a@x.com"
  {
  }

  lemma IdFindsAlice()
    ensures FindMatch(Roster, Columns, "A1") == MatchResult(Some(Alice), "A1")
  {
    RosterKeys();
    AliceCodesAreTrimmed();
    WholeIdFirst(Roster, Columns, "A1", 0);
  }

  /** Scanning "A1" first checks Alice in. */
  lemma FirstScan()
    ensures Verify(Roster, Columns, {}, "A1", 1) ==
      Outcome(VerificationResult(Success, Some(Alice), None, 1, "A1"), {"A1"})
  {
    RosterKeys();
    IdFindsAlice();
  }

  lemma EmailFindsAlice()
    ensures FindMatch(Roster, Columns, "a@x.com") == MatchResult(Some(Alice), "a@x.com")
  {
    RosterKeys();
    AliceCodesAreTrimmed();
    assert Lower("a@x.com") == "a@x.com";
    WholeEmailSecond(Roster, Columns, "a@x.com", 0);
  }

  /** Her email afterwards resolves to her ID and is a duplicate. */
  lemma EmailIsDuplicate()
    ensures Verify(Roster, Columns, {"A1"}, "a@x.com", 2) ==
      Outcome(VerificationResult(Duplicate, Some(Alice), Some(DuplicateMessage), 2, "a@x.com"), {"A1"})
  {
    RosterKeys();
    EmailFindsAlice();
  }

  /** A token that neither row accepts finds nothing. */
  lemma NoRowAccepts(token: string, s: Strategy)
    requires !Accepts(Alice, Columns, token, s) && !Accepts(Bob, Columns, token, s)
    ensures FirstRow(Roster, Columns, token, s) == None
  {
    assert Roster[1..][1..] == [];
  }

  lemma UnknownMissesRows()
    ensures FirstRow(Roster, Columns, "Z9", ById) == None
    ensures FirstRow(Roster, Columns, "Z9", ByEmail) == None
  {
    RosterKeys();
    assert |Lower("Z9")| == 2;
    assert |EmailOf(Alice, Columns)| == 7 && |EmailOf(Bob, Columns)| == 9;
    NoRowAccepts("Z9", ById);
    NoRowAccepts("Z9", ByEmail);
  }

  lemma UnknownHasNoDelimiter()
    ensures TryDelimiters(Roster, Columns, "Z9", Delimiters) == MatchResult(None, "Z9")
  {
    assert forall d | d in Delimiters :: d !in "Z9";
    assert Delimiters[1..][1..] == Delimiters[2..];
  }

  lemma UnknownMatchesNothing()
    ensures FindMatch(Roster, Columns, "Z9") == MatchResult(None, "Z9")
  {
    UnknownIsTrimmed();
    UnknownMissesRows();
    assert Find(Roster, Columns, "Z9", ById) == None;
    assert Find(Roster, Columns, "Z9", ByEmail) == None;
    UnknownHasNoDelimiter();
  }

  lemma UnknownIsTrimmed()
    ensures Trim("Z9") == "Z9"
  {
  }

  /** A code that is nobody's is not found and shown as scanned. */
  lemma UnknownIsNotFound()
    ensures Verify(Roster, Columns, {"A1"}, "Z9", 3) ==
      Outcome(VerificationResult(NotFound, None, Some(NotFoundMessage), 3, "Z9"), {"A1"})
  {
    UnknownMatchesNothing();
  }

  lemma DumpIsTrimmed()
    ensures Trim(Dump) == Dump
  {
    assert TrimStart(Dump) == Dump;
    assert Dump[|Dump| - 1] == 'm';
  }

  lemma DumpPieces()
    ensures Split(Dump, '\t') == ["B2", "Bob", "some@team.com"]
  {
    var pieces := ["B2", "Bob", "some@team.com"];
    assert Join(pieces, '\t') == Dump;
    SplitJoin(pieces, '\t');
  }

  lemma PiecesAreTrimmed()
    ensures Trim("B2") == "B2" && Trim("Bob") == "Bob" && Trim("some@team.com") == "some@team.com"
  {
  }

  /** The tokens of the dump, split on tab. */
  lemma DumpTokens()
    ensures Parts(Dump, '\t') == ["B2", "Bob", "some@team.com"]
  {
    DumpPieces();
    PiecesAreTrimmed();
    var parts := Parts(Dump, '\t');
    assert |parts| == 3;
  }

  /** The tab tokens check in Bob through "B2". */
  lemma TabTokensFindBob()
    ensures TryDelimiter(Roster, Columns, Dump, '\t') == Some(MatchResult(Some(Bob), "B2"))
  {
    RosterKeys();
    DumpTokens();
    var parts := Parts(Dump, '\t');
    assert FirstRow(Roster, Columns, "B2", ById) == Some(1);
    assert PartHits(Roster, Columns, parts[0], ById);
    assert FirstPart(Roster, Columns, parts, ById) == Some(0);
  }

  lemma DumpMissesRows()
    ensures FirstRow(Roster, Columns, Dump, ById) == None
    ensures FirstRow(Roster, Columns, Dump, ByEmail) == None
  {
    RosterKeys();
    assert |Lower(Dump)| == |Dump| == 20;
    assert |EmailOf(Alice, Columns)| == 7 && |EmailOf(Bob, Columns)| == 9;
    NoRowAccepts(Dump, ById);
    NoRowAccepts(Dump, ByEmail);
  }

  /** The dump matches no row whole, so its first token checks Bob in. */
  lemma DumpMatchesBob()
    ensures FindMatch(Roster, Columns, Dump) == MatchResult(Some(Bob), "B2")
  {
    DumpIsTrimmed();
    DumpMissesRows();
    DumpFallback();
  }

  lemma DumpFallback()
    ensures TryDelimiters(Roster, Columns, Dump, Delimiters) == MatchResult(Some(Bob), "B2")
  {
    TabTokensFindBob();
    DumpHasTab();
    assert Delimiters[0] == '\t';
  }

  lemma DumpHasTab()
    ensures '\t' in Dump
  {
    assert Dump[2] == '\t';
  }

  lemma DumpChecksInBob()
    ensures Verify(Roster, Columns, {"A1"}, Dump, 4) ==
      Outcome(VerificationResult(Success, Some(Bob), None, 4, "B2"), {"A1", "B2"})
  {
    RosterKeys();
    DumpMatchesBob();
  }

  /** The session's log after the four scans. */
  function ScenarioLog(): seq<ScanLog> {
    [ ScanLog(VerificationResult(Success, Some(Alice), None, 1, "A1"), "e1"),
      ScanLog(VerificationResult(Duplicate, Some(Alice), Some(DuplicateMessage), 2, "a@x.com"), "e2"),
      ScanLog(VerificationResult(NotFound, None, Some(NotFoundMessage), 3, "Z9"), "e3"),
      ScanLog(VerificationResult(Success, Some(Bob), None, 4, "B2"), "e4") ]
  }

  /** Alice's first success is the first entry, Bob's the fourth. */
  lemma ScenarioFirstSuccesses()
    ensures FirstSuccess(ScenarioLog(), Columns, "A1") == Some(0)
    ensures FirstSuccess(ScenarioLog(), Columns, "B2") == Some(3)
  {
    var logs := ScenarioLog();
    AliceKeys();
    BobKeys();
    assert IsSuccess(logs[0]) && KeyOf(logs[0], Columns) == "A1";
    assert IsSuccess(logs[3]) && KeyOf(logs[3], Columns) == "B2";
    assert !IsSuccess(logs[1]) && !IsSuccess(logs[2]);
    assert KeyOf(logs[0], Columns) != "B2";
  }

  /** Both attendees are Present in the report, Alice with the time of the
      first scan and Bob with that of the fourth. */
  lemma ScenarioReport(showTime: Instant -> string)
    ensures var report := BuildReport(Roster, Columns, CheckInMap(ScenarioLog(), Columns, showTime));
      && |report| == 2
      && report[0][StatusColumn] == Str(PresentLabel) && report[0][TimeColumn] == Str(showTime(1))
      && report[1][StatusColumn] == Str(PresentLabel) && report[1][TimeColumn] == Str(showTime(4))
  {
    var logs := ScenarioLog();
    RosterKeys();
    ScenarioFirstSuccesses();
    ReportAttendance(Roster, logs, Columns, showTime, 0);
    ReportAttendance(Roster, logs, Columns, showTime, 1);
  }
}
