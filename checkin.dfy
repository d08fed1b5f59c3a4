/** handleScan (App.tsx): the decision taken on one decoded scan, given the
    roster, the mapping and the keys already checked in this session. */
module Checkin {
  import opened Wrappers
  import opened Text
  import opened Types
  import opened Matcher

  const DuplicateMessage := "Already verified."
  const NotFoundMessage := "ID not found in list."

  /** How many characters of the raw scan a NOT_FOUND result keeps. */
  const ShownLimit := 30

  /** The key a scan checks in under: the matched row's trimmed ID, or the
      matched token when there is no row. */
  function UniqueKey(r: MatchResult, m: ColumnMapping): string {
    match r.row
    case Some(row) => IdOf(row, m)
    case None => r.matchedId
  }

  /** The scanned value shown for an unknown code: the raw (untrimmed) scan,
      cut to its first 30 characters with "..." appended when longer. */
  function Shown(raw: string): string {
    if |raw| > ShownLimit then raw[..ShownLimit] + "..." else raw
  }

  /** The result of one scan and the set of checked-in keys after it. */
  datatype Outcome = Outcome(result: VerificationResult, verified: set<string>)

  /** handleScan without the side effects: DUPLICATE when the key is already
      checked in, SUCCESS (and the key added) for a new match, NOT_FOUND
      otherwise. */
  function Verify(rows: seq<Row>, m: ColumnMapping, verified: set<string>, text: string, now: Instant): Outcome {
    var r := FindMatch(rows, m, text);
    var key := UniqueKey(r, m);
    if key in verified then
      Outcome(VerificationResult(Duplicate, r.row, Some(DuplicateMessage), now, r.matchedId), verified)
    else if r.row.Some? then
      Outcome(VerificationResult(Success, r.row, None, now, r.matchedId), verified + {key})
    else
      Outcome(VerificationResult(NotFound, None, Some(NotFoundMessage), now, Shown(text)), verified)
  }

  /** Every checked-in key is the trimmed ID of some roster row. */
  ghost predicate KeysInRoster(rows: seq<Row>, m: ColumnMapping, verified: set<string>) {
    forall k | k in verified :: exists i | 0 <= i < |rows| :: IdOf(rows[i], m) == k
  }

  // ----- properties of handleScan -----

  /** A scan of at most 30 characters is shown whole; a longer one as its
      first 30 characters and "...", 33 characters in all. */
  lemma ShownBound(raw: string)
    ensures |Shown(raw)| <= ShownLimit + 3
    ensures |raw| <= ShownLimit ==> Shown(raw) == raw
    ensures |raw| > ShownLimit ==>
      && |Shown(raw)| == ShownLimit + 3
      && StartsWith(Shown(raw), raw[..ShownLimit])
      && StartsWith(raw, Shown(raw)[..ShownLimit])
      && Shown(raw)[ShownLimit..] == "..."
  {
  }

  /** The three outcomes, when each happens, and what each does to the set. */
  lemma ScanOutcomes(rows: seq<Row>, m: ColumnMapping, verified: set<string>, text: string, now: Instant)
    ensures var o := Verify(rows, m, verified, text, now);
      var r := FindMatch(rows, m, text);
      && o.result.status in {Success, NotFound, Duplicate}
      && o.result.timestamp == now
      && (o.result.status == Success <==> r.row.Some? && IdOf(r.row.value, m) !in verified)
      && (o.result.status == Success ==>
            && o.result.data == r.row && o.result.data.value in rows
            && o.result.message.None? && o.result.scannedValue == r.matchedId
            && o.verified == verified + {IdOf(r.row.value, m)})
      && (o.result.status == Duplicate <==> UniqueKey(r, m) in verified)
      && (o.result.status == Duplicate ==>
            o.result.data == r.row && o.result.message == Some(DuplicateMessage)
            && o.result.scannedValue == r.matchedId)
      && (o.result.status == NotFound <==> r.row.None? && Trim(text) !in verified)
      && (o.result.status == NotFound ==>
            o.result.data.None? && o.result.message == Some(NotFoundMessage)
            && o.result.scannedValue == Shown(text))
      && (o.result.status != Success ==> o.verified == verified)
  {
    FindMatchSound(rows, m, text);
  }

  /** A scan preserves "every checked-in key is a roster ID". */
  lemma VerifyKeepsKeysInRoster(rows: seq<Row>, m: ColumnMapping, verified: set<string>, text: string, now: Instant)
    requires KeysInRoster(rows, m, verified)
    ensures KeysInRoster(rows, m, Verify(rows, m, verified, text, now).verified)
  {
    var r := FindMatch(rows, m, text);
    FindMatchSound(rows, m, text);
    if r.row.Some? && IdOf(r.row.value, m) !in verified {
      var i :| 0 <= i < |rows| && rows[i] == r.row.value;
      assert IdOf(rows[i], m) == UniqueKey(r, m);
    }
  }

  /** A scan that is no row's code is NOT_FOUND while every checked-in key is
      a roster ID: such a key would itself have matched a row. */
  lemma MissNeverDuplicate(rows: seq<Row>, m: ColumnMapping, verified: set<string>, text: string, now: Instant)
    requires KeysInRoster(rows, m, verified)
    requires FindMatch(rows, m, text).row.None?
    ensures Verify(rows, m, verified, text, now).result.status == NotFound
  {
    var t := Trim(text);
    FindMatchMiss(rows, m, text);
    FindMatchSound(rows, m, text);
    assert UniqueKey(FindMatch(rows, m, text), m) == t;
    assert forall i | 0 <= i < |rows| :: IdOf(rows[i], m) != t by {
      forall i | 0 <= i < |rows| ensures IdOf(rows[i], m) != t {
        assert !Accepts(rows[i], m, t, ById);
      }
    }
  }

  /** The first scan of an unchecked roster ID checks that row in. */
  lemma FirstScanSucceeds(rows: seq<Row>, m: ColumnMapping, verified: set<string>, text: string, now: Instant, i: nat)
    requires i < |rows| && IdOf(rows[i], m) == Trim(text)
    requires forall j | 0 <= j < i :: IdOf(rows[j], m) != Trim(text)
    requires Trim(text) !in verified
    ensures Verify(rows, m, verified, text, now).result.status == Success
    ensures Verify(rows, m, verified, text, now).result.data == Some(rows[i])
    ensures Verify(rows, m, verified, text, now).verified == verified + {Trim(text)}
  {
    WholeIdFirst(rows, m, text, i);
  }

  /** Once a row is checked in, any later scan that resolves to a row with the
      same ID, by whatever strategy, is a DUPLICATE and changes nothing. */
  lemma SameAttendeeIsDuplicate(rows: seq<Row>, m: ColumnMapping, verified: set<string>,
                                text1: string, now1: Instant, text2: string, now2: Instant)
    requires Verify(rows, m, verified, text1, now1).result.status == Success
    requires FindMatch(rows, m, text2).row.Some?
    requires IdOf(FindMatch(rows, m, text2).row.value, m) == IdOf(FindMatch(rows, m, text1).row.value, m)
    ensures var after := Verify(rows, m, verified, text1, now1).verified;
      && Verify(rows, m, after, text2, now2).result.status == Duplicate
      && Verify(rows, m, after, text2, now2).verified == after
  {
  }

  /** In particular the same code scanned twice is a DUPLICATE the second time. */
  lemma SameScanTwiceIsDuplicate(rows: seq<Row>, m: ColumnMapping, verified: set<string>,
                                 text: string, now1: Instant, now2: Instant)
    requires Verify(rows, m, verified, text, now1).result.status == Success
    ensures Verify(rows, m, Verify(rows, m, verified, text, now1).verified, text, now2).result.status == Duplicate
  {
    SameAttendeeIsDuplicate(rows, m, verified, text, now1, text, now2);
  }
}
