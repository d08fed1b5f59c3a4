/** findMatch (App.tsx): resolve a decoded QR string to at most one roster
    row, trying an ordered chain of strategies and stopping at the first hit. */
module Matcher {
  import opened Wrappers
  import opened Text
  import opened Types

  /** The matched row, if any, and the token that matched it. */
  datatype MatchResult = MatchResult(row: Option<Row>, matchedId: string)

  /** The two comparisons a token is tried with. */
  datatype Strategy = ById | ByEmail

  /** String(row[mapping.idColumn]).trim(): the row's canonical identifier. */
  function IdOf(row: Row, m: ColumnMapping): string {
    Trim(ToStr(Get(row, m.idColumn)))
  }

  /** String(row[mapping.emailColumn]).trim().toLowerCase() */
  function EmailOf(row: Row, m: ColumnMapping): string {
    Lower(Trim(ToStr(Get(row, m.emailColumn))))
  }

  /** The row matches the token: plain string equality with its trimmed ID, or
      case-insensitive equality with its trimmed email. */
  predicate Accepts(row: Row, m: ColumnMapping, token: string, s: Strategy) {
    match s
    case ById => IdOf(row, m) == token
    case ByEmail => EmailOf(row, m) == Lower(token)
  }

  /** The index that rows.find(...) settles on: the first accepting row. */
  function FirstRow(rows: seq<Row>, m: ColumnMapping, token: string, s: Strategy): (r: Option<nat>)
    ensures r.Some? ==> r.value < |rows| && Accepts(rows[r.value], m, token, s)
    ensures r.Some? ==> forall j | 0 <= j < r.value :: !Accepts(rows[j], m, token, s)
    ensures r.None? ==> forall j | 0 <= j < |rows| :: !Accepts(rows[j], m, token, s)
  {
    if |rows| == 0 then None
    else if Accepts(rows[0], m, token, s) then Some(0)
    else match FirstRow(rows[1..], m, token, s)
      case None => None
      case Some(k) => Some(k + 1)
  }

  /** rows.find(...) */
  function Find(rows: seq<Row>, m: ColumnMapping, token: string, s: Strategy): Option<Row> {
    match FirstRow(rows, m, token, s)
    case Some(i) => Some(rows[i])
    case None => None
  }

  /** The delimiters of the token fallback, in the order they are tried. */
  const Delimiters: seq<char> := ['\t', '|', ',']

  /** Which tokens a pass looks at: every non-empty one as an ID, only those
      containing '@' as an email. */
  predicate Eligible(part: string, s: Strategy) {
    match s
    case ById => part != ""
    case ByEmail => '@' in part
  }

  predicate PartHits(rows: seq<Row>, m: ColumnMapping, part: string, s: Strategy) {
    Eligible(part, s) && FirstRow(rows, m, part, s).Some?
  }

  /** Index of the first token a pass over the tokens returns on. */
  function FirstPart(rows: seq<Row>, m: ColumnMapping, parts: seq<string>, s: Strategy): (r: Option<nat>)
    ensures r.Some? ==> r.value < |parts| && PartHits(rows, m, parts[r.value], s)
    ensures r.Some? ==> forall j | 0 <= j < r.value :: !PartHits(rows, m, parts[j], s)
    ensures r.None? ==> forall j | 0 <= j < |parts| :: !PartHits(rows, m, parts[j], s)
  {
    if |parts| == 0 then None
    else if PartHits(rows, m, parts[0], s) then Some(0)
    else match FirstPart(rows, m, parts[1..], s)
      case None => None
      case Some(k) => Some(k + 1)
  }

  /** The first hitting token is the one with no hitting token before it. */
  lemma FirstPartAt(rows: seq<Row>, m: ColumnMapping, parts: seq<string>, s: Strategy, k: nat)
    requires k < |parts| && Eligible(parts[k], s) && Find(rows, m, parts[k], s).Some?
    requires forall j | 0 <= j < k :: !PartHits(rows, m, parts[j], s)
    ensures FirstPart(rows, m, parts, s) == Some(k)
  {
    var f := FirstPart(rows, m, parts, s);
    assert PartHits(rows, m, parts[k], s);
    assert f.Some? && !(f.value < k) && !(k < f.value);
  }

  /** normalizedText.split(del).map(s => s.trim()) */
  function Parts(t: string, d: char): seq<string> {
    TrimAll(Split(t, d))
  }

  /** One pass over the tokens: the first eligible token some row accepts,
      with that row. */
  function Pass(rows: seq<Row>, m: ColumnMapping, parts: seq<string>, s: Strategy): Option<MatchResult> {
    match FirstPart(rows, m, parts, s)
    case Some(k) => Some(MatchResult(Find(rows, m, parts[k], s), parts[k]))
    case None => None
  }

  /** The two passes over one delimiter's tokens: all tokens as IDs, then,
      when an email column is mapped, the '@' tokens as emails. */
  function TryDelimiter(rows: seq<Row>, m: ColumnMapping, t: string, d: char): Option<MatchResult> {
    var parts := Parts(t, d);
    var byId := Pass(rows, m, parts, ById);
    if byId.Some? then byId
    else if m.emailColumn == "" then None
    else Pass(rows, m, parts, ByEmail)
  }

  /** The delimiters that occur in t are tried in order; one without a hit
      passes on to the next; when none hits the result is (no row, t). */
  function TryDelimiters(rows: seq<Row>, m: ColumnMapping, t: string, ds: seq<char>): MatchResult
    decreases |ds|
  {
    if |ds| == 0 then MatchResult(None, t)
    else if ds[0] in t then
      match TryDelimiter(rows, m, t, ds[0])
      case Some(r) => r
      case None => TryDelimiters(rows, m, t, ds[1..])
    else TryDelimiters(rows, m, t, ds[1..])
  }

  /** findMatch: the whole trimmed scan as an ID, then as an email (when that
      column is mapped), then the token fallback. */
  function FindMatch(rows: seq<Row>, m: ColumnMapping, text: string): MatchResult {
    var t := Trim(text);
    var byId := Find(rows, m, t, ById);
    if byId.Some? then MatchResult(byId, t)
    else
      var byEmail := if m.emailColumn != "" then Find(rows, m, t, ByEmail) else None;
      if byEmail.Some? then MatchResult(byEmail, t)
      else TryDelimiters(rows, m, t, Delimiters)
  }

  /** One `for (const part of parts)` loop of findMatch: skip the tokens the
      pass does not look at, return on the first one a row accepts. */
  method TokenPass(rows: seq<Row>, m: ColumnMapping, parts: seq<string>, s: Strategy)
    returns (r: Option<MatchResult>)
    ensures r == Pass(rows, m, parts, s)
  {
    var k := 0;
    while k < |parts|
      invariant 0 <= k <= |parts|
      invariant forall j | 0 <= j < k :: !PartHits(rows, m, parts[j], s)
    {
      if Eligible(parts[k], s) {
        var hit := Find(rows, m, parts[k], s);
        if hit.Some? {
          FirstPartAt(rows, m, parts, s, k);
          return Some(MatchResult(hit, parts[k]));
        }
      }
      assert !PartHits(rows, m, parts[k], s);
      k := k + 1;
    }
    return None;
  }

  /** findMatch as the app runs it: the two whole-string lookups, then the
      loop over the delimiters with early returns. */
  method FindMatchLoop(rows: seq<Row>, m: ColumnMapping, text: string) returns (r: MatchResult)
    ensures r == FindMatch(rows, m, text)
  {
    var t := Trim(text);
    var hit := Find(rows, m, t, ById);
    if hit.Some? {
      return MatchResult(hit, t);
    }
    if m.emailColumn != "" {
      hit := Find(rows, m, t, ByEmail);
      if hit.Some? {
        return MatchResult(hit, t);
      }
    }
    var di := 0;
    while di < |Delimiters|
      invariant 0 <= di <= |Delimiters|
      invariant FindMatch(rows, m, text) == TryDelimiters(rows, m, t, Delimiters[di..])
    {
      var d := Delimiters[di];
      assert Delimiters[di..][1..] == Delimiters[di + 1..];
      if d in t {
        var parts := Parts(t, d);
        var found := TokenPass(rows, m, parts, ById);
        if found.Some? {
          return found.value;
        }
        if m.emailColumn != "" {
          found := TokenPass(rows, m, parts, ByEmail);
          if found.Some? {
            return found.value;
          }
        }
      }
      di := di + 1;
    }
    return MatchResult(None, t);
  }

  // ----- properties of findMatch -----

  /** The whole trimmed scan equal to some row's ID wins, and the winner is
      the first such row in roster order. */
  lemma WholeIdFirst(rows: seq<Row>, m: ColumnMapping, text: string, i: nat)
    requires i < |rows| && IdOf(rows[i], m) == Trim(text)
    requires forall j | 0 <= j < i :: IdOf(rows[j], m) != Trim(text)
    ensures FindMatch(rows, m, text) == MatchResult(Some(rows[i]), Trim(text))
  {
    FirstRowAt(rows, m, Trim(text), ById, i);
  }

  /** A row without the ID column reads its ID as "undefined": with the ID
      column unmapped or absent, the scan "undefined" matches the first row. */
  lemma MissingIdReadsUndefined(rows: seq<Row>, m: ColumnMapping, text: string)
    requires |rows| > 0 && m.idColumn !in rows[0]
    requires Trim(text) == "undefined"
    ensures FindMatch(rows, m, text) == MatchResult(Some(rows[0]), "undefined")
  {
    assert Trim("undefined") == "undefined";
    assert Accepts(rows[0], m, Trim(text), ById);
  }

  /** Only when no row's ID matches, and only with an email column mapped,
      the first row whose email matches case-insensitively wins. */
  lemma WholeEmailSecond(rows: seq<Row>, m: ColumnMapping, text: string, i: nat)
    requires m.emailColumn != ""
    requires forall j | 0 <= j < |rows| :: IdOf(rows[j], m) != Trim(text)
    requires i < |rows| && EmailOf(rows[i], m) == Lower(Trim(text))
    requires forall j | 0 <= j < i :: EmailOf(rows[j], m) != Lower(Trim(text))
    ensures FindMatch(rows, m, text) == MatchResult(Some(rows[i]), Trim(text))
  {
    var t := Trim(text);
    assert forall j | 0 <= j < |rows| :: !Accepts(rows[j], m, t, ById);
    assert FirstRow(rows, m, t, ById).None?;
    FirstRowAt(rows, m, t, ByEmail, i);
  }

  /** The first accepting row is the one with no accepting row before it. */
  lemma FirstRowAt(rows: seq<Row>, m: ColumnMapping, token: string, s: Strategy, i: nat)
    requires i < |rows| && Accepts(rows[i], m, token, s)
    requires forall j | 0 <= j < i :: !Accepts(rows[j], m, token, s)
    ensures FirstRow(rows, m, token, s) == Some(i)
  {
    var f := FirstRow(rows, m, token, s);
    assert f.Some? && !(f.value < i) && !(i < f.value);
  }

  /** A hit of one delimiter: a token of that delimiter, accepted by a row of
      the roster; by ID whenever some token of the delimiter is an ID. */
  lemma {:induction false} TryDelimiterSound(rows: seq<Row>, m: ColumnMapping, t: string, d: char)
    ensures var r := TryDelimiter(rows, m, t, d);
      r.Some? ==>
        && r.value.row.Some? && r.value.row.value in rows
        && r.value.matchedId in Parts(t, d)
        && (|| (r.value.matchedId != "" && Accepts(r.value.row.value, m, r.value.matchedId, ById))
            || (m.emailColumn != "" && '@' in r.value.matchedId
                && Accepts(r.value.row.value, m, r.value.matchedId, ByEmail)))
    ensures var r := TryDelimiter(rows, m, t, d);
      (exists k | 0 <= k < |Parts(t, d)| :: PartHits(rows, m, Parts(t, d)[k], ById)) ==>
        r.Some? && Accepts(r.value.row.value, m, r.value.matchedId, ById)
  {
    var parts := Parts(t, d);
    var byId := FirstPart(rows, m, parts, ById);
    if byId.Some? {
      var i := FirstRow(rows, m, parts[byId.value], ById).value;
      assert rows[i] in rows;
    } else if m.emailColumn != "" && FirstPart(rows, m, parts, ByEmail).Some? {
      var k := FirstPart(rows, m, parts, ByEmail).value;
      var i := FirstRow(rows, m, parts[k], ByEmail).value;
      assert rows[i] in rows;
    }
  }

  lemma {:induction false} TryDelimitersSound(rows: seq<Row>, m: ColumnMapping, t: string, ds: seq<char>)
    ensures var r := TryDelimiters(rows, m, t, ds);
      && (r.row.None? ==> r.matchedId == t)
      && (r.row.Some? ==>
        && r.row.value in rows
        && (exists k | 0 <= k < |ds| :: ds[k] in t && r.matchedId in Parts(t, ds[k]))
        && (Accepts(r.row.value, m, r.matchedId, ById)
            || (m.emailColumn != "" && Accepts(r.row.value, m, r.matchedId, ByEmail))))
    decreases |ds|
  {
    if |ds| > 0 {
      TryDelimitersSound(rows, m, t, ds[1..]);
      if ds[0] in t {
        TryDelimiterSound(rows, m, t, ds[0]);
      }
      var r := TryDelimiters(rows, m, t, ds);
      if r.row.Some? && !(ds[0] in t && TryDelimiter(rows, m, t, ds[0]).Some?) {
        var k :| 0 <= k < |ds[1..]| && ds[1..][k] in t && r.matchedId in Parts(t, ds[1..][k]);
        assert ds[k + 1] == ds[1..][k];
      }
    }
  }

  /** Soundness: a matched row comes from the roster and accepts the matched
      token as its ID or as its email; the token is the whole trimmed scan or
      one of its trimmed delimiter tokens; without a match the token is the
      whole trimmed scan. */
  lemma FindMatchSound(rows: seq<Row>, m: ColumnMapping, text: string)
    ensures var r := FindMatch(rows, m, text);
      && (r.row.None? ==> r.matchedId == Trim(text))
      && (r.row.Some? ==>
        && r.row.value in rows
        && (r.matchedId == Trim(text)
            || exists d | d in Delimiters :: d in Trim(text) && r.matchedId in Parts(Trim(text), d))
        && (Accepts(r.row.value, m, r.matchedId, ById)
            || (m.emailColumn != "" && Accepts(r.row.value, m, r.matchedId, ByEmail))))
  {
    var t := Trim(text);
    TryDelimitersSound(rows, m, t, Delimiters);
    var r := FindMatch(rows, m, text);
    var byId := FirstRow(rows, m, t, ById);
    if byId.Some? {
      assert rows[byId.value] in rows;
    } else if m.emailColumn != "" && FirstRow(rows, m, t, ByEmail).Some? {
      assert rows[FirstRow(rows, m, t, ByEmail).value] in rows;
    } else if r.row.Some? {
      var k :| 0 <= k < |Delimiters| && Delimiters[k] in t && r.matchedId in Parts(t, Delimiters[k]);
      assert Delimiters[k] in Delimiters;
    }
  }

  /** A token that some row accepts by one of the passes. */
  ghost predicate Candidate(rows: seq<Row>, m: ColumnMapping, token: string, s: Strategy) {
    && Eligible(token, s)
    && (s == ByEmail ==> m.emailColumn != "")
    && exists i | 0 <= i < |rows| :: Accepts(rows[i], m, token, s)
  }

  /** No token of delimiter d is a candidate. */
  ghost predicate NoTokenCandidate(rows: seq<Row>, m: ColumnMapping, t: string, d: char) {
    forall p | p in Parts(t, d) :: !Candidate(rows, m, p, ById) && !Candidate(rows, m, p, ByEmail)
  }

  /** Nothing in the scan can match: not the whole string and no token. */
  ghost predicate NoCandidate(rows: seq<Row>, m: ColumnMapping, t: string) {
    && (forall i | 0 <= i < |rows| :: !Accepts(rows[i], m, t, ById))
    && (m.emailColumn != "" ==> forall i | 0 <= i < |rows| :: !Accepts(rows[i], m, t, ByEmail))
    && forall d | d in Delimiters && d in t :: NoTokenCandidate(rows, m, t, d)
  }

  lemma TryDelimiterMiss(rows: seq<Row>, m: ColumnMapping, t: string, d: char)
    ensures TryDelimiter(rows, m, t, d).None? <==> NoTokenCandidate(rows, m, t, d)
  {
    var parts := Parts(t, d);
    if TryDelimiter(rows, m, t, d).None? {
      forall p | p in parts
        ensures !Candidate(rows, m, p, ById) && !Candidate(rows, m, p, ByEmail)
      {
        var k :| 0 <= k < |parts| && parts[k] == p;
        assert !PartHits(rows, m, parts[k], ById);
        assert m.emailColumn != "" ==> !PartHits(rows, m, parts[k], ByEmail);
      }
    } else {
      var s := if FirstPart(rows, m, parts, ById).Some? then ById else ByEmail;
      var k := FirstPart(rows, m, parts, s).value;
      var i := FirstRow(rows, m, parts[k], s).value;
      assert parts[k] in parts && Candidate(rows, m, parts[k], s);
    }
  }

  lemma {:induction false} TryDelimitersMiss(rows: seq<Row>, m: ColumnMapping, t: string, ds: seq<char>)
    ensures TryDelimiters(rows, m, t, ds).row.None? <==>
      forall d | d in ds && d in t :: TryDelimiter(rows, m, t, d).None?
    decreases |ds|
  {
    if |ds| > 0 {
      TryDelimitersMiss(rows, m, t, ds[1..]);
      assert forall d | d in ds :: d == ds[0] || d in ds[1..];
      if ds[0] in t && TryDelimiter(rows, m, t, ds[0]).Some? {
        TryDelimiterSound(rows, m, t, ds[0]);
        assert TryDelimiters(rows, m, t, ds) == TryDelimiter(rows, m, t, ds[0]).value;
      }
    }
  }

  /** Whole-string part of the miss. */
  lemma WholeMiss(rows: seq<Row>, m: ColumnMapping, t: string)
    ensures (FirstRow(rows, m, t, ById).None? && (m.emailColumn != "" ==> FirstRow(rows, m, t, ByEmail).None?))
      <==> (&& (forall i | 0 <= i < |rows| :: !Accepts(rows[i], m, t, ById))
            && (m.emailColumn != "" ==> forall i | 0 <= i < |rows| :: !Accepts(rows[i], m, t, ByEmail)))
  {
    var byId := FirstRow(rows, m, t, ById);
    if byId.Some? {
      assert Accepts(rows[byId.value], m, t, ById);
    }
    if m.emailColumn != "" && FirstRow(rows, m, t, ByEmail).Some? {
      assert Accepts(rows[FirstRow(rows, m, t, ByEmail).value], m, t, ByEmail);
    }
  }

  /** Completeness: the scan comes back without a row exactly when neither the
      whole trimmed string nor any token of a delimiter it contains matches a
      row by any of the passes. */
  lemma FindMatchMiss(rows: seq<Row>, m: ColumnMapping, text: string)
    ensures FindMatch(rows, m, text).row.None? <==> NoCandidate(rows, m, Trim(text))
  {
    var t := Trim(text);
    WholeMiss(rows, m, t);
    TryDelimitersMiss(rows, m, t, Delimiters);
    forall d | d in Delimiters {
      TryDelimiterMiss(rows, m, t, d);
    }
  }

  /** The delimiter order: when the whole string does not match, the first
      delimiter in tab, pipe, comma order that occurs in the scan and yields a
      hit decides, even if an earlier delimiter occurs but yields none. */
  lemma FirstHittingDelimiterWins(rows: seq<Row>, m: ColumnMapping, text: string, k: nat)
    requires FirstRow(rows, m, Trim(text), ById).None?
    requires m.emailColumn != "" ==> FirstRow(rows, m, Trim(text), ByEmail).None?
    requires k < |Delimiters| && Delimiters[k] in Trim(text)
    requires TryDelimiter(rows, m, Trim(text), Delimiters[k]).Some?
    requires forall j | 0 <= j < k && Delimiters[j] in Trim(text) ::
      TryDelimiter(rows, m, Trim(text), Delimiters[j]).None?
    ensures FindMatch(rows, m, text) == TryDelimiter(rows, m, Trim(text), Delimiters[k]).value
  {
    var t := Trim(text);
    assert Delimiters[1..][1..] == Delimiters[2..];
    if k == 0 {
    } else if k == 1 {
      assert TryDelimiters(rows, m, t, Delimiters) == TryDelimiters(rows, m, t, Delimiters[1..]);
    } else {
      assert TryDelimiters(rows, m, t, Delimiters) == TryDelimiters(rows, m, t, Delimiters[1..]);
      assert TryDelimiters(rows, m, t, Delimiters[1..]) == TryDelimiters(rows, m, t, Delimiters[2..]);
    }
  }
}
