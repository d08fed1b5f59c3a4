/** analyzeColumns (services/geminiService.ts): the column mapping chosen for
    a freshly loaded roster. A naive header heuristic gives the fallback; an
    optional language-model suggestion may override a role, but only with the
    name of an actual header. */
module ColumnRoles {
  import opened Wrappers
  import opened Text
  import opened Types

  /** The six role slots of a ColumnMapping. */
  datatype Role = IdRole | NameRole | EmailRole | TeamRole | EventRole | PaymentRole

  function RoleOf(m: ColumnMapping, r: Role): string {
    match r
    case IdRole => m.idColumn
    case NameRole => m.nameColumn
    case EmailRole => m.emailColumn
    case TeamRole => m.teamColumn
    case EventRole => m.eventColumn
    case PaymentRole => m.paymentColumn
  }

  /** What the language-model call comes back with: no client because there is
      no API key, a thrown error (network, JSON.parse), a reply without text,
      or the parsed JSON object. A field the object lacks or holds a non-string
      in is not among the headers, exactly like a string that names no header. */
  datatype AiReply = NoApiKey | CallFailed | EmptyReply | Parsed(suggestion: ColumnMapping)

  /** h.toLowerCase().includes(w) for one of the words. */
  predicate Mentions(h: string, words: seq<string>) {
    exists w | w in words :: Includes(Lower(h), w)
  }

  /** Index of the header that headers.find(...) returns. */
  function FirstMentioning(headers: seq<string>, words: seq<string>): (r: Option<nat>)
    ensures r.Some? ==> r.value < |headers| && Mentions(headers[r.value], words)
    ensures r.Some? ==> forall j | 0 <= j < r.value :: !Mentions(headers[j], words)
    ensures r.None? ==> forall j | 0 <= j < |headers| :: !Mentions(headers[j], words)
  {
    if |headers| == 0 then None
    else if Mentions(headers[0], words) then Some(0)
    else match FirstMentioning(headers[1..], words)
      case None => None
      case Some(k) => Some(k + 1)
  }

  /** headers.find(h => h.toLowerCase().includes(...)) || '' */
  function FindHeader(headers: seq<string>, words: seq<string>): string {
    match FirstMentioning(headers, words)
    case Some(i) => headers[i]
    case None => ""
  }

  /** The naive mapping: first column as ID, second (else first) as name, and
      the first header naming email, team, event, or payment/status. The caller
      passes the keys of the first parsed row, which are never empty. */
  function Fallback(headers: seq<string>): ColumnMapping
    requires |headers| > 0
  {
    ColumnMapping(
      headers[0],
      if |headers| > 1 && headers[1] != "" then headers[1] else headers[0],
      FindHeader(headers, ["email"]),
      FindHeader(headers, ["team"]),
      FindHeader(headers, ["event"]),
      FindHeader(headers, ["payment", "status"]))
  }

  /** validate: a suggested column survives only if it is one of the headers. */
  function Validate(headers: seq<string>, col: string): string {
    if col in headers then col else ""
  }

  /** JavaScript's `a || b` on two strings. */
  function Or(a: string, b: string): string {
    if a != "" then a else b
  }

  /** The sanitised suggestion: each validated role, or the fallback's. */
  function Sanitise(headers: seq<string>, s: ColumnMapping, fallback: ColumnMapping): ColumnMapping {
    ColumnMapping(
      Or(Validate(headers, s.idColumn), fallback.idColumn),
      Or(Validate(headers, s.nameColumn), fallback.nameColumn),
      Or(Validate(headers, s.emailColumn), fallback.emailColumn),
      Or(Validate(headers, s.teamColumn), fallback.teamColumn),
      Or(Validate(headers, s.eventColumn), fallback.eventColumn),
      Or(Validate(headers, s.paymentColumn), fallback.paymentColumn))
  }

  /** analyzeColumns with the model's reply taken as input. */
  function AnalyzeColumns(headers: seq<string>, reply: AiReply): ColumnMapping
    requires |headers| > 0
  {
    match reply
    case Parsed(s) => Sanitise(headers, s, Fallback(headers))
    case _ => Fallback(headers)
  }

  /** The fallback's keyword roles are the first header that mentions the
      keyword, or "" exactly when no header does. */
  lemma FallbackKeywordRole(headers: seq<string>, r: Role)
    requires |headers| > 0
    requires r in {EmailRole, TeamRole, EventRole, PaymentRole}
    ensures var words := match r
        case EmailRole => ["email"]
        case TeamRole => ["team"]
        case EventRole => ["event"]
        case _ => ["payment", "status"];
      var col := RoleOf(Fallback(headers), r);
      && (col == "" <==> forall j | 0 <= j < |headers| :: !Mentions(headers[j], words))
      && (col != "" ==> exists i | 0 <= i < |headers| :: col == headers[i] && Mentions(col, words)
                          && forall j | 0 <= j < i :: !Mentions(headers[j], words))
  {
    var words := match r
      case EmailRole => ["email"]
      case TeamRole => ["team"]
      case EventRole => ["event"]
      case _ => ["payment", "status"];
    var f := FirstMentioning(headers, words);
    if f.Some? {
      NonEmptyWhenMentioning(headers[f.value], words);
    }
  }

  /** A header that mentions a non-empty keyword is itself non-empty. */
  lemma NonEmptyWhenMentioning(h: string, words: seq<string>)
    requires forall w | w in words :: w != ""
    requires Mentions(h, words)
    ensures h != ""
  {
    var w :| w in words && Includes(Lower(h), w);
  }

  /** A suggested role is kept exactly when it names a (non-empty) header;
      otherwise the role takes the fallback's value. */
  lemma SuggestionKeptIffHeader(headers: seq<string>, s: ColumnMapping, r: Role)
    requires |headers| > 0
    ensures var col := RoleOf(AnalyzeColumns(headers, Parsed(s)), r);
      var asked := RoleOf(s, r);
      col == if asked in headers && asked != "" then asked else RoleOf(Fallback(headers), r)
  {
  }

  /** The chosen mapping departs from the fallback only in a role the reply
      names with a non-empty header, and then takes that header; and a role
      the reply names with a non-empty header always takes it. */
  lemma SuggestionOverridesOnlyWithHeader(headers: seq<string>, reply: AiReply, r: Role)
    requires |headers| > 0
    ensures RoleOf(AnalyzeColumns(headers, reply), r) != RoleOf(Fallback(headers), r) ==>
      && reply.Parsed?
      && RoleOf(AnalyzeColumns(headers, reply), r) == RoleOf(reply.suggestion, r)
      && RoleOf(reply.suggestion, r) in headers && RoleOf(reply.suggestion, r) != ""
    ensures reply.Parsed? && RoleOf(reply.suggestion, r) in headers && RoleOf(reply.suggestion, r) != "" ==>
      RoleOf(AnalyzeColumns(headers, reply), r) == RoleOf(reply.suggestion, r)
  {
    if reply.Parsed? {
      SuggestionKeptIffHeader(headers, reply.suggestion, r);
    }
  }

  /** So the suggestion can never blank out a role the fallback fills. */
  lemma SuggestionCannotBlank(headers: seq<string>, reply: AiReply, r: Role)
    requires |headers| > 0
    requires RoleOf(Fallback(headers), r) != ""
    ensures RoleOf(AnalyzeColumns(headers, reply), r) != ""
  {
    if reply.Parsed? {
      SuggestionKeptIffHeader(headers, reply.suggestion, r);
    }
  }

  /** Every role of the chosen mapping is unmapped or one of the headers. */
  lemma {:induction false} RolesAreHeaders(headers: seq<string>, reply: AiReply, r: Role)
    requires |headers| > 0
    ensures RoleOf(AnalyzeColumns(headers, reply), r) == ""
         || RoleOf(AnalyzeColumns(headers, reply), r) in headers
  {
    var fb := Fallback(headers);
    assert RoleOf(fb, r) == "" || RoleOf(fb, r) in headers by {
      match r
      case EmailRole => FallbackKeywordRole(headers, r);
      case TeamRole => FallbackKeywordRole(headers, r);
      case EventRole => FallbackKeywordRole(headers, r);
      case PaymentRole => FallbackKeywordRole(headers, r);
      case _ =>
    }
    if reply.Parsed? {
      SuggestionKeptIffHeader(headers, reply.suggestion, r);
    }
  }

  /** With a non-empty first header the ID and name roles are always mapped. */
  lemma IdAndNameMapped(headers: seq<string>, reply: AiReply)
    requires |headers| > 0 && headers[0] != ""
    ensures AnalyzeColumns(headers, reply).idColumn != ""
    ensures AnalyzeColumns(headers, reply).nameColumn != ""
  {
    SuggestionCannotBlank(headers, reply, IdRole);
    SuggestionCannotBlank(headers, reply, NameRole);
  }
}
