# Texibition check-in engine, modelled in Dafny

Texibition Scan is a browser app for checking event attendees in by QR code.
An organiser loads a spreadsheet roster. The app picks which columns hold the
ID, name, email, team, event and payment status, either by a header heuristic
or by a language-model suggestion that is then sanitised. Each decoded QR
string is resolved to at most one roster row and classified as SUCCESS,
DUPLICATE or NOT_FOUND against the set of IDs already checked in. Every scan
goes into a log. The roster can be downloaded with "Attendance Status" and
"Check-in Time" columns added.

This project models that engine and proves properties of it:

- `text.dfy` (`Text`): JavaScript's `trim`, `toLowerCase`, `split` with one
  character and `includes`, as far as the app uses them.
- `types.dfy` (`Types`): cells, rows, the column mapping, scan statuses,
  verification results and log entries. `String(cell)` is `ToStr`.
- `matcher.dfy` (`Matcher`): `findMatch`. `FindMatch` is the first-hit
  specification. `FindMatchLoop` and `TokenPass` are the nested loops with
  early returns, proved equal to it.
- `checkin.dfy` (`Checkin`): the decision `handleScan` takes. `Verify` gives
  the result and the new checked-in set.
- `logs.dfy` (`Logs`): success keys of the log, and the dashboard's Verified
  and Issues counters.
- `report.dfy` (`Report`): the merge in `handleDownloadReport`. The
  `checkInMap` loop is `CheckInTimes`. The export file name is `ExportName`.
- `column_roles.dfy` (`ColumnRoles`): `analyzeColumns`, with the model's
  reply as an input.
- `payment.dfy` (`Payment`): `getPaymentStatus`, and the payment line of the
  success card.
- `session.dfy` (`Sessions.Session`): the app's state as a class. Its fields
  are the roster, file name, mapping, log, result on screen and checked-in
  set. Its methods are `Load`, `Scan` (with `Record`, which is
  `handleResult`), `Reset` and `DownloadReport`. `Valid()` is the session
  invariant `Invariant` on the current state: the checked-in set equals the keys of the successful log
  entries, each key is a roster ID and is logged once, and every success
  carries its row.
- `scenario.dfy` (`Scenario`): a worked session. It has two attendees, four
  scans (ID, email duplicate, unknown code, tab-separated badge dump) and the
  report.

Behaviour of the code that is easy to misread, as the model states it:

- The token fallback does not stop at the first delimiter present in the
  scan. A delimiter whose tokens hit nothing passes on to the next delimiter
  present (`FirstHittingDelimiterWins`).
- A NOT_FOUND result shows the raw, untrimmed scan, cut to 30 characters plus
  "...". It does not show the trimmed token.
- The ID comparison uses `==`, but both sides are already strings
  (`String(...).trim()` and the trimmed scan), so it is plain string equality.
  The consequence kept in the model: a row without the ID column has the ID
  "undefined" (`MissingIdReadsUndefined`).
- Whether a scan that matches no row can be reported DUPLICATE: in the code
  its key would be the trimmed scan. While every checked-in key is a roster
  ID, which `Session.Valid` keeps, that scan would have matched a row by ID.
  So a scan that matches no row is always NOT_FOUND (`MissNeverDuplicate`),
  and every DUPLICATE carries its row (`Session.Scan`).
- The code copes with an empty roster on load (only the file name is cleared)
  and on download (nothing is exported). It does not assume a non-empty
  roster.

## Model

| member | source | states |
|---|---|---|
| Text.Trim | App.tsx:193 | Defines `trim`; `TrimStartSpec` and `TrimEndSpec` characterise it as dropping exactly a whitespace prefix and suffix, leaving no whitespace at either end |
| Text.Lower | components/ResultModal.tsx:22 | Defines `toLowerCase` with ASCII folding, character by character; `LowerIdempotent` and `LowerTrimCommute` are its properties |
| Text.Split | App.tsx:215 | `split(d)`: at least one piece, and no piece contains the separator; `JoinSplit` and `SplitJoin` make it the inverse of joining |
| Text.TrimAll | App.tsx:215 | `.map(s => s.trim())`: one trimmed piece per piece, in order |
| Text.IntToString | App.tsx:198 | `String(number)` for a whole number: decimal digits, with a leading '-' when negative; `NumberIsTrimmed` states it has no surrounding whitespace |
| Text.Includes | App.tsx:214 | Defines `includes`; `IncludesSpec` relates it to an occurrence at some position |
| Text.IncludesSpec | App.tsx:214 | `includes` holds exactly when the substring occurs at some position of the string |
| Types.Get | App.tsx:198 | `row[col]`: the cell when the row has the column, undefined otherwise; `MissingIdReadsUndefined` states the consequence for matching |
| Types.ToStr | App.tsx:198 | `String(cell)` for undefined, null, booleans, whole numbers and strings; `NumberIsTrimmed` states a number's form |
| Text.TrimIdempotent | App.tsx:193 | Trimming twice gives the same string as trimming once: a trimmed string has no whitespace left at either end |
| Text.TrimPadded | components/ResultModal.tsx:22 | Whitespace added on either side of a string does not change its trim |
| Text.LowerTrimCommute | components/ResultModal.tsx:22 | Lower-casing commutes with trimming: the payment test's lower-then-trim normalises a string exactly as the trim-then-lower of the email tests (App.tsx:205, 232) does |
| Text.JoinSplit | App.tsx:215 | Joining the pieces of `split(d)` with d gives back the scan |
| Text.SplitJoin | App.tsx:215 | Splitting joined separator-free pieces gives back the pieces, so split loses and invents nothing |
| Types.NumberIsTrimmed | types.ts:2 | A numeric cell's string form has no surrounding whitespace, so its trimmed ID is its decimal text |
| Matcher.FindMatch | App.tsx:192-241 | Defines `findMatch` as a first-hit rule: whole scan by ID, then by email, then the delimiter tokens; `FindMatchSound`, `FindMatchMiss`, `FirstHittingDelimiterWins` and `FindMatchLoop` state what it returns |
| Matcher.IdOf | App.tsx:198 | `String(row[mapping.idColumn]).trim()`, the same expression as at App.tsx:222, 251, 149 and 159; `MissingIdReadsUndefined` and `NumberIsTrimmed` state its edge cases |
| Matcher.EmailOf | App.tsx:205 | The trimmed, lower-cased email cell, as at App.tsx:232; `WholeEmailSecond` states its use |
| Matcher.Find | App.tsx:196-199 | `excelData.find(...)`: the row at `FirstRow`'s index, whose contract gives the first accepting row or none; the same search at App.tsx:204, 220 and 231 |
| Matcher.Parts | App.tsx:215 | A delimiter's trimmed tokens; `JoinSplit` and `SplitJoin` relate the pieces to the scan |
| Matcher.TryDelimiter | App.tsx:214-236 | One delimiter's ID pass, then its email pass when email is mapped; `TryDelimiterSound` and `TryDelimiterMiss` state what it yields |
| Matcher.TryDelimiters | App.tsx:212-240 | The `for` over tab, pipe and comma, skipping absent delimiters and ones without a hit; `TryDelimitersSound`, `TryDelimitersMiss` and `FirstHittingDelimiterWins` state it |
| Matcher.Accepts | App.tsx:198 | The test inside the `find` callbacks: trimmed ID equal to the token (also App.tsx:222), or lower-cased trimmed email equal to the lower-cased token (App.tsx:205, 232); `FirstRow`'s contract is stated in its terms |
| Matcher.Delimiters | App.tsx:212 | Tab, pipe and comma, in that order; `FirstHittingDelimiterWins` states the order's effect |
| Matcher.Eligible | App.tsx:219 | The `continue` guards: an empty token is skipped in the ID pass, and one without '@' in the email pass (App.tsx:230); `FirstPart`'s contract is stated in its terms |
| Matcher.Pass | App.tsx:218-225 | One `for (const part of parts)` pass, as also at App.tsx:229-235: the token at `FirstPart`'s index with its row; `TokenPass` is proved equal to it |
| Matcher.FirstRow | App.tsx:196-199 | The index `rows.find` settles on: an accepting row with no accepting row before it, or none when no row accepts |
| Matcher.FirstPart | App.tsx:218-225 | The token a `for (const part of parts)` pass returns on: eligible and accepted by a row, every earlier token not |
| Matcher.TokenPass | App.tsx:218-235 | The token loop with `continue` and early return yields exactly the first-hit token and its row |
| Matcher.FindMatchLoop | App.tsx:192-241 | The nested delimiter and token loops with early returns compute exactly the first-hit specification `FindMatch` |
| Matcher.WholeIdFirst | App.tsx:193-200 | When the trimmed scan equals some row's trimmed ID, the first such row in roster order wins, with the trimmed scan as matched ID |
| Matcher.MissingIdReadsUndefined | App.tsx:198 | A row lacking the ID column reads its ID as "undefined", so the scan "undefined" matches the first row |
| Matcher.WholeEmailSecond | App.tsx:202-208 | Only when no ID matches and an email column is mapped, the first row whose trimmed email equals the scan case-insensitively wins |
| Matcher.TryDelimiterSound | App.tsx:214-236 | A delimiter's hit is a row of the roster and one of its tokens, accepted as ID, or as an '@' email when email is mapped; an ID hit among the tokens always takes precedence |
| Matcher.TryDelimitersSound | App.tsx:213-240 | A fallback hit is a roster row accepting a token of a delimiter present in the scan; with no hit the matched ID is the trimmed scan |
| Matcher.FindMatchSound | App.tsx:192-241 | A matched row is in the roster and accepts the matched token by ID or by email; the token is the trimmed scan or one of its trimmed tokens; without a match it is the trimmed scan |
| Matcher.TryDelimiterMiss | App.tsx:214-237 | A delimiter yields nothing exactly when none of its tokens is an ID or an '@' email of some row |
| Matcher.TryDelimitersMiss | App.tsx:213-238 | The fallback yields nothing exactly when every delimiter present in the scan yields nothing |
| Matcher.WholeMiss | App.tsx:196-208 | Both whole-string lookups fail exactly when no row accepts the trimmed scan by ID, or by email when email is mapped |
| Matcher.FindMatchMiss | App.tsx:192-241 | The scan finds no row exactly when neither the whole trimmed scan nor any token of a delimiter it contains matches some row |
| Matcher.FirstHittingDelimiterWins | App.tsx:212-238 | After the whole-string lookups fail, the first delimiter in tab, pipe, comma order that occurs and hits decides, even past delimiters that occur without a hit |
| Checkin.UniqueKey | App.tsx:251 | Defines the duplicate key: the matched row's trimmed ID, else the matched token; `ScanOutcomes` and `SameAttendeeIsDuplicate` state its use |
| Checkin.Shown | App.tsx:277 | Defines the shown value of a NOT_FOUND scan; `ShownBound` states its bounds |
| Checkin.Verify | App.tsx:247-282 | Defines `handleScan`'s decision and the new checked-in set; `ScanOutcomes`, `VerifyKeepsKeysInRoster` and `MissNeverDuplicate` state its outcomes |
| Checkin.ShownBound | App.tsx:277 | A NOT_FOUND scan is shown whole up to 30 characters, else as its first 30 characters and "...", never more than 33 |
| Checkin.ScanOutcomes | App.tsx:249-282 | Exactly one of SUCCESS (new key of a matched row, key added), DUPLICATE (key already in, set unchanged, data the matched row if any) or NOT_FOUND (no row, set unchanged, truncated raw scan shown), with their messages and timestamp |
| Checkin.VerifyKeepsKeysInRoster | App.tsx:251-266 | A scan keeps "every checked-in key is the trimmed ID of a roster row" |
| Checkin.MissNeverDuplicate | App.tsx:249-263 | While every checked-in key is a roster ID, a scan that matches no row is NOT_FOUND, never DUPLICATE |
| Checkin.FirstScanSucceeds | App.tsx:247-273 | Scanning a row's exact trimmed ID before it is checked in gives SUCCESS with that row and adds that ID |
| Checkin.SameAttendeeIsDuplicate | App.tsx:249-263 | After a SUCCESS, any scan resolving to a row with the same ID, whether by ID, email or token, is DUPLICATE and leaves the set unchanged |
| Checkin.SameScanTwiceIsDuplicate | App.tsx:253-263 | The same code scanned right after its SUCCESS is DUPLICATE |
| Logs.SuccessCount | components/Dashboard.tsx:129 | Defines the Verified counter; `CountsAppend`, `CountsPartition` and `CountIsKeyCount` state its properties |
| Logs.IssueCount | components/Dashboard.tsx:133 | Defines the Issues counter; `CountsAppend` and `CountsPartition` state its properties |
| Logs.IsSuccess | App.tsx:148 | `log.status === SUCCESS && log.data`; `SuccessKeysMembership` and `CheckInMapSpec` are stated in its terms |
| Logs.KeyOf | App.tsx:149 | The key of a successful entry, `String(log.data[mapping.idColumn]).trim()`; `SuccessKeysMembership` and `CheckInMapSpec` are stated in its terms |
| Logs.SuccessKeys | App.tsx:148-149 | The trimmed IDs of the SUCCESS entries with data, the set `verifiedIds` equals in a valid session; `SuccessKeysMembership` states its members |
| Logs.SuccessKeysMembership | App.tsx:148-149 | A key is a success key exactly when some SUCCESS entry with data has that trimmed ID |
| Logs.AppendKeepsDistinct | App.tsx:253-266 | An entry that is no success, or a success with a new key, keeps every key logged once |
| Logs.CountsAppend | components/Dashboard.tsx:129-133 | Appending an entry raises exactly the counter, Verified or Issues, its status belongs to |
| Logs.CountsPartition | components/Dashboard.tsx:129-133 | Verified plus Issues equals the number of log entries |
| Logs.CountIsKeyCount | components/Dashboard.tsx:129 | With distinct success keys, and data on every success, the Verified counter equals the number of checked-in keys |
| Report.CheckInMap | App.tsx:146-155 | Defines checkInMap as the fold keeping each key's first time; `CheckInMapSpec` characterises it through `FirstSuccess` |
| Report.MergeRow | App.tsx:158-166 | One report row: the roster row with the two attendance columns set; `ReportShape` and `ReportAttendance` state its content |
| Report.BuildReport | App.tsx:158-167 | `excelData.map(...)` in roster order; `ReportShape`, `ReportAttendance` and `PresentIffChecked` state its rows |
| Report.StripExtension | App.tsx:183 | `replace(/\.[^/.]+$/, "")` through the last dot; `StripExtensionSpec` ties it to the regular expression's match |
| Report.ExportName | App.tsx:183-184 | The export file name: the stripped name with "_Attendance.xlsx"; the `ExportName…` examples pin its edge cases |
| Report.ReportOf | App.tsx:139-184 | Defines the download: nothing for an empty roster, else the report sheet under the derived name; `LaterLogsKeepReport` and `Session.DownloadReport` state its properties |
| Report.FirstSuccess | App.tsx:147-154 | Index of the earliest SUCCESS entry whose trimmed ID is the key, or none when there is none |
| Report.CheckInTimes | App.tsx:146-155 | The forEach loop fills checkInMap exactly as the fold keeping each key's first time |
| Report.CheckInMapSpec | App.tsx:147-154 | checkInMap holds exactly the success keys, each with the time of its earliest SUCCESS entry |
| Report.FirstSuccessPrefix | App.tsx:151 | One more entry leaves an earlier first success in place, or supplies the first when it is a success for the key |
| Report.ReportShape | App.tsx:158-167 | The report has one row per roster row, in order, with the row's own columns, the values kept, plus the two attendance columns |
| Report.ReportAttendance | App.tsx:158-166 | A row is "Present" exactly when some SUCCESS entry has its trimmed ID, with the earliest such time; otherwise "Absent" and "" |
| Report.PresentIffChecked | App.tsx:159-160 | A report row is "Present" exactly when its trimmed ID is a success key of the log |
| Report.LaterLogsKeepReport | App.tsx:147-155 | A later entry that is no success, or a success for an already present key, leaves the report unchanged |
| Report.StripExtensionSpec | App.tsx:183 | The name changes exactly when `/\.[^/.]+$/` matches, and then loses everything from the matched dot on |
| Report.ExportNameDropsLastExtension | App.tsx:183-184 | "a.b.xlsx" is exported as "a.b_Attendance.xlsx" |
| Report.ExportNameKeepsBareName | App.tsx:183-184 | "roster" and "roster." keep their names before "_Attendance.xlsx" |
| Report.ExportNameKeepsDotBeforeSlash | App.tsx:183-184 | A dot followed by a '/' does not start an extension |
| ColumnRoles.FindHeader | services/geminiService.ts:32-35 | `headers.find(...)` defaulted to '': the header at `FirstMentioning`'s index, else ""; `FallbackKeywordRole` states it |
| ColumnRoles.Or | services/geminiService.ts:91-96 | JavaScript's or-else on strings: the first operand unless it is empty, as also at line 31; `SuggestionOverridesOnlyWithHeader` states its effect |
| ColumnRoles.Fallback | services/geminiService.ts:29-36 | Defines the naive mapping; `FallbackKeywordRole`, `IdAndNameMapped` and `RolesAreHeaders` state its roles |
| ColumnRoles.Validate | services/geminiService.ts:88 | A suggested column survives only if it is a header; used by `SuggestionOverridesOnlyWithHeader` |
| ColumnRoles.Sanitise | services/geminiService.ts:90-97 | Each validated suggested role, else the fallback's; `SuggestionOverridesOnlyWithHeader` states its effect |
| ColumnRoles.AnalyzeColumns | services/geminiService.ts:25-106 | Defines `analyzeColumns` on the reply; `SuggestionOverridesOnlyWithHeader`, `SuggestionCannotBlank` and `RolesAreHeaders` state what it returns |
| ColumnRoles.SuggestionOverridesOnlyWithHeader | services/geminiService.ts:38-104 | The mapping differs from the fallback only in roles the reply names with a non-empty header, and then takes that header; such a suggestion always wins |
| ColumnRoles.Mentions | services/geminiService.ts:32-35 | The `h.toLowerCase().includes(...)` callbacks, one keyword or either of two; `FirstMentioning`'s contract is stated in its terms |
| ColumnRoles.FirstMentioning | services/geminiService.ts:32-35 | Index of the first header whose lower-case form contains one of the keywords, or none when none does |
| ColumnRoles.FallbackKeywordRole | services/geminiService.ts:32-35 | The fallback email, team, event and payment roles are the first header mentioning the keyword(s), and "" exactly when none does |
| ColumnRoles.SuggestionCannotBlank | services/geminiService.ts:91-96 | A suggestion can never unmap a role the fallback fills |
| ColumnRoles.RolesAreHeaders | services/geminiService.ts:29-97 | Every role of the chosen mapping is "" or one of the headers |
| ColumnRoles.IdAndNameMapped | services/geminiService.ts:30-31 | With a non-empty first header the ID and name roles are always mapped |
| ColumnRoles.NonEmptyWhenMentioning | services/geminiService.ts:32 | A header that mentions a non-empty keyword is non-empty, so a found role is never "" |
| Payment.Normalise | components/ResultModal.tsx:22 | `String(val).toLowerCase().trim()`; `PaddingIgnored` and `CaseIgnored` state what it discards |
| Payment.GetPaymentStatus | components/ResultModal.tsx:21-27 | Defines `getPaymentStatus`; `PaidLabelMeansPaid`, `PaddingIgnored`, `CaseIgnored` and the examples state its classification |
| Payment.PaymentInfo | components/ResultModal.tsx:34 | Defines the payment line; `PaymentInfoReadsOnlyPaymentCell` and `PaidLineMeansPaidCell` state its properties |
| Payment.PaymentInfoReadsOnlyPaymentCell | components/ResultModal.tsx:34 | Two rows that agree on the payment cell get the same line, and with no payment column mapped every row gets the same line |
| Payment.PaidLineMeansPaidCell | components/ResultModal.tsx:34 | The line reads "PAID" exactly when a payment column is mapped and its cell is paid; an unmapped payment counts as paid |
| Payment.PaidLabelMeansPaid | components/ResultModal.tsx:23-26 | The label "PAID" appears exactly on paid values |
| Payment.PaddingIgnored | components/ResultModal.tsx:22 | Surrounding whitespace does not change the classification |
| Payment.CaseIgnored | components/ResultModal.tsx:22 | Letter case does not change the classification |
| Payment.PaddedPaidIsPaid | components/ResultModal.tsx:22-24 | " Paid " is paid |
| Payment.TrueIsPaid | components/ResultModal.tsx:22-24 | The boolean true is paid |
| Payment.NullIsLabelledNull | components/ResultModal.tsx:26 | null is unpaid and labelled "null", not "PENDING" |
| Payment.EmptyIsPending | components/ResultModal.tsx:26 | An empty cell is unpaid and labelled "PENDING" |
| Sessions.ScanKeepsInvariant | App.tsx:249-288 | A scan, logged, keeps the session invariant, and a DUPLICATE it yields always carries a row |
| Sessions.Session.constructor | App.tsx:32-48 | The session starts with no roster, no file name, the unmapped mapping, an empty log and an empty set |
| Sessions.Session.Load | App.tsx:67-133 | A non-empty roster replaces the old one with its name and a fresh mapping, and empties the log and the set; otherwise only the file name is cleared; the invariant holds after |
| Sessions.Session.Record | App.tsx:285-289 | The result is shown and appended as the one new log entry, earlier entries untouched |
| Sessions.Session.Scan | App.tsx:243-289 | One scan: result and new set as `Verify` decides, exactly one entry appended, roster and mapping untouched, every DUPLICATE has its row, invariant kept |
| Sessions.Session.Reset | App.tsx:291-296 | Roster, file name, log and set are emptied; the mapping stays |
| Sessions.Session.DownloadReport | App.tsx:138-184 | The export the merge defines; each row "Present" exactly when its trimmed ID is in the checked-in set |
| Sessions.Session.Counters | components/Dashboard.tsx:129-133 | In a valid session Verified equals the number of checked-in IDs and Verified plus Issues equals the number of log entries |
| Scenario.FirstScan | App.tsx:247-273 | Scanning "A1" first checks Alice in with key "A1" |
| Scenario.EmailIsDuplicate | App.tsx:249-263 | Alice's email, scanned after her ID, is DUPLICATE with her row |
| Scenario.UnknownIsNotFound | App.tsx:274-281 | "Z9" is NOT_FOUND and shown as scanned |
| Scenario.DumpChecksInBob | App.tsx:213-225 | The dump "B2\tBob\tsome@team.com", tab-separated, checks Bob in through its token "B2" |
| Scenario.ScenarioReport | App.tsx:158-166 | After the four scans both rows are "Present", Alice with the first scan's time and Bob with the fourth's |

## Left out

- Spreadsheet I/O: `FileReader`, XLSX reading and writing, the library-shape probing and `alert`. The parsed rows, their header list and their failure are inputs to `Session.Load`. The output is the `Export` value.
- `Session.Load` requires, when rows are parsed, a non-empty header list that names columns of the first row. This is what `Object.keys(data[0])` provides for a parsed row. `Fallback` requires a non-empty header list for the same reason.
- The language-model calls of `analyzeColumns` and `generateWelcomeMessage` are left out: they are network services. The reply is the `AiReply` input. A reply field that is missing or not a string is treated like a string that names no header. The `await` between loading and mapping is not modelled.
- Camera capture and QR decoding are left out. Scans arrive one at a time as `Session.Scan` calls, so no concurrency is modelled.
- React rendering, colour classes, the welcome message, the loading flag and the login screen with its fixed credentials are left out.
- Timestamps are abstract `Instant` values. Their locale rendering (`toLocaleString`) is the `showTime` parameter.
- Types.Get: a column name inherited from `Object.prototype` (such as `toString` or `constructor`) reads in JavaScript as the inherited member when the row has no own cell, and `String` then renders that function's source text; `Get` reads every absent column as undefined. Only such header names are affected.
- Numeric cells are whole numbers rendered in decimal. JavaScript's rendering of fractional and huge numbers is not modelled.
- `toLowerCase` folds only ASCII letters. `trim` removes a fixed list of ECMAScript whitespace and line terminators.
- Checkin.ShownBound: it counts characters, not the UTF-16 code units that JavaScript's `length` and `substring` count, so it differs for characters outside the Basic Multilingual Plane.
- Log entry ids come from `Math.random`. They are the `logId` parameter, and no uniqueness is claimed.
- The statuses IDLE, SCANNING, VERIFYING and ERROR are declared but never produced.
- Rows are maps, so the column order of the exported sheet is not modelled. That the two attendance columns come last is not stated.
