/** The records of types.ts: roster cells and rows, the column mapping, scan
    statuses, verification results and log entries. */
module Types {
  import opened Wrappers
  import opened Text

  /** A spreadsheet cell as the parser hands it over: a string, a number, a
      boolean or null; Missing is a column the row has no entry for, which
      JavaScript reads as undefined. Numbers are whole numbers here. */
  datatype Cell = Missing | Null | Bool(b: bool) | Num(n: int) | Str(s: string)

  /** A roster row (ExcelRow): column name to cell. */
  type Row = map<string, Cell>

  /** row[col], undefined when the row has no such column. */
  function Get(row: Row, col: string): Cell {
    if col in row then row[col] else Missing
  }

  /** String(cell). */
  function ToStr(c: Cell): string {
    match c
    case Missing => "undefined"
    case Null => "null"
    case Bool(b) => if b then "true" else "false"
    case Num(n) => IntToString(n)
    case Str(s) => s
  }

  /** A number's string form has no surrounding whitespace, so a numeric ID
      cell compares equal to exactly its decimal text after trim. */
  lemma NumberIsTrimmed(n: int)
    ensures Trim(ToStr(Num(n))) == IntToString(n)
  {
    var r := IntToString(n);
    var d := NatToString(if n < 0 then -n else n);
    assert r == d || r == "-" + d;
    assert !IsSpace(d[|d| - 1]);
    assert !IsSpace(r[0]) by {
      if n >= 0 { assert '0' <= d[0] <= '9'; }
    }
    assert r[|r| - 1] == d[|d| - 1];
    assert TrimStart(r) == r;
    assert TrimEnd(r) == r;
  }

  /** ColumnMapping: which spreadsheet column plays which role; "" means unmapped. */
  datatype ColumnMapping = ColumnMapping(
    idColumn: string,
    nameColumn: string,
    emailColumn: string,
    teamColumn: string,
    eventColumn: string,
    paymentColumn: string)

  /** The mapping the app starts with, before any roster is loaded. */
  const Unmapped := ColumnMapping("", "", "", "", "", "")

  datatype ScanStatus = Idle | Scanning | Verifying | Success | NotFound | Duplicate | Error

  /** A point in time (Date), kept abstract. */
  type Instant = int

  /** VerificationResult: the outcome of one scan. */
  datatype VerificationResult = VerificationResult(
    status: ScanStatus,
    data: Option<Row>,
    message: Option<string>,
    timestamp: Instant,
    scannedValue: string)

  /** ScanLog: a verification result with the entry id it was logged under. */
  datatype ScanLog = ScanLog(result: VerificationResult, id: string)
}
