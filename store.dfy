/**
 * The `data` table of scraper.js and its `insert or ignore` write: rows of
 * nine nullable text columns keyed by the primary key `council_reference`.
 */
module Store {
  import opened Wrappers

  /** The columns of the table, in the order of its `create table` statement. */
  const Schema: seq<string> :=
    ["council_reference", "address", "description", "info_url", "comment_url",
     "date_scraped", "date_received", "on_notice_from", "on_notice_to"]

  /** A column value: text, or SQL `NULL`. */
  type Value = Option<string>

  type Row = seq<Value>

  /** The contents of the table: each row under its `council_reference`. */
  type Table = map<string, Row>

  /** The object handed to the insertion, with the source's field names. */
  datatype DevelopmentApplication = DevelopmentApplication(
    applicationNumber: string,
    address: string,
    reason: string,
    informationUrl: string,
    commentUrl: string,
    scrapeDate: string,
    receivedDate: string)

  /** The bound parameter list of the insert statement. */
  function RowOf(app: DevelopmentApplication): (row: Row)
    ensures |row| == |Schema|
  {
    [Some(app.applicationNumber), Some(app.address), Some(app.reason),
     Some(app.informationUrl), Some(app.commentUrl), Some(app.scrapeDate),
     Some(app.receivedDate), None, None]
  }

  /** The columns of the table, one per name of the schema. */
  datatype Column =
    | CouncilReference | Address | Description | InfoUrl | CommentUrl
    | DateScraped | DateReceived | OnNoticeFrom | OnNoticeTo

  /** The position of a column in the `create table` statement, and so in every row. */
  function Position(c: Column): (i: nat)
    ensures i < |Schema|
  {
    match c
    case CouncilReference => 0
    case Address => 1
    case Description => 2
    case InfoUrl => 3
    case CommentUrl => 4
    case DateScraped => 5
    case DateReceived => 6
    case OnNoticeFrom => 7
    case OnNoticeTo => 8
  }

  /** The name the `create table` statement gives the column. */
  function Name(c: Column): (name: string)
    ensures Schema[Position(c)] == name
  {
    match c
    case CouncilReference => "council_reference"
    case Address => "address"
    case Description => "description"
    case InfoUrl => "info_url"
    case CommentUrl => "comment_url"
    case DateScraped => "date_scraped"
    case DateReceived => "date_received"
    case OnNoticeFrom => "on_notice_from"
    case OnNoticeTo => "on_notice_to"
  }

  /** Distinct columns sit at distinct positions, so every schema name has exactly one column. */
  lemma PositionsDistinct(c: Column, d: Column)
    ensures Position(c) == Position(d) <==> c == d
  {
  }

  /** The value of a column of a row. */
  function Cell(row: Row, c: Column): Value
    requires |row| == |Schema|
  {
    row[Position(c)]
  }

  /**
   * Each field of the application lands in the column of the same meaning,
   * and the two notice columns are `NULL`.
   */
  lemma RowColumns(app: DevelopmentApplication)
    ensures Cell(RowOf(app), CouncilReference) == Some(app.applicationNumber)
    ensures Cell(RowOf(app), Address) == Some(app.address)
    ensures Cell(RowOf(app), Description) == Some(app.reason)
    ensures Cell(RowOf(app), InfoUrl) == Some(app.informationUrl)
    ensures Cell(RowOf(app), CommentUrl) == Some(app.commentUrl)
    ensures Cell(RowOf(app), DateScraped) == Some(app.scrapeDate)
    ensures Cell(RowOf(app), DateReceived) == Some(app.receivedDate)
    ensures Cell(RowOf(app), OnNoticeFrom) == None
    ensures Cell(RowOf(app), OnNoticeTo) == None
  {
  }

  /** Reading a stored row back gives the application that was written. */
  function ApplicationOf(row: Row): (r: Option<DevelopmentApplication>)
  {
    if |row| == |Schema| && forall i :: 0 <= i < 7 ==> row[i].Some? then
      Some(DevelopmentApplication(row[0].value, row[1].value, row[2].value, row[3].value,
                                  row[4].value, row[5].value, row[6].value))
    else None
  }

  lemma RowRoundTrip(app: DevelopmentApplication)
    ensures ApplicationOf(RowOf(app)) == Some(app)
  {
  }

  /**
   * The shape of every row `insertRow` writes under key `k`: nine columns,
   * `k` in the key column, text in the seven application columns and `NULL`
   * in the two notice columns.
   */
  predicate IsStoredRow(k: string, row: Row) {
    && |row| == |Schema| && row[0] == Some(k)
    && (forall i :: 0 <= i < 7 ==> row[i].Some?)
    && row[7] == None && row[8] == None
  }

  predicate WellFormed(table: Table) {
    forall k :: k in table ==> IsStoredRow(k, table[k])
  }

  /** A row of the stored shape is the row of exactly one application, whose number is the key. */
  lemma StoredRowReadsBack(k: string, row: Row)
    requires IsStoredRow(k, row)
    ensures ApplicationOf(row).Some?
    ensures ApplicationOf(row).value.applicationNumber == k
    ensures RowOf(ApplicationOf(row).value) == row
  {
    var r := RowOf(ApplicationOf(row).value);
    assert forall i :: 0 <= i < |Schema| ==> r[i] == row[i];
  }

  /**
   * Every row of a well-formed table, the invariant `DataTable` keeps, reads
   * back as the application whose number is the key it is stored under, and
   * is the row written for that application.
   */
  lemma StoredRowsReadBack(table: Table)
    requires WellFormed(table)
    ensures forall k :: k in table ==>
      && ApplicationOf(table[k]).Some?
      && ApplicationOf(table[k]).value.applicationNumber == k
      && RowOf(ApplicationOf(table[k]).value) == table[k]
  {
    forall k | k in table
      ensures ApplicationOf(table[k]).Some?
      ensures ApplicationOf(table[k]).value.applicationNumber == k
      ensures RowOf(ApplicationOf(table[k]).value) == table[k]
    {
      StoredRowReadsBack(k, table[k]);
    }
  }

  /**
   * `insert or ignore`: the row goes in when its key is absent; otherwise the
   * table is unchanged. The second component is SQLite's `changes`.
   */
  function InsertOrIgnore(table: Table, app: DevelopmentApplication): (r: (Table, nat))
    ensures r.1 > 0 <==> app.applicationNumber !in table
    ensures r.1 <= 1
    ensures r.0.Keys == table.Keys + {app.applicationNumber}
    ensures forall k :: k in table ==> r.0[k] == table[k]
    ensures app.applicationNumber !in table ==> r.0[app.applicationNumber] == RowOf(app)
    ensures WellFormed(table) ==> WellFormed(r.0)
  {
    var key := app.applicationNumber;
    if key in table then (table, 0) else (table[key := RowOf(app)], 1)
  }

  /** The first write of a key wins: a later row with the same key changes nothing. */
  lemma FirstWriteWins(table: Table, first: DevelopmentApplication, second: DevelopmentApplication)
    requires first.applicationNumber == second.applicationNumber
    ensures InsertOrIgnore(InsertOrIgnore(table, first).0, second) == (InsertOrIgnore(table, first).0, 0)
  {
  }

  /** Inserting the same application twice is inserting it once. */
  lemma InsertIdempotent(table: Table, app: DevelopmentApplication)
    ensures InsertOrIgnore(InsertOrIgnore(table, app).0, app).0 == InsertOrIgnore(table, app).0
  {
    FirstWriteWins(table, app, app);
  }

  /** The `data` table of the database file. */
  class DataTable {
    var rows: Table

    ghost predicate Valid()
      reads this
    {
      WellFormed(rows)
    }

    /**
     * `create table if not exists`: a table left by an earlier run keeps its
     * rows; a new database starts from `map[]`.
     */
    constructor Open(existing: Table)
      requires WellFormed(existing)
      ensures Valid() && rows == existing
    {
      rows := existing;
    }

    /** `insertRow`: insert or ignore, reporting the number of rows changed. */
    method InsertRow(app: DevelopmentApplication) returns (changes: nat)
      requires Valid()
      modifies this
      ensures Valid()
      ensures (rows, changes) == InsertOrIgnore(old(rows), app)
      ensures changes > 0 <==> app.applicationNumber !in old(rows)
    {
      if app.applicationNumber in rows {
        changes := 0;
      } else {
        rows := rows[app.applicationNumber := RowOf(app)];
        changes := 1;
      }
    }
  }
}
