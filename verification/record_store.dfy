/**
 * The topic record store of app_store.rs: one SQLite table per
 * (cluster, topic) pair, modelled as a sequence of rows per table key.
 * SQLite finds a table by its name with ASCII case folded, so pairs whose
 * names differ only in case share one table.
 * Statements are the shapes of `QueryText`; a query runs only when the text
 * `parse_query` produces is exactly the text of its shape over that table.
 */
module RecordStore {
  import opened Wrappers
  import opened Errors
  import opened QueryText
  import opened StatementShape

  /** `lib::types::ParsedKafkaRecord`. */
  datatype ParsedKafkaRecord = ParsedKafkaRecord(
    topic: string,
    partition: int,
    offset: int,
    timestamp: Option<int>,
    key: Option<string>,
    payload: Option<string>)

  /** One row of a topic table: the columns `partition, offset, timestamp, key, payload`. */
  datatype Row = Row(partition: int, offset: int, timestamp: Option<int>, key: Option<string>, payload: Option<string>)

  /** The in-memory database: the rows of every created table, by `TableKey`. */
  datatype Store = Store(tables: map<string, seq<Row>>)

  /** `AppStore::new`: a database without tables. */
  const NewStore: Store := Store(map[])

  /** The values `insert_record` binds: every field but the topic. */
  function RowOf(rec: ParsedKafkaRecord): Row
  {
    Row(rec.partition, rec.offset, rec.timestamp, rec.key, rec.payload)
  }

  /** The record `query_records` builds from a row; the topic comes from the query. */
  function RecordOf(row: Row, topic: string): ParsedKafkaRecord
  {
    ParsedKafkaRecord(topic, row.partition, row.offset, row.timestamp, row.key, row.payload)
  }

  function RecordsOf(rows: seq<Row>, topic: string): (r: seq<ParsedKafkaRecord>)
    ensures |r| == |rows|
    ensures forall i :: 0 <= i < |rows| ==> r[i] == RecordOf(rows[i], topic)
  {
    seq(|rows|, i requires 0 <= i < |rows| => RecordOf(rows[i], topic))
  }

  /** A record stored and read back under its own topic is unchanged. */
  lemma RecordRoundTrip(rec: ParsedKafkaRecord, row: Row, topic: string)
    ensures RecordOf(RowOf(rec), rec.topic) == rec
    ensures RowOf(RecordOf(row, topic)) == row && RecordOf(row, topic).topic == topic
  {
  }

  // ---------------------------------------------------------------------
  // Table maintenance.

  /**
   * `create_topic_table`: a new, empty table named after the pair. Creating
   * a table that exists makes the source panic, hence the precondition.
   */
  function CreateTopicTable(s: Store, clusterId: string, topicName: string): (r: Store)
    requires TableKey(clusterId, topicName) !in s.tables
    ensures r.tables.Keys == s.tables.Keys + {TableKey(clusterId, topicName)}
    ensures r.tables[TableKey(clusterId, topicName)] == []
    ensures forall key :: key in s.tables ==> r.tables[key] == s.tables[key]
  {
    Store(s.tables[TableKey(clusterId, topicName) := []])
  }

  /** `insert_record`: append the record's row to its table; an error when there is no such table. */
  function InsertRecord(s: Store, clusterId: string, topicName: string, rec: ParsedKafkaRecord): (r: Result<Store, Error>)
    ensures r.Ok? <==> TableKey(clusterId, topicName) in s.tables
    ensures r.Ok? ==> r.value.tables.Keys == s.tables.Keys
    ensures r.Ok? ==> r.value.tables[TableKey(clusterId, topicName)] == s.tables[TableKey(clusterId, topicName)] + [RowOf(rec)]
    ensures r.Ok? ==> forall key :: key in s.tables && key != TableKey(clusterId, topicName) ==> r.value.tables[key] == s.tables[key]
  {
    var key := TableKey(clusterId, topicName);
    if key in s.tables then Ok(Store(s.tables[key := s.tables[key] + [RowOf(rec)]]))
    else Err(SqlError("no such table: " + TableName(clusterId, topicName)))
  }

  /**
   * `clear`: delete every row of the pair's table. Deleting from a missing
   * table makes the source panic, hence the precondition.
   */
  function Clear(s: Store, clusterId: string, topicName: string): (r: Store)
    requires TableKey(clusterId, topicName) in s.tables
    ensures r.tables.Keys == s.tables.Keys
    ensures r.tables[TableKey(clusterId, topicName)] == []
    ensures forall key :: key in s.tables && key != TableKey(clusterId, topicName) ==> r.tables[key] == s.tables[key]
  {
    Store(s.tables[TableKey(clusterId, topicName) := []])
  }

  // ---------------------------------------------------------------------
  // Evaluating a statement shape over the rows of one table.

  /** The value of a column; only `timestamp` may be NULL. */
  function Key(row: Row, c: Column): Option<int>
  {
    match c
    case PartitionColumn => Some(row.partition)
    case OffsetColumn => Some(row.offset)
    case TimestampColumn => row.timestamp
  }

  /** SQLite's order on a nullable integer column: NULL before every number. */
  predicate KeyLe(a: Option<int>, b: Option<int>)
  {
    a.None? || (b.Some? && a.value <= b.value)
  }

  predicate InOrder(d: Direction, a: Option<int>, b: Option<int>)
  {
    if d == Asc then KeyLe(a, b) else KeyLe(b, a)
  }

  /** `rows` is ordered by column `c` in direction `d`. */
  predicate OrderedBy(rows: seq<Row>, c: Column, d: Direction)
  {
    forall i, j :: 0 <= i < j < |rows| ==> InOrder(d, Key(rows[i], c), Key(rows[j], c))
  }

  /**
   * The engine's choice among rows with equal sort keys. SQLite leaves that
   * order unspecified, so every operation that sorts takes it as a parameter
   * and every property holds for all of them.
   */
  type TieBreak = Row -> int

  predicate Before(c: Column, d: Direction, tie: TieBreak, x: Row, y: Row)
  {
    if Key(x, c) == Key(y, c) then tie(x) <= tie(y) else InOrder(d, Key(x, c), Key(y, c))
  }

  predicate Leads(y: Row, rows: seq<Row>, c: Column, d: Direction)
  {
    forall z :: z in rows ==> InOrder(d, Key(y, c), Key(z, c))
  }

  lemma KeyLeTransitive(a: Option<int>, b: Option<int>, e: Option<int>)
    requires KeyLe(a, b) && KeyLe(b, e)
    ensures KeyLe(a, e)
  {
  }

  /** A row that every row of an ordered sequence may follow can be put in front of it. */
  lemma PrependLeader(y: Row, rows: seq<Row>, c: Column, d: Direction)
    requires OrderedBy(rows, c, d) && Leads(y, rows, c, d)
    ensures OrderedBy([y] + rows, c, d)
  {
    var r := [y] + rows;
    forall i, j | 0 <= i < j < |r| ensures InOrder(d, Key(r[i], c), Key(r[j], c)) {
      if i > 0 {
        assert r[i] == rows[i - 1] && r[j] == rows[j - 1];
      } else {
        assert r[j] in rows;
      }
    }
  }

  /** A row that comes before the head of an ordered sequence leads all of it. */
  lemma BeforeHeadLeads(x: Row, rows: seq<Row>, c: Column, d: Direction, tie: TieBreak)
    requires OrderedBy(rows, c, d) && |rows| > 0 && Before(c, d, tie, x, rows[0])
    ensures Leads(x, rows, c, d)
  {
    forall z | z in rows ensures InOrder(d, Key(x, c), Key(z, c)) {
      var k :| 0 <= k < |rows| && rows[k] == z;
      if k > 0 {
        if d == Asc {
          KeyLeTransitive(Key(x, c), Key(rows[0], c), Key(rows[k], c));
        } else {
          KeyLeTransitive(Key(rows[k], c), Key(rows[0], c), Key(x, c));
        }
      }
    }
  }

  /** The head of an ordered sequence leads its tail with any row it does not come after added. */
  lemma HeadLeadsInserted(x: Row, rows: seq<Row>, rest: seq<Row>, c: Column, d: Direction, tie: TieBreak)
    requires OrderedBy(rows, c, d) && |rows| > 0 && !Before(c, d, tie, x, rows[0])
    requires multiset(rest) == multiset(rows[1..]) + multiset{x}
    ensures Leads(rows[0], rest, c, d)
  {
    forall z | z in rest ensures InOrder(d, Key(rows[0], c), Key(z, c)) {
      assert z in multiset(rest);
      if z != x {
        assert z in multiset(rows[1..]);
        var k :| 0 <= k < |rows[1..]| && rows[1..][k] == z;
        assert rows[k + 1] == z;
      }
    }
  }

  /** Insert `x` into rows ordered by `c`, after every row it does not come before. */
  function Insert(x: Row, rows: seq<Row>, c: Column, d: Direction, tie: TieBreak): (r: seq<Row>)
    requires OrderedBy(rows, c, d)
    ensures multiset(r) == multiset(rows) + multiset{x}
    ensures OrderedBy(r, c, d)
    decreases |rows|
  {
    if |rows| == 0 then [x]
    else if Before(c, d, tie, x, rows[0]) then
      BeforeHeadLeads(x, rows, c, d, tie);
      PrependLeader(x, rows, c, d);
      assert multiset([x] + rows) == multiset{x} + multiset(rows);
      [x] + rows
    else
      var rest := Insert(x, rows[1..], c, d, tie);
      HeadLeadsInserted(x, rows, rest, c, d, tie);
      PrependLeader(rows[0], rest, c, d);
      assert rows == [rows[0]] + rows[1..];
      assert multiset([rows[0]] + rest) == multiset{rows[0]} + multiset(rest);
      [rows[0]] + rest
  }

  /** `ORDER BY c [desc]`: a permutation of the rows, ordered by `c`. */
  function Sort(rows: seq<Row>, c: Column, d: Direction, tie: TieBreak): (r: seq<Row>)
    ensures multiset(r) == multiset(rows)
    ensures OrderedBy(r, c, d)
    decreases |rows|
  {
    if |rows| == 0 then []
    else
      assert rows == [rows[0]] + rows[1..];
      Insert(rows[0], Sort(rows[1..], c, d, tie), c, d, tie)
  }

  /** `WHERE c = v`: SQL equality, which a NULL never satisfies. */
  predicate Matches(row: Row, f: (Column, int))
  {
    Key(row, f.0) == Some(f.1)
  }

  /** The rows a WHERE clause keeps, in table order. */
  function Filter(rows: seq<Row>, f: Option<(Column, int)>): (r: seq<Row>)
    ensures forall row :: multiset(r)[row] == if f.None? || Matches(row, f.value) then multiset(rows)[row] else 0
    ensures forall row :: row in r ==> f.None? || Matches(row, f.value)
    decreases |rows|
  {
    if |rows| == 0 then []
    else
      assert rows == [rows[0]] + rows[1..];
      (if f.None? || Matches(rows[0], f.value) then [rows[0]] else []) + Filter(rows[1..], f)
  }

  /** SQLite skips no rows for a negative OFFSET. */
  function Skipped(offset: int): nat
  {
    if offset < 0 then 0 else offset
  }

  /**
   * The number of rows `LIMIT limit OFFSET offset` leaves of `n`:
   * min(limit, max(0, n - offset)), where a negative limit means no limit and
   * a negative offset counts as 0.
   */
  function WindowLength(n: nat, limit: int, offset: int): nat
  {
    var available := if Skipped(offset) >= n then 0 else n - Skipped(offset);
    if limit < 0 || limit >= available then available else limit
  }

  /** `LIMIT limit OFFSET offset`: the consecutive rows from position max(0, offset). */
  function Window(rows: seq<Row>, limit: int, offset: int): (r: seq<Row>)
    ensures |r| == WindowLength(|rows|, limit, offset)
    ensures forall i :: 0 <= i < |r| ==> r[i] == rows[Skipped(offset) + i]
  {
    var rest := if Skipped(offset) >= |rows| then [] else rows[Skipped(offset)..];
    if limit < 0 || limit >= |rest| then rest else rest[..limit]
  }

  /** The rows a statement shape selects from a table, LIMIT and OFFSET taking the query's values. */
  function Evaluate(rows: seq<Row>, sel: Select, limit: int, offset: int, tie: TieBreak): (r: seq<Row>)
    ensures sel.paged && limit >= 0 ==> |r| <= limit
  {
    var kept := Filter(rows, sel.filter);
    var ordered := match sel.order
      case None => kept
      case Some(o) => Sort(kept, o.0, o.1, tie);
    if sel.paged then Window(ordered, limit, offset) else ordered
  }

  const UnsupportedStatement: string := "unsupported statement"

  /**
   * Prepare and run the statement of a query: its template must be a
   * statement shape whose expansion by `parse_query` is exactly the shape's
   * text over the pair's table, and that table must exist.
   */
  function Selected(s: Store, q: Query, tie: TieBreak): (r: Result<(Select, seq<Row>), Error>)
    ensures r.Ok? ==> ParseTemplate(q.template) == Some(r.value.0) && TableKey(q.clusterId, q.topicName) in s.tables
    ensures r.Ok? && r.value.0.paged && q.limit >= 0 ==> |r.value.1| <= q.limit
  {
    match ParseTemplate(q.template)
    case None => Err(SqlError(UnsupportedStatement))
    case Some(sel) =>
      var key := TableKey(q.clusterId, q.topicName);
      if ParseQuery(q) != StatementText(sel, q.clusterId, q.topicName, q.limit, q.offset) then Err(SqlError(UnsupportedStatement))
      else if key !in s.tables then Err(SqlError("no such table: " + TableName(q.clusterId, q.topicName)))
      else Ok((sel, Evaluate(s.tables[key], sel, q.limit, q.offset, tie)))
  }

  const InvalidColumnIndex: string := "Invalid column index"

  /**
   * `query_records`: every selected row as a record of the query's topic.
   * A statement selecting only `offset` has no column 2..4, so reading any
   * row of it fails.
   */
  function QueryRecords(s: Store, q: Query, tie: TieBreak): (r: Result<seq<ParsedKafkaRecord>, Error>)
    ensures TableKey(q.clusterId, q.topicName) !in s.tables ==> r.Err?
    ensures ParseTemplate(q.template).None? ==> r == Err(SqlError(UnsupportedStatement))
    ensures r.Ok? ==> forall i :: 0 <= i < |r.value| ==> r.value[i].topic == q.topicName
    ensures r.Ok? && q.limit >= 0 && ParseTemplate(q.template).Some? && ParseTemplate(q.template).value.paged ==> |r.value| <= q.limit
  {
    match Selected(s, q, tie)
    case Err(e) => Err(e)
    case Ok(picked) =>
      var (sel, rows) := picked;
      if sel.projection == OffsetOnly && |rows| > 0 then Err(SqlError(InvalidColumnIndex))
      else Ok(RecordsOf(rows, q.topicName))
  }

  /** `get_records`: a page of the topic, newest timestamp first. */
  function GetRecords(s: Store, clusterId: string, topicName: string, offset: int, limit: int, tie: TieBreak)
    : (r: Result<seq<ParsedKafkaRecord>, Error>)
    ensures TableKey(clusterId, topicName) !in s.tables ==> r.Err?
    ensures r.Ok? ==> forall i :: 0 <= i < |r.value| ==> r.value[i].topic == topicName
    ensures r.Ok? && limit >= 0 ==> |r.value| <= limit
  {
    ParseTemplateExact(Template(RecordsPage), RecordsPage);
    QueryRecords(s, Query(clusterId, topicName, offset, limit, Template(RecordsPage)), tie)
  }

  /** Counting ignores the order of the rows, so any tie-break will do. */
  const AnyTie: TieBreak := (row: Row) => 0

  /** `get_size_with_query`: `SELECT count(*) FROM (<parse_query(q)>)`. */
  function GetSizeWithQuery(s: Store, q: Query): (r: Result<nat, Error>)
    ensures TableKey(q.clusterId, q.topicName) !in s.tables ==> r.Err?
    ensures ParseTemplate(q.template).None? ==> r == Err(SqlError(UnsupportedStatement))
    ensures r.Ok? && q.limit >= 0 && ParseTemplate(q.template).Some? && ParseTemplate(q.template).value.paged ==> r.value <= q.limit
  {
    match Selected(s, q, AnyTie)
    case Err(e) => Err(e)
    case Ok((_, rows)) => Ok(|rows|)
  }

  /** `get_size`: the number of rows of the pair's table. */
  function GetSize(s: Store, clusterId: string, topicName: string): (r: Result<nat, Error>)
    ensures TableKey(clusterId, topicName) !in s.tables ==> r.Err?
  {
    GetSizeWithQuery(s, Query(clusterId, topicName, 0, 0, Template(OffsetsOnly)))
  }
}
