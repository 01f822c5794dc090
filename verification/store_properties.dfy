/**
 * Properties of the record store: what `get_size`, `get_records` and
 * `get_size_with_query` report after creating, filling and clearing tables,
 * including the scenarios of the store's own tests.
 */
module StoreProperties {
  import opened Wrappers
  import opened Text
  import opened Errors
  import opened QueryText
  import opened StatementShape
  import opened RecordStore

  /** Names without `{`, which placeholder expansion leaves alone. */
  predicate PlainNames(clusterId: string, topicName: string)
  {
    '{' !in clusterId && '{' !in topicName
  }

  /**
   * A query whose template is the text of a statement shape runs that shape
   * on the pair's table, or fails because the table does not exist.
   */
  lemma SelectedShape(s: Store, q: Query, sel: Select, tie: TieBreak)
    requires q.template == Template(sel) && PlainNames(q.clusterId, q.topicName)
    ensures var key := TableKey(q.clusterId, q.topicName);
      Selected(s, q, tie)
      == if key in s.tables then Ok((sel, Evaluate(s.tables[key], sel, q.limit, q.offset, tie)))
         else Err(SqlError("no such table: " + TableName(q.clusterId, q.topicName)))
  {
    ParseTemplateExact(q.template, sel);
    ParseStatement(sel, q.clusterId, q.topicName, q.limit, q.offset);
    assert q == Query(q.clusterId, q.topicName, q.offset, q.limit, Template(sel));
  }

  lemma {:induction false} FilterNone(rows: seq<Row>)
    ensures Filter(rows, None) == rows
  {
    if |rows| > 0 {
      FilterNone(rows[1..]);
      assert rows == [rows[0]] + rows[1..];
    }
  }

  lemma SortLength(rows: seq<Row>, c: Column, d: Direction, tie: TieBreak)
    ensures |Sort(rows, c, d, tie)| == |rows|
  {
    assert |multiset(Sort(rows, c, d, tie))| == |multiset(rows)|;
  }

  /** The rows `get_records` pages through: the table ordered by timestamp, newest first. */
  lemma RecordsPageEvaluates(rows: seq<Row>, limit: int, offset: int, tie: TieBreak)
    ensures Evaluate(rows, RecordsPage, limit, offset, tie) == Window(Sort(rows, TimestampColumn, Desc, tie), limit, offset)
  {
    FilterNone(rows);
  }

  // ---------------------------------------------------------------------
  // Sizes.

  /** `get_size` is the number of rows of the pair's table, and an error when there is none. */
  lemma GetSizeCounts(s: Store, clusterId: string, topicName: string)
    requires PlainNames(clusterId, topicName)
    ensures var key := TableKey(clusterId, topicName);
      GetSize(s, clusterId, topicName)
      == if key in s.tables then Ok(|s.tables[key]|) else Err(SqlError("no such table: " + TableName(clusterId, topicName)))
  {
    var q := Query(clusterId, topicName, 0, 0, Template(OffsetsOnly));
    SelectedShape(s, q, OffsetsOnly, AnyTie);
    var name := TableKey(clusterId, topicName);
    if name in s.tables {
      FilterNone(s.tables[name]);
    }
  }

  /** Each insert into an existing table adds one to `get_size`. */
  lemma SizeAfterInsert(s: Store, clusterId: string, topicName: string, rec: ParsedKafkaRecord)
    requires PlainNames(clusterId, topicName) && TableKey(clusterId, topicName) in s.tables
    ensures InsertRecord(s, clusterId, topicName, rec).Ok?
    ensures GetSize(InsertRecord(s, clusterId, topicName, rec).value, clusterId, topicName)
         == Ok(|s.tables[TableKey(clusterId, topicName)]| + 1)
  {
    GetSizeCounts(InsertRecord(s, clusterId, topicName, rec).value, clusterId, topicName);
  }

  /** After `clear` the pair's table is empty. */
  lemma SizeAfterClear(s: Store, clusterId: string, topicName: string)
    requires PlainNames(clusterId, topicName) && TableKey(clusterId, topicName) in s.tables
    ensures GetSize(Clear(s, clusterId, topicName), clusterId, topicName) == Ok(0)
  {
    GetSizeCounts(Clear(s, clusterId, topicName), clusterId, topicName);
  }

  /** A query reads only its own table: stores that agree on it answer alike. */
  lemma SelectedIsLocal(s1: Store, s2: Store, q: Query, tie: TieBreak)
    requires var name := TableKey(q.clusterId, q.topicName);
      (name in s1.tables <==> name in s2.tables) && (name in s1.tables ==> s1.tables[name] == s2.tables[name])
    ensures Selected(s1, q, tie) == Selected(s2, q, tie)
    ensures QueryRecords(s1, q, tie) == QueryRecords(s2, q, tie)
    ensures GetSizeWithQuery(s1, q) == GetSizeWithQuery(s2, q)
  {
  }

  /** `clear` changes no answer about a table of another name. */
  lemma ClearLeavesOtherTables(s: Store, clusterId: string, topicName: string, q: Query, tie: TieBreak)
    requires TableKey(clusterId, topicName) in s.tables
    requires TableKey(q.clusterId, q.topicName) != TableKey(clusterId, topicName)
    ensures QueryRecords(Clear(s, clusterId, topicName), q, tie) == QueryRecords(s, q, tie)
    ensures GetSizeWithQuery(Clear(s, clusterId, topicName), q) == GetSizeWithQuery(s, q)
  {
    SelectedIsLocal(Clear(s, clusterId, topicName), s, q, tie);
  }

  /** Inserting changes no answer about a table of another name. */
  lemma InsertLeavesOtherTables(s: Store, clusterId: string, topicName: string, rec: ParsedKafkaRecord, q: Query, tie: TieBreak)
    requires TableKey(clusterId, topicName) in s.tables
    requires TableKey(q.clusterId, q.topicName) != TableKey(clusterId, topicName)
    ensures QueryRecords(InsertRecord(s, clusterId, topicName, rec).value, q, tie) == QueryRecords(s, q, tie)
    ensures GetSizeWithQuery(InsertRecord(s, clusterId, topicName, rec).value, q) == GetSizeWithQuery(s, q)
  {
    SelectedIsLocal(InsertRecord(s, clusterId, topicName, rec).value, s, q, tie);
  }

  /**
   * Names that differ only in ASCII case reach one table: creating it under
   * one spelling makes creating it under the other a second creation (which
   * panics), and an insert or a clear under either spelling changes what the
   * other spelling counts.
   */
  lemma CaseVariantsAreOneTable(s: Store, clusterId: string, t1: string, t2: string, rec: ParsedKafkaRecord)
    requires FoldCase(t1) == FoldCase(t2) && PlainNames(clusterId, t1)
    requires TableKey(clusterId, t1) in s.tables
    ensures TableKey(clusterId, t2) in s.tables
    ensures InsertRecord(s, clusterId, t2, rec).Ok?
    ensures GetSize(InsertRecord(s, clusterId, t2, rec).value, clusterId, t1) == Ok(|s.tables[TableKey(clusterId, t1)]| + 1)
    ensures GetSize(Clear(s, clusterId, t2), clusterId, t1) == Ok(0)
  {
    SameFoldSameKey(clusterId, t1, clusterId, t2);
    GetSizeCounts(InsertRecord(s, clusterId, t2, rec).value, clusterId, t1);
    GetSizeCounts(Clear(s, clusterId, t2), clusterId, t1);
  }

  /** A table created under one spelling takes a record inserted under another spelling that folds alike. */
  lemma CreateThenInsertVariant(clusterId: string, t1: string, t2: string, rec: ParsedKafkaRecord)
    requires FoldCase(t1) == FoldCase(t2) && PlainNames(clusterId, t1)
    ensures var s0 := CreateTopicTable(NewStore, clusterId, t1);
      && TableKey(clusterId, t2) in s0.tables
      && InsertRecord(s0, clusterId, t2, rec).Ok?
      && GetSize(InsertRecord(s0, clusterId, t2, rec).value, clusterId, t1) == Ok(1)
  {
    var s0 := CreateTopicTable(NewStore, clusterId, t1);
    assert |s0.tables[TableKey(clusterId, t1)]| == 0;
    CaseVariantsAreOneTable(s0, clusterId, t1, t2, rec);
  }

  /** After creating the table of "orders", a record inserted for "Orders" is counted under "orders". */
  lemma OrdersScenario(rec: ParsedKafkaRecord)
    ensures var s0 := CreateTopicTable(NewStore, "c", "orders");
      && TableKey("c", "Orders") in s0.tables
      && InsertRecord(s0, "c", "Orders", rec).Ok?
      && GetSize(InsertRecord(s0, "c", "Orders", rec).value, "c", "orders") == Ok(1)
  {
    assert FoldCase("orders") == FoldCase("Orders");
    CreateThenInsertVariant("c", "orders", "Orders", rec);
  }

  /** `test_get_size`: three inserts into a new table give a size of 3. */
  lemma ThreeInsertsGiveThree(clusterId: string, topicName: string, rec: ParsedKafkaRecord)
    requires PlainNames(clusterId, topicName)
    ensures var s0 := CreateTopicTable(NewStore, clusterId, topicName);
      var s1 := InsertRecord(s0, clusterId, topicName, rec).value;
      var s2 := InsertRecord(s1, clusterId, topicName, rec).value;
      var s3 := InsertRecord(s2, clusterId, topicName, rec).value;
      GetSize(s3, clusterId, topicName) == Ok(3)
  {
    var s0 := CreateTopicTable(NewStore, clusterId, topicName);
    var s1 := InsertRecord(s0, clusterId, topicName, rec).value;
    var s2 := InsertRecord(s1, clusterId, topicName, rec).value;
    SizeAfterInsert(s2, clusterId, topicName, rec);
  }

  // ---------------------------------------------------------------------
  // Pages.

  function RowsOf(page: seq<ParsedKafkaRecord>): (r: seq<Row>)
    ensures |r| == |page| && forall i :: 0 <= i < |page| ==> r[i] == RowOf(page[i])
  {
    seq(|page|, i requires 0 <= i < |page| => RowOf(page[i]))
  }

  /** `get_records` on an existing table: a window of the table ordered newest first, under the queried topic. */
  lemma GetRecordsPage(s: Store, clusterId: string, topicName: string, offset: int, limit: int, tie: TieBreak)
    requires PlainNames(clusterId, topicName) && TableKey(clusterId, topicName) in s.tables
    ensures GetRecords(s, clusterId, topicName, offset, limit, tie)
         == Ok(RecordsOf(Window(Sort(s.tables[TableKey(clusterId, topicName)], TimestampColumn, Desc, tie), limit, offset), topicName))
  {
    var rows := s.tables[TableKey(clusterId, topicName)];
    var q := Query(clusterId, topicName, offset, limit, Template(RecordsPage));
    SelectedShape(s, q, RecordsPage, tie);
    RecordsPageEvaluates(rows, limit, offset, tie);
  }

  lemma WindowKeepsOrder(rows: seq<Row>, c: Column, d: Direction, limit: int, offset: int)
    requires OrderedBy(rows, c, d)
    ensures OrderedBy(Window(rows, limit, offset), c, d)
  {
    var w := Window(rows, limit, offset);
    forall i, j | 0 <= i < j < |w| ensures InOrder(d, Key(w[i], c), Key(w[j], c)) {
      assert w[i] == rows[Skipped(offset) + i] && w[j] == rows[Skipped(offset) + j];
    }
  }

  lemma WindowMembers(rows: seq<Row>, limit: int, offset: int)
    ensures forall row :: row in Window(rows, limit, offset) ==> row in rows
  {
    var w := Window(rows, limit, offset);
    forall row | row in w ensures row in rows {
      var i :| 0 <= i < |w| && w[i] == row;
      assert rows[Skipped(offset) + i] == row;
    }
  }

  lemma WindowWhole(rows: seq<Row>, limit: int, offset: int)
    requires offset <= 0 && (limit < 0 || limit >= |rows|)
    ensures Window(rows, limit, offset) == rows
  {
  }

  lemma WindowOfSorted(rows: seq<Row>, limit: int, offset: int, tie: TieBreak, topicName: string)
    ensures var page := RecordsOf(Window(Sort(rows, TimestampColumn, Desc, tie), limit, offset), topicName);
      && |page| == WindowLength(|rows|, limit, offset)
      && (forall i, j :: 0 <= i < j < |page| ==> KeyLe(page[j].timestamp, page[i].timestamp))
      && (forall i :: 0 <= i < |page| ==> page[i].topic == topicName && RowOf(page[i]) in rows)
      && (offset <= 0 && (limit < 0 || limit >= |rows|) ==> multiset(RowsOf(page)) == multiset(rows))
  {
    var sorted := Sort(rows, TimestampColumn, Desc, tie);
    var window := Window(sorted, limit, offset);
    var page := RecordsOf(window, topicName);
    SortLength(rows, TimestampColumn, Desc, tie);
    WindowKeepsOrder(sorted, TimestampColumn, Desc, limit, offset);
    WindowMembers(sorted, limit, offset);
    PageOfWindow(window, topicName);
    forall i | 0 <= i < |page| ensures RowOf(page[i]) in rows {
      assert RowOf(page[i]) == window[i];
      assert window[i] in multiset(sorted);
    }
    if offset <= 0 && (limit < 0 || limit >= |rows|) {
      WindowWhole(sorted, limit, offset);
    }
  }

  /** The records of rows ordered newest first: the same rows, in the same order, under the topic. */
  lemma PageOfWindow(window: seq<Row>, topicName: string)
    requires OrderedBy(window, TimestampColumn, Desc)
    ensures var page := RecordsOf(window, topicName);
      && RowsOf(page) == window
      && (forall i, j :: 0 <= i < j < |page| ==> KeyLe(page[j].timestamp, page[i].timestamp))
      && (forall i :: 0 <= i < |page| ==> page[i].topic == topicName)
  {
    var page := RecordsOf(window, topicName);
    forall i, j | 0 <= i < j < |page| ensures KeyLe(page[j].timestamp, page[i].timestamp) {
      assert InOrder(Desc, Key(window[i], TimestampColumn), Key(window[j], TimestampColumn));
    }
  }

  /**
   * `get_records(offset, limit)` on an existing table: min(limit, max(0, size - offset))
   * records (no limit when negative, offset 0 when negative), newest timestamp
   * first, each a row of the table under the queried topic; a page covering
   * the whole table holds every row exactly once.
   */
  lemma PageShape(s: Store, clusterId: string, topicName: string, offset: int, limit: int, tie: TieBreak)
    requires PlainNames(clusterId, topicName) && TableKey(clusterId, topicName) in s.tables
    ensures GetRecords(s, clusterId, topicName, offset, limit, tie).Ok?
    ensures var rows := s.tables[TableKey(clusterId, topicName)];
      var page := GetRecords(s, clusterId, topicName, offset, limit, tie).value;
      && |page| == WindowLength(|rows|, limit, offset)
      && (forall i, j :: 0 <= i < j < |page| ==> KeyLe(page[j].timestamp, page[i].timestamp))
      && (forall i :: 0 <= i < |page| ==> page[i].topic == topicName && RowOf(page[i]) in rows)
      && (offset <= 0 && (limit < 0 || limit >= |rows|) ==> multiset(RowsOf(page)) == multiset(rows))
  {
    GetRecordsPage(s, clusterId, topicName, offset, limit, tie);
    WindowOfSorted(s.tables[TableKey(clusterId, topicName)], limit, offset, tie, topicName);
  }

  /** `test_use_offset`: over three rows, (0, 1000) gives 3, (1, 1) gives 1 and (3, 1000) gives 0. */
  lemma UseOffsetScenario(s: Store, clusterId: string, topicName: string, tie: TieBreak)
    requires PlainNames(clusterId, topicName) && TableKey(clusterId, topicName) in s.tables
    requires |s.tables[TableKey(clusterId, topicName)]| == 3
    ensures GetRecords(s, clusterId, topicName, 0, 1000, tie).Ok?
    ensures GetRecords(s, clusterId, topicName, 1, 1, tie).Ok?
    ensures GetRecords(s, clusterId, topicName, 3, 1000, tie).Ok?
    ensures |GetRecords(s, clusterId, topicName, 0, 1000, tie).value| == 3
    ensures |GetRecords(s, clusterId, topicName, 1, 1, tie).value| == 1
    ensures |GetRecords(s, clusterId, topicName, 3, 1000, tie).value| == 0
  {
    PageLength(s, clusterId, topicName, 0, 1000, tie);
    PageLength(s, clusterId, topicName, 1, 1, tie);
    PageLength(s, clusterId, topicName, 3, 1000, tie);
  }

  lemma PageLength(s: Store, clusterId: string, topicName: string, offset: int, limit: int, tie: TieBreak)
    requires PlainNames(clusterId, topicName) && TableKey(clusterId, topicName) in s.tables
    ensures GetRecords(s, clusterId, topicName, offset, limit, tie).Ok?
    ensures |GetRecords(s, clusterId, topicName, offset, limit, tie).value|
         == WindowLength(|s.tables[TableKey(clusterId, topicName)]|, limit, offset)
  {
    GetRecordsPage(s, clusterId, topicName, offset, limit, tie);
    SortLength(s.tables[TableKey(clusterId, topicName)], TimestampColumn, Desc, tie);
  }

  /** A negative offset pages exactly as offset 0 (SQLite), rather than being rejected. */
  lemma NegativeOffsetIsZero(s: Store, clusterId: string, topicName: string, offset: int, limit: int, tie: TieBreak)
    requires PlainNames(clusterId, topicName) && offset < 0
    ensures GetRecords(s, clusterId, topicName, offset, limit, tie) == GetRecords(s, clusterId, topicName, 0, limit, tie)
  {
    var name := TableKey(clusterId, topicName);
    if name in s.tables {
      GetRecordsPage(s, clusterId, topicName, offset, limit, tie);
      GetRecordsPage(s, clusterId, topicName, 0, limit, tie);
      WindowNegativeOffset(Sort(s.tables[name], TimestampColumn, Desc, tie), limit, offset);
    } else {
      MissingTablePage(s, clusterId, topicName, offset, limit, tie);
      MissingTablePage(s, clusterId, topicName, 0, limit, tie);
    }
  }

  lemma WindowNegativeOffset(rows: seq<Row>, limit: int, offset: int)
    requires offset < 0
    ensures Window(rows, limit, offset) == Window(rows, limit, 0)
  {
  }

  /** `get_records` on a missing table fails with "no such table". */
  lemma MissingTablePage(s: Store, clusterId: string, topicName: string, offset: int, limit: int, tie: TieBreak)
    requires PlainNames(clusterId, topicName) && TableKey(clusterId, topicName) !in s.tables
    ensures GetRecords(s, clusterId, topicName, offset, limit, tie) == Err(SqlError("no such table: " + TableName(clusterId, topicName)))
  {
    SelectedShape(s, Query(clusterId, topicName, offset, limit, Template(RecordsPage)), RecordsPage, tie);
  }

  /**
   * `test_insert_and_get_record`: one record inserted into a new table is the
   * whole first page, read back under the queried topic.
   */
  lemma InsertThenGet(s: Store, clusterId: string, topicName: string, rec: ParsedKafkaRecord, tie: TieBreak)
    requires PlainNames(clusterId, topicName) && TableKey(clusterId, topicName) !in s.tables
    ensures var s1 := InsertRecord(CreateTopicTable(s, clusterId, topicName), clusterId, topicName, rec).value;
      GetRecords(s1, clusterId, topicName, 0, 1000, tie) == Ok([RecordOf(RowOf(rec), topicName)])
    ensures rec.topic == topicName ==>
      var s1 := InsertRecord(CreateTopicTable(s, clusterId, topicName), clusterId, topicName, rec).value;
      GetRecords(s1, clusterId, topicName, 0, 1000, tie) == Ok([rec])
  {
    var s1 := InsertRecord(CreateTopicTable(s, clusterId, topicName), clusterId, topicName, rec).value;
    var row := RowOf(rec);
    assert s1.tables[TableKey(clusterId, topicName)] == [row];
    SingleRowPage(s1, clusterId, topicName, row, 0, 1000, tie);
    RecordRoundTrip(rec, row, topicName);
  }

  /** A one-row table gives that row as the whole of any page that starts at the top and is not empty. */
  lemma SingleRowPage(s: Store, clusterId: string, topicName: string, row: Row, offset: int, limit: int, tie: TieBreak)
    requires PlainNames(clusterId, topicName) && TableKey(clusterId, topicName) in s.tables
    requires s.tables[TableKey(clusterId, topicName)] == [row]
    requires offset <= 0 && (limit < 0 || limit >= 1)
    ensures GetRecords(s, clusterId, topicName, offset, limit, tie) == Ok([RecordOf(row, topicName)])
  {
    GetRecordsPage(s, clusterId, topicName, offset, limit, tie);
    PageOfOne(s.tables[TableKey(clusterId, topicName)], limit, offset, tie, topicName);
  }

  lemma PageOfOne(rows: seq<Row>, limit: int, offset: int, tie: TieBreak, topicName: string)
    requires |rows| == 1
    requires offset <= 0 && (limit < 0 || limit >= 1)
    ensures RecordsOf(Window(Sort(rows, TimestampColumn, Desc, tie), limit, offset), topicName) == [RecordOf(rows[0], topicName)]
  {
    var sorted := Sort(rows, TimestampColumn, Desc, tie);
    SortLength(rows, TimestampColumn, Desc, tie);
    assert sorted[0] in multiset(rows);
    assert sorted == rows;
    WindowWhole(sorted, limit, offset);
  }

  // ---------------------------------------------------------------------
  // Counting queries.

  /** The count of `get_size_with_query` is the number of rows the inner statement selects. */
  lemma SizeWithQueryCounts(s: Store, q: Query, sel: Select)
    requires q.template == Template(sel) && PlainNames(q.clusterId, q.topicName)
    requires TableKey(q.clusterId, q.topicName) in s.tables
    ensures var matching := |Filter(s.tables[TableKey(q.clusterId, q.topicName)], sel.filter)|;
      GetSizeWithQuery(s, q) == Ok(if sel.paged then WindowLength(matching, q.limit, q.offset) else matching)
  {
    SelectedShape(s, q, sel, AnyTie);
    var kept := Filter(s.tables[TableKey(q.clusterId, q.topicName)], sel.filter);
    if sel.order.Some? {
      SortLength(kept, sel.order.value.0, sel.order.value.1, AnyTie);
    }
  }

  /** The count agrees with the number of records the same query returns, whatever the tie order. */
  lemma SizeMatchesRecords(s: Store, q: Query, tie: TieBreak)
    ensures QueryRecords(s, q, tie).Ok? ==> GetSizeWithQuery(s, q) == Ok(|QueryRecords(s, q, tie).value|)
  {
    if !QueryRecords(s, q, tie).Ok? { return; }
    var sel := ParseTemplate(q.template).value;
    var name := TableKey(q.clusterId, q.topicName);
    var kept := Filter(s.tables[name], sel.filter);
    if sel.order.Some? {
      SortLength(kept, sel.order.value.0, sel.order.value.1, AnyTie);
      SortLength(kept, sel.order.value.0, sel.order.value.1, tie);
    }
  }

  /** The template of `test_get_size_with_query`. */
  const OffsetZeroQuery: Select := Select(AllColumns, Some((OffsetColumn, 0)), Some((OffsetColumn, Asc)), true, true)

  lemma OffsetZeroTemplate()
    ensures Template(OffsetZeroQuery)
         == "SELECT * from " + "{:topic}" + " WHERE offset = " + "0" + " ORDER BY offset"
            + " LIMIT " + "{:limit}" + " OFFSET " + "{:offset}" + ";"
  {
    var sel := OffsetZeroQuery;
    TemplateText(sel);
    assert FilterText(sel.filter) == " WHERE offset = " + "0" by {
      assert IntToString(0) == "0";
    }
    Regroup10("SELECT * from ", "{:topic}", " WHERE offset = ", "0", " ORDER BY offset",
      " LIMIT ", "{:limit}", " OFFSET ", "{:offset}", ";");
  }

  lemma Regroup10(a: string, b: string, c1: string, c2: string, d: string,
                  e1: string, e2: string, e3: string, e4: string, f: string)
    ensures a + b + (c1 + c2) + d + (e1 + e2 + e3 + e4) + f == a + b + c1 + c2 + d + e1 + e2 + e3 + e4 + f
  {
  }

  function TestRecord(topicName: string, offset: int): ParsedKafkaRecord
  {
    ParsedKafkaRecord(topicName, 2, offset, Some(321123321), Some("key"), Some("example payload"))
  }

  /**
   * `test_get_size_with_query`: records with offsets 1, 0, 0, counted through
   * `WHERE offset = 0` with limit and offset -1, give 2.
   */
  lemma FilteredCountScenario(clusterId: string, topicName: string)
    requires PlainNames(clusterId, topicName)
    ensures var s0 := CreateTopicTable(NewStore, clusterId, topicName);
      var s1 := InsertRecord(s0, clusterId, topicName, TestRecord(topicName, 1)).value;
      var s2 := InsertRecord(s1, clusterId, topicName, TestRecord(topicName, 0)).value;
      var s3 := InsertRecord(s2, clusterId, topicName, TestRecord(topicName, 0)).value;
      GetSizeWithQuery(s3, Query(clusterId, topicName, -1, -1, Template(OffsetZeroQuery))) == Ok(2)
  {
    var s0 := CreateTopicTable(NewStore, clusterId, topicName);
    var s1 := InsertRecord(s0, clusterId, topicName, TestRecord(topicName, 1)).value;
    var s2 := InsertRecord(s1, clusterId, topicName, TestRecord(topicName, 0)).value;
    var s3 := InsertRecord(s2, clusterId, topicName, TestRecord(topicName, 0)).value;
    var one, zero := RowOf(TestRecord(topicName, 1)), RowOf(TestRecord(topicName, 0));
    assert s3.tables[TableKey(clusterId, topicName)] == [one, zero, zero];
    CountOffsetZero(s3, clusterId, topicName, one, zero);
  }

  lemma CountOffsetZero(s: Store, clusterId: string, topicName: string, one: Row, zero: Row)
    requires PlainNames(clusterId, topicName) && TableKey(clusterId, topicName) in s.tables
    requires s.tables[TableKey(clusterId, topicName)] == [one, zero, zero] && one.offset == 1 && zero.offset == 0
    ensures GetSizeWithQuery(s, Query(clusterId, topicName, -1, -1, Template(OffsetZeroQuery))) == Ok(2)
  {
    SizeWithQueryCounts(s, Query(clusterId, topicName, -1, -1, Template(OffsetZeroQuery)), OffsetZeroQuery);
    FilterOffsetZero(one, zero);
  }

  lemma FilterOffsetZero(one: Row, zero: Row)
    requires one.offset == 1 && zero.offset == 0
    ensures Filter([one, zero, zero], Some((OffsetColumn, 0))) == [zero, zero]
  {
    var rows, f := [one, zero, zero], Some((OffsetColumn, 0));
    assert rows[1..] == [zero, zero] && rows[1..][1..] == [zero] && rows[1..][1..][1..] == [];
    assert Filter([zero], f) == [zero] + Filter([], f);
  }
}
