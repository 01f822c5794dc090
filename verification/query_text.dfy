/**
 * The SQL text of the record store (app_store.rs): the per-topic table name,
 * the placeholder expansion of query templates in `parse_query`, and the
 * statement shapes whose templates the store uses.
 */
module QueryText {
  import opened Wrappers
  import opened Text

  /** app_store.rs `Query`: a template plus the values of its placeholders. */
  datatype Query = Query(clusterId: string, topicName: string, offset: int, limit: int, template: string)

  /** `get_table_name`: the quoted, bracketed table name of a (cluster, topic) pair. */
  function TableName(clusterId: string, topicName: string): (r: string)
    ensures |r| == |clusterId| + |topicName| + 7
    ensures r[..2] == "'[" && r[|r| - 2..] == "]'"
    ensures r[2..2 + |clusterId|] == clusterId
    ensures r[2 + |clusterId|..5 + |clusterId|] == "].["
    ensures r[5 + |clusterId|..|r| - 2] == topicName
  {
    "'[" + clusterId + "].[" + topicName + "]'"
  }

  /** Placeholder expansion: `{:topic}`, then `{:limit}`, then `{:offset}` replaced everywhere. */
  function Expand(q: Query): string
  {
    var withTable := ReplaceAll(q.template, "{:topic}", TableName(q.clusterId, q.topicName));
    var withLimit := ReplaceAll(withTable, "{:limit}", IntToString(q.limit));
    ReplaceAll(withLimit, "{:offset}", IntToString(q.offset))
  }

  /** `parse_query`: expand the placeholders, trim, and drop one trailing `;`. */
  function ParseQuery(q: Query): (r: string)
    ensures var t := Trim(Expand(q));
      if |t| > 0 && t[|t| - 1] == ';' then r + ";" == t else r == t
  {
    DropTerminator(Trim(Expand(q)))
  }

  /** One trailing `;` removed, if there is one: putting it back gives the text again. */
  function DropTerminator(t: string): (r: string)
    ensures if |t| > 0 && t[|t| - 1] == ';' then r + ";" == t else r == t
  {
    if |t| > 0 && t[|t| - 1] == ';' then
      var r := t[..|t| - 1];
      assert r + ";" == t;
      r
    else t
  }

  /** The index of the first `c` in `s`, or `|s|` when there is none. */
  function IndexOf(s: string, c: char): (i: nat)
    ensures i <= |s|
    ensures i < |s| ==> s[i] == c
    ensures forall j :: 0 <= j < i ==> s[j] != c
  {
    if |s| == 0 then 0 else if s[0] == c then 0 else 1 + IndexOf(s[1..], c)
  }

  lemma {:induction false} IndexOfSkips(a: string, b: string, c: char)
    requires c !in a
    ensures IndexOf(a + b, c) == |a| + IndexOf(b, c)
  {
    if |a| > 0 {
      assert (a + b)[1..] == a[1..] + b;
      IndexOfSkips(a[1..], b, c);
    } else {
      assert a + b == b;
    }
  }

  /**
   * Distinct (cluster, topic) pairs get distinct tables as long as the cluster
   * id contains no `]`; the first `]` of a table name ends the cluster id.
   */
  lemma TableNameInjective(c1: string, t1: string, c2: string, t2: string)
    requires ']' !in c1 && ']' !in c2
    ensures TableName(c1, t1) == TableName(c2, t2) <==> c1 == c2 && t1 == t2
  {
    var n1, n2 := TableName(c1, t1), TableName(c2, t2);
    ClusterEndsAtFirstBracket(c1, t1);
    ClusterEndsAtFirstBracket(c2, t2);
    if n1 == n2 {
      assert |c1| == |c2|;
      assert c1 == n1[2..2 + |c1|];
      assert c2 == n2[2..2 + |c2|];
      assert t1 == n1[5 + |c1|..|n1| - 2];
      assert t2 == n2[5 + |c2|..|n2| - 2];
    }
  }

  /** The first `]` of a table name closes its cluster id when that id has none. */
  lemma ClusterEndsAtFirstBracket(clusterId: string, topicName: string)
    requires ']' !in clusterId
    ensures IndexOf(TableName(clusterId, topicName), ']') == 2 + |clusterId|
  {
    assert TableName(clusterId, topicName) == ("'[" + clusterId) + ("].[" + topicName + "]'");
    IndexOfSkips("'[" + clusterId, "].[" + topicName + "]'", ']');
  }

  /** Without that condition two pairs can share one table. */
  lemma TableNameCollision()
    ensures TableName("a].[b", "c") == TableName("a", "b].[c")
  {
  }

  /** ASCII upper-case letters to lower case; every other character unchanged. */
  function LowerAscii(c: char): char
  {
    if 'A' <= c <= 'Z' then (c as int + 32) as char else c
  }

  /**
   * An identifier as SQLite compares it: ASCII letters fold to lower case,
   * whether or not the identifier is quoted.
   */
  function FoldCase(s: string): (r: string)
    ensures |r| == |s|
    ensures forall i :: 0 <= i < |s| ==> r[i] == LowerAscii(s[i])
  {
    seq(|s|, i requires 0 <= i < |s| => LowerAscii(s[i]))
  }

  /** Folding works piece by piece. */
  lemma FoldCaseAppend(a: string, b: string)
    ensures FoldCase(a + b) == FoldCase(a) + FoldCase(b)
  {
    assert forall i :: 0 <= i < |a + b| ==> FoldCase(a + b)[i] == (FoldCase(a) + FoldCase(b))[i];
  }

  /** Folding a folded identifier changes nothing. */
  lemma FoldCaseIdempotent(s: string)
    ensures FoldCase(FoldCase(s)) == FoldCase(s)
  {
  }

  /** Only `]` folds to `]`, so folding keeps a cluster id free of `]`. */
  lemma FoldKeepsNoBracket(s: string)
    ensures ']' in FoldCase(s) <==> ']' in s
  {
    if ']' in FoldCase(s) {
      var i :| 0 <= i < |s| && FoldCase(s)[i] == ']';
      assert s[i] == ']';
    }
    if ']' in s {
      var i :| 0 <= i < |s| && s[i] == ']';
      assert FoldCase(s)[i] == ']';
    }
  }

  /** The key the database finds a topic table by: its name with ASCII case folded. */
  function TableKey(clusterId: string, topicName: string): string
  {
    FoldCase(TableName(clusterId, topicName))
  }

  /** A table's key is the name of the pair with both parts folded. */
  lemma {:induction false} TableKeyOfFolded(clusterId: string, topicName: string)
    ensures TableKey(clusterId, topicName) == TableName(FoldCase(clusterId), FoldCase(topicName))
  {
    FoldCaseAppend("'[" + clusterId + "].[" + topicName, "]'");
    FoldCaseAppend("'[" + clusterId + "].[", topicName);
    FoldCaseAppend("'[" + clusterId, "].[");
    FoldCaseAppend("'[", clusterId);
    assert FoldCase("'[") == "'[" && FoldCase("].[") == "].[" && FoldCase("]'") == "]'";
  }

  /**
   * Two pairs share one table exactly when their cluster ids and their topic
   * names are equal up to ASCII case, as long as neither cluster id contains `]`.
   */
  lemma TableKeyInjective(c1: string, t1: string, c2: string, t2: string)
    requires ']' !in c1 && ']' !in c2
    ensures TableKey(c1, t1) == TableKey(c2, t2) <==> FoldCase(c1) == FoldCase(c2) && FoldCase(t1) == FoldCase(t2)
  {
    TableKeyOfFolded(c1, t1);
    TableKeyOfFolded(c2, t2);
    FoldKeepsNoBracket(c1);
    FoldKeepsNoBracket(c2);
    TableNameInjective(FoldCase(c1), FoldCase(t1), FoldCase(c2), FoldCase(t2));
  }

  /** Pairs equal up to ASCII case share one table, whatever characters they hold. */
  lemma SameFoldSameKey(c1: string, t1: string, c2: string, t2: string)
    requires FoldCase(c1) == FoldCase(c2) && FoldCase(t1) == FoldCase(t2)
    ensures TableKey(c1, t1) == TableKey(c2, t2)
  {
    TableKeyOfFolded(c1, t1);
    TableKeyOfFolded(c2, t2);
  }

  /** Topic names differing only in case have distinct names but one table. */
  lemma CaseVariantsShareTable()
    ensures TableName("c", "orders") != TableName("c", "Orders")
    ensures TableKey("c", "orders") == TableKey("c", "Orders")
  {
    CaseVariantNamesDiffer();
    CaseVariantKeysAgree();
  }

  lemma CaseVariantNamesDiffer()
    ensures TableName("c", "orders") != TableName("c", "Orders")
  {
    assert TableName("c", "orders")[6] != TableName("c", "Orders")[6];
  }

  lemma CaseVariantKeysAgree()
    ensures TableKey("c", "orders") == TableKey("c", "Orders")
  {
    assert FoldCase("orders") == "orders" == FoldCase("Orders");
    SameFoldSameKey("c", "orders", "c", "Orders");
  }

  // ---------------------------------------------------------------------
  // Templates as literal text interleaved with placeholders.

  datatype Piece = Lit(text: string) | TopicSlot | LimitSlot | OffsetSlot

  function PieceText(p: Piece): string
  {
    match p
    case Lit(text) => text
    case TopicSlot => "{:topic}"
    case LimitSlot => "{:limit}"
    case OffsetSlot => "{:offset}"
  }

  function Render(ps: seq<Piece>): string
  {
    if |ps| == 0 then [] else PieceText(ps[0]) + Render(ps[1..])
  }

  /** Every literal of the template is free of `{`, so only the slots can match a placeholder. */
  predicate LiteralsBraceFree(ps: seq<Piece>)
  {
    forall i :: 0 <= i < |ps| ==> ps[i].Lit? ==> '{' !in ps[i].text
  }

  /** The template with `slot` filled by `value`. */
  function Fill(ps: seq<Piece>, slot: Piece, value: string): (r: seq<Piece>)
    ensures |r| == |ps|
  {
    if |ps| == 0 then []
    else [if ps[0] == slot then Lit(value) else ps[0]] + Fill(ps[1..], slot, value)
  }

  /** The template with every slot filled. */
  function Instantiate(ps: seq<Piece>, table: string, limit: string, offset: string): (r: seq<Piece>)
    ensures |r| == |ps|
    ensures forall i :: 0 <= i < |ps| ==> r[i] == match ps[i]
      case Lit(_) => ps[i]
      case TopicSlot => Lit(table)
      case LimitSlot => Lit(limit)
      case OffsetSlot => Lit(offset)
  {
    if |ps| == 0 then []
    else
      var p := match ps[0]
        case Lit(_) => ps[0]
        case TopicSlot => Lit(table)
        case LimitSlot => Lit(limit)
        case OffsetSlot => Lit(offset);
      [p] + Instantiate(ps[1..], table, limit, offset)
  }

  lemma RenderAppend(a: seq<Piece>, b: seq<Piece>)
    ensures Render(a + b) == Render(a) + Render(b)
  {
    if |a| > 0 {
      assert (a + b)[1..] == a[1..] + b;
    } else {
      assert a + b == b;
    }
  }

  /** One slot never matches the text of another: they differ at index 2 and hold `{` only at index 0. */
  lemma SlotsDistinct(other: Piece, slot: Piece, rest: string)
    requires !other.Lit? && !slot.Lit? && other != slot
    ensures forall k :: 0 <= k < |PieceText(other)| ==> !OccursAt(PieceText(other) + rest, PieceText(slot), k)
  {
    var s := PieceText(other) + rest;
    var pat := PieceText(slot);
    forall k | 0 <= k < |PieceText(other)|
      ensures !OccursAt(s, pat, k)
    {
      if k == 0 {
        assert s[2] != pat[2];
      } else {
        assert s[k] != pat[0];
      }
      if k + |pat| <= |s| {
        assert s[k..k + |pat|][0] == s[k];
        assert k == 0 ==> s[k..k + |pat|][2] == s[2];
      }
    }
  }

  lemma LiteralsBraceFreeTail(ps: seq<Piece>)
    requires |ps| > 0 && LiteralsBraceFree(ps)
    ensures LiteralsBraceFree(ps[1..])
  {
    forall i | 0 <= i < |ps[1..]| ensures ps[1..][i].Lit? ==> '{' !in ps[1..][i].text {
      assert ps[1..][i] == ps[i + 1];
    }
  }

  lemma {:induction false} FillBraceFree(ps: seq<Piece>, slot: Piece, value: string)
    requires LiteralsBraceFree(ps) && '{' !in value
    ensures LiteralsBraceFree(Fill(ps, slot, value))
  {
    if |ps| > 0 {
      LiteralsBraceFreeTail(ps);
      FillBraceFree(ps[1..], slot, value);
      var filled := Fill(ps, slot, value);
      forall i | 0 <= i < |filled| ensures filled[i].Lit? ==> '{' !in filled[i].text {
        if i > 0 {
          assert filled[i] == Fill(ps[1..], slot, value)[i - 1];
        }
      }
    }
  }

  /** The first piece of a template is copied or filled, and the scan goes on after it. */
  lemma ReplaceFirstPiece(head: Piece, rest: string, slot: Piece, value: string)
    requires !slot.Lit? && (head.Lit? ==> '{' !in head.text)
    ensures ReplaceAll(PieceText(head) + rest, PieceText(slot), value)
         == PieceText(if head == slot then Lit(value) else head) + ReplaceAll(rest, PieceText(slot), value)
  {
    var text, pat := PieceText(head), PieceText(slot);
    if head == slot {
      assert StartsWith(text + rest, pat);
      assert (text + rest)[|pat|..] == rest;
    } else if head.Lit? {
      forall k | 0 <= k < |text| ensures !OccursAt(text + rest, pat, k) {
        assert (text + rest)[k] == text[k];
        if k + |pat| <= |text + rest| {
          assert (text + rest)[k..k + |pat|][0] == text[k];
        }
      }
      ReplaceAllSkips(text, rest, pat, value);
    } else {
      SlotsDistinct(head, slot, rest);
      ReplaceAllSkips(text, rest, pat, value);
    }
  }

  /** Replacing a slot's placeholder text fills exactly that slot. */
  lemma {:induction false} FillRender(ps: seq<Piece>, slot: Piece, value: string)
    requires !slot.Lit? && LiteralsBraceFree(ps) && '{' !in value
    ensures ReplaceAll(Render(ps), PieceText(slot), value) == Render(Fill(ps, slot, value))
  {
    if |ps| > 0 {
      LiteralsBraceFreeTail(ps);
      FillRender(ps[1..], slot, value);
      ReplaceFirstPiece(ps[0], Render(ps[1..]), slot, value);
      assert Fill(ps, slot, value)[1..] == Fill(ps[1..], slot, value);
    }
  }

  lemma {:induction false} FillAllIsInstantiate(ps: seq<Piece>, table: string, limit: string, offset: string)
    ensures Fill(Fill(Fill(ps, TopicSlot, table), LimitSlot, limit), OffsetSlot, offset)
         == Instantiate(ps, table, limit, offset)
  {
    if |ps| > 0 {
      FillAllIsInstantiate(ps[1..], table, limit, offset);
      var f1 := Fill(ps, TopicSlot, table);
      var f2 := Fill(f1, LimitSlot, limit);
      assert f1[1..] == Fill(ps[1..], TopicSlot, table);
      assert f2[1..] == Fill(f1[1..], LimitSlot, limit);
    }
  }

  /**
   * Expanding a template built from brace-free literals fills every
   * `{:topic}` with the table name and every `{:limit}` / `{:offset}` with the
   * decimal limit and offset, provided the cluster id and topic contain no `{`.
   */
  lemma ExpandFillsSlots(q: Query, ps: seq<Piece>)
    requires q.template == Render(ps) && LiteralsBraceFree(ps)
    requires '{' !in q.clusterId && '{' !in q.topicName
    ensures Expand(q) == Render(Instantiate(ps, TableName(q.clusterId, q.topicName), IntToString(q.limit), IntToString(q.offset)))
  {
    var table := TableName(q.clusterId, q.topicName);
    assert '{' !in table;
    IntToStringNoBrace(q.limit);
    IntToStringNoBrace(q.offset);
    FillRender(ps, TopicSlot, table);
    FillBraceFree(ps, TopicSlot, table);
    var f1 := Fill(ps, TopicSlot, table);
    FillRender(f1, LimitSlot, IntToString(q.limit));
    FillBraceFree(f1, LimitSlot, IntToString(q.limit));
    var f2 := Fill(f1, LimitSlot, IntToString(q.limit));
    FillRender(f2, OffsetSlot, IntToString(q.offset));
    FillAllIsInstantiate(ps, table, IntToString(q.limit), IntToString(q.offset));
  }

  // ---------------------------------------------------------------------
  // The statement shapes of the store's templates.

  datatype Column = PartitionColumn | OffsetColumn | TimestampColumn
  datatype Projection = RecordColumns | AllColumns | OffsetOnly
  datatype Direction = Asc | Desc

  /**
   * `SELECT <projection> FROM {:topic} [WHERE <col> = <v>] [ORDER BY <col> [desc]]
   * [LIMIT {:limit} OFFSET {:offset}] [;]`.
   */
  datatype Select = Select(
    projection: Projection,
    filter: Option<(Column, int)>,
    order: Option<(Column, Direction)>,
    paged: bool,
    terminated: bool)

  /** The text of `SELECT <projection> FROM `. */
  function SelectHead(p: Projection): (r: string)
    ensures |r| > 0 && r[0] == 'S' && '{' !in r
  {
    match p
    case RecordColumns => "SELECT partition, offset, " + "timestamp, key, payload FROM "
    case AllColumns => "SELECT * from "
    case OffsetOnly => "SELECT offset FROM "
  }

  /** A column's name as written in the statements. */
  function ColumnName(c: Column): (r: string)
    ensures |r| > 0 && '{' !in r && !IsWhitespace(r[|r| - 1]) && r[|r| - 1] != ';'
  {
    match c
    case PartitionColumn => "partition"
    case OffsetColumn => "offset"
    case TimestampColumn => "timestamp"
  }

  /** The text of ` WHERE <col> = `; the compared value follows it. */
  function WhereHead(c: Column): (r: string)
    ensures '{' !in r
  {
    " WHERE " + ColumnName(c) + " = "
  }

  /** The text of ` ORDER BY <col> [desc]`. */
  function OrderClause(c: Column, d: Direction): (r: string)
    ensures |r| > 0 && '{' !in r && !IsWhitespace(r[|r| - 1]) && r[|r| - 1] != ';'
  {
    " ORDER BY " + ColumnName(c) + (if d == Desc then " desc" else "")
  }

  function FilterPieces(f: Option<(Column, int)>): seq<Piece>
  {
    match f
    case None => []
    case Some(f) => [Lit(WhereHead(f.0)), Lit(IntToString(f.1))]
  }

  function OrderPieces(o: Option<(Column, Direction)>): seq<Piece>
  {
    match o
    case None => []
    case Some(o) => [Lit(OrderClause(o.0, o.1))]
  }

  function PagingPieces(paged: bool): seq<Piece>
  {
    if paged then [Lit(" LIMIT "), LimitSlot, Lit(" OFFSET "), OffsetSlot] else []
  }

  /** The clauses after `FROM {:topic}`, without the terminating `;`. */
  function ClausePieces(sel: Select): seq<Piece>
  {
    FilterPieces(sel.filter) + OrderPieces(sel.order) + PagingPieces(sel.paged)
  }

  function StatementPieces(sel: Select): seq<Piece>
  {
    [Lit(SelectHead(sel.projection)), TopicSlot] + ClausePieces(sel)
  }

  /** The template text of a statement shape. */
  function Template(sel: Select): string
  {
    if sel.terminated then Render(StatementPieces(sel) + [Lit(";")]) else Render(StatementPieces(sel))
  }

  /** The SQL the store executes for a statement: slots filled, no `;`. */
  function StatementText(sel: Select, clusterId: string, topicName: string, limit: int, offset: int): string
  {
    Render(Instantiate(StatementPieces(sel), TableName(clusterId, topicName), IntToString(limit), IntToString(offset)))
  }

  /** The template of `get_records`. */
  const RecordsPage: Select := Select(RecordColumns, None, Some((TimestampColumn, Desc)), true, false)

  /** The template of `get_size`. */
  const OffsetsOnly: Select := Select(OffsetOnly, None, None, false, false)

  lemma RecordsPagePieces()
    ensures StatementPieces(RecordsPage)
         == [Lit("SELECT partition, offset, " + "timestamp, key, payload FROM "), TopicSlot,
             Lit(" ORDER BY timestamp desc"), Lit(" LIMIT "), LimitSlot, Lit(" OFFSET "), OffsetSlot]
  {
    assert OrderClause(TimestampColumn, Desc) == " ORDER BY timestamp desc";
  }

  /** `RecordsPage` renders to exactly the template text of `get_records`. */
  lemma RecordsPageTemplate()
    ensures Template(RecordsPage)
         == "SELECT partition, offset, " + "timestamp, key, payload FROM " + ("{:topic}" + (" ORDER BY timestamp desc"
            + (" LIMIT " + ("{:limit}" + (" OFFSET " + "{:offset}")))))
  {
    RecordsPagePieces();
    RenderPagePieces(StatementPieces(RecordsPage));
  }

  lemma RenderPagePieces(ps: seq<Piece>)
    requires ps == [Lit("SELECT partition, offset, " + "timestamp, key, payload FROM "), TopicSlot,
                    Lit(" ORDER BY timestamp desc"), Lit(" LIMIT "), LimitSlot, Lit(" OFFSET "), OffsetSlot]
    ensures Render(ps)
         == "SELECT partition, offset, " + "timestamp, key, payload FROM " + ("{:topic}" + (" ORDER BY timestamp desc"
            + (" LIMIT " + ("{:limit}" + (" OFFSET " + "{:offset}")))))
  {
    assert Render(ps[6..]) == "{:offset}" by { assert ps[6..][1..] == []; }
    assert Render(ps[5..]) == " OFFSET " + Render(ps[6..]) by { assert ps[5..][1..] == ps[6..]; }
    assert Render(ps[4..]) == "{:limit}" + Render(ps[5..]) by { assert ps[4..][1..] == ps[5..]; }
    assert Render(ps[3..]) == " LIMIT " + Render(ps[4..]) by { assert ps[3..][1..] == ps[4..]; }
    assert Render(ps[2..]) == " ORDER BY timestamp desc" + Render(ps[3..]) by { assert ps[2..][1..] == ps[3..]; }
    assert Render(ps[1..]) == "{:topic}" + Render(ps[2..]) by { assert ps[1..][1..] == ps[2..]; }
  }

  lemma OffsetsOnlyPieces()
    ensures StatementPieces(OffsetsOnly) == [Lit("SELECT offset FROM "), TopicSlot]
  {
  }

  /** `OffsetsOnly` renders to exactly the template text of `get_size`. */
  lemma OffsetsOnlyTemplate()
    ensures Template(OffsetsOnly) == "SELECT offset FROM " + "{:topic}"
  {
    OffsetsOnlyPieces();
    var ps := StatementPieces(OffsetsOnly);
    assert Render(ps[1..]) == "{:topic}" by { assert ps[1..][1..] == []; }
  }

  lemma LiteralsBraceFreeAppend(a: seq<Piece>, b: seq<Piece>)
    requires LiteralsBraceFree(a) && LiteralsBraceFree(b)
    ensures LiteralsBraceFree(a + b)
  {
    forall i | 0 <= i < |a + b| && (a + b)[i].Lit? ensures '{' !in (a + b)[i].text {
      if i < |a| {
        assert (a + b)[i] == a[i];
      } else {
        assert (a + b)[i] == b[i - |a|];
      }
    }
  }

  lemma ClausesBraceFree(sel: Select)
    ensures LiteralsBraceFree(ClausePieces(sel))
  {
    var f, o, w := FilterPieces(sel.filter), OrderPieces(sel.order), PagingPieces(sel.paged);
    if sel.filter.Some? {
      IntToStringNoBrace(sel.filter.value.1);
    }
    assert LiteralsBraceFree(f);
    assert LiteralsBraceFree(o);
    assert LiteralsBraceFree(w) by {
      assert '{' !in " LIMIT " && '{' !in " OFFSET ";
    }
    LiteralsBraceFreeAppend(f, o);
    LiteralsBraceFreeAppend(f + o, w);
  }

  lemma StatementLiteralsBraceFree(sel: Select)
    ensures LiteralsBraceFree(StatementPieces(sel))
    ensures LiteralsBraceFree(StatementPieces(sel) + [Lit(";")])
  {
    ClausesBraceFree(sel);
    var head := [Lit(SelectHead(sel.projection)), TopicSlot];
    assert LiteralsBraceFree(head);
    LiteralsBraceFreeAppend(head, ClausePieces(sel));
    assert LiteralsBraceFree([Lit(";")]);
    LiteralsBraceFreeAppend(StatementPieces(sel), [Lit(";")]);
  }

  lemma {:induction false} InstantiateAppend(a: seq<Piece>, b: seq<Piece>, table: string, limit: string, offset: string)
    ensures Instantiate(a + b, table, limit, offset) == Instantiate(a, table, limit, offset) + Instantiate(b, table, limit, offset)
  {
    if |a| > 0 {
      assert (a + b)[1..] == a[1..] + b;
      InstantiateAppend(a[1..], b, table, limit, offset);
    } else {
      assert a + b == b;
    }
  }

  /** The last character of a rendering is the last character of its last piece. */
  lemma RenderLast(ps: seq<Piece>)
    requires |ps| > 0 && |PieceText(ps[|ps| - 1])| > 0
    ensures |Render(ps)| > 0
    ensures Render(ps)[|Render(ps)| - 1] == PieceText(ps[|ps| - 1])[|PieceText(ps[|ps| - 1])| - 1]
  {
    var init, last := ps[..|ps| - 1], [ps[|ps| - 1]];
    assert init + last == ps;
    RenderAppend(init, last);
    assert Render(last) == PieceText(ps[|ps| - 1]) + Render([]);
  }

  lemma StatementLastPiece(sel: Select)
    ensures var ps := StatementPieces(sel);
      ps[|ps| - 1] == (if sel.paged then OffsetSlot
                       else if sel.order.Some? then Lit(OrderClause(sel.order.value.0, sel.order.value.1))
                       else if sel.filter.Some? then Lit(IntToString(sel.filter.value.1))
                       else TopicSlot)
  {
    var f, o, w := FilterPieces(sel.filter), OrderPieces(sel.order), PagingPieces(sel.paged);
    var head := [Lit(SelectHead(sel.projection)), TopicSlot];
    assert StatementPieces(sel) == head + f + o + w;
  }

  /** The first character of a rendering is the first character of its first piece. */
  lemma RenderFirst(ps: seq<Piece>)
    requires |ps| > 0 && |PieceText(ps[0])| > 0
    ensures |Render(ps)| > 0 && Render(ps)[0] == PieceText(ps[0])[0]
  {
    assert Render(ps) == PieceText(ps[0]) + Render(ps[1..]);
  }

  /** A text whose last character is neither white space nor `;`. */
  predicate EndsClean(t: string)
  {
    |t| > 0 && !IsWhitespace(t[|t| - 1]) && t[|t| - 1] != ';'
  }

  lemma NumberEndsClean(i: int)
    ensures EndsClean(IntToString(i))
  {
    var t := IntToString(i);
    assert IsDigit(t[|t| - 1]);
  }

  /** The text that fills the last piece of a statement ends with neither white space nor `;`. */
  lemma LastFilledPieceEnds(sel: Select, table: string, limit: int, offset: int)
    requires |table| > 0 && table[|table| - 1] == '\''
    ensures var inst := Instantiate(StatementPieces(sel), table, IntToString(limit), IntToString(offset));
      EndsClean(PieceText(inst[|inst| - 1]))
  {
    var ps := StatementPieces(sel);
    var inst := Instantiate(ps, table, IntToString(limit), IntToString(offset));
    var n := |ps|;
    assert |inst| == n;
    StatementLastPiece(sel);
    var text: string;
    if sel.paged {
      text := IntToString(offset);
      assert inst[n - 1] == Lit(text);
      NumberEndsClean(offset);
    } else if sel.order.Some? {
      text := OrderClause(sel.order.value.0, sel.order.value.1);
      assert inst[n - 1] == Lit(text);
    } else if sel.filter.Some? {
      text := IntToString(sel.filter.value.1);
      assert inst[n - 1] == Lit(text);
      NumberEndsClean(sel.filter.value.1);
    } else {
      text := table;
      assert inst[n - 1] == Lit(text);
    }
    assert EndsClean(text);
    assert PieceText(inst[n - 1]) == text;
  }

  /** The executed statement text starts with `S` and ends with neither white space nor `;`. */
  lemma StatementTextEnds(sel: Select, clusterId: string, topicName: string, limit: int, offset: int)
    ensures var x := StatementText(sel, clusterId, topicName, limit, offset);
      |x| > 0 && x[0] == 'S' && !IsWhitespace(x[|x| - 1]) && x[|x| - 1] != ';'
  {
    var table := TableName(clusterId, topicName);
    var inst := Instantiate(StatementPieces(sel), table, IntToString(limit), IntToString(offset));
    assert inst[0] == Lit(SelectHead(sel.projection));
    RenderFirst(inst);
    LastFilledPieceEnds(sel, table, limit, offset);
    RenderLast(inst);
  }

  lemma ParseUnterminated(sel: Select, clusterId: string, topicName: string, limit: int, offset: int)
    requires '{' !in clusterId && '{' !in topicName && !sel.terminated
    ensures ParseQuery(Query(clusterId, topicName, offset, limit, Template(sel)))
         == StatementText(sel, clusterId, topicName, limit, offset)
  {
    var q := Query(clusterId, topicName, offset, limit, Template(sel));
    StatementLiteralsBraceFree(sel);
    ExpandFillsSlots(q, StatementPieces(sel));
    StatementTextEnds(sel, clusterId, topicName, limit, offset);
    TrimKeepsTrimmed(StatementText(sel, clusterId, topicName, limit, offset));
  }

  lemma ExpandTerminated(sel: Select, clusterId: string, topicName: string, limit: int, offset: int)
    requires '{' !in clusterId && '{' !in topicName && sel.terminated
    ensures Expand(Query(clusterId, topicName, offset, limit, Template(sel)))
         == StatementText(sel, clusterId, topicName, limit, offset) + ";"
  {
    var q := Query(clusterId, topicName, offset, limit, Template(sel));
    var table, lim, off := TableName(clusterId, topicName), IntToString(limit), IntToString(offset);
    var ps := StatementPieces(sel);
    var semi := [Lit(";")];
    StatementLiteralsBraceFree(sel);
    ExpandFillsSlots(q, ps + semi);
    var whole := Instantiate(ps + semi, table, lim, off);
    var front := Instantiate(ps, table, lim, off);
    var back := Instantiate(semi, table, lim, off);
    assert back == semi;
    InstantiateAppend(ps, semi, table, lim, off);
    assert whole == front + semi;
    RenderAppend(front, semi);
    assert Render(semi) == ";" + Render([]);
  }

  lemma ParseTerminated(sel: Select, clusterId: string, topicName: string, limit: int, offset: int)
    requires '{' !in clusterId && '{' !in topicName && sel.terminated
    ensures ParseQuery(Query(clusterId, topicName, offset, limit, Template(sel)))
         == StatementText(sel, clusterId, topicName, limit, offset)
  {
    var x := StatementText(sel, clusterId, topicName, limit, offset);
    ExpandTerminated(sel, clusterId, topicName, limit, offset);
    StatementTextEnds(sel, clusterId, topicName, limit, offset);
    TrimKeepsTrimmed(x + ";");
    assert (x + ";")[..|x|] == x;
  }

  /**
   * `parse_query` on a statement template yields the statement with its
   * placeholders filled and without the terminating `;`, whenever the cluster
   * id and topic name contain no `{`.
   */
  lemma ParseStatement(sel: Select, clusterId: string, topicName: string, limit: int, offset: int)
    requires '{' !in clusterId && '{' !in topicName
    ensures ParseQuery(Query(clusterId, topicName, offset, limit, Template(sel)))
         == StatementText(sel, clusterId, topicName, limit, offset)
  {
    if sel.terminated {
      ParseTerminated(sel, clusterId, topicName, limit, offset);
    } else {
      ParseUnterminated(sel, clusterId, topicName, limit, offset);
    }
  }
}
