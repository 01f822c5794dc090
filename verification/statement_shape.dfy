/**
 * Recognising the statement shapes of the record store: the template text
 * of every `Select` is read back to that `Select`, and no other text is
 * accepted.
 */
module StatementShape {
  import opened Wrappers
  import opened Text
  import opened QueryText

  // ---------------------------------------------------------------------
  // A statement template as plain text.

  function FilterText(f: Option<(Column, int)>): string
  {
    match f
    case None => ""
    case Some(f) => WhereHead(f.0) + IntToString(f.1)
  }

  function OrderText(o: Option<(Column, Direction)>): string
  {
    match o
    case None => ""
    case Some(o) => OrderClause(o.0, o.1)
  }

  const PageText: string := " LIMIT " + "{:limit}" + " OFFSET " + "{:offset}"

  function PagingText(paged: bool): string
  {
    if paged then PageText else ""
  }

  function TerminatorText(terminated: bool): string
  {
    if terminated then ";" else ""
  }

  lemma RenderPair(a: Piece, b: Piece)
    ensures Render([a, b]) == PieceText(a) + PieceText(b)
  {
    assert [a, b][1..] == [b];
    assert Render([b]) == PieceText(b) + Render([]);
  }

  lemma FilterPiecesText(f: Option<(Column, int)>)
    ensures Render(FilterPieces(f)) == FilterText(f)
  {
    if f.Some? {
      RenderPair(Lit(WhereHead(f.value.0)), Lit(IntToString(f.value.1)));
    }
  }

  lemma OrderPiecesText(o: Option<(Column, Direction)>)
    ensures Render(OrderPieces(o)) == OrderText(o)
  {
    if o.Some? {
      assert Render(OrderPieces(o)) == OrderText(o) + Render([]);
    }
  }

  lemma PagingPiecesText(paged: bool)
    ensures Render(PagingPieces(paged)) == PagingText(paged)
  {
    if paged {
      var w := PagingPieces(paged);
      RenderPair(Lit(" OFFSET "), OffsetSlot);
      assert w == [Lit(" LIMIT "), LimitSlot] + [Lit(" OFFSET "), OffsetSlot];
      RenderAppend([Lit(" LIMIT "), LimitSlot], [Lit(" OFFSET "), OffsetSlot]);
      RenderPair(Lit(" LIMIT "), LimitSlot);
    }
  }

  lemma ClauseText(sel: Select)
    ensures Render(ClausePieces(sel)) == FilterText(sel.filter) + OrderText(sel.order) + PagingText(sel.paged)
  {
    var f, o, w := FilterPieces(sel.filter), OrderPieces(sel.order), PagingPieces(sel.paged);
    RenderAppend(f + o, w);
    RenderAppend(f, o);
    FilterPiecesText(sel.filter);
    OrderPiecesText(sel.order);
    PagingPiecesText(sel.paged);
  }

  lemma StatementPiecesText(sel: Select)
    ensures Render(StatementPieces(sel))
         == SelectHead(sel.projection) + "{:topic}" + (FilterText(sel.filter) + OrderText(sel.order) + PagingText(sel.paged))
  {
    var head := [Lit(SelectHead(sel.projection)), TopicSlot];
    RenderAppend(head, ClausePieces(sel));
    RenderPair(Lit(SelectHead(sel.projection)), TopicSlot);
    ClauseText(sel);
  }

  lemma TemplateBody(sel: Select)
    ensures Template(sel) == Render(StatementPieces(sel)) + TerminatorText(sel.terminated)
  {
    if sel.terminated {
      RenderAppend(StatementPieces(sel), [Lit(";")]);
      assert Render([Lit(";")]) == ";" + Render([]);
    } else {
      assert Render(StatementPieces(sel)) + "" == Render(StatementPieces(sel));
    }
  }

  lemma Regroup(a: string, b: string, c: string, d: string, e: string, f: string)
    ensures a + b + (c + d + e) + f == a + b + c + d + e + f
  {
  }

  /** The template of a statement shape, written out as text. */
  lemma TemplateText(sel: Select)
    ensures Template(sel)
         == SelectHead(sel.projection) + "{:topic}" + FilterText(sel.filter) + OrderText(sel.order)
            + PagingText(sel.paged) + TerminatorText(sel.terminated)
  {
    TemplateBody(sel);
    StatementPiecesText(sel);
    Regroup(SelectHead(sel.projection), "{:topic}", FilterText(sel.filter), OrderText(sel.order),
      PagingText(sel.paged), TerminatorText(sel.terminated));
  }

  // ---------------------------------------------------------------------
  // Scanning.

  /** The rest of `s` after `p`, when `s` starts with `p`. */
  function DropPrefix(s: string, p: string): (r: Option<string>)
    ensures r.Some? <==> StartsWith(s, p)
    ensures r.Some? ==> s == p + r.value
  {
    if StartsWith(s, p) then Some(s[|p|..]) else None
  }

  lemma DropPrefixOf(p: string, rest: string)
    ensures DropPrefix(p + rest, p) == Some(rest)
  {
    assert (p + rest)[..|p|] == p;
    assert (p + rest)[|p|..] == rest;
  }

  lemma MismatchAt(s: string, p: string, k: nat)
    requires k < |p| && k < |s| && s[k] != p[k]
    ensures !StartsWith(s, p)
  {
    if |p| <= |s| {
      assert s[..|p|][k] == s[k];
    }
  }

  function ParseColumn(s: string): Option<(Column, string)>
  {
    if StartsWith(s, ColumnName(PartitionColumn)) then Some((PartitionColumn, s[|ColumnName(PartitionColumn)|..]))
    else if StartsWith(s, ColumnName(OffsetColumn)) then Some((OffsetColumn, s[|ColumnName(OffsetColumn)|..]))
    else if StartsWith(s, ColumnName(TimestampColumn)) then Some((TimestampColumn, s[|ColumnName(TimestampColumn)|..]))
    else None
  }

  lemma ParseColumnOf(c: Column, rest: string)
    ensures ParseColumn(ColumnName(c) + rest) == Some((c, rest))
  {
    var s := ColumnName(c) + rest;
    DropPrefixOf(ColumnName(c), rest);
    if c != PartitionColumn {
      MismatchAt(s, ColumnName(PartitionColumn), 0);
    }
    if c == TimestampColumn {
      MismatchAt(s, ColumnName(OffsetColumn), 0);
    }
  }

  /** The length of the run of decimal digits that `s` starts with. */
  function DigitRun(s: string): (n: nat)
    ensures n <= |s|
    ensures forall k :: 0 <= k < n ==> IsDigit(s[k])
    ensures n < |s| ==> !IsDigit(s[n])
  {
    if |s| == 0 || !IsDigit(s[0]) then 0 else 1 + DigitRun(s[1..])
  }

  lemma {:induction false} DigitRunOf(d: string, rest: string)
    requires forall k :: 0 <= k < |d| ==> IsDigit(d[k])
    requires rest == [] || !IsDigit(rest[0])
    ensures DigitRun(d + rest) == |d|
  {
    if |d| > 0 {
      assert (d + rest)[1..] == d[1..] + rest;
      DigitRunOf(d[1..], rest);
    } else {
      assert d + rest == rest;
    }
  }

  /** An optional minus sign followed by at least one digit. */
  function ParseInt(s: string): Option<(int, string)>
  {
    if |s| > 0 && s[0] == '-' then
      var n := DigitRun(s[1..]);
      if n == 0 then None else Some((-(DigitsValue(s[1..][..n]) as int), s[1..][n..]))
    else
      var n := DigitRun(s);
      if n == 0 then None else Some((DigitsValue(s[..n]) as int, s[n..]))
  }

  lemma ParseIntOf(v: int, rest: string)
    requires rest == [] || !IsDigit(rest[0])
    ensures ParseInt(IntToString(v) + rest) == Some((v, rest))
  {
    var r := IntToString(v);
    var s := r + rest;
    if v < 0 {
      assert s[1..] == r[1..] + rest;
      DigitRunOf(r[1..], rest);
      assert s[1..][..|r| - 1] == r[1..];
      assert s[1..][|r| - 1..] == rest;
    } else {
      DigitRunOf(r, rest);
      assert s[..|r|] == r;
      assert s[|r|..] == rest;
    }
  }

  function ParseHead(s: string): Option<(Projection, string)>
  {
    if StartsWith(s, SelectHead(RecordColumns)) then Some((RecordColumns, s[|SelectHead(RecordColumns)|..]))
    else if StartsWith(s, SelectHead(AllColumns)) then Some((AllColumns, s[|SelectHead(AllColumns)|..]))
    else if StartsWith(s, SelectHead(OffsetOnly)) then Some((OffsetOnly, s[|SelectHead(OffsetOnly)|..]))
    else None
  }

  lemma ParseHeadOf(p: Projection, rest: string)
    ensures ParseHead(SelectHead(p) + rest) == Some((p, rest))
  {
    var s := SelectHead(p) + rest;
    DropPrefixOf(SelectHead(p), rest);
    assert SelectHead(RecordColumns)[7] == 'p';
    assert SelectHead(AllColumns)[7] == '*';
    assert SelectHead(OffsetOnly)[7] == 'o';
    assert s[7] == SelectHead(p)[7];
    if p != RecordColumns {
      MismatchAt(s, SelectHead(RecordColumns), 7);
    }
    if p == OffsetOnly {
      MismatchAt(s, SelectHead(AllColumns), 7);
    }
  }

  function ParseFilter(s: string): Option<(Option<(Column, int)>, string)>
  {
    if StartsWith(s, " WHERE ") then
      match ParseColumn(s[7..])
      case None => None
      case Some((c, afterColumn)) =>
        match DropPrefix(afterColumn, " = ")
        case None => None
        case Some(afterEquals) =>
          match ParseInt(afterEquals)
          case None => None
          case Some((v, afterValue)) => Some((Some((c, v)), afterValue))
    else Some((None, s))
  }

  /** What may follow a WHERE clause in a template: ORDER BY, LIMIT, `;` or nothing. */
  predicate FollowsFilter(rest: string)
  {
    rest == [] || rest[0] == ';' || (|rest| > 1 && rest[0] == ' ' && (rest[1] == 'O' || rest[1] == 'L'))
  }

  /** What may follow an ORDER BY clause in a template: LIMIT, `;` or nothing. */
  predicate FollowsOrder(rest: string)
  {
    rest == [] || rest[0] == ';' || (|rest| > 1 && rest[0] == ' ' && rest[1] == 'L')
  }

  lemma NotStartingWith(rest: string, p: string)
    requires |p| > 1 && p[0] == ' '
    requires rest == [] || rest[0] == ';' || (|rest| > 1 && rest[1] != p[1])
    ensures !StartsWith(rest, p)
  {
    if rest != [] {
      if rest[0] == ';' {
        MismatchAt(rest, p, 0);
      } else {
        MismatchAt(rest, p, 1);
      }
    }
  }

  lemma ParseFilterParts(c: Column, v: int, rest: string)
    requires rest == [] || !IsDigit(rest[0])
    ensures ParseFilter(" WHERE " + (ColumnName(c) + (" = " + (IntToString(v) + rest)))) == Some((Some((c, v)), rest))
  {
    var afterEquals := IntToString(v) + rest;
    var afterColumn := " = " + afterEquals;
    var afterWhere := ColumnName(c) + afterColumn;
    var s := " WHERE " + afterWhere;
    DropPrefixOf(" WHERE ", afterWhere);
    assert StartsWith(s, " WHERE ") && s[7..] == afterWhere;
    ParseColumnOf(c, afterColumn);
    DropPrefixOf(" = ", afterEquals);
    ParseIntOf(v, rest);
  }

  lemma ParseFilterOfSome(c: Column, v: int, rest: string)
    requires rest == [] || !IsDigit(rest[0])
    ensures ParseFilter(WhereHead(c) + IntToString(v) + rest) == Some((Some((c, v)), rest))
  {
    WhereAssoc(c, IntToString(v), rest);
    ParseFilterParts(c, v, rest);
  }

  lemma WhereAssoc(c: Column, x: string, rest: string)
    ensures WhereHead(c) + x + rest == " WHERE " + (ColumnName(c) + (" = " + (x + rest)))
  {
  }

  lemma ParseFilterOf(f: Option<(Column, int)>, rest: string)
    requires FollowsFilter(rest)
    ensures ParseFilter(FilterText(f) + rest) == Some((f, rest))
  {
    if f.Some? {
      ParseFilterOfSome(f.value.0, f.value.1, rest);
    } else {
      assert FilterText(f) + rest == rest;
      NotStartingWith(rest, " WHERE ");
    }
  }

  function ParseOrder(s: string): Option<(Option<(Column, Direction)>, string)>
  {
    if StartsWith(s, " ORDER BY ") then
      match ParseColumn(s[10..])
      case None => None
      case Some((c, afterColumn)) =>
        if StartsWith(afterColumn, " desc") then Some((Some((c, Desc)), afterColumn[5..]))
        else Some((Some((c, Asc)), afterColumn))
    else Some((None, s))
  }

  lemma ParseOrderOf(o: Option<(Column, Direction)>, rest: string)
    requires FollowsOrder(rest)
    ensures ParseOrder(OrderText(o) + rest) == Some((o, rest))
  {
    match o
    case None =>
      assert OrderText(o) + rest == rest;
      NotStartingWith(rest, " ORDER BY ");
    case Some((c, d)) =>
      OrderAssoc(c, d, rest);
      ParseOrderParts(c, d, rest);
  }

  function DirectionText(d: Direction): string
  {
    if d == Desc then " desc" else ""
  }

  lemma OrderAssoc(c: Column, d: Direction, rest: string)
    ensures OrderText(Some((c, d))) + rest == " ORDER BY " + (ColumnName(c) + (DirectionText(d) + rest))
  {
  }

  lemma ParseOrderParts(c: Column, d: Direction, rest: string)
    requires FollowsOrder(rest)
    ensures ParseOrder(" ORDER BY " + (ColumnName(c) + (DirectionText(d) + rest))) == Some((Some((c, d)), rest))
  {
    var afterColumn := DirectionText(d) + rest;
    var afterOrder := ColumnName(c) + afterColumn;
    var s := " ORDER BY " + afterOrder;
    DropPrefixOf(" ORDER BY ", afterOrder);
    assert StartsWith(s, " ORDER BY ") && s[10..] == afterOrder;
    ParseColumnOf(c, afterColumn);
    if d == Desc {
      DropPrefixOf(" desc", rest);
    } else {
      assert afterColumn == rest;
      NotStartingWith(rest, " desc");
    }
  }

  function ParsePaging(s: string): (bool, string)
  {
    if StartsWith(s, PageText) then (true, s[|PageText|..]) else (false, s)
  }

  lemma ParsePagingOf(paged: bool, rest: string)
    requires rest == [] || rest == ";"
    ensures ParsePaging(PagingText(paged) + rest) == (paged, rest)
  {
    if paged {
      DropPrefixOf(PageText, rest);
    } else {
      assert PagingText(paged) + rest == rest;
      assert !StartsWith(rest, PageText) by {
        if rest == ";" {
          MismatchAt(rest, PageText, 0);
        }
      }
    }
  }

  /** Read a template back into the shape it was rendered from, if it has one. */
  function Scan(t: string): Option<Select>
  {
    match ParseHead(t)
    case None => None
    case Some((p, afterHead)) =>
      match DropPrefix(afterHead, "{:topic}")
      case None => None
      case Some(afterTopic) =>
        match ParseFilter(afterTopic)
        case None => None
        case Some((f, afterFilter)) =>
          match ParseOrder(afterFilter)
          case None => None
          case Some((o, afterOrder)) =>
            var (paged, afterPaging) := ParsePaging(afterOrder);
            if afterPaging == "" then Some(Select(p, f, o, paged, false))
            else if afterPaging == ";" then Some(Select(p, f, o, paged, true))
            else None
  }

  lemma FollowsPaging(paged: bool, terminated: bool)
    ensures FollowsOrder(PagingText(paged) + TerminatorText(terminated))
  {
    if paged {
      assert (PagingText(paged) + TerminatorText(terminated))[..2] == " L";
    } else {
      assert PagingText(paged) + TerminatorText(terminated) == TerminatorText(terminated);
    }
  }

  lemma FollowsOrdering(o: Option<(Column, Direction)>, rest: string)
    requires FollowsOrder(rest)
    ensures FollowsFilter(OrderText(o) + rest)
  {
    if o.Some? {
      assert OrderText(o) == " ORDER BY " + ColumnName(o.value.0) + (if o.value.1 == Desc then " desc" else "");
      assert (OrderText(o) + rest)[..2] == " O";
    } else {
      assert OrderText(o) + rest == rest;
    }
  }

  lemma ScanParts(sel: Select)
    ensures Scan(SelectHead(sel.projection) + ("{:topic}" + (FilterText(sel.filter) + (OrderText(sel.order)
              + (PagingText(sel.paged) + TerminatorText(sel.terminated)))))) == Some(sel)
  {
    var term := TerminatorText(sel.terminated);
    var afterOrder := PagingText(sel.paged) + term;
    var afterFilter := OrderText(sel.order) + afterOrder;
    var afterTopic := FilterText(sel.filter) + afterFilter;
    var afterHead := "{:topic}" + afterTopic;
    ParseHeadOf(sel.projection, afterHead);
    DropPrefixOf("{:topic}", afterTopic);
    FollowsPaging(sel.paged, sel.terminated);
    FollowsOrdering(sel.order, afterOrder);
    ParseFilterOf(sel.filter, afterFilter);
    ParseOrderOf(sel.order, afterOrder);
    ParsePagingOf(sel.paged, term);
  }

  lemma ScanTemplate(sel: Select)
    ensures Scan(Template(sel)) == Some(sel)
  {
    TemplateText(sel);
    RegroupRight(SelectHead(sel.projection), "{:topic}", FilterText(sel.filter), OrderText(sel.order),
      PagingText(sel.paged), TerminatorText(sel.terminated));
    ScanParts(sel);
  }

  lemma RegroupRight(a: string, b: string, c: string, d: string, e: string, f: string)
    ensures a + b + c + d + e + f == a + (b + (c + (d + (e + f))))
  {
  }

  /**
   * The store's reading of a query template: the statement shape whose
   * template text it is, or `None` for any other text.
   */
  function ParseTemplate(t: string): Option<Select>
  {
    match Scan(t)
    case None => None
    case Some(sel) => if Template(sel) == t then Some(sel) else None
  }

  /** `ParseTemplate` is exactly the inverse of `Template`. */
  lemma ParseTemplateExact(t: string, sel: Select)
    ensures ParseTemplate(t) == Some(sel) <==> Template(sel) == t
  {
    if Template(sel) == t {
      ScanTemplate(sel);
    }
  }

  /** Distinct shapes have distinct templates. */
  lemma TemplateInjective(s1: Select, s2: Select)
    ensures Template(s1) == Template(s2) <==> s1 == s2
  {
    ParseTemplateExact(Template(s1), s1);
    ParseTemplateExact(Template(s1), s2);
  }
}
