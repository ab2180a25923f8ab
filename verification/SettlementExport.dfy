/**
 The settlement export: keyset pages over (createdAt, id), cut while rows are inserted and updated,
 and the CSV file their bodies concatenate to.
 */
module SettlementExport {
  import opened Base
  import opened Csv
  import opened Digits

  const EXPORT_DEFAULT_LIMIT: nat := 500
  const EXPORT_MAX_LIMIT: nat := 5000

  const EXPORT_COLUMNS: seq<string> :=
    ["id", "escrowId", "status", "totalAmount", "feeAmount", "receiptsHash", "receiptCount", "attempts",
     "txHash", "createdAt", "settledAt"]

  /** A settlement row; createdAt counts microseconds and `number` orders like the id. */
  datatype Row = Row(
    number: nat, createdAt: int, id: string, escrowId: string, status: string, totalAmount: string,
    feeAmount: Option<string>, receiptsHash: string, receiptCount: Option<nat>, attempts: nat,
    txHash: Option<string>, settledAt: Option<int>)

  type Table = map<nat, Row>

  /** Where a page ended. */
  datatype Cursor = Cursor(createdAt: int, number: nat)

  datatype Query = Query(
    escrowId: Option<string>, status: Option<string>, from: Option<int>, to: Option<int>, limit: Option<nat>)

  function Limit(query: Query): nat {
    if query.limit.None? then EXPORT_DEFAULT_LIMIT else Min(query.limit.value, EXPORT_MAX_LIMIT)
  }

  predicate Matches(query: Query, row: Row) {
    && (query.escrowId.Some? ==> row.escrowId == query.escrowId.value)
    && (query.status.Some? ==> row.status == query.status.value)
    && (query.from.Some? ==> row.createdAt >= query.from.value)
    && (query.to.Some? ==> row.createdAt < query.to.value)
  }

  function CursorOf(row: Row): Cursor {
    Cursor(row.createdAt, row.number)
  }

  /** (a.createdAt, a.id) < (b.createdAt, b.id). */
  predicate Before(a: Cursor, b: Cursor) {
    a.createdAt < b.createdAt || (a.createdAt == b.createdAt && a.number < b.number)
  }

  predicate AfterCursor(cursor: Option<Cursor>, row: Row) {
    cursor.None? || Before(cursor.value, CursorOf(row))
  }

  predicate Increasing(rows: seq<Row>) {
    forall i, j | 0 <= i < j < |rows| :: Before(CursorOf(rows[i]), CursorOf(rows[j]))
  }

  predicate Keyed(table: Table) {
    forall n | n in table :: table[n].number == n
  }

  /** The query's answer: the first `max` matching rows after the cursor, in order. */
  ghost predicate IsAnswer(table: Table, query: Query, cursor: Option<Cursor>, max: nat, rows: seq<Row>) {
    && (forall k | 0 <= k < |rows| ::
          rows[k].number in table && table[rows[k].number] == rows[k]
          && Matches(query, rows[k]) && AfterCursor(cursor, rows[k]))
    && Increasing(rows)
    && |rows| <= max
    && (forall n | n in table && Matches(query, table[n]) && AfterCursor(cursor, table[n]) ::
          || table[n] in rows
          || (|rows| == max && forall k | 0 <= k < |rows| :: Before(CursorOf(rows[k]), CursorOf(table[n]))))
  }

  // ---------------------------------------------------------------------------------------------
  // One page
  // ---------------------------------------------------------------------------------------------

  datatype Page = Page(body: string, rows: seq<Row>, next: Option<Cursor>)

  function OptionalText(value: Option<string>): Cell {
    if value.None? then Null else Text(value.value)
  }

  function NumberCell(n: nat): Cell {
    Number(Radix.Decimal.Print(n))
  }

  /** toRecord, in the order of the columns; `iso` prints an instant. */
  function RecordOf(iso: int -> string, row: Row): (record: seq<Cell>)
    ensures |record| == |EXPORT_COLUMNS|
  {
    [Text(row.id), Text(row.escrowId), Text(row.status), Text(row.totalAmount), OptionalText(row.feeAmount),
     Text(row.receiptsHash), if row.receiptCount.None? then Null else NumberCell(row.receiptCount.value),
     NumberCell(row.attempts), OptionalText(row.txHash), Text(iso(row.createdAt)),
     if row.settledAt.None? then Null else Text(iso(row.settledAt.value))]
  }

  function Records(iso: int -> string, rows: seq<Row>): (records: seq<seq<Cell>>)
    ensures |records| == |rows| && forall i | 0 <= i < |rows| :: records[i] == RecordOf(iso, rows[i])
  {
    seq(|rows|, i requires 0 <= i < |rows| => RecordOf(iso, rows[i]))
  }

  function Header(): string {
    Join(EXPORT_COLUMNS) + "\r\n"
  }

  function Texts(line: Row -> string, rows: seq<Row>): (texts: seq<string>)
    ensures |texts| == |rows| && forall i | 0 <= i < |rows| :: texts[i] == line(rows[i])
  {
    seq(|rows|, i requires 0 <= i < |rows| => line(rows[i]))
  }

  /** The lines of the rows; `line` prints one. */
  function LinesOf(line: Row -> string, rows: seq<Row>): string {
    Concat(Texts(line, rows))
  }

  lemma LinesOfAppend(line: Row -> string, a: seq<Row>, b: seq<Row>)
    ensures LinesOf(line, a + b) == LinesOf(line, a) + LinesOf(line, b)
  {
    assert Texts(line, a + b) == Texts(line, a) + Texts(line, b);
    ConcatAppend(Texts(line, a), Texts(line, b));
  }

  lemma LinesOfNext(line: Row -> string, rows: seq<Row>, i: nat)
    requires i < |rows|
    ensures LinesOf(line, rows[..i + 1]) == LinesOf(line, rows[..i]) + line(rows[i])
  {
    assert rows[..i + 1] == rows[..i] + [rows[i]];
    assert Texts(line, rows[..i + 1]) == Texts(line, rows[..i]) + [line(rows[i])];
    ConcatSnoc(Texts(line, rows[..i]), line(rows[i]));
  }

  /** The body of a page: the header goes on the first page only. */
  function Body(header: string, line: Row -> string, first: bool, rows: seq<Row>): string {
    (if first then header else "") + LinesOf(line, rows)
  }

  /** The part of exportPage that does not depend on the format. */
  method CutPage(header: string, line: Row -> string, query: Query, cursor: Option<Cursor>, ghost table: Table,
      rows: seq<Row>)
    returns (page: Page)
    requires Keyed(table) && IsAnswer(table, query, cursor, Limit(query) + 1, rows)
    ensures Limit(query) > 0 ==> IsPageOf(table, query, cursor, Limit(query), page.rows, page.next)
    ensures page.body == Body(header, line, cursor.None?, page.rows)
  {
    var limit := Limit(query);
    var kept := rows[..Min(limit, |rows|)];
    var next := None;
    if |rows| > limit && |kept| > 0 {
      next := Some(CursorOf(kept[|kept| - 1]));
    }
    var lines := "";
    var i := 0;
    while i < |kept|
      invariant 0 <= i <= |kept| && lines == LinesOf(line, kept[..i])
    {
      LinesOfNext(line, kept, i);
      lines := lines + line(kept[i]);
      i := i + 1;
    }
    assert kept[..i] == kept;
    PageOfAnswer(table, query, cursor, limit, rows);
    return Page((if cursor.None? then header else "") + lines, kept, next);
  }

  function CsvLine(iso: int -> string): Row -> string {
    row => Line(RecordOf(iso, row))
  }

  /** A row the page may hold: it passes each filter that is given, and comes after the cursor. */
  predicate IsSelected(query: Query, cursor: Option<Cursor>, row: Row) {
    && query.escrowId in {None, Some(row.escrowId)} && query.status in {None, Some(row.status)}
    && (query.from.None? || query.from.value <= row.createdAt)
    && (query.to.None? || row.createdAt < query.to.value)
    && (cursor.None? || IsLater(cursor.value.createdAt, cursor.value.number, row))
  }

  /** The row's (createdAt, id) is the larger pair. */
  predicate IsLater(createdAt: int, number: nat, row: Row) {
    createdAt < row.createdAt || (createdAt == row.createdAt && number < row.number)
  }

  /** The page holds the first selected rows, in order, and its cursor is that of its last row if more follow. */
  ghost predicate HoldsFirst(query: Query, cursor: Option<Cursor>, table: Table, page: Page) {
    var rows := page.rows;
    && |rows| <= (if query.limit.None? then 500 else Min(query.limit.value, 5000))
    && (forall k | 0 <= k < |rows| :: IsSelected(query, cursor, rows[k]))
    && (forall j, k | 0 <= j < k < |rows| :: IsLater(rows[j].createdAt, rows[j].number, rows[k]))
    && (forall n | n in table && IsSelected(query, cursor, table[n]) && table[n] !in rows ::
          |rows| > 0 && IsLater(rows[|rows| - 1].createdAt, rows[|rows| - 1].number, table[n]))
    && (page.next.Some? <==> exists n :: n in table && IsSelected(query, cursor, table[n]) && table[n] !in rows)
    && (page.next.Some? ==>
          |rows| > 0 && page.next.value == Cursor(rows[|rows| - 1].createdAt, rows[|rows| - 1].number))
  }

  lemma SelectedIff(query: Query, cursor: Option<Cursor>, row: Row)
    ensures IsSelected(query, cursor, row) <==> Matches(query, row) && AfterCursor(cursor, row)
  {
  }

  lemma PageHoldsFirst(query: Query, cursor: Option<Cursor>, table: Table, page: Page)
    requires Keyed(table) && Limit(query) > 0
    requires IsPageOf(table, query, cursor, Limit(query), page.rows, page.next)
    ensures HoldsFirst(query, cursor, table, page)
  {
    hide Matches, IsSelected;
    forall row
      ensures IsSelected(query, cursor, row) <==> Matches(query, row) && AfterCursor(cursor, row)
    {
      SelectedIff(query, cursor, row);
    }
    var rows := page.rows;
    if page.next.Some? {
      var n :| n in table && Matches(query, table[n]) && Before(page.next.value, CursorOf(table[n]));
      assert AfterCursor(cursor, rows[|rows| - 1]);
      assert AfterCursor(cursor, table[n]);
      forall k | 0 <= k < |rows|
        ensures rows[k] != table[n]
      {
        assert k < |rows| - 1 ==> Before(CursorOf(rows[k]), CursorOf(rows[|rows| - 1]));
      }
    }
  }

  /** exportPage in CSV; `rows` is the answer for one row more than the limit. */
  method ExportPage(iso: int -> string, query: Query, cursor: Option<Cursor>, ghost table: Table, rows: seq<Row>)
    returns (page: Page)
    requires Keyed(table) && IsAnswer(table, query, cursor, Limit(query) + 1, rows)
    ensures Limit(query) > 0 ==> IsPageOf(table, query, cursor, Limit(query), page.rows, page.next)
    ensures Limit(query) > 0 ==> HoldsFirst(query, cursor, table, page)
    ensures page.body == Body(Header(), CsvLine(iso), cursor.None?, page.rows)
  {
    page := CutPage(Header(), CsvLine(iso), query, cursor, table, rows);
    if Limit(query) > 0 {
      PageHoldsFirst(query, cursor, table, page);
    }
  }

  /** The rows of a page are the first matching rows after the cursor, up to where the next one starts. */
  ghost predicate IsPageOf(table: Table, query: Query, cursor: Option<Cursor>, limit: nat, rows: seq<Row>,
      next: Option<Cursor>) {
    && (forall k | 0 <= k < |rows| ::
          rows[k].number in table && table[rows[k].number] == rows[k]
          && Matches(query, rows[k]) && AfterCursor(cursor, rows[k]))
    && Increasing(rows)
    && (forall n | n in table && Matches(query, table[n]) && AfterCursor(cursor, table[n]) ::
          table[n] in rows || (next.Some? && Before(next.value, CursorOf(table[n]))))
    && |rows| <= limit
    && (next.Some? ==> |rows| == limit && limit > 0 && next.value == CursorOf(rows[|rows| - 1])
                       && exists n :: n in table && Matches(query, table[n]) && Before(next.value, CursorOf(table[n])))
  }

  lemma PageOfAnswer(table: Table, query: Query, cursor: Option<Cursor>, limit: nat, rows: seq<Row>)
    requires Keyed(table) && IsAnswer(table, query, cursor, limit + 1, rows)
    ensures limit > 0 ==>
              var kept := rows[..Min(limit, |rows|)];
              IsPageOf(table, query, cursor, limit, kept,
                       if |rows| > limit then Some(CursorOf(kept[|kept| - 1])) else None)
  {
    if limit > 0 {
      var kept := rows[..Min(limit, |rows|)];
      if |rows| > limit {
        var extra := rows[limit];
        assert Before(CursorOf(rows[limit - 1]), CursorOf(extra));
        assert extra.number in table && Matches(query, table[extra.number]);
        forall n | n in table && Matches(query, table[n]) && AfterCursor(cursor, table[n]) && table[n] !in kept
          ensures Before(CursorOf(rows[limit - 1]), CursorOf(table[n]))
        {
          assert rows == kept + [extra];
        }
      } else {
        assert kept == rows;
      }
    }
  }

  // ---------------------------------------------------------------------------------------------
  // A whole export
  // ---------------------------------------------------------------------------------------------

  function CursorAt(pages: seq<Page>, i: nat): Option<Cursor>
    requires i <= |pages|
  {
    if i == 0 then None else pages[i - 1].next
  }

  /** Each page is cut from the table as it then is, starting where the one before it ended. */
  ghost predicate IsExport(query: Query, tables: seq<Table>, pages: seq<Page>) {
    && |tables| == |pages| && Limit(query) > 0
    && (forall i | 0 <= i < |pages| :: IsPageAt(query, tables, pages, i))
  }

  ghost predicate IsPageAt(query: Query, tables: seq<Table>, pages: seq<Page>, i: nat)
    requires i < |pages| == |tables|
  {
    && (i > 0 ==> pages[i - 1].next.Some?)
    && IsPageOf(tables[i], query, CursorAt(pages, i), Limit(query), pages[i].rows, pages[i].next)
  }

  /** The last page carries no cursor. */
  predicate Finished(pages: seq<Page>) {
    |pages| > 0 && pages[|pages| - 1].next.None?
  }

  function AllRows(pages: seq<Page>): seq<Row> {
    if |pages| == 0 then [] else AllRows(pages[..|pages| - 1]) + pages[|pages| - 1].rows
  }

  function File(pages: seq<Page>): string {
    if |pages| == 0 then "" else File(pages[..|pages| - 1]) + pages[|pages| - 1].body
  }

  predicate UpTo(rows: seq<Row>, cursor: Option<Cursor>) {
    cursor.Some? ==>
      forall k | 0 <= k < |rows| :: CursorOf(rows[k]) == cursor.value || Before(CursorOf(rows[k]), cursor.value)
  }

  lemma PrefixIsExport(query: Query, tables: seq<Table>, pages: seq<Page>)
    requires IsExport(query, tables, pages) && |pages| > 0
    ensures IsExport(query, tables[..|pages| - 1], pages[..|pages| - 1])
    ensures CursorAt(pages, |pages| - 1) == CursorAt(pages[..|pages| - 1], |pages| - 1)
  {
    var front := pages[..|pages| - 1];
    forall i | 0 <= i < |front|
      ensures IsPageAt(query, tables[..|front|], front, i)
    {
      assert IsPageAt(query, tables, pages, i);
    }
  }

  /** The rows of an export come in strictly increasing (createdAt, id) order, whatever happens to the table. */
  lemma {:induction false} RowsIncrease(query: Query, tables: seq<Table>, pages: seq<Page>)
    requires IsExport(query, tables, pages)
    ensures Increasing(AllRows(pages)) && UpTo(AllRows(pages), CursorAt(pages, |pages|))
    decreases |pages|
  {
    if |pages| > 0 {
      var m := |pages| - 1;
      PrefixIsExport(query, tables, pages);
      RowsIncrease(query, tables[..m], pages[..m]);
      assert IsPageAt(query, tables, pages, m);
      PageExtends(tables[m], query, AllRows(pages[..m]), CursorAt(pages, m), Limit(query), pages[m].rows,
          pages[m].next);
    }
  }

  lemma PageExtends(table: Table, query: Query, before: seq<Row>, cursor: Option<Cursor>, limit: nat,
                    rows: seq<Row>, next: Option<Cursor>)
    requires IsPageOf(table, query, cursor, limit, rows, next)
    requires Increasing(before) && UpTo(before, cursor) && (cursor.None? ==> before == [])
    ensures Increasing(before + rows) && UpTo(before + rows, next)
  {
    var all := before + rows;
    forall i, j | 0 <= i < j < |all|
      ensures Before(CursorOf(all[i]), CursorOf(all[j]))
    {
      if i < |before| <= j {
        assert AfterCursor(cursor, rows[j - |before|]);
      }
    }
    if next.Some? {
      assert all[|all| - 1] == rows[|rows| - 1];
    }
  }

  /** Row `number` is in every table of the export, matches the query there and keeps its createdAt. */
  ghost predicate MatchesThroughout(query: Query, tables: seq<Table>, number: nat, createdAt: int) {
    forall i | 0 <= i < |tables| ::
      number in tables[i] && Matches(query, tables[i][number])
      && CursorOf(tables[i][number]) == Cursor(createdAt, number)
  }

  ghost predicate Contains(rows: seq<Row>, key: Cursor) {
    exists k :: 0 <= k < |rows| && CursorOf(rows[k]) == key
  }

  lemma {:induction false} SeenOrAhead(query: Query, tables: seq<Table>, pages: seq<Page>, number: nat, createdAt: int)
    requires IsExport(query, tables, pages) && MatchesThroughout(query, tables, number, createdAt)
    ensures Contains(AllRows(pages), Cursor(createdAt, number))
         || |pages| == 0
         || (pages[|pages| - 1].next.Some? && Before(pages[|pages| - 1].next.value, Cursor(createdAt, number)))
    decreases |pages|
  {
    if |pages| > 0 {
      var m, key := |pages| - 1, Cursor(createdAt, number);
      PrefixIsExport(query, tables, pages);
      SeenOrAhead(query, tables[..m], pages[..m], number, createdAt);
      assert IsPageAt(query, tables, pages, m);
      var before := AllRows(pages[..m]);
      if Contains(before, key) {
        var k :| 0 <= k < |before| && CursorOf(before[k]) == key;
        assert AllRows(pages)[k] == before[k];
      } else if tables[m][number] in pages[m].rows {
        var k :| 0 <= k < |pages[m].rows| && pages[m].rows[k] == tables[m][number];
        assert AllRows(pages)[|before| + k] == tables[m][number];
      }
    }
  }

  /**
   A finished export returns every row that existed and matched throughout exactly once, whatever rows
   were inserted or updated between its pages.
   */
  lemma ExportIsComplete(query: Query, tables: seq<Table>, pages: seq<Page>, number: nat, createdAt: int)
    requires IsExport(query, tables, pages) && Finished(pages)
    requires MatchesThroughout(query, tables, number, createdAt)
    ensures exists k :: 0 <= k < |AllRows(pages)| && CursorOf(AllRows(pages)[k]) == Cursor(createdAt, number)
                        && forall j | 0 <= j < |AllRows(pages)| && j != k ::
                             CursorOf(AllRows(pages)[j]) != Cursor(createdAt, number)
  {
    SeenOrAhead(query, tables, pages, number, createdAt);
    RowsIncrease(query, tables, pages);
    var rows, key := AllRows(pages), Cursor(createdAt, number);
    var k :| 0 <= k < |rows| && CursorOf(rows[k]) == key;
    forall j | 0 <= j < |rows| && j != k
      ensures CursorOf(rows[j]) != key
    {
      assert j < k || k < j;
    }
  }

  // ---------------------------------------------------------------------------------------------
  // On a fixed table
  // ---------------------------------------------------------------------------------------------

  /** The ids of the rows an export of this table should return. */
  function MatchingIds(query: Query, table: Table): set<nat> {
    set n | n in table && Matches(query, table[n])
  }

  function Numbers(rows: seq<Row>): (numbers: set<nat>) {
    set k | 0 <= k < |rows| :: rows[k].number
  }

  lemma {:induction false} NumbersCount(rows: seq<Row>)
    requires forall i, j | 0 <= i < j < |rows| :: rows[i].number != rows[j].number
    ensures |Numbers(rows)| == |rows|
  {
    if |rows| > 0 {
      var front, last := rows[..|rows| - 1], rows[|rows| - 1].number;
      NumbersCount(front);
      assert Numbers(rows) == Numbers(front) + {last};
      assert last !in Numbers(front);
    }
  }

  ghost predicate AllFrom(rows: seq<Row>, query: Query, table: Table) {
    forall k | 0 <= k < |rows| :: rows[k].number in table && table[rows[k].number] == rows[k] && Matches(query, rows[k])
  }

  /** Every page but the last is full, and each page holds rows of the table. */
  lemma {:induction false} FullPages(query: Query, table: Table, tables: seq<Table>, pages: seq<Page>)
    requires IsExport(query, tables, pages) && forall i | 0 <= i < |tables| :: tables[i] == table
    ensures AllFrom(AllRows(pages), query, table)
    ensures |pages| > 0 && pages[|pages| - 1].next.Some? ==> |AllRows(pages)| == |pages| * Limit(query)
    ensures |pages| > 0 ==> |AllRows(pages)| == (|pages| - 1) * Limit(query) + |pages[|pages| - 1].rows|
    decreases |pages|
  {
    if |pages| > 0 {
      var m := |pages| - 1;
      PrefixIsExport(query, tables, pages);
      FullPages(query, table, tables[..m], pages[..m]);
      assert IsPageAt(query, tables, pages, m);
      Distribute(m, Limit(query));
    }
  }

  lemma Distribute(m: nat, limit: nat)
    ensures (m + 1) * limit == m * limit + limit
  {
  }

  /** A page with a predecessor is not empty: the predecessor saw a row behind its end. */
  lemma LastPageHasRows(query: Query, table: Table, tables: seq<Table>, pages: seq<Page>)
    requires IsExport(query, tables, pages) && Finished(pages) && |pages| > 1
    requires forall i | 0 <= i < |tables| :: tables[i] == table
    ensures |pages[|pages| - 1].rows| > 0
  {
    var m := |pages| - 1;
    assert IsPageAt(query, tables, pages, m - 1);
    assert IsPageAt(query, tables, pages, m);
    var n :| n in table && Matches(query, table[n]) && Before(pages[m - 1].next.value, CursorOf(table[n]));
    assert AfterCursor(CursorAt(pages, m), table[n]);
    assert table[n] in pages[m].rows;
  }

  /** On a fixed table an export returns exactly the matching rows, in max(1, ceil(N / limit)) pages. */
  lemma PagesOfFixedTable(query: Query, table: Table, tables: seq<Table>, pages: seq<Page>)
    requires IsExport(query, tables, pages) && Finished(pages)
    requires Keyed(table) && forall i | 0 <= i < |tables| :: tables[i] == table
    ensures Numbers(AllRows(pages)) == MatchingIds(query, table)
    ensures var n := |MatchingIds(query, table)|;
            if n == 0 then |pages| == 1 else (|pages| - 1) * Limit(query) < n <= |pages| * Limit(query)
  {
    var rows := AllRows(pages);
    FullPages(query, table, tables, pages);
    RowsIncrease(query, tables, pages);
    forall n | n in MatchingIds(query, table)
      ensures n in Numbers(rows)
    {
      SeenOrAhead(query, tables, pages, n, table[n].createdAt);
      var k :| 0 <= k < |rows| && CursorOf(rows[k]) == CursorOf(table[n]);
      assert rows[k].number == n;
    }
    forall i, j | 0 <= i < j < |rows|
      ensures rows[i].number != rows[j].number
    {
      assert Before(CursorOf(rows[i]), CursorOf(rows[j]));
    }
    NumbersCount(rows);
    assert Numbers(rows) == MatchingIds(query, table);
    Distribute(|pages| - 1, Limit(query));
    assert IsPageAt(query, tables, pages, |pages| - 1);
    if |pages| > 1 {
      LastPageHasRows(query, table, tables, pages);
      assert (|pages| - 1) * Limit(query) >= 0;
    }
  }

  // ---------------------------------------------------------------------------------------------
  // The exported file
  // ---------------------------------------------------------------------------------------------

  function HeaderCells(): (cells: seq<Cell>)
    ensures |cells| == |EXPORT_COLUMNS| && forall i | 0 <= i < |cells| :: cells[i] == Text(EXPORT_COLUMNS[i])
  {
    seq(|EXPORT_COLUMNS|, i requires 0 <= i < |EXPORT_COLUMNS| => Text(EXPORT_COLUMNS[i]))
  }

  predicate IsWord(s: string) {
    forall i | 0 <= i < |s| :: 'a' <= s[i] <= 'z' || 'A' <= s[i] <= 'Z'
  }

  lemma WordIsPlain(s: string)
    requires IsWord(s)
    ensures CsvCell(Text(s)) == s == Guarded(Text(s))
  {
  }

  lemma ColumnsAreWords()
    ensures forall i | 0 <= i < |EXPORT_COLUMNS| :: IsWord(EXPORT_COLUMNS[i])
  {
    assert IsWord("id") && IsWord("escrowId") && IsWord("status");
    assert IsWord("totalAmount") && IsWord("feeAmount") && IsWord("receiptsHash") && IsWord("receiptCount");
    assert IsWord("attempts") && IsWord("txHash") && IsWord("createdAt") && IsWord("settledAt");
  }

  lemma HeaderIsLine()
    ensures Header() == Line(HeaderCells()) && GuardedAll(HeaderCells()) == EXPORT_COLUMNS
  {
    ColumnsAreWords();
    WordsArePlain(EXPORT_COLUMNS, HeaderCells());
  }

  lemma WordsArePlain(words: seq<string>, cells: seq<Cell>)
    requires |words| == |cells| && forall i | 0 <= i < |words| :: IsWord(words[i]) && cells[i] == Text(words[i])
    ensures CellTexts(cells) == words && GuardedAll(cells) == words
  {
    forall i | 0 <= i < |words|
      ensures CsvCell(cells[i]) == words[i] == Guarded(cells[i])
    {
      WordIsPlain(words[i]);
    }
  }

  /** The value of a row in the column of this name. */
  function Field(iso: int -> string, row: Row, column: string): Cell {
    match column
    case "id" => Text(row.id)
    case "escrowId" => Text(row.escrowId)
    case "status" => Text(row.status)
    case "totalAmount" => Text(row.totalAmount)
    case "feeAmount" => if row.feeAmount.Some? then Text(row.feeAmount.value) else Null
    case "receiptsHash" => Text(row.receiptsHash)
    case "receiptCount" => if row.receiptCount.Some? then NumberCell(row.receiptCount.value) else Null
    case "attempts" => NumberCell(row.attempts)
    case "txHash" => if row.txHash.Some? then Text(row.txHash.value) else Null
    case "createdAt" => Text(iso(row.createdAt))
    case "settledAt" => if row.settledAt.Some? then Text(iso(row.settledAt.value)) else Null
    case _ => Null
  }

  /** Every cell of a record is the row's value in the column its header names. */
  lemma CellsFitHeader(iso: int -> string, row: Row)
    ensures forall i | 0 <= i < |EXPORT_COLUMNS| :: RecordOf(iso, row)[i] == Field(iso, row, EXPORT_COLUMNS[i])
  {
  }

  /** The pages as bodies: each is a header, on the first page, and its rows' lines. */
  predicate HasBodies(header: string, line: Row -> string, pages: seq<Page>) {
    forall i | 0 <= i < |pages| :: pages[i].body == Body(header, line, i == 0, pages[i].rows)
  }

  /** The concatenated pages are the header and the lines of all rows. */
  lemma {:induction false} FileIsLines(header: string, line: Row -> string, pages: seq<Page>)
    requires HasBodies(header, line, pages) && |pages| > 0
    ensures File(pages) == header + LinesOf(line, AllRows(pages))
    decreases |pages|
  {
    var m := |pages| - 1;
    var rows := pages[m].rows;
    if m == 0 {
      assert AllRows(pages) == rows;
    } else {
      FileIsLines(header, line, pages[..m]);
      LinesOfAppend(line, AllRows(pages[..m]), rows);
      Associative(header, LinesOf(line, AllRows(pages[..m])), LinesOf(line, rows));
    }
  }

  lemma CsvLines(iso: int -> string, rows: seq<Row>)
    ensures LinesOf(CsvLine(iso), rows) == Lines(Records(iso, rows))
  {
    assert Texts(CsvLine(iso), rows) == LineTexts(Records(iso, rows));
  }

  /** A reader for RFC 4180 recovers the header and every guarded cell from the concatenated CSV pages. */
  lemma FileReadsBackWhole(iso: int -> string, pages: seq<Page>)
    requires HasBodies(Header(), CsvLine(iso), pages) && |pages| > 0
    ensures var names := ["id", "escrowId", "status", "totalAmount", "feeAmount", "receiptsHash", "receiptCount",
                          "attempts", "txHash", "createdAt", "settledAt"];
            ReadFile(File(pages)) == Some([names] + GuardedRecords(Records(iso, AllRows(pages))))
  {
    FileIsLines(Header(), CsvLine(iso), pages);
    CsvLines(iso, AllRows(pages));
    HeaderIsLine();
    RecordsReadBack(HeaderCells(), Records(iso, AllRows(pages)));
  }

  lemma RecordsReadBack(first: seq<Cell>, records: seq<seq<Cell>>)
    requires |first| > 0 && forall i | 0 <= i < |records| :: |records[i]| > 0
    ensures ReadFile(Line(first) + Lines(records)) == Some([GuardedAll(first)] + GuardedRecords(records))
  {
    var all := [first] + records;
    LinesCons(first, records);
    FileReadsBack(all);
    GuardedCons(first, records);
  }
}
