/**
 Whole runs of keyset pages: what a server answers to each request, and what a client collects by
 following next_cursor over a fixed table (internal/adapters/mysql8/keyset.go).
 */
module KeysetPaging {
  import opened Wrappers
  import opened JsonText
  import opened StreamedRows
  import opened KeysetCursor
  import opened KeysetPredicate
  import opened KeysetCollector
  import opened KeysetStatement

  // ---------------------------------------------------------------- ordering

  ghost predicate Sorted(db: Database, rows: seq<TableRow>) {
    forall i, j :: 0 <= i < j < |rows| ==> Before(db, rows[i], rows[j])
  }

  /** The rows of a set in the query's order. */
  ghost predicate IsOrdering(db: Database, rows: set<TableRow>, ordering: seq<TableRow>) {
    Sorted(db, ordering) && forall row :: row in rows <==> row in ordering
  }

  lemma BeforeIrreflexive(db: Database, row: TableRow)
    requires ValidDatabase(db)
    ensures !Before(db, row, row)
  {
    hide Key, After, Before, StoredInColumn;
    BeforeIsAfter(db, row, row);
    AfterIrreflexive(db.query.columns, db.orders, Key(db.query, row.values));
  }

  lemma BeforeTransitive(db: Database, a: TableRow, b: TableRow, c: TableRow)
    requires ValidDatabase(db) && Before(db, a, b) && Before(db, b, c)
    ensures Before(db, a, c)
  {
    hide Key, After, Before, StoredInColumn;
    BeforeIsAfter(db, a, b);
    BeforeIsAfter(db, b, c);
    BeforeIsAfter(db, a, c);
    AfterTransitive(db.query.columns, db.orders, Key(db.query, a.values), Key(db.query, b.values), Key(db.query, c.values));
  }

  /** Uniqueness of the full tuple makes the order total on the table. */
  lemma BeforeTotal(db: Database, a: TableRow, b: TableRow)
    requires ValidDatabase(db) && a in db.table && b in db.table && a != b
    ensures Before(db, a, b) || Before(db, b, a)
  {
    hide Key, After, Before, StoredInColumn, SameBefore;
    BeforeIsAfter(db, a, b);
    BeforeIsAfter(db, b, a);
    AfterTotal(db.query.columns, db.orders, Key(db.query, a.values), Key(db.query, b.values));
  }

  lemma NotInTail(db: Database, rows: seq<TableRow>)
    requires ValidDatabase(db) && Sorted(db, rows) && rows != []
    ensures rows[0] !in rows[1..]
  {
    hide ValidDatabase, Before;
    BeforeIrreflexive(db, rows[0]);
    var tail := rows[1..];
    forall j | 0 <= j < |tail| ensures tail[j] != rows[0] {
      assert Before(db, rows[0], tail[j]);
    }
  }

  lemma HeadIn(rows: seq<TableRow>)
    ensures rows != [] ==> rows[0] in rows
  {
  }

  /** The first row of two orderings of one set is the same. */
  lemma SameHead(db: Database, a: seq<TableRow>, b: seq<TableRow>)
    requires ValidDatabase(db) && Sorted(db, a) && Sorted(db, b) && a != [] && b != []
    requires a[0] in b && b[0] in a
    ensures a[0] == b[0]
  {
    hide ValidDatabase, Before;
    if a[0] != b[0] {
      assert Before(db, a[0], b[0]);
      assert Before(db, b[0], a[0]);
      BeforeTransitive(db, a[0], b[0], a[0]);
      BeforeIrreflexive(db, a[0]);
    }
  }

  lemma HeadOrTail(rows: seq<TableRow>, row: TableRow)
    requires rows != []
    ensures row in rows <==> row == rows[0] || row in rows[1..]
  {
    assert rows == [rows[0]] + rows[1..];
  }

  lemma {:induction false} OrderingUnique(db: Database, a: seq<TableRow>, b: seq<TableRow>)
    requires ValidDatabase(db) && Sorted(db, a) && Sorted(db, b) && forall row :: row in a <==> row in b
    ensures a == b
    decreases |a|
  {
    hide ValidDatabase, Before;
    HeadIn(a);
    HeadIn(b);
    if a == [] {
      assert b == [];
    } else {
      assert b != [];
      SameHead(db, a, b);
      NotInTail(db, a);
      NotInTail(db, b);
      forall row ensures row in a[1..] <==> row in b[1..] {
        HeadOrTail(a, row);
        HeadOrTail(b, row);
      }
      OrderingUnique(db, a[1..], b[1..]);
      assert a == [a[0]] + a[1..] && b == [b[0]] + b[1..];
    }
  }

  ghost function Insert(db: Database, row: TableRow, rows: seq<TableRow>): seq<TableRow> {
    if rows == [] || Before(db, row, rows[0]) then [row] + rows
    else [rows[0]] + Insert(db, row, rows[1..])
  }

  lemma {:induction false} InsertSorts(db: Database, row: TableRow, rows: seq<TableRow>)
    requires ValidDatabase(db) && Sorted(db, rows) && row in db.table && row !in rows
    requires forall other :: other in rows ==> other in db.table
    ensures Sorted(db, Insert(db, row, rows))
    ensures forall other :: other in Insert(db, row, rows) <==> other == row || other in rows
  {
    hide ValidDatabase, Before;
    if rows == [] {
    } else if Before(db, row, rows[0]) {
      forall j | 0 < j < |rows| ensures Before(db, row, rows[j]) {
        BeforeTransitive(db, row, rows[0], rows[j]);
      }
    } else {
      BeforeTotal(db, row, rows[0]);
      InsertSorts(db, row, rows[1..]);
      var tail := Insert(db, row, rows[1..]);
      forall j | 0 <= j < |tail| ensures Before(db, rows[0], tail[j]) {
        assert tail[j] in tail;
      }
      forall other ensures other in Insert(db, row, rows) <==> other == row || other in rows {
        HeadOrTail(rows, other);
      }
    }
  }

  /** Every set of table rows can be listed in the query's order, so the theorems below are not empty. */
  lemma {:induction false} OrderingExists(db: Database, rows: set<TableRow>) returns (ordering: seq<TableRow>)
    requires ValidDatabase(db) && rows <= db.table
    ensures IsOrdering(db, rows, ordering)
    decreases |rows|
  {
    hide ValidDatabase, Before;
    if rows == {} {
      ordering := [];
    } else {
      var row :| row in rows;
      var rest := OrderingExists(db, rows - {row});
      InsertSorts(db, row, rest);
      ordering := Insert(db, row, rest);
    }
  }

  // --------------------------------------------------------- cursors are keys

  /** Everything bindKeysetCursor needs of a page's last row. */
  ghost predicate NamesRow(query: Query, values: RawRow, cursor: seq<CursorValue>, n: nat) {
    && |cursor| == n <= |query.columns|
    && forall j :: 0 <= j < n ==>
         && AcceptableCursor(query.calendar, cursor[j])
         && BindCursor(query.calendar, cursor[j], query.columns[j])
            == Some(KeyValue(CellText(values, query.columns[j].cell), query.columns[j]))
  }

  lemma CellRoundTrip(query: Query, values: RawRow, j: nat)
    requires j < |query.columns| && SupportedColumn(query.columns[j])
    requires KeyCellsValid(query, values) && KeysStored(query, values)
    ensures var column := query.columns[j];
            var text := CursorText(query.calendar, CellText(values, column.cell), column.kind);
            && text.Some? && AcceptableCursor(query.calendar, CursorValue(column.kind, text.value))
            && BindCursor(query.calendar, CursorValue(column.kind, text.value), column)
               == Some(KeyValue(CellText(values, column.cell), column))
  {
    hide ValidKeyCell, StoredInColumn, CursorText, AcceptableCursor, BindCursor, KeyValue, SupportedColumn;
    var column := query.columns[j];
    CursorRoundTrip(query.calendar, CellText(values, column.cell), column);
  }

  lemma PrefixStep(query: Query, values: RawRow, n: nat)
    requires n < |query.columns| && CursorPrefix(query, values, n).Some?
    ensures var column := query.columns[n];
            var text := CursorText(query.calendar, CellText(values, column.cell), column.kind);
            text.Some? ==>
              CursorPrefix(query, values, n + 1)
              == Some(CursorPrefix(query, values, n).value + [CursorValue(column.kind, text.value)])
  {
    hide CursorText, CellText;
  }

  lemma NamesOneMore(query: Query, values: RawRow, cursor: seq<CursorValue>, value: CursorValue, n: nat)
    requires NamesRow(query, values, cursor, n) && n < |query.columns|
    requires AcceptableCursor(query.calendar, value)
    requires BindCursor(query.calendar, value, query.columns[n])
          == Some(KeyValue(CellText(values, query.columns[n].cell), query.columns[n]))
    ensures NamesRow(query, values, cursor + [value], n + 1)
  {
    hide CursorText, CellText, AcceptableCursor, BindCursor, KeyValue;
  }

  lemma {:induction false} CursorNamesRow(query: Query, values: RawRow, n: nat)
    requires n <= |query.columns| && forall j :: 0 <= j < |query.columns| ==> SupportedColumn(query.columns[j])
    requires KeyCellsValid(query, values) && KeysStored(query, values)
    ensures CursorPrefix(query, values, n).Some? && NamesRow(query, values, CursorPrefix(query, values, n).value, n)
  {
    hide KeyCellsValid, KeysStored, CursorText, AcceptableCursor, BindCursor, KeyValue, CellText, SupportedColumn;
    if n > 0 {
      CursorNamesRow(query, values, n - 1);
      CellRoundTrip(query, values, n - 1);
      PrefixStep(query, values, n - 1);
      var column := query.columns[n - 1];
      var text := CursorText(query.calendar, CellText(values, column.cell), column.kind);
      NamesOneMore(query, values, CursorPrefix(query, values, n - 1).value, CursorValue(column.kind, text.value), n - 1);
    }
  }

  lemma NamesPosition(query: Query, values: RawRow, cursor: seq<CursorValue>)
    requires NamesRow(query, values, cursor, |query.columns|)
    ensures Binds(query, Some(cursor)) && Position(query, Some(cursor)) == Key(query, values)
  {
    hide CellText, AcceptableCursor, BindCursor, KeyValue;
    assert AllBind(query.calendar, query.columns, cursor, |query.columns|);
    var bounds := Bounds(query.calendar, query.columns, cursor, |query.columns|);
    var key := Key(query, values);
    forall j | 0 <= j < |bounds| ensures bounds[j] == key[j] {
      assert Some(bounds[j]) == BindCursor(query.calendar, cursor[j], query.columns[j]);
    }
    assert bounds == key;
  }

  // -------------------------------------------------------------------- runs

  ghost function Selected(db: Database, after: Option<seq<CursorValue>>): set<TableRow> {
    set row | row in db.table && Matches(db, Compiled(db, after), row)
  }

  ghost function Filtered(db: Database): set<TableRow> {
    set row | row in db.table && FilterHolds(db, row)
  }

  /** LIMIT: the first limit + 1 rows of the ordering. */
  ghost predicate Delivers(db: Database, ordering: seq<TableRow>, stream: seq<StreamRow>) {
    && |stream| == (if |ordering| <= db.query.limit then |ordering| else db.query.limit + 1)
    && forall i :: 0 <= i < |stream| ==> stream[i].values == ordering[i].values
  }

  /** A request, the rows the server streams for its statement, and the page that came back. */
  datatype Turn = Turn(after: Option<seq<CursorValue>>, stream: seq<StreamRow>, page: Page)

  /** The page is what CollectKeysetRows returns without an error; see its contract. */
  ghost predicate IsTurn(db: Database, turn: Turn) {
    && ValidRequest(db, turn.after) && Accepts(db, turn.after)
    && (exists ordering :: Answers(db, Compiled(db, turn.after), ordering, turn.stream))
    && IsPage(db.query, turn.stream, turn.page) && AllReadable(db.query, turn.stream, |turn.page.rows|)
  }

  /** Request i repeats the cursor of the page before it. */
  predicate Follows(turns: seq<Turn>, i: nat) {
    && 0 < i < |turns| && turns[i - 1].page.hasMore
    && turns[i].after == Some(turns[i - 1].page.nextCursor)
  }

  /** A client that starts at the first page and follows next_cursor. */
  ghost predicate IsRun(db: Database, turns: seq<Turn>) {
    && turns != [] && turns[0].after == None
    && (forall i :: 0 <= i < |turns| ==> IsTurn(db, turns[i]))
    && (forall i :: 0 < i < |turns| ==> Follows(turns, i))
  }

  /** All rows the client has received. */
  function Received(turns: seq<Turn>): seq<RawRow> {
    if turns == [] then [] else Received(turns[..|turns| - 1]) + turns[|turns| - 1].page.rows
  }

  function Output(db: Database, rows: seq<TableRow>): (output: seq<RawRow>)
    ensures |output| == |rows|
  {
    seq(|rows|, i requires 0 <= i < |rows| => Materialized(rows[i].values, db.query.encodings))
  }

  /** The request asks for what follows the first k filtered rows. */
  ghost predicate StandsAt(db: Database, all: seq<TableRow>, after: Option<seq<CursorValue>>, k: nat) {
    if k == 0 then after == None
    else k <= |all| && after.Some? && Binds(db.query, after) && Position(db.query, after) == Key(db.query, all[k - 1].values)
  }

  lemma SelectedMeans(db: Database, all: seq<TableRow>, after: Option<seq<CursorValue>>, k: nat, row: TableRow)
    requires ValidDatabase(db) && ValidRequest(db, after) && Accepts(db, after) && StandsAt(db, all, after, k)
    ensures k <= |all|
    ensures row in Selected(db, after)
       <==> row in Filtered(db) && (k == 0 || Before(db, all[k - 1], row))
  {
    hide Matches, Compiled, Key, After, Before, Position, Binds, FilterBinds, FilterHolds, ValidRequest, StoredInColumn, SameBefore;
    StatementMeaning(db, after, row);
    if k > 0 {
      BeforeIsAfter(db, all[k - 1], row);
    }
  }

  lemma TailAt(all: seq<TableRow>, k: nat, row: TableRow) returns (j: nat)
    requires k <= |all| && row in all[k..]
    ensures k <= j < |all| && all[j] == row
  {
    var i :| 0 <= i < |all[k..]| && all[k..][i] == row;
    j := k + i;
  }

  lemma AfterRowIsTail(db: Database, all: seq<TableRow>, k: nat, row: TableRow)
    requires ValidDatabase(db) && Sorted(db, all) && 1 <= k <= |all|
    ensures row in all && Before(db, all[k - 1], row) <==> row in all[k..]
  {
    hide ValidDatabase, Before;
    if row in all[k..] {
      var j := TailAt(all, k, row);
      assert Before(db, all[k - 1], all[j]);
    }
    if row in all && Before(db, all[k - 1], row) {
      var j :| 0 <= j < |all| && all[j] == row;
      if j < k - 1 {
        BeforeTransitive(db, all[k - 1], row, all[k - 1]);
      }
      BeforeIrreflexive(db, all[k - 1]);
      assert all[k..][j - k] == row;
    }
  }

  /** Strict "after" makes the next statement select exactly the remaining rows. */
  lemma SelectedIsTail(db: Database, all: seq<TableRow>, after: Option<seq<CursorValue>>, k: nat)
    requires ValidDatabase(db) && IsOrdering(db, Filtered(db), all)
    requires ValidRequest(db, after) && Accepts(db, after) && StandsAt(db, all, after, k)
    ensures k <= |all| && IsOrdering(db, Selected(db, after), all[k..])
  {
    hide ValidDatabase, ValidRequest, Accepts, Before, Selected, Filtered, StandsAt;
    forall row ensures k <= |all| && (row in Selected(db, after) <==> row in all[k..]) {
      SelectedMeans(db, all, after, k, row);
      if k > 0 {
        AfterRowIsTail(db, all, k, row);
      } else {
        assert all[0..] == all;
      }
    }
    assert k <= |all| by {
      SelectedMeans(db, all, after, k, TableRow([], []));
    }
  }

  lemma PageRows(db: Database, ordering: seq<TableRow>, stream: seq<StreamRow>, m: nat)
    requires Delivers(db, ordering, stream) && m <= |stream|
    ensures m <= |ordering| && Prefix(db.query.encodings, stream, m) == Output(db, ordering[..m])
  {
    hide Materialized;
    var left, right := Prefix(db.query.encodings, stream, m), Output(db, ordering[..m]);
    assert |left| == |right|;
    forall i | 0 <= i < |left| ensures left[i] == right[i] {
      assert stream[i].values == ordering[..m][i].values;
    }
  }

  lemma PageShape(db: Database, ordering: seq<TableRow>, stream: seq<StreamRow>, page: Page)
    requires IsPage(db.query, stream, page) && Delivers(db, ordering, stream)
    ensures |page.rows| <= |stream| && page.rows == Prefix(db.query.encodings, stream, |page.rows|)
    ensures page.hasMore ==> 1 <= |page.rows| < |stream| <= |ordering|
    ensures !page.hasMore ==> |page.rows| == |ordering|
  {
    hide Prefix, Safe, AllSafe, MoreText, FinalText, CursorAfter, FinalSize;
  }

  lemma DeliveredRow(db: Database, ordering: seq<TableRow>, stream: seq<StreamRow>, i: nat)
    requires ValidDatabase(db) && Delivers(db, ordering, stream) && i < |stream| && i < |ordering| && ordering[i] in db.table
    ensures i < |ordering| && stream[i].values == ordering[i].values && KeysStored(db.query, ordering[i].values)
    ensures forall j :: 0 <= j < |db.query.columns| ==> SupportedColumn(db.query.columns[j])
  {
    hide KeysStored, SupportedColumn, Orders, SameBefore;
  }

  lemma ReadKeys(query: Query, stream: seq<StreamRow>, m: nat, i: nat)
    requires AllReadable(query, stream, m) && i < m
    ensures i < |stream| && KeyCellsValid(query, stream[i].values)
  {
    hide KeyCellsValid;
  }

  lemma PageCursor(query: Query, stream: seq<StreamRow>, page: Page)
    requires IsPage(query, stream, page) && page.hasMore
    ensures 1 <= |page.rows| < |stream|
    ensures CursorPrefix(query, stream[|page.rows| - 1].values, |query.columns|) == Some(page.nextCursor)
  {
    hide Safe, AllSafe, IsFinalPage, MoreText, Prefix, CursorPrefix;
  }

  /** The cursor of a page names its last row. */
  lemma NextCursorNames(db: Database, ordering: seq<TableRow>, stream: seq<StreamRow>, page: Page)
    requires ValidDatabase(db) && Delivers(db, ordering, stream) && (forall row :: row in ordering ==> row in db.table)
    requires IsPage(db.query, stream, page) && page.hasMore && AllReadable(db.query, stream, |page.rows|)
    ensures 1 <= |page.rows| < |stream| <= |ordering|
    ensures NamesRow(db.query, ordering[|page.rows| - 1].values, page.nextCursor, |db.query.columns|)
  {
    hide *;
    PageShape(db, ordering, stream, page);
    var m := |page.rows|;
    assert ordering[m - 1] in ordering;
    DeliveredRow(db, ordering, stream, m - 1);
    ReadKeys(db.query, stream, m, m - 1);
    PageCursor(db.query, stream, page);
    CursorNamesRow(db.query, ordering[m - 1].values, |db.query.columns|);
  }

  /** What one turn adds: the next rows in order, and either the end or a cursor standing after them. */
  lemma TurnAdvances(db: Database, all: seq<TableRow>, turn: Turn, k: nat)
    requires ValidDatabase(db) && IsOrdering(db, Filtered(db), all)
    requires IsTurn(db, turn) && StandsAt(db, all, turn.after, k)
    ensures var next := k + |turn.page.rows|;
            && next <= |all| && turn.page.rows == Output(db, all[k..][..|turn.page.rows|])
            && (if turn.page.hasMore then
                  k < next < |all| && StandsAt(db, all, Some(turn.page.nextCursor), next)
                  && NamesRow(db.query, all[next - 1].values, turn.page.nextCursor, |db.query.columns|)
                else next == |all|)
  {
    hide *;
    TurnParts(db, turn);
    ghost var ordering := TurnOrdering(db, turn);
    SelectedIsTail(db, all, turn.after, k);
    SameOrdering(db, Selected(db, turn.after), ordering, all[k..]);
    var m := |turn.page.rows|;
    PageShape(db, ordering, turn.stream, turn.page);
    PageRows(db, ordering, turn.stream, m);
    if turn.page.hasMore {
      SelectedInTable(db, turn.after, ordering);
      NextCursorNames(db, ordering, turn.stream, turn.page);
      NamesPosition(db.query, ordering[m - 1].values, turn.page.nextCursor);
      StandsAfter(db, all, turn.page.nextCursor, k + m);
    }
  }

  /** What the server answers to the compiled statement is the query's order of the selected rows, cut off by LIMIT. */
  lemma AnswerIsOrdered(db: Database, after: Option<seq<CursorValue>>, ordering: seq<TableRow>, stream: seq<StreamRow>)
    requires ValidDatabase(db) && Answers(db, Compiled(db, after), ordering, stream)
    ensures IsOrdering(db, Selected(db, after), ordering) && Delivers(db, ordering, stream)
  {
    hide Matches, Key, Precedes, StoredInColumn, SameBefore, FilterArgs, FilterCondition, CursorBinds, CursorClauses, Position;
    var s := Compiled(db, after);
    assert s.orderBy == Directions(db.query.columns) && s.args[|s.args| - 1] == IntBound(db.query.limit + 1);
    forall i, j | 0 <= i < j < |ordering| ensures Before(db, ordering[i], ordering[j]) {
      assert MayFollow(db, s, ordering[i], ordering[j]);
      assert ordering[i] in ordering && ordering[j] in ordering;
      BeforeTotal(db, ordering[i], ordering[j]);
    }
  }

  lemma TurnOrdering(db: Database, turn: Turn) returns (ordering: seq<TableRow>)
    requires ValidDatabase(db) && IsTurn(db, turn)
    ensures IsOrdering(db, Selected(db, turn.after), ordering) && Delivers(db, ordering, turn.stream)
  {
    hide ValidDatabase, Selected, IsOrdering, Delivers, IsPage, Answers, Compiled;
    ordering :| Answers(db, Compiled(db, turn.after), ordering, turn.stream);
    AnswerIsOrdered(db, turn.after, ordering, turn.stream);
  }

  lemma TurnParts(db: Database, turn: Turn)
    requires IsTurn(db, turn)
    ensures ValidRequest(db, turn.after) && Accepts(db, turn.after) && IsPage(db.query, turn.stream, turn.page)
    ensures AllReadable(db.query, turn.stream, |turn.page.rows|)
  {
    hide Answers, Compiled, IsPage, AllReadable, Accepts, ValidRequest;
  }

  lemma SameOrdering(db: Database, rows: set<TableRow>, a: seq<TableRow>, b: seq<TableRow>)
    requires ValidDatabase(db) && IsOrdering(db, rows, a) && IsOrdering(db, rows, b)
    ensures a == b
  {
    hide ValidDatabase, Sorted;
    OrderingUnique(db, a, b);
  }

  lemma SelectedInTable(db: Database, after: Option<seq<CursorValue>>, ordering: seq<TableRow>)
    requires IsOrdering(db, Selected(db, after), ordering)
    ensures forall row :: row in ordering ==> row in db.table
  {
    hide Sorted, Matches;
  }

  lemma StandsAfter(db: Database, all: seq<TableRow>, cursor: seq<CursorValue>, k: nat)
    requires 1 <= k <= |all| && Binds(db.query, Some(cursor))
    requires Position(db.query, Some(cursor)) == Key(db.query, all[k - 1].values)
    ensures StandsAt(db, all, Some(cursor), k)
  {
    hide Binds, Position, Key;
  }

  lemma RunParts(db: Database, turns: seq<Turn>)
    requires IsRun(db, turns)
    ensures turns != [] && IsTurn(db, turns[|turns| - 1])
    ensures if |turns| == 1 then turns[0].after == None
            else
              && IsRun(db, turns[..|turns| - 1]) && turns[|turns| - 2].page.hasMore
              && turns[|turns| - 1].after == Some(turns[|turns| - 2].page.nextCursor)
  {
    hide IsTurn;
    if |turns| > 1 {
      assert Follows(turns, |turns| - 1);
      var shorter := turns[..|turns| - 1];
      forall i | 0 < i < |shorter| ensures Follows(shorter, i) {
        assert Follows(turns, i);
      }
    }
  }

  lemma OutputGrows(db: Database, all: seq<TableRow>, k: nat, m: nat)
    requires k + m <= |all|
    ensures Output(db, all[..k]) + Output(db, all[k..][..m]) == Output(db, all[..k + m])
  {
    hide Materialized;
    var left, right := Output(db, all[..k]) + Output(db, all[k..][..m]), Output(db, all[..k + m]);
    assert |left| == |right|;
    forall i | 0 <= i < |left| ensures left[i] == right[i] {
      if i >= k {
        assert all[k..][..m][i - k] == all[i];
      }
    }
  }

  lemma ReceivedGrows(turns: seq<Turn>)
    requires turns != []
    ensures Received(turns) == Received(turns[..|turns| - 1]) + turns[|turns| - 1].page.rows
  {
  }

  /** The run has delivered the first rows of the ordering, in order and each once, and stands after them. */
  ghost predicate Delivered(db: Database, all: seq<TableRow>, turns: seq<Turn>) {
    var k := |Received(turns)|;
    && turns != [] && k <= |all| && Received(turns) == Output(db, all[..k])
    && (if turns[|turns| - 1].page.hasMore then
          && |turns| <= k < |all| && StandsAt(db, all, Some(turns[|turns| - 1].page.nextCursor), k)
          && NamesRow(db.query, all[k - 1].values, turns[|turns| - 1].page.nextCursor, |db.query.columns|)
        else k == |all| && (|turns| == 1 || |turns| <= k))
  }

  lemma DeliveredBy(db: Database, all: seq<TableRow>, turns: seq<Turn>, k: nat)
    requires turns != [] && k + |turns[|turns| - 1].page.rows| <= |all|
    requires var last := turns[|turns| - 1].page;
             var next := k + |last.rows|;
             && Received(turns) == Output(db, all[..k]) + Output(db, all[k..][..|last.rows|])
             && (if last.hasMore then
                   k < next < |all| && StandsAt(db, all, Some(last.nextCursor), next)
                   && NamesRow(db.query, all[next - 1].values, last.nextCursor, |db.query.columns|)
                 else next == |all|)
    requires |turns| == 1 || |turns| <= k + 1 <= |all|
    ensures Delivered(db, all, turns)
  {
    hide Received, Output, StandsAt, NamesRow;
    var last := turns[|turns| - 1].page;
    OutputGrows(db, all, k, |last.rows|);
    OutputLength(db, all[..k + |last.rows|]);
  }

  lemma OutputLength(db: Database, rows: seq<TableRow>)
    ensures |Output(db, rows)| == |rows|
  {
  }

  lemma DeliveredParts(db: Database, all: seq<TableRow>, turns: seq<Turn>)
    requires Delivered(db, all, turns)
    ensures turns != [] && |Received(turns)| <= |all| && Received(turns) == Output(db, all[..|Received(turns)|])
    ensures turns[|turns| - 1].page.hasMore ==>
              |turns| <= |Received(turns)| < |all| && StandsAt(db, all, Some(turns[|turns| - 1].page.nextCursor), |Received(turns)|)
  {
    hide Received, Output, StandsAt, NamesRow;
  }

  /** By induction over the pages of a run. */
  lemma {:induction false} RunDelivers(db: Database, all: seq<TableRow>, turns: seq<Turn>)
    requires ValidDatabase(db) && IsOrdering(db, Filtered(db), all) && IsRun(db, turns)
    ensures Delivered(db, all, turns)
    decreases |turns|
  {
    hide *;
    RunParts(db, turns);
    ReceivedGrows(turns);
    var shorter := turns[..|turns| - 1];
    var last := turns[|turns| - 1];
    var k := |Received(shorter)|;
    if |turns| == 1 {
      NothingReceived(db, all, shorter);
    } else {
      RunDelivers(db, all, shorter);
      DeliveredParts(db, all, shorter);
    }
    TurnAdvances(db, all, last, k);
    DeliveredBy(db, all, turns, k);
  }

  lemma NothingReceived(db: Database, all: seq<TableRow>, turns: seq<Turn>)
    requires turns == []
    ensures Received(turns) == [] == Output(db, all[..0]) && StandsAt(db, all, None, 0)
  {
  }

  /**
   Following next_cursor from the first page until has_more is false returns exactly the filtered
   rows, each once, in order_by order, and takes at most one page a row.
   */
  lemma RunReturnsEveryRowOnce(db: Database, all: seq<TableRow>, turns: seq<Turn>)
    requires ValidDatabase(db) && IsOrdering(db, Filtered(db), all) && IsRun(db, turns)
    requires !turns[|turns| - 1].page.hasMore
    ensures Received(turns) == Output(db, all) && (|turns| == 1 || |turns| <= |all|)
  {
    hide *;
    RunDelivers(db, all, turns);
    CompleteDelivery(db, all, turns);
  }

  lemma CompleteDelivery(db: Database, all: seq<TableRow>, turns: seq<Turn>)
    requires Delivered(db, all, turns)
    ensures turns != [] && (!turns[|turns| - 1].page.hasMore ==>
                              Received(turns) == Output(db, all) && (|turns| == 1 || |turns| <= |all|))
  {
    hide Received, Output;
    assert all[..|all|] == all;
  }

  /** Some rows have arrived, others are left, and the next request is acceptable and binds to the last row's key. */
  ghost predicate CanContinue(db: Database, all: seq<TableRow>, turns: seq<Turn>, cursor: seq<CursorValue>) {
    var k := |Received(turns)|;
    && |turns| <= k < |all| && Received(turns) == Output(db, all[..k])
    && Binds(db.query, Some(cursor)) && (k > 0 ==> Position(db.query, Some(cursor)) == Key(db.query, all[k - 1].values))
    && forall j :: 0 <= j < |cursor| ==> AcceptableCursor(db.query.calendar, cursor[j])
  }

  lemma DeliveredContinues(db: Database, all: seq<TableRow>, turns: seq<Turn>)
    requires Delivered(db, all, turns)
    ensures turns != []
    ensures turns[|turns| - 1].page.hasMore ==> CanContinue(db, all, turns, turns[|turns| - 1].page.nextCursor)
  {
    hide Received, Output, Binds, Position, Key, AcceptableCursor, BindCursor, KeyValue, CellText;
  }

  /** What has compiled once compiles again with the next cursor. */
  lemma NextIsAccepted(db: Database, all: seq<TableRow>, turns: seq<Turn>, cursor: seq<CursorValue>)
    requires IsRun(db, turns) && CanContinue(db, all, turns, cursor)
    ensures ValidRequest(db, Some(cursor)) && Accepts(db, Some(cursor))
  {
    hide FilterBinds, Answers, Compiled, IsPage, AllReadable, Follows, AllBind;
    assert IsTurn(db, turns[0]);
  }

  /** An unfinished run has made progress with every page, so it never outlasts the rows, and can go on. */
  lemma RunMakesProgress(db: Database, all: seq<TableRow>, turns: seq<Turn>)
    requires ValidDatabase(db) && IsOrdering(db, Filtered(db), all) && IsRun(db, turns)
    requires turns[|turns| - 1].page.hasMore
    ensures CanContinue(db, all, turns, turns[|turns| - 1].page.nextCursor)
    ensures var cursor := Some(turns[|turns| - 1].page.nextCursor); ValidRequest(db, cursor) && Accepts(db, cursor)
  {
    hide *;
    RunDelivers(db, all, turns);
    DeliveredContinues(db, all, turns);
    NextIsAccepted(db, all, turns, turns[|turns| - 1].page.nextCursor);
  }

  // --------------------------------------------------------------- operation

  datatype SelectError = NotCompiled | NotCollected(error: CollectError)

  /** The server answers the compiled statement; `ordering` is all that it would send without a limit. */
  ghost predicate Streams(db: Database, after: Option<seq<CursorValue>>, ordering: seq<TableRow>, stream: seq<StreamRow>) {
    Accepts(db, after) ==> Answers(db, Compiled(db, after), ordering, stream)
  }

  /**
   SelectKeyset between compilation and the finished page: success is one turn of a run, and for an
   accepted filter and cursor only a failing stream, an unreadable row or a stream without a page makes it fail.
   */
  method SelectPage(
    db: Database, after: Option<seq<CursorValue>>, ghost ordering: seq<TableRow>, stream: seq<StreamRow>, streamFails: bool
  ) returns (r: Result<Page, SelectError>)
    requires ValidRequest(db, after)
    requires FinalBase(db.query) <= db.query.maximum && |db.query.columns| >= 1
    requires Streams(db, after, ordering, stream)
    ensures r.Success? ==> IsTurn(db, Turn(after, stream, r.value))
    ensures r == Failure(NotCompiled) <==> !Accepts(db, after)
    ensures r.Failure? && r.error.NotCollected? && !streamFails && AllReadable(db.query, stream, |stream|) ==>
              !PageExists(db.query, stream)
  {
    hide *;
    var statement := CompileKeyset(db, after);
    if statement.Failure? {
      return Failure(NotCompiled);
    }
    var result := new KeysetResult();
    var stoppedEarly, error := CollectKeysetRows(db.query, stream, streamFails, result);
    FieldsOf(result);
    if error.Some? {
      OutcomeFails(db.query, stream, streamFails, result.Value(), stoppedEarly, error.value);
      return Failure(NotCollected(error.value));
    }
    var page := Page(result.rows, result.hasMore, result.nextCursor, result.resultBytes);
    OutcomeIsTurn(db, after, ordering, stream, streamFails, page, stoppedEarly);
    r := Success(page);
  }

  lemma OutcomeFails(
    query: Query, stream: seq<StreamRow>, streamFails: bool, page: Page, stoppedEarly: bool, e: CollectError
  )
    requires Outcome(query, stream, streamFails, page, stoppedEarly, Some(e))
    ensures !streamFails && AllReadable(query, stream, |stream|) ==> !PageExists(query, stream)
  {
    hide IsPage, PageExists, AllReadable;
  }

  lemma OutcomeIsTurn(
    db: Database, after: Option<seq<CursorValue>>, ordering: seq<TableRow>, stream: seq<StreamRow>, streamFails: bool,
    page: Page, stoppedEarly: bool
  )
    requires ValidRequest(db, after) && Accepts(db, after) && Streams(db, after, ordering, stream)
    requires Outcome(db.query, stream, streamFails, page, stoppedEarly, None)
    ensures IsTurn(db, Turn(after, stream, page))
  {
    hide ValidRequest, Accepts, Answers, Compiled, IsPage, AllReadable;
  }
}
