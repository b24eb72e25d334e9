/**
 collectKeysetRows (internal/adapters/mysql8/keyset.go): streaming one page under two exact byte
 envelopes, one for a final page and one for a page with a continuation cursor.
 */
module KeysetCollector {
  import opened Wrappers
  import opened Digits
  import opened JsonText
  import opened StreamedRows
  import opened KeysetCursor

  // --------------------------------------------------------------- envelopes

  function KindName(kind: Kind): string {
    match kind
    case IntegerKind => "integer"
    case StringKind => "string"
    case BytesKind => "bytes"
    case DateKind => "date"
    case DatetimeKind => "datetime"
    case TimestampKind => "timestamp"
  }

  function CursorItem(value: CursorValue): Bytes {
    Ascii("{\"type\":") + JsonString(Ascii(KindName(value.kind))) + Ascii(",\"value\":") + JsonString(value.value) + Ascii("}")
  }

  /** The cursor array's content. */
  function CursorItems(cursor: seq<CursorValue>): Bytes {
    if cursor == [] then []
    else if |cursor| == 1 then CursorItem(cursor[0])
    else CursorItems(cursor[..|cursor| - 1]) + Ascii(",") + CursorItem(cursor[|cursor| - 1])
  }

  /** The response of the last page. */
  function FinalText(envelope: Envelope, rows: seq<RawRow>): Bytes {
    envelope.head
    + Ascii("\"rows\":[") + JoinedRows(rows) + Ascii("],\"row_count\":") + Ascii(Decimal(|rows|))
    + Ascii(",\"truncated\":false,\"page\":{\"has_more\":false}")
    + envelope.tail
  }

  /** The response of a page that another page follows. */
  function MoreText(envelope: Envelope, rows: seq<RawRow>, cursor: seq<CursorValue>): Bytes {
    envelope.head
    + Ascii("\"rows\":[") + JoinedRows(rows) + Ascii("],\"row_count\":") + Ascii(Decimal(|rows|))
    + Ascii(",\"truncated\":true,\"page\":{\"has_more\":true,\"next_cursor\":[") + CursorItems(cursor) + Ascii("]}")
    + envelope.tail
  }

  // ------------------------------------------------------------------ stream

  datatype Query = Query(
    limit: nat, maximum: int, calendar: Calendar, columns: seq<KeyColumn>, encodings: seq<Encoding>, envelope: Envelope)

  /** The checks of a row that do not concern key cells. */
  datatype RowChecks = RowChecks(guards: bool, otherCells: bool)

  type StreamRow = Streamed<RowChecks>

  predicate KeyCellsValid(query: Query, values: RawRow) {
    forall j :: 0 <= j < |query.columns| ==>
      && query.columns[j].cell < |values| && values[query.columns[j].cell].Some?
      && ValidKeyCell(query.calendar, values[query.columns[j].cell].value, query.columns[j])
  }

  /** The row passes everything the collector checks before it measures it. */
  predicate Readable(query: Query, row: StreamRow) {
    && row.scans && row.checks.guards && row.checks.otherCells
    && |row.values| == |query.encodings| && KeyCellsValid(query, row.values)
  }

  function CellText(values: RawRow, index: nat): Bytes {
    if index < |values| && values[index].Some? then values[index].value else []
  }

  /** The cursor naming a row by its first n keys, when the portable contract can represent it. */
  function CursorPrefix(query: Query, values: RawRow, n: nat): Option<seq<CursorValue>>
    requires n <= |query.columns|
  {
    if n == 0 then Some([])
    else
      var column := query.columns[n - 1];
      var before := CursorPrefix(query, values, n - 1);
      var text := CursorText(query.calendar, CellText(values, column.cell), column.kind);
      if before == None || text == None then None else Some(before.value + [CursorValue(column.kind, text.value)])
  }

  function CursorOf(query: Query, values: RawRow): Option<seq<CursorValue>> {
    CursorPrefix(query, values, |query.columns|)
  }

  function FinalSize(query: Query, stream: seq<StreamRow>, k: nat): nat {
    |FinalText(query.envelope, Prefix(query.encodings, stream, k))|
  }

  /** The cursor after k rows is that of the k-th row. */
  function CursorAfter(query: Query, stream: seq<StreamRow>, k: nat): Option<seq<CursorValue>> {
    if 1 <= k <= |stream| then CursorOf(query, stream[k - 1].values) else None
  }

  /** k rows could be returned as a final page and as a page with a continuation. */
  predicate Safe(query: Query, stream: seq<StreamRow>, k: nat) {
    var cursor := CursorAfter(query, stream, k);
    && FinalSize(query, stream, k) <= query.maximum
    && cursor.Some? && |MoreText(query.envelope, Prefix(query.encodings, stream, k), cursor.value)| <= query.maximum
  }

  ghost predicate AllSafe(query: Query, stream: seq<StreamRow>, k: nat) {
    forall j :: 1 <= j <= k ==> Safe(query, stream, j)
  }

  /** The whole stream is one page: it fits, and every shorter page could have been continued. */
  ghost predicate IsFinalPage(query: Query, stream: seq<StreamRow>) {
    var n := |stream|;
    n <= query.limit && FinalSize(query, stream, n) <= query.maximum && (n == 0 || AllSafe(query, stream, n - 1))
  }

  /** m rows make the longest continuable page within the limit, and the stream does not end there. */
  ghost predicate IsMorePage(query: Query, stream: seq<StreamRow>, m: nat) {
    && 1 <= m < |stream| && m <= query.limit && AllSafe(query, stream, m)
    && (m == query.limit || !Safe(query, stream, m + 1))
    && !IsFinalPage(query, stream)
  }

  datatype Page = Page(rows: seq<RawRow>, hasMore: bool, nextCursor: seq<CursorValue>, resultBytes: int)

  /** What a successful call returns. */
  ghost predicate IsPage(query: Query, stream: seq<StreamRow>, page: Page) {
    && |page.rows| <= |stream| && page.rows == Prefix(query.encodings, stream, |page.rows|)
    && (if page.hasMore then
          && IsMorePage(query, stream, |page.rows|)
          && Some(page.nextCursor) == CursorAfter(query, stream, |page.rows|)
          && page.resultBytes == |MoreText(query.envelope, page.rows, page.nextCursor)| <= query.maximum
        else
          && IsFinalPage(query, stream) && |page.rows| == |stream| && page.nextCursor == []
          && page.resultBytes == |FinalText(query.envelope, page.rows)| <= query.maximum)
  }

  /** Some page exists: everything fits, or at least the first row can be continued. */
  ghost predicate PageExists(query: Query, stream: seq<StreamRow>) {
    IsFinalPage(query, stream) || (|stream| >= 1 && query.limit >= 1 && Safe(query, stream, 1))
  }

  lemma MorePageIsLongest(query: Query, stream: seq<StreamRow>, m: nat, k: nat)
    requires IsMorePage(query, stream, m) && IsMorePage(query, stream, k)
    ensures k <= m
  {
    hide Safe, IsFinalPage;
    var next: nat := m + 1;
    assert k > m ==> Safe(query, stream, next);
  }

  /** The page is a function of the stream. */
  lemma PageIsUnique(query: Query, stream: seq<StreamRow>, a: Page, b: Page)
    requires IsPage(query, stream, a) && IsPage(query, stream, b)
    ensures a == b
  {
    hide Prefix, MoreText, FinalText, IsFinalPage, CursorAfter;
    assert a.hasMore == b.hasMore;
    if a.hasMore {
      MorePageIsLongest(query, stream, |a.rows|, |b.rows|);
      MorePageIsLongest(query, stream, |b.rows|, |a.rows|);
    }
  }

  // ------------------------------------------------------------------- sizes

  lemma KindLiterals(kind: Kind)
    ensures |JsonString(Ascii(KindName(kind)))| == 2 + |KindName(kind)|
  {
    var name := KindName(kind);
    forall i | 0 <= i < |name| ensures 97 <= name[i] as int <= 122 {
    }
    hide KindName, EncodedCharacters;
    PlainCharacters(Ascii(name));
  }

  lemma FinalParts(envelope: Envelope, rows: seq<RawRow>)
    ensures |FinalText(envelope, rows)|
         == |envelope.head| + |envelope.tail| + |JoinedRows(rows)| + |Decimal(|rows|)| + 66
  {
    hide JoinedRows, Decimal;
    assert |"\"rows\":["| == 8 && |"],\"row_count\":"| == 14 && |",\"truncated\":false,\"page\":{\"has_more\":false}"| == 44;
  }

  lemma MoreParts(envelope: Envelope, rows: seq<RawRow>, cursor: seq<CursorValue>)
    ensures |MoreText(envelope, rows, cursor)|
         == |envelope.head| + |envelope.tail| + |JoinedRows(rows)| + |Decimal(|rows|)| + |CursorItems(cursor)| + 81
  {
    hide JoinedRows, Decimal, CursorItems;
    assert |"\"rows\":["| == 8 && |"],\"row_count\":"| == 14
        && |",\"truncated\":true,\"page\":{\"has_more\":true,\"next_cursor\":["| == 57 && |"]}"| == 2;
  }

  lemma FinalSizeParts(query: Query, stream: seq<StreamRow>, k: nat)
    ensures FinalSize(query, stream, k)
         == |query.envelope.head| + |query.envelope.tail| + |JoinedRows(Prefix(query.encodings, stream, k))| + |Decimal(k)| + 66
  {
    hide FinalText, Prefix;
    FinalParts(query.envelope, Prefix(query.encodings, stream, k));
  }

  lemma FinalSizeGrows(query: Query, stream: seq<StreamRow>, k: nat)
    requires k < |stream|
    ensures FinalSize(query, stream, k + 1) == FinalSize(query, stream, k) + RowCost(query.encodings, stream, k)
    ensures RowCost(query.encodings, stream, k) >= 2
  {
    hide FinalSize, Prefix, JoinedRows, Decimal, JsonRow, Materialized;
    FinalSizeParts(query, stream, k);
    FinalSizeParts(query, stream, k + 1);
    DigitsMonotone(k);
    PrefixGrows(query.encodings, stream, k);
    JoinedRowsGrow(Prefix(query.encodings, stream, k + 1));
  }

  lemma {:induction false} FinalSizeMonotone(query: Query, stream: seq<StreamRow>, j: nat, k: nat)
    requires j <= k <= |stream|
    ensures FinalSize(query, stream, j) <= FinalSize(query, stream, k)
    decreases k - j
  {
    hide FinalSize, RowCost;
    if j < k {
      FinalSizeGrows(query, stream, j);
      FinalSizeMonotone(query, stream, j + 1, k);
    }
  }

  /** The size of the page's empty response: the budgets the service computes. */
  function FinalBase(query: Query): nat {
    |FinalText(query.envelope, [])|
  }

  function MoreBase(query: Query): nat {
    |MoreText(query.envelope, [], [])|
  }

  /** A continuation page costs its base, its rows and its cursor. */
  lemma MoreSizeFromFinal(query: Query, stream: seq<StreamRow>, k: nat, cursor: seq<CursorValue>)
    ensures |MoreText(query.envelope, Prefix(query.encodings, stream, k), cursor)|
         == MoreBase(query) + (FinalSize(query, stream, k) - FinalBase(query)) + |CursorItems(cursor)|
    ensures MoreBase(query) > 0
  {
    FinalSizeParts(query, stream, k);
    MoreParts(query.envelope, Prefix(query.encodings, stream, k), cursor);
    MoreParts(query.envelope, [], []);
    FinalParts(query.envelope, []);
    PrefixLength(query.encodings, stream, k);
    assert |CursorItems([])| == 0;
    hide MoreText, FinalText, FinalSize, Prefix, JoinedRows, Decimal, CursorItems;
  }

  // ------------------------------------------------------------------ cursor

  lemma CursorItemSize(value: CursorValue)
    ensures |CursorItem(value)| == 18 + |JsonString(Ascii(KindName(value.kind)))| + |JsonString(value.value)|
  {
    hide JsonString, KindName;
    assert |"{\"type\":"| == 8 && |",\"value\":"| == 9;
  }

  lemma CursorItemsGrow(cursor: seq<CursorValue>, value: CursorValue)
    ensures |CursorItems(cursor + [value])|
         == |CursorItems(cursor)| + (if cursor == [] then 0 else 1) + |CursorItem(value)|
  {
    hide CursorItem;
    assert (cursor + [value])[..|cursor + [value]| - 1] == cursor;
  }

  /** The size of the first n items of the row's cursor. */
  function PrefixSize(query: Query, values: RawRow, n: nat): Option<nat>
    requires n <= |query.columns|
  {
    var prefix := CursorPrefix(query, values, n);
    if prefix == None then None else Some(|CursorItems(prefix.value)|)
  }

  /** The size of one item with the separator before it. */
  function ItemSize(query: Query, values: RawRow, n: nat): Option<nat>
    requires n < |query.columns|
  {
    var column := query.columns[n];
    var text := CursorText(query.calendar, CellText(values, column.cell), column.kind);
    if text == None then None
    else Some((if n == 0 then 0 else 1) + |CursorItem(CursorValue(column.kind, text.value))|)
  }

  lemma PrefixSizeStep(query: Query, values: RawRow, n: nat)
    requires n < |query.columns|
    ensures PrefixSize(query, values, n + 1) ==
              if PrefixSize(query, values, n) == None || ItemSize(query, values, n) == None then None
              else Some(PrefixSize(query, values, n).value + ItemSize(query, values, n).value)
  {
    hide CursorText, CursorItem, CursorItems, CellText;
    CursorPrefixLength(query, values, n);
    var column := query.columns[n];
    var text := CursorText(query.calendar, CellText(values, column.cell), column.kind);
    if CursorPrefix(query, values, n).Some? && text.Some? {
      CursorItemsGrow(CursorPrefix(query, values, n).value, CursorValue(column.kind, text.value));
    }
  }

  /** A cursor that exists has every shorter prefix, which is no larger. */
  lemma {:induction false} PrefixSizes(query: Query, values: RawRow, n: nat)
    requires n <= |query.columns|
    ensures var whole := PrefixSize(query, values, |query.columns|);
            whole.Some? ==> PrefixSize(query, values, n).Some? && PrefixSize(query, values, n).value <= whole.value
    decreases |query.columns| - n
  {
    hide *;
    if n < |query.columns| {
      PrefixSizes(query, values, n + 1);
      PrefixSizeStep(query, values, n);
    }
  }

  lemma {:induction false} CursorPrefixLength(query: Query, values: RawRow, n: nat)
    requires n <= |query.columns|
    ensures CursorPrefix(query, values, n).Some? ==> |CursorPrefix(query, values, n).value| == n
  {
    if n > 0 {
      CursorPrefixLength(query, values, n - 1);
    }
  }

  /** The size of the JSON string for one key, as the source measures it. */
  method KeySize(query: Query, raw: Bytes, kind: Kind, maximum: int) returns (r: Option<int>)
    ensures var text := CursorText(query.calendar, raw, kind);
            && (r.Some? ==> text.Some? && r.value == |JsonString(text.value)|)
            && (r == None ==> text == None || |JsonString(text.value)| > maximum)
  {
    hide JsonString, Base64Text, ParseDateTime, ParseDate;
    if kind == BytesKind {
      Base64StringLength(raw);
      return Some(2 + Base64Length(|raw|));
    }
    var text := CursorText(query.calendar, raw, kind);
    if text == None {
      return None;
    }
    r := EncodedJsonStringSize(text.value, maximum);
  }

  lemma ItemSizeParts(query: Query, values: RawRow, n: nat)
    requires n < |query.columns|
    ensures var column := query.columns[n];
            var text := CursorText(query.calendar, CellText(values, column.cell), column.kind);
            ItemSize(query, values, n) ==
              if text == None then None
              else Some((if n == 0 then 0 else 1) + 18 + (2 + |KindName(column.kind)|) + |JsonString(text.value)|)
  {
    hide CursorText, JsonString, KindName, CursorItem, CellText;
    var column := query.columns[n];
    var text := CursorText(query.calendar, CellText(values, column.cell), column.kind);
    if text.Some? {
      CursorItemSize(CursorValue(column.kind, text.value));
      KindLiterals(column.kind);
    }
  }

  /** A size that must not exceed what remains. */
  function Within(size: Option<nat>, remaining: int): Option<int> {
    if size.Some? && size.value <= remaining then Some(size.value) else None
  }

  lemma WithinParts(size: Option<nat>, remaining: int)
    ensures Within(size, remaining) == if size.Some? && size.value <= remaining then Some(size.value) else None
  {
  }

  /** One turn of the source's loop: the size of an item, unless it exceeds what remains. */
  method MeasureItem(query: Query, values: RawRow, index: nat, remaining: int) returns (r: Option<int>)
    requires index < |query.columns| && remaining >= 0
    ensures r == Within(ItemSize(query, values, index), remaining)
  {
    hide *;
    ItemSizeParts(query, values, index);
    WithinParts(ItemSize(query, values, index), remaining);
    var column := query.columns[index];
    var valueSize := KeySize(query, CellText(values, column.cell), column.kind, remaining);
    if valueSize == None {
      return None;
    }
    var itemSize := 18 + (2 + |KindName(column.kind)|) + valueSize.value;
    if index != 0 {
      itemSize := itemSize + 1;
    }
    r := if itemSize <= remaining then Some(itemSize) else None;
  }

  lemma NoItems(query: Query, values: RawRow)
    ensures PrefixSize(query, values, 0) == Some(0)
  {
  }

  /** The exact size of the cursor's items, or None when there is no cursor or it exceeds the maximum. */
  method EncodedCursorSize(query: Query, values: RawRow, maximum: int) returns (r: Option<int>)
    ensures r == Within(PrefixSize(query, values, |query.columns|), maximum)
  {
    hide *;
    NoItems(query, values);
    WithinParts(PrefixSize(query, values, |query.columns|), maximum);
    if maximum < 0 {
      return None;
    }
    var size := 0;
    for index := 0 to |query.columns|
      invariant 0 <= size <= maximum && PrefixSize(query, values, index) == Some(size)
    {
      PrefixSizes(query, values, index + 1);
      PrefixSizeStep(query, values, index);
      WithinParts(ItemSize(query, values, index), maximum - size);
      var itemSize := MeasureItem(query, values, index, maximum - size);
      if itemSize == None {
        return None;
      }
      var added := AddEncodedSize(size, itemSize.value, maximum);
      AddedSize(size, itemSize.value, maximum);
      if added == None {
        return None;
      }
      size := added.value;
    }
    r := Some(size);
  }

  lemma {:induction false} CursorMissing(query: Query, values: RawRow, n: nat)
    requires n <= |query.columns| && CursorPrefix(query, values, n) == None
    ensures CursorOf(query, values) == None
    decreases |query.columns| - n
  {
    hide CursorText, CellText;
    if n < |query.columns| {
      CursorMissing(query, values, n + 1);
    }
  }

  /** materializeKeysetCursor. */
  method MaterializeCursor(query: Query, values: RawRow) returns (r: Option<seq<CursorValue>>)
    ensures r == CursorOf(query, values)
  {
    hide CursorText, CellText;
    var cursor: seq<CursorValue> := [];
    for index := 0 to |query.columns|
      invariant CursorPrefix(query, values, index) == Some(cursor)
    {
      var column := query.columns[index];
      var text := CursorText(query.calendar, CellText(values, column.cell), column.kind);
      if text == None {
        CursorMissing(query, values, index + 1);
        return None;
      }
      cursor := cursor + [CursorValue(column.kind, text.value)];
    }
    r := Some(cursor);
  }

  // -------------------------------------------------------------------- loop

  datatype CollectError = ExecutionError | InvalidRow | ResultTooLarge

  /** The page the collector fills in place. */
  class KeysetResult {
    var rows: seq<RawRow>
    var hasMore: bool
    var nextCursor: seq<CursorValue>
    var resultBytes: int

    constructor ()
      ensures Value() == Page([], false, [], 0)
    {
      rows, hasMore, nextCursor, resultBytes := [], false, [], 0;
    }

    ghost function Value(): Page
      reads this
    {
      Page(rows, hasMore, nextCursor, resultBytes)
    }
  }

  /** The last continuable page seen: its size and cursor. */
  datatype Continuation = Continuation(moreSize: int, cursor: seq<CursorValue>)

  ghost predicate ContinuesAt(query: Query, stream: seq<StreamRow>, k: nat, last: Continuation) {
    if k == 0 then last == Continuation(0, [])
    else
      && Some(last.cursor) == CursorAfter(query, stream, k)
      && last.moreSize == |MoreText(query.envelope, Prefix(query.encodings, stream, k), last.cursor)| <= query.maximum
  }

  /** The loop's accounting: the final size, the last continuation, and whether the last row is provisional. */
  datatype Budget = Budget(finalSize: int, last: Continuation, provisional: bool)

  /** What holds after i rows have been kept; the last is provisional when it could not be continued. */
  ghost predicate Collected(query: Query, stream: seq<StreamRow>, i: nat, rows: seq<RawRow>, budget: Budget) {
    && i <= |stream| && i <= query.limit && rows == Prefix(query.encodings, stream, i)
    && budget.finalSize == FinalSize(query, stream, i) <= query.maximum
    && (if budget.provisional then
          i >= 1 && !Safe(query, stream, i) && AllSafe(query, stream, i - 1) && ContinuesAt(query, stream, i - 1, budget.last)
        else AllSafe(query, stream, i) && ContinuesAt(query, stream, i, budget.last))
  }

  /** The outcome of measuring row i: kept, or left because not even the final envelope holds it. */
  ghost predicate RowKept(
    query: Query, stream: seq<StreamRow>, i: nat, before: seq<RawRow>, after: seq<RawRow>, budget: Budget, next: Budget,
    kept: bool
  ) {
    if kept then Collected(query, stream, i + 1, after, next)
    else after == before && next == budget && FinalSize(query, stream, i + 1) > query.maximum
  }

  /** The budget after keeping row i, given its final size. */
  function NextBudget(query: Query, values: RawRow, budget: Budget, grown: int): Budget {
    var cursor := CursorOf(query, values);
    var moreSize := MoreBase(query) + (grown - FinalBase(query));
    if cursor.Some? && |CursorItems(cursor.value)| <= query.maximum - moreSize then
      Budget(grown, Continuation(moreSize + |CursorItems(cursor.value)|, cursor.value), false)
    else Budget(grown, budget.last, true)
  }

  /** How the sizes of the next row decide what happens to it. */
  lemma NextRow(query: Query, stream: seq<StreamRow>, i: nat, rows: seq<RawRow>, budget: Budget)
    requires i < |stream| && i < query.limit && Collected(query, stream, i, rows, budget) && !budget.provisional
    ensures |rows| == i
    ensures var grown := budget.finalSize + RowCost(query.encodings, stream, i);
            if grown > query.maximum then RowKept(query, stream, i, rows, rows, budget, budget, false)
            else RowKept(query, stream, i, rows, rows + [Materialized(stream[i].values, query.encodings)],
                         budget, NextBudget(query, stream[i].values, budget, grown), true)
  {
    hide FinalSize, Prefix, RowCost, Materialized, CursorItems, MoreText, FinalBase, MoreBase, CursorOf;
    FinalSizeGrows(query, stream, i);
    PrefixGrows(query.encodings, stream, i);
    var cursor := CursorOf(query, stream[i].values);
    if cursor.Some? {
      MoreSizeFromFinal(query, stream, i + 1, cursor.value);
    }
  }

  /** The page returned once a further row is known to exist. */
  ghost predicate Stops(query: Query, stream: seq<StreamRow>, i: nat, provisional: bool) {
    i < |stream| && (provisional || i == query.limit || FinalSize(query, stream, i + 1) > query.maximum)
  }

  lemma NotFinal(query: Query, stream: seq<StreamRow>, i: nat, rows: seq<RawRow>, budget: Budget)
    requires Collected(query, stream, i, rows, budget) && Stops(query, stream, i, budget.provisional)
    ensures !IsFinalPage(query, stream)
  {
    hide Prefix, FinalSize, Safe, ContinuesAt;
    if FinalSize(query, stream, i + 1) > query.maximum {
      FinalSizeMonotone(query, stream, i + 1, |stream|);
    }
  }

  /** What the collected rows say about the m rows that can be continued. */
  lemma CollectedContinues(query: Query, stream: seq<StreamRow>, i: nat, rows: seq<RawRow>, budget: Budget)
    requires Collected(query, stream, i, rows, budget)
    ensures |rows| == i && (budget.provisional ==> i >= 1)
    ensures var m: nat := if budget.provisional then i - 1 else i;
            && (!budget.provisional ==> rows[..m] == rows) && rows[..m] == Prefix(query.encodings, stream, m)
            && AllSafe(query, stream, m) && ContinuesAt(query, stream, m, budget.last)
            && (budget.provisional ==> !Safe(query, stream, m + 1))
  {
    hide Prefix, FinalSize, CursorAfter, CursorOf, MoreText, Safe, ContinuesAt;
    PrefixLength(query.encodings, stream, i);
    if budget.provisional {
      PrefixGrows(query.encodings, stream, i - 1);
    }
  }

  lemma UnsafeNext(query: Query, stream: seq<StreamRow>, i: nat)
    requires FinalSize(query, stream, i + 1) > query.maximum
    ensures !Safe(query, stream, i + 1)
  {
    hide FinalSize, CursorAfter, MoreText;
  }

  lemma StopsAtPage(query: Query, stream: seq<StreamRow>, i: nat, rows: seq<RawRow>, budget: Budget)
    requires Collected(query, stream, i, rows, budget) && Stops(query, stream, i, budget.provisional)
    ensures |rows| == i && (budget.provisional ==> i >= 1)
    ensures var kept := if budget.provisional then rows[..i - 1] else rows;
            if kept == [] then !PageExists(query, stream)
            else
              && IsPage(query, stream, Page(kept, true, budget.last.cursor, budget.last.moreSize))
              && budget.last.moreSize > 0 && |budget.last.cursor| == |query.columns|
  {
    hide Prefix, FinalSize, Safe, CursorAfter, Collected, IsFinalPage, MoreText;
    NotFinal(query, stream, i, rows, budget);
    CollectedContinues(query, stream, i, rows, budget);
    CollectedLimit(query, stream, i, rows, budget);
    var m: nat := if budget.provisional then i - 1 else i;
    if FinalSize(query, stream, i + 1) > query.maximum {
      UnsafeNext(query, stream, i);
    }
    if m >= 1 {
      MoreTextNonempty(query.envelope, Prefix(query.encodings, stream, m), budget.last.cursor);
      CursorAfterLength(query, stream, m);
    }
  }

  lemma CursorAfterLength(query: Query, stream: seq<StreamRow>, k: nat)
    ensures CursorAfter(query, stream, k).Some? ==> |CursorAfter(query, stream, k).value| == |query.columns|
  {
    hide CursorPrefix;
    if 1 <= k <= |stream| {
      CursorPrefixLength(query, stream[k - 1].values, |query.columns|);
    }
  }

  lemma MoreTextNonempty(envelope: Envelope, rows: seq<RawRow>, cursor: seq<CursorValue>)
    ensures |MoreText(envelope, rows, cursor)| > 0
  {
    hide MoreText;
    MoreParts(envelope, rows, cursor);
  }

  lemma EndsAtPage(query: Query, stream: seq<StreamRow>, rows: seq<RawRow>, budget: Budget)
    requires Collected(query, stream, |stream|, rows, budget)
    ensures IsPage(query, stream, Page(rows, false, [], budget.finalSize))
  {
    hide Safe, ContinuesAt;
    PrefixLength(query.encodings, stream, |stream|);
  }

  /** The first n rows were all readable. */
  ghost predicate AllReadable(query: Query, stream: seq<StreamRow>, n: nat) {
    n <= |stream| && forall j :: 0 <= j < n ==> Readable(query, stream[j])
  }

  lemma NextBudgetParts(query: Query, values: RawRow, budget: Budget, grown: int)
    ensures var cursor := CursorOf(query, values);
            var moreSize := MoreBase(query) + (grown - FinalBase(query));
            NextBudget(query, values, budget, grown) ==
              if cursor.Some? && |CursorItems(cursor.value)| <= query.maximum - moreSize then
                Budget(grown, Continuation(moreSize + |CursorItems(cursor.value)|, cursor.value), false)
              else Budget(grown, budget.last, true)
    ensures PrefixSize(query, values, |query.columns|)
         == if CursorOf(query, values) == None then None else Some(|CursorItems(CursorOf(query, values).value)|)
  {
    hide CursorPrefix, CursorItems, MoreBase, FinalBase;
  }

  /** Measures the continuation of the rows with this one. */
  method MeasureContinuation(query: Query, values: RawRow, budget: Budget, nextFinalSize: int) returns (next: Budget)
    ensures next == NextBudget(query, values, budget, nextFinalSize)
  {
    hide *;
    NextBudgetParts(query, values, budget, nextFinalSize);
    var moreSize: int := MoreBase(query) + (nextFinalSize - FinalBase(query));
    WithinParts(PrefixSize(query, values, |query.columns|), query.maximum - moreSize);
    var cursorSize := EncodedCursorSize(query, values, query.maximum - moreSize);
    if cursorSize == None {
      return Budget(nextFinalSize, budget.last, true);
    }
    var cursor := MaterializeCursor(query, values);
    next := Budget(nextFinalSize, Continuation(moreSize + cursorSize.value, cursor.value), false);
  }

  /** Measures one readable row and keeps it when the final envelope allows. */
  method KeepRow(
    query: Query, ghost stream: seq<StreamRow>, ghost i: nat, row: StreamRow, result: KeysetResult, budget: Budget
  ) returns (kept: bool, next: Budget)
    requires i < |stream| && i < query.limit && row == stream[i] && |row.values| == |query.encodings|
    requires Collected(query, stream, i, result.rows, budget) && !budget.provisional
    modifies result`rows
    ensures RowKept(query, stream, i, old(result.rows), result.rows, budget, next, kept)
  {
    hide *;
    NextRow(query, stream, i, result.rows, budget);
    RowCostParts(query.encodings, stream, i);
    var separator := if |result.rows| != 0 then 1 else 0;
    var digits: int := DecimalDigits(|result.rows|);
    var nextDigits: int := DecimalDigits(|result.rows| + 1);
    var rowCountGrowth := nextDigits - digits;
    var remaining := query.maximum - budget.finalSize - separator - rowCountGrowth;
    var rowSize := EncodedRowSize(row.values, query.encodings, remaining);
    if rowSize == None {
      return false, budget;
    }
    next := MeasureContinuation(query, row.values, budget, budget.finalSize + separator + rowCountGrowth + rowSize.value);
    result.rows := result.rows + [Materialized(row.values, query.encodings)];
    kept := true;
  }

  lemma CollectedLimit(query: Query, stream: seq<StreamRow>, i: nat, rows: seq<RawRow>, budget: Budget)
    requires Collected(query, stream, i, rows, budget)
    ensures |rows| == i <= query.limit && i <= |stream|
    ensures i < |stream| && (budget.provisional || i == query.limit) ==> Stops(query, stream, i, budget.provisional)
  {
    hide Prefix, Safe, FinalSize, ContinuesAt, AllSafe;
    PrefixLength(query.encodings, stream, i);
  }

  lemma KeptMeans(
    query: Query, stream: seq<StreamRow>, i: nat, before: seq<RawRow>, after: seq<RawRow>, budget: Budget, next: Budget,
    kept: bool
  )
    requires i < |stream| && RowKept(query, stream, i, before, after, budget, next, kept)
    ensures kept ==> Collected(query, stream, i + 1, after, next)
    ensures !kept ==> after == before && next == budget && Stops(query, stream, i, budget.provisional)
  {
    hide Collected, FinalSize;
  }

  lemma PageMeansExists(query: Query, stream: seq<StreamRow>, page: Page)
    requires IsPage(query, stream, page)
    ensures PageExists(query, stream)
  {
    hide Prefix, Safe, FinalSize, MoreText, FinalText, CursorAfter;
  }

  lemma StartCollecting(query: Query, stream: seq<StreamRow>)
    requires FinalBase(query) <= query.maximum
    ensures Collected(query, stream, 0, [], Budget(FinalBase(query), Continuation(0, []), false))
  {
    hide Prefix, Safe, FinalText;
    PrefixNone(query.encodings, stream);
  }

  /** Rows are read and kept up to i; then the loop stops, either early or at the end. */
  ghost predicate KeptRows(
    query: Query, stream: seq<StreamRow>, i: nat, rows: seq<RawRow>, budget: Budget, moreObserved: bool,
    error: Option<CollectError>
  ) {
    if error.Some? then !AllReadable(query, stream, |stream|)
    else
      && Collected(query, stream, i, rows, budget) && AllReadable(query, stream, i)
      && (if moreObserved then Stops(query, stream, i, budget.provisional) else i == |stream|)
  }

  lemma KeptRowsBy(query: Query, stream: seq<StreamRow>, i: nat, rows: seq<RawRow>, budget: Budget)
    requires Collected(query, stream, i, rows, budget) && AllReadable(query, stream, i)
    ensures Stops(query, stream, i, budget.provisional) ==> KeptRows(query, stream, i, rows, budget, true, None)
    ensures i == |stream| ==> KeptRows(query, stream, i, rows, budget, false, None)
    ensures forall e: CollectError :: i < |stream| && !Readable(query, stream[i]) ==>
              KeptRows(query, stream, i, rows, budget, false, Some(e))
    ensures i < |stream| && Readable(query, stream[i]) ==>
              |stream[i].values| == |query.encodings| && AllReadable(query, stream, i + 1)
    ensures i <= |stream|
  {
    hide Collected, Stops, KeyCellsValid;
  }

  lemma NothingRead(query: Query, stream: seq<StreamRow>)
    ensures AllReadable(query, stream, 0)
  {
  }

  /** Looks at rows until one is left: whether a further row was observed, and how many were kept. */
  method KeepRows(query: Query, stream: seq<StreamRow>, result: KeysetResult)
    returns (i: nat, budget: Budget, moreObserved: bool, error: Option<CollectError>)
    requires FinalBase(query) <= query.maximum && result.rows == []
    modifies result`rows
    ensures KeptRows(query, stream, i, result.rows, budget, moreObserved, error)
  {
    hide *;
    budget := Budget(FinalBase(query), Continuation(0, []), false);
    StartCollecting(query, stream);
    NothingRead(query, stream);
    i, moreObserved, error := 0, false, None;
    while i < |stream|
      invariant Collected(query, stream, i, result.rows, budget) && AllReadable(query, stream, i)
      invariant i <= |stream|
    {
      CollectedLimit(query, stream, i, result.rows, budget);
      KeptRowsBy(query, stream, i, result.rows, budget);
      if budget.provisional || |result.rows| == query.limit {
        moreObserved := true;
        return;
      }
      if !Readable(query, stream[i]) {
        error := Some(if stream[i].scans then InvalidRow else ExecutionError);
        return;
      }
      ghost var before := result.rows;
      var kept, next := KeepRow(query, stream, i, stream[i], result, budget);
      KeptMeans(query, stream, i, before, result.rows, budget, next, kept);
      if !kept {
        moreObserved := true;
        return;
      }
      budget := next;
      i := i + 1;
    }
    KeptRowsBy(query, stream, i, result.rows, budget);
  }

  /** What the caller learns: a page, early stopping exactly when more rows follow, and why a call fails. */
  ghost predicate Outcome(
    query: Query, stream: seq<StreamRow>, streamFails: bool, page: Page, stoppedEarly: bool, error: Option<CollectError>
  ) {
    && (error == None ==>
          && IsPage(query, stream, page) && stoppedEarly == page.hasMore
          && AllReadable(query, stream, |page.rows|) && (!page.hasMore ==> !streamFails))
    && (error.Some? && !streamFails && AllReadable(query, stream, |stream|) ==> !PageExists(query, stream))
  }

  lemma FieldsOf(result: KeysetResult)
    ensures result.Value() == Page(result.rows, result.hasMore, result.nextCursor, result.resultBytes)
  {
  }

  /** The outcome at each way out of the loop. */
  lemma StopReasons(
    query: Query, stream: seq<StreamRow>, streamFails: bool, i: nat, rows: seq<RawRow>, budget: Budget,
    moreObserved: bool, failed: Option<CollectError>
  )
    requires KeptRows(query, stream, i, rows, budget, moreObserved, failed) && |query.columns| >= 1
    ensures failed.Some? ==> forall page :: Outcome(query, stream, streamFails, page, false, failed)
    ensures failed == None && !moreObserved && streamFails ==>
              forall page :: Outcome(query, stream, streamFails, page, false, Some(ExecutionError))
    ensures failed == None && !moreObserved && !streamFails ==>
              Outcome(query, stream, streamFails, Page(rows, false, [], budget.finalSize), false, None)
    ensures failed == None && moreObserved ==>
              && (budget.provisional ==> |rows| >= 1)
              && var kept := if budget.provisional then rows[..|rows| - 1] else rows;
                 if kept == [] then forall page, e: CollectError :: Outcome(query, stream, streamFails, page, true, Some(e))
                 else
                   && Outcome(query, stream, streamFails, Page(kept, true, budget.last.cursor, budget.last.moreSize), true, None)
                   && budget.last.moreSize > 0 && |budget.last.cursor| >= 1
  {
    hide Collected, Stops, IsPage, PageExists, Readable;
    if failed == None {
      CollectedLimit(query, stream, i, rows, budget);
      if moreObserved {
        StopsAtPage(query, stream, i, rows, budget);
      } else {
        EndsAtPage(query, stream, rows, budget);
      }
    }
  }

  /**
   A successful call returns the stream's page, and stopped early exactly when more rows follow. With
   readable rows it fails exactly when there is no page.
   */
  method CollectKeysetRows(query: Query, stream: seq<StreamRow>, streamFails: bool, result: KeysetResult)
    returns (stoppedEarly: bool, error: Option<CollectError>)
    requires FinalBase(query) <= query.maximum && |query.columns| >= 1
    requires result.Value() == Page([], false, [], 0)
    modifies result
    ensures Outcome(query, stream, streamFails, result.Value(), stoppedEarly, error)
  {
    hide *;
    FieldsOf(result);
    var i, budget, moreObserved, failed := KeepRows(query, stream, result);
    StopReasons(query, stream, streamFails, i, result.rows, budget, moreObserved, failed);
    if failed.Some? {
      FieldsOf(result);
      return false, failed;
    }
    if !moreObserved && streamFails {
      FieldsOf(result);
      return false, Some(ExecutionError);
    }
    if moreObserved {
      if budget.provisional {
        result.rows := result.rows[..|result.rows| - 1];
      }
      if |result.rows| == 0 || budget.last.moreSize == 0 || |budget.last.cursor| == 0 {
        FieldsOf(result);
        return true, Some(ResultTooLarge);
      }
      result.hasMore := true;
      result.nextCursor := budget.last.cursor;
      result.resultBytes := budget.last.moreSize;
    } else {
      result.hasMore := false;
      result.nextCursor := [];
      result.resultBytes := budget.finalSize;
    }
    stoppedEarly, error := moreObserved, None;
    FieldsOf(result);
  }
}
