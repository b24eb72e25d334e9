/**
 collectAggregateRowsWithSpec (internal/adapters/mysql8/aggregate.go): streaming rows into a response
 whose exact JSON size is kept below a maximum, with a provisional row that only fits once the
 response is known to be truncated (`true` is one byte shorter than `false`).
 */
module AggregateCollector {
  import opened Wrappers
  import opened Digits
  import opened JsonText
  import opened StreamedRows

  // ---------------------------------------------------------------- envelope

  /** The response the service marshals for these rows. */
  function ResponseText(envelope: Envelope, rows: seq<RawRow>, truncated: bool): Bytes {
    envelope.head
    + Ascii("\"rows\":[") + JoinedRows(rows)
    + Ascii("],\"row_count\":") + Ascii(Decimal(|rows|))
    + Ascii(",\"truncated\":") + Ascii(if truncated then "true" else "false")
    + envelope.tail
  }

  // ------------------------------------------------------------------ stream

  /** Whether a row's bucket cells are canonical indexes. */
  datatype BucketCheck = BucketCheck(validBuckets: bool)

  type StreamRow = Streamed<BucketCheck>

  datatype Query = Query(
    grouped: bool, limit: nat, checksBuckets: bool, encodings: seq<Encoding>, maxResultBytes: int, envelope: Envelope)

  datatype CollectError = ExecutionError | UpstreamError | ResultTooLarge

  predicate RowsHaveWidth(query: Query, stream: seq<StreamRow>) {
    forall i :: 0 <= i < |stream| ==> |stream[i].values| == |query.encodings|
  }

  /** The exact size of the response with the first k rows. */
  function Size(query: Query, stream: seq<StreamRow>, k: nat, truncated: bool): nat {
    |ResponseText(query.envelope, Prefix(query.encodings, stream, k), truncated)|
  }

  /** The first k rows may be returned: within the limit and, with the right flag, within the maximum. */
  predicate Legal(query: Query, stream: seq<StreamRow>, k: nat) {
    k <= |stream| && k <= query.limit && Size(query, stream, k, k < |stream|) <= query.maxResultBytes
  }

  ghost predicate LargestLegal(query: Query, stream: seq<StreamRow>, k: nat) {
    Legal(query, stream, k) && forall j :: k < j <= |stream| ==> !Legal(query, stream, j)
  }

  // ------------------------------------------------------------------- sizes

  lemma SizeParts(query: Query, stream: seq<StreamRow>, k: nat, truncated: bool)
    ensures Size(query, stream, k, truncated)
         == |query.envelope.head| + |query.envelope.tail| + |JoinedRows(Prefix(query.encodings, stream, k))| + |Decimal(k)|
          + (if truncated then 39 else 40)
  {
    hide JoinedRows, Decimal;
    assert |"\"rows\":["| == 8 && |"],\"row_count\":"| == 14 && |",\"truncated\":"| == 13;
  }

  lemma SizeGrows(query: Query, stream: seq<StreamRow>, k: nat)
    requires k < |stream|
    ensures Size(query, stream, k + 1, false) == Size(query, stream, k, false) + RowCost(query.encodings, stream, k)
    ensures RowCost(query.encodings, stream, k) >= 2
    ensures Size(query, stream, k, true) == Size(query, stream, k, false) - 1
    ensures Size(query, stream, k + 1, true) == Size(query, stream, k + 1, false) - 1
  {
    hide Size, Prefix, JoinedRows, Decimal, JsonRow, Materialized;
    SizeParts(query, stream, k, true);
    SizeParts(query, stream, k, false);
    SizeParts(query, stream, k + 1, true);
    SizeParts(query, stream, k + 1, false);
    DigitsMonotone(k);
    PrefixGrows(query.encodings, stream, k);
    PrefixLength(query.encodings, stream, k);
    JoinedRowsGrow(Prefix(query.encodings, stream, k + 1));
  }

  lemma {:induction false} SizeMonotone(query: Query, stream: seq<StreamRow>, j: nat, k: nat)
    requires j <= k <= |stream|
    ensures Size(query, stream, j, false) <= Size(query, stream, k, false)
    ensures j < |stream| ==> Size(query, stream, j, true) == Size(query, stream, j, false) - 1
    ensures 0 < k ==> Size(query, stream, k, true) == Size(query, stream, k, false) - 1
    decreases k - j
  {
    hide Size, RowCost;
    if j < k {
      SizeGrows(query, stream, j);
      SizeMonotone(query, stream, j + 1, k);
    } else if j < |stream| {
      SizeGrows(query, stream, j);
    } else if 0 < k {
      SizeGrows(query, stream, k - 1);
    }
  }

  // -------------------------------------------------------------------- loop

  /** The result's value: the rows, the accounted size and the flag. */
  datatype Response = Response(rows: seq<RawRow>, resultBytes: int, truncated: bool)

  /** The result the collector fills in place. */
  class AggregateResult {
    var rows: seq<RawRow>
    var resultBytes: int
    var truncated: bool

    constructor (resultBytes: int)
      ensures Value() == Response([], resultBytes, false)
    {
      this.rows, this.resultBytes, this.truncated := [], resultBytes, false;
    }

    ghost function Value(): Response
      reads this
    {
      Response(rows, resultBytes, truncated)
    }
  }

  /** What holds after i rows; `previous` is the size before a provisional row, while there is one. */
  ghost predicate Collected(query: Query, stream: seq<StreamRow>, i: nat, r: Response, previous: Option<int>) {
    var k := |r.rows|;
    && k <= i <= |stream| && r.rows == Prefix(query.encodings, stream, k) && (query.grouped ==> k <= query.limit)
    && r.resultBytes == Size(query, stream, k, r.truncated) <= query.maxResultBytes
    && (r.truncated ==> query.grouped)
    && (if !r.truncated then k == i && previous == None
        else if previous.Some? then
          && k == i >= 1 && previous.value == Size(query, stream, k - 1, false)
          && Size(query, stream, k, false) > query.maxResultBytes
        else k < i && (k == query.limit || Size(query, stream, k + 1, false) > query.maxResultBytes + 1))
  }

  /** A row after a truncated response changes nothing, and confirms a provisional row. */
  lemma AlreadyTruncated(query: Query, stream: seq<StreamRow>, i: nat, r: Response, previous: Option<int>)
    requires i < |stream| && Collected(query, stream, i, r, previous) && r.truncated
    ensures Collected(query, stream, i + 1, r, None)
  {
    hide Size, Prefix, RowCost;
    if previous.Some? {
      SizeGrows(query, stream, i);
    }
  }

  lemma LimitReached(query: Query, stream: seq<StreamRow>, i: nat, r: Response)
    requires i < |stream| && Collected(query, stream, i, r, None) && !r.truncated
    requires query.grouped && |r.rows| == query.limit
    ensures r.resultBytes > 0
    ensures Collected(query, stream, i + 1, Response(r.rows, r.resultBytes - 1, true), None)
  {
    hide Size, Prefix, RowCost;
    SizeGrows(query, stream, i);
    SizeParts(query, stream, i, false);
  }

  /** How the size of the next row decides what happens to it. */
  lemma NextRow(query: Query, stream: seq<StreamRow>, i: nat, r: Response)
    requires i < |stream| && Collected(query, stream, i, r, None) && !r.truncated
    requires query.grouped ==> |r.rows| < query.limit
    ensures r.resultBytes > 0 && |r.rows| == i
    ensures r.resultBytes + RowCost(query.encodings, stream, i) == Size(query, stream, i + 1, false)
    ensures var grown := r.resultBytes + RowCost(query.encodings, stream, i);
            var rows := r.rows + [Materialized(stream[i].values, query.encodings)];
            if grown <= query.maxResultBytes then Collected(query, stream, i + 1, Response(rows, grown, false), None)
            else if query.grouped && grown == query.maxResultBytes + 1 then
              Collected(query, stream, i + 1, Response(rows, grown - 1, true), Some(r.resultBytes))
            else query.grouped ==> Collected(query, stream, i + 1, Response(r.rows, r.resultBytes - 1, true), None)
  {
    hide Size, Prefix, RowCost, Materialized;
    SizeGrows(query, stream, i);
    SizeParts(query, stream, i, false);
    PrefixGrows(query.encodings, stream, i);
  }

  /** What a successful call promises about the result. */
  ghost predicate Promised(query: Query, stream: seq<StreamRow>, r: Response) {
    && |r.rows| <= |stream| && r.rows == Prefix(query.encodings, stream, |r.rows|)
    && r.truncated == (|r.rows| < |stream|)
    && r.resultBytes == |ResponseText(query.envelope, r.rows, r.truncated)| <= query.maxResultBytes
    && (if query.grouped then LargestLegal(query, stream, |r.rows|) else |stream| == 1)
  }

  /** At the end of the stream the collected prefix is the largest legal one. */
  lemma CollectedIsPromised(query: Query, stream: seq<StreamRow>, r: Response)
    requires Collected(query, stream, |stream|, r, None) && (query.grouped || |r.rows| == 1)
    ensures Promised(query, stream, r)
  {
    hide Size, Prefix;
    if query.grouped {
      var k := |r.rows|;
      assert r.resultBytes == |ResponseText(query.envelope, r.rows, r.truncated)| by {
        SizeIsText(query, stream, r);
      }
      forall j | k < j <= |stream| ensures !Legal(query, stream, j) {
        SizeMonotone(query, stream, k + 1, j);
      }
    } else {
      SizeIsText(query, stream, r);
    }
  }

  lemma SizeIsText(query: Query, stream: seq<StreamRow>, r: Response)
    requires r.rows == Prefix(query.encodings, stream, |r.rows|)
    ensures Size(query, stream, |r.rows|, r.truncated) == |ResponseText(query.envelope, r.rows, r.truncated)|
  {
  }

  /** A provisional row with no successor is dropped, and what remains is the largest legal prefix. */
  lemma ProvisionalDropped(query: Query, stream: seq<StreamRow>, r: Response, previous: int)
    requires Collected(query, stream, |stream|, r, Some(previous))
    ensures |r.rows| >= 1 && r.truncated && query.grouped
    ensures Promised(query, stream, Response(r.rows[..|r.rows| - 1], previous - 1, true))
  {
    hide Size, Prefix, RowCost, ResponseText;
    var n := |stream|;
    var kept := Response(r.rows[..n - 1], previous - 1, true);
    PrefixGrows(query.encodings, stream, n - 1);
    SizeGrows(query, stream, n - 1);
    SizeIsText(query, stream, kept);
  }

  /** Every row the collector must look at scans, and passes the bucket checks when there are any. */
  predicate Readable(query: Query, row: StreamRow) {
    row.scans && (query.checksBuckets ==> row.checks.validBuckets)
  }

  predicate AllReadable(query: Query, rows: seq<StreamRow>) {
    forall i :: 0 <= i < |rows| ==> Readable(query, rows[i])
  }

  /** What one turn of the loop promises. */
  ghost predicate RowTaken(
    query: Query, stream: seq<StreamRow>, i: nat, before: Response, after: Response, previous: Option<int>,
    error: Option<CollectError>
  ) {
    && i < |stream|
    && (error == None ==>
          && Collected(query, stream, i + 1, after, previous)
          && (query.checksBuckets || |after.rows| > |before.rows| ==> Readable(query, stream[i]))
          && |before.rows| <= |after.rows| <= i + 1 && (|after.rows| > |before.rows| ==> |before.rows| == i))
    && (error.Some? && Readable(query, stream[i]) ==>
          !query.grouped && Size(query, stream, i + 1, false) > query.maxResultBytes)
  }

  /** Introduces RowTaken from its parts. */
  lemma RowTakenBy(query: Query, stream: seq<StreamRow>, i: nat, before: Response)
    requires i < |stream| && Readable(query, stream[i]) && |before.rows| == i
    ensures forall after, previous ::
              Collected(query, stream, i + 1, after, previous) && i <= |after.rows| <= i + 1
              ==> RowTaken(query, stream, i, before, after, previous, None)
    ensures !query.grouped && Size(query, stream, i + 1, false) > query.maxResultBytes ==>
              forall after, previous, e: CollectError :: RowTaken(query, stream, i, before, after, previous, Some(e))
  {
    hide Collected, Size, Readable;
  }

  lemma FieldsOf(result: AggregateResult)
    ensures result.Value() == Response(result.rows, result.resultBytes, result.truncated)
  {
  }

  method DecideRow(query: Query, ghost stream: seq<StreamRow>, ghost i: nat, row: StreamRow, result: AggregateResult)
    returns (previous: Option<int>, error: Option<CollectError>)
    requires i < |stream| && row == stream[i] && |row.values| == |query.encodings| && Readable(query, row)
    requires Collected(query, stream, i, result.Value(), None) && !result.truncated
    requires query.grouped ==> |result.rows| < query.limit
    modifies result
    ensures RowTaken(query, stream, i, old(result.Value()), result.Value(), previous, error)
  {
    hide *;
    FieldsOf(result);
    ghost var before := result.Value();
    NextRow(query, stream, i, before);
    RowCostParts(query.encodings, stream, i);
    RowTakenBy(query, stream, i, before);
    previous, error := None, None;
    var separatorBytes := if |result.rows| != 0 then 1 else 0;
    var digits: int := DecimalDigits(|result.rows|);
    var nextDigits: int := DecimalDigits(|result.rows| + 1);
    var rowCountGrowth := nextDigits - digits;
    var remaining := query.maxResultBytes - result.resultBytes - separatorBytes - rowCountGrowth;
    var rowBytes := EncodedRowSize(row.values, query.encodings, remaining);
    if rowBytes.Some? {
      result.resultBytes := result.resultBytes + separatorBytes + rowCountGrowth + rowBytes.value;
      result.rows := result.rows + [Materialized(row.values, query.encodings)];
      FieldsOf(result);
      return;
    }
    if !query.grouped {
      error := Some(ResultTooLarge);
      return;
    }
    var rowBytesWithTruncation := EncodedRowSize(row.values, query.encodings, remaining + 1);
    result.truncated := true;
    if rowBytesWithTruncation.Some? {
      previous := Some(result.resultBytes);
      result.resultBytes := result.resultBytes - 1;
      result.resultBytes := result.resultBytes + separatorBytes + rowCountGrowth + rowBytesWithTruncation.value;
      result.rows := result.rows + [Materialized(row.values, query.encodings)];
      FieldsOf(result);
      return;
    }
    if result.resultBytes > 0 {
      result.resultBytes := result.resultBytes - 1;
    }
    FieldsOf(result);
  }

  /** Rows that are not kept are scanned only to check their buckets. */
  method TakeRow(
    query: Query, ghost stream: seq<StreamRow>, ghost i: nat, row: StreamRow, result: AggregateResult,
    provisional: Option<int>
  ) returns (previous: Option<int>, error: Option<CollectError>)
    requires i < |stream| && row == stream[i] && |row.values| == |query.encodings|
    requires Collected(query, stream, i, result.Value(), provisional)
    modifies result
    ensures RowTaken(query, stream, i, old(result.Value()), result.Value(), previous, error)
  {
    previous, error := None, None;
    var keeps := provisional == None && !result.truncated && !(query.grouped && |result.rows| == query.limit);
    if (keeps || query.checksBuckets) && !Readable(query, row) {
      error := Some(if row.scans then UpstreamError else ExecutionError);
      return;
    }
    if keeps {
      previous, error := DecideRow(query, stream, i, row, result);
    } else if provisional.Some? || result.truncated {
      AlreadyTruncated(query, stream, i, result.Value(), provisional);
    } else {
      LimitReached(query, stream, i, result.Value());
      hide Collected;
      result.truncated := true;
      if result.resultBytes > 0 {
        result.resultBytes := result.resultBytes - 1;
      }
    }
  }

  /** The rows read so far: all of them when buckets are checked, and otherwise those that were kept. */
  ghost predicate ReadSoFar(query: Query, stream: seq<StreamRow>, i: nat, kept: nat) {
    && kept <= i <= |stream|
    && forall j :: 0 <= j < (if query.checksBuckets then i else kept) ==> Readable(query, stream[j])
  }

  lemma ReadOneMore(
    query: Query, stream: seq<StreamRow>, i: nat, before: Response, after: Response, previous: Option<int>
  )
    requires ReadSoFar(query, stream, i, |before.rows|) && RowTaken(query, stream, i, before, after, previous, None)
    ensures ReadSoFar(query, stream, i + 1, |after.rows|)
  {
    hide Collected, Size, Readable;
  }

  /** A run that must succeed: nothing fails to read, and a scalar query gets one row that fits. */
  ghost predicate MustSucceed(query: Query, stream: seq<StreamRow>, streamFails: bool) {
    && !streamFails && AllReadable(query, stream)
    && (!query.grouped ==> |stream| == 1 && Size(query, stream, 1, false) <= query.maxResultBytes)
  }

  /**
   A grouped query returns the largest legal prefix, its exact size, and truncated iff a row was
   omitted; a scalar query succeeds exactly on one readable row that fits.
   */
  method CollectAggregateRows(query: Query, stream: seq<StreamRow>, streamFails: bool, result: AggregateResult)
    returns (error: Option<CollectError>)
    requires RowsHaveWidth(query, stream)
    requires result.Value() == Response([], |ResponseText(query.envelope, [], false)|, false)
    requires result.resultBytes <= query.maxResultBytes
    modifies result
    ensures error == None ==> Promised(query, stream, result.Value())
    ensures error == None ==> !streamFails && ReadSoFar(query, stream, |stream|, |result.rows|)
    ensures MustSucceed(query, stream, streamFails) ==> error == None
  {
    hide Size, Prefix;
    var provisional: Option<int> := None;
    PrefixNone(query.encodings, stream);
    SizeIsText(query, stream, result.Value());
    assert Collected(query, stream, 0, result.Value(), None);
    for i := 0 to |stream|
      invariant Collected(query, stream, i, result.Value(), provisional)
      invariant ReadSoFar(query, stream, i, |result.rows|)
    {
      hide Collected, Promised, AllReadable, ReadSoFar, Size, Readable;
      ghost var before := result.Value();
      provisional, error := TakeRow(query, stream, i, stream[i], result, provisional);
      if error.Some? {
        MustNotFail(query, stream, streamFails, i, before, result.Value(), provisional, error);
        return;
      }
      ReadOneMore(query, stream, i, before, result.Value(), provisional);
    }
    if streamFails {
      return Some(ExecutionError);
    }
    hide Size, Readable, AllReadable, Prefix;
    if provisional.Some? {
      ProvisionalDropped(query, stream, result.Value(), provisional.value);
      ReadFewer(query, stream, |result.rows|);
      result.rows := result.rows[..|result.rows| - 1];
      result.resultBytes := provisional.value - 1;
      return None;
    }
    if !query.grouped {
      if |result.rows| != 1 {
        return Some(UpstreamError);
      }
      result.truncated := false;
    }
    CollectedIsPromised(query, stream, result.Value());
    error := None;
  }

  lemma ReadFewer(query: Query, stream: seq<StreamRow>, kept: nat)
    requires kept >= 1 && ReadSoFar(query, stream, |stream|, kept)
    ensures ReadSoFar(query, stream, |stream|, kept - 1)
  {
    hide Readable;
  }

  lemma MustNotFail(
    query: Query, stream: seq<StreamRow>, streamFails: bool, i: nat, before: Response, after: Response,
    previous: Option<int>, error: Option<CollectError>
  )
    requires RowTaken(query, stream, i, before, after, previous, error) && error.Some?
    ensures !MustSucceed(query, stream, streamFails)
  {
    hide Size, Readable, Collected;
  }
}
