/** What the collectors of a result set share: the rows read so far and what one more row adds to a response. */
module StreamedRows {
  import opened Digits
  import opened JsonText

  /** The response's bytes before the rows and after what follows them. */
  datatype Envelope = Envelope(head: Bytes, tail: Bytes)

  /** One row of the result set: whether it scans, what a collector's checks say about it, its cells. */
  datatype Streamed<C> = Streamed(scans: bool, checks: C, values: RawRow)

  /** The first k rows of the stream, as the result holds them. */
  function Prefix<C>(encodings: seq<Encoding>, stream: seq<Streamed<C>>, k: nat): (rows: seq<RawRow>)
    ensures |rows| == k
  {
    seq(k, i requires 0 <= i < k => if i < |stream| then Materialized(stream[i].values, encodings) else [])
  }

  lemma PrefixGrows<C>(encodings: seq<Encoding>, stream: seq<Streamed<C>>, k: nat)
    requires k < |stream|
    ensures Prefix(encodings, stream, k + 1) == Prefix(encodings, stream, k) + [Materialized(stream[k].values, encodings)]
    ensures Prefix(encodings, stream, k + 1)[..k] == Prefix(encodings, stream, k)
    ensures |Prefix(encodings, stream, k)| == k
  {
    hide Materialized;
  }

  lemma PrefixNone<C>(encodings: seq<Encoding>, stream: seq<Streamed<C>>)
    ensures Prefix(encodings, stream, 0) == []
  {
  }

  lemma PrefixLength<C>(encodings: seq<Encoding>, stream: seq<Streamed<C>>, k: nat)
    ensures |Prefix(encodings, stream, k)| == k
  {
  }

  /** The JSON of one more row, with its separator and the growth of row_count. */
  function RowCost<C>(encodings: seq<Encoding>, stream: seq<Streamed<C>>, k: nat): int
    requires k < |stream|
  {
    (if k == 0 then 0 else 1) + (|Decimal(k + 1)| - |Decimal(k)|) + |JsonRow(Materialized(stream[k].values, encodings))|
  }

  lemma RowCostParts<C>(encodings: seq<Encoding>, stream: seq<Streamed<C>>, i: nat)
    requires i < |stream|
    ensures RowCost(encodings, stream, i) == (if i == 0 then 0 else 1) + (|Decimal(i + 1)| - |Decimal(i)|)
                                           + |JsonRow(Materialized(stream[i].values, encodings))|
  {
    hide Decimal, JsonRow, Materialized;
  }
}
