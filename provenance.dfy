/**
 * The `_metadata` value scripts/batch_loader.py attaches to every cleansed
 * record before insertion, with the two strings it builds: the chunk's
 * `"{start_row}-{end_row}"` range and the default batch id of a full load,
 * `"full_" + strftime('%Y%m%d_%H%M%S')`.
 */
module Provenance {
  import opened Wrappers
  import opened Records

  /** A wall-clock reading, to the second. */
  datatype DateTime = DateTime(year: nat, month: nat, day: nat, hour: nat, minute: nat, second: nat)

  /** The readings `datetime.now()` can give that `%Y` prints with four digits. */
  predicate ValidDateTime(t: DateTime) {
    1000 <= t.year <= 9999 && 1 <= t.month <= 12 && 1 <= t.day <= 31 &&
    t.hour <= 23 && t.minute <= 59 && t.second <= 59
  }

  /** `_metadata`; `sourceRows` is present for chunk loads only. */
  datatype Metadata = Metadata(ingestedAt: DateTime, batchId: string, sourceRows: Option<string>)

  /** A record as it is sent to the store: the row's columns plus `_metadata`. */
  datatype Document = Document(row: Row, metadata: Metadata)

  // ---------------------------------------------------------------------------
  // Decimal digits

  predicate IsDigit(c: char) {
    '0' <= c <= '9'
  }

  predicate AllDigits(s: string) {
    forall i :: 0 <= i < |s| ==> IsDigit(s[i])
  }

  function DigitChar(d: nat): char
    requires d < 10
  {
    ['0', '1', '2', '3', '4', '5', '6', '7', '8', '9'][d]
  }

  function DigitValue(c: char): nat
    requires IsDigit(c)
  {
    (c as int - '0' as int) as nat
  }

  /** The number a string of decimal digits denotes. */
  function DigitsValue(s: string): nat
    requires AllDigits(s)
  {
    if s == [] then 0
    else DigitsValue(s[..|s| - 1]) * 10 + DigitValue(s[|s| - 1])
  }

  function Pow10(w: nat): nat {
    if w == 0 then 1 else 10 * Pow10(w - 1)
  }

  /** `n` in decimal without leading zeros, as an f-string prints an int. */
  function NatToString(n: nat): (s: string)
    ensures |s| >= 1 && AllDigits(s)
    ensures DigitsValue(s) == n
  {
    if n < 10 then [DigitChar(n)]
    else
      var s := NatToString(n / 10) + [DigitChar(n % 10)];
      assert s[..|s| - 1] == NatToString(n / 10);
      s
  }

  /** `n` in exactly `width` decimal digits, zero-padded, as `%m`, `%d`, `%H`, ... print. */
  function PaddedDigits(n: nat, width: nat): (s: string)
    requires n < Pow10(width)
    ensures |s| == width && AllDigits(s)
    ensures DigitsValue(s) == n
  {
    if width == 0 then []
    else
      var s := PaddedDigits(n / 10, width - 1) + [DigitChar(n % 10)];
      assert s[..|s| - 1] == PaddedDigits(n / 10, width - 1);
      s
  }

  /** The position of the first `c` in `s`, if any. */
  function IndexOf(s: string, c: char): (r: Option<nat>)
    ensures r.Some? ==> r.value < |s| && s[r.value] == c && c !in s[..r.value]
    ensures r.None? ==> c !in s
  {
    if s == [] then None
    else if s[0] == c then Some(0)
    else
      match IndexOf(s[1..], c)
      case None => None
      case Some(i) =>
        assert s[..i + 1] == [s[0]] + s[1..][..i];
        Some(i + 1)
  }

  // ---------------------------------------------------------------------------
  // source_rows

  /** `f'{start_row}-{end_row}'`. */
  function SourceRows(startRow: nat, endRow: nat): string {
    NatToString(startRow) + "-" + NatToString(endRow)
  }

  /** Reads a `"{start}-{end}"` string back. */
  function ParseSourceRows(s: string): Option<(nat, nat)> {
    match IndexOf(s, '-')
    case None => None
    case Some(i) =>
      if AllDigits(s[..i]) && AllDigits(s[i + 1..]) then Some((DigitsValue(s[..i]), DigitsValue(s[i + 1..])))
      else None
  }

  /** The range string determines the range: distinct chunks are tagged differently. */
  lemma SourceRowsRoundTrip(startRow: nat, endRow: nat)
    ensures ParseSourceRows(SourceRows(startRow, endRow)) == Some((startRow, endRow))
  {
    var a, b := NatToString(startRow), NatToString(endRow);
    var s := a + "-" + b;
    assert '-' !in a by {
      forall i | 0 <= i < |a| ensures a[i] != '-' { assert IsDigit(a[i]); }
    }
    assert s[..|a|] == a;
    assert s[|a|] == '-';
    assert s[|a| + 1..] == b;
  }

  // ---------------------------------------------------------------------------
  // The default batch id of a full load

  /** `f"full_{now.strftime('%Y%m%d_%H%M%S')}"`. */
  function DefaultBatchId(t: DateTime): string
    requires ValidDateTime(t)
  {
    "full_" + PaddedDigits(t.year, 4) + PaddedDigits(t.month, 2) + PaddedDigits(t.day, 2)
    + "_" + PaddedDigits(t.hour, 2) + PaddedDigits(t.minute, 2) + PaddedDigits(t.second, 2)
  }

  /** Reads the time back out of a default batch id. */
  function ParseDefaultBatchId(s: string): Option<DateTime> {
    if |s| == 20 && s[..5] == "full_" && s[13] == '_'
       && AllDigits(s[5..9]) && AllDigits(s[9..11]) && AllDigits(s[11..13])
       && AllDigits(s[14..16]) && AllDigits(s[16..18]) && AllDigits(s[18..20])
    then
      Some(DateTime(DigitsValue(s[5..9]), DigitsValue(s[9..11]), DigitsValue(s[11..13]),
                    DigitsValue(s[14..16]), DigitsValue(s[16..18]), DigitsValue(s[18..20])))
    else None
  }

  /**
   * A default batch id is 20 characters, `full_` and then the time with
   * second resolution, from which the time can be read back: two full loads
   * started in different seconds get different ids.
   */
  lemma DefaultBatchIdRoundTrip(t: DateTime)
    requires ValidDateTime(t)
    ensures |DefaultBatchId(t)| == 20 && DefaultBatchId(t)[..5] == "full_"
    ensures ParseDefaultBatchId(DefaultBatchId(t)) == Some(t)
  {
    var y, mo, d := PaddedDigits(t.year, 4), PaddedDigits(t.month, 2), PaddedDigits(t.day, 2);
    var h, mi, sec := PaddedDigits(t.hour, 2), PaddedDigits(t.minute, 2), PaddedDigits(t.second, 2);
    var s := DefaultBatchId(t);
    var date, time := y + mo + d, h + mi + sec;
    assert s == "full_" + date + "_" + time;
    assert s[..5] == "full_";
    assert s[5..13] == date && s[14..] == time && s[13] == '_';
    assert date[..4] == y && date[4..6] == mo && date[6..] == d;
    assert time[..2] == h && time[2..4] == mi && time[4..] == sec;
    assert s[5..9] == y && s[9..11] == mo && s[11..13] == d;
    assert s[14..16] == h && s[16..18] == mi && s[18..20] == sec;
  }

  /** `batch_id or <default>`: an absent or empty id is replaced by the default. */
  function EffectiveBatchId(given: Option<string>, startedAt: DateTime): string
    requires ValidDateTime(startedAt)
  {
    if given.Some? && given.value != "" then given.value else DefaultBatchId(startedAt)
  }

  /** The effective batch id is never empty; a caller's non-empty id is kept as given. */
  lemma EffectiveBatchIdChoice(given: Option<string>, startedAt: DateTime)
    requires ValidDateTime(startedAt)
    ensures EffectiveBatchId(given, startedAt) != ""
    ensures given.Some? && given.value != "" ==> EffectiveBatchId(given, startedAt) == given.value
    ensures given.None? || given.value == "" ==>
              ParseDefaultBatchId(EffectiveBatchId(given, startedAt)) == Some(startedAt)
  {
    DefaultBatchIdRoundTrip(startedAt);
  }

  // ---------------------------------------------------------------------------
  // Attaching _metadata

  /** The name of the column the metadata is stored under. */
  const MetadataColumn: string := "_metadata"

  /**
   * `df['_metadata'] = df.apply(lambda _: {...}, axis=1)`: every row gets its
   * own metadata value, replacing any `_metadata` cell the file already had;
   * `clock(k)` is what `datetime.now()` returned while the lambda ran for row `k`.
   */
  function Annotate(rows: seq<Row>, batchId: string, sourceRows: Option<string>, clock: nat -> DateTime): seq<Document> {
    seq(|rows|, k requires 0 <= k < |rows| =>
      Document(rows[k].(rest := rows[k].rest - {MetadataColumn}), Metadata(clock(k), batchId, sourceRows)))
  }

  /** The rows of a sequence of documents, metadata dropped. */
  function RowsOf(docs: seq<Document>): (rows: seq<Row>)
    ensures |rows| == |docs|
  {
    if docs == [] then [] else RowsOf(docs[..|docs| - 1]) + [docs[|docs| - 1].row]
  }

  lemma {:induction false} RowsOfAt(docs: seq<Document>, k: nat)
    requires k < |docs|
    ensures RowsOf(docs)[k] == docs[k].row
    decreases |docs|
  {
    if k < |docs| - 1 {
      RowsOfAt(docs[..|docs| - 1], k);
    }
  }

  /**
   * Annotation keeps every row's key and every other column as it was, and
   * only an old `_metadata` cell is lost (the new metadata replaces it); a
   * file without that column keeps its rows whole. Every document of one call
   * carries the same batch id and range string (the ingestion time is per row
   * and may differ).
   */
  lemma AnnotateKeepsRows(rows: seq<Row>, batchId: string, sourceRows: Option<string>, clock: nat -> DateTime)
    ensures var docs := Annotate(rows, batchId, sourceRows, clock);
            |RowsOf(docs)| == |rows| &&
            forall k :: 0 <= k < |rows| ==>
              RowsOf(docs)[k].ts == rows[k].ts && RowsOf(docs)[k].device == rows[k].device &&
              MetadataColumn !in RowsOf(docs)[k].rest &&
              (forall c :: c in rows[k].rest && c != MetadataColumn ==>
                 c in RowsOf(docs)[k].rest && RowsOf(docs)[k].rest[c] == rows[k].rest[c]) &&
              (forall c :: c in RowsOf(docs)[k].rest ==> c in rows[k].rest)
    ensures (forall k :: 0 <= k < |rows| ==> MetadataColumn !in rows[k].rest) ==>
              RowsOf(Annotate(rows, batchId, sourceRows, clock)) == rows
    ensures forall d :: d in Annotate(rows, batchId, sourceRows, clock) ==>
              d.metadata.batchId == batchId && d.metadata.sourceRows == sourceRows
  {
    var docs := Annotate(rows, batchId, sourceRows, clock);
    forall k | 0 <= k < |rows| ensures RowsOf(docs)[k] == docs[k].row {
      RowsOfAt(docs, k);
    }
    if forall k :: 0 <= k < |rows| ==> MetadataColumn !in rows[k].rest {
      forall k | 0 <= k < |rows| ensures RowsOf(docs)[k] == rows[k] {
        assert rows[k].rest - {MetadataColumn} == rows[k].rest;
      }
    }
  }

  /** An old `_metadata` cell does not survive annotation: the stale value is replaced. */
  lemma StaleMetadataReplacedExample(r: Row, clock: nat -> DateTime)
    requires r.rest == map[MetadataColumn := Some(Text("stale"))]
    ensures var d := Annotate([r], "b", None, clock)[0];
            MetadataColumn !in d.row.rest && d.metadata == Metadata(clock(0), "b", None)
  {
  }
}
