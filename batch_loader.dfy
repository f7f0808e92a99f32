/**
 * `BatchLoader.load_csv_chunk` and `BatchLoader.load_full_csv` of
 * scripts/batch_loader.py: read rows, cleanse them with the loader's one
 * cumulative cleaner, attach `_metadata`, insert the documents in consecutive
 * sub-batches of at most `batch_size`, and report statistics.
 *
 * The store is an oracle: `store(k, batch)` is what `insert_many(batch,
 * ordered=False)` reported for sub-batch number `k`, either the inserted ids
 * (by count) or a `BulkWriteError` whose details may carry `nInserted`.
 */
module BatchLoading {
  import opened Wrappers
  import opened Records
  import opened DataCleaning
  import opened CsvSource
  import opened Provenance

  /** The constructor's default `batch_size`. */
  const DefaultBatchSize: nat := 1000

  /** What one `insert_many(batch, ordered=False)` call reports. */
  datatype InsertOutcome =
    | Inserted(insertedIds: nat)
    | BulkWriteError(nInserted: Option<nat>)

  /** The count the loop adds: `len(result.inserted_ids)`, or `e.details.get('nInserted', 0)`. */
  function Reported(outcome: InsertOutcome): nat {
    match outcome
    case Inserted(ids) => ids
    case BulkWriteError(n) => n.GetOr(0)
  }

  type Store = (nat, seq<Document>) -> InsertOutcome

  /** A store that never claims to have inserted more documents than it was sent. */
  ghost predicate ReportsAtMostSent(store: Store) {
    forall k, batch :: Reported(store(k, batch)) <= |batch|
  }

  // ---------------------------------------------------------------------------
  // Sub-batches

  /** `xs` cut into consecutive pieces of `size`, the last one possibly shorter. */
  function SubBatches<T>(xs: seq<T>, size: nat): seq<seq<T>>
    requires size > 0
    decreases |xs|
  {
    if xs == [] then []
    else if |xs| <= size then [xs]
    else [xs[..size]] + SubBatches(xs[size..], size)
  }

  function Concat<T>(bs: seq<seq<T>>): seq<T> {
    if bs == [] then [] else bs[0] + Concat(bs[1..])
  }

  /**
   * The sub-batches cover the records exactly, in order, each holding at
   * least one and at most `size` records.
   */
  lemma {:induction false} SubBatchesCover<T>(xs: seq<T>, size: nat)
    requires size > 0
    ensures Concat(SubBatches(xs, size)) == xs
    ensures forall b :: b in SubBatches(xs, size) ==> 0 < |b| <= size
    decreases |xs|
  {
    if |xs| > size {
      var rest := xs[size..];
      SubBatchesCover(rest, size);
      assert xs == xs[..size] + rest;
    }
  }

  /** `q` is the least count of `size`-sized pieces that holds `n` items exactly when it is `ceil(n / size)`. */
  lemma CeilDivision(n: nat, size: nat, q: nat)
    requires size > 0
    requires n <= q * size && (q == 0 || (q - 1) * size < n)
    ensures q == (n + size - 1) / size
  {
    var d, r := (n + size - 1) / size, (n + size - 1) % size;
    assert n + size - 1 == d * size + r && 0 <= r < size;
    if q < d {
      assert q * size <= (d - 1) * size by { MultiplyMonotonic(q, d - 1, size); }
      assert false;
    } else if q > d {
      assert false;
    }
  }

  lemma MultiplyMonotonic(a: nat, b: nat, c: nat)
    requires a <= b
    ensures a * c <= b * c
  {
  }

  /** There are `ceil(|xs| / size)` sub-batches. */
  lemma SubBatchCount<T>(xs: seq<T>, size: nat)
    requires size > 0
    ensures |SubBatches(xs, size)| == (|xs| + size - 1) / size
  {
    SubBatchBounds(xs, size);
    CeilDivision(|xs|, size, |SubBatches(xs, size)|);
  }

  lemma {:induction false} SubBatchBounds<T>(xs: seq<T>, size: nat)
    requires size > 0
    ensures |xs| <= |SubBatches(xs, size)| * size
    ensures |SubBatches(xs, size)| == 0 || (|SubBatches(xs, size)| - 1) * size < |xs|
    decreases |xs|
  {
    if |xs| > size {
      var q := |SubBatches(xs[size..], size)|;
      SubBatchBounds(xs[size..], size);
      assert (q + 1) * size == q * size + size;
    }
  }

  /**
   * Sub-batch `k` exists exactly when `k * size` is a valid index, and it is
   * the slice `records[i:i + size]` that the loop takes at `i = k * size`.
   */
  lemma {:induction false} SubBatchAt<T>(xs: seq<T>, size: nat, k: nat)
    requires size > 0
    ensures k < |SubBatches(xs, size)| <==> k * size < |xs|
    ensures k < |SubBatches(xs, size)| ==>
              SubBatches(xs, size)[k] == xs[k * size..Min(k * size + size, |xs|)]
    decreases |xs|
  {
    if |xs| > size && k > 0 {
      var rest := xs[size..];
      SubBatchAt(rest, size, k - 1);
      assert (k - 1) * size + size == k * size;
      if k * size < |xs| {
        assert rest[(k - 1) * size..Min((k - 1) * size + size, |rest|)]
            == xs[k * size..Min(k * size + size, |xs|)];
      }
    } else if k > 0 {
      assert k * size >= size;
    }
  }

  /** What the store reports for each sub-batch, in order. */
  function Outcomes(bs: seq<seq<Document>>, store: Store): (outs: seq<InsertOutcome>)
    ensures |outs| == |bs|
  {
    seq(|bs|, k requires 0 <= k < |bs| => store(k, bs[k]))
  }

  /** The sum of the counts reported for `outcomes`. */
  function TotalReported(outcomes: seq<InsertOutcome>): nat {
    if outcomes == [] then 0
    else TotalReported(outcomes[..|outcomes| - 1]) + Reported(outcomes[|outcomes| - 1])
  }

  /** How many of the documents sent the store did not report as inserted. */
  function Shortfall(bs: seq<seq<Document>>, outcomes: seq<InsertOutcome>): int
    requires |bs| == |outcomes|
  {
    if bs == [] then 0
    else Shortfall(bs[..|bs| - 1], outcomes[..|bs| - 1]) + (|bs[|bs| - 1]| - Reported(outcomes[|bs| - 1]))
  }

  function TotalSize(bs: seq<seq<Document>>): nat {
    if bs == [] then 0 else TotalSize(bs[..|bs| - 1]) + |bs[|bs| - 1]|
  }

  lemma {:induction false} TotalSizeConcat(bs: seq<seq<Document>>)
    ensures TotalSize(bs) == |Concat(bs)|
    decreases |bs|
  {
    if bs != [] {
      var init, last := bs[..|bs| - 1], bs[|bs| - 1];
      assert bs == init + [last];
      TotalSizeConcat(init);
      ConcatAppend(init, last);
    }
  }

  lemma {:induction false} ConcatAppend<T>(bs: seq<seq<T>>, b: seq<T>)
    ensures Concat(bs + [b]) == Concat(bs) + b
    decreases |bs|
  {
    if bs != [] {
      assert (bs + [b])[1..] == bs[1..] + [b];
      ConcatAppend(bs[1..], b);
    }
  }

  /**
   * The accounting identity behind `InsertedAtMostRecords`: every document
   * sent is either reported inserted or part of the shortfall, and with a
   * store that never over-reports the shortfall is not negative.
   */
  lemma {:induction false} InsertedPlusShortfall(bs: seq<seq<Document>>, store: Store)
    ensures TotalReported(Outcomes(bs, store)) + Shortfall(bs, Outcomes(bs, store)) == TotalSize(bs)
    ensures ReportsAtMostSent(store) ==> Shortfall(bs, Outcomes(bs, store)) >= 0
    decreases |bs|
  {
    if bs != [] {
      var init := bs[..|bs| - 1];
      var outs := Outcomes(bs, store);
      assert outs[..|bs| - 1] == Outcomes(init, store);
      InsertedPlusShortfall(init, store);
    }
  }

  /**
   * A failed sub-batch costs the total exactly what it failed to insert and
   * nothing more: two stores that agree on every other sub-batch, one of
   * which reports `f` fewer documents for sub-batch `j`, give totals that
   * differ by exactly `f`; the sub-batches after `j` are counted all the same.
   */
  lemma {:induction false} OneSubBatchShortfall(bs: seq<seq<Document>>, store1: Store, store2: Store, j: nat, f: nat)
    requires j < |bs|
    requires forall k :: 0 <= k < |bs| && k != j ==> store1(k, bs[k]) == store2(k, bs[k])
    requires Reported(store1(j, bs[j])) == Reported(store2(j, bs[j])) + f
    ensures TotalReported(Outcomes(bs, store1)) == TotalReported(Outcomes(bs, store2)) + f
    decreases |bs|
  {
    var init := bs[..|bs| - 1];
    var outs1, outs2 := Outcomes(bs, store1), Outcomes(bs, store2);
    assert outs1[..|bs| - 1] == Outcomes(init, store1);
    assert outs2[..|bs| - 1] == Outcomes(init, store2);
    if j == |bs| - 1 {
      assert Outcomes(init, store1) == Outcomes(init, store2);
    } else {
      OneSubBatchShortfall(init, store1, store2, j, f);
    }
  }

  /** With a store that never over-reports, no more documents are counted inserted than were sent. */
  lemma InsertedAtMostRecords(records: seq<Document>, size: nat, store: Store)
    requires size > 0 && ReportsAtMostSent(store)
    ensures TotalReported(Outcomes(SubBatches(records, size), store)) <= |records|
  {
    var bs := SubBatches(records, size);
    InsertedPlusShortfall(bs, store);
    SubBatchesCover(records, size);
    TotalSizeConcat(bs);
  }

  /**
   * The sub-batch loop `for i in range(0, len(records), batch_size)`: every
   * sub-batch is sent, whatever earlier ones reported, and the inserted
   * count is the sum of what the store reported for each.
   */
  method InsertSubBatches(records: seq<Document>, batchSize: nat, store: Store) returns (insertedCount: nat)
    requires batchSize > 0
    ensures insertedCount == TotalReported(Outcomes(SubBatches(records, batchSize), store))
  {
    ghost var bs := SubBatches(records, batchSize);
    ghost var outs := Outcomes(bs, store);
    insertedCount := 0;
    var i, k := 0, 0;
    while i < |records|
      invariant k <= |bs|
      invariant i < |records| ==> bs[k..] == SubBatches(records[i..], batchSize)
      invariant i >= |records| ==> k == |bs|
      invariant insertedCount == TotalReported(outs[..k])
      decreases |records| - i
    {
      var batch := records[i..Min(i + batchSize, |records|)];
      SubBatchStep(records[i..], batchSize);
      assert batch == bs[k];
      var outcome := store(k, batch);
      match outcome {
        case Inserted(ids) =>
          insertedCount := insertedCount + ids;
        case BulkWriteError(nInserted) =>
          insertedCount := insertedCount + nInserted.GetOr(0);
      }
      assert outs[..k + 1] == outs[..k] + [outs[k]];
      if i + batchSize < |records| {
        assert records[i..][batchSize..] == records[i + batchSize..];
      }
      i, k := i + batchSize, k + 1;
    }
    assert outs[..k] == outs;
  }

  /** One turn of the sub-batch loop: the first sub-batch of what is left, and what is left after it. */
  lemma SubBatchStep<T>(rest: seq<T>, size: nat)
    requires size > 0 && rest != []
    ensures SubBatches(rest, size)[0] == rest[..Min(size, |rest|)]
    ensures |rest| <= size ==> |SubBatches(rest, size)| == 1
    ensures |rest| > size ==> SubBatches(rest, size)[1..] == SubBatches(rest[size..], size)
  {
  }

  // ---------------------------------------------------------------------------
  // The loader

  /** The dict `load_csv_chunk` returns. */
  datatype ChunkStats = ChunkStats(
    rowsRead: nat, rowsAfterCleansing: nat, rowsInserted: nat,
    cleansingStats: CleansingStats, batchId: string)

  /** The dict `load_full_csv` returns. */
  datatype FullStats = FullStats(
    totalRowsRead: nat, rowsAfterCleansing: nat, rowsInserted: nat,
    cleansingStats: CleansingStats, batchId: string)

  class BatchLoader {
    const batchSize: nat
    /** The one cleaner every load of this loader goes through; its counters are cumulative. */
    const cleaner: DataCleaner

    constructor (batchSize: nat)
      ensures this.batchSize == batchSize
      ensures fresh(cleaner) && cleaner.Stats() == CleansingStats(0, 0)
    {
      this.batchSize := batchSize;
      cleaner := new DataCleaner();
    }

    /**
     * `load_csv_chunk`: data rows `[startRow, endRow)` are read, cleansed,
     * tagged with the caller's batch id and the range string, and inserted in
     * sub-batches. `rowsRead` is the requested row count even where the file
     * ends first; the cleansing statistics are a snapshot of the cumulative
     * counters after this chunk.
     */
    method LoadCsvChunk(file: CsvFile, startRow: nat, endRow: nat, batchId: string,
                        clock: nat -> DateTime, store: Store) returns (stats: ChunkStats)
      requires startRow <= endRow && batchSize > 0
      modifies cleaner
      ensures var read := ReadChunk(file, startRow, endRow - startRow);
              var cleaned := Cleansed(read);
              var docs := Annotate(cleaned, batchId, Some(SourceRows(startRow, endRow)), clock);
              && stats.rowsRead == endRow - startRow
              && stats.rowsAfterCleansing == |cleaned|
              && stats.rowsInserted == TotalReported(Outcomes(SubBatches(docs, batchSize), store))
              && stats.batchId == batchId
              && cleaner.duplicatesRemoved == old(cleaner.duplicatesRemoved) + (|read| - |Keys(read)|)
              && cleaner.missingValuesDropped == old(cleaner.missingValuesDropped) + (|Keys(read)| - |CompleteKeys(read)|)
              && stats.cleansingStats == cleaner.Stats()
      ensures ReportsAtMostSent(store) ==> stats.rowsInserted <= stats.rowsAfterCleansing <= stats.rowsRead
    {
      var nrows := endRow - startRow;
      var df := ReadChunk(file, startRow, nrows);
      ChunkIsRowRange(file, startRow, endRow);
      df := cleaner.Cleanse(df);
      var records := Annotate(df, batchId, Some(SourceRows(startRow, endRow)), clock);
      var inserted := InsertSubBatches(records, batchSize, store);
      if ReportsAtMostSent(store) {
        InsertedAtMostRecords(records, batchSize, store);
      }
      stats := ChunkStats(nrows, |df|, inserted, cleaner.Stats(), batchId);
    }

    /**
     * `load_full_csv`: every data row is read, cleansed, tagged with the
     * effective batch id (no range string) and inserted in sub-batches.
     * `startedAt` is the time the default batch id is taken from.
     */
    method LoadFullCsv(file: CsvFile, batchId: Option<string>, startedAt: DateTime,
                       clock: nat -> DateTime, store: Store) returns (stats: FullStats)
      requires ValidDateTime(startedAt) && batchSize > 0
      modifies cleaner
      ensures var id := EffectiveBatchId(batchId, startedAt);
              var cleaned := Cleansed(file.rows);
              var docs := Annotate(cleaned, id, None, clock);
              && stats.totalRowsRead == |file.rows|
              && stats.rowsAfterCleansing == |cleaned|
              && stats.rowsInserted == TotalReported(Outcomes(SubBatches(docs, batchSize), store))
              && stats.batchId == id
              && cleaner.duplicatesRemoved == old(cleaner.duplicatesRemoved) + (|file.rows| - |Keys(file.rows)|)
              && cleaner.missingValuesDropped
                 == old(cleaner.missingValuesDropped) + (|Keys(file.rows)| - |CompleteKeys(file.rows)|)
              && stats.cleansingStats == cleaner.Stats()
      ensures ReportsAtMostSent(store) ==> stats.rowsInserted <= stats.rowsAfterCleansing <= stats.totalRowsRead
    {
      var id := EffectiveBatchId(batchId, startedAt);
      var df := file.rows;
      var totalRows := |df|;
      df := cleaner.Cleanse(df);
      var records := Annotate(df, id, None, clock);
      var inserted := InsertSubBatches(records, batchSize, store);
      if ReportsAtMostSent(store) {
        InsertedAtMostRecords(records, batchSize, store);
      }
      stats := FullStats(totalRows, |df|, inserted, cleaner.Stats(), id);
    }
  }

  /**
   * A fresh loader fed the ten readings (two repeated keys, one missing
   * device) by a full load reports 10 rows read, 7 after cleansing, and a
   * cleansing snapshot of 2 duplicates and 1 missing-value drop.
   */
  method TenReadingsFullLoad(clock: nat -> DateTime, store: Store) returns (stats: FullStats)
    ensures stats.totalRowsRead == 10 && stats.rowsAfterCleansing == 7
    ensures stats.cleansingStats == CleansingStats(2, 1)
    ensures stats.batchId == "sensors-2024"
  {
    var loader := new BatchLoader(DefaultBatchSize);
    var file := CsvFile(["ts", "device", "v"], TenReadings());
    TenReadingsKeyCounts();
    CleansingDropCounts(TenReadings());
    stats := loader.LoadFullCsv(file, Some("sensors-2024"), DateTime(2024, 1, 1, 0, 0, 0), clock, store);
  }

  /**
   * Two adjacent chunk loads through one loader: together they read the rows
   * of the combined range; the second statistics snapshot continues the
   * first one's counts, because the cleaner is shared and cumulative, while
   * duplicates are only detected within each chunk.
   */
  method AdjacentChunkLoads(loader: BatchLoader, file: CsvFile, a: nat, b: nat, c: nat, id1: string, id2: string,
                            clock: nat -> DateTime, store: Store) returns (first: ChunkStats, second: ChunkStats)
    requires a <= b <= c && loader.batchSize > 0
    modifies loader.cleaner
    ensures var r1, r2 := ReadChunk(file, a, b - a), ReadChunk(file, b, c - b);
            && r1 + r2 == ReadChunk(file, a, c - a)
            && first.rowsRead + second.rowsRead == c - a
            && first.cleansingStats.duplicatesRemoved == old(loader.cleaner.duplicatesRemoved) + (|r1| - |Keys(r1)|)
            && second.cleansingStats.duplicatesRemoved == first.cleansingStats.duplicatesRemoved + (|r2| - |Keys(r2)|)
            && second.cleansingStats.missingValuesDropped
               == first.cleansingStats.missingValuesDropped + (|Keys(r2)| - |CompleteKeys(r2)|)
  {
    first := loader.LoadCsvChunk(file, a, b, id1, clock, store);
    second := loader.LoadCsvChunk(file, b, c, id2, clock, store);
    AdjacentChunks(file, a, b, c);
  }
}
