# CSV-to-MongoDB batch loader, modelled in Dafny

This project models the core of a small batch loader that moves sensor
readings from a CSV file into a MongoDB collection:

- `DataCleaner` (scripts/data_cleaner.py) removes rows whose `(ts, device)`
  key repeats an earlier row, keeping the first, then removes rows with a
  missing `ts` or `device`, and keeps two cumulative counters of the rows each
  step dropped.
- `BatchLoader.load_csv_chunk` and `BatchLoader.load_full_csv`
  (scripts/batch_loader.py) read a row range (or the whole file), cleanse it
  with the loader's one cleaner, attach a `_metadata` value to every record,
  insert the records in consecutive sub-batches of at most `batch_size`,
  add up the inserted counts even when a sub-batch raises `BulkWriteError`,
  and return a statistics dict. `get_csv_row_count` counts the file's lines
  less the header.

Files:

- `wrappers.dfy`: `Option`.
- `records.dfy` (module `Records`): rows, their `(ts, device)` key, distinct
  and complete keys, "first row with a key", and the subsequence relation.
- `data_cleaner.dfy` (module `DataCleaning`): the two filters as functions on
  sequences, their properties, worked examples, and the class `DataCleaner`
  whose methods update the two counters in place.
- `csv_source.dfy` (module `CsvSource`): the row-range read and the row count.
- `provenance.dfy` (module `Provenance`): `_metadata`, the `"{start}-{end}"`
  range string and the default batch id `full_YYYYMMDD_HHMMSS`, each with a
  parser that reads it back.
- `batch_loader.dfy` (module `BatchLoading`): sub-batches, the insert loop as
  a method with loop invariants, and the class `BatchLoader`.

`insert_many` is an oracle `store(k, batch)` giving the outcome of sub-batch
`k`: either the inserted ids (by count) or a `BulkWriteError` whose details
may hold `nInserted`. `datetime.now()` is a parameter: `clock(k)` is the time
the metadata of row `k` was built, `startedAt` the time a full load's default
batch id is taken from.

The code calls `datetime.now()` once per row inside the `apply` lambda, so
records of one call share `batch_id` and `source_rows` but not necessarily
`ingested_at`; the model follows the code and gives each row its own time.
The invariant `rows_inserted <= rows_after_cleansing <= rows_read` holds in
the code only when the store never reports more documents than it was sent;
the model proves it under that condition (`ReportsAtMostSent`).

## Model

The functions that define the model are described by the lemmas in the
table rather than by rows of their own: `Cleansed` by
`CleansedSelectsFirstCompleteRows`, `CleansedPlacesFirst` and
`CleansingDropCounts`; `ReadChunk` by `ChunkIsRowRange` and
`AdjacentChunks`; `LineCount` by `RowCount` and `RowCountOfLines`;
`SourceRows` by `SourceRowsRoundTrip`; `DefaultBatchId` by
`DefaultBatchIdRoundTrip`; `EffectiveBatchId` by `EffectiveBatchIdChoice`;
`Annotate` by `AnnotateKeepsRows`; `SubBatches` by `SubBatchesCover`,
`SubBatchAt` and `SubBatchCount`; `Reported` and `TotalReported` by
`InsertSubBatches`, `InsertedAtMostRecords` and `OneSubBatchShortfall`.

| member | source | states |
|---|---|---|
| `DataCleaning.Deduplicated` | scripts/data_cleaner.py:31 | duplicate removal never adds rows: the output is no longer than the input and holds only input rows |
| `DataCleaning.WithoutMissing` | scripts/data_cleaner.py:37 | a row survives missing-value removal exactly when it is in the input and has both `ts` and `device` |
| `DataCleaning.DeduplicatedIsSubsequence` | scripts/data_cleaner.py:31 | the rows kept by duplicate removal are the input with rows deleted, in original order |
| `DataCleaning.DeduplicatedKeys` | scripts/data_cleaner.py:31 | after duplicate removal no two rows share a key, every input key is still present, and there is one row per distinct key |
| `DataCleaning.DeduplicatedKeepsFirst` | scripts/data_cleaner.py:31 | every surviving row is the first row of the input with its key (`keep='first'`) |
| `DataCleaning.DeduplicatedPrefix` | scripts/data_cleaner.py:31 | duplicate removal of a prefix of the input is a prefix of its output: later rows never change which earlier rows survive or their order |
| `DataCleaning.DeduplicatedPlacesFirst` | scripts/data_cleaner.py:31 | the first row with a key is kept, at the position equal to the number of distinct keys before it (so `[A, B, A']` becomes `[A, B]`, never `[B, A']`) |
| `DataCleaning.DeduplicatedUnique` | scripts/data_cleaner.py:31 | a batch whose keys are already distinct passes duplicate removal unchanged |
| `DataCleaning.WithoutMissingIsSubsequence` | scripts/data_cleaner.py:37 | the rows kept by missing-value removal are the input with rows deleted, in original order |
| `DataCleaning.WithoutMissingComplete` | scripts/data_cleaner.py:37 | a batch with no missing key passes missing-value removal unchanged |
| `DataCleaning.WithoutMissingAppend` | scripts/data_cleaner.py:37 | missing-value removal works row by row: on a concatenation it is the concatenation of the two results |
| `DataCleaning.WithoutMissingOfUnique` | scripts/data_cleaner.py:37 | on a batch with distinct keys, missing-value removal keeps distinct keys and exactly one row per distinct complete key |
| `DataCleaning.CleansedSelectsFirstCompleteRows` | scripts/data_cleaner.py:17-27 | `cleanse` returns a subsequence of its input (whole rows, other columns unchanged) whose keys are distinct and complete, are exactly the input's complete keys, and each row is the first with its key |
| `DataCleaning.CleansedPrefix` | scripts/data_cleaner.py:17-27 | cleansing a prefix of the input gives a prefix of the cleansed output |
| `DataCleaning.CleansedPlacesFirst` | scripts/data_cleaner.py:17-27 | the first row with a complete key is kept by `cleanse`, at the position equal to the number of distinct complete keys before it |
| `DataCleaning.ResentReadingKeepsOrder` | scripts/data_cleaner.py:17-27 | a complete reading `a`, another `b`, then `a` resent, cleanse to exactly `[a, b]` |
| `DataCleaning.CleansingDropCounts` | scripts/data_cleaner.py:29-39 | duplicate removal drops the input size less the number of distinct keys; missing-value removal, run second, drops one row per distinct key with a missing column |
| `DataCleaning.CleansedIdempotent` | scripts/data_cleaner.py:17-27 | cleansing a cleansed batch drops nothing in either step and returns it unchanged |
| `DataCleaning.SameKeyPair` | scripts/data_cleaner.py:31 | of any two rows with the same key, duplicate removal keeps only the first |
| `DataCleaning.DuplicateKeepsFirstExample` | scripts/data_cleaner.py:31 | of two readings `(1, A, v=1)` and `(1, A, v=2)` the first is kept |
| `DataCleaning.MissingDuplicateCountsTwiceExample` | scripts/data_cleaner.py:17-27 | two rows with the same key and a missing `ts` count as one duplicate and then one missing-value drop |
| `DataCleaning.TenReadingsExample` | scripts/data_cleaner.py:17-39 | ten readings with two repeated keys and one missing device leave seven rows, two duplicates and one missing-value drop |
| `DataCleaning.DataCleaner.constructor` | scripts/data_cleaner.py:11-15 | both counters start at zero |
| `DataCleaning.DataCleaner.RemoveDuplicates` | scripts/data_cleaner.py:29-33 | returns the deduplicated rows and adds the number dropped to `duplicates_removed` only |
| `DataCleaning.DataCleaner.HandleMissingValues` | scripts/data_cleaner.py:35-39 | returns the complete rows and adds the number dropped to `missing_values_dropped` only |
| `DataCleaning.DataCleaner.Cleanse` | scripts/data_cleaner.py:17-27 | returns the cleansed rows; each counter grows by its own step's drops (stated in terms of the input's distinct and complete keys), their sum grows by input size less output size, and neither decreases |
| `DataCleaning.CleanseTwice` | scripts/data_cleaner.py:17-27 | cleansing the output of `cleanse` again returns it unchanged and leaves both counters where the first call left them |
| `CsvSource.ChunkIsRowRange` | scripts/batch_loader.py:50-51 | the chunk read of `[start, end)` is exactly data rows `[min(start, n), min(end, n))`, row `k` of it is file row `start + k`, it has `end - start` rows when the file is long enough and none when `start == end` |
| `CsvSource.AdjacentChunks` | scripts/batch_loader.py:50-51 | chunks `[a, b)` and `[b, c)` read together the rows of chunk `[a, c)`; chunk `[0, n)` reads the whole file, as `read_csv` without skipping does |
| `CsvSource.RowCount` | scripts/batch_loader.py:134-136 | the row count is at least -1, and -1 exactly for an empty file |
| `CsvSource.RowCountOfLines` | scripts/batch_loader.py:134-136 | a header plus `m` data lines counts `m` rows, with or without a newline after the last (non-empty) line |
| `Provenance.NatToString` | scripts/batch_loader.py:60 | the decimal text of a number is non-empty, all digits, and denotes the number |
| `Provenance.PaddedDigits` | scripts/batch_loader.py:87 | a zero-padded field has exactly its width, is all digits and denotes the number |
| `Provenance.SourceRowsRoundTrip` | scripts/batch_loader.py:60 | the `"{start_row}-{end_row}"` string reads back as the same range, so distinct ranges get distinct strings |
| `Provenance.DefaultBatchIdRoundTrip` | scripts/batch_loader.py:87 | the default batch id is 20 characters starting `full_`, and the time it was made from, to the second, reads back from it |
| `Provenance.EffectiveBatchIdChoice` | scripts/batch_loader.py:87 | the batch id used is never empty; a non-empty given id is kept, an absent or empty one is replaced by the default for the start time |
| `Provenance.AnnotateKeepsRows` | scripts/batch_loader.py:57-61 | attaching `_metadata` keeps every row's key and every other column, replaces an existing `_metadata` cell, leaves a row without one whole, and gives every document of one call the same batch id and range string |
| `Provenance.StaleMetadataReplacedExample` | scripts/batch_loader.py:57-61 | a row whose file already had a `_metadata` cell loses that stale value, and the document carries the new metadata |
| `BatchLoading.SubBatchesCover` | scripts/batch_loader.py:66-67 | the sub-batches concatenate to the record list, and each has between 1 and `batch_size` records |
| `BatchLoading.SubBatchAt` | scripts/batch_loader.py:66-67 | sub-batch `k` exists exactly when `k * batch_size < len(records)` and is `records[k*batch_size : k*batch_size + batch_size]` |
| `BatchLoading.SubBatchCount` | scripts/batch_loader.py:66 | there are `ceil(len(records) / batch_size)` sub-batches |
| `BatchLoading.InsertedPlusShortfall` | scripts/batch_loader.py:68-73 | accounting identity used by `InsertedAtMostRecords`: reported total plus shortfall is the number of documents sent, and the shortfall is non-negative when the store never over-reports |
| `BatchLoading.OneSubBatchShortfall` | scripts/batch_loader.py:66-73 | a sub-batch that reports `f` fewer inserted documents (a `BulkWriteError`) lowers the total by exactly `f`: the sub-batches after it are still sent and counted |
| `BatchLoading.InsertedAtMostRecords` | scripts/batch_loader.py:64-73 | when the store never over-reports, the inserted total is at most the number of records |
| `BatchLoading.InsertSubBatches` | scripts/batch_loader.py:64-73 | the loop sends every sub-batch in order and returns the sum of `len(inserted_ids)` or `nInserted` (default 0) over all of them |
| `BatchLoading.BatchLoader.constructor` | scripts/batch_loader.py:17-28 | the loader keeps its batch size and owns a fresh cleaner with zero counters |
| `BatchLoading.BatchLoader.LoadCsvChunk` | scripts/batch_loader.py:41-84 | reads the chunk, cleanses it through the shared cleaner, tags every row with the batch id and `"{start}-{end}"`, inserts in sub-batches; `rows_read` is `end - start`, the snapshot equals the cumulative counters, and `rows_inserted <= rows_after_cleansing <= rows_read` for a store that never over-reports |
| `BatchLoading.BatchLoader.LoadFullCsv` | scripts/batch_loader.py:86-126 | reads every row, cleanses, tags rows with the effective batch id and no range, inserts in sub-batches; `total_rows_read` is the number of parsed rows, with the same snapshot and bound as a chunk load |
| `BatchLoading.TenReadingsFullLoad` | scripts/batch_loader.py:86-126 | a full load of the ten readings reports 10 rows read, 7 after cleansing and a snapshot of 2 duplicates and 1 missing drop |
| `BatchLoading.AdjacentChunkLoads` | scripts/batch_loader.py:41-84 | two adjacent chunk loads read the combined range, and the second snapshot continues the first one's counters |

## Left out

- The MongoDB client: connecting, `create_indexes`, `close`, and what `insert_many` does to the collection. `insert_many` is an oracle returning an outcome per sub-batch.
- CSV parsing by pandas: quoting, type inference, empty cells becoming NaN, and how `skiprows` interacts with blank or malformed lines. A file is a header plus already parsed rows; cell values are text or integers only, floating point is not modelled.
- `get_csv_row_count` is modelled on the text after Python's newline translation; opening the file and I/O errors (a missing file) are not modelled, for either read.
- `datetime.now()`: per-row and start times are parameters. `ValidDateTime` limits the start time to years 1000-9999, where `%Y` prints four digits.
- Environment-variable defaults for the connection string and database, logging, and the `__main__` entry point.
- pandas edge behaviour: `apply` on an empty frame. `start_row <= end_row` and `batch_size > 0` are preconditions; with `batch_size == 0` Python's `range` raises.
- BatchLoading.BatchLoader.LoadCsvChunk: requires `startRow <= endRow`; for a reversed range `read_csv` raises on the negative `nrows` before any statistics are built, and that error path is not modelled.
- BatchLoading.BatchLoader.LoadCsvChunk: requires `batchSize > 0` of its loader; with a negative `batch_size` the code's `range` is empty, nothing is inserted and `rows_inserted` is 0, which the model does not cover.
- BatchLoading.InsertSubBatches: an exception from `insert_many` other than `BulkWriteError` aborts the load with no statistics, after the cleaner's counters were updated and earlier sub-batches inserted; the store oracle only returns `Inserted` or `BulkWriteError`, so this path is not modelled (likewise for `BatchLoading.BatchLoader.LoadFullCsv`).
- CsvSource.ReadChunk: a 0-byte file makes `read_csv` raise `EmptyDataError`, while `CsvSource.RowCount` gives -1 for it; a `CsvFile` always has a header, so the raise is not modelled.
- DataCleaning.Deduplicated: a frame without a `ts` or `device` column makes `drop_duplicates` raise `KeyError`; a `Row` always has both (possibly missing) cells, so the raise is not modelled (likewise for `DataCleaning.WithoutMissing` and `DataCleaning.DataCleaner.Cleanse`).
