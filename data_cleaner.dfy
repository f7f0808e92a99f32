/**
 * The record cleaner of scripts/data_cleaner.py.
 *
 * Cleansing is two filters applied in a fixed order: first every row whose
 * `(ts, device)` key repeats an earlier row's key is dropped (the first
 * occurrence is kept), then every row with a missing key column is dropped.
 * The filters are pure functions on sequences; the cleaner object only keeps
 * two cumulative counters of the rows each filter dropped.
 */
module DataCleaning {
  import opened Wrappers
  import opened Records

  /** pandas' `drop_duplicates(subset=['ts', 'device'], keep='first')`. */
  function Deduplicated(rows: seq<Row>): (out: seq<Row>)
    ensures |out| <= |rows|
    ensures forall r :: r in out ==> r in rows
  {
    if rows == [] then []
    else
      var earlier, last := rows[..|rows| - 1], rows[|rows| - 1];
      assert rows == earlier + [last];
      if KeyOf(last) in Keys(earlier) then Deduplicated(earlier)
      else Deduplicated(earlier) + [last]
  }

  /** pandas' `dropna(subset=['ts', 'device'])`: keeps the rows with both key columns present. */
  function WithoutMissing(rows: seq<Row>): (out: seq<Row>)
    ensures |out| <= |rows|
    ensures forall r :: r in out <==> r in rows && Complete(r)
  {
    if rows == [] then []
    else
      var earlier, last := rows[..|rows| - 1], rows[|rows| - 1];
      assert rows == earlier + [last];
      if Complete(last) then WithoutMissing(earlier) + [last]
      else WithoutMissing(earlier)
  }

  /** What `DataCleaner.cleanse` returns: duplicates removed first, then incomplete rows. */
  function Cleansed(rows: seq<Row>): seq<Row> {
    WithoutMissing(Deduplicated(rows))
  }

  /** The cumulative counters, as the snapshot `stats.copy()` hands out. */
  datatype CleansingStats = CleansingStats(duplicatesRemoved: nat, missingValuesDropped: nat)

  // ---------------------------------------------------------------------------
  // Duplicate removal

  /** The survivors of duplicate removal keep their original relative order. */
  lemma {:induction false} DeduplicatedIsSubsequence(rows: seq<Row>)
    ensures IsSubsequence(Deduplicated(rows), rows)
    decreases |rows|
  {
    if rows != [] {
      var earlier, last := rows[..|rows| - 1], rows[|rows| - 1];
      DeduplicatedIsSubsequence(earlier);
      var d := Deduplicated(earlier);
      if KeyOf(last) !in Keys(earlier) {
        assert (d + [last])[..|d|] == d;
      }
    }
  }

  /** Duplicate removal keeps exactly one row per distinct key. */
  lemma {:induction false} DeduplicatedKeys(rows: seq<Row>)
    ensures Keys(Deduplicated(rows)) == Keys(rows)
    ensures UniqueKeys(Deduplicated(rows))
    ensures |Deduplicated(rows)| == |Keys(rows)|
    decreases |rows|
  {
    if rows != [] {
      var earlier, last := rows[..|rows| - 1], rows[|rows| - 1];
      assert rows == earlier + [last];
      DeduplicatedKeys(earlier);
      KeysAppend(earlier, last);
      var d := Deduplicated(earlier);
      if KeyOf(last) !in Keys(earlier) {
        KeysAppend(d, last);
        UniqueKeysAppend(d, last);
      }
    }
  }

  /** Each surviving row is the first row of the input with its key. */
  lemma {:induction false} DeduplicatedKeepsFirst(rows: seq<Row>)
    ensures forall r :: r in Deduplicated(rows) ==> FirstWithKey(rows, KeyOf(r)) == Some(r)
    decreases |rows|
  {
    if rows != [] {
      var earlier, last := rows[..|rows| - 1], rows[|rows| - 1];
      assert rows == earlier + [last];
      DeduplicatedKeepsFirst(earlier);
      forall r | r in Deduplicated(rows) ensures FirstWithKey(rows, KeyOf(r)) == Some(r) {
        FirstWithKeyAppend(earlier, last, KeyOf(r));
        if r !in Deduplicated(earlier) {
          assert r == last;
          FirstWithKeyFound(earlier, KeyOf(last));
        }
      }
    }
  }

  /** A batch whose keys are already distinct passes duplicate removal unchanged. */
  lemma {:induction false} DeduplicatedUnique(rows: seq<Row>)
    requires UniqueKeys(rows)
    ensures Deduplicated(rows) == rows
    decreases |rows|
  {
    if rows != [] {
      var earlier, last := rows[..|rows| - 1], rows[|rows| - 1];
      assert rows == earlier + [last];
      UniqueKeysAppend(earlier, last);
      DeduplicatedUnique(earlier);
    }
  }

  // ---------------------------------------------------------------------------
  // Missing-value removal

  /** The rows kept by missing-value removal keep their original relative order. */
  lemma {:induction false} WithoutMissingIsSubsequence(rows: seq<Row>)
    ensures IsSubsequence(WithoutMissing(rows), rows)
    decreases |rows|
  {
    if rows != [] {
      var earlier, last := rows[..|rows| - 1], rows[|rows| - 1];
      WithoutMissingIsSubsequence(earlier);
      var w := WithoutMissing(earlier);
      if Complete(last) {
        assert (w + [last])[..|w|] == w;
      }
    }
  }

  /** A batch without missing keys passes missing-value removal unchanged. */
  lemma {:induction false} WithoutMissingComplete(rows: seq<Row>)
    requires AllComplete(rows)
    ensures WithoutMissing(rows) == rows
    decreases |rows|
  {
    if rows != [] {
      var earlier, last := rows[..|rows| - 1], rows[|rows| - 1];
      assert rows == earlier + [last];
      assert Complete(rows[|rows| - 1]);
      WithoutMissingComplete(earlier);
    }
  }

  /**
   * On a batch with distinct keys, missing-value removal keeps distinct keys
   * and keeps one row per distinct complete key.
   */
  lemma {:induction false} WithoutMissingOfUnique(rows: seq<Row>)
    requires UniqueKeys(rows)
    ensures UniqueKeys(WithoutMissing(rows))
    ensures Keys(WithoutMissing(rows)) == CompleteKeys(rows)
    ensures |WithoutMissing(rows)| == |CompleteKeys(rows)|
    decreases |rows|
  {
    if rows != [] {
      var earlier, last := rows[..|rows| - 1], rows[|rows| - 1];
      assert rows == earlier + [last];
      UniqueKeysAppend(earlier, last);
      WithoutMissingOfUnique(earlier);
      CompleteKeysAppend(earlier, last);
      if Complete(last) {
        var w := WithoutMissing(earlier);
        KeysAppend(w, last);
        UniqueKeysAppend(w, last);
        assert KeyOf(last) !in Keys(earlier);
      }
    }
  }

  // ---------------------------------------------------------------------------
  // The whole cleansing pass

  /**
   * The output of cleansing is the input with rows deleted, in the original
   * order (so every column of a surviving row, not only its key, is unchanged);
   * its keys are distinct and complete; and every surviving row is the first
   * row of the input with its key.
   */
  lemma CleansedSelectsFirstCompleteRows(rows: seq<Row>)
    ensures IsSubsequence(Cleansed(rows), rows)
    ensures UniqueKeys(Cleansed(rows))
    ensures AllComplete(Cleansed(rows))
    ensures Keys(Cleansed(rows)) == CompleteKeys(rows)
    ensures forall r :: r in Cleansed(rows) ==> FirstWithKey(rows, KeyOf(r)) == Some(r)
  {
    var d := Deduplicated(rows);
    DeduplicatedIsSubsequence(rows);
    WithoutMissingIsSubsequence(d);
    SubsequenceTransitive(Cleansed(rows), d, rows);
    DeduplicatedKeys(rows);
    WithoutMissingOfUnique(d);
    DeduplicatedKeepsFirst(rows);
    assert CompleteKeys(d) == CompleteKeys(rows);
  }

  /** Duplicate removal of a prefix of the input is a prefix of its duplicate removal. */
  lemma {:induction false} DeduplicatedPrefix(rows: seq<Row>, j: nat)
    requires j <= |rows|
    ensures |Deduplicated(rows[..j])| <= |Deduplicated(rows)|
    ensures Deduplicated(rows)[..|Deduplicated(rows[..j])|] == Deduplicated(rows[..j])
    decreases |rows|
  {
    if j < |rows| {
      var earlier := rows[..|rows| - 1];
      assert earlier[..j] == rows[..j];
      DeduplicatedPrefix(earlier, j);
      var d, p := Deduplicated(earlier), Deduplicated(rows[..j]);
      assert (d + [rows[|rows| - 1]])[..|p|] == d[..|p|];
    } else {
      assert rows[..j] == rows;
    }
  }

  /** Missing-value removal distributes over concatenation. */
  lemma {:induction false} WithoutMissingAppend(p: seq<Row>, q: seq<Row>)
    ensures WithoutMissing(p + q) == WithoutMissing(p) + WithoutMissing(q)
    decreases |q|
  {
    if q == [] {
      assert p + q == p;
    } else {
      var q', last := q[..|q| - 1], q[|q| - 1];
      assert (p + q)[..|p + q| - 1] == p + q';
      assert (p + q)[|p + q| - 1] == last;
      WithoutMissingAppend(p, q');
    }
  }

  /**
   * `keep='first'` by position: when row `i` is the first occurrence of its
   * key, it is the output row numbered by how many distinct keys come before
   * it. With `|Deduplicated(rows)| == |Keys(rows)|` this fixes the whole
   * output, in order.
   */
  lemma DeduplicatedPlacesFirst(rows: seq<Row>, i: nat)
    requires i < |rows| && KeyOf(rows[i]) !in Keys(rows[..i])
    ensures |Keys(rows[..i])| < |Deduplicated(rows)|
    ensures Deduplicated(rows)[|Keys(rows[..i])|] == rows[i]
  {
    var upTo := rows[..i + 1];
    assert upTo[..i] == rows[..i] && upTo[i] == rows[i];
    assert Deduplicated(upTo) == Deduplicated(rows[..i]) + [rows[i]];
    DeduplicatedKeys(rows[..i]);
    DeduplicatedPrefix(rows, i + 1);
    var n := |Keys(rows[..i])|;
    assert Deduplicated(rows)[..n + 1][n] == rows[i];
  }

  /** Cleansing a prefix of the input gives a prefix of the cleansed input. */
  lemma CleansedPrefix(rows: seq<Row>, j: nat)
    requires j <= |rows|
    ensures |Cleansed(rows[..j])| <= |Cleansed(rows)|
    ensures Cleansed(rows)[..|Cleansed(rows[..j])|] == Cleansed(rows[..j])
  {
    DeduplicatedPrefix(rows, j);
    var d, p := Deduplicated(rows), Deduplicated(rows[..j]);
    assert d == p + d[|p|..];
    WithoutMissingAppend(p, d[|p|..]);
    var c := WithoutMissing(p);
    assert (c + WithoutMissing(d[|p|..]))[..|c|] == c;
  }

  /**
   * The cleansed output by position: when row `i` is the first occurrence of
   * its key and that key is complete, it is the output row numbered by how
   * many distinct complete keys come before it. With
   * `|Cleansed(rows)| == |CompleteKeys(rows)|` this fixes the whole output.
   */
  lemma CleansedPlacesFirst(rows: seq<Row>, i: nat)
    requires i < |rows| && KeyOf(rows[i]) !in Keys(rows[..i]) && Complete(rows[i])
    ensures |CompleteKeys(rows[..i])| < |Cleansed(rows)|
    ensures Cleansed(rows)[|CompleteKeys(rows[..i])|] == rows[i]
  {
    var upTo := rows[..i + 1];
    assert upTo[..i] == rows[..i] && upTo[i] == rows[i];
    var p := Deduplicated(rows[..i]);
    assert Deduplicated(upTo) == p + [rows[i]];
    WithoutMissingAppend(p, [rows[i]]);
    assert [rows[i]][..0] == [];
    assert Cleansed(upTo) == Cleansed(rows[..i]) + [rows[i]];
    CleansingDropCounts(rows[..i]);
    CleansedPrefix(rows, i + 1);
    var n := |CompleteKeys(rows[..i])|;
    assert Cleansed(rows)[..n + 1][n] == rows[i];
  }

  /**
   * The drop counts in terms of the input alone: duplicate removal drops
   * every row but one per distinct key, and missing-value removal then drops
   * one row per distinct key that has a missing column. A repeated key with a
   * missing column is therefore counted once as a duplicate per repeat and
   * once as a missing-value drop.
   */
  lemma CleansingDropCounts(rows: seq<Row>)
    // the "rows dropped" reading of the length fact in `DeduplicatedKeys`
    ensures |rows| - |Deduplicated(rows)| == |rows| - |Keys(rows)|
    ensures |Deduplicated(rows)| - |Cleansed(rows)| == |Keys(rows)| - |CompleteKeys(rows)|
    ensures |Cleansed(rows)| == |CompleteKeys(rows)|
  {
    var d := Deduplicated(rows);
    DeduplicatedKeys(rows);
    WithoutMissingOfUnique(d);
    assert CompleteKeys(d) == CompleteKeys(rows);
  }

  /** Cleansing a cleansed batch drops nothing in either step. */
  lemma CleansedIdempotent(rows: seq<Row>)
    ensures Deduplicated(Cleansed(rows)) == Cleansed(rows)
    ensures WithoutMissing(Cleansed(rows)) == Cleansed(rows)
    ensures Cleansed(Cleansed(rows)) == Cleansed(rows)
  {
    CleansedSelectsFirstCompleteRows(rows);
    var c := Cleansed(rows);
    DeduplicatedUnique(c);
    WithoutMissingComplete(c);
  }

  // ---------------------------------------------------------------------------
  // Worked examples

  /** A reading with both key columns and one value column `v`. */
  function Reading(ts: int, device: string, v: int): Row {
    Row(Some(Number(ts)), Some(Text(device)), map["v" := Some(Number(v))])
  }

  /** Of two rows with one key, duplicate removal keeps the first. */
  lemma SameKeyPair(first: Row, second: Row)
    requires KeyOf(first) == KeyOf(second)
    ensures Deduplicated([first, second]) == [first]
  {
    var rows := [first, second];
    assert rows[..1] == [first] && [first][..0] == [];
    assert first in rows[..1];
  }

  /** Of two readings with the same key, the first one is kept. */
  lemma DuplicateKeepsFirstExample()
    ensures Cleansed([Reading(1, "A", 1), Reading(1, "A", 2)]) == [Reading(1, "A", 1)]
  {
    var first := Reading(1, "A", 1);
    SameKeyPair(first, Reading(1, "A", 2));
    assert [first][..0] == [];
  }

  /**
   * Two rows with the same key and a missing `ts`: duplicate removal drops
   * the second, then missing-value removal drops the first.
   */
  lemma MissingDuplicateCountsTwiceExample()
    ensures var rows := [Row(None, Some(Text("A")), map[]), Row(None, Some(Text("A")), map["v" := None])];
            |rows| - |Deduplicated(rows)| == 1 && |Deduplicated(rows)| - |Cleansed(rows)| == 1
  {
    var first := Row(None, Some(Text("A")), map[]);
    SameKeyPair(first, Row(None, Some(Text("A")), map["v" := None]));
    assert [first][..0] == [];
  }

  /**
   * A reading resent after another one: `[a, b, a]` cleanses to `[a, b]`,
   * the resent copy dropped and the original order kept.
   */
  lemma ResentReadingKeepsOrder(a: Row, b: Row)
    requires Complete(a) && Complete(b) && KeyOf(a) != KeyOf(b)
    ensures Cleansed([a, b, a]) == [a, b]
  {
    var rows := [a, b, a];
    assert rows[..0] == [] && rows[..1] == [a];
    KeysAppend([], a);
    KeysAppend([a], b);
    KeysAppend([a, b], a);
    assert [a] + [b] == rows[..2] && rows[..2] + [a] == rows;
    assert CompleteKeys(rows) == {KeyOf(a), KeyOf(b)};
    assert CompleteKeys(rows[..1]) == {KeyOf(a)};
    CleansingDropCounts(rows);
    CleansedPlacesFirst(rows, 0);
    CleansedPlacesFirst(rows, 1);
  }

  /**
   * Ten readings where the 2nd and 5th repeat the keys of the 1st and 4th and
   * the 8th has no `device`.
   */
  function TenReadings(): seq<Row> {
    [Reading(1, "A", 1), Reading(1, "A", 2), Reading(3, "B", 3), Reading(4, "C", 4), Reading(4, "C", 5),
     Reading(6, "A", 6), Reading(7, "B", 7), Row(Some(Number(8)), None, map["v" := Some(Number(8))]),
     Reading(9, "C", 9), Reading(10, "A", 10)]
  }

  function ReadingKey(ts: int, device: string): RowKey {
    RowKey(Some(Number(ts)), Some(Text(device)))
  }

  /** The eight distinct keys of the ten readings; one of them lacks its device. */
  function TenReadingsKeys(): set<RowKey> {
    {ReadingKey(1, "A"), ReadingKey(3, "B"), ReadingKey(4, "C"), ReadingKey(6, "A"), ReadingKey(7, "B"),
     RowKey(Some(Number(8)), None), ReadingKey(9, "C"), ReadingKey(10, "A")}
  }

  lemma TenReadingsKeysExact()
    ensures Keys(TenReadings()) == TenReadingsKeys()
  {
    var rows := TenReadings();
    forall r | r in rows ensures KeyOf(r) in TenReadingsKeys() {
      var i :| 0 <= i < |rows| && rows[i] == r;
    }
    assert rows[0] in rows && rows[2] in rows && rows[3] in rows && rows[5] in rows;
    assert rows[6] in rows && rows[7] in rows && rows[8] in rows && rows[9] in rows;
  }

  lemma TenReadingsKeyCounts()
    ensures |Keys(TenReadings())| == 8 && |CompleteKeys(TenReadings())| == 7
  {
    TenReadingsKeysExact();
    TenReadingsKeysCounted(TenReadings());
  }

  lemma TenReadingsKeysCounted(rows: seq<Row>)
    requires Keys(rows) == TenReadingsKeys()
    ensures |Keys(rows)| == 8 && |CompleteKeys(rows)| == 7
  {
    var complete := {ReadingKey(1, "A"), ReadingKey(3, "B"), ReadingKey(4, "C"), ReadingKey(6, "A"),
                     ReadingKey(7, "B"), ReadingKey(9, "C"), ReadingKey(10, "A")};
    assert CompleteKeys(rows) == complete;
  }

  /** Cleansing the ten readings drops two duplicates and one incomplete row, leaving seven. */
  lemma TenReadingsExample()
    ensures |TenReadings()| - |Deduplicated(TenReadings())| == 2
    ensures |Deduplicated(TenReadings())| - |Cleansed(TenReadings())| == 1
    ensures |Cleansed(TenReadings())| == 7
  {
    TenReadingsKeyCounts();
    CleansingDropCounts(TenReadings());
  }

  // ---------------------------------------------------------------------------
  // The cleaner object

  /** `DataCleaner`: the two filters plus their cumulative drop counters. */
  class DataCleaner {
    var duplicatesRemoved: nat
    var missingValuesDropped: nat

    /** A new cleaner has counted nothing. */
    constructor ()
      ensures duplicatesRemoved == 0 && missingValuesDropped == 0
    {
      duplicatesRemoved := 0;
      missingValuesDropped := 0;
    }

    /** A copy of the counters, detached from this object. */
    function Stats(): CleansingStats
      reads this
    {
      CleansingStats(duplicatesRemoved, missingValuesDropped)
    }

    /** `_remove_duplicates`: filter, then add the number of rows dropped. */
    method RemoveDuplicates(rows: seq<Row>) returns (out: seq<Row>)
      modifies this
      ensures out == Deduplicated(rows)
      ensures duplicatesRemoved == old(duplicatesRemoved) + (|rows| - |out|)
      ensures missingValuesDropped == old(missingValuesDropped)
    {
      var before := |rows|;
      out := Deduplicated(rows);
      duplicatesRemoved := duplicatesRemoved + (before - |out|);
    }

    /** `_handle_missing_values`: filter, then add the number of rows dropped. */
    method HandleMissingValues(rows: seq<Row>) returns (out: seq<Row>)
      modifies this
      ensures out == WithoutMissing(rows)
      ensures missingValuesDropped == old(missingValuesDropped) + (|rows| - |out|)
      ensures duplicatesRemoved == old(duplicatesRemoved)
    {
      var before := |rows|;
      out := WithoutMissing(rows);
      missingValuesDropped := missingValuesDropped + (before - |out|);
    }

    /**
     * `cleanse`: duplicate removal, then missing-value removal. Each counter
     * grows by the rows its own step dropped, so together they grow by
     * exactly the rows the call dropped, and neither ever decreases.
     */
    method Cleanse(rows: seq<Row>) returns (out: seq<Row>)
      modifies this
      ensures out == Cleansed(rows)
      ensures duplicatesRemoved == old(duplicatesRemoved) + (|rows| - |Keys(rows)|)
      ensures missingValuesDropped == old(missingValuesDropped) + (|Keys(rows)| - |CompleteKeys(rows)|)
      ensures (duplicatesRemoved - old(duplicatesRemoved)) + (missingValuesDropped - old(missingValuesDropped))
              == |rows| - |out|
      ensures old(duplicatesRemoved) <= duplicatesRemoved && old(missingValuesDropped) <= missingValuesDropped
    {
      var unique := RemoveDuplicates(rows);
      out := HandleMissingValues(unique);
      CleansingDropCounts(rows);
    }
  }

  /** Cleansing an already cleansed batch returns it unchanged and leaves both counters as they were. */
  method CleanseTwice(cleaner: DataCleaner, rows: seq<Row>) returns (first: seq<Row>, second: seq<Row>)
    modifies cleaner
    ensures second == first == Cleansed(rows)
    ensures cleaner.Stats() == CleansingStats(old(cleaner.duplicatesRemoved) + (|rows| - |Deduplicated(rows)|),
                                              old(cleaner.missingValuesDropped) + (|Deduplicated(rows)| - |first|))
  {
    first := cleaner.Cleanse(rows);
    var afterFirst := cleaner.Stats();
    CleansedIdempotent(rows);
    CleansingDropCounts(rows);
    second := cleaner.Cleanse(first);
    assert cleaner.Stats() == afterFirst;
  }
}
