/**
 * Sensor-reading records as the cleaner and the loader see them, and the
 * sequence vocabulary (keys, uniqueness, subsequences) their properties use.
 *
 * A record is one row of the CSV file after parsing: the two key columns
 * `ts` and `device`, each possibly missing (pandas' NaN), and the remaining
 * columns, which the pipeline never inspects.
 */
module Records {
  import opened Wrappers

  /** A parsed cell value. */
  datatype Value = Text(text: string) | Number(number: int)

  /** One row: the key columns and every other column, by name. */
  datatype Row = Row(ts: Option<Value>, device: Option<Value>, rest: map<string, Option<Value>>)

  /** The `(ts, device)` pair duplicates are detected on; a missing cell equals a missing cell. */
  datatype RowKey = RowKey(ts: Option<Value>, device: Option<Value>)

  function KeyOf(r: Row): RowKey {
    RowKey(r.ts, r.device)
  }

  /** Both key columns are present. */
  predicate CompleteKey(k: RowKey) {
    k.ts.Some? && k.device.Some?
  }

  predicate Complete(r: Row) {
    CompleteKey(KeyOf(r))
  }

  /** The set of distinct keys occurring in `rows`. */
  function Keys(rows: seq<Row>): set<RowKey> {
    set r | r in rows :: KeyOf(r)
  }

  /** The distinct keys of `rows` whose two columns are both present. */
  function CompleteKeys(rows: seq<Row>): set<RowKey> {
    set k | k in Keys(rows) && CompleteKey(k)
  }

  /** No two rows share a key. */
  ghost predicate UniqueKeys(rows: seq<Row>) {
    forall i, j :: 0 <= i < j < |rows| ==> KeyOf(rows[i]) != KeyOf(rows[j])
  }

  ghost predicate AllComplete(rows: seq<Row>) {
    forall i :: 0 <= i < |rows| ==> Complete(rows[i])
  }

  /** `s` is obtained from `t` by deleting elements, the rest kept in order. */
  ghost predicate IsSubsequence<T>(s: seq<T>, t: seq<T>)
    decreases |t|
  {
    if s == [] then true
    else if t == [] then false
    else (s[|s| - 1] == t[|t| - 1] && IsSubsequence(s[..|s| - 1], t[..|t| - 1]))
         || IsSubsequence(s, t[..|t| - 1])
  }

  /** The first row of `rows` that has key `k`, if any. */
  function FirstWithKey(rows: seq<Row>, k: RowKey): Option<Row> {
    if rows == [] then None
    else if KeyOf(rows[0]) == k then Some(rows[0])
    else FirstWithKey(rows[1..], k)
  }

  lemma KeysAppend(rows: seq<Row>, r: Row)
    ensures Keys(rows + [r]) == Keys(rows) + {KeyOf(r)}
  {
  }

  lemma CompleteKeysAppend(rows: seq<Row>, r: Row)
    ensures CompleteKeys(rows + [r]) == CompleteKeys(rows) + (if Complete(r) then {KeyOf(r)} else {})
  {
    KeysAppend(rows, r);
  }

  lemma UniqueKeysAppend(rows: seq<Row>, r: Row)
    ensures UniqueKeys(rows + [r]) <==> UniqueKeys(rows) && KeyOf(r) !in Keys(rows)
  {
    var s := rows + [r];
    if UniqueKeys(s) {
      assert forall i, j :: 0 <= i < j < |rows| ==> s[i] == rows[i] && s[j] == rows[j];
      forall x | x in rows ensures KeyOf(x) != KeyOf(r) {
        var i :| 0 <= i < |rows| && rows[i] == x;
        assert s[i] == x && s[|rows|] == r;
      }
    }
    if UniqueKeys(rows) && KeyOf(r) !in Keys(rows) {
      forall i, j | 0 <= i < j < |s| ensures KeyOf(s[i]) != KeyOf(s[j]) {
        if j == |rows| {
          assert s[i] == rows[i] && rows[i] in rows;
        } else {
          assert s[i] == rows[i] && s[j] == rows[j];
        }
      }
    }
  }

  lemma {:induction false} FirstWithKeyAppend(rows: seq<Row>, r: Row, k: RowKey)
    ensures FirstWithKey(rows + [r], k) ==
      if FirstWithKey(rows, k).Some? then FirstWithKey(rows, k)
      else if KeyOf(r) == k then Some(r) else None
  {
    if rows != [] {
      assert (rows + [r])[1..] == rows[1..] + [r];
      FirstWithKeyAppend(rows[1..], r, k);
    }
  }

  /** A key has a first row exactly when it occurs. */
  lemma {:induction false} FirstWithKeyFound(rows: seq<Row>, k: RowKey)
    ensures FirstWithKey(rows, k).Some? <==> k in Keys(rows)
    ensures FirstWithKey(rows, k).Some? ==>
      FirstWithKey(rows, k).value in rows && KeyOf(FirstWithKey(rows, k).value) == k
  {
    if rows != [] {
      FirstWithKeyFound(rows[1..], k);
      assert rows == [rows[0]] + rows[1..];
      assert Keys(rows) == {KeyOf(rows[0])} + Keys(rows[1..]) by {
        forall x | x in rows ensures x == rows[0] || x in rows[1..] {}
      }
    }
  }

  /** Deleting elements twice is deleting elements once. */
  lemma {:induction false} SubsequenceTransitive<T>(a: seq<T>, b: seq<T>, c: seq<T>)
    requires IsSubsequence(a, b) && IsSubsequence(b, c)
    ensures IsSubsequence(a, c)
    decreases |c|
  {
    if a != [] {
      assert b != [] && c != [];
      var c' := c[..|c| - 1];
      if IsSubsequence(b, c') {
        SubsequenceTransitive(a, b, c');
      } else {
        var b' := b[..|b| - 1];
        assert b[|b| - 1] == c[|c| - 1] && IsSubsequence(b', c');
        if a[|a| - 1] == b[|b| - 1] && IsSubsequence(a[..|a| - 1], b') {
          SubsequenceTransitive(a[..|a| - 1], b', c');
        } else {
          assert IsSubsequence(a, b');
          SubsequenceTransitive(a, b', c');
        }
      }
    }
  }
}
