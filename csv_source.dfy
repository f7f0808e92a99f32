/**
 * The two reads of scripts/batch_loader.py that touch the CSV file: the
 * row-range read of a chunk load and `get_csv_row_count`.
 *
 * A file is modelled twice: as its header plus the already parsed data rows
 * (what pandas hands back), and as raw text (what the line counter iterates).
 */
module CsvSource {
  import opened Records

  /** A CSV file after parsing: the header line and the data rows, in file order. */
  datatype CsvFile = CsvFile(header: seq<string>, rows: seq<Row>)

  function Min(a: int, b: int): int {
    if a <= b then a else b
  }

  /**
   * `pd.read_csv(path, skiprows=range(1, startRow + 1), nrows=nrows)`: the
   * header (line 0) is kept, the next `startRow` lines are skipped, and at
   * most `nrows` of the data rows after them are parsed.
   */
  function ReadChunk(file: CsvFile, startRow: nat, nrows: nat): seq<Row> {
    var remaining := if startRow <= |file.rows| then file.rows[startRow..] else [];
    if nrows <= |remaining| then remaining[..nrows] else remaining
  }

  /**
   * A chunk load of `[startRow, endRow)` reads exactly the data rows with
   * those indices that the file has: all `endRow - startRow` of them when the
   * file is long enough, fewer when it ends first, none when the range is empty.
   */
  lemma ChunkIsRowRange(file: CsvFile, startRow: nat, endRow: nat)
    requires startRow <= endRow
    ensures var chunk := ReadChunk(file, startRow, endRow - startRow);
            && chunk == file.rows[Min(startRow, |file.rows|)..Min(endRow, |file.rows|)]
            && |chunk| <= endRow - startRow
            && (endRow <= |file.rows| ==> |chunk| == endRow - startRow)
            && (startRow == endRow ==> chunk == [])
            && forall k :: 0 <= k < |chunk| ==> startRow + k < |file.rows| && chunk[k] == file.rows[startRow + k]
  {
  }

  /**
   * Adjacent chunks read adjacent rows: loading `[a, b)` and `[b, c)` reads
   * the same rows, in the same order, as loading `[a, c)`. In particular
   * chunks `[0, b)` and `[b, n)` together read the whole file.
   */
  lemma AdjacentChunks(file: CsvFile, a: nat, b: nat, c: nat)
    requires a <= b <= c
    ensures ReadChunk(file, a, b - a) + ReadChunk(file, b, c - b) == ReadChunk(file, a, c - a)
    ensures ReadChunk(file, 0, |file.rows|) == file.rows
  {
  }

  // ---------------------------------------------------------------------------
  // get_csv_row_count

  /** The number of newline characters in `text`. */
  function NewlineCount(text: string): nat {
    if text == [] then 0
    else NewlineCount(text[..|text| - 1]) + (if text[|text| - 1] == '\n' then 1 else 0)
  }

  /**
   * The number of lines iterating over a text file yields: one per newline,
   * plus a final line that has no newline after it, when there is one.
   */
  function LineCount(text: string): nat {
    NewlineCount(text) + (if text != [] && text[|text| - 1] != '\n' then 1 else 0)
  }

  /** `get_csv_row_count`: the line count less one for the header. */
  function RowCount(text: string): (n: int)
    ensures n >= -1
    ensures n == -1 <==> text == []
  {
    LineCount(text) - 1
  }

  /** The text of `lines`, each followed by a newline. */
  function Terminated(lines: seq<string>): string {
    if lines == [] then []
    else Terminated(lines[..|lines| - 1]) + lines[|lines| - 1] + "\n"
  }

  predicate NoNewline(line: string) {
    '\n' !in line
  }

  lemma {:induction false} NewlineCountAppend(a: string, b: string)
    ensures NewlineCount(a + b) == NewlineCount(a) + NewlineCount(b)
    decreases |b|
  {
    if b == [] {
      assert a + b == a;
    } else {
      assert (a + b)[..|a + b| - 1] == a + b[..|b| - 1];
      assert (a + b)[|a + b| - 1] == b[|b| - 1];
      NewlineCountAppend(a, b[..|b| - 1]);
    }
  }

  lemma {:induction false} NewlineCountNone(line: string)
    requires NoNewline(line)
    ensures NewlineCount(line) == 0
    decreases |line|
  {
    if line != [] {
      assert line[..|line| - 1] + [line[|line| - 1]] == line;
      NewlineCountNone(line[..|line| - 1]);
    }
  }

  lemma {:induction false} NewlineCountTerminated(lines: seq<string>)
    requires forall i :: 0 <= i < |lines| ==> NoNewline(lines[i])
    ensures NewlineCount(Terminated(lines)) == |lines|
    decreases |lines|
  {
    if lines != [] {
      var init, last := lines[..|lines| - 1], lines[|lines| - 1];
      NewlineCountTerminated(init);
      NewlineCountAppend(Terminated(init), last);
      NewlineCountAppend(Terminated(init) + last, "\n");
      NewlineCountNone(last);
    }
  }

  /**
   * A file made of a header line and data lines has as many rows as data
   * lines, whether or not its last line ends with a newline (a final line
   * without one counts when it is not empty).
   */
  lemma RowCountOfLines(header: string, data: seq<string>)
    requires NoNewline(header) && forall i :: 0 <= i < |data| ==> NoNewline(data[i])
    ensures RowCount(Terminated([header] + data)) == |data|
    ensures data != [] && data[|data| - 1] != [] ==>
              RowCount(Terminated([header] + data[..|data| - 1]) + data[|data| - 1]) == |data|
  {
    var lines := [header] + data;
    NewlineCountTerminated(lines);
    assert Terminated(lines) != [];
    if data != [] && data[|data| - 1] != [] {
      var init, last := lines[..|lines| - 1], data[|data| - 1];
      assert init == [header] + data[..|data| - 1];
      NewlineCountTerminated(init);
      NewlineCountAppend(Terminated(init), last);
      NewlineCountNone(last);
      var text := Terminated(init) + last;
      assert text[|text| - 1] == last[|last| - 1];
      assert last[|last| - 1] in last;
    }
  }
}
