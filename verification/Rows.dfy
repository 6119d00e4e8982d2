// The row pipeline: rows compressed against their predecessors, expanded into column builders.
module Rows {
  import opened Bytes

  type Cell = Option<seq<byte>>
  type Row = seq<Cell>

  /** What the row code asks of a column: buffered as object images, and null by describe (nothing is ever sent). */
  datatype Column = Column(isObject: bool, alwaysNull: bool)

  // ---- compression ----

  /** The messages of a fetch response that concern rows. A row header's vector may be empty: none. */
  datatype Message =
    | BitVector(bits: seq<byte>)
    | RowHeader(bits: seq<byte>)
    | RowData(sent: seq<Cell>)

  function Mask(k: nat): (m: nat)
    requires k < 8
    ensures m > 0
  {
    [1, 2, 4, 8, 16, 32, 64, 128][k]
  }

  predicate BitSet(bits: seq<byte>, col: nat)
    requires col / 8 < |bits|
  {
    bits[col / 8] / Mask(col % 8) % 2 == 1
  }

  /** A clear bit means: same as in the previous row. Without a vector every column is sent. */
  predicate Duplicate(vec: Option<seq<byte>>, col: nat)
    requires vec.Some? ==> col / 8 < |vec.value|
  {
    vec.Some? && !BitSet(vec.value, col)
  }

  predicate Covers(vec: Option<seq<byte>>, n: nat) {
    vec.Some? ==> n <= 8 * |vec.value|
  }

  /** The cells of the first n columns that travel. */
  function SentOf(cols: seq<Column>, vec: Option<seq<byte>>, row: Row, n: nat): seq<Cell>
    requires n <= |cols| == |row| && Covers(vec, |cols|)
  {
    if n == 0 then []
    else SentOf(cols, vec, row, n - 1)
         + if Duplicate(vec, n - 1) || cols[n - 1].alwaysNull then [] else [row[n - 1]]
  }

  /** The vector and the cells sent stand for the row, behind `prev`. */
  ghost predicate Stands(cols: seq<Column>, prev: Option<Row>, vec: Option<seq<byte>>, sent: seq<Cell>, row: Row) {
    |row| == |cols| && Covers(vec, |cols|)
    && sent == SentOf(cols, vec, row, |cols|)
    && forall c :: 0 <= c < |cols| ==> Unsent(cols, prev, vec, row, c)
  }

  /** A column that is not sent repeats the previous row, or is null by describe. */
  predicate Unsent(cols: seq<Column>, prev: Option<Row>, vec: Option<seq<byte>>, row: Row, c: nat)
    requires c < |cols| == |row| && Covers(vec, |cols|)
  {
    if Duplicate(vec, c) then prev.Some? && |prev.value| == |cols| && row[c] == prev.value[c]
    else cols[c].alwaysNull ==> row[c] == None
  }

  /** The messages of one response stand for the rows, behind `prev` and with vector `vec` in force. */
  ghost predicate Stream(cols: seq<Column>, prev: Option<Row>, vec: Option<seq<byte>>, msgs: seq<Message>, rows: seq<Row>)
    decreases |msgs|
  {
    if msgs == [] then rows == []
    else match msgs[0]
      case BitVector(bits) => Stream(cols, prev, Some(bits), msgs[1..], rows)
      case RowHeader(bits) => Stream(cols, prev, if bits == [] then vec else Some(bits), msgs[1..], rows)
      case RowData(sent) =>
        rows != [] && Stands(cols, prev, vec, sent, rows[0]) && Stream(cols, Some(rows[0]), None, msgs[1..], rows[1..])
  }

  /** The row in front of whatever comes next. */
  function LastRow(prev: Option<Row>, rows: seq<Row>): Option<Row> {
    if rows == [] then prev else Some(rows[|rows| - 1])
  }

  predicate IsRow(cols: seq<Column>, row: Row) {
    |row| == |cols| && forall c :: 0 <= c < |cols| && cols[c].alwaysNull ==> row[c] == None
  }

  predicate IsTable(cols: seq<Column>, rows: seq<Row>) {
    forall k :: 0 <= k < |rows| ==> IsRow(cols, rows[k])
  }

  /** Nothing left out: every table has at least this stream. */
  function Plain(cols: seq<Column>, rows: seq<Row>): seq<Message>
    requires IsTable(cols, rows)
  {
    if rows == [] then [] else [RowData(SentOf(cols, None, rows[0], |cols|))] + Plain(cols, rows[1..])
  }

  lemma {:induction false} PlainStream(cols: seq<Column>, prev: Option<Row>, rows: seq<Row>)
    requires IsTable(cols, rows)
    ensures Stream(cols, prev, None, Plain(cols, rows), rows)
    decreases |rows|
  {
    if rows != [] {
      PlainStream(cols, Some(rows[0]), rows[1..]);
      var msgs := Plain(cols, rows);
      assert msgs[1..] == Plain(cols, rows[1..]);
    }
  }

  lemma {:induction false} SentLength(cols: seq<Column>, vec: Option<seq<byte>>, a: Row, b: Row, n: nat)
    requires n <= |cols| == |a| == |b| && Covers(vec, |cols|)
    ensures |SentOf(cols, vec, a, n)| == |SentOf(cols, vec, b, n)|
  {
    hide Duplicate;
    if n > 0 {
      SentLength(cols, vec, a, b, n - 1);
    }
  }

  lemma {:induction false} SentAgrees(cols: seq<Column>, vec: Option<seq<byte>>, a: Row, b: Row, n: nat)
    requires n <= |cols| == |a| == |b| && Covers(vec, |cols|) && SentOf(cols, vec, a, n) == SentOf(cols, vec, b, n)
    ensures forall c :: 0 <= c < n && !Duplicate(vec, c) && !cols[c].alwaysNull ==> a[c] == b[c]
  {
    hide Duplicate;
    if n > 0 {
      SentLength(cols, vec, a, b, n - 1);
      var x, y := SentOf(cols, vec, a, n - 1), SentOf(cols, vec, b, n - 1);
      if Duplicate(vec, n - 1) || cols[n - 1].alwaysNull {
        assert x + [] == x && y + [] == y;
      } else {
        assert (x + [a[n - 1]])[|x|] == a[n - 1] && (y + [b[n - 1]])[|y|] == b[n - 1];
        assert (x + [a[n - 1]])[..|x|] == x && (y + [b[n - 1]])[..|y|] == y;
      }
      SentAgrees(cols, vec, a, b, n - 1);
    }
  }

  lemma OneRow(cols: seq<Column>, prev: Option<Row>, vec: Option<seq<byte>>, sent: seq<Cell>, a: Row, b: Row)
    requires Stands(cols, prev, vec, sent, a) && Stands(cols, prev, vec, sent, b)
    ensures a == b
  {
    SentAgrees(cols, vec, a, b, |cols|);
    forall c | 0 <= c < |cols|
      ensures a[c] == b[c]
    {
      assert Unsent(cols, prev, vec, a, c) && Unsent(cols, prev, vec, b, c);
    }
  }

  /** A stream stands for one table only. */
  lemma {:induction false} OneTable(cols: seq<Column>, prev: Option<Row>, vec: Option<seq<byte>>, msgs: seq<Message>, a: seq<Row>, b: seq<Row>)
    requires Stream(cols, prev, vec, msgs, a) && Stream(cols, prev, vec, msgs, b)
    ensures a == b
    decreases |msgs|
  {
    if msgs != [] {
      match msgs[0]
      case BitVector(bits) => OneTable(cols, prev, Some(bits), msgs[1..], a, b);
      case RowHeader(bits) => OneTable(cols, prev, if bits == [] then vec else Some(bits), msgs[1..], a, b);
      case RowData(sent) =>
        OneRow(cols, prev, vec, sent, a[0], b[0]);
        OneTable(cols, Some(a[0]), None, msgs[1..], a[1..], b[1..]);
        assert a == [a[0]] + a[1..] && b == [b[0]] + b[1..];
    }
  }

  // ---- columns ----

  function ColumnOf(rows: seq<Row>, c: nat): (cells: seq<Cell>)
    requires forall r :: r in rows ==> c < |r|
    ensures |cells| == |rows|
  {
    if rows == [] then [] else ColumnOf(rows[..|rows| - 1], c) + [rows[|rows| - 1][c]]
  }

  lemma {:induction false} ColumnAt(rows: seq<Row>, c: nat, i: nat)
    requires i < |rows| && forall r :: r in rows ==> c < |r|
    ensures ColumnOf(rows, c)[i] == rows[i][c]
  {
    if i < |rows| - 1 {
      ColumnAt(rows[..|rows| - 1], c, i);
    }
  }

  /** Approximate size of a value in a batch: nulls are free. */
  function CellBytes(cell: Cell): nat {
    match cell case None => 0 case Some(bs) => |bs| + 8
  }

  function CellsBytes(row: Row): nat {
    if row == [] then 0 else CellsBytes(row[..|row| - 1]) + CellBytes(row[|row| - 1])
  }

  function RowsBytes(rows: seq<Row>): nat {
    if rows == [] then 0 else RowsBytes(rows[..|rows| - 1]) + CellsBytes(rows[|rows| - 1])
  }
}
