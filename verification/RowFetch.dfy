// A fetch response: its row messages, expanded into the sink.
module RowFetch {
  import opened Bytes
  import opened Rows
  import RowPacking
  import opened ArrowSink

  lemma {:induction false} SentPrefix(cols: seq<Column>, vec: Option<seq<byte>>, row: Row, i: nat, n: nat)
    requires i <= n <= |cols| == |row| && Covers(vec, |cols|)
    ensures SentOf(cols, vec, row, i) <= SentOf(cols, vec, row, n)
    decreases n
  {
    hide Duplicate;
    if i < n {
      SentPrefix(cols, vec, row, i, n - 1);
    }
  }

  /** A column that travels is the next of the cells sent. */
  lemma NextSent(cols: seq<Column>, vec: Option<seq<byte>>, row: Row, i: nat)
    requires i < |cols| == |row| && Covers(vec, |cols|) && !Duplicate(vec, i) && !cols[i].alwaysNull
    ensures var k, all := |SentOf(cols, vec, row, i)|, SentOf(cols, vec, row, |cols|);
            k < |all| && all[k] == row[i] && |SentOf(cols, vec, row, i + 1)| == k + 1
  {
    hide Duplicate;
    SentPrefix(cols, vec, row, i + 1, |cols|);
    assert SentOf(cols, vec, row, i + 1)[|SentOf(cols, vec, row, i)|] == row[i];
  }

  predicate TableConverts(cols: seq<Column>, accepts: Accepts, rows: seq<Row>)
    requires forall k :: 0 <= k < |rows| ==> |rows[k]| == |cols|
  {
    forall k :: 0 <= k < |rows| ==> AllConvert(cols, accepts, rows[k], |cols|)
  }

  /** The sink between two rows. */
  ghost predicate AtBoundary(sink: Sink)
    reads sink
  {
    sink.Valid() && sink.partial == [] && !sink.err
  }

  lemma {:induction false} StreamIsTable(cols: seq<Column>, prev: Option<Row>, vec: Option<seq<byte>>, msgs: seq<Message>, rows: seq<Row>)
    requires Stream(cols, prev, vec, msgs, rows)
    ensures forall k :: 0 <= k < |rows| ==> |rows[k]| == |cols|
    decreases |msgs|
  {
    hide Stands;
    if msgs != [] {
      match msgs[0]
      case BitVector(bits) => StreamIsTable(cols, prev, Some(bits), msgs[1..], rows);
      case RowHeader(bits) => StreamIsTable(cols, prev, if bits == [] then vec else Some(bits), msgs[1..], rows);
      case RowData(sent) =>
        StreamIsTable(cols, Some(rows[0]), None, msgs[1..], rows[1..]);
        StandsIsRow(cols, prev, vec, sent, rows[0]);
        assert rows == [rows[0]] + rows[1..];
    }
  }

  lemma StandsIsRow(cols: seq<Column>, prev: Option<Row>, vec: Option<seq<byte>>, sent: seq<Cell>, row: Row)
    requires Stands(cols, prev, vec, sent, row)
    ensures |row| == |cols| && Covers(vec, |cols|)
  {
  }

  /** A fetch message: its bit vector lasts for one row. */
  class FetchMessage {
    const sink: Sink
    var bitVector: seq<byte>
    var haveBitVector: bool
    var rowIndex: nat

    constructor (sink: Sink)
      ensures this.sink == sink && Vector() == None && rowIndex == 0
    {
      this.sink := sink;
      bitVector, haveBitVector, rowIndex := [], false, 0;
    }

    function Vector(): Option<seq<byte>>
      reads this
    {
      if haveBitVector then Some(bitVector) else None
    }

    method GetBitVector(bits: seq<byte>)
      modifies this
      ensures Vector() == Some(bits) && rowIndex == old(rowIndex)
    {
      bitVector := bits;
      haveBitVector := true;
    }

    method IsDuplicate(col: nat) returns (d: bool)
      requires haveBitVector ==> col / 8 < |bitVector|
      ensures d == Duplicate(Vector(), col)
      ensures d <==> haveBitVector && FromLE(bitVector) / RowPacking.Pow2(col) % 2 == 0
    {
      if !haveBitVector {
        return false;
      }
      RowPacking.BitIsDigit(bitVector, col);
      d := bitVector[col / 8] / Mask(col % 8) % 2 == 0;
    }

    /** One column of a row: a duplicate, null by describe, or the next cell sent. */
    method ProcessColumn(i: nat, sent: seq<Cell>, next: nat, ghost row: Row) returns (ok: bool, next': nat)
      requires sink.Valid() && !sink.err && i < |sink.cols| && Stands(sink.cols, sink.prev, Vector(), sent, row)
      requires sink.partial == row[..i] && next == |SentOf(sink.cols, Vector(), row, i)|
      modifies sink
      ensures sink.Valid() && sink.done == old(sink.done) && sink.prev == old(sink.prev)
      ensures ok == Converts(sink.cols, sink.accepts, i, row[i]) && sink.err == !ok
      ensures ok ==> sink.partial == row[..i + 1] && next' == |SentOf(sink.cols, Vector(), row, i + 1)|
    {
      hide AllHold, SentOf, Duplicate;
      ghost var cols, vec := sink.cols, Vector();
      assert Unsent(cols, sink.prev, vec, row, i);
      assert row[..i + 1] == row[..i] + [row[i]];
      next' := next;
      var dup := IsDuplicate(i);
      SentStep(cols, vec, row, i);
      if dup {
        ok := sink.AppendDuplicate(i, row[i]);
      } else if sink.cols[i].alwaysNull {
        ok := sink.AppendNull(i);
      } else {
        NextSent(cols, vec, row, i);
        var cell := sent[next];
        next' := next + 1;
        if cell.None? {
          ok := sink.AppendNull(i);
        } else {
          ok := sink.AppendValue(i, cell.value);
        }
      }
    }

    lemma SentStep(cols: seq<Column>, vec: Option<seq<byte>>, row: Row, i: nat)
      requires i < |cols| == |row| && Covers(vec, |cols|)
      ensures Duplicate(vec, i) || cols[i].alwaysNull ==> SentOf(cols, vec, row, i + 1) == SentOf(cols, vec, row, i)
    {
    }

    /** processRowData while fetching: the row the message stands for becomes the sink's next row. */
    method ProcessRowData(sent: seq<Cell>, ghost row: Row) returns (ok: bool)
      requires AtBoundary(sink) && Stands(sink.cols, sink.prev, Vector(), sent, row)
      modifies this, sink
      ensures |row| == |sink.cols| && ok == AllConvert(sink.cols, sink.accepts, row, |row|)
      ensures ok ==> AtBoundary(sink) && sink.done == old(sink.done) + [row] && sink.prev == Some(row)
      ensures ok ==> Vector() == None && rowIndex == old(rowIndex) + 1
      ensures !ok ==> sink.Valid() && sink.err && sink.done == old(sink.done)
    {
      hide AllHold, SentOf;
      var i, next := 0, 0;
      assert |SentOf(sink.cols, Vector(), row, 0)| == 0 by { NothingSentYet(sink.cols, Vector(), row); }
      while i < |sink.cols|
        invariant 0 <= i <= |sink.cols| && sink.Valid() && !sink.err && Vector() == old(Vector()) && rowIndex == old(rowIndex)
        invariant sink.done == old(sink.done) && sink.prev == old(sink.prev)
        invariant sink.partial == row[..i] && next == |SentOf(sink.cols, Vector(), row, i)|
        invariant AllConvert(sink.cols, sink.accepts, row, i)
      {
        ok, next := ProcessColumn(i, sent, next, row);
        if !ok {
          return;
        }
        i := i + 1;
      }
      assert row[..i] == row;
      rowIndex := rowIndex + 1;
      haveBitVector := false;
      ok := sink.FinishRow();
    }

    lemma NothingSentYet(cols: seq<Column>, vec: Option<seq<byte>>, row: Row)
      requires |cols| == |row| && Covers(vec, |cols|)
      ensures SentOf(cols, vec, row, 0) == []
    {
    }

    /** One message of the response. */
    method ProcessMessage(msg: Message, ghost rest: seq<Message>, ghost rows: seq<Row>) returns (ok: bool, ghost left: seq<Row>)
      requires AtBoundary(sink) && Stream(sink.cols, sink.prev, Vector(), [msg] + rest, rows)
      modifies this, sink
      ensures forall k :: 0 <= k < |rows| ==> |rows[k]| == |sink.cols|
      ensures ok ==> AtBoundary(sink) && Stream(sink.cols, sink.prev, Vector(), rest, left)
      ensures ok ==> |left| <= |rows| && left == rows[|rows| - |left|..]
      ensures ok ==> sink.done == old(sink.done) + rows[..|rows| - |left|]
      ensures ok ==> sink.prev == LastRow(old(sink.prev), rows[..|rows| - |left|])
      ensures ok ==> TableConverts(sink.cols, sink.accepts, rows[..|rows| - |left|])
      ensures !ok ==> sink.err && !TableConverts(sink.cols, sink.accepts, rows)
    {
      hide AllHold, Stands;
      StreamIsTable(sink.cols, sink.prev, Vector(), [msg] + rest, rows);
      assert ([msg] + rest)[1..] == rest;
      left, ok := rows, true;
      match msg
      case BitVector(bits) =>
        GetBitVector(bits);
      case RowHeader(bits) =>
        if bits != [] {
          GetBitVector(bits);
        }
      case RowData(sent) =>
        ok := ProcessRowData(sent, rows[0]);
        left := rows[1..];
        assert rows[..1] == [rows[0]];
    }

    /** A whole response. */
    method Process(msgs: seq<Message>, ghost rows: seq<Row>) returns (ok: bool)
      requires AtBoundary(sink) && Vector() == None && Stream(sink.cols, sink.prev, None, msgs, rows)
      modifies this, sink
      ensures forall k :: 0 <= k < |rows| ==> |rows[k]| == |sink.cols|
      ensures ok == TableConverts(sink.cols, sink.accepts, rows)
      ensures ok ==> AtBoundary(sink) && sink.done == old(sink.done) + rows && sink.prev == LastRow(old(sink.prev), rows)
      ensures !ok ==> sink.err
    {
      hide AllHold, Stream;
      StreamIsTable(sink.cols, sink.prev, None, msgs, rows);
      ghost var left := rows;
      var i := 0;
      assert msgs[0..] == msgs && rows[..0] == [];
      while i < |msgs|
        invariant 0 <= i <= |msgs| && AtBoundary(sink)
        invariant Stream(sink.cols, sink.prev, Vector(), msgs[i..], left)
        invariant |left| <= |rows| && left == rows[|rows| - |left|..]
        invariant sink.done == old(sink.done) + rows[..|rows| - |left|]
        invariant sink.prev == LastRow(old(sink.prev), rows[..|rows| - |left|])
        invariant TableConverts(sink.cols, sink.accepts, rows[..|rows| - |left|])
      {
        assert msgs[i..] == [msgs[i]] + msgs[i + 1..];
        ghost var before := left;
        ok, left := ProcessMessage(msgs[i], msgs[i + 1..], left);
        if !ok {
          return;
        }
        i := i + 1;
      }
      assert left == [] by { EmptyStream(sink.cols, sink.prev, Vector(), msgs[i..], left); }
      assert rows[..|rows|] == rows;
      ok := true;
    }
  }

  lemma EmptyStream(cols: seq<Column>, prev: Option<Row>, vec: Option<seq<byte>>, msgs: seq<Message>, rows: seq<Row>)
    requires msgs == [] && Stream(cols, prev, vec, msgs, rows)
    ensures rows == []
  {
  }

}
