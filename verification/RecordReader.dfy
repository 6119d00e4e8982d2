// The record reader: fetches into the sink, and cuts what it holds into bounded batches.
module RecordReader {
  import opened Bytes
  import opened Rows
  import opened ArrowSink
  import opened RowFetch

  // ---- records ----

  datatype Record = Record(numRows: nat, columns: seq<seq<Cell>>)

  /** The record is these rows, column by column. */
  ghost predicate IsRecord(cols: seq<Column>, rec: Record, rows: seq<Row>) {
    rec.numRows == |rows| && |rec.columns| == |cols|
    && (forall r :: r in rows ==> |r| == |cols|)
    && forall c :: 0 <= c < |cols| ==> rec.columns[c] == ColumnOf(rows, c)
  }

  ghost predicate AreRecords(cols: seq<Column>, recs: seq<Record>, tables: seq<seq<Row>>) {
    |recs| == |tables| && forall i :: 0 <= i < |recs| ==> IsRecord(cols, recs[i], tables[i]) && tables[i] != []
  }

  lemma SliceOfColumn(rows: seq<Row>, c: nat, a: nat, b: nat)
    requires a <= b <= |rows| && forall r :: r in rows ==> c < |r|
    ensures ColumnOf(rows, c)[a..b] == ColumnOf(rows[a..b], c)
  {
    forall i | 0 <= i < b - a
      ensures ColumnOf(rows, c)[a + i] == ColumnOf(rows[a..b], c)[i]
    {
      ColumnAt(rows, c, a + i);
      ColumnAt(rows[a..b], c, i);
    }
  }

  /** rec.NewSlice: the same rows of every column. */
  method NewSlice(cols: seq<Column>, rec: Record, a: nat, b: nat, ghost rows: seq<Row>) returns (s: Record)
    requires IsRecord(cols, rec, rows) && a <= b <= rec.numRows
    ensures IsRecord(cols, s, rows[a..b])
  {
    hide ColumnOf;
    var columns: seq<seq<Cell>> := [];
    var c := 0;
    while c < |rec.columns|
      invariant 0 <= c <= |rec.columns| && |columns| == c
      invariant forall k :: 0 <= k < c ==> columns[k] == ColumnOf(rows[a..b], k)
    {
      SliceOfColumn(rows, c, a, b);
      assert rec.columns[c] == ColumnOf(rows, c);
      columns := columns + [rec.columns[c][a..b]];
      c := c + 1;
    }
    s := Record(b - a, columns);
  }

  /** Consecutive pieces of `per` rows, the last one shorter. */
  function Pieces(rows: seq<Row>, per: nat): seq<seq<Row>>
    requires per > 0
    decreases |rows|
  {
    if rows == [] then [] else if |rows| <= per then [rows] else [rows[..per]] + Pieces(rows[per..], per)
  }

  lemma NoPieces(per: nat)
    requires per > 0
    ensures Pieces([], per) == []
  {
  }

  lemma FirstPiece(rows: seq<Row>, per: nat, n: nat)
    requires per > 0 && rows != [] && n == if |rows| <= per then |rows| else per
    ensures Pieces(rows, per) == [rows[..n]] + Pieces(rows[n..], per)
  {
    assert rows[..|rows|] == rows && [rows] + [] == [rows];
  }

  /** They partition the rows in order, none empty and none longer than asked. */
  lemma {:induction false} PiecesPartition(rows: seq<Row>, per: nat)
    requires per > 0
    ensures Flatten(Pieces(rows, per)) == rows
    ensures forall p :: p in Pieces(rows, per) ==> 0 < |p| <= per && |p| <= |rows|
    ensures rows != [] ==> Pieces(rows, per) != []
    decreases |rows|
  {
    if rows != [] {
      FlattenHead(Pieces(rows, per));
      if |rows| > per {
        PiecesPartition(rows[per..], per);
        assert Pieces(rows, per)[1..] == Pieces(rows[per..], per);
        assert rows[..per] + rows[per..] == rows;
      } else {
        assert Flatten(Pieces(rows, per)[1..]) == [] && rows + [] == rows;
      }
    }
  }

  /** The slicing loop: the records of those pieces. */
  method Slices(cols: seq<Column>, rec: Record, per: nat, ghost rows: seq<Row>) returns (slices: seq<Record>)
    requires IsRecord(cols, rec, rows) && per > 0
    ensures AreRecords(cols, slices, Pieces(rows, per))
  {
    hide IsRecord, Pieces;
    slices := [];
    ghost var parts: seq<seq<Row>> := [];
    var off := 0;
    assert rec.numRows == |rows| by { RecordSize(cols, rec, rows); }
    assert rows[0..] == rows && [] + Pieces(rows, per) == Pieces(rows, per);
    while off < rec.numRows
      invariant 0 <= off <= rec.numRows && AreRecords(cols, slices, parts)
      invariant parts + Pieces(rows[off..], per) == Pieces(rows, per)
    {
      var end := if off + per > rec.numRows then rec.numRows else off + per;
      var s := NewSlice(cols, rec, off, end, rows);
      ghost var left := rows[off..];
      assert rows[off..end] == left[..end - off] && rows[end..] == left[end - off..];
      FirstPiece(left, per, end - off);
      Associate(parts, [rows[off..end]], Pieces(rows[end..], per));
      slices, parts := slices + [s], parts + [rows[off..end]];
      off := end;
    }
    assert rows[off..] == [] && parts + [] == parts;
    NoPieces(per);
  }

  lemma RecordSize(cols: seq<Column>, rec: Record, rows: seq<Row>)
    requires IsRecord(cols, rec, rows)
    ensures rec.numRows == |rows|
  {
  }

  // ---- the server's side of a result ----

  /** The replies stand for the tables, one after the other. */
  ghost predicate Replies(cols: seq<Column>, prev: Option<Row>, replies: seq<seq<Message>>, tables: seq<seq<Row>>)
    decreases |replies|
  {
    |replies| == |tables|
    && (replies != [] ==>
          Stream(cols, prev, None, replies[0], tables[0])
          && Replies(cols, LastRow(prev, tables[0]), replies[1..], tables[1..]))
  }

  /** A value in a row is in order: it converts, and if it is an object image it decodes. */
  ghost predicate Good(cols: seq<Column>, accepts: Accepts, decodes: Accepts, rows: seq<Row>) {
    (forall k :: 0 <= k < |rows| ==> |rows[k]| == |cols|)
    && TableConverts(cols, accepts, rows)
    && forall k, c :: 0 <= k < |rows| && 0 <= c < |cols| && cols[c].isObject && rows[k][c].Some? ==> decodes(c, rows[k][c].value)
  }

  /** The statement: what the server still has to say. Rows come in any number of replies, empty ones included. */
  class Statement {
    const cols: seq<Column>
    var replies: seq<seq<Message>>
    ghost var tables: seq<seq<Row>>
    ghost var delivered: seq<Row>
    ghost var obeyed: bool          // no reply so far had more rows than were asked for

    constructor (cols: seq<Column>, replies: seq<seq<Message>>, ghost tables: seq<seq<Row>>)
      ensures this.cols == cols && this.replies == replies && this.tables == tables && delivered == [] && obeyed
    {
      this.cols, this.replies := cols, replies;
      this.tables, delivered, obeyed := tables, [], true;
    }

    predicate MoreRows()
      reads `replies
    {
      replies != []
    }

    /** Fetch: the next reply goes into the sink. */
    method Fetch(sink: Sink, want: nat) returns (ok: bool)
      requires MoreRows() && AtBoundary(sink) && sink.cols == cols && Replies(cols, sink.prev, replies, tables)
      modifies this, sink
      ensures replies == old(replies[1..]) && tables == old(tables[1..]) && delivered == old(delivered + tables[0])
      ensures obeyed == old(obeyed && |tables[0]| <= want)
      ensures ok ==> AtBoundary(sink) && sink.done == old(sink.done + tables[0]) && Replies(cols, sink.prev, replies, tables)
      ensures !ok ==> sink.err
      ensures forall k :: 0 <= k < |old(tables[0])| ==> |old(tables[0])[k]| == |cols|
      ensures ok == TableConverts(cols, sink.accepts, old(tables[0]))
    {
      hide Stream;
      var msgs := replies[0];
      ghost var rows := tables[0];
      replies := replies[1..];
      tables, delivered, obeyed := tables[1..], delivered + rows, obeyed && |rows| <= want;
      var m := new FetchMessage(sink);
      ok := m.Process(msgs, rows);
    }
  }

  // ---- what is in order, for parts and wholes ----

  lemma GoodParts(cols: seq<Column>, accepts: Accepts, decodes: Accepts, a: seq<Row>, b: seq<Row>)
    requires Good(cols, accepts, decodes, a + b)
    ensures Good(cols, accepts, decodes, a) && Good(cols, accepts, decodes, b)
  {
    var all := a + b;
    forall k | 0 <= k < |a|
      ensures a[k] == all[k]
    {
    }
    forall k | 0 <= k < |b|
      ensures b[k] == all[|a| + k]
    {
    }
  }

  /** Buffered images come from finished rows. */
  lemma EntriesDecode(s: State, c: nat, cols: seq<Column>, accepts: Accepts, decodes: Accepts, rows: seq<Row>, prev: Option<Row>)
    requires c < |cols| && Good(cols, accepts, decodes, rows) && forall r :: r in rows ==> c < |r|
    requires Holds(s, cols[c].isObject, c, rows, [], prev)
    ensures Sink.Decode(decodes, c, s.entries)
  {
    forall e | e in s.entries && e.Some?
      ensures decodes(c, e.value)
    {
      var i :| 0 <= i < |s.entries| && s.entries[i] == e;
      var k := |s.built| + i;
      assert (s.built + s.entries)[k] == e;
      ColumnAt(rows, c, k);
      assert rows[k][c] == e;
    }
  }

  lemma AllEntriesDecode(states: seq<State>, cols: seq<Column>, accepts: Accepts, decodes: Accepts, rows: seq<Row>, prev: Option<Row>)
    requires AllHold(states, cols, rows, [], prev) && Good(cols, accepts, decodes, rows)
    ensures forall c :: 0 <= c < |cols| ==> Sink.Decode(decodes, c, states[c].entries)
  {
    hide Holds, ColumnOf, Good, Sink.Decode;
    forall c | 0 <= c < |cols|
      ensures Sink.Decode(decodes, c, states[c].entries)
    {
      EntriesDecode(states[c], c, cols, accepts, decodes, rows, prev);
    }
  }

  // ---- the reader ----

  class Reader {
    const stmt: Statement
    const sink: Sink
    const decodes: Accepts
    const batchSize: nat
    const batchBytes: nat
    const prefetchRows: nat
    var pending: seq<Record>
    var current: Option<Record>
    var done: bool
    var closed: bool
    var err: bool
    ghost var parts: seq<seq<Row>>   // the rows of the pending records
    ghost var handed: seq<Row>       // the rows of all batches so far, the current one included

    constructor (stmt: Statement, sink: Sink, decodes: Accepts, batchSize: nat, batchBytes: nat, prefetchRows: nat)
      requires batchSize > 0 && prefetchRows > 0 && sink.cols == stmt.cols && AtBoundary(sink) && sink.done == []
      requires Replies(stmt.cols, sink.prev, stmt.replies, stmt.tables) && stmt.delivered == [] && stmt.obeyed
      ensures this.stmt == stmt && this.sink == sink && this.decodes == decodes
      ensures this.batchSize == batchSize && this.batchBytes == batchBytes && this.prefetchRows == prefetchRows
      ensures Live() && !done && !closed && !err && current == None && handed == [] && parts == []
    {
      this.stmt, this.sink, this.decodes := stmt, sink, decodes;
      this.batchSize, this.batchBytes, this.prefetchRows := batchSize, batchBytes, prefetchRows;
      pending, current, done, closed, err, parts, handed := [], None, false, false, false, [], [];
    }

    /** Everything the server delivered is in a batch, in a pending record or in the sink, in this order. */
    ghost predicate Conserved()
      reads this, stmt, sink
    {
      stmt.delivered == handed + Flatten(parts) + sink.done
    }

    /** Batches keep to batchSize if the server keeps to what it is asked for, the execute's prefetch included. */
    ghost predicate Bounded()
      reads this, stmt, sink
    {
      stmt.obeyed && prefetchRows <= batchSize ==>
        |sink.done| <= batchSize && forall i :: 0 <= i < |parts| ==> |parts[i]| <= batchSize
    }

    ghost predicate Live()
      reads this, stmt, sink
    {
      batchSize > 0 && prefetchRows > 0 && sink.cols == stmt.cols
      && AtBoundary(sink) && Replies(stmt.cols, sink.prev, stmt.replies, stmt.tables)
      && |stmt.replies| == |stmt.tables| && AreRecords(stmt.cols, pending, parts) && Conserved() && Bounded()
      && (done ==> stmt.replies == [] && parts == [] && sink.done == [])
      && closed == done && (batchBytes == 0 ==> parts == [])
    }

    /** All rows of the result, whether delivered yet or not. */
    ghost function Result(): seq<Row>
      reads stmt
    {
      stmt.delivered + Flatten(stmt.tables)
    }

    ghost predicate InOrder()
      reads stmt
    {
      Good(stmt.cols, sink.accepts, decodes, Result())
    }

    /** One fetch, keeping the books. */
    method FetchOnce(want: nat) returns (ok: bool)
      requires Live() && stmt.MoreRows() && parts == []
      requires stmt.obeyed && prefetchRows <= batchSize ==> |sink.done| + want <= batchSize
      modifies stmt, sink
      ensures ok ==> Live() && stmt.replies == old(stmt.replies[1..]) && stmt.delivered == old(stmt.delivered + stmt.tables[0])
      ensures Result() == old(Result()) && (!ok ==> !InOrder()) && stmt.obeyed == old(stmt.obeyed && |stmt.tables[0]| <= want)
    {
      hide Stream, AllHold, Good;
      ghost var first, rest := stmt.tables[0], stmt.tables[1..];
      ghost var delivered, held := stmt.delivered, sink.done;
      FlattenHead(stmt.tables);
      ok := stmt.Fetch(sink, want);
      assert delivered + (first + Flatten(rest)) == delivered + first + Flatten(rest);
      if ok {
        assert handed + Flatten(parts) + held + first == handed + Flatten(parts) + (held + first);
      } else {
        BadTable(delivered, first, Flatten(rest));
      }
    }

    lemma BadTable(before: seq<Row>, rows: seq<Row>, after: seq<Row>)
      requires (forall k :: 0 <= k < |rows| ==> |rows[k]| == |stmt.cols|) && !TableConverts(stmt.cols, sink.accepts, rows)
      ensures !Good(stmt.cols, sink.accepts, decodes, before + rows + after)
    {
      if Good(stmt.cols, sink.accepts, decodes, before + rows + after) {
        GoodParts(stmt.cols, sink.accepts, decodes, before + rows, after);
        GoodParts(stmt.cols, sink.accepts, decodes, before, rows);
      }
    }

    /** The execute's own response: up to prefetchRows rows come with it. */
    method Execute() returns (ok: bool)
      requires Live() && stmt.MoreRows() && parts == [] && sink.done == []
      modifies stmt, sink
      ensures ok ==> Live() && stmt.delivered == old(stmt.delivered + stmt.tables[0]) && stmt.replies == old(stmt.replies[1..])
      ensures Result() == old(Result()) && (!ok ==> !InOrder()) && stmt.obeyed == old(stmt.obeyed && |stmt.tables[0]| <= prefetchRows)
    {
      ok := FetchOnce(prefetchRows);
    }

    /** Enough rows for a batch, or enough bytes. */
    predicate Full(rows: seq<Row>) {
      |rows| >= batchSize || (batchBytes > 0 && RowsBytes(rows) >= batchBytes)
    }

    /** The fetch loop of Next: it stops early only at the end of the result. */
    method Fill() returns (ok: bool)
      requires Live() && parts == []
      modifies stmt, sink
      ensures ok ==> Live() && (stmt.MoreRows() ==> Full(sink.done))
      ensures old(stmt.replies) == [] ==> stmt.delivered == old(stmt.delivered) && stmt.obeyed == old(stmt.obeyed)
      ensures Result() == old(Result()) && (!ok ==> !InOrder()) && (stmt.obeyed ==> old(stmt.obeyed))
    {
      hide Stream, AllHold, Good, Replies;
      while sink.rows < batchSize && stmt.MoreRows() && (batchBytes == 0 || sink.bytes < batchBytes)
        invariant Live() && Result() == old(Result()) && (stmt.obeyed ==> old(stmt.obeyed))
        invariant old(stmt.replies) == [] ==> stmt.replies == [] && stmt.delivered == old(stmt.delivered) && stmt.obeyed == old(stmt.obeyed)
        decreases |stmt.replies|
      {
        var want := batchSize - sink.rows;
        if want > prefetchRows {
          want := prefetchRows;
        }
        ok := FetchOnce(want);
        if !ok {
          return;
        }
      }
      ok := true;
    }

    /** The sink's rows as records: one, or slices of it when it is over batchBytes. */
    method Cut() returns (ok: bool, recs: seq<Record>, ghost tables: seq<seq<Row>>)
      requires Live() && parts == [] && sink.done != []
      modifies sink
      ensures ok ==> AtBoundary(sink) && sink.prev == old(sink.prev) && sink.done == []
      ensures ok ==> AreRecords(stmt.cols, recs, tables) && Flatten(tables) == old(sink.done) && tables != []
      ensures ok ==> forall i :: 0 <= i < |tables| ==> |tables[i]| <= |old(sink.done)|
      ensures ok && batchBytes == 0 ==> |tables| == 1
      ensures !ok ==> !InOrder()
    {
      hide Stream, Holds, Good, Replies, ColumnOf, Pieces;
      ghost var rows := sink.done;
      recs, tables := [], [];
      ok := Flush();
      if !ok {
        return;
      }
      var bytes, numRows := sink.bytes, sink.rows;
      var columns := sink.NewRecord();
      var rec := Record(numRows, columns);
      assert IsRecord(stmt.cols, rec, rows);
      if batchBytes > 0 && bytes > batchBytes && numRows > 1 {
        var per := numRows * batchBytes / bytes;
        if per < 1 {
          per := 1;
        }
        recs := Slices(stmt.cols, rec, per, rows);
        tables := Pieces(rows, per);
        PiecesPartition(rows, per);
      } else {
        recs, tables := [rec], [rows];
        FlattenSnoc([], rows);
        assert [] + [rows] == [rows] && [] + rows == rows;
      }
    }

    method Flush() returns (ok: bool)
      requires Live() && parts == []
      modifies sink`states
      ensures ok ==> sink.Valid() && forall c :: 0 <= c < |sink.cols| ==> sink.states[c].entries == []
      ensures !ok ==> !InOrder()
    {
      hide Stream, Holds, Good, Replies, Sink.Decode;
      ghost var before := handed + Flatten(parts);
      if InOrder() {
        GoodParts(stmt.cols, sink.accepts, decodes, stmt.delivered, Flatten(stmt.tables));
        GoodParts(stmt.cols, sink.accepts, decodes, before, sink.done);
        AllEntriesDecode(sink.states, sink.cols, sink.accepts, decodes, sink.done, sink.prev);
      }
      ok := sink.FlushObjects(decodes);
    }

    /** Nothing is left to hand out, or to ask for. */
    ghost predicate Spent()
      reads this, stmt, sink
    {
      !stmt.MoreRows() && sink.done == [] && parts == []
    }

    /** The next batch becomes current; false at the end or on an error. A check of `pending` behind the fetch loop, which cannot find any, is left out. */
    method Next() returns (more: bool, ghost rows: seq<Row>)
      requires !err ==> Live()
      modifies this, stmt, sink
      ensures !err ==> Live()
      ensures more ==> !err && current.Some? && IsRecord(stmt.cols, current.value, rows) && rows != []
      ensures more ==> handed == old(handed) + rows
      ensures more && stmt.obeyed && prefetchRows <= batchSize ==> |rows| <= batchSize
      ensures more && old(parts) == [] ==> sink.done == [] && (stmt.MoreRows() ==> Full(rows + Flatten(parts)))
      ensures more && batchBytes == 0 && |rows| < batchSize ==> Spent()
      ensures old(Spent()) ==> !more
      ensures old(stmt.replies) == [] ==> stmt.delivered == old(stmt.delivered) && stmt.obeyed == old(stmt.obeyed)
      ensures Result() == old(Result()) && (stmt.obeyed ==> old(stmt.obeyed))
      ensures !more && !err ==> done && handed == old(handed) == Result()
      ensures err ==> old(err) || !InOrder()
      ensures more ==> !old(err)
    {
      hide Stream, AllHold, Good, Replies, IsRecord;
      rows := [];
      if err || done || closed {
        if !err {
          AllHanded();
        }
        return false, rows;
      }
      current := None;
      if |pending| > 0 {
        more, rows := true, parts[0];
        TakePending(pending, parts);
        return;
      }
      more, rows := NextFromSink();
      if more && parts == [] {
        assert Flatten(parts) == [] && rows + [] == rows;
      }
    }

    /** The part of Next behind the pending records: fetches, then cuts what the sink holds. */
    method NextFromSink() returns (more: bool, ghost rows: seq<Row>)
      requires Live() && !err && !done && parts == []
      modifies this, stmt, sink
      ensures !err ==> Live()
      ensures more ==> !err && current.Some? && IsRecord(stmt.cols, current.value, rows) && rows != []
      ensures more ==> handed == old(handed) + rows && sink.done == []
      ensures more && stmt.MoreRows() ==> Full(rows + Flatten(parts))
      ensures more && batchBytes == 0 ==> parts == []
      ensures more && stmt.obeyed && prefetchRows <= batchSize ==> |rows| <= batchSize
      ensures old(stmt.replies) == [] ==> stmt.delivered == old(stmt.delivered) && stmt.obeyed == old(stmt.obeyed)
      ensures Result() == old(Result()) && (stmt.obeyed ==> old(stmt.obeyed))
      ensures !more && !err ==> done && handed == old(handed) == Result()
      ensures err ==> !InOrder()
    {
      hide Stream, AllHold, Good, Replies, IsRecord, Full, Flatten, RowsBytes;
      rows := [];
      var ok := Fill();
      if !ok {
        err, closed := true, true;
        return false, rows;
      }
      if sink.rows == 0 {
        NothingIsNotFull();
        done, closed := true, true;
        AllHanded();
        return false, rows;
      }
      ghost var held := sink.done;
      var recs; ghost var tables;
      ok, recs, tables := Cut();
      if !ok {
        err, closed := true, true;
        return false, rows;
      }
      rows := tables[0];
      Accounts(stmt.delivered, handed, tables, held);
      TakePending(recs, tables);
      more := true;
    }

    /** What was held is the row list of the first table and those left pending. */
    lemma Accounts(delivered: seq<Row>, before: seq<Row>, tables: seq<seq<Row>>, held: seq<Row>)
      requires tables != [] && delivered == before + Flatten<Row>([]) + held && Flatten(tables) == held
      ensures tables[0] + Flatten(tables[1..]) == held
      ensures delivered == (before + tables[0]) + Flatten(tables[1..]) + []
      ensures |tables| == 1 ==> Flatten(tables[1..]) == []
    {
      hide Flatten;
      var rest := Flatten(tables[1..]);
      FlattenHead(tables);
      FlattenNone(before);
      FlattenNone((before + tables[0]) + rest);
      Associate(before, tables[0], rest);
      assert |tables| == 1 ==> tables[1..] == [];
    }

    lemma NothingIsNotFull()
      requires batchSize > 0
      ensures !Full([])
    {
    }

    lemma AllHanded()
      requires stmt.replies == [] && |stmt.tables| == 0 && parts == [] && sink.done == [] && Conserved()
      ensures handed == Result()
    {
    }

    /** The first record becomes current, the others stay pending. */
    method TakePending(recs: seq<Record>, ghost tables: seq<seq<Row>>)
      requires |recs| > 0 && AreRecords(stmt.cols, recs, tables)
      modifies this
      ensures pending == recs[1..] && parts == tables[1..] && current == Some(recs[0]) && handed == old(handed) + tables[0]
      ensures AreRecords(stmt.cols, pending, parts) && IsRecord(stmt.cols, current.value, tables[0])
      ensures handed + Flatten(parts) == old(handed) + Flatten(tables)
      ensures done == old(done) && closed == old(closed) && err == old(err)
    {
      hide IsRecord;
      FlattenHead(tables);
      current := Some(recs[0]);
      pending := recs[1..];
      assert handed + (tables[0] + Flatten(tables[1..])) == handed + tables[0] + Flatten(tables[1..]);
      handed, parts := handed + tables[0], tables[1..];
    }

    /** All batches but the last have at least batchSize rows. */
    predicate Filled(tables: seq<seq<Row>>) {
      forall i :: 0 <= i < |tables| - 1 ==> |tables[i]| >= batchSize
    }

    lemma NothingBefore(rows: seq<Row>)
      ensures Flatten<Row>([]) == [] && [] + rows == rows
    {
    }

    lemma FilledMore(tables: seq<seq<Row>>, rows: seq<Row>)
      ensures Filled([])
      ensures Filled(tables) && (tables == [] || |tables[|tables| - 1]| >= batchSize) ==> Filled(tables + [rows])
    {
    }

    /** Every batch until Next says there are no more. */
    method ReadAll() returns (batches: seq<Record>, ghost tables: seq<seq<Row>>)
      requires Live() && !err && handed == []
      modifies this, stmt, sink
      ensures AreRecords(stmt.cols, batches, tables)
      ensures old(InOrder()) ==> !err
      ensures !err ==> Flatten(tables) == old(Result()) && done
      ensures stmt.obeyed && prefetchRows <= batchSize ==> forall i :: 0 <= i < |tables| ==> |tables[i]| <= batchSize
      ensures batchBytes == 0 ==> Filled(tables)
    {
      hide Stream, AllHold, Good, Replies, IsRecord, Filled, Spent, Flatten;
      batches, tables := [], [];
      FilledMore([], []);
      NothingBefore(handed);
      var more; ghost var rows;
      more, rows := Next();
      NothingBefore(rows);
      while more
        invariant AreRecords(stmt.cols, batches, tables)
        invariant err ==> !old(InOrder())
        invariant !err ==> Live()
        invariant Result() == old(Result())
        invariant more ==> !err && current.Some? && IsRecord(stmt.cols, current.value, rows) && rows != []
        invariant more ==> Flatten(tables) + rows == handed
        invariant !more && !err ==> done && Flatten(tables) == Result()
        invariant more && stmt.obeyed && prefetchRows <= batchSize ==> |rows| <= batchSize
        invariant stmt.obeyed && prefetchRows <= batchSize ==> forall i :: 0 <= i < |tables| ==> |tables[i]| <= batchSize
        invariant batchBytes == 0 ==> Filled(tables) && (more ==> tables == [] || |tables[|tables| - 1]| >= batchSize)
        invariant more && batchBytes == 0 && |rows| < batchSize ==> Spent()
        decreases more, |Result()| - |handed|
      {
        batches := batches + [current.value];
        FlattenSnoc(tables, rows);
        FilledMore(tables, rows);
        tables := tables + [rows];
        more, rows := Next();
      }
    }
  }

  /**
    * Whenever the prefetch exceeds the batch size, a server that obeys can make the first batch exceed it too: it
    * sends the rows asked for in one reply.
    */
  method PrefetchOverBatchSize(batchSize: nat, prefetch: nat) returns (rows: nat, ghost obeyed: bool)
    requires 0 < batchSize < prefetch
    ensures rows == prefetch && obeyed
  {
    hide Stream, AllHold, Replies, ColumnOf, SentOf, Good, Plain, IsRecord;
    var cols := [Column(false, true)];
    var table: seq<Row> := seq(prefetch, _ => [None]);
    var msgs := Plain(cols, table);
    PlainStream(cols, None, table);
    var sink := new Sink(cols, (_, _) => true);
    var stmt := new Statement(cols, [msgs], [table]);
    OneReply(cols, msgs, table);
    var reader := new Reader(stmt, sink, (_, _) => true, batchSize, 0, prefetch);
    assert reader.Result() == table by {
      FlattenHead([table]);
      assert Flatten<Row>([]) == [] && table + [] == table && [] + table == table;
    }
    NullsAreGood(cols, sink.accepts, reader.decodes, table);
    var ok := reader.Execute();
    assert ok && stmt.delivered == [] + table;
    assert stmt.replies == [] && stmt.obeyed;
    var more, batch := reader.Next();
    assert more;
    rows := reader.current.value.numRows;
    RecordSize(cols, reader.current.value, batch);
    assert Flatten(reader.parts) == [] && reader.handed + [] + [] == reader.handed;
    assert batch == reader.handed;
    obeyed := stmt.obeyed;
  }

  lemma NullsAreGood(cols: seq<Column>, accepts: Accepts, decodes: Accepts, table: seq<Row>)
    requires forall k :: 0 <= k < |table| ==> |table[k]| == |cols| && forall c :: 0 <= c < |cols| ==> table[k][c] == None
    ensures Good(cols, accepts, decodes, table)
  {
  }

  lemma OneReply(cols: seq<Column>, msgs: seq<Message>, table: seq<Row>)
    requires Stream(cols, None, None, msgs, table)
    ensures Replies(cols, None, [msgs], [table])
  {
    assert Replies(cols, LastRow(None, table), [msgs][1..], [table][1..]);
  }
}
