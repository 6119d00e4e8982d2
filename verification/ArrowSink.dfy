// The Arrow sink: column builders and buffered object images that together hold the table.
module ArrowSink {
  import opened Bytes
  import opened Rows

  /** Whether a value can be converted to its column's Arrow type. */
  type Accepts = (nat, seq<byte>) -> bool

  /** A column's builder, its object images not yet decoded, and its most recent value. */
  datatype State = State(built: seq<Cell>, entries: seq<Cell>, lastRaw: seq<byte>, lastNull: bool)

  /** The last cell appended to column c: of the current row, or of the row before. */
  function Latest(c: nat, partial: Row, prev: Option<Row>): Option<Cell> {
    if c < |partial| then Some(partial[c])
    else if prev.Some? && c < |prev.value| then Some(prev.value[c])
    else None
  }

  /** Column c holds the finished rows' cells and, if already appended, the current row's; and it remembers its latest. */
  ghost predicate Holds(s: State, isObject: bool, c: nat, done: seq<Row>, partial: Row, prev: Option<Row>)
    requires forall r :: r in done ==> c < |r|
  {
    s.built + s.entries == ColumnOf(done, c) + (if c < |partial| then [partial[c]] else [])
    && (!isObject ==> s.entries == [])
    && (Latest(c, partial, prev).Some? ==> Remembers(s, Latest(c, partial, prev).value))
  }

  predicate Remembers(s: State, cell: Cell) {
    if s.lastNull then cell == None else cell == Some(s.lastRaw)
  }

  predicate Converts(cols: seq<Column>, accepts: Accepts, c: nat, cell: Cell)
    requires c < |cols|
  {
    cell.None? || cols[c].isObject || accepts(c, cell.value)
  }

  predicate AllConvert(cols: seq<Column>, accepts: Accepts, row: Row, n: nat)
    requires n <= |cols| == |row|
  {
    forall c :: 0 <= c < n ==> Converts(cols, accepts, c, row[c])
  }

  lemma RowsSnoc(rows: seq<Row>, row: Row)
    ensures RowsBytes(rows + [row]) == RowsBytes(rows) + CellsBytes(row)
  {
    assert (rows + [row])[..|rows|] == rows;
  }

  lemma ColumnSnoc(rows: seq<Row>, row: Row, c: nat)
    requires c < |row| && forall r :: r in rows ==> c < |r|
    ensures ColumnOf(rows + [row], c) == ColumnOf(rows, c) + [row[c]]
  {
    assert (rows + [row])[..|rows|] == rows;
  }

  /** A cell goes to the builder, or for an object column to the images still to be decoded. */
  function Put(s: State, isObject: bool, cell: Cell): State {
    if isObject then s.(entries := s.entries + [cell]) else s.(built := s.built + [cell])
  }

  lemma PutHolds(s: State, t: State, isObject: bool, c: nat, done: seq<Row>, partial: Row, prev: Option<Row>, cell: Cell)
    requires forall r :: r in done ==> c < |r|
    requires Holds(s, isObject, c, done, partial, prev) && c == |partial|
    requires t.built == Put(s, isObject, cell).built && t.entries == Put(s, isObject, cell).entries && Remembers(t, cell)
    ensures Holds(t, isObject, c, done, partial + [cell], prev)
  {
    hide ColumnOf;
    if isObject {
      assert t.built + t.entries == s.built + s.entries + [cell];
    } else {
      assert t.built + t.entries == s.built + s.entries + [cell];
    }
    assert ColumnOf(done, c) + [] == ColumnOf(done, c);
  }

  lemma OthersHold(s: State, isObject: bool, c: nat, done: seq<Row>, partial: Row, prev: Option<Row>, cell: Cell)
    requires forall r :: r in done ==> c < |r|
    requires Holds(s, isObject, c, done, partial, prev) && c != |partial|
    ensures Holds(s, isObject, c, done, partial + [cell], prev)
  {
  }

  lemma FinishHolds(s: State, isObject: bool, c: nat, done: seq<Row>, row: Row, prev: Option<Row>)
    requires c < |row| && forall r :: r in done ==> c < |r|
    requires Holds(s, isObject, c, done, row, prev)
    ensures (forall r :: r in done + [row] ==> c < |r|) && Holds(s, isObject, c, done + [row], [], Some(row))
  {
    hide ColumnOf;
    ColumnSnoc(done, row, c);
    assert ColumnOf(done + [row], c) + [] == ColumnOf(done + [row], c);
  }

  ghost predicate AllHold(states: seq<State>, cols: seq<Column>, done: seq<Row>, partial: Row, prev: Option<Row>) {
    |states| == |cols| && |partial| <= |cols| && (forall r :: r in done ==> |r| == |cols|)
    && forall c :: 0 <= c < |cols| ==> Holds(states[c], cols[c].isObject, c, done, partial, prev)
  }

  /** Column |partial| takes one more cell, of which it keeps raw bytes and null flag; the others stay as they are. */
  lemma PutAllHold(states: seq<State>, cols: seq<Column>, done: seq<Row>, partial: Row, prev: Option<Row>, t: State, cell: Cell)
    requires AllHold(states, cols, done, partial, prev) && |partial| < |cols|
    requires var put := Put(states[|partial|], cols[|partial|].isObject, cell);
             t.built == put.built && t.entries == put.entries && Remembers(t, cell)
    ensures AllHold(states[|partial| := t], cols, done, partial + [cell], prev)
  {
    hide Holds, Put, ColumnOf;
    var next := states[|partial| := t];
    forall c | 0 <= c < |cols|
      ensures Holds(next[c], cols[c].isObject, c, done, partial + [cell], prev)
    {
      if c == |partial| {
        PutHolds(states[c], t, cols[c].isObject, c, done, partial, prev, cell);
      } else {
        OthersHold(states[c], cols[c].isObject, c, done, partial, prev, cell);
      }
    }
  }

  lemma FinishAllHold(states: seq<State>, cols: seq<Column>, done: seq<Row>, row: Row, prev: Option<Row>)
    requires AllHold(states, cols, done, row, prev) && |row| == |cols|
    ensures AllHold(states, cols, done + [row], [], Some(row))
  {
    hide Holds, ColumnOf;
    forall c | 0 <= c < |cols|
      ensures Holds(states[c], cols[c].isObject, c, done + [row], [], Some(row))
    {
      FinishHolds(states[c], cols[c].isObject, c, done, row, prev);
    }
  }

  lemma TakenHolds(s: State, isObject: bool, c: nat, done: seq<Row>, prev: Option<Row>)
    requires forall r :: r in done ==> c < |r|
    requires Holds(s, isObject, c, done, [], prev) && s.entries == []
    ensures s.built == ColumnOf(done, c) && Holds(s.(built := []), isObject, c, [], [], prev)
  {
    assert ColumnOf(done, c) + [] == ColumnOf(done, c);
  }

  lemma TakenAllHold(states: seq<State>, taken: seq<State>, cols: seq<Column>, done: seq<Row>, prev: Option<Row>)
    requires AllHold(states, cols, done, [], prev) && |taken| == |cols|
    requires forall c :: 0 <= c < |cols| ==> states[c].entries == [] && taken[c] == states[c].(built := [])
    ensures AllHold(taken, cols, [], [], prev)
    ensures forall c :: 0 <= c < |cols| ==> states[c].built == ColumnOf(done, c)
  {
    hide Holds, ColumnOf;
    forall c | 0 <= c < |cols|
      ensures states[c].built == ColumnOf(done, c) && Holds(taken[c], cols[c].isObject, c, [], [], prev)
    {
      TakenHolds(states[c], cols[c].isObject, c, done, prev);
    }
  }

  lemma FlushedHolds(s: State, isObject: bool, c: nat, done: seq<Row>, prev: Option<Row>)
    requires forall r :: r in done ==> c < |r|
    requires Holds(s, isObject, c, done, [], prev)
    ensures Holds(s.(built := s.built + s.entries, entries := []), isObject, c, done, [], prev)
  {
  }

  lemma LatestIsRemembered(s: State, isObject: bool, c: nat, done: seq<Row>, partial: Row, prev: Option<Row>)
    requires forall r :: r in done ==> c < |r|
    requires Holds(s, isObject, c, done, partial, prev) && Latest(c, partial, prev).Some?
    ensures Remembers(s, Latest(c, partial, prev).value)
  {
  }

  class Sink {
    const cols: seq<Column>
    const accepts: Accepts
    var states: seq<State>
    var rows: nat
    var bytes: nat
    var err: bool
    ghost var done: seq<Row>         // finished rows not yet handed out
    ghost var partial: Row           // the row being appended
    ghost var prev: Option<Row>      // the last finished row

    constructor (cols: seq<Column>, accepts: Accepts)
      ensures Valid() && this.cols == cols && this.accepts == accepts
      ensures done == [] && partial == [] && prev == None && !err
    {
      this.cols, this.accepts := cols, accepts;
      states := seq(|cols|, _ => State([], [], [], false));
      rows, bytes, err := 0, 0, false;
      done, partial, prev := [], [], None;
    }

    ghost predicate Valid()
      reads this
    {
      AllHold(states, cols, done, partial, prev) && rows == |done| && bytes == RowsBytes(done) + CellsBytes(partial)
    }

    /** At a row boundary every column holds the same number of values, built plus buffered: the table's column. */
    lemma EveryColumnIsComplete(c: nat)
      requires Valid() && partial == [] && c < |cols|
      ensures states[c].built + states[c].entries == ColumnOf(done, c)
      ensures |states[c].built| + |states[c].entries| == rows
      ensures prev.Some? && |prev.value| == |cols| ==> Remembers(states[c], prev.value[c])
    {
    }

    method AppendValue(col: nat, data: seq<byte>) returns (ok: bool)
      requires Valid() && col == |partial| < |cols|
      modifies this
      ensures Valid() && done == old(done) && prev == old(prev)
      ensures ok == (!old(err) && Converts(cols, accepts, col, Some(data))) && err == !ok
      ensures partial == if ok then old(partial) + [Some(data)] else old(partial)
    {
      hide Holds, ColumnOf;
      if err {
        return false;
      }
      if !cols[col].isObject && !accepts(col, data) {
        err := true;
        return false;
      }
      var s := Put(states[col], cols[col].isObject, Some(data)).(lastRaw := data, lastNull := false);
      PutAllHold(states, cols, done, partial, prev, s, Some(data));
      bytes := bytes + |data| + 8;
      states := states[col := s];
      partial := partial + [Some(data)];
      ok := true;
    }

    method AppendNull(col: nat) returns (ok: bool)
      requires Valid() && col == |partial| < |cols|
      modifies this
      ensures Valid() && done == old(done) && prev == old(prev)
      ensures ok == !old(err) && err == !ok
      ensures partial == if ok then old(partial) + [None] else old(partial)
    {
      hide Holds, ColumnOf;
      if err {
        return false;
      }
      var s := Put(states[col], cols[col].isObject, None).(lastNull := true);
      PutAllHold(states, cols, done, partial, prev, s, None);
      states := states[col := s];
      partial := partial + [None];
      ok := true;
    }

    /** The column's previous value once more. */
    method AppendDuplicate(col: nat, ghost cell: Cell) returns (ok: bool)
      requires Valid() && col == |partial| < |cols| && Latest(col, partial, prev) == Some(cell)
      modifies this
      ensures Valid() && done == old(done) && prev == old(prev)
      ensures ok == (!old(err) && Converts(cols, accepts, col, cell)) && err == !ok
      ensures partial == if ok then old(partial) + [cell] else old(partial)
    {
      hide Holds, ColumnOf;
      if err {
        return false;
      }
      var last := states[col];
      LatestIsRemembered(last, cols[col].isObject, col, done, partial, prev);
      if last.lastNull {
        ok := AppendNull(col);
        return;
      }
      if !cols[col].isObject && !accepts(col, last.lastRaw) {
        err := true;
        return false;
      }
      var s := Put(last, cols[col].isObject, Some(last.lastRaw));
      PutAllHold(states, cols, done, partial, prev, s, cell);
      bytes := bytes + |last.lastRaw| + 8;
      states := states[col := s];
      partial := partial + [cell];
      ok := true;
    }

    method FinishRow() returns (ok: bool)
      requires Valid() && |partial| == |cols|
      modifies this
      ensures Valid() && done == old(done) + [old(partial)] && partial == [] && prev == Some(old(partial))
      ensures ok == !err && err == old(err)
    {
      hide Holds, ColumnOf;
      rows := rows + 1;
      FinishAllHold(states, cols, done, partial, prev);
      RowsSnoc(done, partial);
      done, partial, prev := done + [partial], [], Some(partial);
      ok := !err;
    }

    /** flushObjects: buffered images are decoded into their builders; false if one does not decode. */
    method FlushObjects(decodes: Accepts) returns (ok: bool)
      requires Valid() && partial == []
      modifies `states
      ensures ok ==> Valid() && forall c :: 0 <= c < |cols| ==> states[c].entries == []
      ensures ok <==> forall c :: 0 <= c < |cols| ==> Decode(decodes, c, old(states[c].entries))
    {
      hide Holds, ColumnOf;
      var c := 0;
      while c < |cols|
        invariant 0 <= c <= |cols| && Valid()
        invariant forall k :: 0 <= k < c ==> states[k].entries == [] && Decode(decodes, k, old(states[k].entries))
        invariant forall k :: c <= k < |cols| ==> states[k] == old(states[k])
      {
        var good, built := FlushColumn(decodes, c, states[c]);
        if !good {
          return false;
        }
        FlushedHolds(states[c], cols[c].isObject, c, done, prev);
        states := states[c := states[c].(built := built, entries := [])];
        c := c + 1;
      }
      ok := true;
    }

    static predicate Decode(decodes: Accepts, c: nat, entries: seq<Cell>) {
      forall e :: e in entries && e.Some? ==> decodes(c, e.value)
    }

    static method FlushColumn(decodes: Accepts, c: nat, s: State) returns (ok: bool, built: seq<Cell>)
      ensures ok == Decode(decodes, c, s.entries)
      ensures ok ==> built == s.built + s.entries
    {
      built := s.built;
      var i := 0;
      while i < |s.entries|
        invariant 0 <= i <= |s.entries| && built == s.built + s.entries[..i]
        invariant Decode(decodes, c, s.entries[..i])
      {
        var e := s.entries[i];
        if e.Some? && !decodes(c, e.value) {
          return false, built;
        }
        assert s.entries[..i + 1] == s.entries[..i] + [e];
        built := built + [e];
        i := i + 1;
      }
      assert s.entries[..i] == s.entries;
      ok := true;
    }

    /** newRecord: everything built becomes a record, and the next batch starts; what columns remember stays. */
    method NewRecord() returns (record: seq<seq<Cell>>)
      requires Valid() && partial == [] && forall c :: 0 <= c < |cols| ==> states[c].entries == []
      modifies this
      ensures Valid() && done == [] && partial == [] && prev == old(prev) && err == old(err) && rows == 0 && bytes == 0
      ensures |record| == |cols| && forall c :: 0 <= c < |cols| ==> record[c] == ColumnOf(old(done), c)
    {
      hide Holds, ColumnOf;
      record := [];
      var c := 0;
      while c < |cols|
        invariant 0 <= c <= |cols| && |states| == |cols| && |record| == c
        invariant forall k :: 0 <= k < c ==> record[k] == old(states[k]).built && states[k] == old(states[k]).(built := [])
        invariant forall k :: c <= k < |cols| ==> states[k] == old(states[k])
        invariant unchanged(`rows, `bytes, `done, `partial, `prev, `err)
      {
        record := record + [states[c].built];
        states := states[c := states[c].(built := [])];
        c := c + 1;
      }
      TakenAllHold(old(states), states, cols, done, prev);
      rows, bytes, done := 0, 0, [];
    }
  }
}
