// How a sender compresses rows: bits of a little-endian number tell which columns are sent.
module RowPacking {
  import opened Bytes
  import opened Rows

  function Pow2(n: nat): (p: nat)
    ensures p > 0
  {
    if n == 0 then 1 else 2 * Pow2(n - 1)
  }

  lemma Pow2Small()
    ensures Pow2(0) == 1 && Pow2(1) == 2 && Pow2(2) == 4 && Pow2(3) == 8
    ensures Pow2(4) == 16 && Pow2(5) == 32 && Pow2(6) == 64 && Pow2(7) == 128
  {
    assert Pow2(3) == 8;
    assert Pow2(5) == 32;
  }

  lemma Pow2Byte(n: nat)
    requires n >= 8
    ensures Pow2(n) == 256 * Pow2(n - 8)
  {
    assert Pow2(n) == 4 * Pow2(n - 2);
    assert Pow2(n - 2) == 4 * Pow2(n - 4);
    assert Pow2(n - 4) == 4 * Pow2(n - 6);
    assert Pow2(n - 6) == 4 * Pow2(n - 8);
  }

  lemma MaskIsPower(k: nat) returns (h: nat)
    requires k < 8
    ensures Mask(k) == Pow2(k) && Pow2(k) * h == 128
  {
    Pow2Small();
    h := [128, 64, 32, 16, 8, 4, 2, 1][k];
  }

  lemma LowBit(b: byte, rest: nat, k: nat)
    requires k < 8
    ensures (b + 256 * rest) / Pow2(k) % 2 == b / Mask(k) % 2
  {
    hide Mask, Pow2;
    var h := MaskIsPower(k);
    var p, x := Pow2(k), 2 * (h * rest);
    assert 256 * rest == p * x by { Regroup(p, h, rest); }
    SplitQuotient(b, x, p);
    EvenMore(b / p, h * rest);
  }

  lemma Regroup(p: nat, h: nat, rest: nat)
    requires p * h == 128
    ensures 256 * rest == p * (2 * (h * rest))
  {
    assert p * (2 * (h * rest)) == 2 * (p * h) * rest;
  }

  lemma EvenMore(a: nat, b: nat)
    ensures (a + 2 * b) % 2 == a % 2
  {
  }

  lemma SplitQuotient(b: nat, x: nat, p: nat)
    requires p > 0
    ensures (b + p * x) / p == b / p + x
  {
    assert b == p * (b / p) + b % p;
    assert b + p * x == p * (b / p + x) + b % p;
    Quotient(p, b / p + x, b % p);
  }

  lemma HighBit(b: byte, rest: nat, p: nat)
    requires p > 0
    ensures (b + 256 * rest) / (256 * p) == rest / p
  {
    var q, m := rest / p, rest % p;
    assert rest == p * q + m;
    assert b + 256 * rest == (256 * p) * q + (b + 256 * m);
    assert 256 * m <= 256 * p - 256;
    Quotient(256 * p, q, b + 256 * m);
  }

  lemma Quotient(d: nat, q: nat, m: nat)
    requires m < d
    ensures (d * q + m) / d == q
  {
    var n := d * q + m;
    var e := n / d - q;
    assert n == d * (n / d) + n % d;
    assert d * e == m - n % d;
    Multiple(d, e);
  }

  lemma Multiple(d: nat, e: int)
    ensures e >= 1 ==> d * e >= d
    ensures e <= -1 ==> d * e <= 0 - d
  {
  }

  /** Column col has its bit at two to the col of the vector's little-endian number. */
  lemma {:induction false} BitIsDigit(bits: seq<byte>, col: nat)
    requires col / 8 < |bits|
    ensures BitSet(bits, col) <==> FromLE(bits) / Pow2(col) % 2 == 1
    decreases |bits|
  {
    hide Mask, Pow2;
    if col < 8 {
      LowBit(bits[0], FromLE(bits[1..]), col);
    } else {
      BitIsDigit(bits[1..], col - 8);
      Pow2Byte(col);
      HighBit(bits[0], FromLE(bits[1..]), Pow2(col - 8));
      assert bits[1..][(col - 8) / 8] == bits[col / 8];
    }
  }

  /** The vector marks exactly the columns sent: its number has their powers of two. */
  ghost predicate Marks(bits: seq<byte>, sent: seq<bool>) {
    |sent| <= 8 * |bits|
    && forall c :: 0 <= c < |sent| ==> (sent[c] <==> FromLE(bits) / Pow2(c) % 2 == 1)
  }

  /** The sum of two to the c over the columns sent. */
  function Number(sent: seq<bool>): nat {
    if sent == [] then 0 else (if sent[0] then 1 else 0) + 2 * Number(sent[1..])
  }

  lemma {:induction false} NumberBound(sent: seq<bool>)
    ensures Number(sent) < Pow2(|sent|)
  {
    if sent != [] { NumberBound(sent[1..]); }
  }

  lemma {:induction false} NumberBit(sent: seq<bool>, c: nat)
    requires c < |sent|
    ensures sent[c] <==> Number(sent) / Pow2(c) % 2 == 1
  {
    var rest := Number(sent[1..]);
    if c > 0 {
      NumberBit(sent[1..], c - 1);
      HalfQuotient(if sent[0] then 1 else 0, rest, Pow2(c - 1));
    }
  }

  lemma HalfQuotient(b: nat, rest: nat, p: nat)
    requires b < 2 && p > 0
    ensures (b + 2 * rest) / (2 * p) == rest / p
  {
    var q, m := rest / p, rest % p;
    assert rest == p * q + m;
    assert b + 2 * rest == (2 * p) * q + (b + 2 * m);
    Quotient(2 * p, q, b + 2 * m);
  }

  lemma {:induction false} Pow256Is(n: nat)
    ensures Pow256(n) == Pow2(8 * n)
  {
    if n > 0 {
      Pow256Is(n - 1);
      Pow2Byte(8 * n);
    }
  }

  lemma {:induction false} Pow2Grows(a: nat, b: nat)
    requires a <= b
    ensures Pow2(a) <= Pow2(b)
  {
    if a < b { Pow2Grows(a, b - 1); }
  }

  /** Every choice of columns has its vector, one bit a column. */
  lemma VectorMarks(sent: seq<bool>) returns (bits: seq<byte>)
    ensures bits == LE(Number(sent), (|sent| + 7) / 8) && Marks(bits, sent)
  {
    var n := (|sent| + 7) / 8;
    bits := LE(Number(sent), n);
    NumberBound(sent);
    Pow2Grows(|sent|, 8 * n);
    Pow256Is(n);
    LERoundTrip(Number(sent), n);
    forall c | 0 <= c < |sent|
      ensures sent[c] <==> FromLE(bits) / Pow2(c) % 2 == 1
    {
      NumberBit(sent, c);
    }
  }

  // ---- packing ----

  /** How one row travels: whole, or behind a vector or a row header that marks the columns sent. */
  datatype Packing =
    | Whole
    | ByVector(bits: seq<byte>, sent: seq<bool>)
    | ByHeader(bits: seq<byte>, sent: seq<bool>)

  /** The cells sent of a row; a column described as null is never sent. */
  function Kept(cols: seq<Column>, sent: seq<bool>, row: Row): seq<Cell>
    requires |cols| == |sent| == |row|
  {
    if row == [] then []
    else (if sent[0] && !cols[0].alwaysNull then [row[0]] else []) + Kept(cols[1..], sent[1..], row[1..])
  }

  function AllSent(n: nat): (sent: seq<bool>)
    ensures |sent| == n
  {
    seq(n, _ => true)
  }

  /** A vector may leave out the columns whose cells the row before has already. */
  ghost predicate MayPack(cols: seq<Column>, prev: Option<Row>, p: Packing, row: Row)
    requires |row| == |cols|
  {
    p.Whole? ||
    (|p.sent| == |cols| && p.bits != [] && Marks(p.bits, p.sent)
     && forall c :: 0 <= c < |cols| && !p.sent[c] ==> prev.Some? && |prev.value| == |cols| && prev.value[c] == row[c])
  }

  function Packed(cols: seq<Column>, p: Packing, row: Row): seq<Message>
    requires |row| == |cols| && (!p.Whole? ==> |p.sent| == |cols|)
  {
    match p
    case Whole => [RowData(Kept(cols, AllSent(|cols|), row))]
    case ByVector(bits, sent) => [BitVector(bits), RowData(Kept(cols, sent, row))]
    case ByHeader(bits, sent) => [RowHeader(bits), RowData(Kept(cols, sent, row))]
  }

  ghost predicate MayPackAll(cols: seq<Column>, prev: Option<Row>, ps: seq<Packing>, rows: seq<Row>)
    decreases |rows|
  {
    |ps| == |rows| && (rows == [] ||
      (IsRow(cols, rows[0]) && MayPack(cols, prev, ps[0], rows[0]) && MayPackAll(cols, Some(rows[0]), ps[1..], rows[1..])))
  }

  function PackedAll(cols: seq<Column>, ps: seq<Packing>, rows: seq<Row>): seq<Message>
    requires |ps| == |rows|
    requires forall k :: 0 <= k < |rows| ==> |rows[k]| == |cols| && (!ps[k].Whole? ==> |ps[k].sent| == |cols|)
  {
    if rows == [] then [] else Packed(cols, ps[0], rows[0]) + PackedAll(cols, ps[1..], rows[1..])
  }

  lemma {:induction false} PackedSizes(cols: seq<Column>, prev: Option<Row>, ps: seq<Packing>, rows: seq<Row>)
    requires MayPackAll(cols, prev, ps, rows)
    ensures |ps| == |rows|
    ensures forall k :: 0 <= k < |rows| ==> |rows[k]| == |cols| && (!ps[k].Whole? ==> |ps[k].sent| == |cols|)
    decreases |rows|
  {
    if rows != [] {
      PackedSizes(cols, Some(rows[0]), ps[1..], rows[1..]);
      assert rows == [rows[0]] + rows[1..] && ps == [ps[0]] + ps[1..];
    }
  }

  lemma KeptNone()
    ensures Kept([], [], []) == []
  {
  }

  lemma KeptHead(cols: seq<Column>, sent: seq<bool>, row: Row)
    requires |cols| == |sent| == |row| && row != []
    ensures Kept(cols, sent, row) == (if sent[0] && !cols[0].alwaysNull then [row[0]] else []) + Kept(cols[1..], sent[1..], row[1..])
  {
  }

  lemma {:induction false} KeptSnoc(cols: seq<Column>, sent: seq<bool>, row: Row)
    requires |cols| == |sent| == |row| && row != []
    ensures var n := |row| - 1;
            Kept(cols, sent, row) == Kept(cols[..n], sent[..n], row[..n])
                                     + if sent[n] && !cols[n].alwaysNull then [row[n]] else []
  {
    hide Kept;
    var n := |row| - 1;
    if n == 0 {
      KeptHead(cols, sent, row);
      KeptNone();
    } else {
      var last := if sent[n] && !cols[n].alwaysNull then [row[n]] else [];
      KeptSnoc(cols[1..], sent[1..], row[1..]);
      assert cols[1..][..n - 1] == cols[..n][1..] && sent[1..][..n - 1] == sent[..n][1..] && row[1..][..n - 1] == row[..n][1..];
      KeptHead(cols, sent, row);
      KeptHead(cols[..n], sent[..n], row[..n]);
      Associate(if sent[0] && !cols[0].alwaysNull then [row[0]] else [], Kept(cols[..n][1..], sent[..n][1..], row[..n][1..]), last);
    }
  }

  lemma {:induction false} KeptIsSent(cols: seq<Column>, vec: Option<seq<byte>>, sent: seq<bool>, row: Row, n: nat)
    requires n <= |cols| == |row| == |sent| && Covers(vec, |cols|)
    requires forall c :: 0 <= c < n ==> (sent[c] <==> !Duplicate(vec, c))
    ensures SentOf(cols, vec, row, n) == Kept(cols[..n], sent[..n], row[..n])
  {
    hide Duplicate;
    if n > 0 {
      KeptIsSent(cols, vec, sent, row, n - 1);
      KeptSnoc(cols[..n], sent[..n], row[..n]);
      assert cols[..n][..n - 1] == cols[..n - 1] && sent[..n][..n - 1] == sent[..n - 1] && row[..n][..n - 1] == row[..n - 1];
    }
  }

  lemma MarkedIsSent(bits: seq<byte>, sent: seq<bool>, c: nat)
    requires Marks(bits, sent) && c < |sent|
    ensures c / 8 < |bits| && (sent[c] <==> !Duplicate(Some(bits), c))
  {
    BitIsDigit(bits, c);
  }

  lemma PackedStands(cols: seq<Column>, prev: Option<Row>, p: Packing, row: Row)
    requires IsRow(cols, row) && MayPack(cols, prev, p, row)
    ensures var vec := if p.Whole? then None else Some(p.bits);
            Stands(cols, prev, vec, Kept(cols, if p.Whole? then AllSent(|cols|) else p.sent, row), row)
  {
    var vec := if p.Whole? then None else Some(p.bits);
    var sent := if p.Whole? then AllSent(|cols|) else p.sent;
    forall c | 0 <= c < |cols|
      ensures sent[c] <==> !Duplicate(vec, c)
      ensures Unsent(cols, prev, vec, row, c)
    {
      if !p.Whole? { MarkedIsSent(p.bits, p.sent, c); }
    }
    KeptIsSent(cols, vec, sent, row, |cols|);
    assert cols[..|cols|] == cols && sent[..|cols|] == sent && row[..|cols|] == row;
  }

  lemma OneRowStream(cols: seq<Column>, prev: Option<Row>, p: Packing, row: Row, msgs: seq<Message>, rows: seq<Row>)
    requires IsRow(cols, row) && MayPack(cols, prev, p, row) && Stream(cols, Some(row), None, msgs, rows)
    ensures Stream(cols, prev, None, Packed(cols, p, row) + msgs, [row] + rows)
  {
    hide Stands, Kept, IsRow, Marks;
    PackedStands(cols, prev, p, row);
    var sent := if p.Whole? then AllSent(|cols|) else p.sent;
    var data := RowData(Kept(cols, sent, row));
    var vec := if p.Whole? then None else Some(p.bits);
    assert ([data] + msgs)[1..] == msgs && ([row] + rows)[1..] == rows;
    assert Stream(cols, prev, vec, [data] + msgs, [row] + rows);
    if !p.Whole? {
      var all := Packed(cols, p, row) + msgs;
      assert all[1..] == [data] + msgs;
    }
  }

  /**
   * Whatever columns a sender leaves out because they repeat the row before, and whether a vector, a row header
   * or nothing says so: the messages stand for exactly the table packed (and, by OneTable, for no other).
   */
  lemma {:induction false} PackedStream(cols: seq<Column>, prev: Option<Row>, ps: seq<Packing>, rows: seq<Row>)
    requires MayPackAll(cols, prev, ps, rows)
    ensures |ps| == |rows|
    ensures forall k :: 0 <= k < |rows| ==> |rows[k]| == |cols| && (!ps[k].Whole? ==> |ps[k].sent| == |cols|)
    ensures Stream(cols, prev, None, PackedAll(cols, ps, rows), rows)
    decreases |rows|
  {
    hide IsRow, MayPack, Packed, Stream;
    PackedSizes(cols, prev, ps, rows);
    if rows != [] {
      PackedStream(cols, Some(rows[0]), ps[1..], rows[1..]);
      OneRowStream(cols, prev, ps[0], rows[0], PackedAll(cols, ps[1..], rows[1..]), rows[1..]);
      assert rows == [rows[0]] + rows[1..];
    } else {
      NoStream(cols, prev);
    }
  }

  lemma NoStream(cols: seq<Column>, prev: Option<Row>)
    ensures Stream(cols, prev, None, [], [])
  {
  }
}
