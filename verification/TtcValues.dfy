// The byte encodings of TTC values: what each write appends to the request
// stream and what each read takes off the response stream.
module TtcValues {
  import opened Bytes

  const MAX_SHORT_LENGTH := 252
  const LONG_LENGTH := 254
  const NULL_LENGTH := 255
  const CHUNK_SIZE := 32767

  const MAX_U8: int := 0xff
  const MAX_U16: int := 0xffff
  const MAX_U32: int := 0xffff_ffff
  const MAX_U64: int := 0xffff_ffff_ffff_ffff

  type uint64 = v: int | 0 <= v <= MAX_U64

  /** One typed write. */
  datatype Op =
    | U8(u8: byte)
    | UB2(v: uint64) | UB4(v: uint64) | UB8(v: uint64)
    | SB4(s: int)
    | U16BE(v: uint64) | U32BE(v: uint64) | U64BE(v: uint64)
    | U16LE(v: uint64)
    | Raw(bytes: seq<byte>)
    | WithLength(bytes: seq<byte>)
    | WithTwoLengths(opt: Option<seq<byte>>)

  /** The Go types' ranges; byte strings are at most 4 GiB long, and a raw write is not empty. */
  predicate InRange(op: Op) {
    match op
    case U8(_) => true
    case UB2(v) => v <= MAX_U16
    case UB4(v) => v <= MAX_U32
    case UB8(_) => true
    case SB4(s) => -0x8000_0000 <= s <= 0x7fff_ffff
    case U16BE(v) => v <= MAX_U16
    case U32BE(v) => v <= MAX_U32
    case U64BE(_) => true
    case U16LE(v) => v <= MAX_U16
    case Raw(b) => 0 < |b|
    case WithLength(b) => true
    case WithTwoLengths(o) => o.Some? ==> |o.value| <= MAX_U32
  }

  // ---- encodings ----

  function EncUB(v: uint64): (bs: seq<byte>)
    ensures |bs| >= 1
  {
    if v == 0 then [0]
    else if v <= MAX_U8 then [1, v]
    else if v <= MAX_U16 then [2] + BE(v, 2)
    else if v <= MAX_U32 then [4] + BE(v, 4)
    else [8] + BE(v, 8)
  }

  /** WriteSB4. Negating the smallest int32 gives itself, which then takes the one-byte branch. */
  function EncSB4(s: int): (bs: seq<byte>)
    requires -0x8000_0000 <= s <= 0x7fff_ffff
  {
    var sign := if s < 0 then 0x80 else 0;
    var v := if s < 0 then -s else s;
    if s == -0x8000_0000 then [1 + sign, 0]
    else if v == 0 then [0]
    else if v <= MAX_U8 then [1 + sign, v]
    else if v <= MAX_U16 then [2 + sign] + BE(v, 2)
    else [4 + sign] + BE(v, 4)
  }

  function Chunks(b: seq<byte>): seq<byte>
    decreases |b|
  {
    if b == [] then []
    else
      var c := ChunkLength(b);
      EncUB(c) + b[..c] + Chunks(b[c..])
  }

  function EncBytes(b: seq<byte>): (bs: seq<byte>)
    ensures |bs| >= 1
  {
    if |b| <= MAX_SHORT_LENGTH then [|b|] + b
    else [LONG_LENGTH] + Chunks(b) + [0]
  }

  function Enc(op: Op): (bs: seq<byte>)
    requires InRange(op)
  {
    match op
    case U8(v) => [v]
    case UB2(v) => EncUB(v)
    case UB4(v) => EncUB(v)
    case UB8(v) => EncUB(v)
    case SB4(s) => EncSB4(s)
    case U16BE(v) => BE(v, 2)
    case U32BE(v) => BE(v, 4)
    case U64BE(v) => BE(v, 8)
    case U16LE(v) => LE(v, 2)
    case Raw(b) => b
    case WithLength(b) => EncBytes(b)
    case WithTwoLengths(None) => [0]
    case WithTwoLengths(Some(b)) => EncUB(|b|) + if |b| > 0 then EncBytes(b) else []
  }

  predicate AllInRange(ops: seq<Op>) {
    forall k :: 0 <= k < |ops| ==> InRange(ops[k])
  }

  function EncAll(ops: seq<Op>): seq<byte>
    requires AllInRange(ops)
  {
    if ops == [] then [] else Enc(ops[0]) + EncAll(ops[1..])
  }

  // ---- reading off a stream ----

  /** What a read yields: the value and what is left, or failure (too few bytes, or a malformed length). */
  datatype Parsed<+T> = Got(value: T, rest: seq<byte>) | Failed

  function ParseRaw(n: nat, s: seq<byte>): Parsed<seq<byte>> {
    if |s| < n then Failed else Got(s[..n], s[n..])
  }

  function ParseU8(s: seq<byte>): Parsed<byte> {
    if s == [] then Failed else Got(s[0], s[1..])
  }

  /** A length byte with an optional sign bit, then that many bytes. */
  function ParseInteger(maxLen: nat, allowNeg: bool, s: seq<byte>): Parsed<int> {
    match ParseU8(s)
    case Failed => Failed
    case Got(b, rest) =>
      var neg := b >= 0x80;
      var length := if neg then b - 0x80 else b;
      if (neg && !allowNeg) || length > maxLen then Failed
      else if length == 0 then Got(0, rest)
      else ParseMagnitude(length, neg, rest)
  }

  /** The big-endian bytes of an integer whose length and sign are known. */
  function ParseMagnitude(length: nat, neg: bool, s: seq<byte>): Parsed<int> {
    match ParseRaw(length, s)
    case Failed => Failed
    case Got(bs, rest) => Got(SignedValue(neg, FromBE(bs)), rest)
  }

  /** Conversion to int32: the low 32 bits. */
  function Int32(v: int): (i: int)
    ensures -0x8000_0000 <= v <= 0x7fff_ffff ==> i == v
  {
    (v + 0x8000_0000) % 0x1_0000_0000 - 0x8000_0000
  }

  /** ReadSB4: the magnitude may have any four bytes, the result is an int32. */
  function ParseSB4(s: seq<byte>): Parsed<int> {
    match ParseInteger(4, true, s)
    case Failed => Failed
    case Got(v, rest) => Got(Int32(v), rest)
  }

  function SignedValue(neg: bool, v: nat): int {
    var i: int := v;
    if neg then -i else i
  }

  function ParseUB(maxLen: nat, s: seq<byte>): Parsed<int> {
    ParseInteger(maxLen, false, s)
  }

  /** ReadRawBytesAndLength behind the long length indicator: chunks up to an empty one. */
  function ParseChunks(acc: seq<byte>, s: seq<byte>): Parsed<seq<byte>>
    decreases |s|
  {
    match ParseUB(4, s)
    case Failed => Failed
    case Got(n, rest) =>
      if n <= 0 then Got(acc, rest)
      else match ParseRaw(n, rest)
        case Failed => Failed
        case Got(part, rest') => ParseChunks(acc + part, rest')
  }

  /** ReadBytes. NULL and the empty value both read as []. */
  function ParseBytes(s: seq<byte>): Parsed<seq<byte>> {
    match ParseU8(s)
    case Failed => Failed
    case Got(n, rest) =>
      if n == 0 || n == NULL_LENGTH then Got([], rest)
      else if n != LONG_LENGTH then ParseRaw(n, rest)
      else ParseChunks([], rest)
  }

  function ParseTwoLengths(s: seq<byte>): Parsed<seq<byte>> {
    match ParseUB(4, s)
    case Failed => Failed
    case Got(n, rest) => if n > 0 then ParseBytes(rest) else Got([], rest)
  }

  /** What is left behind skipped chunks, if they are all there. */
  function SkipChunks(s: seq<byte>): Option<seq<byte>>
    decreases |s|
  {
    match ParseUB(4, s)
    case Failed => None
    case Got(n, rest) =>
      if n <= 0 then Some(rest)
      else if |rest| < n then None
      else SkipChunks(rest[n..])
  }

  /** SkipBytes. Unlike ReadBytes it has no case for length 255. */
  function ParseSkip(s: seq<byte>): Option<seq<byte>> {
    match ParseU8(s)
    case Failed => None
    case Got(n, rest) =>
      if n == LONG_LENGTH then SkipChunks(rest)
      else if |rest| < n then None
      else Some(rest[n..])
  }

  // ---- the reads mirror the writes ----

  datatype Value = Int(i: int) | Octets(bs: seq<byte>)

  /** The value the peer gets from the read that mirrors a write: NULL and empty are one value. */
  function Meaning(op: Op): Value {
    match op
    case U8(v) => Int(v)
    case UB2(v) => Int(v)
    case UB4(v) => Int(v)
    case UB8(v) => Int(v)
    case SB4(s) => Int(s)
    case U16BE(v) => Int(v)
    case U32BE(v) => Int(v)
    case U64BE(v) => Int(v)
    case U16LE(v) => Int(v)
    case Raw(b) => Octets(b)
    case WithLength(b) => Octets(b)
    case WithTwoLengths(None) => Octets([])
    case WithTwoLengths(Some(b)) => Octets(b)
  }

  function AsInt(p: Parsed<int>): Parsed<Value> {
    match p case Failed => Failed case Got(v, rest) => Got(Int(v), rest)
  }

  function AsOctets(p: Parsed<seq<byte>>): Parsed<Value> {
    match p case Failed => Failed case Got(v, rest) => Got(Octets(v), rest)
  }

  function AsNumber(p: Parsed<seq<byte>>): Parsed<Value> {
    match p case Failed => Failed case Got(bs, rest) => Got(Int(FromBE(bs)), rest)
  }

  function AsNumberLE(p: Parsed<seq<byte>>): Parsed<Value> {
    match p case Failed => Failed case Got(bs, rest) => Got(Int(FromLE(bs)), rest)
  }

  /** Which read mirrors a write; only raw reads need to know a length. */
  datatype Shape = RU8 | RUB(maxLen: nat) | RSB4 | RBE(width: nat) | RLE(width: nat) | RRaw(n: nat) | RBytes | RTwoLengths

  function ShapeOf(op: Op): Shape {
    match op
    case U8(_) => RU8
    case UB2(_) => RUB(2)
    case UB4(_) => RUB(4)
    case UB8(_) => RUB(8)
    case SB4(_) => RSB4
    case U16BE(_) => RBE(2)
    case U32BE(_) => RBE(4)
    case U64BE(_) => RBE(8)
    case U16LE(_) => RLE(2)
    case Raw(b) => RRaw(|b|)
    case WithLength(_) => RBytes
    case WithTwoLengths(_) => RTwoLengths
  }

  function Parse(shape: Shape, s: seq<byte>): Parsed<Value> {
    match shape
    case RU8 => AsInt(ParseU8(s))
    case RUB(maxLen) => AsInt(ParseUB(maxLen, s))
    case RSB4 => AsInt(ParseSB4(s))
    case RBE(width) => AsNumber(ParseRaw(width, s))
    case RLE(width) => AsNumberLE(ParseRaw(width, s))
    case RRaw(n) => AsOctets(ParseRaw(n, s))
    case RBytes => AsOctets(ParseBytes(s))
    case RTwoLengths => AsOctets(ParseTwoLengths(s))
  }

  lemma PowFacts()
    ensures Pow256(1) == 0x100 && Pow256(2) == 0x1_0000 && Pow256(4) == 0x1_0000_0000
    ensures Pow256(8) == 0x1_0000_0000_0000_0000
  {
    assert Pow256(3) == 0x100_0000;
    assert Pow256(5) == 0x100_0000_0000;
    assert Pow256(6) == 0x1_0000_0000_0000;
    assert Pow256(7) == 0x100_0000_0000_0000;
  }

  lemma HeadAndRest(lead: byte, bs: seq<byte>, rest: seq<byte>)
    ensures ([lead] + bs + rest)[0] == lead && ([lead] + bs + rest)[1..] == bs + rest
  {
  }

  /** A length byte, then a big-endian magnitude, is read back signed. */
  lemma IntegerMirrors(v: nat, n: nat, neg: bool, maxLen: nat, allowNeg: bool, rest: seq<byte>)
    requires 0 < n <= 8 && n <= maxLen && v < Pow256(n) && (neg ==> allowNeg)
    ensures var lead: byte := if neg then n + 0x80 else n;
            ParseInteger(maxLen, allowNeg, [lead] + BE(v, n) + rest) == Got(SignedValue(neg, v), rest)
  {
    HeadAndRest(if neg then n + 0x80 else n, BE(v, n), rest);
    BERoundTrip(v, n);
  }

  lemma OneByteBE(v: nat)
    requires v < 256
    ensures BE(v, 1) == [v]
  {
    assert BE(v / 256, 0) == [];
  }

  lemma UBMirrors(v: uint64, maxLen: nat, rest: seq<byte>)
    requires maxLen == 2 || maxLen == 4 || maxLen == 8
    requires v < Pow256(maxLen)
    ensures ParseUB(maxLen, EncUB(v) + rest) == Got(v, rest)
  {
    PowFacts();
    if v == 0 {
      assert (EncUB(v) + rest)[1..] == rest;
    } else if v <= MAX_U8 {
      OneByteBE(v);
      assert [1, v] == [1] + BE(v, 1);
      IntegerMirrors(v, 1, false, maxLen, false, rest);
    } else {
      IntegerMirrors(v, if v <= MAX_U16 then 2 else if v <= MAX_U32 then 4 else 8, false, maxLen, false, rest);
    }
  }

  /** A signed 32-bit integer survives exactly unless it is the smallest one, which reads back as 0. */
  lemma SB4Mirrors(s: int, rest: seq<byte>)
    requires -0x8000_0000 <= s <= 0x7fff_ffff
    ensures ParseSB4(EncSB4(s) + rest) == Got(if s == -0x8000_0000 then 0 else s, rest)
  {
    PowFacts();
    var neg := s < 0;
    var v: nat := if neg then -s else s;
    if s == -0x8000_0000 {
      OneByteBE(0);
      assert [0x81, 0] == [0x81] + BE(0, 1);
      IntegerMirrors(0, 1, true, 4, true, rest);
    } else if v == 0 {
      assert (EncSB4(s) + rest)[1..] == rest;
    } else if v <= MAX_U8 {
      OneByteBE(v);
      assert EncSB4(s) == [if neg then 0x81 else 1] + BE(v, 1);
      IntegerMirrors(v, 1, neg, 4, true, rest);
    } else {
      IntegerMirrors(v, if v <= MAX_U16 then 2 else 4, neg, 4, true, rest);
    }
  }

  lemma RawMirrors(b: seq<byte>, rest: seq<byte>)
    ensures ParseRaw(|b|, b + rest) == Got(b, rest)
  {
    assert (b + rest)[..|b|] == b && (b + rest)[|b|..] == rest;
  }

  lemma ChunkStep(acc: seq<byte>, part: seq<byte>, tail: seq<byte>)
    requires 0 < |part| <= CHUNK_SIZE
    ensures ParseChunks(acc, EncUB(|part|) + (part + tail)) == ParseChunks(acc + part, tail)
  {
    PowFacts();
    UBMirrors(|part|, 4, part + tail);
    RawMirrors(part, tail);
  }

  lemma ChunksEnd(acc: seq<byte>, rest: seq<byte>)
    ensures ParseChunks(acc, [0] + rest) == Got(acc, rest)
  {
    PowFacts();
    UBMirrors(0, 4, rest);
  }

  lemma Reassociate(x: seq<byte>, y: seq<byte>, z: seq<byte>, w: seq<byte>)
    ensures x + y + z + w == x + (y + (z + w))
  {
  }

  /** The length of the next chunk. */
  function ChunkLength(b: seq<byte>): (c: nat)
    ensures c <= |b| && c <= CHUNK_SIZE && (b != [] ==> c > 0)
  {
    if |b| > CHUNK_SIZE then CHUNK_SIZE else |b|
  }

  lemma ChunksUnfold(b: seq<byte>, tail: seq<byte>)
    requires b != []
    ensures var c := ChunkLength(b);
            Chunks(b) + tail == EncUB(c) + (b[..c] + (Chunks(b[c..]) + tail))
  {
    var c := ChunkLength(b);
    Reassociate(EncUB(c), b[..c], Chunks(b[c..]), tail);
  }

  lemma {:induction false} ChunksMirror(b: seq<byte>, acc: seq<byte>, tail: seq<byte>, rest: seq<byte>)
    requires tail == [0] + rest
    ensures ParseChunks(acc, Chunks(b) + tail) == Got(acc + b, rest)
    decreases |b|
  {
    if b == [] {
      ChunksEnd(acc, rest);
      assert Chunks(b) + tail == tail;
      assert acc + b == acc;
    } else {
      var c := ChunkLength(b);
      ChunksUnfold(b, tail);
      ChunkStep(acc, b[..c], Chunks(b[c..]) + tail);
      ChunksMirror(b[c..], acc + b[..c], tail, rest);
      assert acc + b[..c] + b[c..] == acc + b;
    }
  }

  lemma BytesMirror(b: seq<byte>, rest: seq<byte>)
    ensures ParseBytes(EncBytes(b) + rest) == Got(b, rest)
  {
    if |b| <= MAX_SHORT_LENGTH {
      assert ([|b|] + b + rest)[1..] == b + rest;
      RawMirrors(b, rest);
    } else {
      LongBytesMirror(b, rest);
    }
  }

  lemma LongBytesMirror(b: seq<byte>, rest: seq<byte>)
    requires |b| > MAX_SHORT_LENGTH
    ensures ParseBytes(EncBytes(b) + rest) == Got(b, rest)
  {
    var tail := Chunks(b) + ([0] + rest);
    assert EncBytes(b) + rest == [LONG_LENGTH] + tail;
    ChunksMirror(b, [], [0] + rest, rest);
    assert [] + b == b;
  }

  lemma TwoLengthsMirror(o: Option<seq<byte>>, rest: seq<byte>)
    requires InRange(WithTwoLengths(o))
    ensures ParseTwoLengths(Enc(WithTwoLengths(o)) + rest) == Got(if o.None? then [] else o.value, rest)
  {
    PowFacts();
    if o.None? {
      UBMirrors(0, 4, rest);
    } else {
      var tail := if |o.value| > 0 then EncBytes(o.value) + rest else rest;
      assert Enc(WithTwoLengths(o)) + rest == EncUB(|o.value|) + tail;
      UBMirrors(|o.value|, 4, tail);
      if |o.value| > 0 { BytesMirror(o.value, rest); }
    }
  }

  /** Does the mirrored read give back what was written? */
  predicate Faithful(op: Op) {
    op != SB4(-0x8000_0000)
  }

  /** Each read undoes its write, whatever follows in the stream, with one exception. */
  lemma ReadUndoesWrite(op: Op, rest: seq<byte>)
    requires InRange(op)
    ensures Parse(ShapeOf(op), Enc(op) + rest) == Got(if Faithful(op) then Meaning(op) else Int(0), rest)
  {
    PowFacts();
    match op
    case U8(v) => assert (Enc(op) + rest)[1..] == rest;
    case UB2(v) => UBMirrors(v, 2, rest);
    case UB4(v) => UBMirrors(v, 4, rest);
    case UB8(v) => UBMirrors(v, 8, rest);
    case SB4(s) => SB4Mirrors(s, rest);
    case U16BE(v) => BERoundTrip(v, 2); RawMirrors(BE(v, 2), rest);
    case U32BE(v) => BERoundTrip(v, 4); RawMirrors(BE(v, 4), rest);
    case U64BE(v) => BERoundTrip(v, 8); RawMirrors(BE(v, 8), rest);
    case U16LE(v) => LERoundTrip(v, 2); RawMirrors(LE(v, 2), rest);
    case Raw(b) => RawMirrors(b, rest);
    case WithLength(b) => BytesMirror(b, rest);
    case WithTwoLengths(o) => TwoLengthsMirror(o, rest);
  }

  /** All reads in order over one stream. */
  function ParseAll(shapes: seq<Shape>, s: seq<byte>): Parsed<seq<Value>> {
    if shapes == [] then Got([], s)
    else match Parse(shapes[0], s)
      case Failed => Failed
      case Got(v, rest) =>
        match ParseAll(shapes[1..], rest)
        case Failed => Failed
        case Got(vs, rest') => Got([v] + vs, rest')
  }

  function Shapes(ops: seq<Op>): (r: seq<Shape>)
    ensures |r| == |ops| && forall k :: 0 <= k < |ops| ==> r[k] == ShapeOf(ops[k])
  {
    if ops == [] then [] else [ShapeOf(ops[0])] + Shapes(ops[1..])
  }

  function Meanings(ops: seq<Op>): (r: seq<Value>)
    ensures |r| == |ops| && forall k :: 0 <= k < |ops| ==> r[k] == Meaning(ops[k])
  {
    if ops == [] then [] else [Meaning(ops[0])] + Meanings(ops[1..])
  }

  lemma ParseAllCons(shapes: seq<Shape>, s: seq<byte>, v: Value, rest: seq<byte>, vs: seq<Value>, rest': seq<byte>)
    requires shapes != [] && Parse(shapes[0], s) == Got(v, rest)
    requires ParseAll(shapes[1..], rest) == Got(vs, rest')
    ensures ParseAll(shapes, s) == Got([v] + vs, rest')
  {
  }

  /** A whole request's worth of typed writes is read back value by value. */
  lemma {:induction false} ReadsUndoWrites(ops: seq<Op>, rest: seq<byte>)
    requires AllInRange(ops) && forall k :: 0 <= k < |ops| ==> Faithful(ops[k])
    ensures ParseAll(Shapes(ops), EncAll(ops) + rest) == Got(Meanings(ops), rest)
  {
    if ops == [] {
      assert [] + rest == rest;
    } else {
      var tail := EncAll(ops[1..]) + rest;
      assert EncAll(ops) + rest == Enc(ops[0]) + tail;
      ReadUndoesWrite(ops[0], tail);
      ReadsUndoWrites(ops[1..], rest);
      ParseAllCons(Shapes(ops), EncAll(ops) + rest, Meaning(ops[0]), tail, Meanings(ops[1..]), rest);
    }
  }

  // ---- skipping ----

  function RestOf<T>(p: Parsed<T>): Option<seq<byte>> {
    match p case Failed => None case Got(_, rest) => Some(rest)
  }

  lemma {:induction false} SkipChunksLikeRead(acc: seq<byte>, s: seq<byte>)
    ensures SkipChunks(s) == RestOf(ParseChunks(acc, s))
    decreases |s|
  {
    match ParseUB(4, s)
    case Failed =>
    case Got(n, rest) =>
      if 0 < n <= |rest| { SkipChunksLikeRead(acc + rest[..n], rest[n..]); }
  }

  lemma SkipShort(s: seq<byte>)
    requires s != [] && s[0] != NULL_LENGTH && s[0] != LONG_LENGTH
    ensures ParseSkip(s) == RestOf(ParseBytes(s))
  {
    assert s[1..][0..] == s[1..];
  }

  lemma SkipNull(s: seq<byte>)
    requires s != [] && s[0] == NULL_LENGTH
    ensures ParseSkip(s) != RestOf(ParseBytes(s))
  {
    assert RestOf(ParseBytes(s)) == Some(s[1..]);
    if |s[1..]| >= NULL_LENGTH { assert |ParseSkip(s).value| < |s[1..]|; }
  }

  /** On every stream, skipping a value and reading it end at the same place exactly when the length byte is not 255. */
  lemma SkipLikeRead(s: seq<byte>)
    ensures ParseSkip(s) == RestOf(ParseBytes(s)) <==> (s == [] || s[0] != NULL_LENGTH)
  {
    if s == [] {
    } else if s[0] == LONG_LENGTH {
      SkipChunksLikeRead([], s[1..]);
    } else if s[0] == NULL_LENGTH {
      SkipNull(s);
    } else {
      SkipShort(s);
    }
  }

  /** The writer never emits that byte, so skipping lands exactly behind every written value. */
  lemma SkipUndoesWrite(b: seq<byte>, rest: seq<byte>)
    ensures ParseSkip(EncBytes(b) + rest) == Some(rest)
  {
    BytesMirror(b, rest);
    assert (EncBytes(b) + rest)[0] == EncBytes(b)[0] != NULL_LENGTH;
    SkipLikeRead(EncBytes(b) + rest);
  }

  // ---- the forms, byte by byte ----

  /** Unsigned integers: the number of bytes, which is 0, 1, 2, 4 or 8, and those bytes. */
  lemma UnsignedForm(v: uint64)
    ensures v == 0 ==> EncUB(v) == [0]
    ensures 0 < v < 0x100 ==> EncUB(v) == [1, v]
    ensures 0x100 <= v < 0x1_0000 ==> EncUB(v) == [2, v / 0x100, v % 0x100]
    ensures 0x1_0000 <= v < 0x1_0000_0000 ==>
              EncUB(v) == [4, v / 0x100_0000, v / 0x1_0000 % 0x100, v / 0x100 % 0x100, v % 0x100]
    ensures v >= 0x1_0000_0000 ==> |EncUB(v)| == 9 && EncUB(v)[0] == 8 && FromBE(EncUB(v)[1..]) == v
  {
    hide BE;
    BEBytes(v);
    BE4Bytes(v);
    PowFacts();
    BERoundTrip(v, 8);
  }

  /** Signed integers: the same of the magnitude, with 128 more in the first byte below zero; the smallest int32 has no form of its own. */
  lemma SignedForm(s: int)
    requires -0x8000_0000 <= s <= 0x7fff_ffff
    ensures s >= 0 ==> EncSB4(s) == EncUB(s)
    ensures -0x8000_0000 < s < 0 ==> EncSB4(s)[0] == EncUB(-s)[0] + 128 && EncSB4(s)[1..] == EncUB(-s)[1..]
    ensures s == -0x8000_0000 ==> EncSB4(s) == [129, 0]
  {
    hide BE;
  }

  lemma OneChunk(b: seq<byte>)
    requires 0 < |b| <= 0x7fff
    ensures Chunks(b) == EncUB(|b|) + b
  {
    hide EncUB;
    assert b[..|b|] == b && b[|b|..] == [] && Chunks([]) == [];
    assert Chunks(b) == EncUB(|b|) + b + [];
  }

  lemma FullChunk(b: seq<byte>)
    requires |b| > 0x7fff
    ensures Chunks(b) == [2, 0x7f, 0xff] + b[..0x7fff] + Chunks(b[0x7fff..])
  {
    hide EncUB;
    UnsignedForm(0x7fff);
    assert EncUB(0x7fff) == [2, 0x7f, 0xff];
  }

  /** Byte strings: a length byte up to 252; otherwise 254, chunks of at most 32767 bytes with their lengths, and a zero. */
  lemma BytesForm(b: seq<byte>)
    ensures |b| <= 252 ==> EncBytes(b) == [|b|] + b
    ensures 252 < |b| <= 0x7fff ==> EncBytes(b) == [254] + (EncUB(|b|) + b) + [0]
    ensures |b| > 0x7fff ==> EncBytes(b) == [254] + ([2, 0x7f, 0xff] + b[..0x7fff] + Chunks(b[0x7fff..])) + [0]
  {
    hide EncUB, Chunks;
    if 252 < |b| <= 0x7fff {
      OneChunk(b);
    } else if |b| > 0x7fff {
      FullChunk(b);
    }
  }

  /** A length byte of 0 or 255 reads as nothing, any other but 254 as that many bytes. */
  lemma ShortReads(n: byte, bs: seq<byte>, rest: seq<byte>)
    ensures n == 0 || n == 255 ==> ParseBytes([n] + rest) == Got([], rest)
    ensures n != 0 && n < 254 && |bs| == n ==> ParseBytes([n] + bs + rest) == Got(bs, rest)
  {
    assert ([n] + rest)[1..] == rest;
    assert ([n] + bs + rest)[1..] == bs + rest;
    if |bs| == n { assert (bs + rest)[..n] == bs && (bs + rest)[n..] == rest; }
  }
}
