// How an OSON document may be laid out, in bytes: every form a writer can choose.
module OsonLayout {
  import opened Bytes
  import opened Regions
  import opened Oson
  import opened OsonHeader
  import OsonDecoder

  // ---- scalars ----

  /** A type byte, a length of one, two or four bytes, and that many bytes. */
  predicate Prefixed(t: byte, w: nat, bs: seq<byte>, bytes: seq<byte>) {
    |bs| < Pow256(w) && bytes == [t] + BE(|bs|, w) + bs
  }

  /** The length goes into the type byte. */
  predicate Inline(first: byte, bs: seq<byte>, bytes: seq<byte>) {
    first + |bs| < 256 && bytes == [first + |bs|] + bs
  }

  /** The bytes of a scalar, in any of its forms. */
  predicate Written(doc: Json, bytes: seq<byte>) {
    match doc
    case Null => bytes == [0x30]
    case True => bytes == [0x31]
    case False => bytes == [0x32]
    case Str(bs) =>
      (|bs| < 0x20 && Inline(0x00, bs, bytes)) || Prefixed(0x33, 1, bs, bytes) || Prefixed(0x37, 2, bs, bytes) || Prefixed(0x38, 4, bs, bytes)
    case Number(w) =>
      Prefixed(0x34, 1, w, bytes)
      || (0 < |w| <= 16 && (Inline(0x1f, w, bytes) || Inline(0x5f, w, bytes)))
      || (|w| < 16 && (Inline(0x40, w, bytes) || Inline(0x50, w, bytes)))
    case Hex(bs) => Prefixed(0x7e, 1, bs, bytes) || Prefixed(0x3a, 2, bs, bytes) || Prefixed(0x3b, 4, bs, bytes)
    case Leaf(tag, raw) =>
      bytes == [tag] + raw
      && ((tag in {0x3c, 0x7d} && |raw| == 7) || (tag in {0x39, 0x3e} && |raw| == 11) || (tag == 0x7c && |raw| == 13)
          || (tag == 0x7f && |raw| == 4) || (tag == 0x36 && |raw| == 8) || (tag == 0x3d && |raw| == 5))
    case Container(_, _) => false
  }

  predicate WrittenIn(data: seq<byte>, p: nat, n: nat, doc: Json) {
    p + n <= |data| && Written(doc, data[p..p + n])
  }

  ghost predicate ScalarAt(data: seq<byte>, p: nat, doc: Json) {
    exists n: nat :: WrittenIn(data, p, n, doc)
  }

  lemma UIff(data: seq<byte>, p: nat, w: nat, v: nat)
    ensures U(data, p, w) == Some(v) <==> v < Pow256(w) && Holds(data, p, BE(v, w))
  {
    hide BE, FromBE;
    if U(data, p, w) == Some(v) {
      BEInverse(data[p..p + w]);
    }
    if v < Pow256(w) { BERoundTrip(v, w); }
  }

  lemma PrefixedIsCounted(data: seq<byte>, p: nat, n: nat, t: byte, w: nat, bs: seq<byte>)
    requires p + n <= |data| && Prefixed(t, w, bs, data[p..p + n])
    ensures p < |data| && data[p] == t && Counted(data, p + 1, w) == Some(bs)
  {
    hide BE, FromBE, Pow256, Counted;
    var bytes := data[p..p + n];
    assert bytes == [t] + (BE(|bs|, w) + bs);
    assert Holds(data, p, [t] + (BE(|bs|, w) + bs));
    HoldsBoth(data, p, [t], BE(|bs|, w) + bs);
    assert bytes[0] == t;
    HoldsCounted(data, p + 1, bs, w);
  }

  lemma CountedIsPrefixed(data: seq<byte>, p: nat, w: nat, bs: seq<byte>)
    requires p < |data| && Counted(data, p + 1, w) == Some(bs)
    ensures p + 1 + w + |bs| <= |data| && Prefixed(data[p], w, bs, data[p..p + 1 + w + |bs|])
  {
    hide BE, FromBE, Pow256;
    UIff(data, p + 1, w, |bs|);
    assert data[p..p + 1 + w + |bs|] == [data[p]] + data[p + 1..p + 1 + w] + data[p + 1 + w..p + 1 + w + |bs|];
  }

  lemma InlineIsSlice(data: seq<byte>, p: nat, n: nat, first: byte, bs: seq<byte>)
    requires p + n <= |data| && Inline(first, bs, data[p..p + n])
    ensures p < |data| && data[p] == first + |bs| && Slice(data, p + 1, |bs|) == Some(bs)
  {
    var bytes := data[p..p + n];
    assert bytes[0] == data[p] && bytes[1..] == data[p + 1..p + n];
  }

  lemma SliceIsInline(data: seq<byte>, p: nat, first: byte, bs: seq<byte>)
    requires p < |data| && Slice(data, p + 1, |bs|) == Some(bs) && data[p] == first + |bs|
    ensures p + 1 + |bs| <= |data| && Inline(first, bs, data[p..p + 1 + |bs|])
  {
    assert data[p..p + 1 + |bs|] == [data[p]] + data[p + 1..p + 1 + |bs|];
  }

  lemma LeafIsSlice(data: seq<byte>, p: nat, n: nat, tag: byte, raw: seq<byte>)
    requires p + n <= |data| && data[p..p + n] == [tag] + raw
    ensures p < |data| && data[p] == tag && Slice(data, p + 1, |raw|) == Some(raw)
  {
    var bytes := data[p..p + n];
    assert bytes[0] == data[p] && bytes[1..] == data[p + 1..p + n];
  }

  lemma WrittenIsRead(data: seq<byte>, p: nat, n: nat, doc: Json)
    requires p + n <= |data| && Written(doc, data[p..p + n])
    ensures p < |data| && data[p] < 0x80 && RawScalar(data, p) == Some(doc)
  {
    hide Prefixed, Inline, Counted, Slice, Pow256, BE;
    var bytes := data[p..p + n];
    match doc
    case Null => assert bytes[0] == data[p];
    case True => assert bytes[0] == data[p];
    case False => assert bytes[0] == data[p];
    case Str(bs) =>
      if Prefixed(0x33, 1, bs, bytes) { PrefixedIsCounted(data, p, n, 0x33, 1, bs); }
      else if Prefixed(0x37, 2, bs, bytes) { PrefixedIsCounted(data, p, n, 0x37, 2, bs); }
      else if Prefixed(0x38, 4, bs, bytes) { PrefixedIsCounted(data, p, n, 0x38, 4, bs); }
      else { InlineIsSlice(data, p, n, 0x00, bs); }
    case Number(w) => NumberIsRead(data, p, n, w);
    case Hex(bs) =>
      if Prefixed(0x7e, 1, bs, bytes) { PrefixedIsCounted(data, p, n, 0x7e, 1, bs); }
      else if Prefixed(0x3a, 2, bs, bytes) { PrefixedIsCounted(data, p, n, 0x3a, 2, bs); }
      else { PrefixedIsCounted(data, p, n, 0x3b, 4, bs); }
    case Leaf(tag, raw) => LeafIsSlice(data, p, n, tag, raw);
  }

  lemma NumberIsRead(data: seq<byte>, p: nat, n: nat, w: seq<byte>)
    requires p + n <= |data| && Written(Number(w), data[p..p + n])
    ensures p < |data| && data[p] < 0x80 && RawScalar(data, p) == Some(Number(w))
  {
    hide Prefixed, Inline, Counted, Slice, Pow256, BE;
    var bytes := data[p..p + n];
    if Prefixed(0x34, 1, w, bytes) { PrefixedIsCounted(data, p, n, 0x34, 1, w); }
    else if 0 < |w| <= 16 && Inline(0x1f, w, bytes) { InlineIsSlice(data, p, n, 0x1f, w); }
    else if 0 < |w| <= 16 && Inline(0x5f, w, bytes) { InlineIsSlice(data, p, n, 0x5f, w); }
    else if |w| < 16 && Inline(0x40, w, bytes) { InlineIsSlice(data, p, n, 0x40, w); }
    else { InlineIsSlice(data, p, n, 0x50, w); }
  }

  lemma ReadIsWritten(data: seq<byte>, p: nat, doc: Json) returns (n: nat)
    requires p < |data| && data[p] < 0x80 && RawScalar(data, p) == Some(doc)
    ensures p + n <= |data| && Written(doc, data[p..p + n])
  {
    hide Prefixed, Inline, Counted, Slice, Pow256, BE;
    var t := data[p];
    match doc
    case Null => n := 1;
    case True => n := 1;
    case False => n := 1;
    case Str(bs) =>
      if t == 0x33 || t == 0x37 || t == 0x38 {
        var w := if t == 0x33 then 1 else if t == 0x37 then 2 else 4;
        n := 1 + w + |bs|;
        CountedIsPrefixed(data, p, w, bs);
      } else {
        n := 1 + |bs|;
        SliceIsInline(data, p, 0x00, bs);
      }
    case Number(w) => n := NumberIsWritten(data, p, w);
    case Hex(bs) =>
      var w := if t == 0x7e then 1 else if t == 0x3a then 2 else 4;
      n := 1 + w + |bs|;
      CountedIsPrefixed(data, p, w, bs);
    case Leaf(tag, raw) =>
      n := 1 + |raw|;
      SliceIsBytes(data, p, raw);
  }

  lemma SliceIsBytes(data: seq<byte>, p: nat, raw: seq<byte>)
    requires p < |data| && Slice(data, p + 1, |raw|) == Some(raw)
    ensures p + 1 + |raw| <= |data| && data[p..p + 1 + |raw|] == [data[p]] + raw
  {
  }

  lemma NumberIsWritten(data: seq<byte>, p: nat, w: seq<byte>) returns (n: nat)
    requires p < |data| && data[p] < 0x80 && RawScalar(data, p) == Some(Number(w))
    ensures p + n <= |data| && Written(Number(w), data[p..p + n])
  {
    hide Prefixed, Inline, Counted, Slice, Pow256, BE;
    var t := data[p];
    if t == 0x34 {
      n := 2 + |w|;
      CountedIsPrefixed(data, p, 1, w);
    } else {
      n := 1 + |w|;
      SliceIsInline(data, p, t - |w|, w);
    }
  }

  /** The scalars the decoder finds are exactly those some writer wrote. */
  lemma ScalarIff(data: seq<byte>, p: nat, doc: Json)
    requires p < |data|
    ensures data[p] < 0x80 && RawScalar(data, p) == Some(doc) <==> ScalarAt(data, p, doc)
  {
    hide RawScalar, Written;
    if data[p] < 0x80 && RawScalar(data, p) == Some(doc) {
      var n := ReadIsWritten(data, p, doc);
      assert WrittenIn(data, p, n, doc);
    }
    if ScalarAt(data, p, doc) {
      var n: nat :| WrittenIn(data, p, n, doc);
      WrittenIsRead(data, p, n, doc);
    }
  }

  // ---- containers ----

  /** Where a container has its ids and its offsets, and whether those are wide. */
  datatype Directory = Directory(idsAt: nat, offsetsAt: nat, wide: bool)

  /** The top bit, 0x40 for arrays, 0x20 for four-byte offsets, a code in steps of 8, and three bits that mean nothing. */
  predicate TypeByteIs(t: byte, isObject: bool, wide: bool, code: nat) {
    0 <= t - 0x80 - (if isObject then 0 else 0x40) - (if wide then 0x20 else 0) - 8 * code < 8
  }

  function OffsetBytes(wide: bool): nat {
    if wide then 4 else 2
  }

  /** A number in w bytes. */
  predicate Field(data: seq<byte>, p: nat, v: nat, w: nat) {
    v < Pow256(w) && Holds(data, p, BE(v, w))
  }

  /** The count in w bytes behind the type byte, then the ids of an object, then the offsets. */
  predicate OwnDirectory(c: Context, p: nat, isObject: bool, n: nat, d: Directory, code: nat, w: nat) {
    p < |c.data| && TypeByteIs(c.data[p], isObject, d.wide, code) && Field(c.data, p + 1, n, w)
    && d.idsAt == p + 1 + w && d.offsetsAt == d.idsAt + if isObject then c.idLength * n else 0
  }

  /** The count behind a container's type byte, whatever else that byte says; none if it has no count of its own. */
  predicate CountedAt(data: seq<byte>, q: nat, n: nat, idsAt: nat) {
    q < |data| &&
    var code := data[q] % 32 / 8;
    || (code == 0 && Field(data, q + 1, n, 1) && idsAt == q + 2)
    || (code == 1 && Field(data, q + 1, n, 2) && idsAt == q + 3)
    || (code == 2 && Field(data, q + 1, n, 4) && idsAt == q + 5)
    || (code == 3 && n == 0 && idsAt == q + 1)
  }

  /** The offset of another container, whose count and ids are shared, then the offsets. */
  ghost predicate SharedDirectory(c: Context, p: nat, isObject: bool, n: nat, d: Directory) {
    p < |c.data| && TypeByteIs(c.data[p], isObject, d.wide, 3) && d.offsetsAt == p + 1 + OffsetBytes(d.wide)
    && exists off: nat :: SharesAt(c, p, n, d, off)
  }

  predicate SharesAt(c: Context, p: nat, n: nat, d: Directory, off: nat) {
    Field(c.data, p + 1, off, OffsetBytes(d.wide)) && CountedAt(c.data, c.treeSeg + off, n, d.idsAt)
  }

  ghost predicate HasDirectory(c: Context, p: nat, isObject: bool, n: nat, d: Directory) {
    || OwnDirectory(c, p, isObject, n, d, 0, 1)
    || OwnDirectory(c, p, isObject, n, d, 1, 2)
    || OwnDirectory(c, p, isObject, n, d, 2, 4)
    || SharedDirectory(c, p, isObject, n, d)
  }

  /** Elements of arrays have no name; members have that of their id, which counts from one. */
  ghost predicate NameStands(c: Context, isObject: bool, d: Directory, k: nat, name: seq<byte>) {
    if isObject then exists id: nat :: HasId(c, d, k, id, name) else name == []
  }

  predicate HasId(c: Context, d: Directory, k: nat, id: nat, name: seq<byte>) {
    1 <= id <= |c.names| && c.names[id - 1] == name && Field(c.data, d.idsAt + k * c.idLength, id, c.idLength)
  }

  /** The offset of child k leads to q: from the tree segment, or, modulo 2 to the 32, from the container. */
  ghost predicate LeadsTo(c: Context, p: nat, d: Directory, k: nat, q: nat) {
    exists off: nat :: HasOffset(c, p, d, k, off, q)
  }

  predicate HasOffset(c: Context, p: nat, d: Directory, k: nat, off: nat, q: nat) {
    Field(c.data, d.offsetsAt + k * OffsetBytes(d.wide), off, OffsetBytes(d.wide))
    && q == c.treeSeg + if c.relative then (off + (p - c.treeSeg)) % TWO32 else off
  }

  /** The bytes at p lay the document out; its scalars print. */
  ghost predicate Laid(r: Render, c: Context, p: nat, doc: Json)
    decreases doc, 1
  {
    if doc.Container? then exists d :: HasDirectory(c, p, doc.isObject, |doc.members|, d) && MembersLaid(r, c, p, doc.isObject, d, doc.members)
    else ScalarAt(c.data, p, doc) && Printable(r, doc)
  }

  ghost predicate MembersLaid(r: Render, c: Context, p: nat, isObject: bool, d: Directory, ms: seq<Member>)
    decreases ms, 0
  {
    forall k :: 0 <= k < |ms| ==> MemberLaid(r, c, p, isObject, d, k, ms[k])
  }

  ghost predicate MemberLaid(r: Render, c: Context, p: nat, isObject: bool, d: Directory, k: nat, m: Member)
    decreases m
  {
    NameStands(c, isObject, d, k, m.name) && exists q: nat :: LeadsTo(c, p, d, k, q) && Laid(r, c, q, m.value)
  }

  function BoxOf(c: Context, p: nat, isObject: bool, n: nat, d: Directory): Box {
    Box(isObject, n, d.idsAt, d.offsetsAt, OffsetBytes(d.wide), p - c.treeSeg)
  }

  lemma FieldIff(data: seq<byte>, p: nat, v: nat, w: nat)
    ensures Field(data, p, v, w) <==> U(data, p, w) == Some(v)
  {
    UIff(data, p, w, v);
  }

  lemma CountedIff(data: seq<byte>, q: nat, n: nat, idsAt: nat)
    ensures CountedAt(data, q, n, idsAt) <==> SharedCount(data, q) == Some((n, idsAt))
  {
    hide Field, U, FromBE, BE;
    if q < |data| {
      assert CountWidth(data[q]) == [1, 2, 4, 0][data[q] % 32 / 8];
      FieldIff(data, q + 1, n, 1);
      FieldIff(data, q + 1, n, 2);
      FieldIff(data, q + 1, n, 4);
    }
  }

  lemma TypeByteIff(t: byte, isObject: bool, wide: bool, code: nat)
    requires t >= 0x80 && code < 4
    ensures TypeByteIs(t, isObject, wide, code) <==> IsObject(t) == isObject && OffsetWidth(t) == OffsetBytes(wide) && t / 8 % 4 == code
  {
  }

  lemma OwnIff(c: Context, p: nat, isObject: bool, n: nat, d: Directory)
    requires p < |c.data| && c.data[p] >= 0x80 && CountWidth(c.data[p]) > 0
    ensures BoxAt(c, p) == Some(BoxOf(c, p, isObject, n, d)) <==>
            OwnDirectory(c, p, isObject, n, d, 0, 1) || OwnDirectory(c, p, isObject, n, d, 1, 2) || OwnDirectory(c, p, isObject, n, d, 2, 4)
  {
    hide Field, U;
    FieldIff(c.data, p + 1, n, 1);
    FieldIff(c.data, p + 1, n, 2);
    FieldIff(c.data, p + 1, n, 4);
  }

  lemma SharedIff(c: Context, p: nat, isObject: bool, n: nat, d: Directory)
    requires p < |c.data| && c.data[p] >= 0x80 && CountWidth(c.data[p]) == 0
    ensures BoxAt(c, p) == Some(BoxOf(c, p, isObject, n, d)) <==> SharedDirectory(c, p, isObject, n, d)
  {
    hide Field, U, CountedAt, SharedCount;
    var t, w := c.data[p], OffsetBytes(d.wide);
    TypeByteIff(t, isObject, d.wide, 3);
    if SharedDirectory(c, p, isObject, n, d) {
      var off: nat :| SharesAt(c, p, n, d, off);
      FieldIff(c.data, p + 1, off, w);
      CountedIff(c.data, c.treeSeg + off, n, d.idsAt);
    }
    if BoxAt(c, p) == Some(BoxOf(c, p, isObject, n, d)) {
      assert OffsetWidth(t) == w && IsObject(t) == isObject;
      var off := U(c.data, p + 1, w).value;
      FieldIff(c.data, p + 1, off, w);
      var got := SharedCount(c.data, c.treeSeg + off).value;
      assert got == (n, d.idsAt);
      CountedIff(c.data, c.treeSeg + off, n, d.idsAt);
      assert SharesAt(c, p, n, d, off);
    }
  }

  /** The directories the decoder finds are exactly those some writer laid out. */
  lemma DirectoryIff(c: Context, p: nat, isObject: bool, n: nat, d: Directory)
    requires p < |c.data|
    ensures HasDirectory(c, p, isObject, n, d) <==> c.data[p] >= 0x80 && BoxAt(c, p) == Some(BoxOf(c, p, isObject, n, d))
  {
    hide Field, U, CountedAt, SharedCount, BoxAt;
    if c.data[p] >= 0x80 {
      if CountWidth(c.data[p]) > 0 {
        OwnIff(c, p, isObject, n, d);
      } else {
        SharedIff(c, p, isObject, n, d);
      }
    }
  }

  lemma NameIff(c: Context, p: nat, isObject: bool, n: nat, d: Directory, k: nat, name: seq<byte>)
    ensures NameStands(c, isObject, d, k, name) <==> ChildName(c, BoxOf(c, p, isObject, n, d), k) == Some(name)
  {
    hide Field, U;
    var at := d.idsAt + k * c.idLength;
    forall id: nat
      ensures Field(c.data, at, id, c.idLength) <==> U(c.data, at, c.idLength) == Some(id)
    {
      FieldIff(c.data, at, id, c.idLength);
    }
    if isObject && ChildName(c, BoxOf(c, p, isObject, n, d), k) == Some(name) {
      assert HasId(c, d, k, U(c.data, at, c.idLength).value, name);
    }
  }

  lemma ChildIff(c: Context, p: nat, isObject: bool, n: nat, d: Directory, k: nat, q: nat)
    ensures LeadsTo(c, p, d, k, q) <==> ChildPos(c, BoxOf(c, p, isObject, n, d), k) == Some(q)
  {
    hide Field, U;
    var at, w := d.offsetsAt + k * OffsetBytes(d.wide), OffsetBytes(d.wide);
    forall off: nat
      ensures Field(c.data, at, off, w) <==> U(c.data, at, w) == Some(off)
    {
      FieldIff(c.data, at, off, w);
    }
    if ChildPos(c, BoxOf(c, p, isObject, n, d), k) == Some(q) {
      assert HasOffset(c, p, d, k, U(c.data, at, w).value, q);
    }
  }

  /** The bytes represent a document exactly if they lay it out: reading accepts every layout, and nothing else. */
  lemma {:induction false} LaidIff(r: Render, c: Context, p: nat, doc: Json)
    ensures Represents(r, c, p, doc) <==> Laid(r, c, p, doc)
    decreases doc
  {
    hide HasDirectory, BoxAt, ScalarAt, RawScalar, Printable, RepresentsMember, MemberLaid;
    if p < |c.data| {
      if doc.Container? {
        forall d
          ensures HasDirectory(c, p, doc.isObject, |doc.members|, d)
                  <==> c.data[p] >= 0x80 && BoxAt(c, p) == Some(BoxOf(c, p, doc.isObject, |doc.members|, d))
          ensures MembersLaid(r, c, p, doc.isObject, d, doc.members)
                  <==> RepresentsMembers(r, c, BoxOf(c, p, doc.isObject, |doc.members|, d), doc.isObject, doc.members)
        {
          DirectoryIff(c, p, doc.isObject, |doc.members|, d);
          MembersIff(r, c, p, doc.isObject, |doc.members|, d, doc.members);
        }
        if Represents(r, c, p, doc) {
          var b := BoxAt(c, p).value;
          BoxIsDirectory(c, p);
          assert RepresentsMembers(r, c, b, doc.isObject, doc.members);
          var d := Directory(b.idsAt, b.offsetsAt, b.width == 4);
          assert b == BoxOf(c, p, doc.isObject, |doc.members|, d);
          assert HasDirectory(c, p, doc.isObject, |doc.members|, d);
        }
      } else {
        ScalarIff(c.data, p, doc);
      }
    } else {
      NothingStands(c, p, doc);
    }
  }

  lemma BoxIsDirectory(c: Context, p: nat)
    requires p < |c.data| && BoxAt(c, p).Some?
    ensures var b := BoxAt(c, p).value;
            b.base == p - c.treeSeg && (b.width == 4 || b.width == 2)
  {
  }

  lemma NothingStands(c: Context, p: nat, doc: Json)
    requires p >= |c.data|
    ensures !ScalarAt(c.data, p, doc)
    ensures forall isObject, n, d :: !HasDirectory(c, p, isObject, n, d)
  {
    if ScalarAt(c.data, p, doc) {
      var n: nat :| WrittenIn(c.data, p, n, doc);
      WrittenIsRead(c.data, p, n, doc);
    }
  }

  lemma {:induction false} MembersIff(r: Render, c: Context, p: nat, isObject: bool, n: nat, d: Directory, ms: seq<Member>)
    ensures MembersLaid(r, c, p, isObject, d, ms) <==> RepresentsMembers(r, c, BoxOf(c, p, isObject, n, d), isObject, ms)
    decreases ms
  {
    hide NameStands, LeadsTo, ChildName, ChildPos, Represents, Laid;
    var b := BoxOf(c, p, isObject, n, d);
    forall k | 0 <= k < |ms|
      ensures MemberLaid(r, c, p, isObject, d, k, ms[k]) <==> RepresentsMember(r, c, b, k, ms[k])
    {
      MemberIff(r, c, p, isObject, n, d, k, ms[k]);
    }
  }

  lemma {:induction false} MemberIff(r: Render, c: Context, p: nat, isObject: bool, n: nat, d: Directory, k: nat, m: Member)
    ensures MemberLaid(r, c, p, isObject, d, k, m) <==> RepresentsMember(r, c, BoxOf(c, p, isObject, n, d), k, m)
    decreases m
  {
    hide NameStands, LeadsTo, ChildName, ChildPos, Represents, Laid;
    NameIff(c, p, isObject, n, d, k, m.name);
    forall q: nat
      ensures LeadsTo(c, p, d, k, q) <==> ChildPos(c, BoxOf(c, p, isObject, n, d), k) == Some(q)
      ensures Laid(r, c, q, m.value) <==> Represents(r, c, q, m.value)
    {
      ChildIff(c, p, isObject, n, d, k, q);
      LaidIff(r, c, q, m.value);
    }
  }

  // ---- headers ----

  /** The choices a header makes: version 3 has a second dictionary, of long names. */
  datatype Style = Style(relative: bool, id: nat, wideNames: bool, wideTree: bool, version3: bool, wideLong: bool)

  predicate Choice(s: Style) {
    s.id == 1 || s.id == 2 || s.id == 4
  }

  function Flags(s: Style, scalar: bool): nat {
    (if s.relative then 0x01 else 0) + (if s.id == 4 then 0x08 else if s.id == 2 then 0x400 else 0)
    + (if scalar then 0x10 else 0) + (if s.wideNames then 0x800 else 0) + (if s.wideTree then 0x1000 else 0)
  }

  lemma FlagsRead(s: Style, scalar: bool)
    requires Choice(s)
    ensures var f := Flags(s, scalar);
            f < 0x1_0000 && Bit(f, 0x10) == scalar && Bit(f, 0x01) == s.relative
            && WidthsOf(f) == Widths(s.id, OffsetBytes(s.wideNames), OffsetBytes(s.wideTree))
  {
  }

  /** Hash ids, offsets, and the names with their lengths. */
  function DictionaryBytes(names: seq<seq<byte>>, hashes: seq<byte>, lengthWidth: nat, offsetWidth: nat): seq<byte> {
    hashes + (Offsets(names, lengthWidth, offsetWidth) + Segment(names, lengthWidth))
  }

  /** What version 3 adds to the sizes: the width of the long dictionary's offsets, and its sizes. */
  function LongPart(s: Style, long: seq<seq<byte>>): seq<byte> {
    if s.version3 then BE(if s.wideLong then 0 else 0x100, 2) + (BE(|long|, 4) + BE(|Segment(long, 2)|, 4)) else []
  }

  /** `rest` is the size of the tree and the number of tiny nodes, which nobody looks at. */
  function SizesPart(s: Style, short: seq<seq<byte>>, long: seq<seq<byte>>, rest: seq<byte>): seq<byte> {
    BE(|short|, s.id) + (BE(|Segment(short, 1)|, OffsetBytes(s.wideNames)) + (LongPart(s, long) + rest))
  }

  function LongDeclared(s: Style, long: seq<seq<byte>>): Declared {
    if s.version3 then Declared(|long|, OffsetBytes(s.wideLong), |Segment(long, 2)|) else Declared(0, 0, 0)
  }

  function Start(s: Style, scalar: bool): seq<byte> {
    [0xff, 0x4a, 0x5a] + ([if s.version3 then 3 else 1] + BE(Flags(s, scalar), 2))
  }

  predicate NamesFit(s: Style, short: seq<seq<byte>>, shortHashes: seq<byte>, long: seq<seq<byte>>, longHashes: seq<byte>, rest: seq<byte>) {
    Choice(s) && |rest| == OffsetBytes(s.wideTree) + 2
    && |short| < Pow256(s.id) && FieldsFit(short, 1, OffsetBytes(s.wideNames)) && |shortHashes| == |short|
    && |long| < TWO32 && |Segment(long, 2)| < TWO32 && FieldsFit(long, 2, OffsetBytes(s.wideLong)) && |longHashes| == 2 * |long|
    && (!s.version3 ==> long == [])
  }

  /** The header of a document that is more than a scalar. */
  function EncHeader(s: Style, short: seq<seq<byte>>, shortHashes: seq<byte>, long: seq<seq<byte>>, longHashes: seq<byte>, rest: seq<byte>): seq<byte> {
    Start(s, false) + (SizesPart(s, short, long, rest)
      + (DictionaryBytes(short, shortHashes, 1, OffsetBytes(s.wideNames)) + DictionaryBytes(long, longHashes, 2, OffsetBytes(s.wideLong))))
  }

  lemma StartStands(data: seq<byte>, s: Style, scalar: bool)
    requires Choice(s) && Holds(data, 0, Start(s, scalar))
    ensures GoodStart(data) && data[3] == (if s.version3 then 3 else 1) && U(data, 4, 2) == Some(Flags(s, scalar))
  {
    hide BE, FromBE, U, Flags;
    FlagsRead(s, scalar);
    var v: seq<byte> := [if s.version3 then 3 else 1];
    HoldsBoth(data, 0, [0xff, 0x4a, 0x5a], v + BE(Flags(s, scalar), 2));
    HoldsBoth(data, 3, v, BE(Flags(s, scalar), 2));
    assert data[3..4][0] == data[3];
    Powers();
    HoldsField(data, 4, Flags(s, scalar), 2);
  }

  lemma Powers()
    ensures Pow256(1) == 256 && Pow256(2) == 0x1_0000 && Pow256(4) == TWO32
  {
    assert Pow256(2) == 256 * Pow256(1);
    assert Pow256(3) == 256 * Pow256(2);
    assert Pow256(4) == 256 * Pow256(3);
  }

  lemma LongPartStands(data: seq<byte>, p: nat, s: Style, long: seq<seq<byte>>)
    requires s.version3 && |long| < TWO32 && |Segment(long, 2)| < TWO32 && Holds(data, p, LongPart(s, long))
    ensures LongSizes(data, p) == Some(Declared(|long|, OffsetBytes(s.wideLong), |Segment(long, 2)|))
  {
    hide BE, FromBE, U, Holds, Segment;
    var flags: nat := if s.wideLong then 0 else 0x100;
    HoldsBoth(data, p, BE(flags, 2), BE(|long|, 4) + BE(|Segment(long, 2)|, 4));
    HoldsBoth(data, p + 2, BE(|long|, 4), BE(|Segment(long, 2)|, 4));
    Powers();
    HoldsField(data, p, flags, 2);
    HoldsField(data, p + 2, |long|, 4);
    HoldsField(data, p + 6, |Segment(long, 2)|, 4);
  }

  lemma SizesStand(data: seq<byte>, s: Style, short: seq<seq<byte>>, long: seq<seq<byte>>, rest: seq<byte>, hs: seq<byte>, hl: seq<byte>)
    requires NamesFit(s, short, hs, long, hl, rest) && Holds(data, 6, SizesPart(s, short, long, rest))
    ensures SizesAt(data, 6, if s.version3 then 3 else 1, Widths(s.id, OffsetBytes(s.wideNames), OffsetBytes(s.wideTree)))
         == Some(Sizes(Declared(|short|, OffsetBytes(s.wideNames), |Segment(short, 1)|),
                       LongDeclared(s, long),
                       6 + |SizesPart(s, short, long, rest)|))
  {
    hide BE, FromBE, U, Segment, LongSizes;
    var n, z, l := BE(|short|, s.id), BE(|Segment(short, 1)|, OffsetBytes(s.wideNames)), LongPart(s, long);
    HoldsBoth(data, 6, n, z + (l + rest));
    HoldsBoth(data, 6 + s.id, z, l + rest);
    var p1 := 6 + s.id + OffsetBytes(s.wideNames);
    HoldsBoth(data, p1, l, rest);
    HoldsField(data, 6, |short|, s.id);
    HoldsField(data, 6 + s.id, |Segment(short, 1)|, OffsetBytes(s.wideNames));
    if s.version3 { LongPartStands(data, p1, s, long); }
  }

  lemma DictionaryStands(data: seq<byte>, p: nat, names: seq<seq<byte>>, hashes: seq<byte>, lengthWidth: nat, offsetWidth: nat)
    requires FieldsFit(names, lengthWidth, offsetWidth) && |hashes| == lengthWidth * |names|
    requires Holds(data, p, DictionaryBytes(names, hashes, lengthWidth, offsetWidth))
    ensures DictionaryIfAny(data, p, Declared(|names|, offsetWidth, |Segment(names, lengthWidth)|), lengthWidth)
            == Some(Names(names, p + |DictionaryBytes(names, hashes, lengthWidth, offsetWidth)|))
  {
    hide BE, FromBE, Segment, Offsets, Dictionary, FieldsFit;
    var offs, seg := Offsets(names, lengthWidth, offsetWidth), Segment(names, lengthWidth);
    if names == [] {
      EmptyDictionary(lengthWidth, offsetWidth);
      assert hashes == [];
    } else {
      HoldsBoth(data, p, hashes, offs + seg);
      HoldsBoth(data, p + |hashes|, offs, seg);
      assert Slot(p, |names|, lengthWidth) == p + |hashes|;
      DictionaryReadsBack(data, p, names, lengthWidth, offsetWidth);
    }
  }

  lemma EmptyDictionary(lengthWidth: nat, offsetWidth: nat)
    ensures Offsets([], lengthWidth, offsetWidth) == [] && Segment([], lengthWidth) == []
  {
  }

  /** Whatever a header chooses, the decoder gets to the tree behind it with the right names, widths and base. */
  lemma HeaderStands(data: seq<byte>, s: Style, short: seq<seq<byte>>, hs: seq<byte>, long: seq<seq<byte>>, hl: seq<byte>, rest: seq<byte>)
    requires NamesFit(s, short, hs, long, hl, rest) && Holds(data, 0, EncHeader(s, short, hs, long, hl, rest))
    ensures var end := |EncHeader(s, short, hs, long, hl, rest)|;
            RootOf(data) == Some(Root(Context(data, end, s.relative, s.id, short + long), end))
  {
    hide BE, FromBE, U, Segment, Offsets, NamesFit, SizesPart, DictionaryBytes, SizesAt, DictionaryIfAny, GoodStart, Flags, Start;
    var a, b := Start(s, false), SizesPart(s, short, long, rest);
    var d, e := DictionaryBytes(short, hs, 1, OffsetBytes(s.wideNames)), DictionaryBytes(long, hl, 2, OffsetBytes(s.wideLong));
    NamesFitParts(s, short, hs, long, hl, rest);
    assert |a| == 6 by { StartSize(s); }
    HoldsBoth(data, 0, a, b + (d + e));
    HoldsBoth(data, 6, b, d + e);
    HoldsBoth(data, 6 + |b|, d, e);
    StartStands(data, s, false);
    FlagsRead(s, false);
    SizesStand(data, s, short, long, rest, hs, hl);
    DictionaryStands(data, 6 + |b|, short, hs, 1, OffsetBytes(s.wideNames));
    LongStands(data, 6 + |b| + |d|, s, long, hl);
  }

  lemma StartSize(s: Style)
    ensures |Start(s, false)| == 6
  {
  }

  lemma NamesFitParts(s: Style, short: seq<seq<byte>>, hs: seq<byte>, long: seq<seq<byte>>, hl: seq<byte>, rest: seq<byte>)
    requires NamesFit(s, short, hs, long, hl, rest)
    ensures Choice(s) && FieldsFit(short, 1, OffsetBytes(s.wideNames)) && |hs| == |short|
    ensures FieldsFit(long, 2, OffsetBytes(s.wideLong)) && |hl| == 2 * |long| && (!s.version3 ==> long == [])
  {
  }

  lemma LongStands(data: seq<byte>, p: nat, s: Style, long: seq<seq<byte>>, hl: seq<byte>)
    requires FieldsFit(long, 2, OffsetBytes(s.wideLong)) && |hl| == 2 * |long| && (!s.version3 ==> long == [])
    requires Holds(data, p, DictionaryBytes(long, hl, 2, OffsetBytes(s.wideLong)))
    ensures DictionaryIfAny(data, p, LongDeclared(s, long), 2)
            == Some(Names(long, p + |DictionaryBytes(long, hl, 2, OffsetBytes(s.wideLong))|))
  {
    hide Dictionary, FieldsFit, Holds, Segment, Offsets, BE;
    DictionaryStands(data, p, long, hl, 2, OffsetBytes(s.wideLong));
    if !s.version3 { EmptyDictionary(2, OffsetBytes(s.wideLong)); }
  }

  /** A document that is one scalar: the tree size, then the node. */
  lemma ScalarHeaderStands(data: seq<byte>, s: Style, size: seq<byte>)
    requires Choice(s) && |size| == OffsetBytes(s.wideTree) && Holds(data, 0, Start(s, true) + size)
    ensures RootOf(data) == Some(Root(Context(data, 0, s.relative, 0, []), 6 + |size|))
  {
    hide BE, FromBE, U, GoodStart, Flags, Start, SizesAt;
    HoldsBoth(data, 0, Start(s, true), size);
    StartStands(data, s, true);
    FlagsRead(s, true);
  }

  /** A document laid out behind any header, in any forms, decodes to itself. */
  lemma LayoutDecodes(r: Render, data: seq<byte>, s: Style, short: seq<seq<byte>>, hs: seq<byte>, long: seq<seq<byte>>, hl: seq<byte>, rest: seq<byte>, doc: Json)
    requires NamesFit(s, short, hs, long, hl, rest) && Holds(data, 0, EncHeader(s, short, hs, long, hl, rest))
    requires var end := |EncHeader(s, short, hs, long, hl, rest)|; Laid(r, Context(data, end, s.relative, s.id, short + long), end, doc)
    ensures OsonDecoder.TextIn(r, data) == Doc(Text(r, doc))
  {
    hide EncHeader, NamesFit, Laid, Represents, OsonDecoder.TextIn, Text;
    var end := |EncHeader(s, short, hs, long, hl, rest)|;
    HeaderStands(data, s, short, hs, long, hl, rest);
    LaidIff(r, Context(data, end, s.relative, s.id, short + long), end, doc);
    OsonDecoder.OutcomeOf(r, data);
    assert OsonDecoder.IsDocument(r, data, doc);
  }

  /** The smallest document: nine bytes that say true. */
  lemma TrueDocument(r: Render)
    ensures OsonDecoder.TextIn(r, [0xff, 0x4a, 0x5a, 0x01, 0x00, 0x10, 0x00, 0x01, 0x31]) == Doc([0x74, 0x72, 0x75, 0x65])
  {
    hide FromBE, U;
    var data: seq<byte> := [0xff, 0x4a, 0x5a, 0x01, 0x00, 0x10, 0x00, 0x01, 0x31];
    OsonDecoder.SmallFields(data, 4);
    assert Bit(16, 0x10) && WidthsOf(16) == Widths(1, 2, 2);
    assert RootOf(data) == Some(Root(Context(data, 0, false, 0, []), 8));
    assert Scalar(r, data, 8) == Doc(True);
  }
}
