// A reference encoder for OSON documents: what it lays out, the decoder reads back.
module OsonEncoding {
  import opened Bytes
  import opened Regions
  import opened Oson
  import opened OsonHeader
  import OsonDecoder

  // ---- nodes, with four-byte counts, ids and offsets ----

  function HeadSize(isObject: bool, n: nat): nat {
    if isObject then 5 + 8 * n else 5 + 4 * n
  }

  function Size(doc: Json): nat
    decreases doc, 1
  {
    match doc
    case Null => 1
    case True => 1
    case False => 1
    case Str(bs) => 5 + |bs|
    case Number(w) => 2 + |w|
    case Hex(bs) => 5 + |bs|
    case Leaf(_, raw) => 1 + |raw|
    case Container(isObject, members) => HeadSize(isObject, |members|) + SizeTo(members, |members|)
  }

  /** The size of the first k members. */
  function SizeTo(members: seq<Member>, k: nat): nat
    requires k <= |members|
    decreases members, 0, k
  {
    if k == 0 then 0 else SizeTo(members, k - 1) + Size(members[k - 1].value)
  }

  /** The position of a name in the dictionary, from 1. */
  function IdOf(names: seq<seq<byte>>, name: seq<byte>): (id: nat)
    requires name in names
    ensures 1 <= id <= |names| && names[id - 1] == name
  {
    if names[|names| - 1] == name then |names| else IdOf(names[..|names| - 1], name)
  }

  /** Lengths fit their fields, and the dictionary has every member's name; elements of arrays have none. */
  predicate Encodable(names: seq<seq<byte>>, doc: Json)
    decreases doc
  {
    match doc
    case Str(bs) => |bs| < TWO32
    case Number(w) => |w| < 256
    case Hex(bs) => |bs| < TWO32
    case Leaf(tag, raw) => |raw| == LeafSize(tag) > 0
    case Container(isObject, members) =>
      |members| < TWO32
      && forall k :: 0 <= k < |members| ==>
           (if isObject then members[k].name in names else members[k].name == []) && Encodable(names, members[k].value)
    case _ => true
  }

  predicate Named(names: seq<seq<byte>>, members: seq<Member>) {
    forall j :: 0 <= j < |members| ==> members[j].name in names
  }

  /** What a node's offset fields count from: nothing, or the node itself. */
  function From(relative: bool, at: nat): nat {
    if relative then at else 0
  }

  function EncIds(names: seq<seq<byte>>, members: seq<Member>, k: nat): (bs: seq<byte>)
    requires k <= |members| && Named(names, members)
    ensures |bs| == 4 * k
  {
    if k == 0 then [] else EncIds(names, members, k - 1) + BE(IdOf(names, members[k - 1].name), 4)
  }

  /** Offsets of the first k members, which start at `base`. */
  function EncOffsets(members: seq<Member>, base: nat, k: nat): (bs: seq<byte>)
    requires k <= |members|
    ensures |bs| == 4 * k
  {
    if k == 0 then [] else EncOffsets(members, base, k - 1) + BE(base + SizeTo(members, k - 1), 4)
  }

  /** A node at offset `at` of the tree segment. */
  function EncNode(names: seq<seq<byte>>, relative: bool, doc: Json, at: nat): (bs: seq<byte>)
    requires Encodable(names, doc)
    ensures |bs| == Size(doc)
    decreases doc, 1
  {
    match doc
    case Null => [0x30]
    case True => [0x31]
    case False => [0x32]
    case Str(b) => [0x38] + BE(|b|, 4) + b
    case Number(w) => [0x34, |w|] + w
    case Hex(b) => [0x3b] + BE(|b|, 4) + b
    case Leaf(tag, raw) => [tag] + raw
    case Container(isObject, members) =>
      var start := at + HeadSize(isObject, |members|);
      EncHead(names, relative, isObject, members, at) + EncMembers(names, relative, members, start, |members|)
  }

  /** Objects have an id for each member. */
  function IdsPart(names: seq<seq<byte>>, isObject: bool, members: seq<Member>): (bs: seq<byte>)
    requires isObject ==> Named(names, members)
    ensures |bs| == if isObject then 4 * |members| else 0
  {
    if isObject then EncIds(names, members, |members|) else []
  }

  function OffsetsPart(relative: bool, isObject: bool, members: seq<Member>, at: nat): (bs: seq<byte>)
    ensures |bs| == 4 * |members|
  {
    EncOffsets(members, at + HeadSize(isObject, |members|) - From(relative, at), |members|)
  }

  /** A container with its own ids, a four-byte count and four-byte offsets. */
  function TypeByte(isObject: bool): byte {
    if isObject then 0xb0 else 0xf0
  }

  function EncHead(names: seq<seq<byte>>, relative: bool, isObject: bool, members: seq<Member>, at: nat): (bs: seq<byte>)
    requires isObject ==> Named(names, members)
    ensures |bs| == HeadSize(isObject, |members|)
  {
    [TypeByte(isObject)] + BE(|members|, 4) + (IdsPart(names, isObject, members) + OffsetsPart(relative, isObject, members, at))
  }

  function EncMembers(names: seq<seq<byte>>, relative: bool, members: seq<Member>, start: nat, k: nat): (bs: seq<byte>)
    requires k <= |members| && forall j :: 0 <= j < |members| ==> Encodable(names, members[j].value)
    ensures |bs| == SizeTo(members, k)
    decreases members, 0, k
  {
    if k == 0 then []
    else EncMembers(names, relative, members, start, k - 1)
         + EncNode(names, relative, members[k - 1].value, start + SizeTo(members, k - 1))
  }

  // ---- what is laid out represents the document ----

  /** The context the header of such a layout establishes. */
  predicate Wide(c: Context) {
    c.idLength == 4 && |c.names| < TWO32
  }

  lemma Four()
    ensures Pow256(4) == TWO32 && Pow256(1) == 256 && Pow256(2) == 0x1_0000
  {
    assert Pow256(2) == 256 * Pow256(1);
    assert Pow256(4) == 256 * Pow256(3);
    assert Pow256(3) == 256 * Pow256(2);
  }

  lemma {:induction false} SizeToGrows(members: seq<Member>, i: nat, k: nat)
    requires i <= k <= |members|
    ensures SizeTo(members, i) <= SizeTo(members, k)
    decreases k
  {
    if i < k {
      SizeToGrows(members, i, k - 1);
    }
  }

  lemma {:induction false} IdReadsBack(data: seq<byte>, p: nat, names: seq<seq<byte>>, members: seq<Member>, k: nat, i: nat)
    requires i < k <= |members| && Named(names, members) && |names| < TWO32
    requires Holds(data, p, EncIds(names, members, k))
    ensures U(data, p + i * 4, 4) == Some(IdOf(names, members[i].name))
    decreases k
  {
    hide BE, U, IdOf;
    HoldsBoth(data, p, EncIds(names, members, k - 1), BE(IdOf(names, members[k - 1].name), 4));
    if i < k - 1 {
      IdReadsBack(data, p, names, members, k - 1, i);
    } else {
      Four();
      HoldsField(data, p + 4 * i, IdOf(names, members[i].name), 4);
    }
  }

  lemma {:induction false} OffsetReadsBack(data: seq<byte>, p: nat, members: seq<Member>, base: nat, k: nat, i: nat)
    requires i < k <= |members| && base + SizeTo(members, |members|) < TWO32
    requires Holds(data, p, EncOffsets(members, base, k))
    ensures U(data, p + i * 4, 4) == Some(base + SizeTo(members, i))
    decreases k
  {
    hide BE, U, SizeTo;
    HoldsBoth(data, p, EncOffsets(members, base, k - 1), BE(base + SizeTo(members, k - 1), 4));
    if i < k - 1 {
      OffsetReadsBack(data, p, members, base, k - 1, i);
    } else {
      Four();
      SizeToGrows(members, i, |members|);
      HoldsField(data, p + 4 * i, base + SizeTo(members, i), 4);
    }
  }

  lemma {:induction false} MemberStands(data: seq<byte>, p: nat, names: seq<seq<byte>>, relative: bool, members: seq<Member>, start: nat, k: nat, i: nat)
    requires i < k <= |members| && forall j :: 0 <= j < |members| ==> Encodable(names, members[j].value)
    requires Holds(data, p, EncMembers(names, relative, members, start, k))
    ensures Holds(data, p + SizeTo(members, i), EncNode(names, relative, members[i].value, start + SizeTo(members, i)))
    decreases k
  {
    hide EncNode, Encodable;
    HoldsBoth(data, p, EncMembers(names, relative, members, start, k - 1),
              EncNode(names, relative, members[k - 1].value, start + SizeTo(members, k - 1)));
    if i < k - 1 {
      MemberStands(data, p, names, relative, members, start, k - 1, i);
    }
  }

  lemma HeadByte(data: seq<byte>, p: nat, t: byte, rest: seq<byte>)
    requires Holds(data, p, [t] + rest)
    ensures p < |data| && data[p] == t && Holds(data, p + 1, rest)
  {
    HoldsBoth(data, p, [t], rest);
    assert data[p..p + 1][0] == t;
  }

  /** Literals and leaves: a type byte, then the bytes it asks for. */
  lemma PlainStands(c: Context, relative: bool, doc: Json, p: nat)
    requires doc.Null? || doc.True? || doc.False? || doc.Leaf?
    requires Encodable(c.names, doc) && Holds(c.data, p, EncNode(c.names, relative, doc, 0))
    ensures p < |c.data| && c.data[p] < 0x80 && RawScalar(c.data, p) == Some(doc)
  {
    hide U, Counted;
    match doc
    case Null => HeadByte(c.data, p, 0x30, []);
    case True => HeadByte(c.data, p, 0x31, []);
    case False => HeadByte(c.data, p, 0x32, []);
    case Leaf(tag, raw) => HeadByte(c.data, p, tag, raw);
    case _ =>
  }

  /** Strings, numbers and binary values: a type byte, a length, and that many bytes. */
  lemma CountedStands(c: Context, relative: bool, doc: Json, p: nat)
    requires doc.Str? || doc.Hex? || doc.Number?
    requires Encodable(c.names, doc) && Holds(c.data, p, EncNode(c.names, relative, doc, 0))
    ensures p < |c.data| && c.data[p] < 0x80 && RawScalar(c.data, p) == Some(doc)
  {
    hide BE, FromBE, Slice, Counted;
    match doc
    case Str(b) => WideCounted(c.data, p, 0x38, b);
    case Hex(b) => WideCounted(c.data, p, 0x3b, b);
    case Number(w) =>
      OneByte(|w|);
      assert [0x34, |w|] + w == [0x34] + (BE(|w|, 1) + w);
      HeadByte(c.data, p, 0x34, BE(|w|, 1) + w);
      Four();
      HoldsCounted(c.data, p + 1, w, 1);
    case _ =>
  }

  lemma ScalarStands(r: Render, c: Context, relative: bool, doc: Json, at: nat, p: nat)
    requires !doc.Container? && Printable(r, doc) && Encodable(c.names, doc)
    requires Holds(c.data, p, EncNode(c.names, relative, doc, at))
    ensures Represents(r, c, p, doc)
  {
    hide RawScalar, Encodable, Printable;
    assert EncNode(c.names, relative, doc, at) == EncNode(c.names, relative, doc, 0);
    if doc.Str? || doc.Hex? || doc.Number? {
      CountedStands(c, relative, doc, p);
    } else {
      PlainStands(c, relative, doc, p);
    }
  }

  /** A type byte, a four-byte count and the rest. */
  lemma CountParts(data: seq<byte>, p: nat, t: byte, count: seq<byte>, rest: seq<byte>)
    requires Holds(data, p, [t] + count + rest) && |count| == 4
    ensures p < |data| && data[p] == t && Holds(data, p + 1, count) && Holds(data, p + 5, rest)
  {
    HoldsBoth(data, p, [t] + count, rest);
    HeadByte(data, p, t, count);
  }

  lemma WideCounted(data: seq<byte>, p: nat, t: byte, b: seq<byte>)
    requires |b| < TWO32 && Holds(data, p, [t] + BE(|b|, 4) + b)
    ensures p < |data| && data[p] == t && Counted(data, p + 1, 4) == Some(b)
  {
    hide BE, U, Pow256, Holds;
    CountParts(data, p, t, BE(|b|, 4), b);
    Four();
    HoldsField(data, p + 1, |b|, 4);
  }

  lemma OneByte(v: nat)
    requires v < 256
    ensures BE(v, 1) == [v]
  {
    assert BE(v / 256, 0) == [];
  }

  /** The directory of a container laid out this way. */
  lemma HeadStands(c: Context, relative: bool, isObject: bool, members: seq<Member>, at: nat)
    requires Wide(c) && |members| < TWO32 && (isObject ==> Named(c.names, members))
    requires Holds(c.data, c.treeSeg + at, EncHead(c.names, relative, isObject, members, at))
    ensures var p, ids := c.treeSeg + at, IdsPart(c.names, isObject, members);
            p < |c.data| && c.data[p] >= 0x80
            && BoxAt(c, p) == Some(Box(isObject, |members|, p + 5, p + 5 + |ids|, 4, at))
            && Holds(c.data, p + 5, ids)
            && Holds(c.data, p + 5 + |ids|, OffsetsPart(relative, isObject, members, at))
  {
    hide BE, FromBE, IdsPart, OffsetsPart, U, Named, Pow256, BoxAt, Holds, TypeByte;
    var p, n := c.treeSeg + at, |members|;
    var ids, offsets := IdsPart(c.names, isObject, members), OffsetsPart(relative, isObject, members, at);
    CountParts(c.data, p, TypeByte(isObject), BE(n, 4), ids + offsets);
    HoldsBoth(c.data, p + 5, ids, offsets);
    Four();
    HoldsField(c.data, p + 1, n, 4);
    OwnBoxAt(c, p, isObject, n);
  }

  lemma OwnBoxAt(c: Context, p: nat, isObject: bool, n: nat)
    requires Wide(c) && p < |c.data| && c.data[p] == TypeByte(isObject) && U(c.data, p + 1, 4) == Some(n) && c.treeSeg <= p
    ensures c.data[p] >= 0x80
    ensures BoxAt(c, p) == Some(Box(isObject, n, p + 5, if isObject then p + 5 + 4 * n else p + 5, 4, p - c.treeSeg))
  {
    hide U;
    var t := c.data[p];
    assert CountWidth(t) == 4 && OffsetWidth(t) == 4 && IsObject(t) == isObject;
  }

  /** The directory of a container finds member k, which is laid out where it leads to. */
  lemma MemberReady(r: Render, c: Context, doc: Json, at: nat, k: nat)
    requires Wide(c) && doc.Container? && k < |doc.members|
    requires Printable(r, doc) && Encodable(c.names, doc) && at + Size(doc) < TWO32
    requires Holds(c.data, c.treeSeg + at, EncNode(c.names, c.relative, doc, at))
    ensures var p := c.treeSeg + at;
            p < |c.data| && c.data[p] >= 0x80 && BoxAt(c, p).Some? && BoxAt(c, p).value.isObject == doc.isObject
            && BoxAt(c, p).value.count == |doc.members| && ChildName(c, BoxAt(c, p).value, k) == Some(doc.members[k].name)
    ensures var m, at' := doc.members[k].value, at + HeadSize(doc.isObject, |doc.members|) + SizeTo(doc.members, k);
            Printable(r, m) && Encodable(c.names, m) && at' + Size(m) < TWO32
            && ChildPos(c, BoxAt(c, c.treeSeg + at).value, k) == Some(c.treeSeg + at')
            && Holds(c.data, c.treeSeg + at', EncNode(c.names, c.relative, m, at'))
  {
    hide EncHead, EncMembers, SizeTo, BoxAt, HeadSize, Named, Holds, Encodable, Printable, ChildName, ChildPos;
    var isObject, members, n := doc.isObject, doc.members, |doc.members|;
    var head := HeadSize(isObject, n);
    AllNamed(c.names, isObject, members);
    HoldsBoth(c.data, c.treeSeg + at, EncHead(c.names, c.relative, isObject, members, at),
              EncMembers(c.names, c.relative, members, at + head, n));
    HeadStands(c, c.relative, isObject, members, at);
    MemberIsEncodable(r, c.names, isObject, members, k);
    MemberFits(isObject, members, at, k);
    MemberIsFound(c, BoxAt(c, c.treeSeg + at).value, isObject, members, at, k);
    MemberStands(c.data, c.treeSeg + at + head, c.names, c.relative, members, at + head, n, k);
  }

  lemma EmptyStands(c: Context, doc: Json, at: nat)
    requires Wide(c) && doc.Container? && doc.members == [] && Encodable(c.names, doc)
    requires Holds(c.data, c.treeSeg + at, EncNode(c.names, c.relative, doc, at))
    ensures var p := c.treeSeg + at;
            p < |c.data| && c.data[p] >= 0x80 && BoxAt(c, p).Some? && BoxAt(c, p).value.isObject == doc.isObject
            && BoxAt(c, p).value.count == 0
  {
    hide EncHead, EncMembers, SizeTo, BoxAt, HeadSize, Named, Holds, Encodable;
    AllNamed(c.names, doc.isObject, doc.members);
    HoldsBoth(c.data, c.treeSeg + at, EncHead(c.names, c.relative, doc.isObject, doc.members, at),
              EncMembers(c.names, c.relative, doc.members, at + HeadSize(doc.isObject, 0), 0));
    HeadStands(c, c.relative, doc.isObject, doc.members, at);
  }

  lemma {:induction false} NodeStands(r: Render, c: Context, doc: Json, at: nat)
    requires Wide(c) && Printable(r, doc) && Encodable(c.names, doc) && at + Size(doc) < TWO32
    requires Holds(c.data, c.treeSeg + at, EncNode(c.names, c.relative, doc, at))
    ensures Represents(r, c, c.treeSeg + at, doc)
    decreases doc
  {
    hide EncNode, SizeTo, BoxAt, Represents, HeadSize, Holds, Encodable, Printable, ChildName, ChildPos, Size;
    if doc.Container? {
      forall k | 0 <= k < |doc.members|
        ensures c.treeSeg + at < |c.data| && c.data[c.treeSeg + at] >= 0x80 && BoxAt(c, c.treeSeg + at).Some?
        ensures RepresentsMember(r, c, BoxAt(c, c.treeSeg + at).value, k, doc.members[k])
      {
        MemberReady(r, c, doc, at, k);
        NodeStands(r, c, doc.members[k].value, at + HeadSize(doc.isObject, |doc.members|) + SizeTo(doc.members, k));
      }
      if doc.members == [] {
        EmptyStands(c, doc, at);
      } else {
        MemberReady(r, c, doc, at, 0);
      }
      ContainerIsRepresented(r, c, c.treeSeg + at, doc.isObject, doc.members);
    } else {
      ScalarStands(r, c, c.relative, doc, at, c.treeSeg + at);
    }
  }

  lemma AllNamed(names: seq<seq<byte>>, isObject: bool, members: seq<Member>)
    requires Encodable(names, Container(isObject, members))
    ensures isObject ==> Named(names, members)
    ensures |members| < TWO32 && forall k :: 0 <= k < |members| ==> Encodable(names, members[k].value)
  {
  }

  lemma MemberIsEncodable(r: Render, names: seq<seq<byte>>, isObject: bool, members: seq<Member>, k: nat)
    requires Encodable(names, Container(isObject, members)) && Printable(r, Container(isObject, members)) && k < |members|
    ensures Encodable(names, members[k].value) && Printable(r, members[k].value)
    ensures !isObject ==> members[k].name == []
  {
  }

  lemma MemberFits(isObject: bool, members: seq<Member>, at: nat, k: nat)
    requires k < |members| && at + Size(Container(isObject, members)) < TWO32
    ensures at + HeadSize(isObject, |members|) + SizeTo(members, k) + Size(members[k].value) < TWO32
    ensures at + HeadSize(isObject, |members|) + SizeTo(members, |members|) < TWO32
  {
    SizeToGrows(members, k + 1, |members|);
    OneMore(members, k);
  }

  lemma ContainerIsRepresented(r: Render, c: Context, p: nat, isObject: bool, members: seq<Member>)
    requires p < |c.data| && c.data[p] >= 0x80 && BoxAt(c, p).Some?
    requires BoxAt(c, p).value.isObject == isObject && BoxAt(c, p).value.count == |members|
    requires forall k :: 0 <= k < |members| ==> RepresentsMember(r, c, BoxAt(c, p).value, k, members[k])
    ensures Represents(r, c, p, Container(isObject, members))
  {
    hide BoxAt, RepresentsMember;
  }

  lemma OneMore(members: seq<Member>, k: nat)
    requires k < |members|
    ensures SizeTo(members, k + 1) == SizeTo(members, k) + Size(members[k].value)
  {
  }

  /** The directory's entry k names member k and locates it. */
  lemma MemberIsFound(c: Context, b: Box, isObject: bool, members: seq<Member>, at: nat, k: nat)
    requires Wide(c) && k < |members| && at + HeadSize(isObject, |members|) + SizeTo(members, |members|) < TWO32
    requires if isObject then Named(c.names, members) else members[k].name == []
    requires var idsAt := c.treeSeg + at + 5;
             b == Box(isObject, |members|, idsAt, if isObject then idsAt + 4 * |members| else idsAt, 4, at)
    requires isObject ==> Holds(c.data, b.idsAt, IdsPart(c.names, isObject, members))
    requires Holds(c.data, b.offsetsAt, OffsetsPart(c.relative, isObject, members, at))
    ensures ChildName(c, b, k) == Some(members[k].name)
    ensures ChildPos(c, b, k) == Some(c.treeSeg + (at + HeadSize(isObject, |members|) + SizeTo(members, k)))
  {
    hide U, SizeTo, EncIds, EncOffsets, HeadSize, Named, Holds;
    var n := |members|;
    if isObject {
      IdReadsBack(c.data, b.idsAt, c.names, members, n, k);
    }
    var base := at + HeadSize(isObject, n) - From(c.relative, at);
    OffsetReadsBack(c.data, b.offsetsAt, members, base, n, k);
    SizeToGrows(members, k, n);
  }

  // ---- whole documents ----

  /** Wide fields everywhere: version 1, four-byte name counts, segment sizes and tree sizes. */
  function EncDocument(names: seq<seq<byte>>, relative: bool, doc: Json, hashes: seq<byte>): seq<byte>
    requires Encodable(names, doc)
  {
    EncPrelude(names, relative, doc) + (hashes + Offsets(names, 1, 4) + Segment(names, 1)) + EncNode(names, relative, doc, 0)
  }

  function EncPrelude(names: seq<seq<byte>>, relative: bool, doc: Json): (bs: seq<byte>)
    ensures |bs| == 20
  {
    MAGIC + [1] + BE(if relative then 0x1809 else 0x1808, 2)
    + BE(|names|, 4) + BE(|Segment(names, 1)|, 4) + BE(Size(doc) % TWO32, 4) + BE(0, 2)
  }

  lemma PreludeStands(names: seq<seq<byte>>, relative: bool, doc: Json, rest: seq<byte>)
    requires |names| < TWO32 && |Segment(names, 1)| < TWO32
    ensures var data := EncPrelude(names, relative, doc) + rest;
            GoodStart(data) && U(data, 4, 2) == Some(if relative then 0x1809 else 0x1808)
            && data[3] == 1 && U(data, 6, 4) == Some(|names|) && U(data, 10, 4) == Some(|Segment(names, 1)|)
  {
    hide BE, FromBE, Segment;
    var flags: nat := if relative then 0x1809 else 0x1808;
    var a, f, n, z := MAGIC + [1], BE(flags, 2), BE(|names|, 4), BE(|Segment(names, 1)|, 4);
    var tail := BE(Size(doc) % TWO32, 4) + BE(0, 2) + rest;
    var data := EncPrelude(names, relative, doc) + rest;
    assert data == a + f + (n + z + tail);
    assert data == (a + f) + n + (z + tail);
    assert data == (a + f + n) + z + tail;
    assert data[..3] == MAGIC && data[3] == 1;
    Four();
    FieldStands(a, flags, 2, n + z + tail);
    FieldStands(a + f, |names|, 4, z + tail);
    FieldStands(a + f + n, |Segment(names, 1)|, 4, tail);
  }

  lemma FieldStands(pre: seq<byte>, v: nat, w: nat, post: seq<byte>)
    requires v < Pow256(w)
    ensures U(pre + BE(v, w) + post, |pre|, w) == Some(v)
  {
    hide BE, FromBE, U;
    var data := pre + BE(v, w) + post;
    assert data[0..|data|] == data;
    HoldsPart(data, 0, pre, BE(v, w), post);
    HoldsField(data, |pre|, v, w);
  }

  /** Every printable document of bounded size has a layout, under either kind of offsets and any hash ids, and is read back from it. */
  lemma EncodedIsDocument(r: Render, names: seq<seq<byte>>, relative: bool, doc: Json, hashes: seq<byte>)
    requires Printable(r, doc) && Encodable(names, doc) && Size(doc) < TWO32 && |names| < TWO32
    requires |hashes| == |names| && FieldsFit(names, 1, 4)
    ensures OsonDecoder.IsDocument(r, EncDocument(names, relative, doc, hashes), doc)
  {
    hide BE, FromBE, Segment, Offsets, EncNode, Represents, EncPrelude, Size, NamesTo, Dictionary, U, Printable, Encodable;
    var offs, seg, tree := Offsets(names, 1, 4), Segment(names, 1), EncNode(names, relative, doc, 0);
    var data := EncDocument(names, relative, doc, hashes);
    var prelude := EncPrelude(names, relative, doc);
    Four();
    assert data == prelude + (hashes + offs + seg + tree);
    PreludeStands(names, relative, doc, hashes + offs + seg + tree);
    DictionaryStands(data, prelude, hashes, names, tree);
    var end := 20 + |hashes| + |offs| + |seg|;
    RootStands(data, names, relative, |seg|, end);
    assert data[end..end + |tree|] == tree;
    NodeStands(r, Context(data, end, relative, 4, names), doc, 0);
  }

  lemma RootStands(data: seq<byte>, names: seq<seq<byte>>, relative: bool, segSize: nat, end: nat)
    requires GoodStart(data) && data[3] == 1 && |data| >= 20
    requires U(data, 4, 2) == Some(if relative then 0x1809 else 0x1808)
    requires U(data, 6, 4) == Some(|names|) && U(data, 10, 4) == Some(segSize)
    requires DictionaryIfAny(data, 20, Declared(|names|, 4, segSize), 1) == Some(Names(names, end))
    ensures RootOf(data) == Some(Root(Context(data, end, relative, 4, names), end))
  {
    hide U, DictionaryIfAny, GoodStart;
    var flags := if relative then 0x1809 else 0x1808;
    assert WidthsOf(flags) == Widths(4, 4, 4) && !Bit(flags, 0x10) && Bit(flags, 0x01) == relative;
    var z := Sizes(Declared(|names|, 4, segSize), Declared(0, 0, 0), 20);
    assert SizesAt(data, 6, 1, Widths(4, 4, 4)) == Some(z);
    assert BothDictionaries(data, z) == Some(Names(names, end)) by {
      NoLongNames(data, end);
      assert names + [] == names;
    }
  }

  lemma NoLongNames(data: seq<byte>, p: nat)
    ensures DictionaryIfAny(data, p, Declared(0, 0, 0), 2) == Some(Names([], p))
  {
  }

  lemma DictionaryStands(data: seq<byte>, prelude: seq<byte>, hashes: seq<byte>, names: seq<seq<byte>>, tree: seq<byte>)
    requires |prelude| == 20 && |hashes| == |names| && FieldsFit(names, 1, 4)
    requires data == prelude + (hashes + Offsets(names, 1, 4) + Segment(names, 1) + tree)
    ensures DictionaryIfAny(data, 20, Declared(|names|, 4, |Segment(names, 1)|), 1)
            == Some(Names(names, 20 + |hashes| + |Offsets(names, 1, 4)| + |Segment(names, 1)|))
  {
    hide BE, FromBE, NamesTo;
    var offs, seg := Offsets(names, 1, 4), Segment(names, 1);
    assert Slot(20, |names|, 1) == 20 + |hashes| && Slot(20 + |hashes|, |names|, 4) == 20 + |hashes| + |offs|;
    assert data[20 + |hashes|..20 + |hashes| + |offs|] == offs;
    assert data[20 + |hashes| + |offs|..20 + |hashes| + |offs| + |seg|] == seg;
    if names != [] {
      DictionaryReadsBack(data, 20, names, 1, 4);
    }
  }
}
