// The OSON decoder: turns the bytes of a document into its JSON text.
module OsonDecoder {
  import opened Bytes
  import opened Regions
  import opened Oson
  import opened OsonHeader
  import OsonPaths
  import NumberWire
  import NumberCodec
  import JsonText

  /** start + [open] + done, then one more member's separator, name and text. */
  lemma AppendMember(start: seq<byte>, open: seq<byte>, done: seq<byte>, sep: seq<byte>, name: seq<byte>, text: seq<byte>)
    ensures start + (open + done) + sep + name + text == start + (open + (done + (sep + name + text)))
  {
  }

  lemma SlotFits(base: nat, i: nat, num: nat, w: nat)
    requires i < num
    ensures Slot(base, i, w) + w <= Slot(base, num, w)
  {
    assert num * w == i * w + w + (num - i - 1) * w;
  }

  /** How a step of the decoder ends: normally, with an error, or by indexing out of range. */
  datatype Status = Done | Failed | Panicked

  function StatusOf<T>(o: Out<T>): Status
    requires o != Deep
  {
    match o
    case Bad => Failed
    case Panic => Panicked
    case Doc(_) => Done
  }

  class Decoder {
    const render: Render
    const data: seq<byte>
    var pos: nat
    var fieldNames: seq<seq<byte>>
    var fieldIDLength: nat
    var treeSegPos: nat
    var relativeOffsets: bool
    var out: seq<byte>

    ghost predicate Uses(c: Context)
      reads `fieldNames, `fieldIDLength, `treeSegPos, `relativeOffsets
    {
      c == Context(data, treeSegPos, relativeOffsets, fieldIDLength, fieldNames)
    }

    constructor (render: Render, data: seq<byte>)
      ensures this.render == render && this.data == data && pos == 0 && out == []
      ensures fieldNames == [] && fieldIDLength == 0 && treeSegPos == 0 && !relativeOffsets
    {
      this.render, this.data := render, data;
      pos, fieldNames, fieldIDLength, treeSegPos, relativeOffsets, out := 0, [], 0, 0, false, [];
    }

    /** u8, u16 and u32. */
    method Unsigned(w: nat) returns (r: Option<nat>)
      modifies `pos
      ensures r == U(data, old(pos), w)
      ensures pos == if r.Some? then old(pos) + w else old(pos)
    {
      if pos + w > |data| {
        return None;
      }
      r := Some(FromBE(data[pos..pos + w]));
      pos := pos + w;
    }

    method Raw(n: nat) returns (r: Option<seq<byte>>)
      modifies `pos
      ensures r == Slice(data, old(pos), n)
      ensures pos == if r.Some? then old(pos) + n else old(pos)
    {
      if pos + n > |data| {
        return None;
      }
      r := Some(data[pos..pos + n]);
      pos := pos + n;
    }

    /** A length field and that many bytes. */
    method CountedRaw(w: nat) returns (r: Option<seq<byte>>)
      modifies `pos
      ensures r == Counted(data, old(pos), w)
    {
      hide FromBE;
      var n := Unsigned(w);
      if n.None? {
        return None;
      }
      r := Raw(n.value);
    }

    method AppendNumber(wire: seq<byte>) returns (st: Status)
      modifies `out
      ensures st == StatusOf(NumberBytes(wire))
      ensures st.Done? ==> out == old(out) + NumberBytes(wire).doc
    {
      var d := NumberCodec.DecodeNumber(wire);
      if d.Err? {
        return if d.error.IndexOutOfRange? then Panicked else Failed;
      }
      if d.value.isMaxNegative {
        out := out + MAX_NEGATIVE_TEXT;
      } else {
        out := out + AsBytes(d.value.text);
      }
      st := Done;
    }

    method AppendHex(bs: seq<byte>)
      modifies `out
      ensures out == old(out) + Text(render, Hex(bs))
    {
      var digits := [];
      var i := 0;
      while i < |bs|
        invariant 0 <= i <= |bs| && digits == HexDigits(bs[..i]) && out == old(out)
      {
        assert bs[..i + 1][..i] == bs[..i];
        digits := digits + [JsonText.HexDigit(bs[i] / 16), JsonText.HexDigit(bs[i] % 16)];
        i := i + 1;
      }
      assert bs[..i] == bs;
      out := out + ([JsonText.QUOTE] + digits + [JsonText.QUOTE]);
    }

    /** The scalar branches of decodeNode; the type byte t has just been read. */
    method DecodeScalar(t: byte) returns (st: Status)
      requires 0 < pos <= |data| && data[pos - 1] == t < 0x80
      modifies `pos, `out
      ensures st == StatusOf(Scalar(render, data, old(pos) - 1))
      ensures st.Done? ==> out == old(out) + Text(render, Scalar(render, data, old(pos) - 1).doc)
    {
      st := Done;
      if t == 0x30 {
        out := out + NULL_TEXT;
      } else if t == 0x31 {
        out := out + TRUE_TEXT;
      } else if t == 0x32 {
        out := out + FALSE_TEXT;
      } else if LeafSize(t) > 0 {
        var raw := Raw(LeafSize(t));
        if raw.None? || render(t, raw.value).None? {
          return Failed;
        }
        out := out + render(t, raw.value).value;
      } else if t == 0x33 || t == 0x37 || t == 0x38 {
        var bs := CountedRaw(if t == 0x33 then 1 else if t == 0x37 then 2 else 4);
        if bs.None? {
          return Failed;
        }
        out := JsonText.AppendStringBytes(out, bs.value);
      } else if t == 0x34 {
        var w := CountedRaw(1);
        if w.None? {
          return Failed;
        }
        st := AppendNumber(w.value);
      } else if t == 0x7e || t == 0x3a || t == 0x3b {
        var bs := CountedRaw(if t == 0x7e then 1 else if t == 0x3a then 2 else 4);
        if bs.None? {
          return Failed;
        }
        AppendHex(bs.value);
      } else {
        st := DecodeInline(t);
      }
    }

    /** Numbers and strings whose length is in the type byte. */
    method DecodeInline(t: byte) returns (st: Status)
      requires 0 < pos <= |data| && data[pos - 1] == t < 0x80
      requires !(0x30 <= t <= 0x3f && t != 0x35 && t != 0x3f) && LeafSize(t) == 0 && t != 0x7e
      modifies `pos, `out
      ensures st == StatusOf(Scalar(render, data, old(pos) - 1))
      ensures st.Done? ==> out == old(out) + Text(render, Scalar(render, data, old(pos) - 1).doc)
    {
      if t / 16 == 2 || t / 16 == 6 || t / 16 == 4 || t / 16 == 5 {
        var w := Raw(if t / 16 == 2 || t / 16 == 6 then t % 16 + 1 else t % 16);
        if w.None? {
          return Failed;
        }
        st := AppendNumber(w.value);
      } else if t < 0x20 {
        var bs := Raw(t);
        if bs.None? {
          return Failed;
        }
        out := JsonText.AppendStringBytes(out, bs.value);
        st := Done;
      } else {
        st := Failed;
      }
    }

    /** The child count behind a container's type byte; `shared` on the bit pattern that has none. */
    method NumChildren(t: byte) returns (ok: bool, n: nat, shared: bool)
      modifies `pos
      ensures shared == (CountWidth(t) == 0)
      ensures shared ==> ok && n == 0 && pos == old(pos)
      ensures !shared ==> ok == U(data, old(pos), CountWidth(t)).Some?
      ensures !shared && ok ==> Some(n) == U(data, old(pos), CountWidth(t)) && pos == old(pos) + CountWidth(t)
    {
      hide FromBE;
      shared := CountWidth(t) == 0;
      if shared {
        return true, 0, shared;
      }
      var r := Unsigned(CountWidth(t));
      ok := r.Some?;
      n := if ok then r.value else 0;
    }

    /** The count and field ids another container's directory provides. */
    method ReadShared(q: nat) returns (r: Option<(nat, nat)>)
      modifies `pos
      ensures r == SharedCount(data, q)
    {
      hide FromBE;
      pos := q;
      if pos >= |data| {
        return None;
      }
      var t := data[pos];
      pos := pos + 1;
      var ok, n, _ := NumChildren(t);
      if !ok {
        return None;
      }
      r := Some((n, pos));
    }

    /** The directory part of decodeContainer. */
    method ReadBox(t: byte, ghost c: Context) returns (r: Option<Box>)
      requires 0 < pos <= |data| && data[pos - 1] == t && Uses(c)
      modifies `pos
      ensures r == BoxAt(c, old(pos) - 1)
    {
      hide FromBE, U, SharedCount;
      var containerOffset := pos - treeSegPos - 1;
      var ok, n, shared := NumChildren(t);
      if !ok {
        return None;
      }
      if !shared {
        var offsetsPos := if IsObject(t) then pos + fieldIDLength * n else pos;
        return Some(Box(IsObject(t), n, pos, offsetsPos, OffsetWidth(t), containerOffset));
      }
      var off := Unsigned(OffsetWidth(t));
      if off.None? {
        return None;
      }
      var offsetsPos := pos;
      var ids := ReadShared(treeSegPos + off.value);
      if ids.None? {
        return None;
      }
      return Some(Box(IsObject(t), ids.value.0, ids.value.1, offsetsPos, OffsetWidth(t), containerOffset));
    }

    /** The name of child i of an object. */
    method ReadName(b: Box, i: nat, ghost c: Context) returns (r: Option<seq<byte>>)
      requires b.isObject && Uses(c)
      modifies `pos
      ensures r == ChildName(c, b, i)
    {
      hide FromBE;
      pos := b.idsAt + i * fieldIDLength;
      var id := Unsigned(fieldIDLength);
      if id.None? || id.value == 0 || id.value > |fieldNames| {
        return None;
      }
      r := Some(fieldNames[id.value - 1]);
    }

    /** The position of child i; relative offsets wrap at 32 bits. */
    method ReadChildPos(b: Box, i: nat, ghost c: Context) returns (r: Option<nat>)
      requires Uses(c)
      modifies `pos
      ensures r == ChildPos(c, b, i)
    {
      hide FromBE;
      pos := b.offsetsAt + i * b.width;
      var off := Unsigned(b.width);
      if off.None? {
        return None;
      }
      r := Some(treeSegPos + (if relativeOffsets then (off.value + b.base) % 0x1_0000_0000 else off.value));
    }

    /** One member: separator, name, then the node its offset points to. */
    method DecodeMember(b: Box, i: nat, ghost c: Context, ghost n: nat) returns (st: Status)
      requires Uses(c) && ReadMember(render, c, b, i, n) != Deep
      modifies `pos, `out
      ensures st == StatusOf(ReadMember(render, c, b, i, n))
      ensures st.Done? ==> var m := ReadMember(render, c, b, i, n).doc;
                     out == old(out) + Separator(i) + NamePart(b.isObject, m.name) + Text(render, m.value)
      decreases n, 1
    {
      hide Text, JsonText.Literal, ChildPos, BoxAt, Scalar;
      out := out + Separator(i);
      if b.isObject {
        var key := ReadName(b, i, c);
        if key.None? {
          return Failed;
        }
        ghost var before := out;
        out := JsonText.AppendStringBytes(out, key.value);
        out := out + [COLON];
        Associate(before, JsonText.Literal(key.value), [COLON]);
      }
      var child := ReadChildPos(b, i, c);
      if child.None? {
        return Failed;
      }
      pos := child.value;
      st := DecodeNode(c, n);
    }

    /** decodeContainer behind its directory: the children in stored order. */
    method DecodeMembers(b: Box, ghost c: Context, ghost n: nat) returns (st: Status)
      requires Uses(c) && ReadMembers(render, c, b, [], n) != Deep
      modifies `pos, `out
      ensures st == StatusOf(ReadMembers(render, c, b, [], n))
      ensures st.Done? ==> out == old(out) + Text(render, Container(b.isObject, ReadMembers(render, c, b, [], n).doc))
      decreases n, 2
    {
      hide Text;
      ghost var total := ReadMembers(render, c, b, [], n);
      ghost var done: seq<Member> := [];
      ghost var start, open := out, [Open(b.isObject)];
      out := out + [Open(b.isObject)];
      assert out == start + (open + MembersText(render, b.isObject, done));
      var i := 0;
      while i < b.count
        invariant 0 <= i == |done| <= b.count && Uses(c)
        invariant ReadMembers(render, c, b, done, n) == total
        invariant out == start + (open + MembersText(render, b.isObject, done))
      {
        st := DecodeMember(b, i, c, n);
        if !st.Done? {
          return;
        }
        ghost var m := ReadMember(render, c, b, i, n).doc;
        AppendMember(start, open, MembersText(render, b.isObject, done), Separator(i), NamePart(b.isObject, m.name), Text(render, m.value));
        done := done + [m];
        i := i + 1;
      }
      out := out + [Close(b.isObject)];
      st := Done;
      Associate(start, open + MembersText(render, b.isObject, done), [Close(b.isObject)]);
      ContainerText(b.isObject, done);
    }

    lemma ContainerText(isObject: bool, members: seq<Member>)
      ensures Text(render, Container(isObject, members))
              == [Open(isObject)] + MembersText(render, isObject, members) + [Close(isObject)]
    {
    }

    /** One node and everything below it. n bounds the nesting the bytes actually have. */
    method DecodeNode(ghost c: Context, ghost n: nat) returns (st: Status)
      requires Uses(c) && Read(render, c, pos, n) != Deep
      modifies `pos, `out
      ensures st == StatusOf(Read(render, c, old(pos), n))
      ensures st.Done? ==> out == old(out) + Text(render, Read(render, c, old(pos), n).doc)
      decreases n, 0
    {
      hide Text;
      if pos >= |data| {
        return Failed;
      }
      var nodeType := data[pos];
      pos := pos + 1;
      if nodeType < 0x80 {
        st := DecodeScalar(nodeType);
        return;
      }
      var b := ReadBox(nodeType, c);
      if b.None? {
        return Failed;
      }
      st := DecodeMembers(b.value, c, n - 1);
    }

    // ---- the header ----

    /** readFieldNames: one dictionary's names are appended to those already read. */
    method ReadFieldNames(d: Declared, lengthWidth: nat) returns (ok: bool)
      requires lengthWidth == 1 || lengthWidth == 2
      modifies `pos, `fieldNames
      ensures ok == Dictionary(data, old(pos), d.num, lengthWidth, d.offsetWidth, d.segSize).Some?
      ensures ok ==> var r := Dictionary(data, old(pos), d.num, lengthWidth, d.offsetWidth, d.segSize).value;
                     fieldNames == old(fieldNames) + r.names && pos == r.end
    {
      hide FromBE, U, NameAt, Slot;
      var offsetsPos := Slot(pos, d.num, lengthWidth);
      var segPos := Slot(offsetsPos, d.num, d.offsetWidth);
      if segPos + d.segSize > |data| {
        return false;
      }
      var seg := data[segPos..segPos + d.segSize];
      ghost var names: seq<seq<byte>> := [];
      var i := 0;
      while i < d.num
        invariant 0 <= i <= d.num && pos == old(pos)
        invariant NamesTo(data, offsetsPos, d.offsetWidth, seg, lengthWidth, i) == Some(names)
        invariant fieldNames == old(fieldNames) + names
      {
        SlotFits(offsetsPos, i, d.num, d.offsetWidth);
        var name := FieldName(Slot(offsetsPos, i, d.offsetWidth), d.offsetWidth, seg, lengthWidth);
        i := i + 1;
        if name.None? {
          NamesToStaysNone(data, offsetsPos, d.offsetWidth, seg, lengthWidth, i, d.num);
          return false;
        }
        fieldNames := fieldNames + [name.value];
        names := names + [name.value];
      }
      pos := segPos + d.segSize;
      ok := true;
    }

    method FieldName(offsetAt: nat, offsetWidth: nat, seg: seq<byte>, lengthWidth: nat) returns (r: Option<seq<byte>>)
      requires offsetAt + offsetWidth <= |data|
      ensures r == NameAt(data, offsetAt, offsetWidth, seg, lengthWidth)
    {
      var off := FromBE(data[offsetAt..offsetAt + offsetWidth]);
      if off + lengthWidth > |seg| {
        return None;
      }
      var n := FromBE(seg[off..off + lengthWidth]);
      if off + lengthWidth + n > |seg| {
        return None;
      }
      r := Some(seg[off + lengthWidth..off + lengthWidth + n]);
    }

    method ReadLongSizes() returns (r: Option<Declared>)
      modifies `pos
      ensures r == LongSizes(data, old(pos)) && (r.Some? ==> pos == old(pos) + 10)
    {
      hide FromBE;
      var flags2 := Unsigned(2);
      if flags2.None? {
        return None;
      }
      var num := Unsigned(4);
      if num.None? {
        return None;
      }
      var segSize := Unsigned(4);
      if segSize.None? {
        return None;
      }
      r := Some(Declared(num.value, if Bit(flags2.value, 0x100) then 2 else 4, segSize.value));
    }

    method ReadSizes(version: byte, w: Widths) returns (r: Option<Sizes>)
      modifies `pos, `fieldIDLength
      ensures r == SizesAt(data, old(pos), version, w) && (r.Some? ==> pos == r.value.end && fieldIDLength == w.id)
    {
      hide FromBE;
      var numShort := Unsigned(w.id);
      fieldIDLength := w.id;
      if numShort.None? {
        return None;
      }
      var shortSeg := Unsigned(w.shortOffsets);
      if shortSeg.None? {
        return None;
      }
      var long := Some(Declared(0, 0, 0));
      if version == 3 {
        long := ReadLongSizes();
        if long.None? {
          return None;
        }
      }
      var treeSize := Unsigned(w.tree);
      if treeSize.None? {
        return None;
      }
      var tinyNodes := Unsigned(2);
      if tinyNodes.None? {
        return None;
      }
      r := Some(Sizes(Declared(numShort.value, w.shortOffsets, shortSeg.value), long.value, pos));
    }

    /** Both dictionaries, short names first. */
    method ReadNames(z: Sizes) returns (ok: bool)
      requires pos == z.end
      modifies `pos, `fieldNames
      ensures ok == BothDictionaries(data, z).Some?
      ensures ok ==> fieldNames == BothDictionaries(data, z).value.names && pos == BothDictionaries(data, z).value.end
    {
      hide FromBE, Dictionary, NamesTo, Slot, U;
      fieldNames := [];
      if z.short.num > 0 {
        ok := ReadFieldNames(z.short, 1);
        if !ok {
          return false;
        }
      }
      if z.long.num > 0 {
        ok := ReadFieldNames(z.long, 2);
        if !ok {
          return false;
        }
      }
      ok := true;
    }

    /** The header: everything decode does before the root node. */
    method ReadHeader() returns (ok: bool)
      requires pos == 0 && treeSegPos == 0 && fieldNames == [] && fieldIDLength == 0
      modifies `pos, `fieldNames, `fieldIDLength, `treeSegPos, `relativeOffsets
      ensures ok == RootOf(data).Some?
      ensures ok ==> Uses(RootOf(data).value.c) && pos == RootOf(data).value.p
    {
      hide FromBE, SizesAt, BothDictionaries, WidthsOf;
      var hdr := Raw(3);
      if hdr.None? || hdr.value != MAGIC || pos >= |data| {
        return false;
      }
      var version := data[pos];
      pos := pos + 1;
      if version != 1 && version != 3 {
        return false;
      }
      var flags := Unsigned(2);
      if flags.None? {
        return false;
      }
      relativeOffsets := Bit(flags.value, 0x01);
      var w := WidthsOf(flags.value);
      if Bit(flags.value, 0x10) {
        pos := pos + w.tree;
        return true;
      }
      var z := ReadSizes(version, w);
      if z.None? {
        return false;
      }
      ok := ReadNames(z.value);
      treeSegPos := pos;
    }
  }

  // ---- whole documents ----

  /** The document a byte string represents. Nesting is never deeper than there are bytes, unless it loops. */
  function DocumentIn(r: Render, data: seq<byte>): Out<Json> {
    match RootOf(data)
    case None => Bad
    case Some(root) => Read(r, root.c, root.p, |data|)
  }

  function TextIn(r: Render, data: seq<byte>): Out<seq<byte>> {
    var doc :- DocumentIn(r, data);
    Doc(Text(r, doc))
  }

  ghost predicate IsDocument(r: Render, data: seq<byte>, doc: Json) {
    RootOf(data).Some? && Represents(r, RootOf(data).value.c, RootOf(data).value.p, doc)
  }

  /** Some container is inside itself, with nothing before it that stops the decoder. */
  ghost predicate IsLooping(r: Render, data: seq<byte>) {
    RootOf(data).Some? && OsonPaths.Loops(r, RootOf(data).value.c, RootOf(data).value.p)
  }

  /** The decoder gets to a NUMBER whose digits overrun its slots. */
  ghost predicate IsOverrunning(r: Render, data: seq<byte>) {
    RootOf(data).Some? && OsonPaths.ReachesOverrun(r, RootOf(data).value.c, RootOf(data).value.p)
  }

  /** The whole decoder, on every byte string on which it ends at all. */
  method DecodeOson(render: Render, data: seq<byte>) returns (text: Out<seq<byte>>)
    requires !IsLooping(render, data)
    ensures text == TextIn(render, data) && text != Deep
  {
    hide Text, FromBE, Read;
    var d := new Decoder(render, data);
    var ok := d.ReadHeader();
    if !ok {
      return Bad;
    }
    OutcomeOf(render, data);
    var st := d.DecodeNode(RootOf(data).value.c, |data|);
    match st
    case Failed => text := Bad;
    case Panicked => text := Panic;
    case Done =>
      text := Doc(d.out);
      assert [] + Text(render, DocumentIn(render, data).doc) == Text(render, DocumentIn(render, data).doc);
  }

  /** What the bytes decode to is told by what they are: a document, a loop, a document with a bad NUMBER in the way, or neither. */
  lemma OutcomeOf(r: Render, data: seq<byte>)
    ensures TextIn(r, data) == Deep <==> IsLooping(r, data)
    ensures TextIn(r, data) == Panic <==> !IsLooping(r, data) && IsOverrunning(r, data)
    ensures forall doc :: IsDocument(r, data, doc) ==> Printable(r, doc) && TextIn(r, data) == Doc(Text(r, doc))
    ensures TextIn(r, data).Doc? <==> exists doc :: IsDocument(r, data, doc)
  {
    hide Text, Read, OsonPaths.Loops, OsonPaths.ReachesOverrun, Printable, Represents;
    if RootOf(data).Some? {
      var root := RootOf(data).value;
      OsonPaths.DeepIffLoops(r, root.c, root.p);
      if !IsLooping(r, data) {
        OsonPaths.PanicIffReachesOverrun(r, root.c, root.p);
      }
      forall doc
        ensures DocumentIn(r, data) == Doc(doc) <==> IsDocument(r, data, doc)
        ensures IsDocument(r, data, doc) ==> Printable(r, doc)
      {
        DecodesIffDocument(r, data, doc);
      }
    }
  }

  /** Bytes that represent a document decode to it; bytes that decode represent what was decoded, and print. */
  lemma DecodesIffDocument(r: Render, data: seq<byte>, doc: Json)
    ensures DocumentIn(r, data) == Doc(doc) <==> IsDocument(r, data, doc)
    ensures IsDocument(r, data, doc) ==> Printable(r, doc)
  {
    hide Read, Represents;
    if RootOf(data).Some? {
      var root := RootOf(data).value;
      OsonPaths.DocIffRepresented(r, root.c, root.p, doc);
      if IsDocument(r, data, doc) {
        RepresentedIsPrintable(r, root.c, root.p, doc);
      }
    }
  }

  // ---- documents that do not end, or end badly ----

  lemma SmallFields(data: seq<byte>, p: nat)
    requires p + 2 <= |data|
    ensures U(data, p, 1) == Some(data[p]) && U(data, p, 2) == Some(256 * (data[p] as int) + data[p + 1])
  {
    var one, two := data[p..p + 1], data[p..p + 2];
    assert one[..0] == [] && two[..1] == [data[p]] && [data[p]][..0] == [];
    assert FromBE([data[p]]) == data[p];
  }

  /** An array of one element: itself. */
  const SELF_LOOP: seq<byte> := [0xff, 0x4a, 0x5a, 1, 0, 0, 0, 0, 0, 0, 0, 0, 0, 0xc0, 1, 0, 0]

  lemma SelfLoopRoot()
    ensures RootOf(SELF_LOOP) == Some(Root(Context(SELF_LOOP, 13, false, 1, []), 13))
  {
    hide FromBE, U;
    var data := SELF_LOOP;
    SmallFields(data, 4);
    SmallFields(data, 6);
    SmallFields(data, 7);
    assert WidthsOf(0) == Widths(1, 2, 2);
    assert SizesAt(data, 6, 1, Widths(1, 2, 2)) == Some(Sizes(Declared(0, 2, 0), Declared(0, 0, 0), 13));
    var none: seq<seq<byte>> := [];
    assert none + none == none;
  }

  lemma SelfLoopNeverEnds(r: Render)
    ensures IsLooping(r, SELF_LOOP)
  {
    hide FromBE, U, RootOf;
    var data, c := SELF_LOOP, Context(SELF_LOOP, 13, false, 1, []);
    SelfLoopRoot();
    SmallFields(data, 14);
    SmallFields(data, 15);
    assert OsonPaths.VisitsAfter(r, c, BoxAt(c, 13).value, [], 13);
    assert OsonPaths.Visits(r, c, 13, 13);
    var ps: seq<nat> := [13, 13];
    assert ps[1..] == [13];
    assert OsonPaths.ChainFrom(r, c, 13, ps) && ps[0] == ps[1];
  }

  /** A document that is one NUMBER of fifteen bytes that carry. */
  const OVERRUN: seq<byte> := [0xff, 0x4a, 0x5a, 1, 0, 0x10, 0, 17, 0x2f, 193] + seq(15, _ => 101)

  lemma OverrunPanics(r: Render)
    ensures TextIn(r, OVERRUN) == Panic
  {
    hide FromBE, U, NumberWire.Decode;
    SmallFields(OVERRUN, 4);
    assert Bit(16, 0x10) && WidthsOf(16) == Widths(1, 2, 2);
    assert RootOf(OVERRUN) == Some(Root(Context(OVERRUN, 0, false, 0, []), 8));
    var wire: seq<byte> := [193] + seq(15, _ => 101);
    assert OVERRUN[9..25] == wire;
    NumberWire.FifteenCarriesOverrun();
    assert RawScalar(OVERRUN, 8) == Some(Number(wire));
    assert Scalar(r, OVERRUN, 8) == Panic;
  }
}
