// The OSON header: flags, sizes and the field-name dictionaries.
module OsonHeader {
  import opened Bytes
  import opened Regions
  import opened Oson

  // ---- name dictionaries ----

  /** Entry i of a name dictionary: an offset into the segment, where a length and the name are. */
  function NameAt(data: seq<byte>, offsetAt: nat, offsetWidth: nat, seg: seq<byte>, lengthWidth: nat): Option<seq<byte>> {
    match U(data, offsetAt, offsetWidth)
    case None => None
    case Some(off) => Counted(seg, off, lengthWidth)
  }

  /** Where field i of a table of w-byte fields starts. */
  function Slot(base: nat, i: nat, w: nat): nat {
    base + i * w
  }

  /** The first i names, None where the decoder reports an error. */
  function NamesTo(data: seq<byte>, offsetsAt: nat, offsetWidth: nat, seg: seq<byte>, lengthWidth: nat, i: nat): (r: Option<seq<seq<byte>>>)
    ensures r.Some? ==> |r.value| == i
  {
    if i == 0 then Some([])
    else match NamesTo(data, offsetsAt, offsetWidth, seg, lengthWidth, i - 1)
      case None => None
      case Some(names) =>
        match NameAt(data, Slot(offsetsAt, i - 1, offsetWidth), offsetWidth, seg, lengthWidth)
        case None => None
        case Some(name) => Some(names + [name])
  }

  lemma {:induction false} NamesToStaysNone(data: seq<byte>, offsetsAt: nat, offsetWidth: nat, seg: seq<byte>, lengthWidth: nat, i: nat, j: nat)
    requires i <= j && NamesTo(data, offsetsAt, offsetWidth, seg, lengthWidth, i).None?
    ensures NamesTo(data, offsetsAt, offsetWidth, seg, lengthWidth, j).None?
    decreases j
  {
    if i < j {
      NamesToStaysNone(data, offsetsAt, offsetWidth, seg, lengthWidth, i, j - 1);
    }
  }

  /** What a dictionary at p yields: its names and the position behind it. */
  datatype Names = Names(names: seq<seq<byte>>, end: nat)

  /** Hash ids (as wide as a name's length field), offsets, then the name segment. */
  function Dictionary(data: seq<byte>, p: nat, num: nat, lengthWidth: nat, offsetWidth: nat, segSize: nat): Option<Names> {
    var offsetsAt := Slot(p, num, lengthWidth);
    var segAt := Slot(offsetsAt, num, offsetWidth);
    if segAt + segSize > |data| then None
    else match NamesTo(data, offsetsAt, offsetWidth, data[segAt..segAt + segSize], lengthWidth, num)
      case None => None
      case Some(names) => Some(Names(names, segAt + segSize))
  }

  // ---- laying a dictionary out, and reading it back ----

  function Segment(names: seq<seq<byte>>, lengthWidth: nat): seq<byte> {
    if names == [] then []
    else
      var n := |names| - 1;
      Segment(names[..n], lengthWidth) + (BE(|names[n]|, lengthWidth) + names[n])
  }

  function Offsets(names: seq<seq<byte>>, lengthWidth: nat, offsetWidth: nat): (bs: seq<byte>)
    ensures |bs| == Slot(0, |names|, offsetWidth)
  {
    if names == [] then []
    else
      var n := |names| - 1;
      assert Slot(0, |names|, offsetWidth) == Slot(0, n, offsetWidth) + offsetWidth;
      Offsets(names[..n], lengthWidth, offsetWidth) + BE(|Segment(names[..n], lengthWidth)|, offsetWidth)
  }

  /** Lengths and offsets fit the fields that hold them. */
  predicate FieldsFit(names: seq<seq<byte>>, lengthWidth: nat, offsetWidth: nat) {
    |Segment(names, lengthWidth)| < Pow256(offsetWidth)
    && forall k :: 0 <= k < |names| ==> |names[k]| < Pow256(lengthWidth)
  }

  /** A longer dictionary only adds at the end. */
  lemma {:induction false} SegmentPrefix(names: seq<seq<byte>>, lengthWidth: nat, i: nat) returns (rest: seq<byte>)
    requires i <= |names|
    ensures Segment(names, lengthWidth) == Segment(names[..i], lengthWidth) + rest
    decreases |names|
  {
    if i == |names| {
      assert names[..i] == names;
      rest := [];
    } else {
      var n := |names| - 1;
      var more := SegmentPrefix(names[..n], lengthWidth, i);
      assert names[..n][..i] == names[..i];
      rest := more + (BE(|names[n]|, lengthWidth) + names[n]);
    }
  }

  lemma {:induction false} OffsetsPrefix(names: seq<seq<byte>>, lengthWidth: nat, offsetWidth: nat, i: nat) returns (rest: seq<byte>)
    requires i <= |names|
    ensures Offsets(names, lengthWidth, offsetWidth) == Offsets(names[..i], lengthWidth, offsetWidth) + rest
    decreases |names|
  {
    if i == |names| {
      assert names[..i] == names;
      rest := [];
    } else {
      var n := |names| - 1;
      var more := OffsetsPrefix(names[..n], lengthWidth, offsetWidth, i);
      assert names[..n][..i] == names[..i];
      rest := more + BE(|Segment(names[..n], lengthWidth)|, offsetWidth);
    }
  }

  /** Offset i points to entry i of the segment. */
  lemma OffsetReadsBack(data: seq<byte>, at: nat, names: seq<seq<byte>>, lengthWidth: nat, offsetWidth: nat, i: nat)
    requires i < |names| && FieldsFit(names, lengthWidth, offsetWidth)
    requires Holds(data, at, Offsets(names, lengthWidth, offsetWidth))
    ensures U(data, Slot(at, i, offsetWidth), offsetWidth) == Some(|Segment(names[..i], lengthWidth)|)
  {
    hide BE, FromBE, Pow256, U, Holds;
    assert names[..i + 1][..i] == names[..i];
    var off := |Segment(names[..i], lengthWidth)|;
    var more := OffsetsPrefix(names, lengthWidth, offsetWidth, i + 1);
    HoldsPart(data, at, Offsets(names[..i], lengthWidth, offsetWidth), BE(off, offsetWidth), more);
    var _ := SegmentPrefix(names, lengthWidth, i);
    HoldsField(data, Slot(at, i, offsetWidth), off, offsetWidth);
  }

  lemma EntryReadsBack(names: seq<seq<byte>>, lengthWidth: nat, i: nat)
    requires i < |names| && |names[i]| < Pow256(lengthWidth)
    ensures Counted(Segment(names, lengthWidth), |Segment(names[..i], lengthWidth)|, lengthWidth) == Some(names[i])
  {
    assert names[..i + 1][..i] == names[..i];
    var seg := Segment(names, lengthWidth);
    var more := SegmentPrefix(names, lengthWidth, i + 1);
    assert seg[0..|seg|] == seg;
    HoldsPart(seg, 0, Segment(names[..i], lengthWidth), BE(|names[i]|, lengthWidth) + names[i], more);
    HoldsCounted(seg, |Segment(names[..i], lengthWidth)|, names[i], lengthWidth);
  }

  lemma {:induction false} NamesReadBack(data: seq<byte>, at: nat, names: seq<seq<byte>>, lengthWidth: nat, offsetWidth: nat, i: nat)
    requires i <= |names| && FieldsFit(names, lengthWidth, offsetWidth)
    requires Holds(data, at, Offsets(names, lengthWidth, offsetWidth))
    ensures NamesTo(data, at, offsetWidth, Segment(names, lengthWidth), lengthWidth, i) == Some(names[..i])
  {
    hide BE, FromBE, Pow256, Segment, Offsets;
    if i > 0 {
      NamesReadBack(data, at, names, lengthWidth, offsetWidth, i - 1);
      OffsetReadsBack(data, at, names, lengthWidth, offsetWidth, i - 1);
      EntryReadsBack(names, lengthWidth, i - 1);
      assert names[..i - 1] + [names[i - 1]] == names[..i];
    }
  }

  /** Reading a dictionary undoes laying it out, wherever it stands and whatever its hash ids. */
  lemma DictionaryReadsBack(data: seq<byte>, p: nat, names: seq<seq<byte>>, lengthWidth: nat, offsetWidth: nat)
    requires FieldsFit(names, lengthWidth, offsetWidth)
    requires var offsetsAt := Slot(p, |names|, lengthWidth);
             Holds(data, offsetsAt, Offsets(names, lengthWidth, offsetWidth))
             && Holds(data, Slot(offsetsAt, |names|, offsetWidth), Segment(names, lengthWidth))
    ensures var seg := Segment(names, lengthWidth);
            Dictionary(data, p, |names|, lengthWidth, offsetWidth, |seg|)
            == Some(Names(names, Slot(Slot(p, |names|, lengthWidth), |names|, offsetWidth) + |seg|))
  {
    hide BE, FromBE, Pow256, Segment, Offsets;
    NamesReadBack(data, Slot(p, |names|, lengthWidth), names, lengthWidth, offsetWidth, |names|);
    assert names[..|names|] == names;
  }

  // ---- the header ----

  const MAGIC: seq<byte> := [0xff, 0x4a, 0x5a]

  predicate Bit(flags: nat, mask: nat)
    requires mask > 0
  {
    flags / mask % 2 == 1
  }

  /** Field widths that the primary flags choose. */
  datatype Widths = Widths(id: nat, shortOffsets: nat, tree: nat)

  function WidthsOf(flags: nat): Widths {
    Widths(if Bit(flags, 0x08) then 4 else if Bit(flags, 0x400) then 2 else 1,
           if Bit(flags, 0x800) then 4 else 2,
           if Bit(flags, 0x1000) then 4 else 2)
  }

  /** One dictionary's declared size: how many names, how wide its offsets, how long its segment. */
  datatype Declared = Declared(num: nat, offsetWidth: nat, segSize: nat)

  datatype Sizes = Sizes(short: Declared, long: Declared, end: nat)

  /** The secondary flags and the long-name sizes, which only version 3 has. */
  function LongSizes(data: seq<byte>, p: nat): Option<Declared> {
    match U(data, p, 2)
    case None => None
    case Some(flags2) =>
      match U(data, p + 2, 4)
      case None => None
      case Some(num) =>
        match U(data, p + 6, 4)
        case None => None
        case Some(segSize) => Some(Declared(num, if Bit(flags2, 0x100) then 2 else 4, segSize))
  }

  function ShortSizes(data: seq<byte>, p: nat, w: Widths): Option<Declared> {
    match U(data, p, w.id)
    case None => None
    case Some(num) =>
      match U(data, p + w.id, w.shortOffsets)
      case None => None
      case Some(segSize) => Some(Declared(num, w.shortOffsets, segSize))
  }

  /** The size fields of a header that is not scalar, from p on, with the tree size and tiny-node count behind them. */
  function SizesAt(data: seq<byte>, p: nat, version: byte, w: Widths): Option<Sizes> {
    var p1 := p + w.id + w.shortOffsets;
    var p2 := if version == 3 then p1 + 10 else p1;
    match ShortSizes(data, p, w)
    case None => None
    case Some(short) =>
      match (if version == 3 then LongSizes(data, p1) else Some(Declared(0, 0, 0)))
      case None => None
      case Some(long) =>
        if p2 + w.tree + 2 > |data| then None else Some(Sizes(short, long, p2 + w.tree + 2))
  }

  /** A dictionary is read only when it is declared non-empty. */
  function DictionaryIfAny(data: seq<byte>, p: nat, d: Declared, lengthWidth: nat): Option<Names> {
    if d.num == 0 then Some(Names([], p)) else Dictionary(data, p, d.num, lengthWidth, d.offsetWidth, d.segSize)
  }

  function BothDictionaries(data: seq<byte>, z: Sizes): Option<Names> {
    match DictionaryIfAny(data, z.end, z.short, 1)
    case None => None
    case Some(short) =>
      match DictionaryIfAny(data, short.end, z.long, 2)
      case None => None
      case Some(long) => Some(Names(short.names + long.names, long.end))
  }

  /** Where the root node is and how to read from there. */
  datatype Root = Root(c: Context, p: nat)

  predicate GoodStart(data: seq<byte>) {
    |data| >= 6 && data[..3] == MAGIC && (data[3] == 1 || data[3] == 3)
  }

  function RootOf(data: seq<byte>): Option<Root> {
    if !GoodStart(data) then None
    else
      var flags := U(data, 4, 2).value;
      var w := WidthsOf(flags);
      if Bit(flags, 0x10) then Some(Root(Context(data, 0, Bit(flags, 0x01), 0, []), 6 + w.tree))
      else match SizesAt(data, 6, data[3], w)
        case None => None
        case Some(z) =>
          match BothDictionaries(data, z)
          case None => None
          case Some(names) => Some(Root(Context(data, names.end, Bit(flags, 0x01), w.id, names.names), names.end))
  }
}
