// OSON (binary JSON): which bytes represent which document, and what reading them finds.
module Oson {
  import opened Bytes
  import opened Regions
  import NumberWire
  import JsonText

  // ---- documents and their text ----

  /** Names and strings are byte strings. A leaf is any other scalar; `Render` spells it. */
  datatype Json =
    | Null | True | False
    | Str(bs: seq<byte>)
    | Number(wire: seq<byte>)
    | Hex(bs: seq<byte>)
    | Leaf(tag: byte, raw: seq<byte>)
    | Container(isObject: bool, members: seq<Member>)

  /** A member of an object, or an element of an array under the empty name. */
  datatype Member = Member(name: seq<byte>, value: Json)

  /**
    * What reading comes to: something read, an error, an index out of range, or nothing yet because
    * containers nest (or chain) deeper than the bound.
    */
  datatype Out<+T> = Deep | Bad | Panic | Doc(doc: T)
  {
    predicate IsFailure() {
      !Doc?
    }

    function PropagateFailure<U>(): Out<U>
      requires IsFailure()
    {
      match this
      case Deep => Deep
      case Bad => Bad
      case Panic => Panic
    }

    function Extract(): T
      requires !IsFailure()
    {
      doc
    }
  }

  /** Dates, floats and intervals: text for a type byte and its payload, None for bytes that do not decode. */
  type Render = (byte, seq<byte>) -> Option<seq<byte>>

  const NULL_TEXT: seq<byte> := [0x6e, 0x75, 0x6c, 0x6c]
  const TRUE_TEXT: seq<byte> := [0x74, 0x72, 0x75, 0x65]
  const FALSE_TEXT: seq<byte> := [0x66, 0x61, 0x6c, 0x73, 0x65]
  const MAX_NEGATIVE_TEXT: seq<byte> := [0x2d, 0x31, 0x65, 0x31, 0x32, 0x36]   // -1e126
  const COMMA: byte := 0x2c
  const COLON: byte := 0x3a

  function AsByte(c: char): byte {
    c as int % 256
  }

  function AsBytes(s: string): (bs: seq<byte>)
    ensures |bs| == |s|
  {
    seq(|s|, k requires 0 <= k < |s| => AsByte(s[k]))
  }

  /** The text of a NUMBER, if its bytes decode; some make the decoder index beyond its digit slots. */
  function NumberBytes(wire: seq<byte>): (text: Out<seq<byte>>)
    ensures text != Deep
  {
    match NumberWire.Decode(wire)
    case Err(IndexOutOfRange) => Panic
    case Err(_) => Bad
    case Ok(d) => Doc(if d.isMaxNegative then MAX_NEGATIVE_TEXT else AsBytes(d.text))
  }

  function HexDigits(bs: seq<byte>): seq<byte> {
    if bs == [] then []
    else HexDigits(bs[..|bs| - 1]) + [JsonText.HexDigit(bs[|bs| - 1] / 16), JsonText.HexDigit(bs[|bs| - 1] % 16)]
  }

  /** Every number decodes and every leaf renders. */
  predicate Printable(r: Render, doc: Json)
    decreases doc
  {
    match doc
    case Number(w) => NumberBytes(w).Doc?
    case Leaf(tag, raw) => r(tag, raw).Some?
    case Container(_, members) => forall k :: 0 <= k < |members| ==> Printable(r, members[k].value)
    case _ => true
  }

  function Text(r: Render, doc: Json): seq<byte>
    decreases doc, 1
  {
    match doc
    case Null => NULL_TEXT
    case True => TRUE_TEXT
    case False => FALSE_TEXT
    case Str(bs) => JsonText.Literal(bs)
    case Number(w) => if NumberBytes(w).Doc? then NumberBytes(w).doc else []
    case Hex(bs) => [JsonText.QUOTE] + HexDigits(bs) + [JsonText.QUOTE]
    case Leaf(tag, raw) => if r(tag, raw).Some? then r(tag, raw).value else []
    case Container(isObject, members) => [Open(isObject)] + MembersText(r, isObject, members) + [Close(isObject)]
  }

  function Open(isObject: bool): byte {
    if isObject then 0x7b else 0x5b
  }

  function Close(isObject: bool): byte {
    if isObject then 0x7d else 0x5d
  }

  /** The members or elements in stored order, separated by commas. */
  function MembersText(r: Render, isObject: bool, members: seq<Member>): seq<byte>
    decreases members, 0
  {
    if members == [] then []
    else
      var n := |members| - 1;
      MembersText(r, isObject, members[..n])
      + (Separator(n) + NamePart(isObject, members[n].name) + Text(r, members[n].value))
  }

  function Separator(i: nat): seq<byte> {
    if i > 0 then [COMMA] else []
  }

  function NamePart(isObject: bool, name: seq<byte>): seq<byte> {
    if isObject then JsonText.Literal(name) + [COLON] else []
  }

  // ---- layout ----

  /** What the header establishes: where offsets count from, and the name dictionary. */
  datatype Context = Context(data: seq<byte>, treeSeg: nat, relative: bool, idLength: nat, names: seq<seq<byte>>)

  function LeafSize(tag: byte): (n: nat)
  {
    if tag == 0x3c || tag == 0x7d then 7
    else if tag == 0x39 || tag == 0x3e then 11
    else if tag == 0x7c then 13
    else if tag == 0x7f then 4
    else if tag == 0x36 then 8
    else if tag == 0x3d then 5
    else 0
  }

  /** The bytes and kind of a scalar node at p; None where the decoder reports an error. */
  function RawScalar(data: seq<byte>, p: nat): Option<Json>
    requires p < |data|
  {
    var t := data[p];
    if t == 0x30 then Some(Null)
    else if t == 0x31 then Some(True)
    else if t == 0x32 then Some(False)
    else if LeafSize(t) > 0 then (match Slice(data, p + 1, LeafSize(t)) case None => None case Some(raw) => Some(Leaf(t, raw)))
    else if t == 0x33 || t == 0x37 || t == 0x38 then
      (match Counted(data, p + 1, if t == 0x33 then 1 else if t == 0x37 then 2 else 4) case None => None case Some(bs) => Some(Str(bs)))
    else if t == 0x34 then (match Counted(data, p + 1, 1) case None => None case Some(w) => Some(Number(w)))
    else if t == 0x7e || t == 0x3a || t == 0x3b then
      (match Counted(data, p + 1, if t == 0x7e then 1 else if t == 0x3a then 2 else 4) case None => None case Some(bs) => Some(Hex(bs)))
    else if t / 16 == 2 || t / 16 == 6 then
      (match Slice(data, p + 1, t % 16 + 1) case None => None case Some(w) => Some(Number(w)))
    else if t / 16 == 4 || t / 16 == 5 then
      (match Slice(data, p + 1, t % 16) case None => None case Some(w) => Some(Number(w)))
    else if t < 0x20 then
      (match Slice(data, p + 1, t) case None => None case Some(bs) => Some(Str(bs)))
    else None
  }

  function Scalar(r: Render, data: seq<byte>, p: nat): (s: Out<Json>)
    requires p < |data|
    ensures s != Deep
    ensures s.Doc? ==> Printable(r, s.doc) && !s.doc.Container?
  {
    match RawScalar(data, p)
    case None => Bad
    case Some(doc) =>
      if Printable(r, doc) then Doc(doc)
      else if doc.Number? && NumberBytes(doc.wire).Panic? then Panic
      else Bad
  }

  /** Width of the child count; 0 where the type byte says the field ids are shared. */
  function CountWidth(t: byte): nat {
    var bits := t / 8 % 4;
    if bits == 0 then 1 else if bits == 1 then 2 else if bits == 2 then 4 else 0
  }

  function OffsetWidth(t: byte): nat {
    if t / 32 % 2 == 1 then 4 else 2
  }

  predicate IsObject(t: byte) {
    t / 64 % 2 == 0
  }

  /** A container's directory: how many children, where their ids and offsets are. */
  datatype Box = Box(isObject: bool, count: nat, idsAt: nat, offsetsAt: nat, width: nat, base: int)

  function BoxAt(c: Context, p: nat): Option<Box>
    requires p < |c.data|
  {
    if CountWidth(c.data[p]) > 0 then OwnBox(c, p) else SharedBox(c, p)
  }

  /** The directory of a container with its own field ids. */
  function OwnBox(c: Context, p: nat): Option<Box>
    requires p < |c.data|
  {
    var t := c.data[p];
    var idsAt := p + 1 + CountWidth(t);
    match U(c.data, p + 1, CountWidth(t))
    case None => None
    case Some(n) =>
      Some(Box(IsObject(t), n, idsAt, if IsObject(t) then idsAt + c.idLength * n else idsAt, OffsetWidth(t), p - c.treeSeg))
  }

  /** The directory of a container that names another one, whose count and field ids it shares. */
  function SharedBox(c: Context, p: nat): Option<Box>
    requires p < |c.data|
  {
    var t := c.data[p];
    match U(c.data, p + 1, OffsetWidth(t))
    case None => None
    case Some(off) =>
      match SharedCount(c.data, c.treeSeg + off)
      case None => None
      case Some((n, idsAt)) => Some(Box(IsObject(t), n, idsAt, p + 1 + OffsetWidth(t), OffsetWidth(t), p - c.treeSeg))
  }

  /** The child count behind the type byte at q, and where the ids behind it start. */
  function SharedCount(data: seq<byte>, q: nat): Option<(nat, nat)> {
    if q >= |data| then None
    else
      var w := CountWidth(data[q]);
      if w == 0 then Some((0, q + 1))
      else match U(data, q + 1, w)
        case None => None
        case Some(n) => Some((n, q + 1 + w))
  }

  /** Where child k starts. Offsets are 32-bit, counted from the tree segment or from the container. */
  function ChildPos(c: Context, b: Box, k: nat): Option<nat> {
    match U(c.data, b.offsetsAt + k * b.width, b.width)
    case None => None
    case Some(off) => Some(c.treeSeg + (if c.relative then (off + b.base) % 0x1_0000_0000 else off))
  }

  function ChildName(c: Context, b: Box, k: nat): Option<seq<byte>> {
    if !b.isObject then Some([])
    else match U(c.data, b.idsAt + k * c.idLength, c.idLength)
      case None => None
      case Some(id) => if id == 0 || id > |c.names| then None else Some(c.names[id - 1])
  }

  /** The bytes at p, with everything they point to, represent the document. */
  ghost predicate Represents(r: Render, c: Context, p: nat, doc: Json)
    decreases doc, 1
  {
    p < |c.data|
    && if c.data[p] < 0x80 then Scalar(r, c.data, p) == Doc(doc)
       else doc.Container? && BoxAt(c, p).Some? && RepresentsMembers(r, c, BoxAt(c, p).value, doc.isObject, doc.members)
            && |doc.members| == BoxAt(c, p).value.count
  }

  /** The directory names and locates these first members, and each is represented where it is located. */
  ghost predicate RepresentsMembers(r: Render, c: Context, b: Box, isObject: bool, members: seq<Member>)
    decreases members, 0
  {
    isObject == b.isObject && forall k :: 0 <= k < |members| ==> RepresentsMember(r, c, b, k, members[k])
  }

  ghost predicate RepresentsMember(r: Render, c: Context, b: Box, k: nat, m: Member)
    decreases m
  {
    ChildName(c, b, k) == Some(m.name) && ChildPos(c, b, k).Some? && Represents(r, c, ChildPos(c, b, k).value, m.value)
  }

  lemma {:induction false} RepresentedIsPrintable(r: Render, c: Context, p: nat, doc: Json)
    requires Represents(r, c, p, doc)
    ensures Printable(r, doc)
    decreases doc
  {
    if c.data[p] >= 0x80 {
      forall k | 0 <= k < |doc.members|
        ensures Printable(r, doc.members[k].value)
      {
        assert RepresentsMember(r, c, BoxAt(c, p).value, k, doc.members[k]);
        RepresentedIsPrintable(r, c, ChildPos(c, BoxAt(c, p).value, k).value, doc.members[k].value);
      }
    }
  }

  // ---- reading, as the decoder does it ----

  function Read(r: Render, c: Context, p: nat, n: nat): Out<Json>
    decreases n, 0, 0
  {
    if p >= |c.data| then Bad
    else if c.data[p] < 0x80 then Scalar(r, c.data, p)
    else match BoxAt(c, p)
      case None => Bad
      case Some(b) =>
        if n == 0 then Deep
        else
          var members :- ReadMembers(r, c, b, [], n - 1);
          Doc(Container(b.isObject, members))
  }

  function ReadMember(r: Render, c: Context, b: Box, k: nat, n: nat): Out<Member>
    decreases n, 1, 0
  {
    match ChildName(c, b, k)
    case None => Bad
    case Some(name) =>
      match ChildPos(c, b, k)
      case None => Bad
      case Some(q) =>
        var value :- Read(r, c, q, n);
        Doc(Member(name, value))
  }

  /** The members from number |done| on, behind those already read. */
  function ReadMembers(r: Render, c: Context, b: Box, done: seq<Member>, n: nat): Out<seq<Member>>
    decreases n, 2, b.count - |done|
  {
    if |done| >= b.count then Doc(done)
    else
      var m :- ReadMember(r, c, b, |done|, n);
      ReadMembers(r, c, b, done + [m], n)
  }

  function Depth(doc: Json): nat
    decreases doc, 1
  {
    if doc.Container? then 1 + MaxDepth(doc.members) else 0
  }

  function MaxDepth(members: seq<Member>): (m: nat)
    ensures forall k :: 0 <= k < |members| ==> Depth(members[k].value) <= m
    decreases members, 0
  {
    if members == [] then 0
    else
      var rest, d := MaxDepth(members[1..]), Depth(members[0].value);
      assert forall k :: 1 <= k < |members| ==> members[k] == members[1..][k - 1];
      if d > rest then d else rest
  }

  /** Reading finds the represented document, given depth enough. */
  lemma {:induction false} ReadFinds(r: Render, c: Context, p: nat, doc: Json, n: nat)
    requires Represents(r, c, p, doc) && Depth(doc) <= n
    ensures Read(r, c, p, n) == Doc(doc)
    decreases doc, 1, 0
  {
    if c.data[p] >= 0x80 {
      assert doc.members[..0] == [];
      ReadMembersFinds(r, c, BoxAt(c, p).value, doc.isObject, doc.members, 0, n - 1);
    }
  }

  lemma {:induction false} ReadMembersFinds(r: Render, c: Context, b: Box, isObject: bool, members: seq<Member>, i: nat, n: nat)
    requires RepresentsMembers(r, c, b, isObject, members) && |members| == b.count
    requires MaxDepth(members) <= n && i <= |members|
    ensures ReadMembers(r, c, b, members[..i], n) == Doc(members)
    decreases members, 0, |members| - i
  {
    hide Read, Represents, ChildPos, ChildName;
    if i == |members| {
      assert members[..i] == members;
    } else {
      assert RepresentsMember(r, c, b, i, members[i]);
      ReadFinds(r, c, ChildPos(c, b, i).value, members[i].value, n);
      assert ReadMember(r, c, b, i, n) == Doc(members[i]);
      assert members[..i] + [members[i]] == members[..i + 1];
      ReadMembersFinds(r, c, b, isObject, members, i + 1, n);
    }
  }

  /** And it finds nothing else: whatever is read is represented by the bytes. */
  lemma {:induction false} ReadIsRepresented(r: Render, c: Context, p: nat, n: nat)
    requires Read(r, c, p, n).Doc?
    ensures Represents(r, c, p, Read(r, c, p, n).doc)
    decreases n, 0, 0
  {
    if c.data[p] >= 0x80 {
      ReadMembersRepresented(r, c, BoxAt(c, p).value, [], n - 1);
    }
  }

  lemma {:induction false} ReadMembersRepresented(r: Render, c: Context, b: Box, done: seq<Member>, n: nat)
    requires RepresentsMembers(r, c, b, b.isObject, done) && |done| <= b.count
    requires ReadMembers(r, c, b, done, n).Doc?
    ensures var members := ReadMembers(r, c, b, done, n).doc;
            |members| == b.count && RepresentsMembers(r, c, b, b.isObject, members)
    decreases n, 1, b.count - |done|
  {
    if |done| < b.count {
      ReadIsRepresented(r, c, ChildPos(c, b, |done|).value, n);
      var m := ReadMember(r, c, b, |done|, n).doc;
      ReadMembersRepresented(r, c, b, done + [m], n);
    }
  }

  /** The same bytes never represent two documents. */
  lemma OneDocument(r: Render, c: Context, p: nat, d: Json, e: Json)
    requires Represents(r, c, p, d) && Represents(r, c, p, e)
    ensures d == e
  {
    var n := Depth(d) + Depth(e);
    ReadFinds(r, c, p, d, n);
    ReadFinds(r, c, p, e, n);
  }

  /** Once the bound is enough, a larger one changes nothing. */
  lemma {:induction false} ReadStable(r: Render, c: Context, p: nat, n: nat, m: nat)
    requires n <= m && Read(r, c, p, n) != Deep
    ensures Read(r, c, p, m) == Read(r, c, p, n)
    decreases n, 0, 0
  {
    if p < |c.data| && c.data[p] >= 0x80 && BoxAt(c, p).Some? {
      ReadMembersStable(r, c, BoxAt(c, p).value, [], n - 1, m - 1);
    }
  }

  lemma {:induction false} ReadMembersStable(r: Render, c: Context, b: Box, done: seq<Member>, n: nat, m: nat)
    requires n <= m && ReadMembers(r, c, b, done, n) != Deep
    ensures ReadMembers(r, c, b, done, m) == ReadMembers(r, c, b, done, n)
    decreases n, 1, b.count - |done|
  {
    if |done| < b.count {
      if ChildName(c, b, |done|).Some? && ChildPos(c, b, |done|).Some? {
        ReadStable(r, c, ChildPos(c, b, |done|).value, n, m);
      }
      var one := ReadMember(r, c, b, |done|, n);
      assert ReadMember(r, c, b, |done|, m) == one;
      if one.Doc? {
        ReadMembersStable(r, c, b, done + [one.doc], n, m);
      }
    }
  }
}
