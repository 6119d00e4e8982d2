// Packed object images: the layout of a typed value, and the type-driven decoder.
module ObjectImage {
  import opened Bytes
  import opened Regions

  // ---- types and values ----

  /** A resolved type. Only index tables carry an index with each element. */
  datatype Type =
    | Object(attrs: seq<Attr>)
    | Collection(indexed: bool, elem: Attr)

  datatype Attr = ScalarAttr | LobAttr | XmlAttr | TypedAttr(t: Type)

  datatype Value =
    | Null
    | Scalar(raw: seq<byte>)
    | Lob(locator: seq<byte>)
    | Xml(text: seq<byte>)
    | Fields(fields: seq<Value>)
    | Elements(indexes: seq<int>, elems: seq<Value>)

  const LONG_LENGTH: byte := 254
  const NULL_LENGTH: byte := 255
  const ATOMIC_NULL: byte := 253
  const MAX_SHORT: nat := 245

  /** int32(x) of a 32-bit number. */
  function Int32(u: nat): int {
    if u >= 0x8000_0000 then u - TWO32 else u
  }

  // ---- what the decoder reads ----

  /** A short length or a 254-prefixed 32-bit length. */
  function Length(data: seq<byte>, p: nat): (g: Got<nat>)
    ensures g.At? ==> g.end <= |data|
  {
    if p >= |data| then Fail
    else if data[p] != LONG_LENGTH then At(data[p], p + 1)
    else match U(data, p + 1, 4)
      case None => Fail
      case Some(n) => At(n, p + 5)
  }

  /** A length and that many bytes; None for the lengths 0 and 255. */
  function WithLength(data: seq<byte>, p: nat): Got<Option<seq<byte>>> {
    if p >= |data| then Fail
    else if data[p] == 0 || data[p] == NULL_LENGTH then At(None, p + 1)
    else match Length(data, p)
      case Fail => Fail
      case At(n, q) =>
        match Slice(data, q, n)
        case None => Fail
        case Some(bs) => At(Some(bs), q + n)
  }

  /** The position behind an image header. */
  function HeaderEnd(data: seq<byte>): Option<nat> {
    match Length(data, 2)
    case Fail => None
    case At(_, q) =>
      if data[0] / 16 % 2 == 1 then None
      else if data[0] / 4 % 2 == 1 then Some(q)
      else match Length(data, q)
        case Fail => None
        case At(n, e) => if e + n <= |data| then Some(e + n) else None
  }

  function XmlImage(data: seq<byte>): Option<Value> {
    match HeaderEnd(data)
    case None => None
    case Some(p) =>
      match U(data, p + 1, 4)
      case None => None
      case Some(flag) =>
        var q := if flag / 0x100000 % 2 == 1 then p + 9 else p + 5;
        if q > |data| then None
        else if flag / 4 % 2 == 1 then Some(Xml(data[q..]))
        else if flag % 2 == 1 then Some(Lob(data[q..]))
        else None
  }

  function Image(t: Type, data: seq<byte>): Got<Value>
    decreases t, 1
  {
    match HeaderEnd(data)
    case None => Fail
    case Some(p) => Body(t, data, p)
  }

  function Body(t: Type, data: seq<byte>, p: nat): Got<Value>
    decreases t, 0
  {
    match t
    case Object(attrs) =>
      (match FieldsTo(attrs, |attrs|, data, p)
       case Fail => Fail
       case At(fields, q) => At(Fields(fields), q))
    case Collection(indexed, elem) =>
      match Length(data, p + 1)
      case Fail => Fail
      case At(n, q) =>
        match ElementsTo(indexed, elem, n, data, q)
        case Fail => Fail
        case At(r, e) => At(Elements(r.0, r.1), e)
  }

  /** The first i attributes. */
  function FieldsTo(attrs: seq<Attr>, i: nat, data: seq<byte>, p: nat): Got<seq<Value>>
    requires i <= |attrs|
    decreases attrs, i
  {
    if i == 0 then At([], p)
    else match FieldsTo(attrs, i - 1, data, p)
      case Fail => Fail
      case At(fields, q) =>
        match ValueAt(attrs[i - 1], false, data, q)
        case Fail => Fail
        case At(v, e) => At(fields + [v], e)
  }

  /** The first i elements, and their indexes. */
  function ElementsTo(indexed: bool, elem: Attr, i: nat, data: seq<byte>, p: nat): Got<(seq<int>, seq<Value>)>
    decreases elem, 1, i
  {
    if i == 0 then At(([], []), p)
    else match ElementsTo(indexed, elem, i - 1, data, p)
      case Fail => Fail
      case At(r, q) =>
        match IndexAt(indexed, data, q)
        case Fail => Fail
        case At(index, e) =>
          match ValueAt(elem, true, data, e)
          case Fail => Fail
          case At(v, end) => At((r.0 + index, r.1 + [v]), end)
  }

  function IndexAt(indexed: bool, data: seq<byte>, p: nat): (g: Got<seq<int>>)
    ensures g.At? ==> |g.value| == if indexed then 1 else 0
  {
    if !indexed then At([], p)
    else match U(data, p, 4)
      case None => Fail
      case Some(u) => At([Int32(u)], p + 4)
  }

  /** Collections, and everything inside one, are nested images; other objects stand inline. */
  predicate Packed(t: Type, inCollection: bool) {
    t.Collection? || inCollection
  }

  function ValueAt(a: Attr, inCollection: bool, data: seq<byte>, p: nat): Got<Value>
    decreases a, 0
  {
    match a
    case ScalarAttr => OrNull(WithLength(data, p), bs => Some(Scalar(bs)))
    case LobAttr => OrNull(WithLength(data, p), bs => Some(Lob(bs)))
    case XmlAttr => OrNull(WithLength(data, p), bs => XmlImage(bs))
    case TypedAttr(t) =>
      if p >= |data| then Fail
      else if data[p] == ATOMIC_NULL || (Packed(t, inCollection) && data[p] == NULL_LENGTH) then At(Null, p + 1)
      else if !Packed(t, inCollection) then Body(t, data, p)
      else match WithLength(data, p)
        case Fail => Fail
        case At(None, q) => At(Null, q)
        case At(Some(packed), q) =>
          match Image(t, packed)
          case Fail => Fail
          case At(v, _) => At(v, q)
  }

  function OrNull(g: Got<Option<seq<byte>>>, make: seq<byte> -> Option<Value>): Got<Value> {
    match g
    case Fail => Fail
    case At(None, q) => At(Null, q)
    case At(Some(bs), q) => match make(bs) case None => Fail case Some(v) => At(v, q)
  }

  lemma {:induction false} FieldsStayFailed(attrs: seq<Attr>, i: nat, j: nat, data: seq<byte>, p: nat)
    requires i <= j <= |attrs| && FieldsTo(attrs, i, data, p).Fail?
    ensures FieldsTo(attrs, j, data, p).Fail?
    decreases j
  {
    if i < j {
      FieldsStayFailed(attrs, i, j - 1, data, p);
    }
  }

  lemma {:induction false} ElementsStayFailed(indexed: bool, elem: Attr, i: nat, j: nat, data: seq<byte>, p: nat)
    requires i <= j && ElementsTo(indexed, elem, i, data, p).Fail?
    ensures ElementsTo(indexed, elem, j, data, p).Fail?
    decreases j
  {
    if i < j {
      ElementsStayFailed(indexed, elem, i, j - 1, data, p);
    }
  }

  // ---- the decoder ----

  /**
    * The cursor over one image. Every loop runs a stored count of times and every call goes to a smaller
    * type, so it ends on arbitrary bytes.
    */
  class ImageReader {
    const data: seq<byte>
    var pos: nat

    constructor (data: seq<byte>)
      ensures this.data == data && pos == 0
    {
      this.data, pos := data, 0;
    }

    method Unsigned(w: nat) returns (r: Option<nat>)
      modifies `pos
      ensures r == U(data, old(pos), w)
      ensures pos == if r.Some? then old(pos) + w else old(pos)
    {
      if pos + w > |data| {
        return None;
      }
      r := Some(FromBE(data[pos..pos + w]));
      pos := pos + w;
    }

    method Raw(n: nat) returns (r: Option<seq<byte>>)
      modifies `pos
      ensures r == Slice(data, old(pos), n)
      ensures pos == if r.Some? then old(pos) + n else old(pos)
    {
      if pos + n > |data| {
        return None;
      }
      r := Some(data[pos..pos + n]);
      pos := pos + n;
    }

    method ReadLength() returns (r: Option<nat>)
      modifies `pos
      ensures r.None? <==> Length(data, old(pos)).Fail?
      ensures r.Some? ==> Length(data, old(pos)) == At(r.value, pos)
    {
      hide FromBE;
      if pos >= |data| {
        return None;
      }
      var b := data[pos];
      pos := pos + 1;
      if b == LONG_LENGTH {
        r := Unsigned(4);
      } else {
        r := Some(b);
      }
    }

    method BytesWithLength() returns (ok: bool, bs: Option<seq<byte>>)
      modifies `pos
      ensures ok == WithLength(data, old(pos)).At?
      ensures ok ==> WithLength(data, old(pos)) == At(bs, pos)
    {
      hide FromBE;
      if pos >= |data| {
        return false, None;
      }
      var b := data[pos];
      if b == 0 || b == NULL_LENGTH {
        pos := pos + 1;
        return true, None;
      }
      pos := pos + 1;
      var n := Some(b as nat);
      if b == LONG_LENGTH {
        n := Unsigned(4);
        if n.None? {
          return false, None;
        }
      }
      bs := Raw(n.value);
      ok := bs.Some?;
    }

    method Header() returns (ok: bool)
      requires pos == 0
      modifies `pos
      ensures ok == HeaderEnd(data).Some?
      ensures ok ==> pos == HeaderEnd(data).value
    {
      hide U, FromBE;
      if |data| < 2 {
        return false;
      }
      var flags := data[0];
      pos := 2;
      var total := ReadLength();
      if total.None? || flags / 16 % 2 == 1 {
        return false;
      }
      if flags / 4 % 2 == 1 {
        return true;
      }
      var n := ReadLength();
      if n.None? {
        return false;
      }
      var prefix := Raw(n.value);
      ok := prefix.Some?;
    }

    method DecodeXml() returns (r: Option<Value>)
      requires pos == 0
      modifies `pos
      ensures r == XmlImage(data)
    {
      hide FromBE;
      var ok := Header();
      if !ok {
        return None;
      }
      var version := Raw(1);
      if version.None? {
        return None;
      }
      var flag := Unsigned(4);
      if flag.None? {
        return None;
      }
      if flag.value / 0x100000 % 2 == 1 {
        var skipped := Raw(4);
        if skipped.None? {
          return None;
        }
      }
      var rest := data[pos..];
      if flag.value / 4 % 2 == 1 {
        return Some(Xml(rest));
      }
      if flag.value % 2 == 1 {
        return Some(Lob(rest));
      }
      r := None;
    }

    method DecodeBody(t: Type) returns (r: Option<Value>)
      modifies `pos
      ensures r.None? <==> Body(t, data, old(pos)).Fail?
      ensures r.Some? ==> Body(t, data, old(pos)) == At(r.value, pos)
      decreases t, 2
    {
      if t.Collection? {
        r := DecodeCollection(t);
      } else {
        r := DecodeObject(t);
      }
    }

    method DecodeCollection(t: Type) returns (r: Option<Value>)
      requires t.Collection?
      modifies `pos
      ensures r.None? <==> Body(t, data, old(pos)).Fail?
      ensures r.Some? ==> Body(t, data, old(pos)) == At(r.value, pos)
      decreases t, 1
    {
      hide U, Slice, ValueAt, FromBE;
      pos := pos + 1;
      if pos > |data| {
        return None;
      }
      var n := ReadLength();
      if n.None? {
        return None;
      }
      ghost var start := pos;
      var indexes, elems := [], [];
      var i := 0;
      while i < n.value
        invariant 0 <= i <= n.value
        invariant ElementsTo(t.indexed, t.elem, i, data, start) == At((indexes, elems), pos)
      {
        i := i + 1;
        var ok, index, v := DecodeElement(t.indexed, t.elem);
        if !ok {
          ElementsStayFailed(t.indexed, t.elem, i, n.value, data, start);
          return None;
        }
        indexes := indexes + index;
        elems := elems + [v];
      }
      r := Some(Elements(indexes, elems));
    }

    method DecodeElement(indexed: bool, elem: Attr) returns (ok: bool, index: seq<int>, v: Value)
      modifies `pos
      ensures ok <==> IndexAt(indexed, data, old(pos)).At? && ValueAt(elem, true, data, IndexAt(indexed, data, old(pos)).end).At?
      ensures ok ==> index == IndexAt(indexed, data, old(pos)).value
                     && ValueAt(elem, true, data, IndexAt(indexed, data, old(pos)).end) == At(v, pos)
      decreases elem, 2
    {
      hide ValueAt, FromBE;
      index, v := [], Null;
      if indexed {
        var u := Unsigned(4);
        if u.None? {
          return false, [], Null;
        }
        index := [Int32(u.value)];
      }
      var r := DecodeValue(elem, true);
      ok := r.Some?;
      if ok {
        v := r.value;
      }
    }

    method DecodeObject(t: Type) returns (r: Option<Value>)
      requires t.Object?
      modifies `pos
      ensures r.None? <==> Body(t, data, old(pos)).Fail?
      ensures r.Some? ==> Body(t, data, old(pos)) == At(r.value, pos)
      decreases t, 1
    {
      hide ValueAt;
      var fields := [];
      var i := 0;
      while i < |t.attrs|
        invariant 0 <= i <= |t.attrs|
        invariant FieldsTo(t.attrs, i, data, old(pos)) == At(fields, pos)
      {
        i := i + 1;
        var v := DecodeValue(t.attrs[i - 1], false);
        if v.None? {
          FieldsStayFailed(t.attrs, i, |t.attrs|, data, old(pos));
          return None;
        }
        fields := fields + [v.value];
      }
      r := Some(Fields(fields));
    }

    method DecodeValue(a: Attr, parentIsCollection: bool) returns (r: Option<Value>)
      modifies `pos
      ensures r.None? <==> ValueAt(a, parentIsCollection, data, old(pos)).Fail?
      ensures r.Some? ==> ValueAt(a, parentIsCollection, data, old(pos)) == At(r.value, pos)
      decreases a, 1
    {
      if a.TypedAttr? {
        r := DecodeTyped(a, parentIsCollection);
        return;
      }
      var ok, bs := BytesWithLength();
      if !ok {
        return None;
      }
      if bs.None? {
        return Some(Null);
      }
      match a
      case ScalarAttr => r := Some(Scalar(bs.value));
      case LobAttr => r := Some(Lob(bs.value));
      case XmlAttr =>
        var x := new ImageReader(bs.value);
        r := x.DecodeXml();
    }

    /** One byte is read ahead to see whether the object is null, and put back if it is not. */
    method DecodeTyped(a: Attr, parentIsCollection: bool) returns (r: Option<Value>)
      requires a.TypedAttr?
      modifies `pos
      ensures r.None? <==> ValueAt(a, parentIsCollection, data, old(pos)).Fail?
      ensures r.Some? ==> ValueAt(a, parentIsCollection, data, old(pos)) == At(r.value, pos)
      decreases a, 0
    {
      hide Body, WithLength;
      var isColl := a.t.Collection? || parentIsCollection;
      if pos >= |data| {
        return None;
      }
      var b := data[pos];
      pos := pos + 1;
      if b == ATOMIC_NULL || (isColl && b == NULL_LENGTH) {
        return Some(Null);
      }
      pos := pos - 1;
      if !isColl {
        r := DecodeBody(a.t);
        return;
      }
      var ok, packed := BytesWithLength();
      if !ok {
        return None;
      }
      if packed.None? {
        return Some(Null);
      }
      r := DecodeObjectImage(a.t, packed.value);
    }
  }

  method DecodeObjectImage(t: Type, image: seq<byte>) returns (r: Option<Value>)
    ensures r == match Image(t, image) case Fail => None case At(v, _) => Some(v)
    decreases t, 3
  {
    hide Body;
    var reader := new ImageReader(image);
    var ok := reader.Header();
    if !ok {
      return None;
    }
    r := reader.DecodeBody(t);
  }
}
