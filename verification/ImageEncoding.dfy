// How a typed value is laid out as an object image, and exactly when the decoder recovers it.
module ImageEncoding {
  import opened Bytes
  import opened Regions
  import opened ObjectImage

  // ---- the layout ----

  function EncLength(n: nat): seq<byte> {
    if n <= MAX_SHORT then [n] else [LONG_LENGTH] + BE(n, 4)
  }

  function EncBytes(bs: seq<byte>): seq<byte> {
    EncLength(|bs|) + bs
  }

  /** Objects need no prefix segment, collections have one of a single byte. */
  function EncHeader(t: Type, size: nat): seq<byte> {
    if t.Collection? then [0x88, 1, LONG_LENGTH] + BE(size + 9, 4) + [1, 1]
    else [0x84, 1, LONG_LENGTH] + BE(size + 7, 4)
  }

  function EncXml(text: seq<byte>, flag: nat): seq<byte> {
    [0x84, 1, LONG_LENGTH] + BE((|text| + 12) % TWO32, 4) + ([1] + BE(flag, 4) + text)
  }

  function EncImage(t: Type, v: Value): seq<byte>
    decreases t, 1
  {
    var body := EncBody(t, v);
    EncHeader(t, |body|) + body
  }

  function EncBody(t: Type, v: Value): seq<byte>
    decreases t, 0
  {
    match (t, v)
    case (Object(attrs), Fields(fields)) =>
      if |attrs| == |fields| then EncFields(attrs, fields, |attrs|) else []
    case (Collection(indexed, elem), Elements(indexes, elems)) =>
      if indexed ==> |indexes| == |elems| then
        [0] + EncLength(|elems|) + EncElements(indexed, elem, indexes, elems, |elems|)
      else []
    case _ => []
  }

  function EncFields(attrs: seq<Attr>, fields: seq<Value>, i: nat): seq<byte>
    requires i <= |attrs| == |fields|
    decreases attrs, i
  {
    if i == 0 then [] else EncFields(attrs, fields, i - 1) + EncValue(attrs[i - 1], fields[i - 1], false)
  }

  function EncIndex(indexed: bool, indexes: seq<int>, i: nat): seq<byte>
    requires indexed ==> i < |indexes|
  {
    if indexed then BE(indexes[i] % TWO32, 4) else []
  }

  function EncElements(indexed: bool, elem: Attr, indexes: seq<int>, elems: seq<Value>, i: nat): seq<byte>
    requires i <= |elems| && (indexed ==> |indexes| == |elems|)
    decreases elem, 1, i
  {
    if i == 0 then []
    else
      EncElements(indexed, elem, indexes, elems, i - 1)
      + (EncIndex(indexed, indexes, i - 1) + EncValue(elem, elems[i - 1], true))
  }

  function EncValue(a: Attr, v: Value, inCollection: bool): seq<byte>
    decreases a, 0
  {
    match a
    case ScalarAttr => if v.Scalar? then EncBytes(v.raw) else [NULL_LENGTH]
    case LobAttr => if v.Lob? then EncBytes(v.locator) else [NULL_LENGTH]
    case XmlAttr =>
      if v.Xml? then EncBytes(EncXml(v.text, 4))
      else if v.Lob? then EncBytes(EncXml(v.locator, 1))
      else [NULL_LENGTH]
    case TypedAttr(t) =>
      if v.Null? then [if Packed(t, inCollection) then NULL_LENGTH else ATOMIC_NULL]
      else if Packed(t, inCollection) then EncBytes(EncImage(t, v))
      else EncBody(t, v)
  }

  // ---- which values have a layout ----

  predicate Sized(bs: seq<byte>) {
    0 < |bs| < TWO32
  }

  /** A value of the type, none of whose parts is too long for its length field; object types have attributes. */
  predicate IsBody(t: Type, v: Value)
    decreases t, 0
  {
    match t
    case Object(attrs) =>
      v.Fields? && |v.fields| == |attrs| > 0
      && forall k :: 0 <= k < |attrs| ==> IsValue(attrs[k], v.fields[k], false)
    case Collection(indexed, elem) =>
      v.Elements? && |v.elems| < TWO32 && |v.indexes| == (if indexed then |v.elems| else 0)
      && (forall k :: 0 <= k < |v.indexes| ==> -0x8000_0000 <= v.indexes[k] < 0x8000_0000)
      && forall k :: 0 <= k < |v.elems| ==> IsValue(elem, v.elems[k], true)
  }

  predicate IsValue(a: Attr, v: Value, inCollection: bool)
    decreases a, 0
  {
    v.Null?
    || match a
       case ScalarAttr => v.Scalar? && Sized(v.raw)
       case LobAttr => v.Lob? && Sized(v.locator)
       case XmlAttr => (v.Xml? && |v.text| + 12 < TWO32) || (v.Lob? && |v.locator| + 12 < TWO32)
       case TypedAttr(t) => IsBody(t, v) && (Packed(t, inCollection) ==> |EncImage(t, v)| < TWO32)
  }

  // ---- the ambiguity of inline objects ----

  /** The layout of the object starts with the byte that also marks a null object. */
  predicate StartsNull(t: Type, v: Value)
    requires IsBody(t, v)
    decreases t
  {
    t.Object?
    && assert IsValue(t.attrs[0], v.fields[0], false); t.attrs[0].TypedAttr? && !t.attrs[0].t.Collection?
    && (v.fields[0].Null? || StartsNull(t.attrs[0].t, v.fields[0]))
  }

  /** No inline object starts with a null inline object. */
  predicate ClearBody(t: Type, v: Value)
    requires IsBody(t, v)
    decreases t, 0
  {
    match t
    case Object(attrs) => ClearFields(attrs, v.fields, |attrs|)
    case Collection(indexed, elem) => ClearElements(elem, v.elems, |v.elems|)
  }

  predicate ClearFields(attrs: seq<Attr>, fields: seq<Value>, i: nat)
    requires i <= |attrs| == |fields| && forall k :: 0 <= k < |attrs| ==> IsValue(attrs[k], fields[k], false)
    decreases attrs, i
  {
    i == 0 || (ClearFields(attrs, fields, i - 1) && Clear(attrs[i - 1], fields[i - 1], false))
  }

  predicate ClearElements(elem: Attr, elems: seq<Value>, i: nat)
    requires i <= |elems| && forall k :: 0 <= k < |elems| ==> IsValue(elem, elems[k], true)
    decreases elem, 1, i
  {
    i == 0 || (ClearElements(elem, elems, i - 1) && Clear(elem, elems[i - 1], true))
  }

  predicate Clear(a: Attr, v: Value, inCollection: bool)
    requires IsValue(a, v, inCollection)
    decreases a, 0
  {
    a.TypedAttr? && !v.Null? ==>
      ClearBody(a.t, v) && (Packed(a.t, inCollection) || !StartsNull(a.t, v))
  }

  // ---- reading back ----

  lemma HeadByte(data: seq<byte>, p: nat, bs: seq<byte>)
    requires Holds(data, p, bs) && bs != []
    ensures p < |data| && data[p] == bs[0]
  {
    assert data[p..p + |bs|][0] == data[p];
  }

  lemma LengthReadsBack(data: seq<byte>, p: nat, n: nat)
    requires n < TWO32 && Holds(data, p, EncLength(n))
    ensures Length(data, p) == At(n, p + |EncLength(n)|)
    ensures EncLength(n) != [] && (EncLength(n)[0] <= MAX_SHORT || EncLength(n)[0] == LONG_LENGTH)
    ensures n > 0 ==> EncLength(n)[0] != 0
  {
    hide FromBE;
    HeadByte(data, p, EncLength(n));
    if n > MAX_SHORT {
      HoldsBoth(data, p, [LONG_LENGTH], BE(n, 4));
      assert Pow256(4) == TWO32;
      HoldsField(data, p + 1, n, 4);
    }
  }

  lemma BytesReadBack(data: seq<byte>, p: nat, bs: seq<byte>)
    requires Sized(bs) && Holds(data, p, EncBytes(bs))
    ensures WithLength(data, p) == At(Some(bs), p + |EncBytes(bs)|)
    ensures p < |data| && data[p] == EncBytes(bs)[0] && (data[p] <= MAX_SHORT || data[p] == LONG_LENGTH)
  {
    hide FromBE, U, BE;
    HoldsBoth(data, p, EncLength(|bs|), bs);
    LengthReadsBack(data, p, |bs|);
    HeadByte(data, p, EncLength(|bs|));
  }

  /** An image header of the given start and total size, and the length behind it. */
  lemma TotalReadsBack(data: seq<byte>, flags: byte, size: nat, rest: seq<byte>)
    requires size < TWO32 && data == [flags, 1, LONG_LENGTH] + BE(size, 4) + rest
    ensures Length(data, 2) == At(size, 7)
  {
    hide FromBE;
    assert Holds(data, 0, [flags, 1, LONG_LENGTH] + BE(size, 4) + rest);
    HoldsPart(data, 0, [flags, 1, LONG_LENGTH], BE(size, 4), rest);
    assert Pow256(4) == TWO32;
    HoldsField(data, 3, size, 4);
    assert data[2] == LONG_LENGTH;
  }

  lemma HeaderReadsBack(t: Type, body: seq<byte>)
    requires |EncHeader(t, |body|)| + |body| < TWO32
    ensures HeaderEnd(EncHeader(t, |body|) + body) == Some(|EncHeader(t, |body|)|)
  {
    hide FromBE, U, BE;
    var data := EncHeader(t, |body|) + body;
    if t.Collection? {
      var size := BE(|body| + 9, 4);
      assert data == [0x88, 1, LONG_LENGTH] + size + ([1, 1] + body);
      TotalReadsBack(data, 0x88, |body| + 9, [1, 1] + body);
      assert data[7] == 1 && data[0] == 0x88;
      assert Length(data, 7) == At(1, 8);
    } else {
      TotalReadsBack(data, 0x84, |body| + 7, body);
      assert data[0] == 0x84;
    }
  }

  lemma XmlReadsBack(text: seq<byte>, flag: nat)
    requires |text| + 12 < TWO32 && (flag == 1 || flag == 4)
    ensures XmlImage(EncXml(text, flag)) == Some(if flag == 4 then Xml(text) else Lob(text))
  {
    hide FromBE, U, BE;
    var data, rest := EncXml(text, flag), [1] + BE(flag, 4) + text;
    TotalReadsBack(data, 0x84, |text| + 12, rest);
    assert data[0] == 0x84;
    assert data == [0x84, 1, LONG_LENGTH] + BE(|text| + 12, 4) + [1] + BE(flag, 4) + text;
    XmlFlag(data, [0x84, 1, LONG_LENGTH] + BE(|text| + 12, 4) + [1], flag, text);
  }

  lemma XmlFlag(data: seq<byte>, pre: seq<byte>, flag: nat, text: seq<byte>)
    requires data == pre + BE(flag, 4) + text && (flag == 1 || flag == 4)
    ensures U(data, |pre|, 4) == Some(flag) && data[|pre| + 4..] == text
  {
    hide FromBE;
    assert Holds(data, 0, pre + BE(flag, 4) + text);
    HoldsPart(data, 0, pre, BE(flag, 4), text);
    assert Pow256(4) == TWO32;
    HoldsField(data, |pre|, flag, 4);
  }

  lemma IndexReadsBack(indexed: bool, indexes: seq<int>, i: nat, data: seq<byte>, p: nat)
    requires indexed ==> i < |indexes| && -0x8000_0000 <= indexes[i] < 0x8000_0000
    requires Holds(data, p, EncIndex(indexed, indexes, i))
    ensures IndexAt(indexed, data, p)
            == At(if indexed then [indexes[i]] else [], p + |EncIndex(indexed, indexes, i)|)
  {
    hide FromBE;
    if indexed {
      assert Pow256(4) == TWO32;
      HoldsField(data, p, indexes[i] % TWO32, 4);
    }
  }

  /** The first byte of an object's layout, where an inline object is told from a null one. */
  lemma {:induction false} FirstByte(t: Type, v: Value)
    requires IsBody(t, v)
    ensures EncBody(t, v) != []
    ensures t.Object? ==> (EncBody(t, v)[0] == ATOMIC_NULL <==> StartsNull(t, v))
    decreases t, 0
  {
    if t.Object? {
      FirstField(t.attrs, v.fields, |t.attrs|);
      FirstOfValue(t.attrs[0], v.fields[0]);
    }
  }

  lemma {:induction false} FirstField(attrs: seq<Attr>, fields: seq<Value>, i: nat)
    requires 0 < i <= |attrs| == |fields| && IsValue(attrs[0], fields[0], false)
    ensures EncValue(attrs[0], fields[0], false) <= EncFields(attrs, fields, i)
    decreases attrs, i
  {
    if i > 1 {
      FirstField(attrs, fields, i - 1);
    } else {
      assert EncFields(attrs, fields, 0) == [];
      assert [] + EncValue(attrs[0], fields[0], false) == EncValue(attrs[0], fields[0], false);
    }
  }

  lemma {:induction false} FirstOfValue(a: Attr, v: Value)
    requires IsValue(a, v, false)
    ensures EncValue(a, v, false) != []
    ensures EncValue(a, v, false)[0] == ATOMIC_NULL
            <==> (a.TypedAttr? && !a.t.Collection? && (v.Null? || StartsNull(a.t, v)))
    decreases a, 0
  {
    if a.TypedAttr? && !v.Null? && !a.t.Collection? {
      FirstByte(a.t, v);
    }
  }

  /** Either the value read is the one laid out, or there is none or another. */
  predicate Recovers<T(==)>(clear: bool, g: Got<T>, v: T, end: nat) {
    if clear then g == At(v, end) else g.Fail? || g.value != v
  }

  lemma {:induction false} ValueReadsBack(a: Attr, v: Value, inCollection: bool, data: seq<byte>, p: nat)
    requires IsValue(a, v, inCollection) && Holds(data, p, EncValue(a, v, inCollection))
    ensures Recovers(Clear(a, v, inCollection), ValueAt(a, inCollection, data, p), v, p + |EncValue(a, v, inCollection)|)
    decreases a, 1
  {
    if v.Null? {
      HeadByte(data, p, EncValue(a, v, inCollection));
    } else if a.TypedAttr? {
      TypedReadsBack(a, v, inCollection, data, p);
    } else {
      PlainReadsBack(a, v, inCollection, data, p);
    }
  }

  lemma PlainReadsBack(a: Attr, v: Value, inCollection: bool, data: seq<byte>, p: nat)
    requires !a.TypedAttr? && !v.Null? && IsValue(a, v, inCollection) && Holds(data, p, EncValue(a, v, inCollection))
    ensures ValueAt(a, inCollection, data, p) == At(v, p + |EncValue(a, v, inCollection)|)
  {
    match a
    case ScalarAttr => BytesReadBack(data, p, v.raw);
    case LobAttr => BytesReadBack(data, p, v.locator);
    case XmlAttr =>
      var text, flag := if v.Xml? then v.text else v.locator, if v.Xml? then 4 else 1;
      XmlReadsBack(text, flag);
      BytesReadBack(data, p, EncXml(text, flag));
  }

  lemma {:induction false} TypedReadsBack(a: Attr, v: Value, inCollection: bool, data: seq<byte>, p: nat)
    requires a.TypedAttr? && !v.Null? && IsValue(a, v, inCollection) && Holds(data, p, EncValue(a, v, inCollection))
    ensures Recovers(Clear(a, v, inCollection), ValueAt(a, inCollection, data, p), v, p + |EncValue(a, v, inCollection)|)
    decreases a, 0
  {
    if Packed(a.t, inCollection) {
      ImageReadsBack(a.t, v);
      BytesReadBack(data, p, EncImage(a.t, v));
    } else {
      FirstByte(a.t, v);
      HeadByte(data, p, EncBody(a.t, v));
      BodyReadsBack(a.t, v, data, p);
    }
  }

  /** The main result for a whole image: it is recovered, to its last byte, exactly when no inline object is ambiguous. */
  lemma {:induction false} ImageReadsBack(t: Type, v: Value)
    requires IsBody(t, v) && |EncImage(t, v)| < TWO32
    ensures Recovers(ClearBody(t, v), Image(t, EncImage(t, v)), v, |EncImage(t, v)|)
    ensures EncImage(t, v) != []
    decreases t, 2
  {
    var image, body := EncImage(t, v), EncBody(t, v);
    HeaderReadsBack(t, body);
    var n := |EncHeader(t, |body|)|;
    assert image[n..n + |body|] == body;
    BodyReadsBack(t, v, image, n);
  }

  lemma {:induction false} BodyReadsBack(t: Type, v: Value, data: seq<byte>, p: nat)
    requires IsBody(t, v) && Holds(data, p, EncBody(t, v))
    ensures Recovers(ClearBody(t, v), Body(t, data, p), v, p + |EncBody(t, v)|)
    decreases t, 1
  {
    match t
    case Object(attrs) =>
      FieldsReadBack(attrs, v.fields, |attrs|, data, p);
      assert v.fields[..|attrs|] == v.fields;
    case Collection(indexed, elem) =>
      CollectionReadsBack(t, v, data, p);
  }

  lemma {:induction false} CollectionReadsBack(t: Type, v: Value, data: seq<byte>, p: nat)
    requires t.Collection? && IsBody(t, v) && Holds(data, p, EncBody(t, v))
    ensures Recovers(ClearBody(t, v), Body(t, data, p), v, p + |EncBody(t, v)|)
    decreases t, 0
  {
    hide FromBE, U, BE, ElementsTo, EncElements, EncLength, IsValue, ClearElements, Length;
    var n := |v.elems|;
    var size, elems := EncLength(n), EncElements(t.indexed, t.elem, v.indexes, v.elems, n);
    HoldsBoth(data, p, [0] + size, elems);
    HoldsBoth(data, p, [0], size);
    LengthReadsBack(data, p + 1, n);
    ElementsReadBack(t.indexed, t.elem, v.indexes, v.elems, n, data, p + 1 + |size|);
    assert v.elems[..n] == v.elems && v.indexes[..|v.indexes|] == v.indexes;
  }

  lemma {:induction false} FieldsReadBack(attrs: seq<Attr>, fields: seq<Value>, i: nat, data: seq<byte>, p: nat)
    requires i <= |attrs| == |fields| && (forall k :: 0 <= k < |attrs| ==> IsValue(attrs[k], fields[k], false))
    requires Holds(data, p, EncFields(attrs, fields, i))
    ensures Recovers(ClearFields(attrs, fields, i), FieldsTo(attrs, i, data, p), fields[..i], p + |EncFields(attrs, fields, i)|)
    decreases attrs, i
  {
    hide ValueAt, EncValue, IsValue, Clear, Holds;
    if i > 0 {
      var before := EncFields(attrs, fields, i - 1);
      HoldsBoth(data, p, before, EncValue(attrs[i - 1], fields[i - 1], false));
      FieldsReadBack(attrs, fields, i - 1, data, p);
      ValueReadsBack(attrs[i - 1], fields[i - 1], false, data, p + |before|);
      SnocEqual(fields, i);
    }
  }

  lemma SnocEqual<T>(s: seq<T>, i: nat)
    requires 0 < i <= |s|
    ensures s[..i] == s[..i - 1] + [s[i - 1]]
    ensures forall a: seq<T>, x: T :: a + [x] == s[..i] ==> a == s[..i - 1] && x == s[i - 1]
  {
    forall a: seq<T>, x: T | a + [x] == s[..i]
      ensures a == s[..i - 1] && x == s[i - 1]
    {
      assert (a + [x])[..|a|] == a && (a + [x])[|a|] == x;
    }
  }

  /** What the first i elements leave in the two lists. */
  function FirstEntries(indexed: bool, indexes: seq<int>, elems: seq<Value>, i: nat): (seq<int>, seq<Value>)
    requires i <= |elems| && |indexes| == (if indexed then |elems| else 0)
  {
    (if indexed then indexes[..i] else [], elems[..i])
  }

  /** One more entry completes the lists only if both it and the entries before are right. */
  lemma EntryEqual(indexed: bool, indexes: seq<int>, elems: seq<Value>, i: nat, r: (seq<int>, seq<Value>), index: seq<int>, v: Value)
    requires 0 < i <= |elems| && |indexes| == (if indexed then |elems| else 0)
    requires |index| == if indexed then 1 else 0
    ensures (r.0 + index, r.1 + [v]) == FirstEntries(indexed, indexes, elems, i)
            <==> r == FirstEntries(indexed, indexes, elems, i - 1) && v == elems[i - 1]
                 && (indexed ==> index == [indexes[i - 1]])
  {
    SnocEqual(elems, i);
    if indexed {
      assert index == [index[0]];
      SnocEqual(indexes, i);
    } else {
      assert r.0 + index == r.0;
    }
    assert r == (r.0, r.1);
  }

  lemma {:induction false} ElementsReadBack(indexed: bool, elem: Attr, indexes: seq<int>, elems: seq<Value>, i: nat, data: seq<byte>, p: nat)
    requires i <= |elems| && |indexes| == (if indexed then |elems| else 0)
    requires forall k :: 0 <= k < |indexes| ==> -0x8000_0000 <= indexes[k] < 0x8000_0000
    requires forall k :: 0 <= k < |elems| ==> IsValue(elem, elems[k], true)
    requires Holds(data, p, EncElements(indexed, elem, indexes, elems, i))
    ensures Recovers(ClearElements(elem, elems, i), ElementsTo(indexed, elem, i, data, p),
                     FirstEntries(indexed, indexes, elems, i), p + |EncElements(indexed, elem, indexes, elems, i)|)
    decreases elem, 2, i
  {
    hide FromBE, U, BE, ValueAt, EncValue, IndexAt, EncIndex, IsValue, Clear;
    if i > 0 {
      var before, index := EncElements(indexed, elem, indexes, elems, i - 1), EncIndex(indexed, indexes, i - 1);
      var value := EncValue(elem, elems[i - 1], true);
      HoldsBoth(data, p, before, index + value);
      HoldsBoth(data, p + |before|, index, value);
      ElementsReadBack(indexed, elem, indexes, elems, i - 1, data, p);
      IndexReadsBack(indexed, indexes, i - 1, data, p + |before|);
      ValueReadsBack(elem, elems[i - 1], true, data, p + |before| + |index|);
      var g := ElementsTo(indexed, elem, i - 1, data, p);
      if g.At? && IndexAt(indexed, data, g.end).At? {
        var next := IndexAt(indexed, data, g.end);
        var w := ValueAt(elem, true, data, next.end);
        if w.At? {
          EntryEqual(indexed, indexes, elems, i, g.value, next.value, w.value);
        }
      }
    }
  }

  /** What becomes of an ambiguous inline object: it is read as a null one, a single byte long. */
  lemma AmbiguousReadsAsNull(t: Type, v: Value, data: seq<byte>, p: nat)
    requires t.Object? && IsBody(t, v) && Holds(data, p, EncBody(t, v))
    ensures ValueAt(TypedAttr(t), false, data, p) == At(Null, p + 1) <==> StartsNull(t, v)
  {
    FirstByte(t, v);
    HeadByte(data, p, EncBody(t, v));
  }

  /** An object holding an object whose only attribute is a null object comes back as holding a null one. */
  lemma NullInsideReadsAsNull()
    ensures var inner := Object([TypedAttr(Object([ScalarAttr]))]);
            var t, v := Object([TypedAttr(inner)]), Fields([Fields([Null])]);
            IsBody(t, v) && Image(t, EncImage(t, v)).At? && Image(t, EncImage(t, v)).value == Fields([Null])
  {
    var inner := Object([TypedAttr(Object([ScalarAttr]))]);
    var t, v := Object([TypedAttr(inner)]), Fields([Fields([Null])]);
    FirstByte(t, v);
    var image, body := EncImage(t, v), EncBody(t, v);
    assert |body| < 100 by {
      assert EncFields(t.attrs, v.fields, 1) == EncFields(t.attrs, v.fields, 0) + EncValue(t.attrs[0], v.fields[0], false);
      assert EncFields(inner.attrs, [Null], 1) == EncFields(inner.attrs, [Null], 0) + EncValue(inner.attrs[0], Null, false);
    }
    HeaderReadsBack(t, body);
    var n := |EncHeader(t, |body|)|;
    assert image[n] == ATOMIC_NULL;
    assert FieldsTo(t.attrs, 0, image, n) == At([], n);
    assert ValueAt(t.attrs[0], false, image, n) == At(Null, n + 1);
    assert [] + [Null] == [Null];
    assert FieldsTo(t.attrs, 1, image, n) == At([Null], n + 1);
  }

  // ---- images, byte by byte ----

  /** Lengths up to 245 take one byte, others 254 and four bytes. */
  lemma LengthForm(n: nat)
    requires n < TWO32
    ensures n <= 245 ==> EncLength(n) == [n]
    ensures n > 245 ==> EncLength(n) == [254, n / 0x100_0000, n / 0x1_0000 % 0x100, n / 0x100 % 0x100, n % 0x100]
  {
    hide BE;
    BE4Bytes(n);
  }

  const NAMED: Type := Object([ScalarAttr, TypedAttr(Object([ScalarAttr]))])
  const LISTED: Type := Collection(true, ScalarAttr)

  /** An object of a scalar and a null object: the header, c1 02 behind its length, and 253. */
  lemma KnownObjectImage()
    ensures Image(NAMED, [0x84, 1, 254, 0, 0, 0, 11, 2, 0xc1, 0x02, 253]) == At(Fields([Scalar([0xc1, 0x02]), Null]), 11)
  {
    var data: seq<byte> := [0x84, 1, 254, 0, 0, 0, 11, 2, 0xc1, 0x02, 253];
    var attrs := NAMED.attrs;
    assert data[3..7] == [0, 0, 0, 11];
    HeaderRead(data, 11);
    assert HeaderEnd(data) == Some(7);
    assert data[8..10] == [0xc1, 0x02];
    assert ValueAt(attrs[0], false, data, 7) == At(Scalar([0xc1, 0x02]), 10);
    assert ValueAt(attrs[1], false, data, 10) == At(Null, 11);
    assert FieldsTo(attrs, 0, data, 7) == At([], 7);
    assert [] + [Scalar([0xc1, 0x02])] == [Scalar([0xc1, 0x02])];
    assert FieldsTo(attrs, 1, data, 7) == At([Scalar([0xc1, 0x02])], 10);
    assert [Scalar([0xc1, 0x02])] + [Null] == [Scalar([0xc1, 0x02]), Null];
    assert FieldsTo(attrs, 2, data, 7) == At([Scalar([0xc1, 0x02]), Null], 11);
  }

  lemma HeaderRead(data: seq<byte>, n: nat)
    requires |data| >= 7 && n < 256 && data[2] == 254 && data[3..7] == [0, 0, 0, n]
    ensures Length(data, 2) == At(n, 7)
  {
    hide FromBE, BE;
    BE4Bytes(n);
    assert BE(n, 4) == [0, 0, 0, n];
    assert Pow256(4) == TWO32 by { assert Pow256(3) == 0x100_0000; }
    BERoundTrip(n, 4);
  }

  /** An index table of one element, which is null: a prefix of one byte, flags, the count, index -1 and 255. */
  lemma KnownTableImage()
    ensures Image(LISTED, [0x88, 1, 254, 0, 0, 0, 16, 1, 1, 0, 1, 255, 255, 255, 255, 255]) == At(Elements([-1], [Null]), 16)
  {
    hide FromBE, BE;
    var data: seq<byte> := [0x88, 1, 254, 0, 0, 0, 16, 1, 1, 0, 1, 255, 255, 255, 255, 255];
    assert data[3..7] == [0, 0, 0, 16];
    HeaderRead(data, 16);
    assert HeaderEnd(data) == Some(9);
    assert Length(data, 10) == At(1, 11);
    BE4Bytes(0xffff_ffff);
    assert Pow256(4) == TWO32 by { assert Pow256(3) == 0x100_0000; }
    BERoundTrip(0xffff_ffff, 4);
    assert data[11..15] == BE(0xffff_ffff, 4);
    assert IndexAt(true, data, 11) == At([-1], 15);
    assert ValueAt(ScalarAttr, true, data, 15) == At(Null, 16);
    assert ElementsTo(true, ScalarAttr, 0, data, 11) == At(([], []), 11);
    assert [] + [-1] == [-1] && [] + [Null] == [Null];
    assert ElementsTo(true, ScalarAttr, 1, data, 11) == At(([-1], [Null]), 16);
  }

  lemma FlagRead(data: seq<byte>, flag: nat)
    requires |data| >= 12 && flag < TWO32 && data[8..12] == [flag / 0x100_0000, flag / 0x1_0000 % 0x100, flag / 0x100 % 0x100, flag % 0x100]
    ensures U(data, 8, 4) == Some(flag)
  {
    hide FromBE, BE;
    BE4Bytes(flag);
    assert Pow256(4) == TWO32 by { assert Pow256(3) == 0x100_0000; }
    BERoundTrip(flag, 4);
    assert data[8..12] == BE(flag, 4);
  }

  /** An XML image: behind the header a byte and a flag. 4 says text, 1 a locator; 0x100000 that four more bytes come first. */
  lemma KnownXmlImages(text: seq<byte>)
    ensures XmlImage([0x84, 1, 254, 0, 0, 0, 14, 1, 0, 0, 0, 4] + text) == Some(Xml(text))
    ensures XmlImage([0x84, 1, 254, 0, 0, 0, 14, 1, 0, 0, 0, 1] + text) == Some(Lob(text))
    ensures XmlImage([0x84, 1, 254, 0, 0, 0, 14, 1, 0, 0x10, 0, 4] + ([9, 9, 9, 9] + text)) == Some(Xml(text))
    ensures XmlImage([0x84, 1, 254, 0, 0, 0, 14, 1, 0, 0, 0, 2] + text) == None
  {
    hide U;
    XmlBehind([0x84, 1, 254, 0, 0, 0, 14, 1, 0, 0, 0, 4], 4, text);
    XmlBehind([0x84, 1, 254, 0, 0, 0, 14, 1, 0, 0, 0, 1], 1, text);
    XmlBehind([0x84, 1, 254, 0, 0, 0, 14, 1, 0, 0, 0, 2], 2, text);
    XmlBehind([0x84, 1, 254, 0, 0, 0, 14, 1, 0, 0x10, 0, 4], 0x10_0004, [9, 9, 9, 9] + text);
    var data: seq<byte> := [0x84, 1, 254, 0, 0, 0, 14, 1, 0, 0x10, 0, 4] + ([9, 9, 9, 9] + text);
    assert data[16..] == text;
  }

  lemma XmlBehind(front: seq<byte>, flag: nat, text: seq<byte>)
    requires |front| == 12 && front[..8] == [0x84, 1, 254, 0, 0, 0, 14, 1] && flag < TWO32
    requires front[8..] == [flag / 0x100_0000, flag / 0x1_0000 % 0x100, flag / 0x100 % 0x100, flag % 0x100]
    ensures var data := front + text;
            HeaderEnd(data) == Some(7) && U(data, 8, 4) == Some(flag) && data[12..] == text
  {
    hide U;
    var data := front + text;
    assert data[..8] == front[..8] && data[8..12] == front[8..];
    assert data[2] == front[..8][2] && data[0] == front[..8][0];
    assert data[3..7] == front[..8][3..7] == [0, 0, 0, 14];
    HeaderRead(data, 14);
    FlagRead(data, flag);
  }
}
