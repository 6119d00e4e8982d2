// What the decoder writes is JSON: a reader of JSON texts gets exactly the document back.
module OsonJson {
  import opened Bytes
  import opened Oson
  import opened JsonReader
  import NumberText
  import NumberWire
  import OsonDecoder
  import OsonPaths
  import JsonText

  // ---- the value of a document ----

  /** The bytes of a number in range, as it is encoded. */
  predicate IsWire(w: seq<byte>, n: NumberText.Num) {
    NumberText.Canonical(n) && NumberWire.Representable(n) && !NumberWire.TooWide(n) && w == NumberWire.Wire(n)
  }

  /** The number bytes stand for: a single byte is zero, or below 128 the lowest number; other bytes may print as anything. */
  ghost predicate NumberIs(w: seq<byte>, v: Value) {
    if |w| == 1 then v == VNumber(if w[0] >= 128 then 0.0 else -NumberText.Power10(126))
    else if exists n :: IsWire(w, n) then exists n :: IsWire(w, n) && v == VNumber(NumberText.NumValue(n))
    else NumberBytes(w).Doc? && Renders(NumberBytes(w).doc, v)
  }

  /** Two lower-case digits for each byte, the high half first. */
  predicate Spells(bs: seq<byte>, hex: seq<byte>) {
    |hex| == 2 * |bs| && forall k :: 0 <= k < |bs| ==>
      hex[2 * k] == "0123456789abcdef"[bs[k] / 16] as int && hex[2 * k + 1] == "0123456789abcdef"[bs[k] % 16] as int
  }

  /** The value of a document: members one by one, in stored order, under their own names. */
  ghost predicate Means(r: Render, doc: Json, v: Value)
    decreases doc
  {
    match doc
    case Null => v == VNull
    case True => v == VBool(true)
    case False => v == VBool(false)
    case Str(bs) => v == VString(bs)
    case Number(w) => NumberIs(w, v)
    case Hex(bs) => v.VString? && Spells(bs, v.bs)
    case Leaf(tag, raw) => r(tag, raw).Some? && Renders(r(tag, raw).value, v)
    case Container(isObject, ms) =>
      if isObject then
        v.VObject? && |v.members| == |ms|
        && forall k :: 0 <= k < |ms| ==> v.members[k].0 == ms[k].name && Means(r, ms[k].value, v.members[k].1)
      else v.VArray? && |v.items| == |ms| && forall k :: 0 <= k < |ms| ==> Means(r, ms[k].value, v.items[k])
  }

  // ---- scalars ----

  lemma {:induction false} AsBytesIsWord(s: string)
    requires forall k :: 0 <= k < |s| ==> s[k] as int < 256
    ensures AsBytes(s) == Word(s)
  {
  }

  lemma PlainIsNumber(n: NumberText.Num)
    requires NumberText.Canonical(n)
    ensures var s := NumberText.Plain(n);
            s != "" && NumberText.Parse(s).Some? && JsonNumber(s, NumberText.Parse(s).value)
            && NumberText.LiteralValue(NumberText.Parse(s).value) == NumberText.NumValue(n)
            && forall k :: 0 <= k < |s| ==> s[k] as int < 256 && InNumber(s[k] as int)
  {
    hide NumberText.Parse, NumberText.Normalize, NumberText.LiteralValue, NumberText.NumValue, NumberText.Scale;
    var sp := NumberText.PlainSpelling(n);
    NumberText.ParseSpells(sp);
    NumberText.PlainParsesBack(n);
    NumberText.NormalizeKeepsValue(NumberText.LiteralOf(sp));
    NumberText.PlainHasNoRedundantZeros(n);
    PlainChars(n);
  }

  /** Plain text is digits, at most one minus sign in front, and a point only before a fraction. */
  lemma PlainChars(n: NumberText.Num)
    requires NumberText.Canonical(n)
    ensures var s := NumberText.Plain(n);
            s != "" && s[0] != '+' && ('.' in s ==> NumberText.FracPart(n) != [])
            && forall k :: 0 <= k < |s| ==> s[k] as int < 256 && InNumber(s[k] as int)
  {
    hide NumberText.FracPart, NumberText.WholePart, NumberText.Chars;
    NumberText.PlainHasNoRedundantZeros(n);
    var w, f := NumberText.Chars(NumberText.WholePart(n)), NumberText.Chars(NumberText.FracPart(n));
    assert w != "" by { WholeIsThere(n); }
    var s, sign := NumberText.Plain(n), if n.neg then "-" else "";
    if NumberText.IsInteger(n) {
      assert s == sign + w;
    } else {
      assert s == sign + (w + ("." + f));
    }
  }

  lemma WholeIsThere(n: NumberText.Num)
    ensures NumberText.WholePart(n) != []
  {
  }

  lemma LowestNumber()
    ensures NumberText.Parse("-1e126") == Some(NumberText.Literal(true, [1], [], false, [1, 2, 6]))
    ensures NumberText.LiteralValue(NumberText.Literal(true, [1], [], false, [1, 2, 6])) == -NumberText.Power10(126)
  {
    hide NumberText.Scale, NumberText.Parse;
    var sp := NumberText.Spelling("-", [1], false, [], "e", "", [1, 2, 6]);
    assert NumberText.Spell(sp) == "-1e126";
    NumberText.ParseSpells(sp);
    LowestValue();
  }

  lemma LowestValue()
    ensures NumberText.LiteralValue(NumberText.Literal(true, [1], [], false, [1, 2, 6])) == -NumberText.Power10(126)
  {
    hide NumberText.Scale, NumberText.Power10;
    var one: seq<NumberText.digit>, two: seq<NumberText.digit>, exp: seq<NumberText.digit> := [1], [1, 2], [1, 2, 6];
    assert one[..0] == [] && two[..1] == one && exp[..2] == two;
    assert NumberText.Horner(one) == 1;
    assert NumberText.Horner(two) == 12;
    assert NumberText.Horner(exp) == 126;
    assert one + [] == one;
    NumberText.ScaleIsPower(1.0, 126);
  }

  lemma ScalarReads(r: Render, doc: Json, v: Value, rest: seq<byte>)
    requires !doc.Container? && Means(r, doc, v) && Ends(rest)
    ensures ReadValue(Text(r, doc) + rest) == Some((v, rest))
  {
    hide ReadValue;
    match doc
    case Null =>
      NameReads("null", rest);
      assert NULL_TEXT == Word("null");
    case True =>
      NameReads("true", rest);
      assert TRUE_TEXT == Word("true");
    case False =>
      NameReads("false", rest);
      assert FALSE_TEXT == Word("false");
    case Str(bs) => StringReads(bs, rest);
    case Number(w) => NumberTextReads(w, v, rest);
    case Hex(bs) => HexReads(bs, v, rest);
    case Leaf(tag, raw) =>
  }

  lemma NumberTextReads(w: seq<byte>, v: Value, rest: seq<byte>)
    requires NumberIs(w, v) && Ends(rest)
    ensures NumberBytes(w).Doc? && ReadValue(NumberBytes(w).doc + rest) == Some((v, rest))
  {
    hide ReadValue, NumberWire.Decode, NumberText.Parse, NumberText.Plain, NumberText.NumValue, NumberText.LiteralValue;
    if |w| == 1 {
      OneByte(w);
      if w[0] >= 128 {
        NumberWire.ZeroParses();
        ZeroIsZero();
        NumberReads("0", rest);
        AsBytesIsWord("0");
      } else {
        LowestNumber();
        NumberReads("-1e126", rest);
        assert MAX_NEGATIVE_TEXT == Word("-1e126");
      }
    } else if exists n :: IsWire(w, n) {
      var n :| IsWire(w, n) && v == VNumber(NumberText.NumValue(n));
      NumberWire.DecodeWire(n);
      PlainIsNumber(n);
      AsBytesIsWord(NumberText.Plain(n));
      NumberReads(NumberText.Plain(n), rest);
    }
  }

  lemma OneByte(w: seq<byte>)
    requires |w| == 1
    ensures NumberBytes(w) == Doc(if w[0] >= 128 then AsBytes("0") else MAX_NEGATIVE_TEXT)
  {
  }

  lemma ZeroIsZero()
    ensures NumberText.LiteralValue(NumberText.Literal(false, [0], [], false, [])) == 0.0
  {
    assert [0] + [] == [0];
    assert NumberText.Horner([0]) == 0;
  }

  lemma {:induction false} HexDigitsAt(bs: seq<byte>, k: nat)
    requires k < |bs|
    ensures |HexDigits(bs)| == 2 * |bs|
    ensures HexDigits(bs)[2 * k] == "0123456789abcdef"[bs[k] / 16] as int
    ensures HexDigits(bs)[2 * k + 1] == "0123456789abcdef"[bs[k] % 16] as int
  {
    var n := |bs| - 1;
    if n > 0 { HexDigitsAt(bs[..n], if k < n then k else 0); }
    HexDigitIs(bs[n] / 16);
    HexDigitIs(bs[n] % 16);
  }

  lemma HexDigitIs(d: int)
    requires 0 <= d < 16
    ensures JsonText.HexDigit(d) == "0123456789abcdef"[d] as int && JsonText.Plain(JsonText.HexDigit(d))
  {
  }

  lemma {:induction false} HexIsPlain(bs: seq<byte>)
    ensures forall k :: 0 <= k < |HexDigits(bs)| ==> JsonText.Plain(HexDigits(bs)[k])
  {
    if bs != [] {
      HexIsPlain(bs[..|bs| - 1]);
      HexDigitIs(bs[|bs| - 1] / 16);
      HexDigitIs(bs[|bs| - 1] % 16);
    }
  }

  lemma HexReads(bs: seq<byte>, v: Value, rest: seq<byte>)
    requires v.VString? && Spells(bs, v.bs)
    ensures ReadValue([JsonText.QUOTE] + HexDigits(bs) + [JsonText.QUOTE] + rest) == Some((v, rest))
  {
    hide ReadValue, HexDigits, JsonText.Escaped;
    SpellsOnly(bs, v.bs);
    HexIsPlain(bs);
    JsonText.PlainEscapesToItself(v.bs);
    StringReads(v.bs, rest);
  }

  lemma SpellsOnly(bs: seq<byte>, hex: seq<byte>)
    requires Spells(bs, hex)
    ensures hex == HexDigits(bs)
  {
    hide HexDigits;
    if bs == [] {
      NoHex();
    } else {
      HexDigitsAt(bs, 0);
      forall i | 0 <= i < |hex|
        ensures hex[i] == HexDigits(bs)[i]
      {
        HexDigitsAt(bs, i / 2);
        assert i == 2 * (i / 2) || i == 2 * (i / 2) + 1;
      }
    }
  }

  lemma NoHex()
    ensures HexDigits([]) == []
  {
  }

  // ---- containers ----

  /** The members from i on, as they are written. */
  function TailText(r: Render, isObject: bool, ms: seq<Member>, i: nat): seq<byte>
    requires i <= |ms|
    decreases |ms| - i
  {
    if i == |ms| then [] else Separator(i) + (NamePart(isObject, ms[i].name) + Text(r, ms[i].value)) + TailText(r, isObject, ms, i + 1)
  }

  lemma {:induction false} MembersTail(r: Render, isObject: bool, ms: seq<Member>, i: nat)
    requires i <= |ms|
    ensures MembersText(r, isObject, ms) == MembersText(r, isObject, ms[..i]) + TailText(r, isObject, ms, i)
    decreases |ms| - i
  {
    hide Text, NamePart, Separator;
    if i == |ms| {
      assert ms[..i] == ms;
    } else {
      MembersTail(r, isObject, ms, i + 1);
      assert ms[..i + 1][..i] == ms[..i];
      var item := NamePart(isObject, ms[i].name) + Text(r, ms[i].value);
      assert Separator(i) + NamePart(isObject, ms[i].name) + Text(r, ms[i].value) == Separator(i) + item;
      Associate(MembersText(r, isObject, ms[..i]), Separator(i) + item, TailText(r, isObject, ms, i + 1));
    }
  }

  lemma MembersAreTail(r: Render, isObject: bool, ms: seq<Member>)
    ensures MembersText(r, isObject, ms) == TailText(r, isObject, ms, 0)
  {
    MembersTail(r, isObject, ms, 0);
    assert ms[..0] == [];
  }

  /** Behind a member comes a comma, or the closing bracket. */
  lemma TailStarts(r: Render, isObject: bool, ms: seq<Member>, i: nat, rest: seq<byte>)
    requires 0 < i <= |ms|
    ensures var t := TailText(r, isObject, ms, i) + ([Close(isObject)] + rest);
            Ends(t) && Skip(t) == t && t != []
            && (if i == |ms| then t[0] == Close(isObject) && t[1..] == rest
                else t[0] == ',' as int && t[1..] == ItemText(r, isObject, ms, i, rest))
  {
    hide Text, NamePart;
    var t := TailText(r, isObject, ms, i) + ([Close(isObject)] + rest);
    if i == |ms| {
      assert t == [Close(isObject)] + rest;
    } else {
      assert t == [COMMA] + ItemText(r, isObject, ms, i, rest);
    }
    SkipNothing(t);
  }

  /** Member i without its separator, and everything behind it. */
  function ItemText(r: Render, isObject: bool, ms: seq<Member>, i: nat, rest: seq<byte>): seq<byte>
    requires i < |ms|
  {
    NamePart(isObject, ms[i].name) + (Text(r, ms[i].value) + (TailText(r, isObject, ms, i + 1) + ([Close(isObject)] + rest)))
  }

  lemma {:induction false} ItemsRead(r: Render, ms: seq<Member>, vs: seq<Value>, i: nat, rest: seq<byte>)
    requires i < |ms| == |vs| && forall k :: 0 <= k < |ms| ==> Means(r, ms[k].value, vs[k])
    ensures ReadItems(ItemText(r, false, ms, i, rest)) == Some((vs[i..], rest))
    decreases ms, |ms| - i
  {
    hide Text, Means, ReadValue, TailText, Skip;
    var t := TailText(r, false, ms, i + 1) + ([Close(false)] + rest);
    TailStarts(r, false, ms, i + 1, rest);
    DocReads(r, ms[i].value, vs[i], t);
    assert ItemText(r, false, ms, i, rest) == Text(r, ms[i].value) + t;
    if i + 1 == |ms| {
      assert vs[i..] == [vs[i]];
    } else {
      ItemsRead(r, ms, vs, i + 1, rest);
      assert vs[i..] == [vs[i]] + vs[i + 1..];
    }
  }

  lemma MemberReads(r: Render, m: Member, v: Value, t: seq<byte>)
    requires Means(r, m.value, v) && Ends(t)
    ensures ReadEntry(NamePart(true, m.name) + (Text(r, m.value) + t)) == Some(((m.name, v), t))
    decreases m
  {
    hide Text, Means, ReadValue, JsonText.ReadString, JsonText.Escaped;
    var s := NamePart(true, m.name) + (Text(r, m.value) + t);
    var u := [COLON] + (Text(r, m.value) + t);
    assert s == JsonText.Literal(m.name) + u;
    SkipNothing(s);
    JsonText.LiteralReadsBack(m.name, u);
    SkipNothing(u);
    assert u[1..] == Text(r, m.value) + t;
    DocReads(r, m.value, v, t);
  }

  lemma {:induction false} MembersRead(r: Render, ms: seq<Member>, vs: seq<(seq<byte>, Value)>, i: nat, rest: seq<byte>)
    requires i < |ms| == |vs| && forall k :: 0 <= k < |ms| ==> vs[k].0 == ms[k].name && Means(r, ms[k].value, vs[k].1)
    ensures ReadEntries(ItemText(r, true, ms, i, rest)) == Some((vs[i..], rest))
    decreases ms, |ms| - i
  {
    hide Text, Means, ReadEntry, NamePart, TailText, Skip;
    var t := TailText(r, true, ms, i + 1) + ([Close(true)] + rest);
    TailStarts(r, true, ms, i + 1, rest);
    MemberReads(r, ms[i], vs[i].1, t);
    assert vs[i] == (ms[i].name, vs[i].1);
    if i + 1 == |ms| {
      assert vs[i..] == [vs[i]];
    } else {
      MembersRead(r, ms, vs, i + 1, rest);
      assert vs[i..] == [vs[i]] + vs[i + 1..];
    }
  }

  lemma ContainerText(r: Render, doc: Json, rest: seq<byte>)
    requires doc.Container?
    ensures var ms := doc.members;
            Text(r, doc) + rest == [Open(doc.isObject)]
              + if ms == [] then [Close(doc.isObject)] + rest else ItemText(r, doc.isObject, ms, 0, rest)
  {
    hide MembersText, NamePart, TailText, Text;
    var ms, o, c := doc.members, [Open(doc.isObject)], [Close(doc.isObject)];
    var inner := MembersText(r, doc.isObject, ms);
    assert Text(r, doc) == o + inner + c by { TextIsBracketed(r, doc); }
    assert o + inner + c + rest == o + (inner + (c + rest));
    MembersAreTail(r, doc.isObject, ms);
    if ms == [] {
      NoTail(r, doc.isObject, ms);
      assert inner + (c + rest) == c + rest;
    } else {
      FirstItem(r, doc.isObject, ms, c + rest);
    }
  }

  lemma TextIsBracketed(r: Render, doc: Json)
    requires doc.Container?
    ensures Text(r, doc) == [Open(doc.isObject)] + MembersText(r, doc.isObject, doc.members) + [Close(doc.isObject)]
  {
  }

  lemma NoTail(r: Render, isObject: bool, ms: seq<Member>)
    ensures TailText(r, isObject, ms, |ms|) == []
  {
  }

  lemma FirstItem(r: Render, isObject: bool, ms: seq<Member>, end: seq<byte>)
    requires ms != []
    ensures TailText(r, isObject, ms, 0) + end
         == NamePart(isObject, ms[0].name) + (Text(r, ms[0].value) + (TailText(r, isObject, ms, 1) + end))
  {
    hide NamePart, Text;
    var name, text, tail := NamePart(isObject, ms[0].name), Text(r, ms[0].value), TailText(r, isObject, ms, 1);
    assert TailText(r, isObject, ms, 0) == Separator(0) + (name + text) + tail;
    assert Separator(0) + (name + text) + tail + end == name + (text + (tail + end));
  }

  /**
    * The text of every document reads back as the document's value, and nothing behind it is touched: literals, strings,
    * numbers by value, hexadecimal digits, and members in their order.
    */
  lemma DocReads(r: Render, doc: Json, v: Value, rest: seq<byte>)
    requires Means(r, doc, v) && Ends(rest)
    ensures ReadValue(Text(r, doc) + rest) == Some((v, rest))
    decreases doc
  {
    if !doc.Container? {
      ScalarReads(r, doc, v, rest);
    } else if doc.isObject {
      ObjectReads(r, doc, v, rest);
    } else {
      ArrayReads(r, doc, v, rest);
    }
  }

  lemma ArrayReads(r: Render, doc: Json, v: Value, rest: seq<byte>)
    requires doc.Container? && !doc.isObject && Means(r, doc, v)
    ensures ReadValue(Text(r, doc) + rest) == Some((v, rest))
    decreases doc, 0
  {
    hide Text, ReadItems, ItemText;
    var ms, s := doc.members, Text(r, doc) + rest;
    ContainerText(r, doc, rest);
    SkipNothing(s);
    if ms == [] {
      SkipNothing([Close(false)] + rest);
      assert s[1..] == [Close(false)] + rest;
    } else {
      ItemsRead(r, ms, v.items, 0, rest);
      assert s[1..] == ItemText(r, false, ms, 0, rest);
      ItemsStart(s[1..]);
      assert v.items[0..] == v.items;
    }
  }

  lemma ItemsStart(s: seq<byte>)
    requires ReadItems(s).Some?
    ensures Skip(s) != [] && Skip(s)[0] != ']' as int
  {
    ValueStarts(s);
  }

  lemma MembersStart(s: seq<byte>)
    requires ReadEntries(s).Some?
    ensures Skip(s) != [] && Skip(s)[0] != '}' as int
  {
  }

  lemma ObjectReads(r: Render, doc: Json, v: Value, rest: seq<byte>)
    requires doc.Container? && doc.isObject && Means(r, doc, v)
    ensures ReadValue(Text(r, doc) + rest) == Some((v, rest))
    decreases doc, 0
  {
    hide Text, ReadEntries, ItemText;
    var ms, s := doc.members, Text(r, doc) + rest;
    ContainerText(r, doc, rest);
    SkipNothing(s);
    if ms == [] {
      SkipNothing([Close(true)] + rest);
      assert s[1..] == [Close(true)] + rest;
    } else {
      MembersRead(r, ms, v.members, 0, rest);
      assert s[1..] == ItemText(r, true, ms, 0, rest);
      MembersStart(s[1..]);
      assert v.members[0..] == v.members;
    }
  }

  // ---- from bytes to value ----

  /** Numbers and other scalars print as JSON values. */
  ghost predicate Readable(r: Render, doc: Json)
    decreases doc
  {
    match doc
    case Number(w) => exists v :: NumberIs(w, v)
    case Leaf(tag, raw) => r(tag, raw).Some? && exists v :: Renders(r(tag, raw).value, v)
    case Container(_, ms) => forall k :: 0 <= k < |ms| ==> Readable(r, ms[k].value)
    case _ => true
  }

  /** Such a document has a value (and, by OneValue, only one). */
  lemma {:induction false} HasValue(r: Render, doc: Json) returns (v: Value)
    requires Readable(r, doc)
    ensures Means(r, doc, v)
    decreases doc
  {
    hide Renders, NumberIs;
    match doc
    case Null => v := VNull;
    case True => v := VBool(true);
    case False => v := VBool(false);
    case Str(bs) => v := VString(bs);
    case Number(w) => v :| NumberIs(w, v);
    case Hex(bs) =>
      v := VString(HexDigits(bs));
      HexSpells(bs);
    case Leaf(tag, raw) => v :| Renders(r(tag, raw).value, v);
    case Container(isObject, ms) =>
      var vs := HaveValues(r, ms, |ms|);
      v := if isObject then VObject(seq(|ms|, k requires 0 <= k < |ms| => (ms[k].name, vs[k]))) else VArray(vs);
  }

  lemma OneValue(r: Render, doc: Json, v: Value, w: Value)
    requires Means(r, doc, v) && Means(r, doc, w)
    ensures v == w
  {
    hide Means, Text, ReadValue;
    DocReads(r, doc, v, []);
    DocReads(r, doc, w, []);
  }

  lemma HexSpells(bs: seq<byte>)
    ensures Spells(bs, HexDigits(bs))
  {
    hide HexDigits;
    if bs == [] { NoHex(); } else { HexDigitsAt(bs, 0); }
    forall k | 0 <= k < |bs|
      ensures HexDigits(bs)[2 * k] == "0123456789abcdef"[bs[k] / 16] as int && HexDigits(bs)[2 * k + 1] == "0123456789abcdef"[bs[k] % 16] as int
    {
      HexDigitsAt(bs, k);
    }
  }

  lemma {:induction false} HaveValues(r: Render, ms: seq<Member>, n: nat) returns (vs: seq<Value>)
    requires n <= |ms| && forall k :: 0 <= k < |ms| ==> Readable(r, ms[k].value)
    ensures |vs| == n && forall k :: 0 <= k < n ==> Means(r, ms[k].value, vs[k])
    decreases ms, n
  {
    hide Readable, Means;
    if n == 0 {
      vs := [];
    } else {
      var front := HaveValues(r, ms, n - 1);
      var v := HasValue(r, ms[n - 1].value);
      vs := front + [v];
    }
  }

  /** Decoding the bytes of a document writes a text whose value, for any reader of JSON, is the document's. */
  lemma DecodedReads(r: Render, data: seq<byte>, doc: Json, v: Value)
    requires OsonDecoder.IsDocument(r, data, doc) && Means(r, doc, v)
    ensures OsonDecoder.TextIn(r, data).Doc? && ReadValue(OsonDecoder.TextIn(r, data).doc) == Some((v, []))
  {
    hide ReadValue, Means, Text, OsonDecoder.TextIn, OsonDecoder.IsDocument;
    OsonDecoder.OutcomeOf(r, data);
    DocReads(r, doc, v, []);
    assert Text(r, doc) + [] == Text(r, doc);
  }
}
