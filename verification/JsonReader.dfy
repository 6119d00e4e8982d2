// A reader of JSON texts (RFC 8259), for the texts that decoders write.
module JsonReader {
  import opened Bytes
  import NumberText
  import JsonText

  /** What a text means. Members keep their order; names and strings are byte strings. */
  datatype Value =
    | VNull
    | VBool(b: bool)
    | VNumber(x: real)
    | VString(bs: seq<byte>)
    | VArray(items: seq<Value>)
    | VObject(members: seq<(seq<byte>, Value)>)

  type Reading<T> = Option<(T, seq<byte>)>

  predicate IsSpace(c: byte) {
    c == 0x20 || c == 0x09 || c == 0x0a || c == 0x0d
  }

  /** Past insignificant whitespace (section 2). */
  function Skip(s: seq<byte>): (t: seq<byte>)
    ensures |t| <= |s|
  {
    if s != [] && IsSpace(s[0]) then Skip(s[1..]) else s
  }

  /** The bytes of an ASCII word. */
  function Word(w: string): (bs: seq<byte>)
    ensures |bs| == |w|
  {
    seq(|w|, k requires 0 <= k < |w| => w[k] as int % 256)
  }

  /** Section 3: the three literal names. */
  function ReadName(s: seq<byte>): (r: Reading<Value>)
    ensures r.Some? ==> |r.value.1| < |s|
  {
    if Word("null") <= s then Some((VNull, s[4..]))
    else if Word("true") <= s then Some((VBool(true), s[4..]))
    else if Word("false") <= s then Some((VBool(false), s[5..]))
    else None
  }

  // ---- numbers (section 6) ----

  /** A byte that can stand in a number. */
  predicate InNumber(c: byte) {
    0x30 <= c <= 0x39 || c == 0x2d || c == 0x2b || c == 0x2e || c == 0x65 || c == 0x45
  }

  function NumberRun(s: seq<byte>): (n: nat)
    ensures n <= |s|
    ensures forall k :: 0 <= k < n ==> InNumber(s[k])
    ensures n < |s| ==> !InNumber(s[n])
  {
    if s != [] && InNumber(s[0]) then 1 + NumberRun(s[1..]) else 0
  }

  function Ascii(bs: seq<byte>): (s: string)
    ensures |s| == |bs|
  {
    seq(|bs|, k requires 0 <= k < |bs| => bs[k] as char)
  }

  /** A spelling that JSON allows: no plus sign, a whole part without redundant zeros, digits behind a point. */
  predicate JsonNumber(s: string, lit: NumberText.Literal)
    requires s != ""
  {
    s[0] != '+' && lit.whole != [] && (|lit.whole| > 1 ==> lit.whole[0] != 0) && ('.' in s ==> lit.frac != [])
  }

  function ReadNumber(s: seq<byte>): (r: Reading<Value>)
    ensures r.Some? ==> |r.value.1| < |s|
  {
    var n := NumberRun(s);
    if n == 0 then None
    else
      var word := Ascii(s[..n]);
      match NumberText.Parse(word)
      case None => None
      case Some(lit) => if JsonNumber(word, lit) then Some((VNumber(NumberText.LiteralValue(lit)), s[n..])) else None
  }

  // ---- values (sections 3 to 5) ----

  lemma {:induction false} CharsEnd(acc: seq<byte>, s: seq<byte>)
    ensures var r := JsonText.ReadChars(acc, s); r.Some? ==> |r.value.1| < |s|
    decreases |s|
  {
    if s != [] && s[0] != JsonText.QUOTE {
      match JsonText.ReadChar(s)
      case None =>
      case Some((bs, rest)) => CharsEnd(acc + bs, rest);
    }
  }

  function ReadText(s: seq<byte>): (r: Reading<seq<byte>>)
    ensures r == JsonText.ReadString(s)
    ensures r.Some? ==> |r.value.1| < |s|
  {
    if s != [] then CharsEnd([], s[1..]); JsonText.ReadString(s) else None
  }

  /** One value, behind optional whitespace, and what follows it. */
  function ReadValue(s: seq<byte>): (r: Reading<Value>)
    ensures r.Some? ==> |r.value.1| < |s|
    decreases |s|, 0
  {
    var t := Skip(s);
    if t == [] then None
    else if t[0] == '\"' as int then
      match ReadText(t) case None => None case Some((bs, rest)) => Some((VString(bs), rest))
    else if t[0] == '[' as int then
      var u := Skip(t[1..]);
      if u != [] && u[0] == ']' as int then Some((VArray([]), u[1..]))
      else match ReadItems(t[1..]) case None => None case Some((items, rest)) => Some((VArray(items), rest))
    else if t[0] == '{' as int then
      var u := Skip(t[1..]);
      if u != [] && u[0] == '}' as int then Some((VObject([]), u[1..]))
      else match ReadEntries(t[1..]) case None => None case Some((members, rest)) => Some((VObject(members), rest))
    else if InNumber(t[0]) then ReadNumber(t)
    else ReadName(t)
  }

  /** Values separated by commas, up to a closing bracket. */
  function ReadItems(s: seq<byte>): (r: Reading<seq<Value>>)
    ensures r.Some? ==> |r.value.1| < |s|
    decreases |s|, 1
  {
    match ReadValue(s)
    case None => None
    case Some((v, rest)) =>
      var t := Skip(rest);
      if t != [] && t[0] == ']' as int then Some(([v], t[1..]))
      else if t != [] && t[0] == ',' as int then
        match ReadItems(t[1..]) case None => None case Some((more, end)) => Some(([v] + more, end))
      else None
  }

  /** A name, a colon and a value. */
  function ReadEntry(s: seq<byte>): (r: Reading<(seq<byte>, Value)>)
    ensures r.Some? ==> |r.value.1| < |s|
    decreases |s|, 1
  {
    match ReadText(Skip(s))
    case None => None
    case Some((name, rest)) =>
      var t := Skip(rest);
      if t == [] || t[0] != ':' as int then None
      else match ReadValue(t[1..]) case None => None case Some((v, end)) => Some(((name, v), end))
  }

  /** Members separated by commas, up to a closing brace. */
  function ReadEntries(s: seq<byte>): (r: Reading<seq<(seq<byte>, Value)>>)
    ensures r.Some? ==> |r.value.1| < |s|
    decreases |s|, 2
  {
    match ReadEntry(s)
    case None => None
    case Some((m, rest)) =>
      var t := Skip(rest);
      if t != [] && t[0] == '}' as int then Some(([m], t[1..]))
      else if t != [] && t[0] == ',' as int then
        match ReadEntries(t[1..]) case None => None case Some((more, end)) => Some(([m] + more, end))
      else None
  }

  /** What can follow a value in a text: nothing that would make a number longer. */
  predicate Ends(rest: seq<byte>) {
    rest == [] || !InNumber(rest[0])
  }

  /** The text is a value, wherever it stands. */
  ghost predicate Renders(text: seq<byte>, v: Value) {
    forall rest | Ends(rest) :: ReadValue(text + rest) == Some((v, rest))
  }

  lemma SkipNothing(s: seq<byte>)
    requires s == [] || !IsSpace(s[0])
    ensures Skip(s) == s
  {
  }

  /** A value never starts with a closing bracket. */
  lemma ValueStarts(s: seq<byte>)
    requires ReadValue(s).Some?
    ensures Skip(s) != [] && Skip(s)[0] != ']' as int
  {
  }

  lemma NameReads(w: string, rest: seq<byte>)
    requires w == "null" || w == "true" || w == "false"
    ensures ReadValue(Word(w) + rest) == Some((if w == "null" then VNull else VBool(w == "true"), rest))
  {
    var s := Word(w) + rest;
    SkipNothing(s);
    assert s[|w|..] == rest && s[..|w|] == Word(w);
    assert s[0] == w[0] as int;
    WordIsPrefix(w, rest);
  }

  lemma WordIsPrefix(w: string, rest: seq<byte>)
    requires w == "null" || w == "true" || w == "false"
    ensures var s := Word(w) + rest;
            s[|w|..] == rest && (Word("null") <= s <==> w == "null") && (Word("true") <= s <==> w == "true") && (Word("false") <= s <==> w == "false")
  {
    var s := Word(w) + rest;
    assert s[..|w|] == Word(w);
    assert s[0] == w[0] as int;
    assert Word("null")[0] == 'n' as int && Word("true")[0] == 't' as int && Word("false")[0] == 'f' as int;
  }

  lemma StringReads(bs: seq<byte>, rest: seq<byte>)
    ensures ReadValue(JsonText.Literal(bs) + rest) == Some((VString(bs), rest))
  {
    hide JsonText.ReadString;
    var s := JsonText.Literal(bs) + rest;
    JsonText.LiteralReadsBack(bs, rest);
    SkipNothing(s);
  }

  lemma {:induction false} RunIsAll(text: seq<byte>, rest: seq<byte>)
    requires Ends(rest) && forall k :: 0 <= k < |text| ==> InNumber(text[k])
    ensures NumberRun(text + rest) == |text|
  {
    if text == [] {
      assert text + rest == rest;
    } else {
      RunIsAll(text[1..], rest);
      assert (text + rest)[1..] == text[1..] + rest;
    }
  }

  /** A text that is a JSON number reads as its value. */
  lemma NumberReads(word: string, rest: seq<byte>)
    requires word != "" && Ends(rest) && NumberText.Parse(word).Some? && JsonNumber(word, NumberText.Parse(word).value)
    requires forall k :: 0 <= k < |word| ==> word[k] as int < 256 && InNumber(word[k] as int)
    ensures ReadValue(Word(word) + rest) == Some((VNumber(NumberText.LiteralValue(NumberText.Parse(word).value)), rest))
  {
    hide NumberText.Parse, NumberText.LiteralValue, JsonNumber, NumberRun;
    var s := Word(word) + rest;
    RunIsAll(Word(word), rest);
    assert s[..|word|] == Word(word) && s[|word|..] == rest;
    assert Ascii(Word(word)) == word;
    assert InNumber(s[0]);
    SkipNothing(s);
  }
}
