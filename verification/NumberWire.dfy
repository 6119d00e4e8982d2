// The wire form of NUMBER: an exponent byte, base-100 digits, and for short
// negative numbers a trailing 102. Everything is complemented below zero.
module NumberWire {
  import opened Bytes
  import opened NumberText

  const MAX_DIGITS := 40   // numberMaxDigits
  const MAX_CHARS := 172   // numberMaxChars
  const MAX_BYTES := 21    // longest NUMBER DecodeNumber takes
  const SLOTS := 42        // decoder's digit array
  const MAX_INT64: int := 0x7FFF_FFFF_FFFF_FFFF

  type pair = p: int | 0 <= p <= 99

  datatype NumberError = Empty | TooLong | Invalid | NoRepresentation | TooLarge | IndexOutOfRange

  datatype Result<+T> = Ok(value: T) | Err(error: NumberError)

  // ---- encoding ----

  /** The sum of two 64-bit integers, wrapped back into range. */
  function Wrap64(x: int): int {
    if x > MAX_INT64 then x - 2 * (MAX_INT64 + 1)
    else if x < -MAX_INT64 - 1 then x + 2 * (MAX_INT64 + 1)
    else x
  }

  /** strconv.Atoi on digits with its error ignored: saturates. */
  function Atoi(ds: seq<digit>): int {
    if Horner(ds) > MAX_INT64 then MAX_INT64 else Horner(ds)
  }

  /** decimalPointIndex as 64-bit arithmetic computes it. */
  function MachinePoint(lit: Literal): int {
    var d := |lit.whole| - LeadingZeros(lit.whole + lit.frac);
    if lit.exp == [] then d else Wrap64(d + if lit.expNeg then -Atoi(lit.exp) else Atoi(lit.exp))
  }

  predicate Representable(n: Num) {
    |n.digits| <= MAX_DIGITS && -129 <= n.point <= 126
  }

  /** Saturation and wrap-around never smuggle an out-of-range exponent into range. */
  lemma MachinePointIsExact(lit: Literal)
    requires |lit.whole| + |lit.frac| <= MAX_CHARS
    ensures -129 <= MachinePoint(lit) <= 126 <==> -129 <= Normalize(lit).point <= 126
    ensures -129 <= MachinePoint(lit) <= 126 ==> MachinePoint(lit) == Normalize(lit).point
  {
  }

  predicate OddPoint(n: Num) {
    n.point % 2 != 0
  }

  /** The digits aligned to pairs: a zero in front of an odd point, a zero behind to complete the last pair. */
  function Padded(n: Num): (q: seq<digit>)
    ensures |q| % 2 == 0
  {
    var ds := if OddPoint(n) then [0] + n.digits else n.digits;
    if |ds| % 2 == 1 then ds + [0] else ds
  }

  function PairOf(a: digit, b: digit): (p: pair)
    ensures p / 10 == a && p % 10 == b
  {
    var tens: int := 10 * (a as int);
    tens + b as int
  }

  function Pairs(q: seq<digit>): (ps: seq<pair>)
    requires |q| % 2 == 0
    ensures |ps| == |q| / 2
    ensures forall k :: 0 <= k < |ps| ==> ps[k] == PairOf(q[2 * k], q[2 * k + 1])
  {
    if q == [] then [] else [PairOf(q[0], q[1])] + Pairs(q[2..])
  }

  /** The power of 100 in front of the pairs. */
  function Exp100(n: Num): int {
    (n.point + if OddPoint(n) then 1 else 0) / 2
  }

  function Comp(neg: bool, b: byte): byte {
    if neg then 255 - b else b
  }

  function DigitByte(neg: bool, p: pair): byte {
    if neg then 101 - p else p + 1
  }

  function Body(neg: bool, ps: seq<pair>): (bs: seq<byte>)
    ensures |bs| == |ps|
    ensures forall k :: 0 <= k < |ps| ==> bs[k] == DigitByte(neg, ps[k])
  {
    if ps == [] then [] else [DigitByte(neg, ps[0])] + Body(neg, ps[1..])
  }

  function Tail(neg: bool, numPairs: nat): seq<byte> {
    if neg && numPairs < MAX_DIGITS / 2 then [102] else []
  }

  function Wire(n: Num): (bs: seq<byte>)
    requires Representable(n)
  {
    if n.digits == [] then [128]
    else
      var ps := Pairs(Padded(n));
      [Comp(n.neg, 192 + Exp100(n))] + Body(n.neg, ps) + Tail(n.neg, |ps|)
  }

  function Encode(s: string): Result<seq<byte>> {
    if s == [] then Err(Empty)
    else if |s| > MAX_CHARS then Err(TooLong)
    else match Parse(s)
      case None => Err(Invalid)
      case Some(lit) =>
        var n := Normalize(lit);
        if Representable(n) then Ok(Wire(n)) else Err(NoRepresentation)
  }

  /** The number an accepted text denotes, in normal form. */
  function Meant(s: string): Num
    requires Encode(s).Ok?
  {
    Normalize(Parse(s).value)
  }

  // ---- decoding ----

  /** Decoder state: digits found so far and the point index. */
  datatype Acc = Acc(digits: seq<int>, point: int)

  function BaseDigit(neg: bool, b: byte): byte {
    if neg then (101 - b) % 256 else (b - 1) % 256
  }

  /** One base-100 byte, as the decoder's loop body treats it, valid or not. */
  function Step(st: Acc, byt: byte, last: bool): Acc {
    var hi, lo := byt / 10, byt % 10;
    var st1 :=
      if hi == 0 && |st.digits| == 0 then Acc(st.digits, st.point - 1)
      else if hi == 10 then Acc(st.digits + [1, 0], st.point + 1)
      else Acc(st.digits + [hi], st.point);
    if lo != 0 || !last then Acc(st1.digits + [lo], st1.point) else st1
  }

  function Fold(st: Acc, neg: bool, bs: seq<byte>): (r: Acc)
    ensures |r.digits| >= |st.digits|
    decreases bs
  {
    if bs == [] then st else Fold(Step(st, BaseDigit(neg, bs[0]), |bs| == 1), neg, bs[1..])
  }

  /** The text of digits (possibly larger than 9 on garbage) around a point. */
  function Render(neg: bool, a: Acc): string
    requires |a.digits| <= SLOTS && forall k :: 0 <= k < |a.digits| ==> 0 <= a.digits[k] <= 25
  {
    var n := |a.digits|;
    (if neg then "-" else "") +
    (if a.point <= 0 then "0." + Text(Zeros(-a.point)) + Text(a.digits)
     else if a.point < n then Text(a.digits[..a.point]) + "." + Text(a.digits[a.point..])
     else Text(a.digits) + Text(Zeros(a.point - n)))
  }

  function Text(ds: seq<int>): (s: string)
    requires forall k :: 0 <= k < |ds| ==> 0 <= ds[k] <= 25
    ensures |s| == |ds|
  {
    seq(|ds|, k requires 0 <= k < |ds| => (ds[k] + '0' as int) as char)
  }

  lemma {:induction false} FoldDigitRange(st: Acc, neg: bool, bs: seq<byte>)
    requires forall k :: 0 <= k < |st.digits| ==> 0 <= st.digits[k] <= 25
    ensures forall k :: 0 <= k < |Fold(st, neg, bs).digits| ==> 0 <= Fold(st, neg, bs).digits[k] <= 25
    decreases bs
  {
    if bs != [] {
      FoldDigitRange(Step(st, BaseDigit(neg, bs[0]), |bs| == 1), neg, bs[1..]);
    }
  }

  datatype Decoded = Decoded(text: string, isInteger: bool, isMaxNegative: bool)

  /** int8(exponent - 193), with the exponent byte's high bit already set. */
  function Exponent8(b: byte): int
    requires b >= 128
  {
    b - 193
  }

  function DigitsOf(b: seq<byte>): seq<byte>
    requires |b| > 1
  {
    if b[0] < 128 && b[|b| - 1] == 102 then b[1..|b| - 1] else b[1..]
  }

  /** The digits and point DecodeNumber finds in bytes with at least one digit byte. */
  function Unpack(b: seq<byte>): (a: Acc)
    requires |b| > 1
    ensures forall k :: 0 <= k < |a.digits| ==> 0 <= a.digits[k] <= 25
  {
    var neg := b[0] < 128;
    var st := Acc([], 2 * Exponent8(Comp(neg, b[0])) + 2);
    FoldDigitRange(st, neg, DigitsOf(b));
    Fold(st, neg, DigitsOf(b))
  }

  function Decode(b: seq<byte>): Result<Decoded> {
    if |b| > MAX_BYTES then Err(TooLarge)
    else if b == [] then Err(Empty)
    else if |b| == 1 then
      if b[0] >= 128 then Ok(Decoded("0", true, false)) else Ok(Decoded("", true, true))
    else
      var a := Unpack(b);
      if |a.digits| > SLOTS then Err(IndexOutOfRange)
      else Ok(Decoded(Render(b[0] < 128, a), a.point > 0 && a.point >= |a.digits|, false))
  }

  // ---- sizes ----

  predicate TooWide(n: Num) {
    |n.digits| == MAX_DIGITS && OddPoint(n)
  }

  lemma PairCount(n: Num)
    requires n.digits != [] && Representable(n)
    ensures 1 <= |Pairs(Padded(n))| <= 21
    ensures |Pairs(Padded(n))| == 21 <==> TooWide(n)
  {
  }

  /** At most 22 bytes; at most the 21 the decoder takes exactly unless 40 digits sit at an odd point. */
  lemma WireSize(n: Num)
    requires Representable(n)
    ensures |Wire(n)| <= 22
    ensures |Wire(n)| <= MAX_BYTES <==> !TooWide(n)
  {
    if n.digits != [] { PairCount(n); }
  }

  /** The first wire byte has its high bit set exactly for numbers not below zero. */
  lemma WireSignBit(n: Num)
    requires Representable(n)
    ensures Wire(n)[0] >= 128 <==> (n.neg ==> n.digits == [])
  {
  }

  // ---- round trip ----

  lemma PaddedShape(n: Num)
    requires Canonical(n)
    ensures var q := Padded(n); |q| >= 2 && !(q[|q| - 2] == 0 && q[|q| - 1] == 0) && !(q[0] == 0 && q[1] == 0)
  {
    var q := Padded(n);
    var lead := if OddPoint(n) then 1 else 0;
    assert q[lead] == n.digits[0];
    assert q[lead + |n.digits| - 1] == n.digits[|n.digits| - 1];
    assert |q| - 2 <= lead + |n.digits| - 1 <= |q| - 1;
  }

  lemma BaseDigitInverts(neg: bool, p: pair)
    ensures BaseDigit(neg, DigitByte(neg, p)) == p
  {
  }

  /** A pair behind earlier digits contributes both its digits, except a zero in the very last place. */
  lemma StepPair(st: Acc, neg: bool, a: digit, b: digit, last: bool)
    requires st.digits != []
    ensures Step(st, BaseDigit(neg, DigitByte(neg, PairOf(a, b))), last)
         == Acc(st.digits + if b == 0 && last then [a] else [a, b], st.point)
  {
    BaseDigitInverts(neg, PairOf(a, b));
    assert st.digits + [a] + [b] == st.digits + [a, b];
  }

  lemma StripPair(a: digit, b: digit)
    requires !(a == 0 && b == 0)
    ensures StripTrailing([a, b]) == if b == 0 then [a] else [a, b]
  {
    assert [a, b][..1] == [a];
  }

  lemma BodyHead(neg: bool, q: seq<digit>)
    requires |q| % 2 == 0 && q != []
    ensures Body(neg, Pairs(q)) == [DigitByte(neg, PairOf(q[0], q[1]))] + Body(neg, Pairs(q[2..]))
  {
    var ps := Pairs(q);
    assert ps == [PairOf(q[0], q[1])] + Pairs(q[2..]);
  }

  lemma FoldCons(st: Acc, neg: bool, q: seq<digit>)
    requires |q| % 2 == 0 && q != []
    ensures Fold(st, neg, Body(neg, Pairs(q)))
         == Fold(Step(st, BaseDigit(neg, DigitByte(neg, PairOf(q[0], q[1]))), |q| == 2), neg, Body(neg, Pairs(q[2..])))
  {
    BodyHead(neg, q);
  }

  lemma StripCons(q: seq<digit>)
    requires |q| > 2 && |q| % 2 == 0 && !(q[|q| - 2] == 0 && q[|q| - 1] == 0)
    ensures StripTrailing(q) == [q[0], q[1]] + StripTrailing(q[2..])
  {
    var rest := q[2..];
    assert q == [q[0], q[1]] + rest;
    StripNonzero(rest, if rest[|rest| - 1] != 0 then |rest| - 1 else |rest| - 2);
    StripSuffix([q[0], q[1]], rest);
  }

  lemma FoldLastPair(st: Acc, neg: bool, q: seq<digit>)
    requires |q| == 2 && st.digits != [] && !(q[0] == 0 && q[1] == 0)
    ensures Fold(st, neg, Body(neg, Pairs(q))) == Acc(st.digits + StripTrailing(q), st.point)
  {
    FoldCons(st, neg, q);
    StepPair(st, neg, q[0], q[1], true);
    assert q == [q[0], q[1]];
    StripPair(q[0], q[1]);
  }

  lemma FoldPair(st: Acc, neg: bool, q: seq<digit>)
    requires |q| % 2 == 0 && |q| > 2 && st.digits != []
    ensures Fold(st, neg, Body(neg, Pairs(q)))
         == Fold(Acc(st.digits + [q[0], q[1]], st.point), neg, Body(neg, Pairs(q[2..])))
  {
    FoldCons(st, neg, q);
    StepPair(st, neg, q[0], q[1], false);
  }

  /** Once a digit is down, the decoder appends all further digits but a final zero. */
  lemma {:induction false} FoldAppends(st: Acc, neg: bool, q: seq<digit>)
    requires |q| % 2 == 0 && st.digits != []
    requires q != [] ==> !(q[|q| - 2] == 0 && q[|q| - 1] == 0)
    ensures Fold(st, neg, Body(neg, Pairs(q))) == Acc(st.digits + StripTrailing(q), st.point)
    decreases |q|
  {
    if q == [] {
      assert st.digits + [] == st.digits;
    } else if |q| == 2 {
      FoldLastPair(st, neg, q);
    } else {
      FoldPair(st, neg, q);
      FoldAppends(Acc(st.digits + [q[0], q[1]], st.point), neg, q[2..]);
      StripCons(q);
      Associate(st.digits, [q[0], q[1]], StripTrailing(q[2..]));
    }
  }

  lemma {:induction false} StripSuffix(a: seq<digit>, b: seq<digit>)
    requires b != [] && StripTrailing(b) != []
    ensures StripTrailing(a + b) == a + StripTrailing(b)
  {
    var ab := a + b;
    assert ab[|ab| - 1] == b[|b| - 1];
    if b[|b| - 1] == 0 {
      assert ab[..|ab| - 1] == a + b[..|b| - 1];
      StripSuffix(a, b[..|b| - 1]);
    }
  }

  lemma StripNonzero(q: seq<digit>, k: nat)
    requires k < |q| && q[k] != 0
    ensures StripTrailing(q) != []
  {
  }

  /** Whether or not the trailer is there, the decoder finds the digit bytes between the ends. */
  lemma DigitsBetween(x: byte, mid: seq<byte>, tail: seq<byte>)
    requires mid != []
    requires x >= 128 ==> tail == []
    requires x < 128 ==> tail == [102] || (tail == [] && mid[|mid| - 1] != 102)
    ensures DigitsOf([x] + mid + tail) == mid
  {
    var b := [x] + mid + tail;
    if tail == [] {
      assert b[|b| - 1] == mid[|mid| - 1];
      assert b[1..] == mid;
    } else {
      assert b[1..|b| - 1] == mid;
    }
  }

  /** The exponent byte tells the sign, and the decoder takes the exponent back out of it. */
  lemma ExponentByteInverts(n: Num)
    requires Representable(n)
    ensures 128 <= 192 + Exp100(n) <= 255
    ensures var x := Comp(n.neg, 192 + Exp100(n));
            (x < 128 <==> n.neg) && 2 * Exponent8(Comp(n.neg, x)) + 2 == 2 * Exp100(n)
  {
  }

  lemma DigitsOfWire(n: Num)
    requires Canonical(n) && Representable(n)
    ensures |Wire(n)| > 1 && (Wire(n)[0] < 128 <==> n.neg)
    ensures DigitsOf(Wire(n)) == Body(n.neg, Pairs(Padded(n)))
    ensures 2 * Exponent8(Comp(n.neg, Wire(n)[0])) + 2 == 2 * Exp100(n)
  {
    hide Pairs, Padded, Exp100, Comp, Exponent8, DigitsOf;
    ExponentByteInverts(n);
    var x, ps := Comp(n.neg, 192 + Exp100(n)), Pairs(Padded(n));
    PairCount(n);
    DigitsBetween(x, Body(n.neg, ps), Tail(n.neg, |ps|));
    assert Wire(n)[0] == x;
  }

  /** The decoder finds exactly the digits and the point of the number that was encoded. */
  lemma UnpackWire(n: Num)
    requires Canonical(n) && Representable(n)
    ensures |Wire(n)| > 1 && Unpack(Wire(n)) == Acc(n.digits, n.point)
  {
    hide Wire, DigitsOf, Fold, Body, Pairs, Padded, Exponent8, Comp, Exp100;
    DigitsOfWire(n);
    FoldPadded(n);
  }

  lemma FoldPadded(n: Num)
    requires Canonical(n)
    ensures Fold(Acc([], 2 * Exp100(n)), n.neg, Body(n.neg, Pairs(Padded(n)))) == Acc(n.digits, n.point)
  {
    hide Padded, Pairs, Body, StripTrailing, Exp100;
    var q := Padded(n);
    PaddedShape(n);
    BodyHead(n.neg, q);
    var st := FirstStep(n);
    assert Fold(Acc([], 2 * Exp100(n)), n.neg, Body(n.neg, Pairs(q))) == Fold(st, n.neg, Body(n.neg, Pairs(q[2..])));
    StripPadded(n);
    if |q| > 2 { FoldAppends(st, n.neg, q[2..]); }
  }

  /** The decoder's state behind the first pair: a leading zero moves the point instead of being kept. */
  lemma FirstStep(n: Num) returns (st: Acc)
    requires Canonical(n)
    ensures |Padded(n)| >= 2
    ensures var q := Padded(n);
            st == Step(Acc([], 2 * Exp100(n)), BaseDigit(n.neg, DigitByte(n.neg, PairOf(q[0], q[1]))), |q| == 2)
    ensures st.point == n.point && st.digits != []
    ensures var q := Padded(n);
            |q| > 2 ==> st.digits == if OddPoint(n) then [q[1]] else [q[0], q[1]]
    ensures |Padded(n)| == 2 ==> st.digits == n.digits
  {
    var q := Padded(n);
    PaddedShape(n);
    BaseDigitInverts(n.neg, PairOf(q[0], q[1]));
    st := Step(Acc([], 2 * Exp100(n)), BaseDigit(n.neg, DigitByte(n.neg, PairOf(q[0], q[1]))), |q| == 2);
    assert [] + [q[0] as int] + [q[1] as int] == [q[0], q[1]];
  }

  /** Behind the zero that aligns an odd point come the digits, and a zero that completes the last pair. */
  lemma PaddedParts(n: Num)
    requires Canonical(n)
    ensures var q, lead := Padded(n), if OddPoint(n) then 1 else 0;
            0 <= |q| - lead - |n.digits| <= 1 && q[lead..] == n.digits + Zeros(|q| - lead - |n.digits|)
  {
  }

  /** Stripping the alignment zeros off again. */
  lemma StripPadded(n: Num)
    requires Canonical(n)
    ensures var q := Padded(n);
            |q| > 2 ==> (if OddPoint(n) then [q[1]] else [q[0], q[1]]) + StripTrailing(q[2..]) == n.digits
  {
    hide StripTrailing, Zeros, OddPoint, Padded;
    var q := Padded(n);
    var lead := if OddPoint(n) then 1 else 0;
    PaddedParts(n);
    StripTrailingZeros(n.digits, |q| - lead - |n.digits|);
    if |q| > 2 {
      PaddedShape(n);
      StripNonzero(q[2..], if q[|q| - 1] != 0 then |q| - 3 else |q| - 4);
      var a := if OddPoint(n) then [q[1]] else [q[0], q[1]];
      assert q[lead..] == a + q[2..];
      StripSuffix(a, q[2..]);
    }
  }

  lemma DecodeWire(n: Num)
    requires Canonical(n) && Representable(n) && !TooWide(n)
    ensures Decode(Wire(n)) == Ok(Decoded(Plain(n), IsInteger(n), false))
  {
    WireSize(n);
    UnpackWire(n);
    DigitsOfWire(n);
    RenderIsPlain(n);
  }

  /**
   * Decoding what was encoded gives the plain text of the number meant, exactly when the wire form
   * fits 21 bytes; a 40-digit number at an odd point is encoded but never decoded.
   */
  lemma RoundTrip(s: string)
    requires Encode(s).Ok?
    ensures var n := Meant(s);
            if TooWide(n) then Decode(Encode(s).value) == Err(TooLarge)
            else Decode(Encode(s).value) == Ok(Decoded(Plain(n), IsInteger(n) || n.digits == [], false))
  {
    var n := Meant(s);
    WireSize(n);
    if n.digits != [] && !TooWide(n) { DecodeWire(n); }
  }

  lemma RenderIsPlain(n: Num)
    requires Canonical(n) && Representable(n)
    ensures Render(n.neg, Acc(n.digits, n.point)) == Plain(n)
  {
    hide Chars, Text, Zeros;
    assert Canonical(n) ==> forall k :: 0 <= k < |n.digits| ==> 0 <= n.digits[k] <= 25;
    if n.point <= 0 {
      RenderFraction(n);
    } else if n.point < |n.digits| {
      RenderMixed(n);
    } else {
      RenderWhole(n);
    }
  }

  lemma RenderFraction(n: Num)
    requires n.point <= 0
    ensures "0." + Text(Zeros(-n.point)) + Text(n.digits) == Chars(WholePart(n)) + ("." + Chars(FracPart(n)))
  {
    TextIsChars(n.digits);
    TextIsChars(Zeros(-n.point));
    CharsAppend(Zeros(-n.point), n.digits);
    assert Chars([0]) == "0";
  }

  lemma RenderMixed(n: Num)
    requires 0 < n.point < |n.digits|
    ensures Text(n.digits[..n.point]) + "." + Text(n.digits[n.point..]) == Chars(WholePart(n)) + ("." + Chars(FracPart(n)))
  {
    hide Chars, Text;
    TextIsChars(n.digits[..n.point]);
    TextIsChars(n.digits[n.point..]);
  }

  lemma RenderWhole(n: Num)
    requires 0 < n.point && |n.digits| <= n.point
    ensures Text(n.digits) + Text(Zeros(n.point - |n.digits|)) == Chars(WholePart(n))
  {
    hide Chars, Text;
    TextIsChars(n.digits);
    TextIsChars(Zeros(n.point - |n.digits|));
    CharsAppend(n.digits, Zeros(n.point - |n.digits|));
  }

  lemma TextIsChars(ds: seq<digit>)
    ensures Text(ds) == Chars(ds)
  {
  }

  lemma CharsAppend(a: seq<digit>, b: seq<digit>)
    ensures Chars(a + b) == Chars(a) + Chars(b)
  {
  }

  /**
   * The full promise in terms of meaning: the decoded text has the value of the original text,
   * no redundant zeros (it is the plain text of its own normal form), and isInteger tells whether
   * that value is whole.
   */
  lemma RoundTripMeaning(s: string)
    requires Encode(s).Ok? && !TooWide(Meant(s))
    ensures var d := Decode(Encode(s).value);
            d.Ok? && !d.value.isMaxNegative && d.value.text != []
            && Parse(d.value.text).Some? && Parse(s).Some?
            && LiteralValue(Parse(d.value.text).value) == LiteralValue(Parse(s).value)
            && (Meant(s).digits != [] ==> d.value.text == Plain(Normalize(Parse(d.value.text).value)))
            && (d.value.isInteger <==> LiteralValue(Parse(s).value).Floor as real == LiteralValue(Parse(s).value))
  {
    RoundTrip(s);
    var n := Meant(s);
    NormalizeKeepsValue(Parse(s).value);
    if n.digits == [] {
      ZeroValue(n);
      ZeroParses();
      var zero := Literal(false, [0], [], false, []);
      NormalizeKeepsValue(zero);
      ZeroValue(Normalize(zero));
    } else {
      PlainParsesBack(n);
      NormalizeKeepsValue(Parse(Plain(n)).value);
      IntegerIff(n);
    }
  }

  lemma ZeroParses()
    ensures Parse("0") == Some(Literal(false, [0], [], false, []))
  {
    var sp := Spelling("", [0], false, [], "", "", []);
    ParseSpells(sp);
    assert Spell(sp) == "0";
  }

  lemma ZeroValue(n: Num)
    requires n.digits == []
    ensures NumValue(n) == 0.0
  {
    ScaleLinear(0.0, 0.0, n.point);
  }

  // ---- what is accepted, and which bytes it becomes ----

  lemma PlainIsShort(n: Num)
    requires Canonical(n) && Representable(n)
    ensures 0 < |Plain(n)| <= MAX_CHARS
  {
    hide Chars;
  }

  /** Every number in range has a text that is accepted, and it becomes that number's wire form. */
  lemma PlainEncodes(n: Num)
    requires Canonical(n) && Representable(n)
    ensures Encode(Plain(n)) == Ok(Wire(n))
  {
    hide Parse, Normalize, Plain, Wire;
    PlainIsShort(n);
    PlainParsesBack(n);
  }

  /** A spelling of at most 172 characters is encoded, in range, as the wire form of its own normal form. */
  lemma SpellingEncodes(sp: Spelling)
    requires Proper(sp) && |Spell(sp)| <= MAX_CHARS
    ensures var n := Normalize(LiteralOf(sp));
            Encode(Spell(sp)) == if Representable(n) then Ok(Wire(n)) else Err(NoRepresentation)
  {
    hide Parse, Normalize, Spell, Wire;
    ParseSpells(sp);
  }

  /** The value of digit bytes: base 100 from 100^e downwards, each digit one more than its value, or 101 less it. */
  function BaseHundred(neg: bool, bs: seq<byte>, e: int): real
    decreases |bs|
  {
    if bs == [] then 0.0
    else Scale((if neg then 101 - bs[0] as int else bs[0] as int - 1) as real, 2 * e) + BaseHundred(neg, bs[1..], e - 1)
  }

  lemma {:induction false} PairsValue(neg: bool, q: seq<digit>, e: int)
    requires |q| % 2 == 0
    ensures BaseHundred(neg, Body(neg, Pairs(q)), e) == Scale(Frac10(q), 2 * e + 2)
    decreases |q|
  {
    hide Scale, Frac10, Pairs, Body;
    if q == [] {
      NoPairs(neg);
      ScaleLinear(0.0, 0.0, 2 * e + 2);
      FracEmpty();
    } else {
      PairsValue(neg, q[2..], e - 1);
      BodyHead(neg, q);
      var bs := Body(neg, Pairs(q));
      assert bs[1..] == Body(neg, Pairs(q[2..]));
      Frac10Head(q, 2 * e + 2);
      Frac10Head(q[1..], 2 * e + 1);
      assert q[1..][1..] == q[2..];
      ScaleTen(q[0] as real, 2 * e);
      ScaleLinear(10.0 * q[0] as real, q[1] as real, 2 * e);
    }
  }

  lemma FracEmpty()
    ensures Frac10([]) == 0.0
  {
  }

  lemma NoPairs(neg: bool)
    ensures Body(neg, Pairs([])) == []
  {
  }

  lemma PaddedValue(n: Num)
    requires Canonical(n)
    ensures Scale(Frac10(Padded(n)), 2 * Exp100(n)) == Scale(Frac10(n.digits), n.point)
  {
    hide Scale, Frac10;
    var q, lead := Padded(n), if OddPoint(n) then 1 else 0;
    PaddedParts(n);
    DropLeadingZeros(q, lead, 2 * Exp100(n));
    DropTrailingZeros(q[lead..], |n.digits|);
    assert q[lead..][..|n.digits|] == n.digits;
  }

  /**
   * The wire form means the number: below 128 the first byte says negative and the exponent is 62 less it,
   * otherwise it is 193 less; a closing 102 behind a negative number is no digit.
   */
  lemma WireMeans(n: Num)
    requires Canonical(n) && Representable(n)
    ensures var b := Wire(n);
            |b| > 1 &&
            var neg := b[0] < 128;
            var ds := b[1..if neg && b[|b| - 1] == 102 then |b| - 1 else |b|];
            NumValue(n) == Signed(neg, BaseHundred(neg, ds, if neg then 62 - b[0] as int else b[0] as int - 193))
  {
    hide Wire, BaseHundred, Scale, Frac10, Padded, Pairs, Body;
    DigitsOfWire(n);
    var b := Wire(n);
    assert b[1..|b|] == b[1..];
    PairsValue(n.neg, Padded(n), Exp100(n) - 1);
    PaddedValue(n);
  }

  lemma TrimmedIs(lit: Literal, lead: nat, ds: seq<digit>, trail: nat)
    requires lit.whole + lit.frac == Zeros(lead) + (ds + Zeros(trail))
    requires ds != [] && ds[0] != 0 && ds[|ds| - 1] != 0
    ensures Normalize(lit) == Num(lit.neg, ds, |lit.whole| - lead + Exponent(lit))
  {
    hide LeadingZeros, StripTrailing, Exponent;
    LeadingZerosOfZeros(lead, ds + Zeros(trail));
    assert (Zeros(lead) + (ds + Zeros(trail)))[lead..] == ds + Zeros(trail);
    StripTrailingZeros(ds, trail);
  }

  lemma OnePair(n: Num, a: digit, b: digit)
    requires n.digits != [] && Representable(n) && Padded(n) == [a, b]
    ensures Wire(n) == [Comp(n.neg, 192 + Exp100(n)), DigitByte(n.neg, PairOf(a, b))] + if n.neg then [102] else []
  {
    assert [a, b][2..] == [];
    assert Pairs([a, b]) == [PairOf(a, b)];
    assert Body(n.neg, [PairOf(a, b)]) == [DigitByte(n.neg, PairOf(a, b))];
  }

  lemma OneDigitWire(n: Num, d: digit)
    requires d != 0 && n.digits == [d] && Representable(n)
    ensures Wire(n) == [Comp(n.neg, 192 + Exp100(n)), DigitByte(n.neg, if OddPoint(n) then d else PairOf(d, 0))]
                       + if n.neg then [102] else []
  {
    hide Wire, Comp, Exp100, DigitByte;
    if OddPoint(n) {
      assert [0] + [d] == [0, d];
      OnePair(n, 0, d);
    } else {
      assert [d] + [0] == [d, 0];
      OnePair(n, d, 0);
    }
  }

  /** A short spelling whose only digit, zeros aside, is d. */
  lemma SpellsOneDigit(sp: Spelling, s: string, lead: nat, d: digit, trail: nat, n: Num)
    requires Proper(sp) && s == Spell(sp) && |s| <= MAX_CHARS && d != 0
    requires sp.whole + sp.frac == Zeros(lead) + ([d] + Zeros(trail))
    requires n == Num(sp.sign == "-", [d], |sp.whole| - lead + Exponent(LiteralOf(sp))) && Representable(n)
    ensures Encode(s) == Ok(Wire(n))
  {
    hide Normalize, Wire, Exponent, Representable;
    SpellingEncodes(sp);
    TrimmedIs(LiteralOf(sp), lead, [d], trail);
  }

  /** Encodings the repository's tests pin, and one with a negative exponent. */
  lemma KnownEncodings()
    ensures Encode("1") == Ok([0xc1, 0x02])
    ensures Encode("100") == Ok([0xc2, 0x02])
    ensures Encode("-1") == Ok([0x3e, 0x64, 0x66])
    ensures Encode("0") == Ok([0x80])
    ensures Encode("0.5") == Ok([0xc0, 0x33])
    ensures Encode("-100") == Ok([0x3d, 0x64, 0x66])
    ensures Encode("1e-2") == Ok([0xc0, 0x02])
  {
    hide Encode, Exponent, Exp100;
    KnownOne("", "1");
    KnownOne("-", "-1");
    KnownHundred("", "100");
    KnownHundred("-", "-100");
    KnownZero();
    KnownHalf();
    KnownExponent();
  }

  lemma KnownOne(sign: string, s: string)
    requires (sign == "" && s == "1") || (sign == "-" && s == "-1")
    ensures Encode(s) == Ok(if sign == "-" then [0x3e, 0x64, 0x66] else [0xc1, 0x02])
  {
    hide Encode, Wire;
    var sp := Spelling(sign, [1], false, [], "", "", []);
    assert Spell(sp) == s;
    assert [1] + [] == Zeros(0) + ([1] + Zeros(0));
    var n := Num(sign == "-", [1], 1);
    SpellsOneDigit(sp, s, 0, 1, 0, n);
    OneDigitWire(n, 1);
    assert Wire(n) == if sign == "-" then [0x3e, 0x64, 0x66] else [0xc1, 0x02];
  }

  lemma KnownHundred(sign: string, s: string)
    requires (sign == "" && s == "100") || (sign == "-" && s == "-100")
    ensures Encode(s) == Ok(if sign == "-" then [0x3d, 0x64, 0x66] else [0xc2, 0x02])
  {
    hide Encode, Wire;
    var sp := Spelling(sign, [1, 0, 0], false, [], "", "", []);
    assert Spell(sp) == s;
    assert [1, 0, 0] + [] == Zeros(0) + ([1] + Zeros(2));
    var n := Num(sign == "-", [1], 3);
    SpellsOneDigit(sp, s, 0, 1, 2, n);
    OneDigitWire(n, 1);
    assert Wire(n) == if sign == "-" then [0x3d, 0x64, 0x66] else [0xc2, 0x02];
  }

  lemma KnownHalf()
    ensures Encode("0.5") == Ok([0xc0, 0x33])
  {
    hide Encode, Wire;
    var sp := Spelling("", [0], true, [5], "", "", []);
    assert Spell(sp) == "0.5";
    assert [0] + [5] == Zeros(1) + ([5] + Zeros(0));
    var n := Num(false, [5], 0);
    SpellsOneDigit(sp, "0.5", 1, 5, 0, n);
    OneDigitWire(n, 5);
    assert Wire(n) == [0xc0, 0x33];
  }

  lemma KnownExponent()
    ensures Encode("1e-2") == Ok([0xc0, 0x02])
  {
    hide Encode, Wire;
    var sp := Spelling("", [1], false, [], "e", "-", [2]);
    assert Spell(sp) == "1e-2";
    assert [1] + [] == Zeros(0) + ([1] + Zeros(0));
    assert Horner([2]) == 2;
    var n := Num(false, [1], -1);
    SpellsOneDigit(sp, "1e-2", 0, 1, 0, n);
    OneDigitWire(n, 1);
    assert Wire(n) == [0xc0, 0x02];
  }

  lemma KnownZero()
    ensures Encode("0") == Ok([0x80])
  {
    ZeroParses();
  }

  /** The decoder's 42 digit slots suffice for every encoder output it accepts. */
  lemma NoIndexPanicOnEncoderOutput(s: string)
    requires Encode(s).Ok?
    ensures Decode(Encode(s).value) != Err(IndexOutOfRange)
  {
    RoundTrip(s);
  }

  // ---- when the digit slots overrun ----

  /** Bytes the decoder takes for the two digits 1 and 0 with a carry: three slots instead of two. */
  function Carries(neg: bool, bs: seq<byte>): nat {
    if bs == [] then 0
    else Carries(neg, bs[..|bs| - 1]) + if BaseDigit(neg, bs[|bs| - 1]) / 10 == 10 then 1 else 0
  }

  /** The digit bytes ask for more slots than there are: two each, one more for a carry, one less for a zero at either end. */
  predicate Overruns(b: seq<byte>) {
    1 < |b| <= MAX_BYTES && DigitsOf(b) != [] &&
    var neg, bs := b[0] < 128, DigitsOf(b);
    2 * |bs| + Carries(neg, bs)
    - (if BaseDigit(neg, bs[0]) / 10 == 0 then 1 else 0)
    - (if BaseDigit(neg, bs[|bs| - 1]) % 10 == 0 then 1 else 0) > SLOTS
  }

  lemma {:induction false} CarriesCons(neg: bool, bs: seq<byte>)
    requires bs != []
    ensures Carries(neg, bs) == (if BaseDigit(neg, bs[0]) / 10 == 10 then 1 else 0) + Carries(neg, bs[1..])
  {
    var n := |bs| - 1;
    if n > 0 {
      CarriesCons(neg, bs[..n]);
      assert bs[..n][1..] == bs[1..][..n - 1];
    }
  }

  /** Behind earlier digits every byte takes two slots, or three, and only a zero in the last place none. */
  lemma {:induction false} FoldSlots(st: Acc, neg: bool, bs: seq<byte>)
    requires st.digits != [] && bs != []
    ensures |Fold(st, neg, bs).digits| == |st.digits| + 2 * |bs| + Carries(neg, bs)
            - if BaseDigit(neg, bs[|bs| - 1]) % 10 == 0 then 1 else 0
    decreases |bs|
  {
    CarriesCons(neg, bs);
    if |bs| > 1 { FoldSlots(Step(st, BaseDigit(neg, bs[0]), false), neg, bs[1..]); }
  }

  /** The slots all digit bytes take; the first one's high digit takes none if it is zero. */
  lemma SlotsTaken(point: int, neg: bool, bs: seq<byte>)
    requires bs != []
    ensures |Fold(Acc([], point), neg, bs).digits| == 2 * |bs| + Carries(neg, bs)
            - (if BaseDigit(neg, bs[0]) / 10 == 0 then 1 else 0)
            - (if BaseDigit(neg, bs[|bs| - 1]) % 10 == 0 then 1 else 0)
  {
    CarriesCons(neg, bs);
    if |bs| > 1 {
      FoldSlots(Step(Acc([], point), BaseDigit(neg, bs[0]), false), neg, bs[1..]);
      assert bs[1..][|bs| - 2] == bs[|bs| - 1];
    }
  }

  /** The decoder indexes beyond its 42 digit slots on exactly these bytes, of all there are. */
  lemma OverrunsIff(b: seq<byte>)
    ensures Decode(b) == Err(IndexOutOfRange) <==> Overruns(b)
  {
    hide Carries, BaseDigit;
    if 1 < |b| <= MAX_BYTES && DigitsOf(b) != [] {
      SlotsTaken(2 * Exponent8(Comp(b[0] < 128, b[0])) + 2, b[0] < 128, DigitsOf(b));
    }
  }

  /** No byte of the digit range carries: whoever encoded it, a number of base-100 digits decodes without overrun. */
  lemma {:induction false} DigitBytesFit(b: seq<byte>)
    requires |b| > 1 ==> forall k :: 0 <= k < |DigitsOf(b)| ==> BaseDigit(b[0] < 128, DigitsOf(b)[k]) < 100
    ensures Decode(b) != Err(IndexOutOfRange)
  {
    OverrunsIff(b);
    if |b| > 1 { NoCarries(b[0] < 128, DigitsOf(b)); }
  }

  lemma {:induction false} NoCarries(neg: bool, bs: seq<byte>)
    requires forall k :: 0 <= k < |bs| ==> BaseDigit(neg, bs[k]) < 100
    ensures Carries(neg, bs) == 0
  {
    if bs != [] { NoCarries(neg, bs[..|bs| - 1]); }
  }

  /** Fourteen bytes of value 101 fit and fifteen do not. */
  lemma FifteenCarriesOverrun()
    ensures Decode([193] + seq(14, _ => 101)).Ok?
    ensures Decode([193] + seq(15, _ => 101)) == Err(IndexOutOfRange)
  {
    AllCarry(14);
    AllCarry(15);
    OverrunsIff([193] + seq(14, _ => 101));
    OverrunsIff([193] + seq(15, _ => 101));
  }

  lemma {:induction false} AllCarry(k: nat)
    ensures var b: seq<byte> := [193] + seq(k, _ => 101);
            (k > 0 ==> DigitsOf(b) == seq(k, _ => 101)) && Carries(false, seq(k, _ => 101)) == k
  {
    var bs: seq<byte> := seq(k, _ => 101);
    if k > 0 {
      assert ([193] + bs)[1..] == bs;
      assert bs[..k - 1] == seq(k - 1, _ => 101);
      AllCarry(k - 1);
    }
  }
}
