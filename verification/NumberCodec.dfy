// EncodeNumber and DecodeNumber as the driver runs them: digit arrays filled in place.
module NumberCodec {
  import opened Bytes
  import opened NumberText
  import opened NumberWire

  const DIGIT_SLOTS := 174   // numberMaxChars + 2

  lemma {:induction false} LeadingZerosSnoc(ds: seq<digit>, d: digit)
    ensures var z := LeadingZeros(ds);
            LeadingZeros(ds + [d]) == if z == |ds| && d == 0 then z + 1 else z
  {
    var all := ds + [d];
    assert all[|ds|] == d;
    if ds == [] {
      assert all == [d];
    } else if ds[0] == 0 {
      assert all[1..] == ds[1..] + [d];
      LeadingZerosSnoc(ds[1..], d);
    }
  }

  function Significant(ds: seq<digit>): seq<digit> {
    ds[LeadingZeros(ds)..]
  }

  predicate DigitsAt(s: string, i: nat, j: nat) {
    i <= j <= |s| && forall k :: i <= k < j ==> IsDigit(s[k])
  }

  /** All digits read so far: those from before this run, and this run's up to pos. */
  function ReadSoFar(before: seq<digit>, value: string, start: nat, pos: nat): (all: seq<digit>)
    requires DigitsAt(value, start, pos)
    ensures |all| == |before| + pos - start
  {
    before + Vals(value[start..pos])
  }

  lemma NothingRead(before: seq<digit>, value: string, start: nat)
    requires start <= |value|
    ensures ReadSoFar(before, value, start, start) == before
  {
  }

  lemma ReadOneMore(before: seq<digit>, value: string, start: nat, pos: nat)
    requires DigitsAt(value, start, pos) && pos < |value| && IsDigit(value[pos])
    ensures DigitsAt(value, start, pos + 1)
    ensures var all, d := ReadSoFar(before, value, start, pos), Val(value[pos]);
            var skip := LeadingZeros(all) == |all| && d == 0;
            var all' := ReadSoFar(before, value, start, pos + 1);
            LeadingZeros(all') == LeadingZeros(all) + (if skip then 1 else 0)
            && Significant(all') == if skip then [] else Significant(all) + [d]
  {
    var all, d := ReadSoFar(before, value, start, pos), Val(value[pos]);
    assert Vals(value[start..pos + 1]) == Vals(value[start..pos]) + [d];
    assert ReadSoFar(before, value, start, pos + 1) == all + [d];
    LeadingZerosSnoc(all, d);
  }

  /** Stores d behind the first n digits. */
  method Push(digits: array<digit>, n: nat, d: digit)
    requires n < digits.Length
    modifies digits
    ensures digits[..n + 1] == old(digits[..n]) + [d]
  {
    digits[n] := d;
  }

  /** The array holds the significant digits of everything read; `skipped` zeros fell in this run. */
  ghost predicate Scanned(digits: array<digit>, numDigits: nat, skipped: int, before: seq<digit>, all: seq<digit>)
    reads digits
  {
    digits.Length == DIGIT_SLOTS
    && numDigits == |Significant(all)| <= digits.Length && digits[..numDigits] == Significant(all)
    && skipped == LeadingZeros(all) - LeadingZeros(before)
  }

  /** Takes one digit: a zero in front of the first significant digit is only counted. */
  method TakeDigit(value: string, start: nat, pos: nat, digits: array<digit>, numDigits0: nat, skipped0: nat, ghost before: seq<digit>)
    returns (numDigits: nat, skipped: nat)
    requires DigitsAt(value, start, pos) && pos < |value| && IsDigit(value[pos])
    requires |before| + |value| - start <= MAX_CHARS
    requires Scanned(digits, numDigits0, skipped0, before, ReadSoFar(before, value, start, pos))
    modifies digits
    ensures DigitsAt(value, start, pos + 1)
    ensures Scanned(digits, numDigits, skipped, before, ReadSoFar(before, value, start, pos + 1))
  {
    numDigits, skipped := numDigits0, skipped0;
    ReadOneMore(before, value, start, pos);
    var d := Val(value[pos]);
    if d == 0 && numDigits == 0 {
      skipped := skipped + 1;
    } else {
      Push(digits, numDigits, d);
      numDigits := numDigits + 1;
    }
  }

  /** Reads digits from start to the first stop character. */
  method ScanDigits(value: string, start: nat, inFraction: bool, digits: array<digit>, numDigits0: nat, ghost before: seq<digit>)
    returns (ok: bool, pos: nat, numDigits: nat, skipped: nat)
    requires start <= |value|
    requires |before| + |value| - start <= MAX_CHARS
    requires Scanned(digits, numDigits0, 0, before, before)
    modifies digits
    ensures start <= pos == DigitRun(value, start)
    ensures ok <==> pos == |value| || IsE(value[pos]) || (!inFraction && value[pos] == '.')
    ensures Scanned(digits, numDigits, skipped, before, ReadSoFar(before, value, start, pos))
  {
    hide Scanned, ReadSoFar;
    pos, numDigits, skipped, ok := start, numDigits0, 0, true;
    NothingRead(before, value, start);
    while pos < |value| && !IsE(value[pos]) && !(!inFraction && value[pos] == '.') && ok
      invariant DigitsAt(value, start, pos)
      invariant Scanned(digits, numDigits, skipped, before, ReadSoFar(before, value, start, pos))
      invariant !ok ==> pos < |value| && !IsDigit(value[pos]) && !IsE(value[pos]) && !(!inFraction && value[pos] == '.')
      decreases |value| - pos, ok
    {
      if IsDigit(value[pos]) {
        numDigits, skipped := TakeDigit(value, start, pos, digits, numDigits, skipped, before);
        pos := pos + 1;
      } else {
        ok := false;
      }
    }
  }

  /** Reads the exponent behind the 'e' at pos. */
  method ScanExponent(value: string, at: nat) returns (ok: bool, e: int)
    requires at < |value| && IsE(value[at])
    ensures match ParseExponent(value, at)
            case None => !ok
            case Some((expNeg, exp)) => ok && exp != [] && e == if expNeg then -Atoi(exp) else Atoi(exp)
  {
    var pos := at + 1;
    var expNeg := false;
    if pos < |value| {
      if value[pos] == '-' {
        expNeg := true;
        pos := pos + 1;
      } else if value[pos] == '+' {
        pos := pos + 1;
      }
    }
    var expStart := pos;
    while pos < |value|
      invariant expStart <= pos <= |value|
      invariant forall k :: expStart <= k < pos ==> IsDigit(value[k])
    {
      if !IsDigit(value[pos]) {
        return false, 0;
      }
      pos := pos + 1;
    }
    if expStart == pos {
      return false, 0;
    }
    e := Atoi(Vals(value[expStart..pos]));
    if expNeg {
      e := -e;
    }
    ok := true;
  }

  /** Drops trailing zeros, as the shrinking numDigits does. */
  method TrimTrailing(digits: array<digit>, n: nat) returns (m: nat)
    requires n <= digits.Length
    ensures m <= n && digits[..m] == StripTrailing(digits[..n])
  {
    m := n;
    while m > 0 && digits[m - 1] == 0
      invariant m <= n
      invariant StripTrailing(digits[..m]) == StripTrailing(digits[..n])
    {
      assert digits[..m][..m - 1] == digits[..m - 1];
      m := m - 1;
    }
  }

  /** One base-100 digit from the array; with prependZero the first pair is a lone digit. */
  method NextPair(digits: array<digit>, digitsPos0: nat, alone: bool) returns (d: pair, digitsPos: nat)
    requires digitsPos0 + (if alone then 1 else 2) <= digits.Length
    ensures digitsPos == digitsPos0 + if alone then 1 else 2
    ensures d == if alone then PairOf(0, digits[digitsPos0]) else PairOf(digits[digitsPos0], digits[digitsPos0 + 1])
  {
    digitsPos := digitsPos0;
    if alone {
      d := digits[digitsPos];
      digitsPos := digitsPos + 1;
    } else {
      d := PairOf(digits[digitsPos], digits[digitsPos + 1]);
      digitsPos := digitsPos + 2;
    }
  }

  /** Emits the base-100 digits, complemented below zero. */
  method EmitPairs(digits: array<digit>, numPairs: nat, prependZero: bool, isNegative: bool, ghost q: seq<digit>)
    returns (out: seq<byte>)
    requires |q| == 2 * numPairs
    requires prependZero ==> numPairs > 0 && q[0] == 0 && |q| - 1 <= digits.Length && digits[..|q| - 1] == q[1..]
    requires !prependZero ==> |q| <= digits.Length && digits[..|q|] == q
    ensures out == Body(isNegative, Pairs(q))
  {
    hide Body, DigitByte, PairOf;
    out := [];
    var digitsPos: nat := 0;
    var pair := 0;
    ghost var lead := if prependZero then 1 else 0;
    assert q[lead..] == digits[..|q| - lead];
    assert forall k :: lead <= k < |q| ==> q[k] == digits[k - lead] by {
      assert forall k :: lead <= k < |q| ==> q[k] == q[lead..][k - lead];
    }
    while pair < numPairs
      invariant 0 <= pair <= numPairs == |Pairs(q)|
      invariant digitsPos == if pair == 0 then 0 else 2 * pair - lead
      invariant |out| == pair && forall k :: 0 <= k < pair ==> out[k] == DigitByte(isNegative, Pairs(q)[k])
    {
      var d;
      d, digitsPos := NextPair(digits, digitsPos, pair == 0 && prependZero);
      assert d == PairOf(q[2 * pair], q[2 * pair + 1]);
      out := out + [DigitByte(isNegative, d)];
      pair := pair + 1;
    }
  }

  /** Completes the digits to whole pairs in place; an odd point leaves room for a zero in front. */
  method Align(digits: array<digit>, numDigits0: nat, point: int, ghost n: Num)
    returns (numDigits: nat, decimalPointIndex: int, prependZero: bool)
    requires digits.Length == DIGIT_SLOTS && numDigits0 <= MAX_DIGITS
    requires n.digits == digits[..numDigits0] && n.point == point
    modifies digits
    ensures numDigits == 0 <==> n.digits == []
    ensures prependZero == OddPoint(n)
    ensures n.digits != [] ==> numDigits == |Padded(n)| <= digits.Length && decimalPointIndex == 2 * Exp100(n)
    ensures n.digits != [] ==> digits[..numDigits - if prependZero then 1 else 0] == Padded(n)[if prependZero then 1 else 0..]
  {
    numDigits, decimalPointIndex, prependZero := numDigits0, point, false;
    if decimalPointIndex % 2 == 1 {
      prependZero := true;
      if numDigits > 0 {
        Push(digits, numDigits, 0);
        numDigits := numDigits + 1;
        decimalPointIndex := decimalPointIndex + 1;
      }
    }
    if numDigits % 2 == 1 {
      Push(digits, numDigits, 0);
      numDigits := numDigits + 1;
    }
    if prependZero && n.digits != [] {
      assert digits[..numDigits - 1] == Padded(n)[1..];
    }
  }

  /** int8 arithmetic on the halved point index, complemented below zero. */
  method ExponentByte(decimalPointIndex: int, isNegative: bool) returns (b: byte)
    requires -128 <= decimalPointIndex <= 126 && decimalPointIndex % 2 == 0
    ensures b == Comp(isNegative, 192 + decimalPointIndex / 2)
  {
    var exponentOnWire := decimalPointIndex / 2 - 64;  // -128 .. -1
    if isNegative {
      exponentOnWire := -1 - exponentOnWire;
    }
    b := exponentOnWire % 256;
  }

  lemma WireOf(n: Num, numPairs: nat)
    requires Representable(n) && n.digits != [] && 2 * numPairs == |Padded(n)|
    ensures Wire(n) == [Comp(n.neg, 192 + Exp100(n))] + Body(n.neg, Pairs(Padded(n)))
                     + if n.neg && 2 * numPairs < MAX_DIGITS then [102] else []
  {
  }

  /** Aligns the significant digits to pairs and emits exponent, pairs and trailer. */
  method Pack(digits: array<digit>, numDigits0: nat, point: int, isNegative: bool) returns (out: seq<byte>)
    requires digits.Length == DIGIT_SLOTS && numDigits0 <= MAX_DIGITS && -129 <= point <= 126
    modifies digits
    ensures out == Wire(Num(isNegative, old(digits[..numDigits0]), point))
  {
    ghost var n := Num(isNegative, digits[..numDigits0], point);
    var numDigits, decimalPointIndex, prependZero := Align(digits, numDigits0, point, n);
    var numPairs := numDigits / 2;
    if numDigits == 0 {
      return [128];
    }
    WireOf(n, numPairs);
    var exponentOnWire := ExponentByte(decimalPointIndex, isNegative);
    var body := EmitPairs(digits, numPairs, prependZero, isNegative, Padded(n));
    out := [exponentOnWire] + body;
    if isNegative && numDigits < MAX_DIGITS {
      out := out + [102];
    }
  }

  /** The array holds the mantissa's digits, and the point index fits them. */
  ghost predicate HoldsMantissa(digits: array<digit>, numDigits: nat, decimalPointIndex: int, whole: seq<digit>, frac: seq<digit>)
    reads digits
  {
    digits.Length == DIGIT_SLOTS
    && numDigits == |Significant(whole + frac)| <= digits.Length && digits[..numDigits] == Significant(whole + frac)
    && decimalPointIndex == |whole| - LeadingZeros(whole + frac)
  }

  method ScanWhole(value: string, start: nat, digits: array<digit>)
    returns (ok: bool, pos: nat, numDigits: nat, decimalPointIndex: int)
    requires start <= |value| <= MAX_CHARS && digits.Length == DIGIT_SLOTS
    modifies digits
    ensures start <= pos == DigitRun(value, start)
    ensures ok <==> pos == |value| || IsE(value[pos]) || value[pos] == '.'
    ensures HoldsMantissa(digits, numDigits, decimalPointIndex, Vals(value[start..pos]), [])
  {
    var skipped;
    ok, pos, numDigits, skipped := ScanDigits(value, start, false, digits, 0, []);
    decimalPointIndex := numDigits;
    ghost var whole := Vals(value[start..pos]);
    assert ReadSoFar([], value, start, pos) == whole == whole + [];
  }

  method ScanFraction(value: string, start: nat, digits: array<digit>, numDigits0: nat, point0: int, ghost whole: seq<digit>)
    returns (ok: bool, pos: nat, numDigits: nat, decimalPointIndex: int)
    requires start <= |value| && |whole| + |value| - start <= MAX_CHARS
    requires HoldsMantissa(digits, numDigits0, point0, whole, [])
    modifies digits
    ensures start <= pos == DigitRun(value, start)
    ensures ok <==> pos == |value| || IsE(value[pos])
    ensures HoldsMantissa(digits, numDigits, decimalPointIndex, whole, Vals(value[start..pos]))
  {
    var skipped;
    assert whole + [] == whole;
    ok, pos, numDigits, skipped := ScanDigits(value, start, true, digits, numDigits0, whole);
    decimalPointIndex := point0 - skipped;
    assert ReadSoFar(whole, value, start, pos) == whole + Vals(value[start..pos]);
  }

  /** The text up to its exponent part: sign, whole digits, fraction digits. */
  method ScanMantissa(value: string, digits: array<digit>)
    returns (ok: bool, pos: nat, numDigits: nat, decimalPointIndex: int)
    requires 0 < |value| <= MAX_CHARS && digits.Length == DIGIT_SLOTS
    modifies digits
    ensures pos == ParseMantissa(value).end
    ensures ok <==> pos == |value| || IsE(value[pos])
    ensures ok ==> HoldsMantissa(digits, numDigits, decimalPointIndex, ParseMantissa(value).whole, ParseMantissa(value).frac)
  {
    var start := if IsSign(value[0]) then 1 else 0;
    ok, pos, numDigits, decimalPointIndex := ScanWhole(value, start, digits);
    if pos < |value| && value[pos] == '.' {
      ok, pos, numDigits, decimalPointIndex :=
        ScanFraction(value, pos + 1, digits, numDigits, decimalPointIndex, Vals(value[start..pos]));
    }
  }

  /** Trims, checks the range, and packs what was scanned. */
  method Finish(digits: array<digit>, numDigits0: nat, decimalPointIndex: int, isNegative: bool, ghost lit: Literal)
    returns (r: Result<seq<byte>>)
    requires |lit.whole| + |lit.frac| <= MAX_CHARS
    requires digits.Length == DIGIT_SLOTS
    requires numDigits0 <= digits.Length && digits[..numDigits0] == Significant(lit.whole + lit.frac)
    requires decimalPointIndex == MachinePoint(lit) && isNegative == lit.neg
    modifies digits
    ensures r == if Representable(Normalize(lit)) then Ok(Wire(Normalize(lit))) else Err(NoRepresentation)
  {
    var numDigits := TrimTrailing(digits, numDigits0);
    MachinePointIsExact(lit);
    if numDigits > MAX_DIGITS || decimalPointIndex > 126 || decimalPointIndex < -129 {
      return Err(NoRepresentation);
    }
    var bytes := Pack(digits, numDigits, decimalPointIndex, isNegative);
    return Ok(bytes);
  }

  /** Encodes decimal text, appending the wire bytes to dst. */
  method EncodeNumber(dst: seq<byte>, value: string) returns (r: Result<seq<byte>>)
    ensures match Encode(value)
            case Ok(bytes) => r == Ok(dst + bytes)
            case Err(e) => r == Err(e)
  {
    if |value| == 0 {
      return Err(Empty);
    }
    if |value| > MAX_CHARS {
      return Err(TooLong);
    }
    var digits := new digit[DIGIT_SLOTS](_ => 0);
    var ok, pos, numDigits, decimalPointIndex := ScanMantissa(value, digits);
    if !ok {
      return Err(Invalid);
    }
    if pos < |value| {
      var e;
      ok, e := ScanExponent(value, pos);
      if !ok {
        return Err(Invalid);
      }
      decimalPointIndex := Wrap64(decimalPointIndex + e);
    }
    r := Finish(digits, numDigits, decimalPointIndex, value[0] == '-', Parse(value).value);
    if r.Ok? {
      r := Ok(dst + r.value);
    }
  }

  /** One base-100 byte stored into the digit slots; overrun reports the slice bounds panic. */
  method StoreByte(digits: array<int>, numDigits0: nat, point0: int, byt: byte, last: bool)
    returns (ok: bool, numDigits: nat, point: int)
    requires digits.Length == SLOTS && numDigits0 <= SLOTS
    modifies digits
    ensures var a := Step(Acc(old(digits[..numDigits0]), point0), byt, last);
            ok == (|a.digits| <= SLOTS)
            && (ok ==> numDigits == |a.digits| && digits[..numDigits] == a.digits && point == a.point)
  {
    numDigits, point := numDigits0, point0;
    var digit := byt / 10;
    if digit == 0 && numDigits == 0 {
      point := point - 1;
    } else if digit == 10 {
      if numDigits + 2 > SLOTS { return false, numDigits, point; }
      digits[numDigits] := 1;
      digits[numDigits + 1] := 0;
      numDigits := numDigits + 2;
      point := point + 1;
    } else {
      if numDigits + 1 > SLOTS { return false, numDigits, point; }
      digits[numDigits] := digit;
      numDigits := numDigits + 1;
    }
    digit := byt % 10;
    if digit != 0 || !last {
      if numDigits + 1 > SLOTS { return false, numDigits, point; }
      digits[numDigits] := digit;
      numDigits := numDigits + 1;
    }
    ok := true;
  }

  /** The text of count zeros. */
  method EmitZeros(count: int) returns (out: string)
    ensures out == if count > 0 then Text(Zeros(count)) else ""
  {
    out := "";
    var z := 0;
    while z < count
      invariant count >= 0 ==> 0 <= z <= count && out == Text(Zeros(z))
      invariant count < 0 ==> out == "" && z == 0
    {
      out := out + "0";
      z := z + 1;
    }
  }

  /** The digits with the point put in front of digit number decimalPointIndex, if that is not the first. */
  method EmitDigits(digits: array<int>, numDigits: nat, decimalPointIndex: int) returns (out: string, dotted: bool)
    requires numDigits <= digits.Length
    requires forall k :: 0 <= k < numDigits ==> 0 <= digits[k] <= 25
    ensures dotted == (0 < decimalPointIndex < numDigits)
    ensures dotted ==> out == Text(digits[..decimalPointIndex]) + "." + Text(digits[decimalPointIndex..numDigits])
    ensures !dotted ==> out == Text(digits[..numDigits])
  {
    out, dotted := "", false;
    var i := 0;
    while i < numDigits
      invariant 0 <= i <= numDigits
      invariant dotted == (0 < decimalPointIndex < i)
      invariant dotted ==> out == Text(digits[..decimalPointIndex]) + "." + Text(digits[decimalPointIndex..i])
      invariant !dotted ==> out == Text(digits[..i])
    {
      if i > 0 && i == decimalPointIndex {
        out := out + ".";
        dotted := true;
      }
      out := out + [(digits[i] + '0' as int) as char];
      i := i + 1;
    }
  }

  /** Sign, digits, point and padding zeros of the decoded number. */
  method EmitText(neg: bool, digits: array<int>, numDigits: nat, decimalPointIndex: int) returns (out: string, isInteger: bool)
    requires numDigits <= digits.Length && numDigits <= SLOTS
    requires forall k :: 0 <= k < numDigits ==> 0 <= digits[k] <= 25
    ensures out == Render(neg, Acc(digits[..numDigits], decimalPointIndex))
    ensures isInteger == (decimalPointIndex > 0 && decimalPointIndex >= numDigits)
  {
    ghost var ds := digits[..numDigits];
    out := if neg then "-" else "";
    isInteger := true;
    if decimalPointIndex <= 0 {
      var zeros := EmitZeros(-decimalPointIndex);
      out := out + "0." + zeros;
      isInteger := false;
    }
    var body, dotted := EmitDigits(digits, numDigits, decimalPointIndex);
    out := out + body;
    if dotted {
      isInteger := false;
      assert ds[..decimalPointIndex] == digits[..decimalPointIndex];
      assert ds[decimalPointIndex..] == digits[decimalPointIndex..numDigits];
    }
    var zeros := EmitZeros(decimalPointIndex - numDigits);
    out := out + zeros;
  }

  method DecodeNumber(b: seq<byte>) returns (r: Result<Decoded>)
    ensures r == Decode(b)
  {
    var n := |b|;
    if n > MAX_BYTES {
      return Err(TooLarge);
    }
    if n == 0 {
      return Err(Empty);
    }
    var isPositive := b[0] >= 128;
    var exponent := if isPositive then b[0] else 255 - b[0];
    var decimalPointIndex := Exponent8(exponent) * 2 + 2;
    if n == 1 {
      return if isPositive then Ok(Decoded("0", true, false)) else Ok(Decoded("", true, true));
    }
    if !isPositive && b[n - 1] == 102 {
      n := n - 1;
    }
    var digits := new int[SLOTS](_ => 0);
    var numDigits: nat := 0;
    ghost var whole := Unpack(b);
    assert b[1..n] == DigitsOf(b);
    var i := 1;
    while i < n
      invariant 1 <= i <= n && numDigits <= SLOTS
      invariant Fold(Acc(digits[..numDigits], decimalPointIndex), !isPositive, b[i..n]) == whole
    {
      assert b[i..n][0] == b[i] && b[i..n][1..] == b[i + 1..n];
      var ok;
      ok, numDigits, decimalPointIndex :=
        StoreByte(digits, numDigits, decimalPointIndex, BaseDigit(!isPositive, b[i]), i == n - 1);
      if !ok {
        return Err(IndexOutOfRange);
      }
      i := i + 1;
    }
    assert digits[..numDigits] == whole.digits && decimalPointIndex == whole.point;
    assert forall k :: 0 <= k < numDigits ==> digits[k] == whole.digits[k];
    var text, isInteger := EmitText(!isPositive, digits, numDigits, decimalPointIndex);
    return Ok(Decoded(text, isInteger, false));
  }
}
