// Comparing encoded NUMBERs byte by byte is comparing the numbers.
module NumberOrder {
  import opened Bytes
  import opened NumberText
  import opened NumberWire

  /** Unsigned lexicographic order, a proper prefix first. */
  predicate LexLess(a: seq<byte>, b: seq<byte>) {
    b != [] && (a == [] || a[0] < b[0] || (a[0] == b[0] && LexLess(a[1..], b[1..])))
  }

  lemma {:induction false} LexTotal(a: seq<byte>, b: seq<byte>)
    ensures a == b || LexLess(a, b) || LexLess(b, a)
    ensures !(LexLess(a, b) && LexLess(b, a))
    ensures !LexLess(a, a)
  {
    if a != [] && b != [] {
      LexTotal(a[1..], b[1..]);
      assert a == [a[0]] + a[1..] && b == [b[0]] + b[1..];
    }
    if a != [] { LexIrreflexive(a); }
  }

  lemma {:induction false} LexIrreflexive(a: seq<byte>)
    ensures !LexLess(a, a)
  {
    if a != [] { LexIrreflexive(a[1..]); }
  }

  /** 0.p1p2... in base 100. */
  function Frac100(ps: seq<pair>): (r: real)
    ensures 0.0 <= r < 1.0
  {
    if ps == [] then 0.0 else (ps[0] as real + Frac100(ps[1..])) / 100.0
  }

  lemma {:induction false} PairsKeepValue(q: seq<digit>)
    requires |q| % 2 == 0
    ensures Frac100(Pairs(q)) == Frac10(q)
    decreases |q|
  {
    if q != [] {
      PairsKeepValue(q[2..]);
      assert Pairs(q)[1..] == Pairs(q[2..]);
      assert q[1..][1..] == q[2..];
      assert PairOf(q[0], q[1]) as real == 10.0 * q[0] as real + q[1] as real;
    }
  }

  lemma {:induction false} FracPositive(ps: seq<pair>)
    requires ps != [] && ps[|ps| - 1] != 0
    ensures Frac100(ps) > 0.0
  {
    if |ps| > 1 { FracPositive(ps[1..]); }
  }

  function Magnitude(n: Num): real {
    Scale(Frac10(n.digits), n.point)
  }

  function Magnitude100(n: Num): real {
    Scale(Frac100(Pairs(Padded(n))), 2 * Exp100(n))
  }

  /** Padding an odd point moves the value from base 10 to base 100 unchanged. */
  lemma MagnitudeIn100(n: Num)
    requires Canonical(n)
    ensures Magnitude(n) == Magnitude100(n)
  {
    var q := Padded(n);
    var lead := if OddPoint(n) then 1 else 0;
    PairsKeepValue(q);
    DropTrailingZeros(q, lead + |n.digits|);
    var ds := q[..lead + |n.digits|];
    DropLeadingZeros(ds, lead, 2 * Exp100(n));
    assert ds[lead..] == n.digits;
  }

  lemma PairsEnds(n: Num)
    requires Canonical(n)
    ensures var ps := Pairs(Padded(n)); ps != [] && ps[0] != 0 && ps[|ps| - 1] != 0
  {
    PaddedShape(n);
    var q := Padded(n);
    var ps := Pairs(q);
    assert ps[|ps| - 1] == PairOf(q[|q| - 2], q[|q| - 1]);
  }

  // ---- digits ----

  lemma {:induction false} BodyOrderPositive(p: seq<pair>, q: seq<pair>)
    requires LexLess(Body(false, p), Body(false, q))
    requires q[|q| - 1] != 0
    ensures Frac100(p) < Frac100(q)
    decreases |p|
  {
    if p == [] {
      FracPositive(q);
    } else if p[0] == q[0] {
      assert Body(false, p)[1..] == Body(false, p[1..]);
      assert Body(false, q)[1..] == Body(false, q[1..]);
      BodyOrderPositive(p[1..], q[1..]);
    } else {
      assert p[0] + 1 <= q[0];
    }
  }

  /** Digits and trailer of a negative number with room for `room` pairs. */
  function NegTail(ps: seq<pair>, room: nat): seq<byte> {
    Body(true, ps) + if |ps| < room then [102] else []
  }

  lemma TrailerComesLast(q: seq<pair>, room: nat)
    requires room > 0
    ensures !LexLess(NegTail([], room), NegTail(q, room))
  {
    assert NegTail([], room) == [102];
    if q == [] { LexIrreflexive([102]); }
  }

  lemma TailCons(p: seq<pair>, room: nat)
    requires p != [] && room > 0
    ensures NegTail(p, room) == [DigitByte(true, p[0])] + NegTail(p[1..], room - 1)
  {
    Associate([DigitByte(true, p[0])], Body(true, p[1..]), if |p| < room then [102] else []);
  }

  lemma NoRoom(p: seq<pair>, q: seq<pair>)
    requires |p| <= 1 && |q| <= 1 && LexLess(NegTail(p, 0), NegTail(q, 0)) && !(|q| == 1 && p == [])
    requires p != [] ==> p[0] != 0
    ensures Frac100(p) > Frac100(q)
  {
    assert p != [] && q != [] && p[0] != q[0];
  }

  /** There is no trailer behind a full set of pairs: one more pair then comes last although it counts downwards. */
  lemma {:induction false} BodyOrderNegative(p: seq<pair>, q: seq<pair>, room: nat)
    requires |p| <= room + 1 && |q| <= room + 1
    requires LexLess(NegTail(p, room), NegTail(q, room)) && !(|q| == room + 1 && p == q[..room])
    requires p != [] ==> p[|p| - 1] != 0
    ensures Frac100(p) > Frac100(q)
    decreases room
  {
    hide NegTail;
    if room == 0 {
      NoRoom(p, q);
    } else if p == [] {
      TrailerComesLast(q, room);
      assert false;
    } else if q == [] {
      FracPositive(p);
    } else {
      TailCons(p, room);
      TailCons(q, room);
      if p[0] == q[0] {
        if |q| == room + 1 { assert p == [p[0]] + p[1..] && q[..room] == [q[0]] + q[1..][..room - 1]; }
        BodyOrderNegative(p[1..], q[1..], room - 1);
      } else {
        assert q[0] + 1 <= p[0];
      }
    }
  }

  // ---- exponents ----

  lemma {:induction false} ScaleMonotone(x: real, e: int, f: int)
    requires x >= 0.0 && e <= f
    ensures Scale(x, e) <= Scale(x, f)
    decreases f - e
  {
    ScaleLinear(0.0, x, e);
    ScaleZero(e);
    if e < f {
      ScaleMonotone(x, e + 1, f);
    }
  }

  lemma {:induction false} ScaleZero(e: int)
    ensures Scale(0.0, e) == 0.0
  {
    ScaleLinear(0.0, 0.0, e);
  }

  /** A bigger exponent of 100 beats any digits. */
  lemma ExponentDominates(p: seq<pair>, q: seq<pair>, e: int, f: int)
    requires q != [] && q[0] != 0 && e < f
    ensures Scale(Frac100(p), 2 * e) < Scale(Frac100(q), 2 * f)
  {
    ScaleLinear(Frac100(p), 1.0, 2 * e);
    ScaleTen(0.1, 2 * e);
    ScaleTen(0.01, 2 * e + 1);
    assert Scale(1.0, 2 * e) == Scale(0.01, 2 * e + 2);
    ScaleMonotone(0.01, 2 * e + 2, 2 * f);
    assert Frac100(q) >= 0.01;
    ScaleLinear(0.01, Frac100(q), 2 * f);
  }

  lemma MagnitudePositive(n: Num)
    requires Canonical(n)
    ensures Magnitude(n) > 0.0
  {
    hide Magnitude, Canonical, Scale, Frac100, Pairs, Padded, Exp100, PairOf;
    Magnitude100Positive(n);
    MagnitudeIn100(n);
  }

  lemma Magnitude100Positive(n: Num)
    requires Canonical(n)
    ensures Scale(Frac100(Pairs(Padded(n))), 2 * Exp100(n)) > 0.0
  {
    hide *;
    PairsEnds(n);
    PositiveScaled(Pairs(Padded(n)), 2 * Exp100(n));
  }

  lemma PositiveScaled(ps: seq<pair>, e: int)
    requires ps != [] && ps[|ps| - 1] != 0
    ensures Scale(Frac100(ps), e) > 0.0
  {
    hide Scale, Frac100;
    FracPositive(ps);
    ScaleLinear(0.0, Frac100(ps), e);
    ScaleZero(e);
  }

  predicate Encodable(n: Num) {
    Canonical(n) && Representable(n)
  }

  /** b is a 22-byte encoding below zero and a is all of it but its last byte. */
  predicate CutShort(a: seq<byte>, b: seq<byte>) {
    |b| == 22 && b[0] < 128 && a == b[..21]
  }

  lemma WireTail(n: Num)
    requires Encodable(n)
    ensures Wire(n)[1..] == if n.neg then NegTail(Pairs(Padded(n)), 20) else Body(false, Pairs(Padded(n)))
    ensures |Pairs(Padded(n))| <= 21 && (n.neg <==> Wire(n)[0] < 128)
  {
    WireSignBit(n);
    PairCount(n);
    var ps := Pairs(Padded(n));
    assert Wire(n) == [Comp(n.neg, 192 + Exp100(n))] + (Body(n.neg, ps) + Tail(n.neg, |ps|));
  }

  lemma SameExponent(x: Num, y: Num)
    requires Encodable(x) && Encodable(y) && x.neg == y.neg
    ensures Wire(x) != [] && Wire(y) != [] && (Wire(x)[0] == Wire(y)[0] ==> Exp100(x) == Exp100(y))
  {
    hide Pairs, Padded, Body;
  }

  lemma FirstTwenty(p: seq<pair>, q: seq<pair>)
    requires |q| == 21 && p == q[..20]
    ensures |NegTail(q, 20)| == 21 && NegTail(p, 20) == NegTail(q, 20)[..20]
  {
    assert NegTail(p, 20) == Body(true, p) && NegTail(q, 20) == Body(true, q);
    assert Body(true, p) == Body(true, q)[..20];
  }

  /** Twenty-one pairs of which the other number has the first twenty: its wire form is cut short. */
  lemma FullPairsAreCut(x: Num, y: Num)
    requires Encodable(x) && Encodable(y) && x.neg && y.neg && Wire(x) != [] && Wire(y) != [] && Wire(x)[0] == Wire(y)[0]
    requires var p, q := Pairs(Padded(x)), Pairs(Padded(y)); |q| == 21 && p == q[..20]
    ensures CutShort(Wire(x), Wire(y))
  {
    hide Wire, Pairs, Padded, Body, NegTail;
    var p, q := Pairs(Padded(x)), Pairs(Padded(y));
    WireTail(x);
    WireTail(y);
    FirstTwenty(p, q);
    assert Wire(y)[..21] == [Wire(y)[0]] + Wire(y)[1..][..20];
    assert Wire(x) == [Wire(x)[0]] + Wire(x)[1..];
  }

  lemma SameExponentOrder(x: Num, y: Num)
    requires Encodable(x) && Encodable(y) && x.neg == y.neg
    requires Wire(x)[0] == Wire(y)[0] && LexLess(Wire(x), Wire(y)) && !CutShort(Wire(x), Wire(y))
    ensures if x.neg then Magnitude100(x) > Magnitude100(y) else Magnitude100(x) < Magnitude100(y)
  {
    hide Wire, Pairs, Padded, Body, NegTail, Scale, Frac100, Exp100, CutShort;
    var p, q := Pairs(Padded(x)), Pairs(Padded(y));
    PairsEnds(x);
    PairsEnds(y);
    WireTail(x);
    WireTail(y);
    SameExponent(x, y);
    assert LexLess(Wire(x)[1..], Wire(y)[1..]);
    if x.neg {
      if |q| == 21 && p == q[..20] { FullPairsAreCut(x, y); }
      BodyOrderNegative(p, q, 20);
    } else {
      BodyOrderPositive(p, q);
    }
    ScaleLinear(Frac100(p), Frac100(q), 2 * Exp100(x));
    ScaleLinear(Frac100(q), Frac100(p), 2 * Exp100(x));
  }

  lemma ExponentOrder(x: Num, y: Num)
    requires Encodable(x) && Encodable(y) && x.neg == y.neg
    requires Wire(x)[0] != Wire(y)[0] && LexLess(Wire(x), Wire(y))
    ensures if x.neg then Magnitude100(x) > Magnitude100(y) else Magnitude100(x) < Magnitude100(y)
  {
    PairsEnds(x);
    PairsEnds(y);
    assert Wire(x)[0] < Wire(y)[0];
    if x.neg {
      ExponentDominates(Pairs(Padded(y)), Pairs(Padded(x)), Exp100(y), Exp100(x));
    } else {
      ExponentDominates(Pairs(Padded(x)), Pairs(Padded(y)), Exp100(x), Exp100(y));
    }
  }

  /** Same sign: the lexicographically smaller wire form has the smaller value. */
  lemma SameSignOrder(x: Num, y: Num)
    requires Encodable(x) && Encodable(y) && x.neg == y.neg
    requires LexLess(Wire(x), Wire(y)) && !CutShort(Wire(x), Wire(y))
    ensures if x.neg then Magnitude(x) > Magnitude(y) else Magnitude(x) < Magnitude(y)
  {
    MagnitudeIn100(x);
    MagnitudeIn100(y);
    if Wire(x)[0] == Wire(y)[0] { SameExponentOrder(x, y); } else { ExponentOrder(x, y); }
  }

  lemma OrderForward(x: Num, y: Num)
    requires x.digits == [] || Canonical(x)
    requires y.digits == [] || Canonical(y)
    requires Representable(x) && Representable(y)
    requires LexLess(Wire(x), Wire(y)) && !CutShort(Wire(x), Wire(y))
    ensures NumValue(x) < NumValue(y)
  {
    WireSignBit(x);
    WireSignBit(y);
    if x.digits == [] { ZeroValue(x); } else { MagnitudePositive(x); }
    if y.digits == [] { ZeroValue(y); } else { MagnitudePositive(y); }
    if x.digits != [] && y.digits != [] && x.neg == y.neg { SameSignOrder(x, y); }
  }

  lemma {:induction false} OneMorePair(p: seq<pair>, z: pair)
    requires z != 0
    ensures Frac100(p) < Frac100(p + [z])
  {
    if p != [] {
      OneMorePair(p[1..], z);
      assert (p + [z])[1..] == p[1..] + [z];
    }
  }

  lemma TailBytes(ps: seq<pair>, room: nat)
    ensures |NegTail(ps, room)| == |ps| + if |ps| < room then 1 else 0
    ensures forall k :: 0 <= k < |ps| ==> NegTail(ps, room)[k] == DigitByte(true, ps[k]) <= 101
    ensures |ps| < room ==> NegTail(ps, room)[|ps|] == 102
    ensures |ps| >= room ==> NegTail(ps, room) == Body(true, ps)
  {
  }

  lemma FullTail(p: seq<pair>, q: seq<pair>)
    requires |p| <= 21 && |q| <= 21
    requires |NegTail(q, 20)| == 21 && NegTail(p, 20) == NegTail(q, 20)[..20]
    ensures |p| == 20 && |q| == 21 && Body(true, p) == Body(true, q)[..20]
  {
    hide NegTail, Body;
    TailBytes(p, 20);
    TailBytes(q, 20);
  }

  /** The pairs of an encoding that is cut short are all of the other's but the last. */
  lemma CutShortPairs(x: Num, y: Num)
    requires Encodable(x) && Encodable(y) && CutShort(Wire(x), Wire(y))
    ensures x.neg && y.neg && Exp100(x) == Exp100(y)
    ensures var p, q := Pairs(Padded(x)), Pairs(Padded(y)); |q| == 21 && p == q[..20]
  {
    hide Pairs, Padded, Body, NegTail, Exp100;
    var p, q := Pairs(Padded(x)), Pairs(Padded(y));
    WireTail(x);
    WireTail(y);
    assert Wire(x)[0] == Wire(y)[0];
    assert Wire(x)[1..] == Wire(y)[1..][..20];
    FullTail(p, q);
  }

  /** It is the smaller byte string and the greater number. */
  lemma CutShortIsGreater(x: Num, y: Num)
    requires x.digits == [] || Canonical(x)
    requires y.digits == [] || Canonical(y)
    requires Representable(x) && Representable(y) && CutShort(Wire(x), Wire(y))
    ensures LexLess(Wire(x), Wire(y)) && NumValue(x) > NumValue(y)
  {
    hide Pairs, Padded, Body, Wire;
    WireSignBit(x);
    WireSignBit(y);
    CutShortPairs(x, y);
    var p, q, e := Pairs(Padded(x)), Pairs(Padded(y)), 2 * Exp100(x);
    PairsEnds(y);
    OneMorePair(p, q[20]);
    assert q == p + [q[20]];
    ScaleLinear(Frac100(p), Frac100(q), e);
    MagnitudeIn100(x);
    MagnitudeIn100(y);
    PrefixIsLess(Wire(x), [Wire(y)[21]]);
    assert Wire(y) == Wire(x) + [Wire(y)[21]];
  }

  /**
   * For any two accepted texts, unsigned byte order of the encodings is the order of the numbers the texts denote,
   * exactly unless one is a 22-byte encoding below zero and the other is all of it but its last byte. Equal encodings
   * always mean equal numbers.
   */
  lemma ByteOrderIsNumericOrderIff(s: string, t: string)
    requires Encode(s).Ok? && Encode(t).Ok?
    ensures var a, b := Encode(s).value, Encode(t).value;
            (LexLess(a, b) <==> LiteralValue(Parse(s).value) < LiteralValue(Parse(t).value)) <==> !(CutShort(a, b) || CutShort(b, a))
    ensures Encode(s).value == Encode(t).value <==> LiteralValue(Parse(s).value) == LiteralValue(Parse(t).value)
  {
    hide Wire, LiteralValue, NumValue, Normalize, CutShort;
    var x, y := Meant(s), Meant(t);
    NormalizeKeepsValue(Parse(s).value);
    NormalizeKeepsValue(Parse(t).value);
    LexTotal(Wire(x), Wire(y));
    if CutShort(Wire(x), Wire(y)) {
      CutShortIsGreater(x, y);
    } else if CutShort(Wire(y), Wire(x)) {
      CutShortIsGreater(y, x);
    } else if LexLess(Wire(x), Wire(y)) {
      OrderForward(x, y);
    } else if LexLess(Wire(y), Wire(x)) {
      OrderForward(y, x);
    } else {
      SameWireSameValue(x, y);
    }
  }

  /** So within the 21 bytes the decoder takes, byte order and numeric order are the same. */
  lemma ByteOrderIsNumericOrder(s: string, t: string)
    requires Encode(s).Ok? && |Encode(s).value| <= MAX_BYTES
    requires Encode(t).Ok? && |Encode(t).value| <= MAX_BYTES
    ensures LexLess(Encode(s).value, Encode(t).value) <==> LiteralValue(Parse(s).value) < LiteralValue(Parse(t).value)
    ensures Encode(s).value == Encode(t).value <==> LiteralValue(Parse(s).value) == LiteralValue(Parse(t).value)
  {
    hide Encode, LiteralValue, Parse;
    ByteOrderIsNumericOrderIff(s, t);
  }

  lemma SameWireSameValue(x: Num, y: Num)
    requires x.digits == [] || Canonical(x)
    requires y.digits == [] || Canonical(y)
    requires Representable(x) && Representable(y)
    requires Wire(x) == Wire(y)
    ensures NumValue(x) == NumValue(y)
  {
    if x.digits != [] { UnpackWire(x); } else { ZeroValue(x); }
    if y.digits != [] { UnpackWire(y); } else { ZeroValue(y); }
    WireSignBit(x);
    WireSignBit(y);
  }

  /**
   * The 21-byte bound is needed: a 40-digit negative number at an odd point and its 39-digit
   * prefix are ordered the wrong way round by their bytes.
   */
  lemma WideNumbersBreakTheOrder()
    ensures var x := Num(true, seq(39, _ => 1), 1);
            var y := Num(true, seq(40, _ => 1), 1);
            Representable(x) && Representable(y) && TooWide(y)
            && LexLess(Wire(x), Wire(y)) && NumValue(x) > NumValue(y)
  {
    var x := Num(true, seq(39, _ => 1), 1);
    var y := Num(true, seq(40, _ => 1), 1);
    WideWire(x, y);
    PrefixIsLess(Wire(x), [91]);
    assert y.digits == x.digits + [1];
    Frac10Snoc(x.digits, 1, 1);
    ScaleLinear(0.0, 1.0, -39);
    ScaleZero(-39);
  }

  lemma WideWire(x: Num, y: Num)
    requires x == Num(true, seq(39, _ => 1), 1)
    requires y == Num(true, seq(40, _ => 1), 1)
    ensures Wire(y) == Wire(x) + [91]
  {
    var qx, qy := Padded(x), Padded(y);
    assert |qx| == 40 && |qy| == 42;
    assert qx[0] == 0 && qy[0] == 0;
    assert qx[39] == qy[39] == 1;
    assert forall k :: 0 <= k < 40 ==> qx[k] == qy[k];
    assert qy[40] == 1 && qy[41] == 0;
    var p, q := Pairs(qx), Pairs(qy);
    assert forall k :: 0 <= k < 20 ==> p[k] == q[k];
    assert Body(true, q) == Body(true, p) + [91];
  }

  lemma {:induction false} PrefixIsLess(a: seq<byte>, b: seq<byte>)
    requires b != []
    ensures LexLess(a, a + b)
  {
    if a != [] {
      assert (a + b)[1..] == a[1..] + b;
      PrefixIsLess(a[1..], b);
    }
  }
}
