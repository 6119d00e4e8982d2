// Decimal text as EncodeNumber reads it and DecodeNumber writes it, and the
// real number such text denotes.
module NumberText {
  import opened Bytes

  type digit = d: int | 0 <= d <= 9

  /** A spelled number, cut where EncodeNumber cuts it. No exponent reads as exp == []. */
  datatype Literal = Literal(neg: bool, whole: seq<digit>, frac: seq<digit>, expNeg: bool, exp: seq<digit>)

  /** A number as sign, digits d1 d2 ... and the position of the point: 0.d1d2... * 10^point. */
  datatype Num = Num(neg: bool, digits: seq<digit>, point: int)

  // ---- denotation ----

  /** x times ten to the e. */
  function Scale(x: real, e: int): real
    decreases if e < 0 then -e else e
  {
    if e == 0 then x else if e > 0 then 10.0 * Scale(x, e - 1) else Scale(x, e + 1) / 10.0
  }

  lemma {:induction false} ScaleLinear(x: real, y: real, e: int)
    ensures Scale(x + y, e) == Scale(x, e) + Scale(y, e)
    ensures Scale(-x, e) == -Scale(x, e)
    ensures x < y ==> Scale(x, e) < Scale(y, e)
    decreases if e < 0 then -e else e
  {
    if e > 0 { ScaleLinear(x, y, e - 1); } else if e < 0 { ScaleLinear(x, y, e + 1); }
  }

  lemma {:induction false} ScaleTen(x: real, e: int)
    ensures Scale(10.0 * x, e) == Scale(x, e + 1)
    decreases if e < 0 then -e else e
  {
    if e > 0 { ScaleTen(x, e - 1); } else if e < 0 { ScaleTen(x, e + 1); }
  }

  lemma {:induction false} ScaleAdd(x: real, a: int, b: int)
    ensures Scale(Scale(x, a), b) == Scale(x, a + b)
    decreases if b < 0 then -b else b
  {
    if b > 0 {
      ScaleAdd(x, a, b - 1);
    } else if b < 0 {
      ScaleAdd(x, a, b + 1);
    }
  }

  /** Schoolbook value of a digit string. */
  function Horner(ds: seq<digit>): nat {
    if ds == [] then 0 else 10 * Horner(ds[..|ds| - 1]) + ds[|ds| - 1]
  }

  /** 0.d1d2d3... */
  function Frac10(ds: seq<digit>): (r: real)
    ensures 0.0 <= r < 1.0
  {
    if ds == [] then 0.0 else (ds[0] as real + Frac10(ds[1..])) / 10.0
  }

  function Signed(neg: bool, x: real): real {
    if neg then -x else x
  }

  function Exponent(lit: Literal): int {
    var e: int := Horner(lit.exp);
    if lit.expNeg then -e else e
  }

  /** What the text means: the digits as an integer, scaled by the fraction length and exponent. */
  function LiteralValue(lit: Literal): real {
    Signed(lit.neg, Scale(Horner(lit.whole + lit.frac) as real, Exponent(lit) - |lit.frac|))
  }

  function NumValue(n: Num): real {
    Signed(n.neg, Scale(Frac10(n.digits), n.point))
  }

  // ---- grammar ----

  predicate IsDigit(c: char) {
    '0' <= c <= '9'
  }

  predicate IsE(c: char) {
    c == 'e' || c == 'E'
  }

  predicate IsSign(c: char) {
    c == '-' || c == '+'
  }

  function DigitRun(s: string, i: nat): (j: nat)
    requires i <= |s|
    ensures i <= j <= |s|
    ensures forall k :: i <= k < j ==> IsDigit(s[k])
    ensures j < |s| ==> !IsDigit(s[j])
    decreases |s| - i
  {
    if i < |s| && IsDigit(s[i]) then DigitRun(s, i + 1) else i
  }

  function Val(c: char): digit
    requires IsDigit(c)
  {
    c as int - '0' as int
  }

  function Vals(s: string): (ds: seq<digit>)
    requires forall k :: 0 <= k < |s| ==> IsDigit(s[k])
    ensures |ds| == |s|
  {
    seq(|s|, k requires 0 <= k < |s| => Val(s[k]))
  }

  function Chars(ds: seq<digit>): (s: string)
    ensures |s| == |ds|
    ensures forall k :: 0 <= k < |s| ==> IsDigit(s[k])
  {
    seq(|ds|, k requires 0 <= k < |ds| => (ds[k] + '0' as int) as char)
  }

  /** The exponent part s[k..], when s[k] is an 'e'. */
  function ParseExponent(s: string, k: nat): (r: Option<(bool, seq<digit>)>)
    requires k < |s| && IsE(s[k])
  {
    var m := if k + 1 < |s| && IsSign(s[k + 1]) then k + 2 else k + 1;
    var e := DigitRun(s, m);
    if m < e == |s| then Some((k + 1 < |s| && s[k + 1] == '-', Vals(s[m..e]))) else None
  }

  /** Where the mantissa ends, and its whole and fraction digits. */
  datatype Mantissa = Mantissa(end: nat, whole: seq<digit>, frac: seq<digit>)

  function ParseMantissa(s: string): (m: Mantissa)
    requires s != []
    ensures m.end <= |s| && |m.whole| + |m.frac| <= |s|
  {
    var i := if IsSign(s[0]) then 1 else 0;
    var j := DigitRun(s, i);
    if j < |s| && s[j] == '.' then
      var k := DigitRun(s, j + 1);
      Mantissa(k, Vals(s[i..j]), Vals(s[j + 1..k]))
    else
      Mantissa(j, Vals(s[i..j]), [])
  }

  /** [sign] digits* [ '.' digits* ] [ ('e'|'E') [sign] digits+ ], to the end of the text. */
  function Parse(s: string): (r: Option<Literal>)
    requires s != []
  {
    var m := ParseMantissa(s);
    if m.end == |s| then Some(Literal(s[0] == '-', m.whole, m.frac, false, []))
    else if !IsE(s[m.end]) then None
    else match ParseExponent(s, m.end)
      case None => None
      case Some((expNeg, exp)) => Some(Literal(s[0] == '-', m.whole, m.frac, expNeg, exp))
  }

  // ---- normal form ----

  function LeadingZeros(ds: seq<digit>): (n: nat)
    ensures n <= |ds|
    ensures forall k :: 0 <= k < n ==> ds[k] == 0
    ensures n < |ds| ==> ds[n] != 0
  {
    if ds == [] || ds[0] != 0 then 0 else 1 + LeadingZeros(ds[1..])
  }

  function StripTrailing(ds: seq<digit>): (r: seq<digit>)
    ensures r <= ds
    ensures r != [] ==> r[|r| - 1] != 0
    ensures forall k :: |r| <= k < |ds| ==> ds[k] == 0
  {
    if ds == [] || ds[|ds| - 1] != 0 then ds else StripTrailing(ds[..|ds| - 1])
  }

  /** The literal without redundant zeros, its point where the value puts it. */
  function Normalize(lit: Literal): (n: Num)
    ensures n.digits != [] ==> n.digits[0] != 0 && n.digits[|n.digits| - 1] != 0
  {
    var ds := lit.whole + lit.frac;
    var z := LeadingZeros(ds);
    Num(lit.neg, StripTrailing(ds[z..]), |lit.whole| - z + Exponent(lit))
  }

  // ---- normalizing keeps the value ----

  lemma {:induction false} HornerScaled(ds: seq<digit>, e: int)
    ensures Scale(Horner(ds) as real, e - |ds|) == Scale(Frac10(ds), e)
  {
    if ds == [] {
    } else {
      var init, last := ds[..|ds| - 1], ds[|ds| - 1];
      HornerScaled(init, e);
      assert e - |init| == (e - |ds|) + 1;
      ScaleTen(Horner(init) as real, e - |ds|);
      ScaleLinear(10.0 * Horner(init) as real, last as real, e - |ds|);
      assert Horner(ds) as real == 10.0 * Horner(init) as real + last as real;
      Frac10Snoc(init, last, e);
      assert ds == init + [last];
    }
  }

  /** Peels the first digit off a scaled fraction. */
  lemma Frac10Head(ds: seq<digit>, e: int)
    requires ds != []
    ensures Scale(Frac10(ds), e) == Scale(ds[0] as real, e - 1) + Scale(Frac10(ds[1..]), e - 1)
  {
    ScaleTen(Frac10(ds), e - 1);
    ScaleLinear(ds[0] as real, Frac10(ds[1..]), e - 1);
    assert 10.0 * Frac10(ds) == ds[0] as real + Frac10(ds[1..]);
  }

  lemma {:induction false} Frac10Snoc(init: seq<digit>, last: digit, e: int)
    ensures Scale(Frac10(init + [last]), e) == Scale(Frac10(init), e) + Scale(last as real, e - |init| - 1)
  {
    var ds := init + [last];
    Frac10Head(ds, e);
    if init == [] {
      assert ds[1..] == [];
      ScaleLinear(0.0, 0.0, e);
      ScaleLinear(0.0, 0.0, e - 1);
    } else {
      assert ds[1..] == init[1..] + [last];
      Frac10Snoc(init[1..], last, e - 1);
      Frac10Head(init, e);
    }
  }

  lemma {:induction false} DropLeadingZeros(ds: seq<digit>, z: nat, e: int)
    requires z <= |ds| && forall k :: 0 <= k < z ==> ds[k] == 0
    ensures Scale(Frac10(ds), e) == Scale(Frac10(ds[z..]), e - z)
    decreases z
  {
    if z > 0 {
      DropLeadingZeros(ds[1..], z - 1, e - 1);
      assert ds[1..][z - 1..] == ds[z..];
      Frac10Head(ds, e);
      ScaleLinear(0.0, 0.0, e - 1);
    } else {
      assert ds[0..] == ds;
    }
  }

  lemma {:induction false} DropTrailingZeros(ds: seq<digit>, n: nat)
    requires n <= |ds| && forall k :: n <= k < |ds| ==> ds[k] == 0
    ensures Frac10(ds) == Frac10(ds[..n])
  {
    if ds != [] {
      if n > 0 {
        DropTrailingZeros(ds[1..], n - 1);
        assert ds[..n][1..] == ds[1..][..n - 1];
      } else {
        DropTrailingZeros(ds[1..], 0);
        assert ds[1..][..0] == [];
      }
    } else {
      assert ds[..n] == ds;
    }
  }

  /** Dropping redundant zeros and moving the point changes nothing about the number meant. */
  lemma NormalizeKeepsValue(lit: Literal)
    ensures NumValue(Normalize(lit)) == LiteralValue(lit)
  {
    hide Horner, Scale;
    var ds := lit.whole + lit.frac;
    var z := LeadingZeros(ds);
    var e := |lit.whole| + Exponent(lit);
    HornerScaled(ds, e);
    assert e - |ds| == Exponent(lit) - |lit.frac|;
    DropLeadingZeros(ds, z, e);
    DropTrailingZeros(ds[z..], |StripTrailing(ds[z..])|);
    assert ds[z..][..|StripTrailing(ds[z..])|] == StripTrailing(ds[z..]);
  }

  // ---- canonical text ----

  function Zeros(n: nat): (ds: seq<digit>)
    ensures |ds| == n
  {
    seq(n, _ => 0)
  }

  predicate IsInteger(n: Num) {
    n.point >= |n.digits|
  }

  /** Digits and point of the text DecodeNumber writes: never an exponent. */
  function WholePart(n: Num): seq<digit> {
    if n.point <= 0 then [0]
    else if n.point < |n.digits| then n.digits[..n.point]
    else n.digits + Zeros(n.point - |n.digits|)
  }

  function FracPart(n: Num): seq<digit> {
    if n.point <= 0 then Zeros(-n.point) + n.digits
    else if n.point < |n.digits| then n.digits[n.point..]
    else []
  }

  predicate Canonical(n: Num) {
    n.digits != [] && n.digits[0] != 0 && n.digits[|n.digits| - 1] != 0
  }

  /** A number in plain notation: "0" for zero, otherwise sign, whole part, and a fraction only if there is one. */
  function Plain(n: Num): string {
    if n.digits == [] then "0"
    else (if n.neg then "-" else "") + Chars(WholePart(n)) + (if IsInteger(n) then "" else "." + Chars(FracPart(n)))
  }

  /** A digit's character is the numeral itself. */
  lemma CharsAreNumerals(ds: seq<digit>, k: nat)
    requires k < |ds|
    ensures Chars(ds)[k] == "0123456789"[ds[k]]
  {
    assert forall d: digit :: (d + '0' as int) as char == "0123456789"[d];
  }

  lemma ValsOfChars(ds: seq<digit>)
    ensures Vals(Chars(ds)) == ds
  {
  }

  // ---- which texts are numbers, and what they mean ----

  /** A text cut into its parts: signs and the exponent's letter as written; point tells whether there is a point. */
  datatype Spelling = Spelling(sign: string, whole: seq<digit>, point: bool, frac: seq<digit>,
                               e: string, expSign: string, exp: seq<digit>)

  predicate SignText(t: string) {
    t == "" || t == "+" || t == "-"
  }

  /** Digits may be missing on either side of the point, but not behind the exponent's letter. */
  predicate Proper(sp: Spelling) {
    SignText(sp.sign) && (sp.point || sp.frac == [])
    && (if sp.e == "" then sp.expSign == "" && sp.exp == []
        else (sp.e == "e" || sp.e == "E") && SignText(sp.expSign) && sp.exp != [])
    && (sp.sign != "" || sp.whole != [] || sp.point || sp.e != "")
  }

  function PointText(sp: Spelling): string {
    if sp.point then "." + Chars(sp.frac) else ""
  }

  function ExponentText(sp: Spelling): string {
    if sp.e == "" then "" else sp.e + sp.expSign + Chars(sp.exp)
  }

  function Spell(sp: Spelling): string {
    sp.sign + Chars(sp.whole) + PointText(sp) + ExponentText(sp)
  }

  /** Only a minus sign counts. */
  function LiteralOf(sp: Spelling): Literal {
    Literal(sp.sign == "-", sp.whole, sp.frac, sp.expSign == "-", sp.exp)
  }

  lemma RunEndsAt(s: string, i: nat, j: nat)
    requires i <= j <= |s| && (forall k :: i <= k < j ==> IsDigit(s[k])) && (j < |s| ==> !IsDigit(s[j]))
    ensures DigitRun(s, i) == j
  {
    hide IsDigit;
  }

  /** Scanning digits stops right behind them. */
  lemma RunOfDigits(pre: string, ds: seq<digit>, post: string)
    requires post == [] || !IsDigit(post[0])
    ensures var s := pre + Chars(ds) + post;
            DigitRun(s, |pre|) == |pre| + |ds| && s[|pre|..|pre| + |ds|] == Chars(ds) && s[|pre| + |ds|..] == post
  {
    hide IsDigit, DigitRun;
    var body := Chars(ds);
    var s := pre + body + post;
    var j := |pre| + |body|;
    assert forall k :: |pre| <= k < j ==> s[k] == body[k - |pre|];
    RunEndsAt(s, |pre|, j);
  }

  lemma TailIsNoDigit(sp: Spelling)
    requires Proper(sp)
    ensures ExponentText(sp) != "" ==> IsE(ExponentText(sp)[0])
    ensures ExponentText(sp) == "" <==> sp.e == ""
    ensures var tail := PointText(sp) + ExponentText(sp);
            tail == "" || (!IsDigit(tail[0]) && !IsSign(tail[0]) && (tail[0] == '.' <==> sp.point))
  {
  }

  lemma WholeSpells(sp: Spelling)
    requires Proper(sp)
    ensures var s, i := Spell(sp), |sp.sign|;
            s != "" && (IsSign(s[0]) <==> i == 1) && i <= 1
            && DigitRun(s, i) == i + |sp.whole| && Vals(s[i..i + |sp.whole|]) == sp.whole
            && s[i + |sp.whole|..] == PointText(sp) + ExponentText(sp)
  {
    hide Chars, Vals, ExponentText, PointText;
    var tail := PointText(sp) + ExponentText(sp);
    TailIsNoDigit(sp);
    SignIsFirst(sp);
    assert Spell(sp) == sp.sign + Chars(sp.whole) + tail;
    RunOfDigits(sp.sign, sp.whole, tail);
    ValsOfChars(sp.whole);
  }

  lemma FracSpells(sp: Spelling)
    requires Proper(sp) && sp.point
    ensures var s, j := Spell(sp), |sp.sign| + |sp.whole|;
            j < |s| && s[j] == '.' && DigitRun(s, j + 1) == j + 1 + |sp.frac|
            && Vals(s[j + 1..j + 1 + |sp.frac|]) == sp.frac && s[j + 1 + |sp.frac|..] == ExponentText(sp)
  {
    hide Chars, Vals, ExponentText;
    TailIsNoDigit(sp);
    var head := sp.sign + Chars(sp.whole) + ".";
    assert Spell(sp) == head + Chars(sp.frac) + ExponentText(sp);
    RunOfDigits(head, sp.frac, ExponentText(sp));
    ValsOfChars(sp.frac);
  }

  lemma MantissaSpells(sp: Spelling)
    requires Proper(sp)
    ensures Spell(sp) != ""
    ensures var m := ParseMantissa(Spell(sp));
            m.whole == sp.whole && m.frac == sp.frac
            && m.end == |sp.sign| + |sp.whole| + |PointText(sp)| && Spell(sp)[m.end..] == ExponentText(sp)
  {
    hide Chars, Vals, ExponentText, Spell;
    WholeSpells(sp);
    TailIsNoDigit(sp);
    var s, j := Spell(sp), |sp.sign| + |sp.whole|;
    assert j < |s| ==> s[j] == s[j..][0];
    if sp.point { FracSpells(sp); }
  }

  lemma SignIsFirst(sp: Spelling)
    requires Proper(sp)
    ensures var s := Spell(sp); s != "" && (IsSign(s[0]) <==> sp.sign != "") && (s[0] == '-' <==> sp.sign == "-")
  {
    hide PointText, ExponentText, Chars;
    var tail := PointText(sp) + ExponentText(sp);
    var rest := Chars(sp.whole) + tail;
    TailIsNoDigit(sp);
    assert Spell(sp) == sp.sign + rest;
    if sp.sign != "" {
      assert Spell(sp)[0] == sp.sign[0];
    } else {
      assert Spell(sp) == rest;
      if sp.whole != [] {
        assert rest[0] == Chars(sp.whole)[0] && IsDigit(rest[0]);
      } else {
        SomethingIsSpelled(sp);
        assert rest == tail;
      }
    }
  }

  lemma SomethingIsSpelled(sp: Spelling)
    requires Proper(sp) && sp.sign == "" && sp.whole == []
    ensures PointText(sp) + ExponentText(sp) != ""
  {
  }

  /** The exponent's parts are found behind its letter, wherever that stands. */
  lemma ExponentSpells(sp: Spelling, s: string, k: nat)
    requires Proper(sp) && sp.e != "" && k < |s| && s[k..] == ExponentText(sp)
    ensures IsE(s[k]) && ParseExponent(s, k) == Some((sp.expSign == "-", sp.exp))
  {
    hide Chars, Vals;
    var head := s[..k] + sp.e + sp.expSign;
    assert s == s[..k] + s[k..];
    assert s == head + Chars(sp.exp) + "";
    assert s[k] == sp.e[0];
    assert k + 1 < |s| && s[k + 1] == (sp.expSign + Chars(sp.exp))[0];
    assert sp.expSign == "" ==> s[k + 1] == Chars(sp.exp)[0] && IsDigit(s[k + 1]);
    RunOfDigits(head, sp.exp, "");
    ValsOfChars(sp.exp);
  }

  /** Every spelling is read as exactly its parts, signs and exponent included. */
  lemma ParseSpells(sp: Spelling)
    requires Proper(sp)
    ensures Spell(sp) != "" && Parse(Spell(sp)) == Some(LiteralOf(sp))
  {
    hide Chars, ParseMantissa, ParseExponent, ExponentText, PointText;
    MantissaSpells(sp);
    SignIsFirst(sp);
    TailIsNoDigit(sp);
    var s, m := Spell(sp), ParseMantissa(Spell(sp));
    if sp.e != "" {
      ExponentSpells(sp, s, m.end);
    } else {
      assert |s| == m.end;
    }
  }

  lemma CharsOfVals(s: string)
    requires forall k :: 0 <= k < |s| ==> IsDigit(s[k])
    ensures Chars(Vals(s)) == s
  {
  }

  lemma RunIsSpelled(s: string, i: nat)
    requires i <= |s|
    ensures var run := s[i..DigitRun(s, i)];
            (forall k :: 0 <= k < |run| ==> IsDigit(run[k])) && Chars(Vals(run)) == run
  {
    CharsOfVals(s[i..DigitRun(s, i)]);
  }

  /** Where there is an exponent, the rest of the text spells it. */
  lemma ExponentIsSpelled(s: string, k: nat, m: nat)
    requires k < |s| && IsE(s[k]) && ParseExponent(s, k).Some?
    requires m == if k + 1 < |s| && IsSign(s[k + 1]) then k + 2 else k + 1
    ensures m < |s| && DigitRun(s, m) == |s| && SignText(s[k + 1..m])
    ensures ParseExponent(s, k) == Some((s[k + 1..m] == "-", Vals(s[m..])))
    ensures s[k..] == s[k..k + 1] + s[k + 1..m] + Chars(Vals(s[m..]))
  {
    hide Chars, Vals, DigitRun;
    assert s[m..|s|] == s[m..];
    CharsOfVals(s[m..]);
  }

  /** The parts of the mantissa, spelled, are what stands before the exponent. */
  lemma MantissaIsSpelled(s: string) returns (sp: Spelling)
    requires s != ""
    ensures sp.e == "" && sp.expSign == "" && sp.exp == [] && SignText(sp.sign) && (sp.point || sp.frac == [])
    ensures sp.sign == "-" <==> s[0] == '-'
    ensures var m := ParseMantissa(s);
            m.whole == sp.whole && m.frac == sp.frac && sp.sign + Chars(sp.whole) + PointText(sp) == s[..m.end]
  {
    hide Chars, Vals;
    var i := if IsSign(s[0]) then 1 else 0;
    var j := DigitRun(s, i);
    var point := j < |s| && s[j] == '.';
    RunIsSpelled(s, i);
    if point {
      var k := DigitRun(s, j + 1);
      RunIsSpelled(s, j + 1);
      sp := Spelling(s[..i], Vals(s[i..j]), true, Vals(s[j + 1..k]), "", "", []);
      assert s[..k] == s[..i] + s[i..j] + ("." + s[j + 1..k]);
    } else {
      sp := Spelling(s[..i], Vals(s[i..j]), false, [], "", "", []);
      assert s[..j] == s[..i] + s[i..j] + "";
    }
  }

  /** And nothing else is read: what parses is a spelling of what it is read as. */
  lemma ParsedIsSpelled(s: string) returns (sp: Spelling)
    requires s != "" && Parse(s).Some?
    ensures Proper(sp) && Spell(sp) == s && LiteralOf(sp) == Parse(s).value
  {
    hide Chars, Vals, ParseMantissa, ParseExponent, PointText, DigitRun;
    sp := MantissaIsSpelled(s);
    var front, k := sp, ParseMantissa(s).end;
    assert s == s[..k] + s[k..];
    if k < |s| {
      var m := if k + 1 < |s| && IsSign(s[k + 1]) then k + 2 else k + 1;
      ExponentIsSpelled(s, k, m);
      sp := sp.(e := s[k..k + 1], expSign := s[k + 1..m], exp := Vals(s[m..]));
      assert ExponentText(sp) == s[k..];
      PointTextSame(front, sp);
    } else {
      assert s[k..] == "";
    }
    assert Spell(sp) == s[..k] + s[k..];
    EmptySpelling(sp);
  }

  lemma EmptySpelling(sp: Spelling)
    ensures sp.sign == "" && sp.whole == [] && !sp.point && sp.e == "" ==> Spell(sp) == ""
  {
  }

  lemma PointTextSame(a: Spelling, b: Spelling)
    requires a.point == b.point && a.frac == b.frac
    ensures PointText(a) == PointText(b)
  {
  }

  function Power10(n: nat): (r: real)
    ensures r >= 1.0
  {
    if n == 0 then 1.0 else 10.0 * Power10(n - 1)
  }

  lemma {:induction false} ScaleIsPower(x: real, n: int)
    requires n >= 0
    ensures Scale(x, n) == x * Power10(n)
    ensures Scale(x, -n) * Power10(n) == x
  {
    if n > 0 {
      ScaleIsPower(x, n - 1);
      var p, y := Power10(n - 1), Scale(x, -n);
      assert Scale(x, n) == 10.0 * (x * p) == x * (10.0 * p);
      assert y == Scale(x, -(n - 1)) / 10.0;
      assert Scale(x, -(n - 1)) == 10.0 * y;
      assert y * (10.0 * p) == 10.0 * y * p;
    }
  }

  lemma {:induction false} HornerJoins(a: seq<digit>, b: seq<digit>)
    ensures Horner(a + b) as real == Horner(a) as real * Power10(|b|) + Horner(b) as real
  {
    hide Horner, Power10;
    if b == [] {
      assert a + b == a;
      HornerEmpty();
    } else {
      var n := |b| - 1;
      HornerJoins(a, b[..n]);
      assert (a + b)[..|a + b| - 1] == a + b[..n];
      HornerSnoc(a + b);
      HornerSnoc(b);
      assert (a + b)[|a + b| - 1] == b[n];
      PowerStep(n);
      Distribute(Horner(a) as real, Power10(n), Horner(b[..n]) as real, b[n] as real);
    }
  }

  lemma HornerEmpty()
    ensures Horner([]) == 0 && Power10(0) == 1.0
  {
  }

  lemma PowerStep(n: nat)
    ensures Power10(n + 1) == 10.0 * Power10(n)
  {
  }

  lemma HornerSnoc(ds: seq<digit>)
    requires ds != []
    ensures Horner(ds) as real == 10.0 * Horner(ds[..|ds| - 1]) as real + ds[|ds| - 1] as real
  {
  }

  lemma Distribute(h: real, p: real, r: real, d: real)
    ensures 10.0 * (h * p + r) + d == h * (10.0 * p) + (10.0 * r + d)
  {
  }

  /** The digits before the point, plus the digits behind it over a power of ten. */
  function Schoolbook(whole: seq<digit>, frac: seq<digit>): real {
    Horner(whole) as real + Horner(frac) as real / Power10(|frac|)
  }

  /** Times ten to the e, or divided by it. */
  function Shifted(x: real, down: bool, e: nat): real {
    if down then x / Power10(e) else x * Power10(e)
  }

  lemma ShiftedIsScaled(x: real, down: bool, e: nat)
    ensures Shifted(x, down, e) == Scale(x, if down then 0 - e else e)
  {
    ScaleIsPower(x, e);
    if down { QuotientIs(Scale(x, 0 - e), Power10(e), x); }
  }

  /** The value of a spelling is the schoolbook one, shifted by the exponent, and negative behind a minus sign. */
  lemma ValueOfSpelling(sp: Spelling)
    requires Proper(sp)
    ensures LiteralValue(LiteralOf(sp))
         == Signed(sp.sign == "-", Shifted(Schoolbook(sp.whole, sp.frac), sp.expSign == "-", Horner(sp.exp)))
  {
    hide Horner, Scale, Schoolbook, Shifted;
    var lit := LiteralOf(sp);
    ScaledDigits(sp.whole, sp.frac);
    ShiftedIsScaled(Schoolbook(sp.whole, sp.frac), sp.expSign == "-", Horner(sp.exp));
    ScaleAdd(Horner(sp.whole + sp.frac) as real, 0 - |sp.frac|, Exponent(lit));
  }

  lemma ScaledDigits(whole: seq<digit>, frac: seq<digit>)
    ensures Scale(Horner(whole + frac) as real, 0 - |frac|) == Schoolbook(whole, frac)
  {
    hide Horner, Scale, Power10;
    var h := Horner(whole + frac) as real;
    HornerJoins(whole, frac);
    ScaleIsPower(h, |frac|);
    Quotient(Scale(h, 0 - |frac|), Horner(whole) as real, Horner(frac) as real, Power10(|frac|));
  }

  lemma QuotientIs(x: real, p: real, z: real)
    requires p > 0.0 && x * p == z
    ensures x == z / p
  {
  }

  lemma Quotient(y: real, w: real, r: real, q: real)
    requires q > 0.0 && y * q == w * q + r
    ensures y == w + r / q
  {
    assert (y - w) * q == r;
    QuotientIs(y - w, q, r);
  }

  lemma LeadingZerosOfZeros(n: nat, ds: seq<digit>)
    requires ds != [] && ds[0] != 0
    ensures LeadingZeros(Zeros(n) + ds) == n
  {
    assert (Zeros(n) + ds)[n] == ds[0];
    assert forall z :: 0 <= z < n ==> (Zeros(n) + ds)[z] == 0;
  }

  lemma StripTrailingZeros(ds: seq<digit>, n: nat)
    requires ds != [] && ds[|ds| - 1] != 0
    ensures StripTrailing(ds + Zeros(n)) == ds
  {
    var all := ds + Zeros(n);
    assert all[|ds| - 1] != 0;
    assert forall k :: |ds| <= k < |all| ==> all[k] == 0;
    assert all[..|ds|] == ds;
  }

  /** The parts of plain text, joined, are the digits padded with zeros on one side. */
  lemma PlainParts(n: Num)
    requires Canonical(n)
    ensures var all := WholePart(n) + FracPart(n);
            var z := LeadingZeros(all);
            StripTrailing(all[z..]) == n.digits && |WholePart(n)| - z == n.point
  {
    hide LeadingZeros, StripTrailing, Zeros, WholePart, FracPart;
    var all := WholePart(n) + FracPart(n);
    var lead, trail := PaddingOf(n);
    var padded := n.digits + Zeros(trail);
    LeadingZerosOfZeros(lead, padded);
    assert all[lead..] == padded;
    StripTrailingZeros(n.digits, trail);
  }

  /** How many zeros stand on either side. */
  lemma PaddingOf(n: Num) returns (lead: nat, trail: nat)
    ensures WholePart(n) + FracPart(n) == Zeros(lead) + (n.digits + Zeros(trail)) && |WholePart(n)| - lead == n.point
  {
    lead := if n.point <= 0 then 1 - n.point else 0;
    trail := if n.point > |n.digits| then n.point - |n.digits| else 0;
    assert n.point <= 0 ==> Zeros(lead) == [0] + Zeros(-n.point);
  }

  lemma PlainSpelling(n: Num) returns (sp: Spelling)
    requires Canonical(n)
    ensures Proper(sp) && Spell(sp) == Plain(n) && LiteralOf(sp) == Literal(n.neg, WholePart(n), FracPart(n), false, [])
  {
    hide Chars;
    var f := FracPart(n);
    PlainHasNoRedundantZeros(n);
    sp := Spelling(if n.neg then "-" else "", WholePart(n), f != [], f, "", "", []);
    assert Spell(sp) == sp.sign + Chars(sp.whole) + PointText(sp);
  }

  /** Plain text is read back as the very same normal form: nothing is lost and nothing is redundant. */
  lemma PlainParsesBack(n: Num)
    requires Canonical(n)
    ensures Parse(Plain(n)).Some?
    ensures Normalize(Parse(Plain(n)).value) == n
  {
    hide Parse, Chars, FracPart, StripTrailing, LeadingZeros;
    var w, f := WholePart(n), FracPart(n);
    PlainHasNoRedundantZeros(n);
    var sp := PlainSpelling(n);
    ParseSpells(sp);
    assert Normalize(Literal(n.neg, w, f, false, [])) == n by { PlainParts(n); }
  }

  /** No redundant zeros: no leading zero before another whole digit, no trailing zero after the point. */
  lemma PlainHasNoRedundantZeros(n: Num)
    requires Canonical(n)
    ensures |WholePart(n)| > 1 ==> WholePart(n)[0] != 0
    ensures FracPart(n) != [] ==> FracPart(n)[|FracPart(n)| - 1] != 0
    ensures (FracPart(n) == []) == IsInteger(n)
  {
  }

  // ---- integers ----

  lemma {:induction false} ScaledInt(m: int, k: nat) returns (v: int)
    ensures Scale(m as real, k) == v as real
    ensures k > 0 ==> v % 10 == 0
  {
    if k == 0 {
      v := m;
    } else {
      var u := ScaledInt(m, k - 1);
      v := 10 * u;
    }
  }

  /** A canonical number is a whole number exactly when its point is at or behind its last digit. */
  lemma IntegerIff(n: Num)
    requires Canonical(n)
    ensures IsInteger(n) <==> NumValue(n).Floor as real == NumValue(n)
  {
    var h: int := Horner(n.digits);
    var k := n.point - |n.digits|;
    assert h % 10 == n.digits[|n.digits| - 1];
    HornerScaled(n.digits, n.point);
    ScaleLinear(h as real, 0.0, k);
    var signed: int := if n.neg then -h else h;
    assert NumValue(n) == Scale(signed as real, k);
    if k >= 0 {
      var v := ScaledInt(signed, k);
    } else {
      var f := NumValue(n).Floor;
      var up: nat := -k;
      if f as real == NumValue(n) {
        ScaleAdd(signed as real, k, up);
        var v := ScaledInt(f, up);
        assert false;
      }
    }
  }
}
