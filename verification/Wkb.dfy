// Well-known binary: geometries, their bytes, and a parser for them (clause 8 of OGC 06-103r4).
module Wkb {
  import opened Bytes
  import opened Regions

  /** A double, as its 64 bits. */
  type Ord = n: nat | n < 0x1_0000_0000_0000_0000

  /** Lines and rings are flat ordinate lists. base is 4..7: multi-point, multi-line, multi-polygon or collection. */
  datatype Geo =
    | Point(ords: seq<Ord>)
    | Line(ords: seq<Ord>)
    | Polygon(rings: seq<seq<Ord>>)
    | Multi(base: nat, parts: seq<Geo>)

  // ---- writing ----

  function TypeCode(dims: nat, base: nat): nat {
    if dims == 3 then base + 1000 else if dims == 4 then base + 3000 else base
  }

  function U32(n: nat): seq<byte> {
    LE(n % TWO32, 4)
  }

  function Header(dims: nat, base: nat): seq<byte> {
    [1] + U32(TypeCode(dims, base))
  }

  function Coords(ords: seq<Ord>): (bs: seq<byte>)
    ensures |bs| == 8 * |ords|
  {
    if ords == [] then [] else Coords(ords[..|ords| - 1]) + LE(ords[|ords| - 1], 8)
  }

  /** The number of points, then all the ordinates. */
  function RingBytes(dims: nat, ords: seq<Ord>): seq<byte>
    requires dims > 0
  {
    U32(|ords| / dims) + Coords(ords)
  }

  function RingsBytes(dims: nat, rings: seq<seq<Ord>>): seq<byte>
    requires dims > 0
  {
    if rings == [] then [] else RingsBytes(dims, rings[..|rings| - 1]) + RingBytes(dims, rings[|rings| - 1])
  }

  function GeoBytes(dims: nat, g: Geo): seq<byte>
    requires dims > 0
    decreases g, 1
  {
    match g
    case Point(ords) => Header(dims, 1) + Coords(ords)
    case Line(ords) => Header(dims, 2) + RingBytes(dims, ords)
    case Polygon(rings) => Header(dims, 3) + (U32(|rings|) + RingsBytes(dims, rings))
    case Multi(base, parts) => Header(dims, base) + (U32(|parts|) + PartsBytes(dims, parts))
  }

  function PartsBytes(dims: nat, parts: seq<Geo>): seq<byte>
    requires dims > 0
    decreases parts, 0
  {
    if parts == [] then [] else PartsBytes(dims, parts[..|parts| - 1]) + GeoBytes(dims, parts[|parts| - 1])
  }

  // ---- parsing ----

  /** The little-endian number of w bytes at p. */
  function UL(data: seq<byte>, p: nat, w: nat): (r: Option<nat>)
    ensures r.Some? <==> p + w <= |data|
  {
    if p + w <= |data| then Some(FromLE(data[p..p + w])) else None
  }

  /** n ordinates from p on. */
  function ParseOrds(data: seq<byte>, p: nat, n: nat): (g: Got<seq<Ord>>)
    requires p <= |data|
    ensures g.At? ==> g.end == p + 8 * n <= |data|
  {
    if n == 0 then At([], p)
    else match ParseOrds(data, p, n - 1)
      case Fail => Fail
      case At(ords, q) =>
        match UL(data, q, 8)
        case None => Fail
        case Some(o) =>
          assert Pow256(8) == 0x1_0000_0000_0000_0000;
          At(ords + [o], q + 8)
  }

  /** A point count, and that many points. */
  function ParseRing(dims: nat, data: seq<byte>, p: nat): (g: Got<seq<Ord>>)
    ensures g.At? ==> p < g.end <= |data|
  {
    match UL(data, p, 4)
    case None => Fail
    case Some(n) => ParseOrds(data, p + 4, n * dims)
  }

  function ParseRings(dims: nat, data: seq<byte>, p: nat, n: nat): (g: Got<seq<seq<Ord>>>)
    requires p <= |data|
    ensures g.At? ==> p <= g.end <= |data|
  {
    if n == 0 then At([], p)
    else match ParseRings(dims, data, p, n - 1)
      case Fail => Fail
      case At(rings, q) =>
        match ParseRing(dims, data, q)
        case Fail => Fail
        case At(ring, e) => At(rings + [ring], e)
  }

  /** A geometry and its dimension. */
  datatype Parsed = Parsed(dims: nat, geo: Geo)

  /** Z adds 1000 to the type code, M 2000, both 3000. */
  function DimsOf(code: nat): nat {
    if code < 1000 then 2 else if code < 3000 then 3 else 4
  }

  /** What the parts of a multi-geometry may be. */
  predicate PartOf(base: nat, g: Geo) {
    match base
    case 4 => g.Point?
    case 5 => g.Line?
    case 6 => g.Polygon?
    case _ => true
  }

  /** A little-endian WKB geometry at p. */
  function ParseGeo(data: seq<byte>, p: nat): (g: Got<Parsed>)
    ensures g.At? ==> p < g.end <= |data|
    decreases |data| - p, 0, 0
  {
    if p >= |data| || data[p] != 1 then Fail
    else match UL(data, p + 1, 4)
      case None => Fail
      case Some(code) => ParseBody(data, p + 5, DimsOf(code), code % 1000)
  }

  function ParseBody(data: seq<byte>, p: nat, dims: nat, base: nat): (g: Got<Parsed>)
    requires p <= |data|
    ensures g.At? ==> p <= g.end <= |data|
    decreases |data| - p, 2, 0
  {
    match base
    case 1 => (match ParseOrds(data, p, dims) case Fail => Fail case At(ords, e) => At(Parsed(dims, Point(ords)), e))
    case 2 => (match ParseRing(dims, data, p) case Fail => Fail case At(ords, e) => At(Parsed(dims, Line(ords)), e))
    case 3 =>
      (match UL(data, p, 4)
       case None => Fail
       case Some(n) => (match ParseRings(dims, data, p + 4, n) case Fail => Fail case At(rings, e) => At(Parsed(dims, Polygon(rings)), e)))
    case _ =>
      if base < 4 || base > 7 then Fail
      else match UL(data, p, 4)
        case None => Fail
        case Some(n) => (match ParseParts(data, p + 4, dims, base, n) case Fail => Fail case At(parts, e) => At(Parsed(dims, Multi(base, parts)), e))
  }

  /** n geometries of the same dimension. */
  function ParseParts(data: seq<byte>, p: nat, dims: nat, base: nat, n: nat): (g: Got<seq<Geo>>)
    requires p <= |data|
    ensures g.At? ==> p <= g.end <= |data|
    decreases |data| - p, 1, n
  {
    if n == 0 then At([], p)
    else match ParseParts(data, p, dims, base, n - 1)
      case Fail => Fail
      case At(parts, q) =>
        match ParseGeo(data, q)
        case Fail => Fail
        case At(part, e) => if part.dims != dims || !PartOf(base, part.geo) then Fail else At(parts + [part.geo], e)
  }

  // ---- parsing undoes writing ----

  /** Points have dims ordinates, lines and rings whole points, parts the right kind, and no count exceeds 32 bits. */
  predicate Whole(dims: nat, g: Geo)
    requires dims > 0
    decreases g
  {
    match g
    case Point(ords) => |ords| == dims
    case Line(ords) => WholeRing(dims, ords)
    case Polygon(rings) => |rings| < TWO32 && forall k :: 0 <= k < |rings| ==> WholeRing(dims, rings[k])
    case Multi(base, parts) =>
      4 <= base <= 7 && |parts| < TWO32
      && forall k :: 0 <= k < |parts| ==> PartOf(base, parts[k]) && Whole(dims, parts[k])
  }

  predicate WholeRing(dims: nat, ords: seq<Ord>)
    requires dims > 0
  {
    |ords| % dims == 0 && |ords| / dims < TWO32
  }

  lemma HoldsLE(data: seq<byte>, p: nat, v: nat, w: nat)
    requires v < Pow256(w) && Holds(data, p, LE(v, w))
    ensures UL(data, p, w) == Some(v)
  {
    LERoundTrip(v, w);
  }

  lemma U32ReadsBack(data: seq<byte>, p: nat, n: nat)
    requires n < TWO32 && Holds(data, p, U32(n))
    ensures UL(data, p, 4) == Some(n)
  {
    assert Pow256(4) == TWO32;
    HoldsLE(data, p, n, 4);
  }

  lemma OrdReadsBack(data: seq<byte>, p: nat, o: Ord)
    requires Holds(data, p, LE(o, 8))
    ensures UL(data, p, 8) == Some(o)
  {
    assert Pow256(8) == 0x1_0000_0000_0000_0000;
    HoldsLE(data, p, o, 8);
  }

  lemma {:induction false} OrdsReadBack(data: seq<byte>, p: nat, ords: seq<Ord>, n: nat)
    requires n <= |ords| && Holds(data, p, Coords(ords[..n]))
    ensures ParseOrds(data, p, n) == At(ords[..n], p + 8 * n)
  {
    hide LE, FromLE, UL;
    if n > 0 {
      assert ords[..n][..n - 1] == ords[..n - 1];
      HoldsBoth(data, p, Coords(ords[..n - 1]), LE(ords[n - 1], 8));
      OrdsReadBack(data, p, ords, n - 1);
      OrdReadsBack(data, p + 8 * (n - 1), ords[n - 1]);
      assert ords[..n - 1] + [ords[n - 1]] == ords[..n];
    }
  }

  lemma {:induction false} CoordsPrefix(ords: seq<Ord>, n: nat) returns (rest: seq<byte>)
    requires n <= |ords|
    ensures Coords(ords) == Coords(ords[..n]) + rest
    decreases |ords|
  {
    if n == |ords| {
      assert ords[..n] == ords;
      rest := [];
    } else {
      var k := |ords| - 1;
      var more := CoordsPrefix(ords[..k], n);
      assert ords[..k][..n] == ords[..n];
      rest := more + LE(ords[k], 8);
    }
  }

  /** How many of n ordinates make whole points. */
  function WholeLength(dims: nat, n: nat): (w: nat)
    requires 2 <= dims <= 4
    ensures w == n / dims * dims <= n && (w == n <==> n % dims == 0)
  {
    if dims == 2 then n / 2 * 2 else if dims == 3 then n / 3 * 3 else n / 4 * 4
  }

  /** What is read of a ring is its whole points; all of it exactly when it is made of whole points. */
  lemma RingReadsBack(dims: nat, data: seq<byte>, p: nat, ords: seq<Ord>)
    requires 2 <= dims <= 4 && |ords| / dims < TWO32 && Holds(data, p, RingBytes(dims, ords))
    ensures var n := WholeLength(dims, |ords|);
            ParseRing(dims, data, p) == At(ords[..n], p + 4 + 8 * n) && (n == |ords| <==> |ords| % dims == 0)
  {
    hide LE, FromLE, ParseOrds, Coords;
    var count, n := |ords| / dims, WholeLength(dims, |ords|);
    HoldsBoth(data, p, U32(count), Coords(ords));
    U32ReadsBack(data, p, count);
    var rest := CoordsPrefix(ords, n);
    HoldsBoth(data, p + 4, Coords(ords[..n]), rest);
    OrdsReadBack(data, p + 4, ords, n);
  }

  lemma {:induction false} RingsReadBack(dims: nat, data: seq<byte>, p: nat, rings: seq<seq<Ord>>, n: nat)
    requires 2 <= dims <= 4 && n <= |rings| && Holds(data, p, RingsBytes(dims, rings[..n]))
    requires forall k :: 0 <= k < |rings| ==> WholeRing(dims, rings[k])
    ensures ParseRings(dims, data, p, n) == At(rings[..n], p + |RingsBytes(dims, rings[..n])|)
  {
    hide RingBytes, ParseRing, WholeRing, Holds;
    if n > 0 {
      assert rings[..n][..n - 1] == rings[..n - 1];
      var before := RingsBytes(dims, rings[..n - 1]);
      HoldsBoth(data, p, before, RingBytes(dims, rings[n - 1]));
      RingsReadBack(dims, data, p, rings, n - 1);
      WholeRingReadsBack(dims, data, p + |before|, rings[n - 1]);
      assert rings[..n - 1] + [rings[n - 1]] == rings[..n];
    }
  }

  lemma WholeRingReadsBack(dims: nat, data: seq<byte>, p: nat, ords: seq<Ord>)
    requires 2 <= dims <= 4 && WholeRing(dims, ords) && Holds(data, p, RingBytes(dims, ords))
    ensures ParseRing(dims, data, p) == At(ords, p + |RingBytes(dims, ords)|)
  {
    RingReadsBack(dims, data, p, ords);
    assert ords[..|ords|] == ords;
  }

  lemma HeaderReadsBack(dims: nat, base: nat, data: seq<byte>, p: nat)
    requires 2 <= dims <= 4 && 1 <= base <= 7 && Holds(data, p, Header(dims, base))
    ensures p + 5 <= |data| && data[p] == 1 && UL(data, p + 1, 4) == Some(TypeCode(dims, base))
    ensures DimsOf(TypeCode(dims, base)) == dims && TypeCode(dims, base) % 1000 == base
  {
    hide LE, FromLE;
    HoldsBoth(data, p, [1], U32(TypeCode(dims, base)));
    U32ReadsBack(data, p + 1, TypeCode(dims, base));
    assert data[p..p + 1][0] == 1;
  }

  /** A WKB parser consumes exactly what is written, and recovers the geometry: every count is what follows, every type code fits. */
  lemma {:induction false} GeoReadsBack(dims: nat, g: Geo, data: seq<byte>, p: nat)
    requires 2 <= dims <= 4 && Whole(dims, g) && Holds(data, p, GeoBytes(dims, g))
    ensures ParseGeo(data, p) == At(Parsed(dims, g), p + |GeoBytes(dims, g)|)
    decreases g, 1
  {
    hide LE, FromLE, Header, UL, Coords, RingBytes, RingsBytes, ParseOrds, ParseRing, ParseRings, ParseParts, PartsBytes, TypeCode;
    var base := match g case Point(_) => 1 case Line(_) => 2 case Polygon(_) => 3 case Multi(b, _) => b;
    var header, body := Header(dims, base), BodyBytes(dims, g);
    HoldsBoth(data, p, header, body);
    HeaderReadsBack(dims, base, data, p);
    assert |header| == 5 by { HeaderSize(dims, base); }
    BodyReadsBack(dims, base, g, data, p + 5);
  }

  lemma HeaderSize(dims: nat, base: nat)
    ensures |Header(dims, base)| == 5
  {
  }

  function BodyBytes(dims: nat, g: Geo): seq<byte>
    requires dims > 0
  {
    match g
    case Point(ords) => Coords(ords)
    case Line(ords) => RingBytes(dims, ords)
    case Polygon(rings) => U32(|rings|) + RingsBytes(dims, rings)
    case Multi(base, parts) => U32(|parts|) + PartsBytes(dims, parts)
  }

  lemma {:induction false} BodyReadsBack(dims: nat, base: nat, g: Geo, data: seq<byte>, p: nat)
    requires 2 <= dims <= 4 && Whole(dims, g) && Holds(data, p, BodyBytes(dims, g))
    requires base == match g case Point(_) => 1 case Line(_) => 2 case Polygon(_) => 3 case Multi(b, _) => b
    ensures ParseBody(data, p, dims, base) == At(Parsed(dims, g), p + |BodyBytes(dims, g)|)
    decreases g, 0
  {
    hide LE, FromLE, UL, Coords, RingBytes, RingsBytes, ParseOrds, ParseRing, ParseRings, ParseParts, PartsBytes;
    match g
    case Point(ords) =>
      assert ords[..dims] == ords;
      OrdsReadBack(data, p, ords, dims);
    case Line(ords) =>
      WholeRingReadsBack(dims, data, p, ords);
    case Polygon(rings) =>
      assert rings[..|rings|] == rings;
      HoldsBoth(data, p, U32(|rings|), RingsBytes(dims, rings));
      U32ReadsBack(data, p, |rings|);
      RingsReadBack(dims, data, p + 4, rings, |rings|);
    case Multi(_, parts) =>
      assert parts[..|parts|] == parts;
      HoldsBoth(data, p, U32(|parts|), PartsBytes(dims, parts));
      U32ReadsBack(data, p, |parts|);
      PartsReadBack(dims, base, parts, |parts|, data, p + 4);
  }

  lemma {:induction false} PartsReadBack(dims: nat, base: nat, parts: seq<Geo>, n: nat, data: seq<byte>, p: nat)
    requires 2 <= dims <= 4 && n <= |parts| && Holds(data, p, PartsBytes(dims, parts[..n]))
    requires forall k :: 0 <= k < |parts| ==> PartOf(base, parts[k]) && Whole(dims, parts[k])
    ensures ParseParts(data, p, dims, base, n) == At(parts[..n], p + |PartsBytes(dims, parts[..n])|)
    decreases parts, 0, n
  {
    hide LE, FromLE, GeoBytes, ParseGeo, PartOf, Whole;
    if n > 0 {
      assert parts[..n][..n - 1] == parts[..n - 1];
      var before := PartsBytes(dims, parts[..n - 1]);
      HoldsBoth(data, p, before, GeoBytes(dims, parts[n - 1]));
      PartsReadBack(dims, base, parts, n - 1, data, p);
      GeoReadsBack(dims, parts[n - 1], data, p + |before|);
      assert parts[..n - 1] + [parts[n - 1]] == parts[..n];
    }
  }

  // ---- nothing else reads back ----

  lemma FromLEBound(data: seq<byte>, p: nat)
    requires p + 4 <= |data|
    ensures UL(data, p, 4).value < TWO32
  {
    assert Pow256(4) == TWO32;
  }

  lemma {:induction false} OrdsParsed(data: seq<byte>, p: nat, n: nat)
    requires p <= |data| && ParseOrds(data, p, n).At?
    ensures |ParseOrds(data, p, n).value| == n
  {
    hide UL;
    if n > 0 { OrdsParsed(data, p, n - 1); }
  }

  lemma RingParsedIsWhole(dims: nat, data: seq<byte>, p: nat)
    requires 2 <= dims <= 4 && ParseRing(dims, data, p).At?
    ensures WholeRing(dims, ParseRing(dims, data, p).value)
  {
    hide ParseOrds, FromLE;
    var n := UL(data, p, 4).value;
    FromLEBound(data, p);
    OrdsParsed(data, p + 4, n * dims);
  }

  lemma {:induction false} RingsParsedAreWhole(dims: nat, data: seq<byte>, p: nat, n: nat)
    requires 2 <= dims <= 4 && p <= |data| && ParseRings(dims, data, p, n).At?
    ensures var rings := ParseRings(dims, data, p, n).value;
            |rings| == n && forall k :: 0 <= k < n ==> WholeRing(dims, rings[k])
  {
    hide ParseRing, WholeRing;
    if n > 0 {
      RingsParsedAreWhole(dims, data, p, n - 1);
      RingParsedIsWhole(dims, data, ParseRings(dims, data, p, n - 1).end);
    }
  }

  /** Whatever bytes a WKB parser is given, the geometry it finds is made of whole points. */
  lemma {:induction false} ParsedIsWhole(data: seq<byte>, p: nat)
    requires ParseGeo(data, p).At?
    ensures var g := ParseGeo(data, p).value; 2 <= g.dims <= 4 && Whole(g.dims, g.geo)
    decreases |data| - p, 0, 0
  {
    hide FromLE, ParseOrds, ParseRing, ParseRings, ParseParts, WholeRing;
    var code := UL(data, p + 1, 4).value;
    BodyParsedIsWhole(data, p + 5, DimsOf(code), code % 1000);
  }

  lemma {:induction false} BodyParsedIsWhole(data: seq<byte>, p: nat, dims: nat, base: nat)
    requires p <= |data| && 2 <= dims <= 4 && ParseBody(data, p, dims, base).At?
    ensures var g := ParseBody(data, p, dims, base).value; g.dims == dims && Whole(dims, g.geo)
    decreases |data| - p, 2, 0
  {
    hide UL, ParseOrds, ParseRing, ParseRings, ParseParts, WholeRing;
    if base == 1 {
      OrdsParsed(data, p, dims);
    } else if base == 2 {
      RingParsedIsWhole(dims, data, p);
    } else {
      FromLEBound(data, p);
      var n := UL(data, p, 4).value;
      if base == 3 {
        RingsParsedAreWhole(dims, data, p + 4, n);
      } else {
        PartsParsedAreWhole(data, p + 4, dims, base, n);
      }
    }
  }

  lemma {:induction false} PartsParsedAreWhole(data: seq<byte>, p: nat, dims: nat, base: nat, n: nat)
    requires p <= |data| && 2 <= dims <= 4 && ParseParts(data, p, dims, base, n).At?
    ensures var parts := ParseParts(data, p, dims, base, n).value;
            |parts| == n && forall k :: 0 <= k < n ==> PartOf(base, parts[k]) && Whole(dims, parts[k])
    decreases |data| - p, 1, n
  {
    hide ParseGeo, PartOf, Whole;
    if n > 0 {
      PartsParsedAreWhole(data, p, dims, base, n - 1);
      ParsedIsWhole(data, ParseParts(data, p, dims, base, n - 1).end);
    }
  }

  /** A geometry is read back to its end exactly when it is made of whole points, with counts that fit. */
  lemma GeoReadsBackIff(dims: nat, g: Geo)
    requires 2 <= dims <= 4
    ensures var bytes := GeoBytes(dims, g);
            ParseGeo(bytes, 0) == At(Parsed(dims, g), |bytes|) <==> Whole(dims, g)
  {
    hide ParseGeo, GeoBytes, Whole;
    var bytes := GeoBytes(dims, g);
    if Whole(dims, g) {
      assert bytes[0..|bytes|] == bytes;
      GeoReadsBack(dims, g, bytes, 0);
    }
    if ParseGeo(bytes, 0) == At(Parsed(dims, g), |bytes|) {
      ParsedIsWhole(bytes, 0);
    }
  }
}
