// SDO_GEOMETRY: the geometry it describes, and its conversion to well-known binary.
module SdoGeometry {
  import opened Bytes
  import opened Regions
  import opened Wkb

  // ---- the object ----

  datatype SdoPoint = SdoPoint(x: Option<Ord>, y: Option<Ord>, z: Option<Ord>)

  /** The attributes, decoded: numbers are truncated integers or doubles. */
  datatype Sdo = Sdo(gtype: Option<int>, point: Option<SdoPoint>, elemInfo: seq<int>, ords: seq<Ord>)

  /** One triple of SDO_ELEM_INFO, and the offset where the next element starts. */
  datatype Elem = Elem(offset: int, etype: int, interp: int, next: int)

  const EXTERIOR := 1003
  const INTERIOR := 2003
  const ZERO: Ord := 0
  const NAN: Ord := 0x7FF8_0000_0000_0001

  /** The first n elements. */
  function Elems(info: seq<int>, nOrds: nat, n: nat): (elems: seq<Elem>)
    requires 3 * n <= |info|
    ensures |elems| == n
  {
    if n == 0 then []
    else
      var i := 3 * (n - 1);
      Elems(info, nOrds, n - 1)
      + [Elem(info[i], info[i + 1], info[i + 2], if i + 5 < |info| then info[i + 3] else nOrds + 1)]
  }

  predicate InRange(ords: seq<Ord>, e: Elem) {
    1 <= e.offset <= e.next && e.next - 1 <= |ords|
  }

  /** An element's ordinates; none if its range is out of bounds. */
  function OrdsOf(ords: seq<Ord>, e: Elem): (o: seq<Ord>)
    ensures |o| <= |ords|
  {
    if InRange(ords, e) then ords[e.offset - 1..e.next - 1] else []
  }

  /** What the capacity of that slice covers, which slicing it again can reach: everything from its start on. */
  function RoomOf(ords: seq<Ord>, e: Elem): (o: seq<Ord>)
    ensures OrdsOf(ords, e) <= o
  {
    if InRange(ords, e) then ords[e.offset - 1..] else []
  }

  // ---- the geometry ----

  /** Bad is an error return; Panic is a slice beyond its capacity. */
  datatype Outcome<+T> = Ok(value: T) | Bad | Panic

  /** The corners of a rectangle as a closed ring: counter-clockwise outside, clockwise inside. */
  function Corners<T>(x1: T, y1: T, x2: T, y2: T, exterior: bool): seq<(T, T)> {
    if exterior then [(x1, y1), (x2, y1), (x2, y2), (x1, y2), (x1, y1)]
    else [(x1, y1), (x1, y2), (x2, y2), (x2, y1), (x1, y1)]
  }

  /** Corners as ordinates; further dimensions repeat those of the first corner. */
  function Expand(corners: seq<(Ord, Ord)>, extra: seq<Ord>): (r: seq<Ord>)
    ensures |r| == |corners| * (2 + |extra|)
  {
    if corners == [] then []
    else
      var n := |corners| - 1;
      assert |corners| * (2 + |extra|) == n * (2 + |extra|) + 2 + |extra|;
      Expand(corners[..n], extra) + ([corners[n].0, corners[n].1] + extra)
  }

  function RingOf(dims: nat, ords: seq<Ord>, e: Elem): Outcome<seq<Ord>>
    requires 2 <= dims
  {
    var o := OrdsOf(ords, e);
    if e.interp == 1 then Ok(o)
    else if e.interp != 3 || |o| < 2 * dims then Bad
    else Ok(Expand(Corners(o[0], o[1], o[dims], o[dims + 1], e.etype == EXTERIOR), o[2..dims]))
  }

  /** The rings of elements i up to j. */
  function RingsOf(dims: nat, ords: seq<Ord>, elems: seq<Elem>, i: nat, j: nat): (r: Outcome<seq<seq<Ord>>>)
    requires 2 <= dims && i <= j <= |elems|
    ensures r.Ok? ==> |r.value| == j - i
    decreases j
  {
    if i == j then Ok([])
    else match RingsOf(dims, ords, elems, i, j - 1)
      case Bad => Bad
      case Panic => Panic
      case Ok(rings) =>
        match RingOf(dims, ords, elems[j - 1])
        case Bad => Bad
        case Panic => Panic
        case Ok(ring) => Ok(rings + [ring])
  }

  /** Where the run of interior rings from i on ends. */
  function InteriorEnd(elems: seq<Elem>, i: nat): (j: nat)
    requires i <= |elems|
    ensures i <= j <= |elems|
    ensures forall k :: i <= k < j ==> elems[k].etype == INTERIOR
    ensures j < |elems| ==> elems[j].etype != INTERIOR
    decreases |elems| - i
  {
    if i < |elems| && elems[i].etype == INTERIOR then InteriorEnd(elems, i + 1) else i
  }

  /** A geometry and the index of the element behind it. */
  datatype Step = Step(geo: Geo, next: nat)

  /** An exterior ring and the interior rings that follow it. */
  function PolygonAt(dims: nat, ords: seq<Ord>, elems: seq<Elem>, i: nat): (r: Outcome<Step>)
    requires 2 <= dims && i < |elems|
    ensures r.Ok? ==> i < r.value.next <= |elems| && r.value.geo.Polygon?
  {
    if elems[i].etype != EXTERIOR then Bad
    else
      var j := InteriorEnd(elems, i + 1);
      match RingsOf(dims, ords, elems, i, j)
      case Bad => Bad
      case Panic => Panic
      case Ok(rings) => Ok(Step(Polygon(rings), j))
  }

  function LineOf(ords: seq<Ord>, e: Elem): Outcome<Geo> {
    if e.interp == 1 then Ok(Line(OrdsOf(ords, e))) else Bad
  }

  /** The whole points of an ordinate list. */
  function Points(dims: nat, o: seq<Ord>): seq<Geo>
    requires 2 <= dims
    decreases |o|
  {
    if |o| < dims then [] else [Point(o[..dims])] + Points(dims, o[dims..])
  }

  /** The point at the start of a slice, taken whether or not the slice is that long, if its capacity is. */
  function PointOf(dims: nat, room: seq<Ord>): Outcome<Geo> {
    if |room| < dims then Panic else Ok(Point(room[..dims]))
  }

  /** One member of a collection: a point or a cluster of points, a line, or a polygon. */
  function PartAt(dims: nat, ords: seq<Ord>, elems: seq<Elem>, i: nat): (r: Outcome<Step>)
    requires 2 <= dims && i < |elems|
    ensures r.Ok? ==> i < r.value.next <= |elems|
  {
    var e := elems[i];
    if e.etype == 1 then
      if e.interp > 1 then Ok(Step(Multi(4, Points(dims, OrdsOf(ords, e))), i + 1))
      else Next(PointOf(dims, RoomOf(ords, e)), i + 1)
    else if e.etype == 2 then Next(LineOf(ords, e), i + 1)
    else PolygonAt(dims, ords, elems, i)
  }

  function Next(g: Outcome<Geo>, next: nat): Outcome<Step> {
    match g case Ok(geo) => Ok(Step(geo, next)) case Bad => Bad case Panic => Panic
  }

  /** The members a multi-geometry of this shape has from element i on. */
  function MembersAt(shape: nat, dims: nat, ords: seq<Ord>, elems: seq<Elem>, i: nat): (r: Outcome<(seq<Geo>, nat)>)
    requires 2 <= dims && i < |elems|
    ensures r.Ok? ==> i < r.value.1 <= |elems|
  {
    if shape == 5 then
      if elems[i].etype != 1 then Bad else Ok((Points(dims, OrdsOf(ords, elems[i])), i + 1))
    else
      match (if shape == 6 then Next(LineOf(ords, elems[i]), i + 1)
             else if shape == 7 then PolygonAt(dims, ords, elems, i)
             else PartAt(dims, ords, elems, i))
      case Bad => Bad
      case Panic => Panic
      case Ok(step) => Ok(([step.geo], step.next))
  }

  function MembersFrom(shape: nat, dims: nat, ords: seq<Ord>, elems: seq<Elem>, i: nat): Outcome<seq<Geo>>
    requires 2 <= dims && i <= |elems|
    decreases |elems| - i
  {
    if i == |elems| then Ok([])
    else match MembersAt(shape, dims, ords, elems, i)
      case Bad => Bad
      case Panic => Panic
      case Ok((geos, next)) => Prepend(geos, MembersFrom(shape, dims, ords, elems, next))
  }

  function Prepend(geos: seq<Geo>, rest: Outcome<seq<Geo>>): Outcome<seq<Geo>> {
    match rest case Ok(more) => Ok(geos + more) case Bad => Bad case Panic => Panic
  }

  function Base(shape: nat): nat {
    if shape == 4 then 7 else if shape == 5 then 4 else if shape == 6 then 5 else 6
  }

  /** The geometry of the elements. */
  function Shape(shape: nat, dims: nat, ords: seq<Ord>, elems: seq<Elem>): Outcome<Geo>
    requires 2 <= dims
  {
    if 4 <= shape <= 7 then
      match MembersFrom(shape, dims, ords, elems, 0)
      case Bad => Bad
      case Panic => Panic
      case Ok(parts) => Ok(Multi(Base(shape), parts))
    else if elems == [] then Bad
    else if shape == 1 then
      if |OrdsOf(ords, elems[0])| < dims then Bad else PointOf(dims, RoomOf(ords, elems[0]))
    else if shape == 2 then LineOf(ords, elems[0])
    else if shape == 3 then
      match PolygonAt(dims, ords, elems, 0) case Ok(step) => Ok(step.geo) case Bad => Bad case Panic => Panic
    else Bad
  }

  function Or(o: Option<Ord>, default: Ord): Ord {
    match o case None => default case Some(x) => x
  }

  /** The optimised point has at most three dimensions, whatever SDO_GTYPE says. */
  function PointGeometry(dims: nat, p: SdoPoint): Parsed {
    var x, y := Or(p.x, ZERO), Or(p.y, ZERO);
    if dims == 2 then Parsed(2, Point([x, y])) else Parsed(3, Point([x, y, Or(p.z, NAN)]))
  }

  function Geometry(s: Sdo): (r: Outcome<Parsed>)
    ensures r.Ok? ==> 2 <= r.value.dims <= 4
  {
    if s.gtype.None? || s.gtype.value < 2000 || s.gtype.value >= 5000 then Bad
    else
      var dims, shape := s.gtype.value / 1000, s.gtype.value % 100;
      if s.point.Some? && shape == 1 && s.elemInfo == [] then Ok(PointGeometry(dims, s.point.value))
      else if |s.elemInfo| % 3 != 0 then Bad
      else match Shape(shape, dims, s.ords, Elems(s.elemInfo, |s.ords|, |s.elemInfo| / 3))
        case Bad => Bad
        case Panic => Panic
        case Ok(g) => Ok(Parsed(dims, g))
  }

  // ---- what the geometry is like ----

  /** Five corners, the last the first again. */
  lemma RectangleCloses(dims: nat, ords: seq<Ord>, e: Elem)
    requires 2 <= dims && e.interp == 3 && RingOf(dims, ords, e).Ok?
    ensures var r := RingOf(dims, ords, e).value;
            |r| == 5 * dims && r[..dims] == r[4 * dims..] == OrdsOf(ords, e)[..dims]
  {
    var o := OrdsOf(ords, e);
    var corners, extra := Corners(o[0], o[1], o[dims], o[dims + 1], e.etype == EXTERIOR), o[2..dims];
    var r := Expand(corners, extra);
    var first := [o[0], o[1]] + extra;
    assert first == o[..dims];
    assert r == Expand(corners[..4], extra) + first;
    ExpandHead(corners, extra);
  }

  lemma {:induction false} ExpandHead(corners: seq<(Ord, Ord)>, extra: seq<Ord>)
    requires corners != []
    ensures |Expand(corners, extra)| >= 2 + |extra|
    ensures Expand(corners, extra)[..2 + |extra|] == [corners[0].0, corners[0].1] + extra
    decreases |corners|
  {
    var n := |corners| - 1;
    var one := [corners[n].0, corners[n].1] + extra;
    if n == 0 {
      assert Expand(corners[..n], extra) == [];
      assert [] + one == one && one[..2 + |extra|] == one;
    } else {
      ExpandHead(corners[..n], extra);
      var r := Expand(corners[..n], extra);
      assert (r + one)[..2 + |extra|] == r[..2 + |extra|];
    }
  }

  /** Twice the signed area of a ring of corners, from corner i on. */
  function Area2(c: seq<(real, real)>, i: nat): real
    requires i < |c|
    decreases |c| - i
  {
    if i + 1 == |c| then 0.0 else c[i].0 * c[i + 1].1 - c[i + 1].0 * c[i].1 + Area2(c, i + 1)
  }

  /** For corners given lower left and upper right, the exterior ring turns counter-clockwise and the interior ring clockwise. */
  lemma RectangleTurns(x1: real, y1: real, x2: real, y2: real)
    requires x1 < x2 && y1 < y2
    ensures Area2(Corners(x1, y1, x2, y2, true), 0) > 0.0
    ensures Area2(Corners(x1, y1, x2, y2, false), 0) < 0.0
  {
    var w, h := x2 - x1, y2 - y1;
    assert w * h > 0.0;
    var c, d := Corners(x1, y1, x2, y2, true), Corners(x1, y1, x2, y2, false);
    assert Area2(c, 4) == 0.0 && Area2(d, 4) == 0.0;
    assert Area2(c, 2) == c[2].0 * c[3].1 - c[3].0 * c[2].1 + (c[3].0 * c[4].1 - c[4].0 * c[3].1);
    assert Area2(d, 2) == d[2].0 * d[3].1 - d[3].0 * d[2].1 + (d[3].0 * d[4].1 - d[4].0 * d[3].1);
    assert Area2(c, 0) == c[0].0 * c[1].1 - c[1].0 * c[0].1 + (c[1].0 * c[2].1 - c[2].0 * c[1].1
                          + (c[2].0 * c[3].1 - c[3].0 * c[2].1 + (c[3].0 * c[4].1 - c[4].0 * c[3].1)));
    assert Area2(d, 0) == d[0].0 * d[1].1 - d[1].0 * d[0].1 + (d[1].0 * d[2].1 - d[2].0 * d[1].1
                          + (d[2].0 * d[3].1 - d[3].0 * d[2].1 + (d[3].0 * d[4].1 - d[4].0 * d[3].1)));
    assert w * h == x2 * y2 - x2 * y1 - x1 * y2 + x1 * y1;
  }

  // ---- the counts declared ahead ----

  /** Which elements start a member: in a multi-polygon the exterior rings, in a collection all but interior rings. */
  predicate Starts(shape: nat, e: Elem) {
    if shape == 7 then e.etype == EXTERIOR else e.etype != INTERIOR
  }

  function Tally(shape: nat, elems: seq<Elem>, i: nat): nat
    requires i <= |elems|
    decreases |elems| - i
  {
    if i == |elems| then 0 else (if Starts(shape, elems[i]) then 1 else 0) + Tally(shape, elems, i + 1)
  }

  lemma {:induction false} InteriorsDoNotCount(shape: nat, elems: seq<Elem>, i: nat)
    requires i <= |elems|
    ensures Tally(shape, elems, InteriorEnd(elems, i)) == Tally(shape, elems, i)
    decreases |elems| - i
  {
    if i < |elems| && elems[i].etype == INTERIOR {
      InteriorsDoNotCount(shape, elems, i + 1);
    }
  }

  /** The number counted ahead is the number of members written. */
  lemma {:induction false} TallyIsMembers(shape: nat, dims: nat, ords: seq<Ord>, elems: seq<Elem>, i: nat)
    requires 2 <= dims && i <= |elems| && (shape == 4 || shape == 7) && MembersFrom(shape, dims, ords, elems, i).Ok?
    ensures |MembersFrom(shape, dims, ords, elems, i).value| == Tally(shape, elems, i)
    decreases |elems| - i
  {
    hide RingsOf, Points, PointOf, LineOf;
    if i < |elems| {
      var next := MembersAt(shape, dims, ords, elems, i).value.1;
      InteriorsDoNotCount(shape, elems, i + 1);
      TallyIsMembers(shape, dims, ords, elems, next);
    }
  }

  lemma {:induction false} LinesCount(dims: nat, ords: seq<Ord>, elems: seq<Elem>, i: nat)
    requires 2 <= dims && i <= |elems| && MembersFrom(6, dims, ords, elems, i).Ok?
    ensures |MembersFrom(6, dims, ords, elems, i).value| == |elems| - i
    decreases |elems| - i
  {
    if i < |elems| {
      LinesCount(dims, ords, elems, i + 1);
    }
  }

  lemma {:induction false} PointsCount(dims: nat, o: seq<Ord>)
    requires 2 <= dims <= 4
    ensures |Points(dims, o)| == |o| / dims
    decreases |o|
  {
    if |o| >= dims {
      PointsCount(dims, o[dims..]);
      assert |o[dims..]| == |o| - dims;
      assert dims == 2 || dims == 3 || dims == 4;
      assert (|o| - dims) / dims + 1 == |o| / dims;
    } else {
      assert |o| / dims == 0;
    }
  }

  // ---- whole points in, whole points out ----

  /** Every element's ordinates are in range, whole points, and at least one. */
  predicate Aligned(dims: nat, ords: seq<Ord>, elems: seq<Elem>)
    requires 2 <= dims
  {
    forall k :: 0 <= k < |elems| ==> |OrdsOf(ords, elems[k])| >= dims && |OrdsOf(ords, elems[k])| % dims == 0
  }

  /** Each element ends where the next starts. */
  predicate Chained(elems: seq<Elem>, nOrds: nat) {
    forall k :: 0 <= k < |elems| ==> elems[k].next == if k + 1 < |elems| then elems[k + 1].offset else nOrds + 1
  }

  lemma {:induction false} ElemsAt(info: seq<int>, nOrds: nat, n: nat, k: nat)
    requires k < n && 3 * n <= |info|
    ensures Elems(info, nOrds, n)[k] == Elem(info[3 * k], info[3 * k + 1], info[3 * k + 2], if 3 * k + 5 < |info| then info[3 * k + 3] else nOrds + 1)
  {
    if k < n - 1 {
      ElemsAt(info, nOrds, n - 1, k);
    }
  }

  lemma ElemsAreChained(info: seq<int>, nOrds: nat)
    requires |info| % 3 == 0
    ensures Chained(Elems(info, nOrds, |info| / 3), nOrds)
  {
    var n := |info| / 3;
    forall k | 0 <= k < n
      ensures Elems(info, nOrds, n)[k].next == if k + 1 < n then Elems(info, nOrds, n)[k + 1].offset else nOrds + 1
    {
      ElemsAt(info, nOrds, n, k);
      if k + 1 < n { ElemsAt(info, nOrds, n, k + 1); }
    }
  }

  /** Straight ordinates are whole points. */
  predicate Even(dims: nat, ords: seq<Ord>, e: Elem)
    requires 2 <= dims
  {
    e.interp == 1 ==> |OrdsOf(ords, e)| % dims == 0
  }

  /** Element k is written as a line or as a ring; points drop what does not make a whole one. */
  predicate AsCurve(shape: nat, elems: seq<Elem>, k: nat)
    requires k < |elems|
  {
    if shape == 2 then k == 0
    else if shape == 3 then k < InteriorEnd(elems, 1)
    else if shape == 4 then elems[k].etype != 1
    else shape == 6 || shape == 7
  }

  predicate EvenCurves(shape: nat, dims: nat, ords: seq<Ord>, elems: seq<Elem>, i: nat, j: nat)
    requires 2 <= dims && j <= |elems|
  {
    forall k :: i <= k < j && AsCurve(shape, elems, k) ==> Even(dims, ords, elems[k])
  }

  lemma WholeRingIff(dims: nat, ords: seq<Ord>, e: Elem)
    requires 2 <= dims <= 4 && |ords| < TWO32 && RingOf(dims, ords, e).Ok?
    ensures WholeRing(dims, RingOf(dims, ords, e).value) <==> Even(dims, ords, e)
  {
    hide InRange;
    if e.interp == 3 {
      RectangleCloses(dims, ords, e);
    }
    assert dims == 2 || dims == 3 || dims == 4;
  }

  predicate WholeRings(dims: nat, rings: seq<seq<Ord>>)
    requires 0 < dims
  {
    forall k :: 0 <= k < |rings| ==> WholeRing(dims, rings[k])
  }

  lemma {:induction false} WholeRingsIff(dims: nat, ords: seq<Ord>, elems: seq<Elem>, i: nat, j: nat)
    requires 2 <= dims <= 4 && |ords| < TWO32 && i <= j <= |elems| && RingsOf(dims, ords, elems, i, j).Ok?
    ensures WholeRings(dims, RingsOf(dims, ords, elems, i, j).value) <==> forall k :: i <= k < j ==> Even(dims, ords, elems[k])
    decreases j
  {
    hide RingOf, WholeRing, OrdsOf, Even;
    if i < j {
      WholeRingsIff(dims, ords, elems, i, j - 1);
      WholeRingIff(dims, ords, elems[j - 1]);
      var rings, ring := RingsOf(dims, ords, elems, i, j - 1).value, RingOf(dims, ords, elems[j - 1]).value;
      WholeRingsSnoc(dims, rings, ring);
    }
  }

  lemma WholeRingsSnoc(dims: nat, rings: seq<seq<Ord>>, ring: seq<Ord>)
    requires 0 < dims
    ensures WholeRings(dims, rings + [ring]) <==> WholeRings(dims, rings) && WholeRing(dims, ring)
  {
    hide WholeRing;
    if WholeRings(dims, rings + [ring]) {
      assert forall k :: 0 <= k < |rings| ==> rings[k] == (rings + [ring])[k];
      assert (rings + [ring])[|rings|] == ring;
    }
  }

  lemma {:induction false} PointsAreWhole(dims: nat, o: seq<Ord>)
    requires 2 <= dims
    ensures WholeParts(4, dims, Points(dims, o)) && |Points(dims, o)| <= |o|
    decreases |o|
  {
    if |o| >= dims {
      PointsAreWhole(dims, o[dims..]);
      WholePartsConcat(4, dims, [Point(o[..dims])], Points(dims, o[dims..]));
    }
  }

  predicate WholeParts(base: nat, dims: nat, parts: seq<Geo>)
    requires dims > 0
  {
    forall k :: 0 <= k < |parts| ==> PartOf(base, parts[k]) && Whole(dims, parts[k])
  }

  lemma WholePartsConcat(base: nat, dims: nat, a: seq<Geo>, b: seq<Geo>)
    requires dims > 0
    ensures WholeParts(base, dims, a + b) <==> WholeParts(base, dims, a) && WholeParts(base, dims, b)
  {
    hide PartOf, Whole;
    if WholeParts(base, dims, a + b) {
      assert forall k :: 0 <= k < |a| ==> a[k] == (a + b)[k];
      assert forall k :: 0 <= k < |b| ==> b[k] == (a + b)[|a| + k];
    }
  }

  lemma WholePolygonIff(dims: nat, ords: seq<Ord>, elems: seq<Elem>, i: nat)
    requires 2 <= dims <= 4 && |ords| < TWO32 && |elems| < TWO32 && i < |elems| && PolygonAt(dims, ords, elems, i).Ok?
    ensures var step := PolygonAt(dims, ords, elems, i).value;
            step.next == InteriorEnd(elems, i + 1)
            && (Whole(dims, step.geo) <==> forall k :: i <= k < step.next ==> Even(dims, ords, elems[k]))
  {
    hide RingsOf, WholeRing, Even;
    WholeRingsIff(dims, ords, elems, i, InteriorEnd(elems, i + 1));
  }

  lemma OnePart(base: nat, dims: nat, g: Geo)
    requires dims > 0
    ensures WholeParts(base, dims, [g]) <==> PartOf(base, g) && Whole(dims, g)
  {
    hide PartOf, Whole;
    assert [g][0] == g;
  }

  lemma WholeLineIff(dims: nat, ords: seq<Ord>, e: Elem)
    requires 2 <= dims <= 4 && |ords| < TWO32 && LineOf(ords, e).Ok?
    ensures Whole(dims, LineOf(ords, e).value) <==> Even(dims, ords, e)
  {
    hide OrdsOf;
  }

  lemma WholePartIff(dims: nat, ords: seq<Ord>, elems: seq<Elem>, i: nat)
    requires 2 <= dims <= 4 && |ords| < TWO32 && |elems| < TWO32 && i < |elems| && PartAt(dims, ords, elems, i).Ok?
    ensures var step := PartAt(dims, ords, elems, i).value;
            Whole(dims, step.geo) <==> EvenCurves(4, dims, ords, elems, i, step.next)
  {
    hide Points, PolygonAt, LineOf, OrdsOf, RoomOf, Even;
    var e := elems[i];
    if e.etype == 1 {
      PointsAreWhole(dims, OrdsOf(ords, e));
    } else if e.etype == 2 {
      WholeLineIff(dims, ords, e);
    } else {
      WholePolygonIff(dims, ords, elems, i);
    }
  }

  lemma WholeMembersIff(shape: nat, dims: nat, ords: seq<Ord>, elems: seq<Elem>, i: nat)
    requires 2 <= dims <= 4 && |ords| < TWO32 && |elems| < TWO32
    requires 4 <= shape <= 7 && i < |elems| && MembersAt(shape, dims, ords, elems, i).Ok?
    ensures var (geos, next) := MembersAt(shape, dims, ords, elems, i).value;
            WholeParts(Base(shape), dims, geos) <==> EvenCurves(shape, dims, ords, elems, i, next)
  {
    hide Points, PolygonAt, LineOf, PartAt, OrdsOf, Even, WholeParts, Whole;
    var (geos, next) := MembersAt(shape, dims, ords, elems, i).value;
    if shape == 5 {
      PointsAreWhole(dims, OrdsOf(ords, elems[i]));
    } else {
      OnePart(Base(shape), dims, geos[0]);
      if shape == 6 {
        WholeLineIff(dims, ords, elems[i]);
        LineIsLine(ords, elems[i]);
      } else if shape == 7 {
        WholePolygonIff(dims, ords, elems, i);
      } else {
        WholePartIff(dims, ords, elems, i);
      }
    }
  }

  lemma LineIsLine(ords: seq<Ord>, e: Elem)
    ensures LineOf(ords, e).Ok? ==> LineOf(ords, e).value.Line?
  {
  }

  lemma {:induction false} WholeMembersFromIff(shape: nat, dims: nat, ords: seq<Ord>, elems: seq<Elem>, i: nat)
    requires 2 <= dims <= 4 && |ords| < TWO32 && |elems| < TWO32
    requires 4 <= shape <= 7 && i <= |elems| && MembersFrom(shape, dims, ords, elems, i).Ok?
    ensures WholeParts(Base(shape), dims, MembersFrom(shape, dims, ords, elems, i).value) <==> EvenCurves(shape, dims, ords, elems, i, |elems|)
    decreases |elems| - i
  {
    hide MembersAt, Even, AsCurve, WholeParts;
    if i < |elems| {
      WholeMembersIff(shape, dims, ords, elems, i);
      var (geos, next) := MembersAt(shape, dims, ords, elems, i).value;
      WholeMembersFromIff(shape, dims, ords, elems, next);
      WholePartsConcat(Base(shape), dims, geos, MembersFrom(shape, dims, ords, elems, next).value);
    } else {
      assert WholeParts(Base(shape), dims, []) by { NoParts(Base(shape), dims); }
    }
  }

  lemma NoParts(base: nat, dims: nat)
    requires dims > 0
    ensures WholeParts(base, dims, [])
  {
  }

  /** The geometry is made of whole points exactly when every line and straight ring of it is; counts must fit. */
  lemma WholeShapeIff(shape: nat, dims: nat, ords: seq<Ord>, elems: seq<Elem>)
    requires 2 <= dims <= 4 && |ords| < TWO32 && |elems| < TWO32 && Shape(shape, dims, ords, elems).Ok?
    ensures var g := Shape(shape, dims, ords, elems).value;
            Whole(dims, g) <==> EvenCurves(shape, dims, ords, elems, 0, |elems|) && (g.Multi? ==> |g.parts| < TWO32)
  {
    hide OrdsOf, RoomOf, PolygonAt, MembersFrom, PartOf;
    if 4 <= shape <= 7 {
      WholeMembersFromIff(shape, dims, ords, elems, 0);
    } else if shape == 2 {
    } else if shape == 3 {
      WholePolygonIff(dims, ords, elems, 0);
    }
  }

  /** The elements of the object, for conversions that look at them. */
  function ElemsOf(s: Sdo): seq<Elem> {
    Elems(s.elemInfo, |s.ords|, |s.elemInfo| / 3)
  }

  /** A WKB parser consumes all of what is written and recovers the geometry exactly when every line and straight ring is made of whole points. */
  lemma ConversionParsesIff(s: Sdo)
    requires |s.ords| < TWO32 && |s.elemInfo| < TWO32 && Geometry(s).Ok?
    ensures var p := Geometry(s).value;
            var bytes := GeoBytes(p.dims, p.geo);
            ParseGeo(bytes, 0) == At(p, |bytes|)
            <==> EvenCurves(s.gtype.value % 100, p.dims, s.ords, ElemsOf(s), 0, |ElemsOf(s)|)
                 && (p.geo.Multi? ==> |p.geo.parts| < TWO32)
  {
    hide ParseGeo, GeoBytes, Shape, Whole, Elems, EvenCurves;
    var p := Geometry(s).value;
    GeoReadsBackIff(p.dims, p.geo);
    if s.point.Some? && s.gtype.value % 100 == 1 && s.elemInfo == [] {
      PointIsWhole(p.dims, s.point.value);
      NoCurves(s.gtype.value % 100, p.dims, s.ords);
    } else {
      WholeShapeIff(s.gtype.value % 100, p.dims, s.ords, ElemsOf(s));
    }
  }

  lemma NoCurves(shape: nat, dims: nat, ords: seq<Ord>)
    requires 2 <= dims
    ensures EvenCurves(shape, dims, ords, [], 0, 0)
  {
  }

  lemma PointIsWhole(dims: nat, p: SdoPoint)
    ensures Whole(PointGeometry(dims, p).dims, PointGeometry(dims, p).geo)
  {
  }

  // ---- no more members than ordinates: elements do not overlap ----

  lemma FewMembers(shape: nat, dims: nat, ords: seq<Ord>, elems: seq<Elem>, i: nat)
    requires 2 <= dims && 4 <= shape <= 7 && i < |elems| && MembersAt(shape, dims, ords, elems, i).Ok?
    requires |OrdsOf(ords, elems[i])| >= dims
    ensures |MembersAt(shape, dims, ords, elems, i).value.0| <= |OrdsOf(ords, elems[i])|
  {
    hide RingsOf, Points, PolygonAt, OrdsOf, RoomOf, WholeParts;
    PointsAreWhole(dims, OrdsOf(ords, elems[i]));
  }

  lemma {:induction false} FewMembersFrom(shape: nat, dims: nat, ords: seq<Ord>, elems: seq<Elem>, i: nat)
    requires 2 <= dims && Aligned(dims, ords, elems) && Chained(elems, |ords|)
    requires 4 <= shape <= 7 && i <= |elems| && MembersFrom(shape, dims, ords, elems, i).Ok?
    ensures |MembersFrom(shape, dims, ords, elems, i).value| <= if i == |elems| then 0 else |ords| + 1 - elems[i].offset
    decreases |elems| - i
  {
    hide MembersAt;
    if i < |elems| {
      FewMembers(shape, dims, ords, elems, i);
      var next := MembersAt(shape, dims, ords, elems, i).value.1;
      FewMembersFrom(shape, dims, ords, elems, next);
      OffsetsGrow(dims, ords, elems, i, next);
    }
  }

  lemma {:induction false} OffsetsGrow(dims: nat, ords: seq<Ord>, elems: seq<Elem>, i: nat, j: nat)
    requires 2 <= dims && Aligned(dims, ords, elems) && Chained(elems, |ords|) && i < j <= |elems|
    ensures 1 <= elems[i].offset && elems[i].offset + |OrdsOf(ords, elems[i])| <= if j == |elems| then |ords| + 1 else elems[j].offset
    decreases j
  {
    assert |OrdsOf(ords, elems[i])| >= dims;
    if i + 1 < j {
      OffsetsGrow(dims, ords, elems, i, j - 1);
      assert |OrdsOf(ords, elems[j - 1])| >= dims;
    }
  }

  // ---- when a point is sliced out of bounds ----

  /** A single point of a collection with fewer ordinates behind its offset than the dimension, or out of range. */
  predicate ShortPoint(dims: nat, ords: seq<Ord>, e: Elem) {
    e.etype == 1 && e.interp <= 1 && (!InRange(ords, e) || e.offset - 1 + dims > |ords|)
  }

  /** From element i on, a collection's members convert up to element k. */
  ghost predicate Reaches(dims: nat, ords: seq<Ord>, elems: seq<Elem>, i: nat, k: nat)
    requires 2 <= dims && i <= |elems|
    decreases |elems| - i
  {
    i == k || (i < |elems| && MembersAt(4, dims, ords, elems, i).Ok? && Reaches(dims, ords, elems, MembersAt(4, dims, ords, elems, i).value.1, k))
  }

  lemma {:induction false} RingsDoNotPanic(dims: nat, ords: seq<Ord>, elems: seq<Elem>, i: nat, j: nat)
    requires 2 <= dims && i <= j <= |elems|
    ensures RingsOf(dims, ords, elems, i, j) != Panic
    decreases j
  {
    if i < j {
      RingsDoNotPanic(dims, ords, elems, i, j - 1);
    }
  }

  lemma PolygonDoesNotPanic(dims: nat, ords: seq<Ord>, elems: seq<Elem>, i: nat)
    requires 2 <= dims && i < |elems|
    ensures PolygonAt(dims, ords, elems, i) != Panic
  {
    if elems[i].etype == EXTERIOR {
      RingsDoNotPanic(dims, ords, elems, i, InteriorEnd(elems, i + 1));
    }
  }

  lemma MemberPanicsIff(shape: nat, dims: nat, ords: seq<Ord>, elems: seq<Elem>, i: nat)
    requires 2 <= dims && 4 <= shape <= 7 && i < |elems|
    ensures MembersAt(shape, dims, ords, elems, i) == Panic <==> shape == 4 && ShortPoint(dims, ords, elems[i])
  {
    hide PolygonAt, Points;
    PolygonDoesNotPanic(dims, ords, elems, i);
  }

  lemma {:induction false} MembersPanicIff(shape: nat, dims: nat, ords: seq<Ord>, elems: seq<Elem>, i: nat)
    requires 2 <= dims && 4 <= shape <= 7 && i <= |elems|
    ensures MembersFrom(shape, dims, ords, elems, i) == Panic
            <==> shape == 4 && exists k :: i <= k < |elems| && Reaches(dims, ords, elems, i, k) && ShortPoint(dims, ords, elems[k])
    decreases |elems| - i
  {
    hide MembersAt, ShortPoint;
    if i < |elems| {
      MemberPanicsIff(shape, dims, ords, elems, i);
      var m := MembersAt(shape, dims, ords, elems, i);
      if m.Ok? {
        MembersPanicIff(shape, dims, ords, elems, m.value.1);
      }
      assert Reaches(dims, ords, elems, i, i);
      if shape == 4 {
        forall k | i < k < |elems|
          ensures Reaches(dims, ords, elems, i, k) <==> m.Ok? && Reaches(dims, ords, elems, m.value.1, k)
        {
        }
        if m.Ok? {
          ReachesAhead(dims, ords, elems, m.value.1);
        }
      }
    }
  }

  lemma {:induction false} ReachesAhead(dims: nat, ords: seq<Ord>, elems: seq<Elem>, i: nat)
    requires 2 <= dims && i <= |elems|
    ensures forall k :: Reaches(dims, ords, elems, i, k) ==> i <= k
    decreases |elems| - i
  {
    hide MembersAt;
    if i < |elems| && MembersAt(4, dims, ords, elems, i).Ok? {
      ReachesAhead(dims, ords, elems, MembersAt(4, dims, ords, elems, i).value.1);
    }
  }

  /** The conversion slices out of bounds exactly when it is a collection that reaches a short point. */
  lemma PanicsIffShortPoint(s: Sdo)
    ensures Geometry(s) == Panic
            <==> s.gtype.Some? && 2000 <= s.gtype.value < 5000 && s.gtype.value % 100 == 4 && |s.elemInfo| % 3 == 0
                 && exists k :: 0 <= k < |ElemsOf(s)| && Reaches(s.gtype.value / 1000, s.ords, ElemsOf(s), 0, k)
                                && ShortPoint(s.gtype.value / 1000, s.ords, ElemsOf(s)[k])
  {
    hide Elems, MembersFrom, PolygonAt, Reaches, ShortPoint;
    if s.gtype.Some? && 2000 <= s.gtype.value < 5000 && |s.elemInfo| % 3 == 0 {
      var dims, shape := s.gtype.value / 1000, s.gtype.value % 100;
      if 4 <= shape <= 7 {
        MembersPanicIff(shape, dims, s.ords, ElemsOf(s), 0);
      } else if ElemsOf(s) != [] {
        PolygonDoesNotPanic(dims, s.ords, ElemsOf(s), 0);
      }
    }
  }

  lemma TwoPoints(second: int)
    ensures var elems := Elems([1, 1, 1, second, 1, 1], 3, 2);
            elems == [Elem(1, 1, 1, second), Elem(second, 1, 1, 4)]
  {
    var info := [1, 1, 1, second, 1, 1];
    assert Elems(info, 3, 0) == [];
    assert Elems(info, 3, 1) == [Elem(1, 1, 1, second)];
  }

  /** A point element cut short by its neighbour still has its ordinates; one at the end of the list does not. */
  lemma ShortPoints()
    ensures Geometry(Sdo(Some(2004), None, [1, 1, 1, 2, 1, 1], [10, 20, 30])) == Ok(Parsed(2, Multi(7, [Point([10, 20]), Point([20, 30])])))
    ensures Geometry(Sdo(Some(2004), None, [1, 1, 1, 3, 1, 1], [10, 20, 30])) == Panic
  {
    hide Elems, MembersFrom;
    TwoPoints(2);
    TwoPoints(3);
    NearPoints();
    FarPoint();
  }

  lemma NearPoints()
    ensures MembersFrom(4, 2, [10, 20, 30], [Elem(1, 1, 1, 2), Elem(2, 1, 1, 4)], 0) == Ok([Point([10, 20]), Point([20, 30])])
  {
    hide MembersFrom, PolygonAt, LineOf, Points;
    var ords: seq<Ord>, near := [10, 20, 30], [Elem(1, 1, 1, 2), Elem(2, 1, 1, 4)];
    var p, q: Geo := Point([10, 20]), Point([20, 30]);
    assert ords[0..][..2] == [10, 20] && ords[1..][..2] == [20, 30];
    OneMember(ords, near, 0, p);
    OneMember(ords, near, 1, q);
    NoMember(ords, near);
    assert [q] + [] == [q] && [p] + [q] == [p, q];
  }

  lemma OneMember(ords: seq<Ord>, elems: seq<Elem>, i: nat, p: Geo)
    requires i < |elems| && PartAt(2, ords, elems, i) == Ok(Step(p, i + 1))
    ensures MembersFrom(4, 2, ords, elems, i) == Prepend([p], MembersFrom(4, 2, ords, elems, i + 1))
  {
    hide PartAt;
  }

  lemma NoMember(ords: seq<Ord>, elems: seq<Elem>)
    ensures MembersFrom(4, 2, ords, elems, |elems|) == Ok([])
  {
  }

  lemma FarPoint()
    ensures MembersFrom(4, 2, [10, 20, 30], [Elem(1, 1, 1, 3), Elem(3, 1, 1, 4)], 0) == Panic
  {
    hide PolygonAt, LineOf, Points;
    var ords: seq<Ord>, far := [10, 20, 30], [Elem(1, 1, 1, 3), Elem(3, 1, 1, 4)];
    assert MembersFrom(4, 2, ords, far, 1) == Panic;
    assert PartAt(2, ords, far, 0) == Ok(Step(Point([10, 20]), 1)) by {
      assert ords[0..][..2] == [10, 20];
    }
  }

  /**
    * On elements of whole points the conversion does not panic, and a WKB parser consumes all of its output and
    * recovers the geometry.
    */
  lemma ConversionParses(s: Sdo)
    requires |s.ords| < TWO32 && |s.elemInfo| < TWO32
    requires s.gtype.Some? && 2000 <= s.gtype.value < 5000 && |s.elemInfo| % 3 == 0 ==>
               Aligned(s.gtype.value / 1000, s.ords, ElemsOf(s))
    ensures Geometry(s) != Panic
    ensures Geometry(s).Ok? ==>
              var p := Geometry(s).value;
              ParseGeo(GeoBytes(p.dims, p.geo), 0) == At(p, |GeoBytes(p.dims, p.geo)|)
  {
    hide ParseGeo, GeoBytes, Elems, MembersFrom, PolygonAt, OrdsOf, RoomOf, Reaches, Chained;
    PanicsIffShortPoint(s);
    if s.gtype.Some? && 2000 <= s.gtype.value < 5000 && |s.elemInfo| % 3 == 0 {
      var dims, shape := s.gtype.value / 1000, s.gtype.value % 100;
      AlignedPointsAreLong(dims, s.ords, ElemsOf(s));
      if Geometry(s).Ok? {
        ConversionParsesIff(s);
        if 4 <= shape <= 7 {
          ElemsAreChained(s.elemInfo, |s.ords|);
          FewMembersFrom(shape, dims, s.ords, ElemsOf(s), 0);
          if ElemsOf(s) != [] { OffsetsGrow(dims, s.ords, ElemsOf(s), 0, |ElemsOf(s)|); }
        }
      }
    } else if Geometry(s).Ok? {
      ConversionParsesIff(s);
    }
  }

  lemma AlignedPointsAreLong(dims: nat, ords: seq<Ord>, elems: seq<Elem>)
    requires 2 <= dims && Aligned(dims, ords, elems)
    ensures forall k :: 0 <= k < |elems| ==> !ShortPoint(dims, ords, elems[k])
    ensures forall shape: nat :: EvenCurves(shape, dims, ords, elems, 0, |elems|)
  {
    hide AsCurve;
    forall k | 0 <= k < |elems|
      ensures !ShortPoint(dims, ords, elems[k])
    {
      assert |OrdsOf(ords, elems[k])| >= dims;
    }
  }
}
