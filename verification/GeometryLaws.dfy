// What a conversion must keep: the ordinates in their order, the elements in their roles.
module GeometryLaws {
  import opened Bytes
  import opened Wkb
  import opened SdoGeometry

  // ---- rings in element order ----

  /** A polygon takes one ring from its first element and one from each interior element that follows, up to another kind or the end. */
  lemma {:induction false} PolygonTakesAllRings(dims: nat, ords: seq<Ord>, elems: seq<Elem>, i: nat)
    requires 2 <= dims && i < |elems| && PolygonAt(dims, ords, elems, i).Ok?
    ensures var step := PolygonAt(dims, ords, elems, i).value;
            i < step.next <= |elems| && |step.geo.rings| == step.next - i
            && elems[i].etype == 1003 && (forall k :: i < k < step.next ==> elems[k].etype == 2003)
            && (step.next < |elems| ==> elems[step.next].etype != 2003)
            && forall k :: 0 <= k < step.next - i ==> RingOf(dims, ords, elems[i + k]) == SdoGeometry.Ok(step.geo.rings[k])
  {
    hide RingOf;
    var j := InteriorEnd(elems, i + 1);
    RingEach(dims, ords, elems, i, j);
  }

  lemma {:induction false} RingEach(dims: nat, ords: seq<Ord>, elems: seq<Elem>, i: nat, j: nat)
    requires 2 <= dims && i <= j <= |elems| && RingsOf(dims, ords, elems, i, j).Ok?
    ensures forall k :: 0 <= k < j - i ==> RingOf(dims, ords, elems[i + k]) == SdoGeometry.Ok(RingsOf(dims, ords, elems, i, j).value[k])
    decreases j
  {
    hide RingOf;
    if i < j { RingEach(dims, ords, elems, i, j - 1); }
  }

  // ---- the ordinates, in order ----

  /** A geometry's ordinates, read in order. */
  function Flat(g: Geo): seq<Ord>
    decreases g, 0
  {
    match g
    case Point(ords) => ords
    case Line(ords) => ords
    case Polygon(rings) => Flatten(rings)
    case Multi(_, parts) => FlatAll(parts)
  }

  function FlatAll(parts: seq<Geo>): seq<Ord>
    decreases parts, 0
  {
    if parts == [] then [] else Flat(parts[0]) + FlatAll(parts[1..])
  }

  lemma {:induction false} FlatConcat(a: seq<Geo>, b: seq<Geo>)
    ensures FlatAll(a + b) == FlatAll(a) + FlatAll(b)
  {
    if a == [] {
      assert a + b == b;
    } else {
      hide Flat;
      FlatConcat(a[1..], b);
      assert (a + b)[1..] == a[1..] + b;
      Associate(Flat(a[0]), FlatAll(a[1..]), FlatAll(b));
    }
  }

  lemma OnePointLess(dims: nat, n: nat)
    requires 2 <= dims <= 4 && n % dims == 0
    ensures n > 0 ==> n >= dims && (n - dims) % dims == 0
  {
    if dims == 2 {
    } else if dims == 3 {
    } else {
    }
  }

  lemma {:induction false} FlatPoints(dims: nat, o: seq<Ord>)
    requires 2 <= dims <= 4 && |o| % dims == 0
    ensures FlatAll(Points(dims, o)) == o
    decreases |o|
  {
    OnePointLess(dims, |o|);
    if o != [] {
      FlatPoints(dims, o[dims..]);
      assert o == o[..dims] + o[dims..];
    }
  }

  /** Where element i starts in the ordinates. */
  function Start(ords: seq<Ord>, elems: seq<Elem>, i: nat): int
    requires i <= |elems|
  {
    if i == |elems| then |ords| else elems[i].offset - 1
  }

  /** In range and chained: the elements cut the ordinates into consecutive slices. */
  ghost predicate Cut(ords: seq<Ord>, elems: seq<Elem>) {
    Chained(elems, |ords|) && forall k :: 0 <= k < |elems| ==> InRange(ords, elems[k])
  }

  lemma CutAt(ords: seq<Ord>, elems: seq<Elem>, i: nat)
    requires Cut(ords, elems) && i < |elems|
    ensures 0 <= Start(ords, elems, i) <= Start(ords, elems, i + 1) <= |ords|
    ensures OrdsOf(ords, elems[i]) == ords[Start(ords, elems, i)..Start(ords, elems, i + 1)]
    ensures OrdsOf(ords, elems[i]) + ords[Start(ords, elems, i + 1)..] == ords[Start(ords, elems, i)..]
  {
    assert InRange(ords, elems[i]);
    assert i + 1 < |elems| ==> InRange(ords, elems[i + 1]);
  }

  lemma {:induction false} StartGrows(ords: seq<Ord>, elems: seq<Elem>, i: nat, j: nat)
    requires Cut(ords, elems) && i <= j <= |elems|
    ensures 0 <= Start(ords, elems, i) <= Start(ords, elems, j) <= |ords|
    decreases j
  {
    if i < j {
      StartGrows(ords, elems, i, j - 1);
      CutAt(ords, elems, j - 1);
    } else if i < |elems| {
      CutAt(ords, elems, i);
    }
  }

  lemma {:induction false} FlatRings(dims: nat, ords: seq<Ord>, elems: seq<Elem>, i: nat, j: nat)
    requires 2 <= dims && i <= j <= |elems| && Cut(ords, elems)
    requires forall k :: i <= k < j ==> elems[k].interp == 1
    ensures RingsOf(dims, ords, elems, i, j).Ok? && 0 <= Start(ords, elems, i) <= Start(ords, elems, j) <= |ords|
    ensures Flatten(RingsOf(dims, ords, elems, i, j).value) == ords[Start(ords, elems, i)..Start(ords, elems, j)]
    decreases j
  {
    hide Cut, OrdsOf, Start;
    StartGrows(ords, elems, i, j);
    if i < j {
      FlatRings(dims, ords, elems, i, j - 1);
      CutAt(ords, elems, j - 1);
      var rings, o := RingsOf(dims, ords, elems, i, j - 1).value, OrdsOf(ords, elems[j - 1]);
      FlattenSnoc(rings, o);
      JoinSlices(ords, Start(ords, elems, i), Start(ords, elems, j - 1), Start(ords, elems, j));
    }
  }

  lemma JoinSlices<T>(s: seq<T>, a: nat, b: nat, c: nat)
    requires a <= b <= c <= |s|
    ensures s[a..b] + s[b..c] == s[a..c]
  {
  }

  /** What makes every ordinate of element k count: curves straight, clusters of whole points, single points of one point. */
  predicate Plainly(shape: nat, dims: nat, ords: seq<Ord>, e: Elem)
    requires 2 <= dims
  {
    var n := |OrdsOf(ords, e)|;
    if shape == 1 then n == dims
    else if shape == 5 || (shape == 4 && e.etype == 1 && e.interp > 1) then n % dims == 0
    else if shape == 4 && e.etype == 1 then n == dims
    else e.interp == 1
  }

  /** Straight elements, one behind the other from the first ordinate on, all of them part of the geometry. */
  ghost predicate Straight(shape: nat, dims: nat, ords: seq<Ord>, elems: seq<Elem>)
    requires 2 <= dims
  {
    Cut(ords, elems) && Start(ords, elems, 0) == 0
    && (forall k :: 0 <= k < |elems| ==> Plainly(shape, dims, ords, elems[k]))
    && (shape == 1 || shape == 2 ==> |elems| == 1)
    && (shape == 3 ==> forall k :: 1 <= k < |elems| ==> elems[k].etype == INTERIOR)
  }

  lemma FlatPolygon(dims: nat, ords: seq<Ord>, elems: seq<Elem>, i: nat)
    requires 2 <= dims && i < |elems| && Cut(ords, elems) && PolygonAt(dims, ords, elems, i).Ok?
    requires forall k :: i <= k < PolygonAt(dims, ords, elems, i).value.next ==> elems[k].interp == 1
    ensures var step := PolygonAt(dims, ords, elems, i).value;
            0 <= Start(ords, elems, i) <= Start(ords, elems, step.next) <= |ords|
            && Flat(step.geo) == ords[Start(ords, elems, i)..Start(ords, elems, step.next)]
  {
    hide RingsOf, Cut, OrdsOf, Start;
    FlatRings(dims, ords, elems, i, InteriorEnd(elems, i + 1));
  }

  lemma FlatOne(g: Geo)
    ensures FlatAll([g]) == Flat(g)
  {
    assert [g][1..] == [];
  }

  lemma FlatPart(dims: nat, ords: seq<Ord>, elems: seq<Elem>, i: nat)
    requires 2 <= dims <= 4 && i < |elems| && Cut(ords, elems) && PartAt(dims, ords, elems, i).Ok?
    requires forall k :: 0 <= k < |elems| ==> Plainly(4, dims, ords, elems[k])
    ensures var step := PartAt(dims, ords, elems, i).value;
            0 <= Start(ords, elems, i) <= Start(ords, elems, step.next) <= |ords|
            && Flat(step.geo) == ords[Start(ords, elems, i)..Start(ords, elems, step.next)]
  {
    hide Points, PolygonAt, Cut, OrdsOf, Start, RoomOf;
    var e := elems[i];
    if e.etype == 1 || e.etype == 2 {
      CutAt(ords, elems, i);
      if e.interp > 1 && e.etype == 1 {
        FlatPoints(dims, OrdsOf(ords, e));
      } else if e.etype == 1 {
        assert RoomOf(ords, e)[..dims] == OrdsOf(ords, e);
      }
    } else {
      CurvesAhead(dims, ords, elems, i);
      FlatPolygon(dims, ords, elems, i);
    }
  }

  /** A polygon's elements are no points, so what makes them count is that they are straight. */
  lemma CurvesAhead(dims: nat, ords: seq<Ord>, elems: seq<Elem>, i: nat)
    requires 2 <= dims && i < |elems| && PolygonAt(dims, ords, elems, i).Ok?
    requires forall k :: 0 <= k < |elems| ==> Plainly(4, dims, ords, elems[k])
    ensures forall k :: i <= k < PolygonAt(dims, ords, elems, i).value.next ==> elems[k].interp == 1
  {
    PolygonTakesAllRings(dims, ords, elems, i);
    forall k | i <= k < PolygonAt(dims, ords, elems, i).value.next
      ensures elems[k].interp == 1
    {
      assert Plainly(4, dims, ords, elems[k]);
    }
  }

  lemma FlatMembers(shape: nat, dims: nat, ords: seq<Ord>, elems: seq<Elem>, i: nat)
    requires 2 <= dims <= 4 && 4 <= shape <= 7 && i < |elems| && Cut(ords, elems) && MembersAt(shape, dims, ords, elems, i).Ok?
    requires forall k :: 0 <= k < |elems| ==> Plainly(shape, dims, ords, elems[k])
    ensures var (geos, next) := MembersAt(shape, dims, ords, elems, i).value;
            0 <= Start(ords, elems, i) <= Start(ords, elems, next) <= |ords|
            && FlatAll(geos) == ords[Start(ords, elems, i)..Start(ords, elems, next)]
  {
    hide Points, PolygonAt, PartAt, Cut, OrdsOf, Start, RoomOf, FlatAll;
    var (geos, next) := MembersAt(shape, dims, ords, elems, i).value;
    CutAt(ords, elems, i);
    if shape == 5 {
      FlatPoints(dims, OrdsOf(ords, elems[i]));
    } else {
      FlatOne(geos[0]);
      if shape == 4 {
        FlatPart(dims, ords, elems, i);
      } else if shape == 7 {
        FlatPolygon(dims, ords, elems, i);
      }
    }
  }

  lemma {:induction false} FlatMembersFrom(shape: nat, dims: nat, ords: seq<Ord>, elems: seq<Elem>, i: nat)
    requires 2 <= dims <= 4 && 4 <= shape <= 7 && i <= |elems| && Cut(ords, elems) && MembersFrom(shape, dims, ords, elems, i).Ok?
    requires forall k :: 0 <= k < |elems| ==> Plainly(shape, dims, ords, elems[k])
    ensures 0 <= Start(ords, elems, i) <= |ords|
    ensures FlatAll(MembersFrom(shape, dims, ords, elems, i).value) == ords[Start(ords, elems, i)..]
    decreases |elems| - i
  {
    hide MembersAt, Cut, Plainly, FlatAll, Start;
    StartGrows(ords, elems, i, |elems|);
    if i < |elems| {
      FlatMembers(shape, dims, ords, elems, i);
      var (geos, next) := MembersAt(shape, dims, ords, elems, i).value;
      FlatMembersFrom(shape, dims, ords, elems, next);
      FlatConcat(geos, MembersFrom(shape, dims, ords, elems, next).value);
      JoinSlices(ords, Start(ords, elems, i), Start(ords, elems, next), |ords|);
      assert ords[Start(ords, elems, next)..|ords|] == ords[Start(ords, elems, next)..];
      assert ords[Start(ords, elems, i)..|ords|] == ords[Start(ords, elems, i)..];
    } else {
      assert FlatAll([]) == [] by { NoFlat(); }
      LastStart(ords, elems);
    }
  }

  lemma NoFlat()
    ensures FlatAll([]) == []
  {
  }

  lemma LastStart(ords: seq<Ord>, elems: seq<Elem>)
    ensures Start(ords, elems, |elems|) == |ords| && ords[|ords|..] == []
  {
  }

  /** Nothing is lost, added or moved: straight elements' ordinates are the object's, in order, for every shape. */
  lemma OrdinatesSurvive(s: Sdo)
    requires Geometry(s).Ok? && !(s.point.Some? && s.gtype.value % 100 == 1 && s.elemInfo == [])
    requires Straight(s.gtype.value % 100, s.gtype.value / 1000, s.ords, ElemsOf(s))
    ensures Flat(Geometry(s).value.geo) == s.ords
  {
    hide Elems, MembersFrom, Cut, Plainly, OrdsOf, RoomOf, FlatAll;
    var elems := ElemsOf(s);
    var dims, shape := s.gtype.value / 1000, s.gtype.value % 100;
    if 4 <= shape <= 7 {
      FlatMembersFrom(shape, dims, s.ords, elems, 0);
    } else if shape == 3 {
      StraightRings(dims, s.ords, elems);
      FlatPolygon(dims, s.ords, elems, 0);
      PolygonTakesAllRings(dims, s.ords, elems, 0);
    } else {
      CutAt(s.ords, elems, 0);
      if shape == 1 { RoomStarts(dims, s.ords, elems[0]); }
    }
  }

  lemma RoomStarts(dims: nat, ords: seq<Ord>, e: Elem)
    requires 2 <= dims && Plainly(1, dims, ords, e)
    ensures dims <= |RoomOf(ords, e)| && RoomOf(ords, e)[..dims] == OrdsOf(ords, e)
  {
  }

  lemma StraightRings(dims: nat, ords: seq<Ord>, elems: seq<Elem>)
    requires 2 <= dims && forall k :: 0 <= k < |elems| ==> Plainly(3, dims, ords, elems[k])
    ensures forall k :: 0 <= k < |elems| ==> elems[k].interp == 1
  {
    forall k | 0 <= k < |elems|
      ensures elems[k].interp == 1
    {
      assert Plainly(3, dims, ords, elems[k]);
    }
  }

  /** A point given without elements: x and y, and z in more than two dimensions; absent ones are zero, an absent z is no number. */
  lemma PointSurvives(s: Sdo, p: SdoPoint)
    requires s.gtype.Some? && 2000 <= s.gtype.value < 5000 && s.gtype.value % 100 == 1 && s.point == Some(p) && s.elemInfo == []
    ensures Geometry(s).Ok?
    ensures var r := Geometry(s).value;
            r.geo.Point? && r.dims == |r.geo.ords| == (if s.gtype.value < 3000 then 2 else 3)
            && (p.x.Some? ==> r.geo.ords[0] == p.x.value) && (p.x.None? ==> r.geo.ords[0] == 0)
            && (p.y.Some? ==> r.geo.ords[1] == p.y.value) && (p.y.None? ==> r.geo.ords[1] == 0)
            && (s.gtype.value >= 3000 ==> (p.z.Some? ==> r.geo.ords[2] == p.z.value) && (p.z.None? ==> r.geo.ords[2] == NAN))
  {
  }

  // ---- rectangles ----

  /** The first two ordinates of every point, as numbers. */
  function Plane(num: Ord -> real, dims: nat, o: seq<Ord>): seq<(real, real)>
    requires 2 <= dims
    decreases |o|
  {
    if |o| < dims then [] else [(num(o[0]), num(o[1]))] + Plane(num, dims, o[dims..])
  }

  function Numbers(num: Ord -> real, corners: seq<(Ord, Ord)>): (r: seq<(real, real)>)
    ensures |r| == |corners|
    ensures forall k :: 0 <= k < |r| ==> r[k] == (num(corners[k].0), num(corners[k].1))
  {
    seq(|corners|, k requires 0 <= k < |corners| => (num(corners[k].0), num(corners[k].1)))
  }

  lemma {:induction false} PlaneSnoc(num: Ord -> real, dims: nat, o: seq<Ord>, point: seq<Ord>)
    requires 2 <= dims <= 4 && |o| % dims == 0 && |point| == dims
    ensures Plane(num, dims, o + point) == Plane(num, dims, o) + [(num(point[0]), num(point[1]))]
    decreases |o|
  {
    if o == [] {
      assert o + point == point;
      assert Plane(num, dims, point[dims..]) == [];
    } else {
      OnePointLess(dims, |o|);
      PlaneSnoc(num, dims, o[dims..], point);
      assert (o + point)[dims..] == o[dims..] + point;
    }
  }

  lemma {:induction false} PlaneOfExpand(num: Ord -> real, dims: nat, corners: seq<(Ord, Ord)>, extra: seq<Ord>)
    requires 2 <= dims <= 4 && |extra| == dims - 2
    ensures Plane(num, dims, Expand(corners, extra)) == Numbers(num, corners)
  {
    if corners != [] {
      var n := |corners| - 1;
      PlaneOfExpand(num, dims, corners[..n], extra);
      assert dims == 2 || dims == 3 || dims == 4;
      PlaneSnoc(num, dims, Expand(corners[..n], extra), [corners[n].0, corners[n].1] + extra);
      assert Numbers(num, corners) == Numbers(num, corners[..n]) + [(num(corners[n].0), num(corners[n].1))];
    }
  }

  /**
    * A rectangle becomes a ring through both given corners, along the axes, that turns counter-clockwise for an
    * outer ring and clockwise for a hole.
    */
  lemma RectangleRing(num: Ord -> real, dims: nat, ords: seq<Ord>, e: Elem)
    requires 2 <= dims <= 4 && e.interp == 3 && |OrdsOf(ords, e)| >= 2 * dims
    requires var o := OrdsOf(ords, e); num(o[0]) < num(o[dims]) && num(o[1]) < num(o[dims + 1])
    ensures RingOf(dims, ords, e).Ok?
    ensures var o, c := OrdsOf(ords, e), Plane(num, dims, RingOf(dims, ords, e).value);
            |c| == 5 && c[0] == c[4] == (num(o[0]), num(o[1])) && c[2] == (num(o[dims]), num(o[dims + 1]))
            && (forall k :: 0 <= k < 4 ==> (c[k].0 == c[k + 1].0) != (c[k].1 == c[k + 1].1))
            && (if e.etype == 1003 then Area2(c, 0) > 0.0 else Area2(c, 0) < 0.0)
  {
    hide Expand, Area2, Plane, Numbers;
    var o := OrdsOf(ords, e);
    var corners := Corners(o[0], o[1], o[dims], o[dims + 1], e.etype == EXTERIOR);
    PlaneOfExpand(num, dims, corners, o[2..dims]);
    RectangleTurns(num(o[0]), num(o[1]), num(o[dims]), num(o[dims + 1]));
    assert Numbers(num, corners) == Corners(num(o[0]), num(o[1]), num(o[dims]), num(o[dims + 1]), e.etype == EXTERIOR);
  }

  // ---- bytes ----

  /** The five bytes in front of a geometry, for each kind and dimension: little-endian, and the kind plus 1000 or 3000. */
  lemma HeaderBytes(kind: nat)
    requires 1 <= kind <= 7
    ensures Header(2, kind) == [0x01, kind, 0x00, 0x00, 0x00]
    ensures Header(3, kind) == [0x01, 0xe8 + kind, 0x03, 0x00, 0x00]
    ensures Header(4, kind) == [0x01, 0xb8 + kind, 0x0b, 0x00, 0x00]
  {
    LEBytes(kind);
    LEBytes(1000 + kind);
    LEBytes(3000 + kind);
  }

  const LONGITUDE: Ord := 0xc05e99999999999a
  const LATITUDE: Ord := 0x4042e66666666666

  lemma LongitudeBytes()
    ensures LE(0xc05e99999999999a, 8) == [0x9a, 0x99, 0x99, 0x99, 0x99, 0x99, 0x5e, 0xc0]
  {
    hide LE;
    LEStep(0xc05e99999999999a, 7);
    LEStep(0xc05e9999999999, 6);
    LEStep(0xc05e99999999, 5);
    LEStep(0xc05e999999, 4);
    LEStep(0xc05e9999, 3);
    LEStep(0xc05e99, 2);
    LEStep(0xc05e, 1);
    LEStep(0xc0, 0);
  }

  lemma LatitudeBytes()
    ensures LE(0x4042e66666666666, 8) == [0x66, 0x66, 0x66, 0x66, 0x66, 0xe6, 0x42, 0x40]
  {
    hide LE;
    LEStep(0x4042e66666666666, 7);
    LEStep(0x4042e666666666, 6);
    LEStep(0x4042e6666666, 5);
    LEStep(0x4042e66666, 4);
    LEStep(0x4042e666, 3);
    LEStep(0x4042e6, 2);
    LEStep(0x4042, 1);
    LEStep(0x40, 0);
  }

  lemma CoordsOfTwo(x: Ord, y: Ord)
    ensures Coords([x, y]) == LE(x, 8) + LE(y, 8)
  {
    hide LE;
    assert [x, y][..1] == [x] && [x][..0] == [];
    assert Coords([x]) == [] + LE(x, 8);
    assert Coords([x, y]) == Coords([x]) + LE(y, 8);
  }

  /** The point of the repository's test: longitude -122.4, latitude 37.8. */
  lemma TestedPoint()
    ensures var s := Sdo(Some(2001), Some(SdoPoint(Some(LONGITUDE), Some(LATITUDE), None)), [], []);
            Geometry(s).Ok? && GeoBytes(2, Geometry(s).value.geo)
            == [0x01, 0x01, 0x00, 0x00, 0x00] + ([0x9a, 0x99, 0x99, 0x99, 0x99, 0x99, 0x5e, 0xc0]
                                                 + [0x66, 0x66, 0x66, 0x66, 0x66, 0xe6, 0x42, 0x40])
  {
    hide LE, Coords, Header;
    HeaderBytes(1);
    LongitudeBytes();
    LatitudeBytes();
    CoordsOfTwo(LONGITUDE, LATITUDE);
  }

  // ---- every geometry can be described, and is what its description converts to ----

  /** An element before it has its place. */
  datatype Piece = Piece(etype: int, interp: int, ords: seq<Ord>)

  /** The ordinates of all pieces, one behind the other. */
  function Laid(ps: seq<Piece>): seq<Ord> {
    if ps == [] then [] else Laid(ps[..|ps| - 1]) + ps[|ps| - 1].ords
  }

  /** SDO_ELEM_INFO for them: offsets count from one. */
  function Info(ps: seq<Piece>): (info: seq<int>)
    ensures |info| == 3 * |ps|
  {
    if ps == [] then []
    else
      var n := |ps| - 1;
      Info(ps[..n]) + [|Laid(ps[..n])| + 1, ps[n].etype, ps[n].interp]
  }

  /** The outer ring first, then the holes. */
  function RingPieces(rings: seq<seq<Ord>>): (ps: seq<Piece>)
    ensures |ps| == |rings|
    ensures forall k :: 0 <= k < |ps| ==> ps[k] == Piece(if k == 0 then 1003 else 2003, 1, rings[k])
  {
    seq(|rings|, k requires 0 <= k < |rings| => Piece(if k == 0 then 1003 else 2003, 1, rings[k]))
  }

  /** A part on its own; several points together are one cluster. */
  function PartPieces(g: Geo): seq<Piece> {
    match g
    case Point(ords) => [Piece(1, 1, ords)]
    case Line(ords) => [Piece(2, 1, ords)]
    case Polygon(rings) => RingPieces(rings)
    case Multi(_, parts) => [Piece(1, |parts|, FlatAll(parts))]
  }

  function PartsPieces(parts: seq<Geo>): seq<Piece> {
    if parts == [] then [] else PartPieces(parts[0]) + PartsPieces(parts[1..])
  }

  predicate WholePoint(dims: nat, g: Geo) {
    g.Point? && |g.ords| == dims
  }

  predicate Part(dims: nat, g: Geo) {
    match g
    case Point(ords) => |ords| == dims
    case Line(_) => true
    case Polygon(rings) => rings != []
    case Multi(base, parts) => base == 4 && |parts| > 1 && forall k :: 0 <= k < |parts| ==> WholePoint(dims, parts[k])
  }

  /** Which parts a geometry may have: points in a multi-point, lines in a multi-line, polygons in a multi-polygon, any in a collection. */
  predicate FitsIn(base: nat, g: Geo) {
    base == 7 || (base == 4 && g.Point?) || (base == 5 && g.Line?) || (base == 6 && g.Polygon?)
  }

  predicate Describable(dims: nat, g: Geo) {
    if g.Multi? then 4 <= g.base <= 7 && forall k :: 0 <= k < |g.parts| ==> Part(dims, g.parts[k]) && FitsIn(g.base, g.parts[k])
    else Part(dims, g)
  }

  /** The last two digits of SDO_GTYPE. */
  function TypeDigits(g: Geo): nat {
    match g
    case Point(_) => 1
    case Line(_) => 2
    case Polygon(_) => 3
    case Multi(base, _) => if base == 7 then 4 else base + 1
  }

  /** An object for the geometry; the digit in between is the measure dimension. */
  function Describe(dims: nat, measure: nat, g: Geo): Sdo {
    var ps := if g.Multi? then PartsPieces(g.parts) else PartPieces(g);
    Sdo(Some(1000 * dims + 100 * measure + TypeDigits(g)), None, Info(ps), Laid(ps))
  }

  lemma {:induction false} LaidAt(ps: seq<Piece>, k: nat)
    requires k < |ps|
    ensures |Laid(ps[..k])| + |ps[k].ords| == |Laid(ps[..k + 1])| <= |Laid(ps)|
    ensures Laid(ps)[|Laid(ps[..k])|..|Laid(ps[..k + 1])|] == ps[k].ords
    ensures Info(ps)[3 * k] == |Laid(ps[..k])| + 1 && Info(ps)[3 * k + 1] == ps[k].etype && Info(ps)[3 * k + 2] == ps[k].interp
  {
    var n := |ps| - 1;
    if k < n {
      LaidAt(ps[..n], k);
      assert ps[..n][..k] == ps[..k] && ps[..n][..k + 1] == ps[..k + 1];
    } else {
      assert ps[..k + 1] == ps;
    }
  }

  /** The elements read from the description are the pieces: same roles, same ordinates. */
  ghost predicate Read(dims: nat, ps: seq<Piece>, ords: seq<Ord>, elems: seq<Elem>) {
    |elems| == |ps| && forall k :: 0 <= k < |ps| ==> IsPiece(dims, ps[k], ords, elems[k])
  }

  predicate IsPiece(dims: nat, p: Piece, ords: seq<Ord>, e: Elem) {
    e.etype == p.etype && e.interp == p.interp && OrdsOf(ords, e) == p.ords
    && (|p.ords| == dims ==> |RoomOf(ords, e)| >= dims && RoomOf(ords, e)[..dims] == p.ords)
  }

  lemma DescriptionRead(dims: nat, ps: seq<Piece>)
    ensures Read(dims, ps, Laid(ps), Elems(Info(ps), |Laid(ps)|, |ps|))
  {
    hide Elems, Laid, Info, IsPiece;
    forall k | 0 <= k < |ps|
      ensures IsPiece(dims, ps[k], Laid(ps), Elems(Info(ps), |Laid(ps)|, |ps|)[k])
    {
      DescribedPiece(dims, ps, k);
    }
  }

  lemma DescribedPiece(dims: nat, ps: seq<Piece>, k: nat)
    requires k < |ps|
    ensures IsPiece(dims, ps[k], Laid(ps), Elems(Info(ps), |Laid(ps)|, |ps|)[k])
  {
    hide Elems, Laid, Info, IsPiece;
    var a, b := |Laid(ps[..k])|, |Laid(ps[..k + 1])|;
    LaidAt(ps, k);
    ElemsAt(Info(ps), |Laid(ps)|, |ps|, k);
    if k + 1 < |ps| {
      LaidAt(ps, k + 1);
    } else {
      assert ps[..k + 1] == ps;
    }
    SliceIsPiece(dims, ps[k], Laid(ps), a, b);
  }

  lemma SliceIsPiece(dims: nat, p: Piece, ords: seq<Ord>, a: nat, b: nat)
    requires a <= b <= |ords| && ords[a..b] == p.ords
    ensures IsPiece(dims, p, ords, Elem(a + 1, p.etype, p.interp, b + 1))
  {
  }

  lemma PieceAt(dims: nat, ps: seq<Piece>, ords: seq<Ord>, elems: seq<Elem>, k: nat)
    requires Read(dims, ps, ords, elems) && k < |ps|
    ensures |elems| == |ps| && IsPiece(dims, ps[k], ords, elems[k])
  {
  }

  lemma RingRead(dims: nat, rings: seq<seq<Ord>>, ords: seq<Ord>, elems: seq<Elem>, ps: seq<Piece>, i: nat, k: nat)
    requires 2 <= dims && Read(dims, ps, ords, elems) && i + |rings| <= |ps| && ps[i..i + |rings|] == RingPieces(rings) && k < |rings|
    ensures |elems| == |ps| && RingOf(dims, ords, elems[i + k]) == SdoGeometry.Ok(rings[k])
  {
    hide Read, IsPiece, RingOf;
    PieceAt(dims, ps, ords, elems, i + k);
    assert ps[i..i + |rings|][k] == ps[i + k];
    RingIsPiece(dims, ps[i + k], ords, elems[i + k]);
  }

  lemma {:induction false} RingsRead(dims: nat, rings: seq<seq<Ord>>, ords: seq<Ord>, elems: seq<Elem>, ps: seq<Piece>, i: nat, n: nat)
    requires 2 <= dims && Read(dims, ps, ords, elems) && n <= |rings| && i + |rings| <= |ps| && ps[i..i + |rings|] == RingPieces(rings)
    ensures i + n <= |elems| && RingsOf(dims, ords, elems, i, i + n) == SdoGeometry.Ok(rings[..n])
  {
    hide Read, RingOf, RingPieces;
    SameCount(dims, ps, ords, elems);
    if n > 0 {
      RingsRead(dims, rings, ords, elems, ps, i, n - 1);
      RingRead(dims, rings, ords, elems, ps, i, n - 1);
      assert rings[..n - 1] + [rings[n - 1]] == rings[..n];
    }
  }

  lemma RingIsPiece(dims: nat, p: Piece, ords: seq<Ord>, e: Elem)
    requires 2 <= dims && IsPiece(dims, p, ords, e) && p.interp == 1
    ensures RingOf(dims, ords, e) == SdoGeometry.Ok(p.ords)
  {
  }

  lemma {:induction false} HolesEnd(dims: nat, ords: seq<Ord>, elems: seq<Elem>, ps: seq<Piece>, i: nat, j: nat)
    requires Read(dims, ps, ords, elems) && i <= j <= |ps|
    requires (forall k :: i <= k < j ==> ps[k].etype == 2003) && (j < |ps| ==> ps[j].etype != 2003)
    ensures |elems| == |ps| && InteriorEnd(elems, i) == j
    decreases j - i
  {
    if i < j {
      PieceAt(dims, ps, ords, elems, i);
      HolesEnd(dims, ords, elems, ps, i + 1, j);
    }
  }

  lemma PolygonRead(dims: nat, rings: seq<seq<Ord>>, ords: seq<Ord>, elems: seq<Elem>, ps: seq<Piece>, i: nat)
    requires 2 <= dims && Read(dims, ps, ords, elems) && rings != [] && i + |rings| <= |ps| && ps[i..i + |rings|] == RingPieces(rings)
    requires i + |rings| < |ps| ==> ps[i + |rings|].etype != 2003
    ensures i < |elems| && PolygonAt(dims, ords, elems, i) == SdoGeometry.Ok(Step(Polygon(rings), i + |rings|))
  {
    hide Read, IsPiece, RingsOf, InteriorEnd;
    var j := i + |rings|;
    forall k | i <= k < j
      ensures ps[k] == Piece(if k == i then 1003 else 2003, 1, rings[k - i])
    {
      assert ps[k] == ps[i..j][k - i];
    }
    HolesEnd(dims, ords, elems, ps, i + 1, j);
    RingsRead(dims, rings, ords, elems, ps, i, |rings|);
    assert rings[..|rings|] == rings;
    PieceAt(dims, ps, ords, elems, i);
    assert elems[i].etype == 1003 by { PieceType(dims, ps[i], ords, elems[i]); }
  }

  lemma PieceType(dims: nat, p: Piece, ords: seq<Ord>, e: Elem)
    requires IsPiece(dims, p, ords, e)
    ensures e.etype == p.etype
  {
  }

  lemma FlatPoint(g: Geo)
    requires g.Point?
    ensures Flat(g) == g.ords
  {
  }

  lemma {:induction false} PointsRead(dims: nat, points: seq<Geo>)
    requires 2 <= dims && forall k :: 0 <= k < |points| ==> WholePoint(dims, points[k])
    ensures Points(dims, FlatAll(points)) == points
  {
    if points == [] {
    } else {
      assert WholePoint(dims, points[0]);
      PointsRead(dims, points[1..]);
      var o := FlatAll(points);
      assert o == Flat(points[0]) + FlatAll(points[1..]);
      FlatPoint(points[0]);
      assert o[..dims] == points[0].ords && o[dims..] == FlatAll(points[1..]);
      assert points[0] == Point(points[0].ords);
      assert points == [points[0]] + points[1..];
    }
  }

  lemma OneWholePoint(dims: nat, g: Geo)
    requires 2 <= dims && WholePoint(dims, g)
    ensures Points(dims, g.ords) == [g]
  {
    FlatOne(g);
    FlatPoint(g);
    PointsRead(dims, [g]);
  }

  /** No part starts with a hole, so none runs into the next. */
  lemma PartStarts(dims: nat, parts: seq<Geo>)
    requires parts != [] && Part(dims, parts[0])
    ensures PartsPieces(parts) != [] && PartsPieces(parts)[0].etype != 2003
    ensures PartPieces(parts[0]) != []
  {
  }

  /** The first part's pieces, and those behind them. */
  lemma PartSlices(dims: nat, parts: seq<Geo>, ps: seq<Piece>, i: nat)
    requires i <= |ps| && ps[i..] == PartsPieces(parts) && parts != []
    requires forall k :: 0 <= k < |parts| ==> Part(dims, parts[k])
    ensures var n := |PartPieces(parts[0])|;
            0 < n && i + n <= |ps| && ps[i..i + n] == PartPieces(parts[0]) && ps[i + n..] == PartsPieces(parts[1..])
            && ps[i] == PartPieces(parts[0])[0] && (i + n < |ps| ==> ps[i + n].etype != 2003)
  {
    hide PartsPieces, PartPieces, Part;
    var n := |PartPieces(parts[0])|;
    PartStarts(dims, parts);
    NextPieces(parts);
    assert ps[i..][..n] == ps[i..i + n] && ps[i..][n..] == ps[i + n..];
    assert ps[i] == ps[i..][0];
    if i + n < |ps| {
      assert ps[i + n] == ps[i + n..][0];
      PartsNonEmpty(parts[1..]);
      PartStarts(dims, parts[1..]);
    }
  }

  /** A part of one piece. */
  lemma OnePieceRead(base: nat, dims: nat, g: Geo, ords: seq<Ord>, elems: seq<Elem>, i: nat)
    requires 2 <= dims && i < |elems| && 4 <= base <= 7 && !g.Polygon? && Part(dims, g) && FitsIn(base, g)
    requires |PartPieces(g)| == 1 && IsPiece(dims, PartPieces(g)[0], ords, elems[i])
    ensures MembersAt(if base == 7 then 4 else base + 1, dims, ords, elems, i) == SdoGeometry.Ok(([g], i + 1))
  {
    hide Points, PolygonAt, OrdsOf, RoomOf, FlatAll, InRange;
    match g
    case Point(_) => OneWholePoint(dims, g);
    case Line(_) =>
    case Multi(_, points) => PointsRead(dims, points);
  }

  lemma PartRead(base: nat, dims: nat, parts: seq<Geo>, ords: seq<Ord>, elems: seq<Elem>, ps: seq<Piece>, i: nat)
    requires 2 <= dims && Read(dims, ps, ords, elems) && i <= |ps| && ps[i..] == PartsPieces(parts) && parts != [] && 4 <= base <= 7
    requires forall k :: 0 <= k < |parts| ==> Part(dims, parts[k]) && FitsIn(base, parts[k])
    ensures |elems| == |ps| && i < |elems|
    ensures var next := i + |PartPieces(parts[0])|;
            i < next <= |ps| && ps[next..] == PartsPieces(parts[1..])
            && MembersAt(if base == 7 then 4 else base + 1, dims, ords, elems, i) == SdoGeometry.Ok(([parts[0]], next))
  {
    hide Read, PartsPieces, RingPieces, PolygonAt, IsPiece;
    var g := parts[0];
    PartSlices(dims, parts, ps, i);
    PieceAt(dims, ps, ords, elems, i);
    if g.Polygon? {
      PolygonRead(dims, g.rings, ords, elems, ps, i);
      PieceType(dims, ps[i], ords, elems[i]);
    } else {
      OnePieceRead(base, dims, g, ords, elems, i);
    }
  }

  lemma PartsNonEmpty(parts: seq<Geo>)
    ensures parts == [] ==> PartsPieces(parts) == []
  {
  }

  lemma NextPieces(parts: seq<Geo>)
    requires parts != []
    ensures var ps, n := PartsPieces(parts), |PartPieces(parts[0])|;
            n <= |ps| && ps[..n] == PartPieces(parts[0]) && ps[n..] == PartsPieces(parts[1..])
  {
  }

  lemma {:induction false} PartsRead(base: nat, dims: nat, parts: seq<Geo>, ords: seq<Ord>, elems: seq<Elem>, ps: seq<Piece>, i: nat)
    requires 2 <= dims && Read(dims, ps, ords, elems) && i <= |ps| && ps[i..] == PartsPieces(parts) && 4 <= base <= 7
    requires forall k :: 0 <= k < |parts| ==> Part(dims, parts[k]) && FitsIn(base, parts[k])
    ensures |elems| == |ps| && MembersFrom(if base == 7 then 4 else base + 1, dims, ords, elems, i) == SdoGeometry.Ok(parts)
    decreases |parts|
  {
    hide Read, MembersAt, PartPieces, Part, FitsIn;
    if parts == [] {
      PartsNonEmpty(parts);
      SameCount(dims, ps, ords, elems);
    } else {
      PartRead(base, dims, parts, ords, elems, ps, i);
      PartsRead(base, dims, parts[1..], ords, elems, ps, i + |PartPieces(parts[0])|);
      assert [parts[0]] + parts[1..] == parts;
    }
  }

  lemma SameCount(dims: nat, ps: seq<Piece>, ords: seq<Ord>, elems: seq<Elem>)
    requires Read(dims, ps, ords, elems)
    ensures |elems| == |ps|
  {
  }

  /** Describing a geometry as an object and converting it gives that geometry: every kind, hole, part and ordinate. */
  lemma DescriptionConverts(dims: nat, measure: nat, g: Geo)
    requires 2 <= dims <= 4 && measure < 10 && Describable(dims, g)
    ensures Geometry(Describe(dims, measure, g)) == SdoGeometry.Ok(Parsed(dims, g))
  {
    hide Elems, Read, PartsPieces, RingPieces, Points, PolygonAt, OrdsOf, RoomOf, MembersFrom, Info, Laid, Part, FlatAll;
    var s := Describe(dims, measure, g);
    var ps := if g.Multi? then PartsPieces(g.parts) else PartPieces(g);
    var elems := ElemsOf(s);
    assert s.gtype.value / 1000 == dims && s.gtype.value % 100 == TypeDigits(g);
    DescriptionRead(dims, ps);
    assert ps[0..] == ps;
    if g.Multi? {
      PartsRead(g.base, dims, g.parts, s.ords, elems, ps, 0);
    } else {
      AloneRead(dims, g, s.ords, elems);
    }
  }

  lemma AloneRead(dims: nat, g: Geo, ords: seq<Ord>, elems: seq<Elem>)
    requires 2 <= dims <= 4 && !g.Multi? && Part(dims, g) && Read(dims, PartPieces(g), ords, elems)
    ensures Shape(TypeDigits(g), dims, ords, elems) == SdoGeometry.Ok(g)
  {
    hide PolygonAt, MembersFrom;
    var ps := PartPieces(g);
    PieceAt(dims, ps, ords, elems, 0);
    if g.Polygon? {
      assert ps[0..0 + |g.rings|] == RingPieces(g.rings);
      PolygonRead(dims, g.rings, ords, elems, ps, 0);
    }
  }
}
