// The conversion from SDO_GEOMETRY to well-known binary, appending as it goes.
module WkbWriter {
  import opened Bytes
  import opened Wkb
  import opened SdoGeometry

  lemma {:induction false} PartsConcat(dims: nat, a: seq<Geo>, b: seq<Geo>)
    requires dims > 0
    ensures PartsBytes(dims, a + b) == PartsBytes(dims, a) + PartsBytes(dims, b)
  {
    hide GeoBytes;
    if b == [] {
      assert a + b == a;
      assert PartsBytes(dims, a) + [] == PartsBytes(dims, a);
    } else {
      var n := |b| - 1;
      PartsConcat(dims, a, b[..n]);
      assert a + b == (a + b[..n]) + [b[n]];
      Associate(PartsBytes(dims, a), PartsBytes(dims, b[..n]), GeoBytes(dims, b[n]));
    }
  }

  /** What an operation that may fail reports. */
  datatype Status = Fine | Failed | Panicked

  predicate Reports<T>(st: Status, o: Outcome<T>) {
    match o case Ok(_) => st.Fine? case Bad => st.Failed? case Panic => st.Panicked?
  }

  class Writer {
    var out: seq<byte>
    var dims: nat
    const ords: seq<Ord>
    const elems: seq<Elem>

    constructor (dims: nat, ords: seq<Ord>, elems: seq<Elem>)
      ensures out == [] && this.dims == dims && this.ords == ords && this.elems == elems
    {
      this.dims, this.ords, this.elems, out := dims, ords, elems, [];
    }

    method WriteHeader(base: nat)
      modifies `out
      ensures out == old(out) + Header(dims, base)
    {
      out := out + [1];
      out := out + U32(TypeCode(dims, base));
      Associate(old(out), [1], U32(TypeCode(dims, base)));
    }

    method WriteU32(n: nat)
      modifies `out
      ensures out == old(out) + U32(n)
    {
      out := out + U32(n);
    }

    method WriteCoords(o: seq<Ord>)
      modifies `out
      ensures out == old(out) + Coords(o)
    {
      var i := 0;
      while i < |o|
        invariant 0 <= i <= |o| && out == old(out) + Coords(o[..i])
      {
        assert o[..i + 1][..i] == o[..i];
        Associate(old(out), Coords(o[..i]), LE(o[i], 8));
        out := out + LE(o[i], 8);
        i := i + 1;
      }
      assert o[..i] == o;
    }

    method WriteRing(o: seq<Ord>)
      requires dims > 0
      modifies `out
      ensures out == old(out) + RingBytes(dims, o)
    {
      WriteU32(|o| / dims);
      WriteCoords(o);
      Associate(old(out), U32(|o| / dims), Coords(o));
    }

    method WriteLine(e: Elem) returns (st: Status)
      requires dims > 0
      modifies `out
      ensures Reports(st, LineOf(ords, e))
      ensures st.Fine? ==> out == old(out) + GeoBytes(dims, LineOf(ords, e).value)
    {
      if e.interp != 1 {
        return Failed;
      }
      var o := OrdsOf(ords, e);
      WriteHeader(2);
      WriteRing(o);
      Associate(old(out), Header(dims, 2), RingBytes(dims, o));
      st := Fine;
    }

    /** The first point of a slice, which is sliced up to its capacity: `room` is all that covers. */
    method WritePoint(room: seq<Ord>) returns (st: Status)
      requires dims > 0
      modifies `out
      ensures Reports(st, PointOf(dims, room))
      ensures st.Fine? ==> out == old(out) + GeoBytes(dims, PointOf(dims, room).value)
    {
      WriteHeader(1);
      if |room| < dims {
        return Panicked;
      }
      WriteCoords(room[..dims]);
      Associate(old(out), Header(dims, 1), Coords(room[..dims]));
      st := Fine;
    }

    /** ring: a polygon ring's ordinates, rectangles expanded corner by corner. */
    method Ring(e: Elem) returns (st: Status, r: seq<Ord>)
      requires dims >= 2
      ensures Reports(st, RingOf(dims, ords, e)) && (st.Fine? ==> r == RingOf(dims, ords, e).value)
    {
      var o := OrdsOf(ords, e);
      if e.interp == 1 {
        return Fine, o;
      }
      if e.interp != 3 || |o| < 2 * dims {
        return Failed, [];
      }
      var corners := Corners(o[0], o[1], o[dims], o[dims + 1], e.etype == EXTERIOR);
      var extra := o[2..dims];
      r := [];
      var i := 0;
      while i < |corners|
        invariant 0 <= i <= |corners| && r == Expand(corners[..i], extra)
      {
        assert corners[..i + 1][..i] == corners[..i];
        r := r + ([corners[i].0, corners[i].1] + extra);
        i := i + 1;
      }
      assert corners[..i] == corners;
      st := Fine;
    }

    method WritePolygon(i: nat) returns (st: Status, next: nat)
      requires dims >= 2 && i < |elems|
      modifies `out
      ensures Reports(st, PolygonAt(dims, ords, elems, i))
      ensures st.Fine? ==> next == PolygonAt(dims, ords, elems, i).value.next
      ensures st.Fine? ==> out == old(out) + GeoBytes(dims, PolygonAt(dims, ords, elems, i).value.geo)
    {
      hide RingOf, RingBytes;
      next := i;
      if elems[i].etype != EXTERIOR {
        return Failed, i;
      }
      var rings: seq<seq<Ord>>;
      st, rings, next := CollectRings(i);
      if !st.Fine? {
        return;
      }
      WriteHeader(3);
      WriteU32(|rings|);
      WriteRings(rings);
      Associate(old(out), Header(dims, 3), U32(|rings|));
      Associate(old(out), Header(dims, 3) + U32(|rings|), RingsBytes(dims, rings));
      Associate(Header(dims, 3), U32(|rings|), RingsBytes(dims, rings));
    }

    method CollectRings(i: nat) returns (st: Status, rings: seq<seq<Ord>>, next: nat)
      requires dims >= 2 && i < |elems|
      ensures next == InteriorEnd(elems, i + 1) || !st.Fine?
      ensures Reports(st, RingsOf(dims, ords, elems, i, InteriorEnd(elems, i + 1)))
      ensures st.Fine? ==> rings == RingsOf(dims, ords, elems, i, next).value
    {
      hide RingOf;
      var r;
      st, r := Ring(elems[i]);
      rings, next := [r], i + 1;
      OneRing(i);
      if !st.Fine? {
        RingsStayBad(i, i + 1, InteriorEnd(elems, i + 1));
        return;
      }
      while next < |elems| && elems[next].etype == INTERIOR
        invariant i < next <= |elems| && InteriorEnd(elems, next) == InteriorEnd(elems, i + 1)
        invariant RingsOf(dims, ords, elems, i, next) == Ok(rings)
      {
        st, r := Ring(elems[next]);
        next := next + 1;
        if !st.Fine? {
          RingsStayBad(i, next, InteriorEnd(elems, i + 1));
          return;
        }
        rings := rings + [r];
      }
      st := Fine;
    }

    lemma OneRing(i: nat)
      requires dims >= 2 && i < |elems|
      ensures RingsOf(dims, ords, elems, i, i) == Ok([])
      ensures var o := RingOf(dims, ords, elems[i]);
              RingsOf(dims, ords, elems, i, i + 1) == match o case Ok(r) => Ok([r]) case Bad => Bad case Panic => Panic
    {
      var o := RingOf(dims, ords, elems[i]);
      if o.Ok? {
        assert [] + [o.value] == [o.value];
      }
    }

    lemma {:induction false} RingsStayBad(i: nat, j: nat, k: nat)
      requires dims >= 2 && i <= j <= k <= |elems| && !RingsOf(dims, ords, elems, i, j).Ok?
      ensures RingsOf(dims, ords, elems, i, k) == RingsOf(dims, ords, elems, i, j)
      decreases k
    {
      if j < k {
        RingsStayBad(i, j, k - 1);
      }
    }

    method WriteRings(rings: seq<seq<Ord>>)
      requires dims > 0
      modifies `out
      ensures out == old(out) + RingsBytes(dims, rings)
    {
      hide RingBytes;
      var i := 0;
      while i < |rings|
        invariant 0 <= i <= |rings| && out == old(out) + RingsBytes(dims, rings[..i])
      {
        assert rings[..i + 1][..i] == rings[..i];
        WriteRing(rings[i]);
        Associate(old(out), RingsBytes(dims, rings[..i]), RingBytes(dims, rings[i]));
        i := i + 1;
      }
      assert rings[..i] == rings;
    }

    /** All whole points of o, one by one. */
    method WritePoints(o: seq<Ord>)
      requires dims >= 2
      modifies `out
      ensures out == old(out) + PartsBytes(dims, Points(dims, o))
    {
      hide GeoBytes;
      ghost var done: seq<Geo> := [];
      var j := 0;
      assert o[0..] == o && [] + Points(dims, o) == Points(dims, o);
      while j + dims <= |o|
        invariant 0 <= j <= |o| && out == old(out) + PartsBytes(dims, done)
        invariant done + Points(dims, o[j..]) == Points(dims, o)
      {
        var point := o[j..][..dims];
        var st := WritePoint(point);
        assert point[..dims] == point;
        Associate(old(out), PartsBytes(dims, done), GeoBytes(dims, Point(point)));
        assert o[j..][dims..] == o[j + dims..];
        assert done + ([Point(point)] + Points(dims, o[j + dims..])) == done + [Point(point)] + Points(dims, o[j + dims..]);
        done := done + [Point(point)];
        j := j + dims;
      }
      assert Points(dims, o[j..]) == [] && done + [] == done;
    }

    /** One member of a collection. */
    method WritePart(i: nat) returns (st: Status, next: nat)
      requires 2 <= dims <= 4 && i < |elems|
      modifies `out
      ensures Reports(st, PartAt(dims, ords, elems, i))
      ensures st.Fine? ==> next == PartAt(dims, ords, elems, i).value.next
      ensures st.Fine? ==> out == old(out) + GeoBytes(dims, PartAt(dims, ords, elems, i).value.geo)
    {
      hide RingsOf, Header, U32;
      var e := elems[i];
      next := i + 1;
      if e.etype == 1 {
        if e.interp > 1 {
          var o := OrdsOf(ords, e);
          WriteHeader(4);
          PointsCount(dims, o);
          WriteU32(|o| / dims);
          WritePoints(o);
          ghost var points := Points(dims, o);
          Associate(old(out), Header(dims, 4), U32(|points|));
          Associate(old(out), Header(dims, 4) + U32(|points|), PartsBytes(dims, points));
          Associate(Header(dims, 4), U32(|points|), PartsBytes(dims, points));
          st := Fine;
        } else {
          st := WritePoint(RoomOf(ords, e));
        }
      } else if e.etype == 2 {
        st := WriteLine(e);
      } else {
        st, next := WritePolygon(i);
      }
    }

    /** The members of a multi-line, multi-polygon or collection, behind the declared count. */
    method WriteMembers(shape: nat) returns (st: Status)
      requires 2 <= dims <= 4 && (shape == 4 || shape == 6 || shape == 7)
      modifies `out
      ensures Reports(st, MembersFrom(shape, dims, ords, elems, 0))
      ensures st.Fine? ==> out == old(out) + PartsBytes(dims, MembersFrom(shape, dims, ords, elems, 0).value)
    {
      hide GeoBytes, PartAt, PolygonAt, LineOf;
      ghost var done: seq<Geo> := [];
      ghost var total := MembersFrom(shape, dims, ords, elems, 0);
      var i := 0;
      NothingFirst(total);
      while i < |elems|
        invariant 0 <= i <= |elems| && out == old(out) + PartsBytes(dims, done)
        invariant Prepend(done, MembersFrom(shape, dims, ords, elems, i)) == total
      {
        ghost var member := MembersAt(shape, dims, ords, elems, i);
        ghost var before := out;
        var next := i + 1;
        if shape == 6 {
          st := WriteLine(elems[i]);
        } else if shape == 7 {
          st, next := WritePolygon(i);
        } else {
          st, next := WritePart(i);
        }
        if !st.Fine? {
          return;
        }
        ghost var g := member.value.0[0];
        Associate(old(out), PartsBytes(dims, done), GeoBytes(dims, g));
        PrependTwice(done, g, MembersFrom(shape, dims, ords, elems, next));
        done := done + [g];
        i := next;
      }
      assert done + [] == done;
      st := Fine;
    }

    lemma NothingFirst(o: Outcome<seq<Geo>>)
      ensures Prepend([], o) == o
    {
      if o.Ok? {
        assert [] + o.value == o.value;
      }
    }

    lemma PrependTwice(done: seq<Geo>, g: Geo, rest: Outcome<seq<Geo>>)
      ensures Prepend(done, Prepend([g], rest)) == Prepend(done + [g], rest)
    {
      if rest.Ok? {
        assert done + ([g] + rest.value) == done + [g] + rest.value;
      }
    }

    /** The points of a multi-point are collected before their count is written. */
    method CollectPoints() returns (st: Status, ghost points: seq<Geo>, n: nat, lists: seq<seq<Ord>>)
      requires 2 <= dims <= 4
      ensures Reports(st, MembersFrom(5, dims, ords, elems, 0))
      ensures st.Fine? ==> points == MembersFrom(5, dims, ords, elems, 0).value && n == |points| && AllPoints(dims, lists) == points
    {
      hide GeoBytes, Points;
      points, n, lists := [], 0, [];
      ghost var total := MembersFrom(5, dims, ords, elems, 0);
      var i := 0;
      NothingFirst(total);
      while i < |elems|
        invariant 0 <= i <= |elems| && n == |points| && AllPoints(dims, lists) == points
        invariant Prepend(points, MembersFrom(5, dims, ords, elems, i)) == total
      {
        if elems[i].etype != 1 {
          return Failed, points, n, lists;
        }
        var o := OrdsOf(ords, elems[i]);
        PointsCount(dims, o);
        PrependMore(points, Points(dims, o), MembersFrom(5, dims, ords, elems, i + 1));
        assert (lists + [o])[..|lists|] == lists;
        points, n, lists := points + Points(dims, o), n + |o| / dims, lists + [o];
        i := i + 1;
      }
      assert points + [] == points;
      st := Fine;
    }

    lemma PrependMore(done: seq<Geo>, more: seq<Geo>, rest: Outcome<seq<Geo>>)
      ensures Prepend(done, Prepend(more, rest)) == Prepend(done + more, rest)
    {
      if rest.Ok? {
        assert done + (more + rest.value) == done + more + rest.value;
      }
    }

    method WriteMultiPoint() returns (st: Status)
      requires 2 <= dims <= 4
      modifies `out
      ensures Reports(st, Shape(5, dims, ords, elems))
      ensures st.Fine? ==> out == old(out) + GeoBytes(dims, Shape(5, dims, ords, elems).value)
    {
      hide MembersFrom, Points, Header, U32;
      ghost var points;
      var n, lists;
      st, points, n, lists := CollectPoints();
      if !st.Fine? {
        return;
      }
      WriteHeader(4);
      WriteU32(n);
      ghost var front := out;
      var i := 0;
      while i < |lists|
        invariant 0 <= i <= |lists| && out == front + PartsBytes(dims, AllPoints(dims, lists[..i]))
      {
        assert lists[..i + 1][..i] == lists[..i];
        WritePoints(lists[i]);
        PartsConcat(dims, AllPoints(dims, lists[..i]), Points(dims, lists[i]));
        Associate(front, PartsBytes(dims, AllPoints(dims, lists[..i])), PartsBytes(dims, Points(dims, lists[i])));
        i := i + 1;
      }
      assert lists[..i] == lists;
    }

    /** A multi-geometry whose count is taken from the element types before the members are written. */
    method WriteMulti(shape: nat) returns (st: Status)
      requires 2 <= dims <= 4 && (shape == 4 || shape == 6 || shape == 7)
      modifies `out
      ensures Reports(st, Shape(shape, dims, ords, elems))
      ensures st.Fine? ==> out == old(out) + GeoBytes(dims, Shape(shape, dims, ords, elems).value)
    {
      hide MembersFrom, Header, U32, PolygonAt, OrdsOf;
      var count := |elems|;
      if shape != 6 {
        count := CountStarts(shape);
      }
      WriteHeader(Base(shape));
      WriteU32(count);
      st := WriteMembers(shape);
      if st.Fine? {
        ghost var parts := MembersFrom(shape, dims, ords, elems, 0).value;
        if shape == 6 {
          LinesCount(dims, ords, elems, 0);
        } else {
          TallyIsMembers(shape, dims, ords, elems, 0);
        }
      }
    }

    method CountStarts(shape: nat) returns (count: nat)
      ensures count == Tally(shape, elems, 0)
    {
      count := 0;
      var i := 0;
      while i < |elems|
        invariant 0 <= i <= |elems| && count + Tally(shape, elems, i) == Tally(shape, elems, 0)
      {
        if (if shape == 7 then elems[i].etype == EXTERIOR else elems[i].etype != INTERIOR) {
          count := count + 1;
        }
        i := i + 1;
      }
    }

    /** The switch over the shape. */
    method WriteShape(shape: nat) returns (st: Status)
      requires 2 <= dims <= 4
      modifies `out
      ensures Reports(st, Shape(shape, dims, ords, elems))
      ensures st.Fine? ==> out == old(out) + GeoBytes(dims, Shape(shape, dims, ords, elems).value)
    {
      hide MembersFrom, Header, U32, RingsOf, GeoBytes, PartsBytes;
      if shape == 5 {
        st := WriteMultiPoint();
      } else if shape == 4 || shape == 6 || shape == 7 {
        st := WriteMulti(shape);
      } else if |elems| == 0 || shape == 0 || shape > 7 {
        st := Failed;
      } else if shape == 1 {
        var o := OrdsOf(ords, elems[0]);
        if |o| < dims {
          return Failed;
        }
        st := WritePoint(RoomOf(ords, elems[0]));
      } else if shape == 2 {
        st := WriteLine(elems[0]);
      } else {
        var next;
        st, next := WritePolygon(0);
      }
    }
  }

  function AllPoints(dims: nat, lists: seq<seq<Ord>>): seq<Geo>
    requires 2 <= dims
  {
    if lists == [] then [] else AllPoints(dims, lists[..|lists| - 1]) + Points(dims, lists[|lists| - 1])
  }

  /** sdoGeometryToWKB: the bytes of exactly the geometry described, or an error. */
  method ToWkb(s: Sdo) returns (r: Outcome<seq<byte>>)
    ensures r == match Geometry(s) case Ok(p) => Ok(GeoBytes(p.dims, p.geo)) case Bad => Bad case Panic => Panic
  {
    hide GeoBytes, Shape;
    if s.gtype.None? {
      return Bad;
    }
    var gtype := s.gtype.value;
    if gtype < 2000 || gtype >= 5000 {
      return Bad;
    }
    var dims, shape := gtype / 1000, gtype % 100;
    if s.point.Some? && shape == 1 && |s.elemInfo| == 0 {
      var p := PointGeometry(dims, s.point.value);
      var w := new Writer(p.dims, [], []);
      var st := w.WritePoint(p.geo.ords);
      assert p.geo.ords[..p.dims] == p.geo.ords;
      assert [] + GeoBytes(p.dims, p.geo) == GeoBytes(p.dims, p.geo);
      return Ok(w.out);
    }
    if |s.elemInfo| % 3 != 0 {
      return Bad;
    }
    var elems := Elems(s.elemInfo, |s.ords|, |s.elemInfo| / 3);
    var w := new Writer(dims, s.ords, elems);
    var st := w.WriteShape(shape);
    match st
    case Failed => r := Bad;
    case Panicked => r := Panic;
    case Fine =>
      ghost var g := Shape(shape, dims, s.ords, elems).value;
      assert [] + GeoBytes(dims, g) == GeoBytes(dims, g);
      r := Ok(w.out);
  }
}
