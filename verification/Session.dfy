// The two session steps that span both buffers: a request read back by its peer, and the
// marker reset that resynchronises a connection.
module Session {
  import opened Bytes
  import opened TtcValues
  import opened Security
  import opened Tns
  import opened RequestWriter
  import opened ResponseReader

  const FLAGS_NONE := 0

  // ---- a request, end to end ----

  lemma ShapesHaveWidth(ops: seq<Op>)
    requires AllInRange(ops)
    ensures forall k :: 0 <= k < |ops| ==>
              var sh := Shapes(ops)[k]; (sh.RBE? || sh.RLE? ==> sh.width > 0) && (sh.RRaw? ==> sh.n > 0)
  {
  }

  /** The packets of a request can be sent: they leave room for the protection. */
  lemma RequestIsSendable(a: Algorithms, h: HashState, full: bool, fs: seq<seq<byte>>, maxSize: nat)
    requires forall k :: 0 <= k < |fs| ==> WellFormed(full, fs[k]) && |fs[k]| <= maxSize
    requires FitsLengthField(full, maxSize + Overhead(a, h))
    ensures Sendable(a, h, full, fs)
  {
  }

  /**
   * One endpoint writes any typed values as a request; the mirrored endpoint reads the bytes that
   * went over the wire. Unless the socket broke, it gets exactly the values that were written.
   */
  method Exchange(ops: seq<Op>, algs: Algorithms, client: HashState, server: HashState, full: bool, sdu: nat, capacity: nat)
    returns (sent: bool, got: seq<Value>)
    requires Sound(algs) && client.gen == server.gen && client.out == server.inn
    requires sdu - Overhead(algs, client) >= MIN_SIZE && FitsLengthField(full, sdu)
    requires AllInRange(ops) && forall k :: 0 <= k < |ops| ==> Faithful(ops[k])
    ensures sent ==> got == Meanings(ops)
  {
    hide Payloads, ProtectAll, Arriving, Readable, EncAll, Deliverable, Flatten, WriteBuffer.OnWireWithin, WellFormed;
    var near := new Tns.Session(algs, Client, client);
    var socket := new Transport(near, full, capacity, []);
    var w := new WriteBuffer(socket, sdu);
    w.Request(ops, FLAGS_NONE);
    if w.failed {
      return false, [];
    }
    var far := new Tns.Session(algs, Server, server);
    var peer := new Transport(far, full, 0, socket.outgoing);
    var r := new ReadBuffer(peer);
    ghost var fs := socket.plain;
    assert socket.plain[w.base..] == fs;
    ProtectAllKeepsGenerator(algs, client, full, fs);
    RequestIsSendable(algs, client, full, fs, w.maxSize);
    ValuesTravel(algs, client, server, full, fs, ops, 0);
    assert [] + Flatten(ProtectAll(algs, client, full, fs).1) == Flatten(ProtectAll(algs, client, full, fs).1);
    ShapesHaveWidth(ops);
    got := r.ReadAll(Shapes(ops));
    sent := true;
  }

  // ---- marker reset ----

  /** A reset marker: its type is the third payload byte. */
  predicate IsReset(p: Packet)
    requires p.Framed()
  {
    IsMarker(p) && |p.buf| >= HEADER + 3 && p.buf[HEADER + 2] == MARKER_RESET
  }

  /** Every marker packet carries its three bytes. */
  predicate MarkersWhole(ps: seq<Packet>) {
    AllFramed(ps) && forall k :: 0 <= k < |ps| && IsMarker(ps[k]) ==> |ps[k].buf| >= HEADER + 3
  }

  datatype Landing = Stuck | Landed(p: Packet, rest: seq<Packet>)

  /** Conn.reset over the packets behind the current one: hunts for a reset marker, then for a packet that is no marker. */
  function Hunt(ps: seq<Packet>, pending: nat, found: bool): (r: Landing)
    requires AllFramed(ps)
    decreases |ps|
  {
    match NextPacket(ps, pending)
    case NoPacket => Stuck
    case Next(p, rest, pending') =>
      if IsTruncated(p) then Stuck
      else if !found then Hunt(rest, AfterStart(p, pending'), IsReset(p))
      else if IsMarker(p) then Hunt(rest, AfterStart(p, pending'), true)
      else Landed(p, rest)
  }

  /** A packet that does not itself end the connection: no truncated DATA, no fatal notification. */
  predicate Harmless(p: Packet) {
    p.Framed() && !IsTruncated(p) && (IsControl(p) ==> Tolerable(AfterControl(p, 0)))
  }

  lemma HarmlessKeepsTolerable(p: Packet, pending: nat)
    requires Harmless(p) && Tolerable(pending)
    ensures Tolerable(AfterControl(p, pending)) || !IsControl(p)
    ensures Tolerable(AfterStart(p, pending))
  {
  }

  /** Stepping over one harmless packet. */
  lemma HuntStep(p: Packet, rest: seq<Packet>, pending: nat, found: bool) returns (pending': nat)
    requires Harmless(p) && AllFramed(rest) && Tolerable(pending)
    requires found ==> IsMarker(p) || IsControl(p)
    ensures Tolerable(pending') && AllFramed([p] + rest)
    ensures Hunt([p] + rest, pending, found) == Hunt(rest, pending', found || (IsReset(p) && !IsControl(p)))
  {
    HarmlessKeepsTolerable(p, pending);
    var ps := [p] + rest;
    assert ps[1..] == rest;
    if IsControl(p) {
      pending' := AfterControl(p, pending);
      assert NextPacket(ps, pending) == NextPacket(rest, pending');
    } else {
      pending' := AfterStart(p, pending);
    }
  }

  lemma {:induction false} HuntSkips(pre: seq<Packet>, rest: seq<Packet>, pending: nat, found: bool) returns (pending': nat)
    requires AllFramed(pre) && AllFramed(rest) && Tolerable(pending)
    requires forall k :: 0 <= k < |pre| ==> Harmless(pre[k]) && (if found then IsMarker(pre[k]) || IsControl(pre[k]) else !IsReset(pre[k]))
    ensures AllFramed(pre + rest) && Tolerable(pending') && Hunt(pre + rest, pending, found) == Hunt(rest, pending', found)
    decreases |pre|
  {
    if pre == [] {
      pending' := pending;
      assert pre + rest == rest;
    } else {
      var p' := HuntStep(pre[0], pre[1..] + rest, pending, found);
      pending' := HuntSkips(pre[1..], rest, p', found);
      assert [pre[0]] + (pre[1..] + rest) == pre + rest;
    }
  }

  /**
   * Whatever harmless packets (data, other markers, notifications) precede the reset marker, and
   * whatever markers follow it, the hunt ends on the first packet after it that is not a marker.
   */
  lemma ResetLands(pre: seq<Packet>, reset: Packet, mid: seq<Packet>, target: Packet, post: seq<Packet>, pending: nat)
    requires AllFramed(pre) && AllFramed(mid) && AllFramed(post) && Tolerable(pending)
    requires forall k :: 0 <= k < |pre| ==> Harmless(pre[k]) && !IsReset(pre[k])
    requires reset.Framed() && IsReset(reset)
    requires forall k :: 0 <= k < |mid| ==> Harmless(mid[k]) && (IsMarker(mid[k]) || IsControl(mid[k]))
    requires target.Framed() && !IsMarker(target) && !IsControl(target) && !IsTruncated(target)
    ensures var ps := pre + ([reset] + (mid + ([target] + post)));
            AllFramed(ps) && Hunt(ps, pending, false) == Landed(target, post)
    // when the current packet is itself the reset marker
    ensures var ps := mid + ([target] + post);
            AllFramed(ps) && Hunt(ps, pending, true) == Landed(target, post)
  {
    var tail := [target] + post;
    HuntEnds(target, post);
    var p0 := HuntSkips(pre, [reset] + (mid + tail), pending, false);
    var p1 := HuntStep(reset, mid + tail, p0, false);
    var p2 := HuntSkips(mid, tail, p1, true);
    var p3 := HuntSkips(mid, tail, pending, true);
  }

  lemma HuntEnds(target: Packet, post: seq<Packet>)
    requires target.Framed() && !IsMarker(target) && !IsControl(target) && !IsTruncated(target) && AllFramed(post)
    ensures AllFramed([target] + post) && forall pending: nat :: Hunt([target] + post, pending, true) == Landed(target, post)
  {
    assert ([target] + post)[1..] == post;
  }

  /** The hunt lands nowhere else: wherever it lands there is a reset marker before, and only markers between. */
  lemma {:induction false} LandedMeansReset(ps: seq<Packet>, pending: nat, found: bool) returns (i: int, j: nat)
    requires AllFramed(ps) && Hunt(ps, pending, found).Landed?
    ensures var h := Hunt(ps, pending, found);
            j < |ps| && h.p == ps[j] && h.rest == ps[j + 1..] && !IsMarker(ps[j]) && !IsControl(ps[j])
    ensures -1 <= i < j && (i == -1 <==> found)
    ensures !found ==> IsReset(ps[i]) && forall k :: 0 <= k < i ==> !IsReset(ps[k])
    ensures forall k :: i < k < j ==> IsMarker(ps[k]) || IsControl(ps[k])
    decreases |ps|
  {
    hide AfterControl, AfterStart, IsTruncated, Tolerable;
    var p := ps[0];
    if IsControl(p) {
      i, j := LandedMeansReset(ps[1..], AfterControl(p, pending), found);
      i, j := if found then -1 else i + 1, j + 1;
    } else if found && !IsMarker(p) {
      i, j := -1, 0;
    } else if found {
      i, j := LandedMeansReset(ps[1..], AfterStart(p, pending), true);
      j := j + 1;
    } else {
      i, j := LandedMeansReset(ps[1..], AfterStart(p, pending), IsReset(p));
      i, j := i + 1, j + 1;
    }
  }

  /** The third payload byte of the current marker packet. A shorter packet runs on into the next one. */
  method ReadMarkerType(r: ReadBuffer) returns (t: byte)
    requires r.Valid() && !r.checkRequestBoundary && r.err == NoError && r.current.Some?
    modifies r`supportsOOB, r`pendingErrorNum, r`saved, r`err, r`current, r`nextPacketPos, r`data, r`size, r`pos
    modifies r.transport`closed, r.transport`incoming, r.transport.session`state
    ensures r.Valid() && (r.err == NoError ==> r.Onward(old(r.Upcoming()), old(r.current)))
    ensures old(r.pos) + 3 <= |old(r.data)| ==>
              t == old(r.data)[old(r.pos) + 2] && r.err == NoError && r.Upcoming() == old(r.Upcoming())
              && r.current == old(r.current) && r.pendingErrorNum == old(r.pendingErrorNum)
  {
    if r.pos + 3 <= r.size {
      t := r.data[r.pos + 2];
      r.pos := r.pos + 3;
      return;
    }
    r.SkipRawBytes(2);
    if r.err != NoError {
      return 0;
    }
    t := r.ReadUB1();
  }

  /** The current packet has just been started, and if it is a marker it is whole. */
  ghost predicate AtPacketStart(r: ReadBuffer)
    reads r
  {
    r.current.Some? && r.current.value.Framed() && r.data == r.current.value.buf && !IsControl(r.current.value)
    && (IsMarker(r.current.value) ==> r.pos == HEADER && |r.data| >= HEADER + 3)
  }

  /** The first loop of Conn.reset: up to a reset marker. */
  method HuntForMarker(r: ReadBuffer)
    requires r.Valid() && !r.checkRequestBoundary && r.err == NoError && r.current.Some?
    modifies r`supportsOOB, r`pendingErrorNum, r`saved, r`err, r`current, r`nextPacketPos, r`data, r`size, r`pos
    modifies r.transport`closed, r.transport`incoming, r.transport.session`state
    ensures r.Valid() && (r.err == NoError ==> r.current.Some?)
    ensures old(AtPacketStart(r)) && MarkersWhole(old(r.Upcoming())) ==>
              Hunt(old(r.Upcoming()), old(r.pendingErrorNum), IsReset(old(r.current.value)))
              == if r.err != NoError then Stuck else Hunt(r.Upcoming(), r.pendingErrorNum, true)
    ensures old(AtPacketStart(r)) && MarkersWhole(old(r.Upcoming())) && r.err == NoError ==> IsReset(r.current.value)
  {
    var found := false;
    ghost var ps, pending, first := r.Upcoming(), r.pendingErrorNum, r.current.value;
    ghost var whole := AtPacketStart(r) && MarkersWhole(ps);
    while !found
      invariant r.Valid() && !r.checkRequestBoundary && r.err == NoError && r.current.Some?
      invariant whole && !found ==> AtPacketStart(r) && MarkersWhole(r.Upcoming())
      invariant whole ==> Hunt(ps, pending, IsReset(first)) == Hunt(r.Upcoming(), r.pendingErrorNum, found || IsReset(r.current.value))
      invariant whole && found ==> IsReset(r.current.value)
      decreases !found, |r.Upcoming()|
    {
      if r.current.value.Type() == TYPE_MARKER {
        var markerType := ReadMarkerType(r);
        if r.err != NoError {
          return;
        }
        if markerType == MARKER_RESET {
          found := true;
        }
      }
      if !found {
        if whole { NextKeepsWhole(r.Upcoming(), r.pendingErrorNum); }
        r.WaitForPackets(false);
        if r.err != NoError {
          return;
        }
      }
    }
  }

  /** The packet-discarding loops of Conn.reset. */
  method HuntForReset(r: ReadBuffer)
    requires r.Valid() && !r.checkRequestBoundary && r.err == NoError && r.current.Some?
    modifies r`supportsOOB, r`pendingErrorNum, r`saved, r`err, r`current, r`nextPacketPos, r`data, r`size, r`pos
    modifies r.transport`closed, r.transport`incoming, r.transport.session`state
    ensures r.Valid()
    ensures old(AtPacketStart(r)) && MarkersWhole(old(r.Upcoming())) ==>
              match Hunt(old(r.Upcoming()), old(r.pendingErrorNum), IsReset(old(r.current.value)))
              case Stuck => r.err != NoError
              case Landed(p, rest) => r.err == NoError && r.current == Some(p) && r.Upcoming() == rest
  {
    ghost var whole := AtPacketStart(r) && MarkersWhole(r.Upcoming());
    ghost var total := Hunt(r.Upcoming(), r.pendingErrorNum, IsReset(r.current.value));
    HuntForMarker(r);
    if r.err != NoError {
      return;
    }
    while r.current.value.Type() == TYPE_MARKER
      invariant r.Valid() && !r.checkRequestBoundary && r.err == NoError && r.current.Some?
      invariant whole ==> total == if IsMarker(r.current.value) then Hunt(r.Upcoming(), r.pendingErrorNum, true)
                                   else Landed(r.current.value, r.Upcoming())
      decreases |r.Upcoming()|
    {
      r.WaitForPackets(false);
      if r.err != NoError {
        return;
      }
    }
  }

  lemma {:induction false} NextKeepsWhole(ps: seq<Packet>, pending: nat)
    requires MarkersWhole(ps)
    ensures match NextPacket(ps, pending)
            case NoPacket => true
            case Next(p, rest, _) => MarkersWhole(rest) && (IsMarker(p) ==> |p.buf| >= HEADER + 3)
    decreases |ps|
  {
    if ps != [] && IsControl(ps[0]) { NextKeepsWhole(ps[1..], AfterControl(ps[0], pending)); }
  }

  /**
   * Conn.reset: sends a reset marker, re-initialises the keystreams before anything more is read,
   * then discards packets. It ends exactly where Hunt says, over the packets saved before and those
   * still on the wire as the re-initialised keystream reads them.
   */
  method ResetConnection(r: ReadBuffer, w: WriteBuffer) returns (ghost ps: seq<Packet>, ghost h: HashState)
    requires r.Valid() && w.Basic() && r.transport == w.transport && !r.checkRequestBoundary
    requires r.current.Some?
    modifies r`supportsOOB, r`pendingErrorNum, r`saved, r`err, r`current, r`nextPacketPos, r`data, r`size, r`pos
    modifies w, w.data, w.transport, w.transport.session`state
    ensures r.Valid()
    // the keystream is re-initialised before anything more is read
    ensures h.gen == old(r.transport.session.state.gen) && h.inn == old(r.transport.session.state.inn)
    ensures AllFramed(ps)
    // where the marker could not be sent the connection is closed and only the packets saved before are left
    ensures ps == old(r.saved[r.nextPacketPos..]) + if w.failed then [] else Arriving(old(r.transport.session.algs),
                 if Active(old(r.transport.session.algs), h) then Reset(old(r.transport.session.algs), r.transport.session.role, h) else h,
                 old(r.transport.fullPacketSize), old(r.transport.incoming))
    ensures old(AtPacketStart(r)) && MarkersWhole(ps) ==>
            match Hunt(ps, old(r.pendingErrorNum), IsReset(old(r.current.value)))
            case Stuck => r.err != NoError
            case Landed(p, rest) => r.err == NoError && r.current == Some(p) && r.Upcoming() == rest
  {
    hide Hunt, Arriving, Flatten, ProtectAll, WellFormed, Payloads, MarkersWhole, Reset;
    r.err := NoError;
    w.SendMarker(MARKER_RESET);
    h := w.transport.session.state;
    if Active(w.transport.session.algs, w.transport.session.state) {
      w.transport.ResetSecurity();
    }
    ps := r.Upcoming();
    HuntForReset(r);
  }
}
