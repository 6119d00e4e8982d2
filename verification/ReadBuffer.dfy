// ReadBuffer: typed values glued together from packets, and the marker reset that
// resynchronises a connection.
module ResponseReader {
  import opened Bytes
  import opened TtcValues
  import opened Security
  import opened Tns
  import RequestWriter

  const FLAGS_EOF := 0x40
  const CONTROL_INBAND := 8
  const CONTROL_RESET_OOB := 9
  const ERR_SESSION_SHUTDOWN := 12572
  const ERR_INBAND_MESSAGE := 12573
  const END_OF_RESPONSE := 0x2000
  const MSG_END_OF_RESPONSE: byte := 29
  const MARKER_RESET: byte := 2

  datatype ReadError = NoError | MarkerDetected | Truncated | ConnectionClosed | Inband(num: nat) | BadInteger

  // ---- packets, abstractly ----

  function U16At(b: seq<byte>, i: nat): nat
    requires i + 2 <= |b|
  {
    FromBE(b[i..i + 2])
  }

  function U32At(b: seq<byte>, i: nat): nat
    requires i + 4 <= |b|
  {
    FromBE(b[i..i + 4])
  }

  /** The in-band error number after a control packet. */
  function AfterControl(p: Packet, pending: nat): nat
    requires p.Framed()
  {
    if |p.buf| >= HEADER + 10 && U16At(p.buf, HEADER) == CONTROL_INBAND then U32At(p.buf, HEADER + 6) else pending
  }

  /** checkConnected accepts these. */
  predicate Tolerable(pending: nat) {
    pending == 0 || pending == ERR_SESSION_SHUTDOWN || pending == ERR_INBAND_MESSAGE
  }

  /** The in-band error number once a packet has been started. */
  function AfterStart(p: Packet, pending: nat): nat
    requires p.Framed()
  {
    if p.Type() == TYPE_DATA && |p.buf| >= PAYLOAD && U16At(p.buf, HEADER) == FLAGS_EOF then ERR_SESSION_SHUTDOWN else pending
  }

  predicate IsControl(p: Packet)
    requires p.Framed()
  {
    p.Type() == TYPE_CONTROL
  }

  predicate IsMarker(p: Packet)
    requires p.Framed()
  {
    p.Type() == TYPE_MARKER
  }

  /** A DATA packet too short for its flags. */
  predicate IsTruncated(p: Packet)
    requires p.Framed()
  {
    p.Type() == TYPE_DATA && |p.buf| < PAYLOAD
  }

  function Payload(p: Packet): seq<byte>
    requires p.Framed()
  {
    if p.Type() == TYPE_DATA then (if |p.buf| >= PAYLOAD then p.buf[PAYLOAD..] else []) else p.buf[HEADER..]
  }

  /** The bytes value reads can get at: payloads up to a marker, a truncated packet or a fatal notification. */
  function Readable(ps: seq<Packet>, pending: nat): seq<byte>
    requires AllFramed(ps)
    decreases |ps|
  {
    if ps == [] then []
    else if IsControl(ps[0]) then
      (if Tolerable(AfterControl(ps[0], pending)) then Readable(ps[1..], AfterControl(ps[0], pending)) else [])
    else if IsMarker(ps[0]) || IsTruncated(ps[0]) then []
    else Payload(ps[0]) + Readable(ps[1..], AfterStart(ps[0], pending))
  }

  /** HasEndOfResponse. */
  function EndsResponse(p: Packet): bool
    requires p.Framed()
  {
    |p.buf| >= PAYLOAD
    && (var flags := U16At(p.buf, HEADER);
        (flags / END_OF_RESPONSE) % 2 == 1 || (flags / FLAGS_EOF) % 2 == 1
        || (|p.buf| == HEADER + 3 && p.buf[HEADER + 2] == MSG_END_OF_RESPONSE))
  }

  /** Does reading this packet end a wait? With a request boundary, DATA must carry the end of the response. */
  predicate Notifies(p: Packet, boundary: bool)
    requires p.Framed()
  {
    !IsControl(p) && (p.Type() != TYPE_DATA || !boundary || EndsResponse(p))
  }

  /** How a wait for packets ends: with packets saved, or with an error. */
  datatype Waited = Lost(e: ReadError) | Ready(saved: seq<Packet>, rest: seq<Packet>, pending: nat)

  /** The read loop of WaitForPackets over the packets the transport delivers. */
  function Wait(ps: seq<Packet>, pending: nat, boundary: bool, acc: seq<Packet>): Waited
    requires AllFramed(ps)
    decreases |ps|
  {
    if ps == [] then Lost(ConnectionClosed)
    else
      var p := ps[0];
      var acc' := if IsControl(p) then acc else acc + [p];
      var pending' := if IsControl(p) then AfterControl(p, pending) else pending;
      if Notifies(p, boundary) then Ready(acc', ps[1..], pending')
      else if !Tolerable(pending') then Lost(Inband(pending'))
      else Wait(ps[1..], pending', boundary, acc')
  }

  /** WaitForPackets: the transport is read only if nothing saved is left. */
  function Onto(left: seq<Packet>, coming: seq<Packet>, pending: nat, boundary: bool): Waited
    requires AllFramed(coming)
  {
    if left != [] then Ready(left, coming, pending) else Wait(coming, pending, boundary, [])
  }

  lemma {:induction false} WaitSaves(ps: seq<Packet>, pending: nat, boundary: bool, acc: seq<Packet>)
    requires AllFramed(ps) && AllFramed(acc) && forall k :: 0 <= k < |acc| ==> !IsControl(acc[k])
    ensures var w := Wait(ps, pending, boundary, acc);
            w.Ready? ==> |w.saved| > |acc| && acc <= w.saved && AllFramed(w.saved) && AllFramed(w.rest) && |w.rest| < |ps|
    ensures var w := Wait(ps, pending, boundary, acc);
            w.Ready? ==> forall k :: 0 <= k < |w.saved| ==> !IsControl(w.saved[k])
    decreases |ps|
  {
    if ps != [] && !Notifies(ps[0], boundary) {
      var p := ps[0];
      WaitSaves(ps[1..], if IsControl(p) then AfterControl(p, pending) else pending, boundary, if IsControl(p) then acc else acc + [p]);
    }
  }

  /** Everything but control packets. */
  function Deliverable(ps: seq<Packet>): (r: seq<Packet>)
    requires AllFramed(ps)
  {
    if ps == [] then [] else (if IsControl(ps[0]) then [] else [ps[0]]) + Deliverable(ps[1..])
  }

  lemma {:induction false} AllDeliverable(a: seq<Packet>, b: seq<Packet>)
    requires AllFramed(a) && AllFramed(b) && forall k :: 0 <= k < |a| ==> !IsControl(a[k])
    ensures AllFramed(a + b) && Deliverable(a + b) == a + Deliverable(b)
  {
    if a == [] {
      assert a + b == b;
    } else {
      AllDeliverable(a[1..], b);
      assert (a + b)[1..] == a[1..] + b;
      assert a == [a[0]] + a[1..];
    }
  }

  /** A wait loses no packet but control packets, whatever the request boundary. */
  lemma {:induction false} WaitLosesNothing(ps: seq<Packet>, pending: nat, boundary: bool, acc: seq<Packet>)
    requires AllFramed(ps)
    ensures var w := Wait(ps, pending, boundary, acc);
            w.Ready? ==> AllFramed(w.rest) && acc + Deliverable(ps) == w.saved + Deliverable(w.rest)
    decreases |ps|
  {
    if ps != [] {
      var p := ps[0];
      var acc' := if IsControl(p) then acc else acc + [p];
      assert acc + Deliverable(ps) == acc' + Deliverable(ps[1..]);
      if !Notifies(p, boundary) {
        WaitLosesNothing(ps[1..], if IsControl(p) then AfterControl(p, pending) else pending, boundary, acc');
      }
    }
  }

  /** The next packet that is not a control packet, if no fatal notification comes first. */
  datatype Following = NoPacket | Next(p: Packet, rest: seq<Packet>, pending: nat)

  function NextPacket(ps: seq<Packet>, pending: nat): (r: Following)
    requires AllFramed(ps)
    ensures r.Next? ==> r.p.Framed() && !IsControl(r.p) && AllFramed(r.rest) && |r.rest| < |ps|
    decreases |ps|
  {
    if ps == [] then NoPacket
    else if !IsControl(ps[0]) then Next(ps[0], ps[1..], pending)
    else if Tolerable(AfterControl(ps[0], pending)) then NextPacket(ps[1..], AfterControl(ps[0], pending))
    else NoPacket
  }

  /** Without a request boundary a wait finds just the next packet. */
  lemma {:induction false} WaitFindsNext(ps: seq<Packet>, pending: nat)
    requires AllFramed(ps)
    ensures match NextPacket(ps, pending)
            case NoPacket => Wait(ps, pending, false, []).Lost?
            case Next(p, rest, pending') => Wait(ps, pending, false, []) == Ready([p], rest, pending')
    decreases |ps|
  {
    if ps != [] {
      if IsControl(ps[0]) {
        WaitFindsNext(ps[1..], AfterControl(ps[0], pending));
      } else {
        assert [] + [ps[0]] == [ps[0]];
      }
    }
  }

  /** Control packets hold no readable bytes. */
  lemma {:induction false} ReadableFromNext(ps: seq<Packet>, pending: nat)
    requires AllFramed(ps)
    ensures match NextPacket(ps, pending)
            case NoPacket => Readable(ps, pending) == []
            case Next(p, rest, pending') =>
              Readable(ps, pending) == if IsMarker(p) || IsTruncated(p) then [] else Payload(p) + Readable(rest, AfterStart(p, pending'))
    decreases |ps|
  {
    if ps != [] && IsControl(ps[0]) { ReadableFromNext(ps[1..], AfterControl(ps[0], pending)); }
  }

  lemma SplitAt<T>(saved: seq<T>, k: nat, more: seq<T>)
    requires k < |saved|
    ensures saved[k..] + more == [saved[k]] + (saved[k + 1..] + more)
  {
  }

  lemma NextPacketCons(p: Packet, rest: seq<Packet>, pending: nat)
    requires p.Framed() && !IsControl(p) && AllFramed(rest)
    ensures AllFramed([p] + rest) && NextPacket([p] + rest, pending) == Next(p, rest, pending)
  {
    assert ([p] + rest)[1..] == rest;
  }

  lemma SplitRest(data: seq<byte>, pos: nat, n: nat, more: seq<byte>)
    requires pos + n <= |data|
    ensures data[pos..pos + n] + (data[pos + n..] + more) == data[pos..] + more
  {
  }

  lemma Regroup(x: seq<byte>, part: seq<byte>, rest: seq<byte>, whole: seq<byte>, all: seq<byte>)
    requires part + rest == whole && x + whole == all
    ensures (x + part) + rest == all
  {
  }

  class ReadBuffer {
    const transport: Transport
    var supportsOOB: bool
    var data: seq<byte>            // the current packet's buffer
    var pos: nat
    var size: nat
    var current: Option<Packet>
    var saved: seq<Packet>
    var nextPacketPos: nat
    var pendingErrorNum: nat
    var checkRequestBoundary: bool
    var err: ReadError             // the sticky error

    ghost predicate Valid()
      reads this
    {
      pos <= size == |data| && nextPacketPos <= |saved| && AllFramed(saved)
      && (current.Some? ==> current.value.Framed())
      && forall k :: 0 <= k < |saved| ==> !IsControl(saved[k])
    }

    /** The packets still to be started: those saved, then those the transport will deliver. */
    ghost function Upcoming(): (ps: seq<Packet>)
      reads this, transport, transport.session
      requires Valid()
      ensures AllFramed(ps)
    {
      saved[nextPacketPos..] + transport.Coming()
    }

    /** The bytes still to be read. */
    ghost function Avail(): seq<byte>
      reads this, transport, transport.session
      requires Valid()
    {
      data[pos..] + Readable(Upcoming(), pendingErrorNum)
    }

    /** Reading never goes back: no packet becomes upcoming again, and a current packet stays one. */
    ghost predicate Onward(ps: seq<Packet>, was: Option<Packet>)
      reads this, transport, transport.session
      requires Valid()
    {
      |Upcoming()| <= |ps| && (was.Some? ==> current.Some?)
    }

    constructor (transport: Transport)
      ensures this.transport == transport && Valid() && err == NoError && Avail() == Readable(transport.Coming(), 0)
      ensures !checkRequestBoundary && pendingErrorNum == 0 && Upcoming() == transport.Coming()
    {
      this.transport := transport;
      supportsOOB, data, pos, size := false, [], 0, 0;
      current, saved, nextPacketPos, pendingErrorNum := None, [], 0, 0;
      checkRequestBoundary, err := false, NoError;
      new;
      assert Upcoming() == transport.Coming() && Avail() == Readable(Upcoming(), 0);
    }

    method SetErr(e: ReadError)
      modifies `err
      ensures err == if old(err) == NoError then e else old(err)
    {
      if err == NoError {
        err := e;
      }
    }

    /** Files a packet just read; tells whether the wait is over. */
    method ProcessPacket(p: Packet) returns (notify: bool)
      requires Valid() && p.Framed()
      modifies `supportsOOB, `pendingErrorNum, `saved
      ensures Valid()
      ensures saved == old(saved) + if IsControl(p) then [] else [p]
      ensures pendingErrorNum == if IsControl(p) then AfterControl(p, old(pendingErrorNum)) else old(pendingErrorNum)
      ensures notify == (!IsControl(p) && (p.Type() != TYPE_DATA || !checkRequestBoundary || EndsResponse(p)))
    {
      if p.Type() == TYPE_CONTROL {
        if |p.buf| >= HEADER + 2 {
          var ct := U16At(p.buf, HEADER);
          if ct == CONTROL_RESET_OOB {
            supportsOOB := false;
          } else if ct == CONTROL_INBAND && |p.buf| >= HEADER + 10 {
            pendingErrorNum := U32At(p.buf, HEADER + 6);
          }
        }
        return false;
      }
      saved := saved + [p];
      return p.Type() != TYPE_DATA || !checkRequestBoundary || EndsResponse(p);
    }

    /** Makes the next saved packet current. */
    method StartPacket()
      requires Valid() && nextPacketPos < |saved|
      modifies `current, `nextPacketPos, `data, `size, `pos, `pendingErrorNum, `err
      ensures Valid() && nextPacketPos == old(nextPacketPos) + 1
      ensures current == Some(saved[old(nextPacketPos)]) && data == current.value.buf
      ensures data[pos..] == Payload(current.value) || IsTruncated(current.value)
      ensures pos == (if current.value.Type() == TYPE_DATA && |data| >= PAYLOAD then PAYLOAD else HEADER)
      ensures pendingErrorNum == AfterStart(current.value, old(pendingErrorNum))
      ensures err == if old(err) == NoError && IsTruncated(current.value) then Truncated else old(err)
    {
      var p := saved[nextPacketPos];
      current := Some(p);
      nextPacketPos := nextPacketPos + 1;
      data := p.buf;
      size := |data|;
      pos := HEADER;
      if p.Type() == TYPE_DATA {
        if pos + 2 > size {
          SetErr(Truncated);
        } else {
          var flags := U16At(data, pos);
          pos := pos + 2;
          if flags == FLAGS_EOF {
            pendingErrorNum := ERR_SESSION_SHUTDOWN;
          }
        }
      }
    }

    /** Reads packets into `saved` until one ends the wait. */
    method ReadUntilNotified()
      requires Valid() && err == NoError && nextPacketPos == |saved|
      modifies `supportsOOB, `pendingErrorNum, `saved, `err, transport`closed, transport`incoming, transport.session`state
      ensures Valid()
      ensures match Wait(old(transport.Coming()), old(pendingErrorNum), checkRequestBoundary, [])
              case Lost(e) => err == e != NoError
              case Ready(more, rest, pending) =>
                err == NoError && saved == old(saved) + more && transport.Coming() == rest && pendingErrorNum == pending
    {
      hide Arriving, Readable;
      var notified := false;
      ghost var acc: seq<Packet> := [];
      while !notified
        invariant Valid() && err == NoError && saved == old(saved) + acc
        invariant Wait(old(transport.Coming()), old(pendingErrorNum), checkRequestBoundary, []) ==
                  if notified then Ready(acc, transport.Coming(), pendingErrorNum)
                  else Wait(transport.Coming(), pendingErrorNum, checkRequestBoundary, acc)
        decreases !notified, |transport.Coming()|
      {
        var p := transport.ReadPacket();
        if p.None? {
          SetErr(ConnectionClosed);
          return;
        }
        notified := ProcessPacket(p.value);
        acc := if IsControl(p.value) then acc else acc + [p.value];
        if !notified && !Tolerable(pendingErrorNum) {
          SetErr(Inband(pendingErrorNum));
          return;
        }
      }
    }

    /** What is saved and not yet started, and the packets to come, are as the wait left them. */
    ghost predicate Holding(left: seq<Packet>, coming: seq<Packet>)
      requires Valid()
      reads this, transport, transport.session
    {
      saved[nextPacketPos..] == left && transport.Coming() == coming
    }

    /** Has a packet saved to go on with, reading from the transport only if there is none. */
    method HavePacket()
      requires Valid() && err == NoError
      modifies `supportsOOB, `pendingErrorNum, `saved, `err, transport`closed, transport`incoming, transport.session`state
      ensures Valid()
      ensures err == NoError ==> nextPacketPos < |saved| && Deliverable(Upcoming()) == Deliverable(old(Upcoming()))
      ensures match Onto(old(saved[nextPacketPos..]), old(transport.Coming()), old(pendingErrorNum), checkRequestBoundary)
              case Lost(_) => err != NoError
              case Ready(left, coming, pending) => err == NoError && Holding(left, coming) && pendingErrorNum == pending
      ensures err == NoError && !checkRequestBoundary ==>
                NextPacket(Upcoming(), pendingErrorNum) == NextPacket(old(Upcoming()), old(pendingErrorNum))
      ensures err != NoError && !checkRequestBoundary ==> NextPacket(old(Upcoming()), old(pendingErrorNum)) == NoPacket
    {
      if nextPacketPos < |saved| {
        return;
      }
      ghost var coming, pending, before := transport.Coming(), pendingErrorNum, saved;
      assert Upcoming() == coming;
      ReadUntilNotified();
      WaitSaves(coming, pending, checkRequestBoundary, []);
      WaitLosesNothing(coming, pending, checkRequestBoundary, []);
      if !checkRequestBoundary { WaitFindsNext(coming, pending); }
      if err == NoError {
        ghost var more := Wait(coming, pending, checkRequestBoundary, []).saved;
        assert saved[nextPacketPos..] == more;
        UpcomingHead();
        AllDeliverable(more, transport.Coming());
        assert [] + Deliverable(coming) == Deliverable(coming);
        if !checkRequestBoundary { assert saved[nextPacketPos + 1..] == []; }
      }
    }

    /** How a packet just started looks: positioned on its payload, in error if it is truncated. */
    ghost predicate Started(p: Packet, pending: nat, checkMarker: bool)
      requires p.Framed()
      reads this
    {
      current == Some(p) && data == p.buf && pendingErrorNum == AfterStart(p, pending)
      && pos == (if p.Type() == TYPE_DATA && |p.buf| >= PAYLOAD then PAYLOAD else HEADER)
      && err == if IsTruncated(p) then Truncated else if checkMarker && IsMarker(p) then MarkerDetected else NoError
    }

    /** Starts the next saved packet. */
    method StartNext(checkMarker: bool)
      requires Valid() && err == NoError && nextPacketPos < |saved|
      modifies `current, `nextPacketPos, `data, `size, `pos, `pendingErrorNum, `err
      ensures Valid()
      ensures current.Some? && Started(current.value, old(pendingErrorNum), checkMarker)
      ensures NextPacket(old(Upcoming()), old(pendingErrorNum)) == Next(current.value, Upcoming(), old(pendingErrorNum))
      ensures Deliverable(old(Upcoming())) == [current.value] + Deliverable(Upcoming())
      ensures current.value == old(saved[nextPacketPos..])[0] && Holding(old(saved[nextPacketPos..])[1..], old(transport.Coming()))
    {
      UpcomingHead();
      StartPacket();
      if checkMarker && current.value.Type() == TYPE_MARKER {
        SetErr(MarkerDetected);
      }
    }

    /**
     * Advances to the next packet. With checkMarker a marker becomes an error. While a response boundary is
     * awaited, everything up to it is saved first; without one this is exactly the next packet that is not a
     * control packet.
     */
    method WaitForPackets(checkMarker: bool)
      requires Valid()
      modifies `supportsOOB, `pendingErrorNum, `saved, `err, `current, `nextPacketPos, `data, `size, `pos, transport`closed, transport`incoming, transport.session`state
      ensures Valid()
      ensures old(err) != NoError ==> err == old(err)
      ensures old(err) == NoError && err == NoError ==>
                current.Some? && Deliverable(old(Upcoming())) == [current.value] + Deliverable(Upcoming())
      ensures old(err) == NoError && !checkRequestBoundary ==>
                match NextPacket(old(Upcoming()), old(pendingErrorNum))
                case NoPacket => err != NoError
                case Next(p, rest, pending) => Upcoming() == rest && Started(p, pending, checkMarker)
      ensures old(err) == NoError ==>
                match Onto(old(saved[nextPacketPos..]), old(transport.Coming()), old(pendingErrorNum), checkRequestBoundary)
                case Lost(_) => err != NoError
                case Ready(left, coming, pending) =>
                  left != [] && left[0].Framed() && Started(left[0], pending, checkMarker) && Holding(left[1..], coming)
    {
      hide Deliverable, NextPacket, Wait, AfterStart;
      if err != NoError {
        return;
      }
      HavePacket();
      if err != NoError {
        return;
      }
      StartNext(checkMarker);
    }

    /** The first upcoming packet is the next saved one. */
    lemma UpcomingHead()
      requires Valid() && nextPacketPos < |saved|
      ensures Upcoming() == [saved[nextPacketPos]] + (saved[nextPacketPos + 1..] + transport.Coming())
      ensures NextPacket(Upcoming(), pendingErrorNum) == Next(saved[nextPacketPos], saved[nextPacketPos + 1..] + transport.Coming(), pendingErrorNum)
    {
      SplitAt(saved, nextPacketPos, transport.Coming());
      NextPacketCons(saved[nextPacketPos], saved[nextPacketPos + 1..] + transport.Coming(), pendingErrorNum);
    }

    /** Fetches the next packet for a value read that has used up the current one. */
    method Refill()
      requires Valid() && err == NoError && pos == size && !checkRequestBoundary
      modifies `supportsOOB, `pendingErrorNum, `saved, `err, `current, `nextPacketPos, `data, `size, `pos, transport`closed, transport`incoming, transport.session`state
      ensures Valid()
      ensures err == NoError ==> Avail() == old(Avail()) && |Upcoming()| < |old(Upcoming())| && current.Some?
      ensures err != NoError ==> old(Avail()) == []
    {
      ghost var ps, pending := Upcoming(), pendingErrorNum;
      assert data[pos..] == [] && Avail() == [] + Readable(ps, pending) == Readable(ps, pending);
      ReadableFromNext(ps, pending);
      WaitForPackets(true);
    }

    /** The next n bytes of the current packet. */
    method Take(n: nat) returns (out: seq<byte>)
      requires Valid() && pos + n <= size
      modifies `pos
      ensures Valid() && pos == old(pos) + n && |out| == n && out + Avail() == old(Avail()) && Upcoming() == old(Upcoming())
    {
      out := data[pos..pos + n];
      SplitRest(data, pos, n, Readable(Upcoming(), pendingErrorNum));
      pos := pos + n;
    }

    /** n bytes, spanning packets if required. */
    method GetRaw(n: nat) returns (r: Option<seq<byte>>)
      requires Valid() && n > 0 && !checkRequestBoundary
      modifies `supportsOOB, `pendingErrorNum, `saved, `err, `current, `nextPacketPos, `data, `size, `pos, transport`closed, transport`incoming, transport.session`state
      ensures Valid()
      ensures err == NoError ==> Onward(old(Upcoming()), old(current))
      ensures old(err) != NoError ==> err == old(err) && r == None
      ensures old(err) == NoError ==>
                match ParseRaw(n, old(Avail()))
                case Failed => err != NoError && r == None
                case Got(bs, rest) => err == NoError && r == Some(bs) && Avail() == rest
    {
      if err != NoError {
        return None;
      }
      if pos == size {
        Refill();
        if err != NoError {
          return None;
        }
      }
      if n <= size - pos {
        var out := Take(n);
        RawMirrors(out, Avail());
        return Some(out);
      }
      r := GatherRaw(n);
    }

    /** From the next packet, up to `want` bytes. */
    method TakeSome(want: nat) returns (part: seq<byte>)
      requires Valid() && err == NoError && pos == size && !checkRequestBoundary
      modifies `supportsOOB, `pendingErrorNum, `saved, `err, `current, `nextPacketPos, `data, `size, `pos, transport`closed, transport`incoming, transport.session`state
      ensures Valid()
      ensures err == NoError ==> part + Avail() == old(Avail()) && |part| <= want && |Upcoming()| < |old(Upcoming())|
      ensures err == NoError && |part| < want ==> pos == size
      ensures err == NoError ==> current.Some?
      ensures err != NoError ==> old(Avail()) == []
    {
      Refill();
      if err != NoError {
        return [];
      }
      var take := want;
      if take > size - pos {
        take := size - pos;
      }
      part := Take(take);
    }

    /** Assembles a value split across packets. */
    method GatherRaw(n: nat) returns (r: Option<seq<byte>>)
      requires Valid() && err == NoError && !checkRequestBoundary && size - pos < n
      modifies `supportsOOB, `pendingErrorNum, `saved, `err, `current, `nextPacketPos, `data, `size, `pos, transport`closed, transport`incoming, transport.session`state
      ensures Valid()
      ensures err == NoError ==> Onward(old(Upcoming()), old(current))
      ensures match ParseRaw(n, old(Avail()))
              case Failed => err != NoError && r == None
              case Got(bs, rest) => err == NoError && r == Some(bs) && Avail() == rest
    {
      ghost var all := Avail();
      var scratch := Take(size - pos);
      while |scratch| < n
        invariant Valid() && err == NoError && !checkRequestBoundary
        invariant |scratch| <= n && scratch + Avail() == all && Onward(old(Upcoming()), old(current))
        invariant |scratch| < n ==> pos == size
        decreases |Upcoming()|
      {
        ghost var before := Avail();
        var part := TakeSome(n - |scratch|);
        if err != NoError {
          return None;
        }
        Regroup(scratch, part, Avail(), before, all);
        scratch := scratch + part;
      }
      RawMirrors(scratch, Avail());
      return Some(scratch);
    }

    /** Skips bytes of the current packet, or moves on to the next packet; tells how many were skipped. */
    method SkipSome(n: nat) returns (take: nat, ghost part: seq<byte>)
      requires Valid() && err == NoError && n > 0 && !checkRequestBoundary
      modifies `supportsOOB, `pendingErrorNum, `saved, `err, `current, `nextPacketPos, `data, `size, `pos, transport`closed, transport`incoming, transport.session`state
      ensures Valid()
      ensures err == NoError ==> part + Avail() == old(Avail()) && |part| <= n
      ensures err == NoError ==> Onward(old(Upcoming()), old(current))
      ensures take == |part|
      ensures err == NoError ==> |part| > 0 || |Upcoming()| < |old(Upcoming())|
      ensures err != NoError ==> old(Avail()) == []
    {
      take := size - pos;
      part := [];
      if take == 0 {
        Refill();
        assert part + Avail() == Avail();
      } else {
        if take > n {
          take := n;
        }
        part := Take(take);
      }
    }

    /** Skips n bytes. */
    method SkipRawBytes(n0: nat)
      requires Valid() && !checkRequestBoundary
      modifies `supportsOOB, `pendingErrorNum, `saved, `err, `current, `nextPacketPos, `data, `size, `pos, transport`closed, transport`incoming, transport.session`state
      ensures Valid()
      ensures err == NoError ==> Onward(old(Upcoming()), old(current))
      ensures old(err) != NoError ==> err == old(err)
      ensures old(err) == NoError ==>
                match ParseRaw(n0, old(Avail()))
                case Failed => err != NoError
                case Got(_, rest) => err == NoError && Avail() == rest
    {
      if err != NoError {
        return;
      }
      ghost var all := Avail();
      ghost var gone: seq<byte> := [];
      assert gone + all == all;
      var n := n0;
      while n > 0
        invariant Valid() && !checkRequestBoundary && err == NoError
        invariant 0 <= n && n + |gone| == n0 && gone + Avail() == all && Onward(old(Upcoming()), old(current))
        decreases n, |Upcoming()|
      {
        ghost var before := Avail();
        var take, part := SkipSome(n);
        if err != NoError {
          return;
        }
        Regroup(gone, part, Avail(), before, all);
        gone := gone + part;
        n := n - take;
      }
      RawMirrors(gone, Avail());
      assert ParseRaw(n0, all) == Got(gone, Avail());
    }

    method ReadUB1() returns (v: byte)
      requires Valid() && !checkRequestBoundary
      modifies `supportsOOB, `pendingErrorNum, `saved, `err, `current, `nextPacketPos, `data, `size, `pos, transport`closed, transport`incoming, transport.session`state
      ensures Valid()
      ensures err == NoError ==> Onward(old(Upcoming()), old(current))
      ensures old(err) != NoError ==> err == old(err)
      ensures old(err) == NoError ==>
                match ParseU8(old(Avail()))
                case Failed => err != NoError
                case Got(b, rest) => err == NoError && v == b && Avail() == rest
    {
      var b := GetRaw(1);
      v := if b.None? then 0 else b.value[0];
    }

    /** readUnsigned and readSigned: a length byte with an optional sign, then a big-endian magnitude. */
    method ReadInteger(maxLen: nat, allowNeg: bool) returns (v: int)
      requires Valid() && !checkRequestBoundary
      modifies `supportsOOB, `pendingErrorNum, `saved, `err, `current, `nextPacketPos, `data, `size, `pos, transport`closed, transport`incoming, transport.session`state
      ensures Valid()
      ensures old(err) != NoError ==> err == old(err)
      ensures old(err) == NoError ==>
                match ParseInteger(maxLen, allowNeg, old(Avail()))
                case Failed => err != NoError
                case Got(i, rest) => err == NoError && v == i && Avail() == rest
    {
      v := 0;
      var b := ReadUB1();
      if err != NoError {
        return;
      }
      var neg := b >= 0x80;
      var length := if neg then b - 0x80 else b;
      if (neg && !allowNeg) || length > maxLen {
        SetErr(BadInteger);
        return;
      }
      if length > 0 {
        v := ReadMagnitude(length, neg);
      }
    }

    /** The big-endian bytes of an integer. */
    method ReadMagnitude(length: nat, neg: bool) returns (v: int)
      requires Valid() && !checkRequestBoundary && err == NoError && length > 0
      modifies `supportsOOB, `pendingErrorNum, `saved, `err, `current, `nextPacketPos, `data, `size, `pos, transport`closed, transport`incoming, transport.session`state
      ensures Valid()
      ensures match ParseMagnitude(length, neg, old(Avail()))
              case Failed => err != NoError
              case Got(i, rest) => err == NoError && Avail() == rest && v == i
    {
      v := 0;
      var bs := GetRaw(length);
      if bs.None? {
        return;
      }
      v := FromBE(bs.value);
      if neg {
        v := -v;
      }
    }

    /** The chunks of a long value, up to an empty one. */
    method ReadChunks() returns (chunk: seq<byte>)
      requires Valid() && !checkRequestBoundary && err == NoError
      modifies `supportsOOB, `pendingErrorNum, `saved, `err, `current, `nextPacketPos, `data, `size, `pos, transport`closed, transport`incoming, transport.session`state
      ensures Valid()
      ensures match ParseChunks([], old(Avail()))
              case Failed => err != NoError
              case Got(bs, rest) => err == NoError && chunk == bs && Avail() == rest
    {
      hide Readable, Avail, Upcoming, Valid;
      chunk := [];
      while true
        invariant Valid() && !checkRequestBoundary && err == NoError
        invariant ParseChunks(chunk, Avail()) == ParseChunks([], old(Avail()))
        decreases |Avail()|
      {
        var n := ReadInteger(4, false);
        if err != NoError {
          return;
        }
        if n <= 0 {
          return;
        }
        var part := GetRaw(n);
        if part.None? {
          return;
        }
        chunk := chunk + part.value;
      }
    }

    /** ReadBytes: a length-prefixed value; NULL and the empty value are both []. */
    method ReadBytes() returns (out: seq<byte>)
      requires Valid() && !checkRequestBoundary
      modifies `supportsOOB, `pendingErrorNum, `saved, `err, `current, `nextPacketPos, `data, `size, `pos, transport`closed, transport`incoming, transport.session`state
      ensures Valid()
      ensures old(err) != NoError ==> err == old(err)
      ensures old(err) == NoError ==>
                match ParseBytes(old(Avail()))
                case Failed => err != NoError
                case Got(bs, rest) => err == NoError && out == bs && Avail() == rest
    {
      out := [];
      var length := ReadUB1();
      if err != NoError {
        return;
      }
      if length == 0 || length == NULL_LENGTH {
        return;
      }
      if length != LONG_LENGTH {
        var b := GetRaw(length);
        if b.Some? {
          out := b.value;
        }
        return;
      }
      out := ReadChunks();
    }

    method ReadBytesWithLength() returns (out: seq<byte>)
      requires Valid() && !checkRequestBoundary
      modifies `supportsOOB, `pendingErrorNum, `saved, `err, `current, `nextPacketPos, `data, `size, `pos, transport`closed, transport`incoming, transport.session`state
      ensures Valid()
      ensures old(err) != NoError ==> err == old(err)
      ensures old(err) == NoError ==>
                match ParseTwoLengths(old(Avail()))
                case Failed => err != NoError
                case Got(bs, rest) => err == NoError && out == bs && Avail() == rest
    {
      out := [];
      var n := ReadInteger(4, false);
      if err == NoError && n > 0 {
        out := ReadBytes();
      }
    }

    /** Skips one chunk; the empty one is the last. */
    method SkipChunk() returns (last: bool)
      requires Valid() && !checkRequestBoundary && err == NoError
      modifies `supportsOOB, `pendingErrorNum, `saved, `err, `current, `nextPacketPos, `data, `size, `pos, transport`closed, transport`incoming, transport.session`state
      ensures Valid()
      ensures match SkipChunks(old(Avail()))
              case None => err != NoError || (!last && SkipChunks(Avail()) == None)
              case Some(rest) => err == NoError && if last then Avail() == rest else SkipChunks(Avail()) == Some(rest)
      ensures err == NoError ==> |Avail()| < |old(Avail())|
    {
      hide Readable, Avail, Upcoming, Valid;
      var n := ReadInteger(4, false);
      last := n <= 0 || err != NoError;
      if !last {
        SkipRawBytes(n);
      }
    }

    method SkipChunkBytes()
      requires Valid() && !checkRequestBoundary && err == NoError
      modifies `supportsOOB, `pendingErrorNum, `saved, `err, `current, `nextPacketPos, `data, `size, `pos, transport`closed, transport`incoming, transport.session`state
      ensures Valid()
      ensures match SkipChunks(old(Avail()))
              case None => err != NoError
              case Some(rest) => err == NoError && Avail() == rest
    {
      var last := false;
      while !last && err == NoError
        invariant Valid() && !checkRequestBoundary
        invariant match SkipChunks(old(Avail()))
                  case None => err != NoError || (!last && SkipChunks(Avail()) == None)
                  case Some(rest) => err == NoError && if last then Avail() == rest else SkipChunks(Avail()) == Some(rest)
        decreases err == NoError, |Avail()|
      {
        last := SkipChunk();
      }
    }

    method SkipBytes()
      requires Valid() && !checkRequestBoundary
      modifies `supportsOOB, `pendingErrorNum, `saved, `err, `current, `nextPacketPos, `data, `size, `pos, transport`closed, transport`incoming, transport.session`state
      ensures Valid()
      ensures old(err) != NoError ==> err == old(err)
      ensures old(err) == NoError ==>
                match ParseSkip(old(Avail()))
                case None => err != NoError
                case Some(rest) => err == NoError && Avail() == rest
    {
      var length := ReadUB1();
      if err != NoError {
        return;
      }
      if length != LONG_LENGTH {
        SkipRawBytes(length);
        return;
      }
      SkipChunkBytes();
    }

    /** A fixed-width raw read, big- or little-endian. */
    method ReadFixed(width: nat, little: bool) returns (v: nat)
      requires Valid() && !checkRequestBoundary && width > 0
      modifies `supportsOOB, `pendingErrorNum, `saved, `err, `current, `nextPacketPos, `data, `size, `pos, transport`closed, transport`incoming, transport.session`state
      ensures Valid()
      ensures old(err) != NoError ==> err == old(err)
      ensures old(err) == NoError ==>
                match ParseRaw(width, old(Avail()))
                case Failed => err != NoError
                case Got(bs, rest) => err == NoError && v == (if little then FromLE(bs) else FromBE(bs)) && Avail() == rest
    {
      var b := GetRaw(width);
      v := if b.None? then 0 else if little then FromLE(b.value) else FromBE(b.value);
    }

    /** Any one typed read. */
    method Read(shape: Shape) returns (v: Value)
      requires Valid() && !checkRequestBoundary
      requires (shape.RBE? || shape.RLE? ==> shape.width > 0) && (shape.RRaw? ==> shape.n > 0)
      modifies `supportsOOB, `pendingErrorNum, `saved, `err, `current, `nextPacketPos, `data, `size, `pos, transport`closed, transport`incoming, transport.session`state
      ensures Valid()
      ensures old(err) != NoError ==> err == old(err)
      ensures old(err) == NoError ==>
                match Parse(shape, old(Avail()))
                case Failed => err != NoError
                case Got(value, rest) => err == NoError && v == value && Avail() == rest
    {
      match shape {
        case RU8 => var b := ReadUB1(); v := Int(b);
        case RUB(maxLen) => var i := ReadInteger(maxLen, false); v := Int(i);
        case RSB4 => var i := ReadInteger(4, true); v := Int(Int32(i));
        case RBE(width) => var i := ReadFixed(width, false); v := Int(i);
        case RLE(width) => var i := ReadFixed(width, true); v := Int(i);
        case RRaw(n) => var b := GetRaw(n); v := Octets(if b.Some? then b.value else []);
        case RBytes => var b := ReadBytes(); v := Octets(b);
        case RTwoLengths => var b := ReadBytesWithLength(); v := Octets(b);
      }
    }

    /** Typed reads, one after the other. */
    method ReadAll(shapes: seq<Shape>) returns (vs: seq<Value>)
      requires Valid() && !checkRequestBoundary && err == NoError
      requires forall k :: 0 <= k < |shapes| ==>
                 (shapes[k].RBE? || shapes[k].RLE? ==> shapes[k].width > 0) && (shapes[k].RRaw? ==> shapes[k].n > 0)
      modifies `supportsOOB, `pendingErrorNum, `saved, `err, `current, `nextPacketPos, `data, `size, `pos, transport`closed, transport`incoming, transport.session`state
      ensures Valid()
      ensures match ParseAll(shapes, old(Avail()))
              case Failed => err != NoError
              case Got(values, rest) => err == NoError && vs == values && Avail() == rest
      decreases |shapes|
    {
      if shapes == [] {
        return [];
      }
      var v := Read(shapes[0]);
      if err != NoError {
        return [];
      }
      var more := ReadAll(shapes[1..]);
      vs := [v] + more;
    }
  }

  // ---- what was written is what is read ----

  lemma PayloadsHead(full: bool, fs: seq<seq<byte>>)
    requires fs != [] && RequestWriter.AllWellFormed(full, fs)
    ensures RequestWriter.AllWellFormed(full, fs[1..])
    ensures RequestWriter.Payloads(full, fs) == PayloadOf(fs[0]) + RequestWriter.Payloads(full, fs[1..])
    decreases |fs|
  {
    hide PayloadOf;
    assert WellFormed(full, fs[0]);
    var init := fs[..|fs| - 1];
    if init == [] {
      assert RequestWriter.Payloads(full, fs[1..]) == [];
    } else {
      PayloadsHead(full, init);
      assert fs[1..][..|fs| - 2] == init[1..];
    }
  }

  /** The readable bytes of received DATA packets are the payloads that were sent. */
  lemma {:induction false} ReadableIsPayloads(ps: seq<Packet>, full: bool, fs: seq<seq<byte>>, pending: nat)
    requires AllFramed(ps) && SameContents(ps, fs) && RequestWriter.AllWellFormed(full, fs)
    requires forall k :: 0 <= k < |fs| ==> WellFormed(full, fs[k]) && fs[k][4] == TYPE_DATA
    ensures Readable(ps, pending) == RequestWriter.Payloads(full, fs)
    decreases |ps|
  {
    if ps != [] {
      PayloadsHead(full, fs);
      assert WellFormed(full, fs[0]);
      assert ps[0].buf[4] == ps[0].buf[4..][0] == fs[0][4..][0];
      assert ps[0].buf[PAYLOAD..] == ps[0].buf[4..][PAYLOAD - 4..] == fs[0][4..][PAYLOAD - 4..] == fs[0][PAYLOAD..];
      ReadableIsPayloads(ps[1..], full, fs[1..], AfterStart(ps[0], pending));
    }
  }

  /** DATA packets whose payloads are the encodings of the values, none of which is the one that does not survive. */
  ghost predicate Carries(full: bool, fs: seq<seq<byte>>, ops: seq<Op>) {
    (forall k :: 0 <= k < |fs| ==> WellFormed(full, fs[k]) && fs[k][4] == TYPE_DATA)
    && AllInRange(ops) && (forall k :: 0 <= k < |ops| ==> Faithful(ops[k]))
    && RequestWriter.Payloads(full, fs) == EncAll(ops)
  }

  /**
   * The whole path. Whatever DATA packets carry the encodings of some typed values, wherever they are
   * split and however they are protected, the mirrored reads at the mirrored other end of the byte
   * stream return exactly those values.
   */
  lemma ValuesTravel(a: Algorithms, sender: HashState, receiver: HashState, full: bool, fs: seq<seq<byte>>, ops: seq<Op>, pending: nat)
    requires Sound(a) && Sendable(a, sender, full, fs) && sender.out == receiver.inn && sender.gen == receiver.gen
    requires Carries(full, fs, ops)
    ensures var wire := Flatten(ProtectAll(a, sender, full, fs).1);
            ParseAll(Shapes(ops), Readable(Arriving(a, receiver, full, wire), pending)) == Got(Meanings(ops), [])
  {
    PacketsTravel(a, sender, receiver, full, fs);
    ReadableIsPayloads(Arriving(a, receiver, full, Flatten(ProtectAll(a, sender, full, fs).1)), full, fs, pending);
    ReadsUndoWrites(ops, []);
    assert EncAll(ops) + [] == EncAll(ops);
  }
}
