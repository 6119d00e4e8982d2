// TNS packets on the wire: framing by a length field, protection of DATA payloads, and
// the Transport that writes and reads them.
module Tns {
  import opened Bytes
  import opened Security

  const HEADER := 8            // PacketHeaderSize
  const PAYLOAD := 10          // dataPayloadOffset: header and data flags
  const MAX_SDU := 2097152
  const TYPE_DATA: byte := 6
  const TYPE_MARKER: byte := 12
  const TYPE_CONTROL: byte := 14

  /** A packet's payload: behind the data flags of a DATA packet, behind the header of any other. */
  function PayloadOf(f: seq<byte>): seq<byte>
    requires |f| >= HEADER && (f[4] == TYPE_DATA ==> |f| >= PAYLOAD)
  {
    if f[4] == TYPE_DATA then f[PAYLOAD..] else f[HEADER..]
  }

  /** A packet as read: its whole buffer, header included. */
  datatype Packet = Packet(buf: seq<byte>) {
    predicate Framed() { |buf| >= HEADER }
    function Type(): byte requires Framed() { buf[4] }
  }

  function LengthField(full: bool, n: nat): (bs: seq<byte>)
    ensures |bs| == if full then 4 else 2
  {
    if full then BE(n, 4) else BE(n, 2)
  }

  function DeclaredLength(full: bool, f: seq<byte>): nat
    requires |f| >= HEADER
  {
    if full then FromBE(f[..4]) else FromBE(f[..2])
  }

  /** f with its length field set to its length, as the last step of WritePacket does it. */
  function WithLengthField(full: bool, f: seq<byte>): (g: seq<byte>)
    requires |f| >= HEADER
    ensures |g| == |f| && g[4..] == f[4..]
  {
    var field := LengthField(full, |f|);
    field + f[|field|..]
  }

  predicate FitsLengthField(full: bool, n: nat) {
    if full then n <= 4 * MAX_SDU else n < 0x1_0000
  }

  lemma LengthFieldTellsLength(full: bool, f: seq<byte>)
    requires |f| >= HEADER && FitsLengthField(full, |f|)
    ensures DeclaredLength(full, WithLengthField(full, f)) == |f|
  {
    assert Pow256(2) == 0x1_0000;
    assert Pow256(3) == 0x100_0000;
    assert Pow256(4) == 0x1_0000_0000;
    var field := LengthField(full, |f|);
    BERoundTrip(|f|, |field|);
    assert WithLengthField(full, f)[..|field|] == field;
  }

  // ---- protection ----

  predicate IsProtected(a: Algorithms, h: HashState, f: seq<byte>)
    requires |f| >= HEADER
  {
    Active(a, h) && f[4] == TYPE_DATA && |f| >= PAYLOAD
  }

  /** WritePacket's transformation of one packet. */
  function Protect(a: Algorithms, h: HashState, full: bool, f: seq<byte>): (r: (HashState, seq<byte>))
    requires |f| >= HEADER
  {
    if IsProtected(a, h, f) then
      var (h', wrapped) := Wrap(a, h, f[PAYLOAD..]);
      (h', WithLengthField(full, f[..PAYLOAD] + wrapped))
    else (h, f)
  }

  /** ReadPacket's transformation back; it needs at least two payload bytes to bother. */
  function Unprotect(a: Algorithms, h: HashState, f: seq<byte>): (r: Option<(HashState, seq<byte>)>)
    requires |f| >= HEADER
    ensures r.Some? ==> |r.value.1| >= HEADER
  {
    if Active(a, h) && f[4] == TYPE_DATA && |f| > PAYLOAD + 1 then
      match Unwrap(a, h, f[PAYLOAD..])
      case None => None
      case Some((h', plain)) => Some((h', f[..PAYLOAD] + plain))
    else Some((h, f))
  }

  /** What the byte stream holds next. */
  datatype Incoming = Closed | BadSize | Frame(f: seq<byte>, rest: seq<byte>)

  function NextFrame(full: bool, s: seq<byte>): (r: Incoming)
    ensures r.Frame? ==> |r.f| >= HEADER && |r.rest| < |s|
  {
    if |s| < HEADER then Closed
    else
      var size := DeclaredLength(full, s[..HEADER]);
      if size < HEADER || size > 4 * MAX_SDU then BadSize
      else if |s| < size then Closed
      else Frame(s[..size], s[size..])
  }

  predicate AllFramed(ps: seq<Packet>) {
    forall k :: 0 <= k < |ps| ==> ps[k].Framed()
  }

  /** The packets ReadPacket will deliver from a byte stream before it fails. */
  function Arriving(a: Algorithms, h: HashState, full: bool, s: seq<byte>): (ps: seq<Packet>)
    ensures AllFramed(ps)
    decreases |s|
  {
    match NextFrame(full, s)
    case Closed => []
    case BadSize => []
    case Frame(f, rest) =>
      match Unprotect(a, h, f)
      case None => []
      case Some((h', g)) => [Packet(g)] + Arriving(a, h', full, rest)
  }

  /** All packets of a sender, protected one after the other. */
  function ProtectAll(a: Algorithms, h: HashState, full: bool, fs: seq<seq<byte>>): (r: (HashState, seq<seq<byte>>))
    requires forall k :: 0 <= k < |fs| ==> |fs[k]| >= HEADER
    ensures |r.1| == |fs|
  {
    if fs == [] then (h, [])
    else
      var (h', out) := ProtectAll(a, h, full, fs[..|fs| - 1]);
      var (h'', f) := Protect(a, h', full, fs[|fs| - 1]);
      (h'', out + [f])
  }

  /** A packet as the write buffer builds it: its length field is right, a DATA packet has its flags. */
  predicate WellFormed(full: bool, f: seq<byte>) {
    |f| >= HEADER && DeclaredLength(full, f) == |f| && (f[4] == TYPE_DATA ==> |f| >= PAYLOAD)
  }

  /** Room for the protection: the write buffer's size limit guarantees it. */
  predicate LeavesRoom(a: Algorithms, h: HashState, full: bool, f: seq<byte>) {
    FitsLengthField(full, |f| + Overhead(a, h))
  }

  /** A protected packet is no longer than the packet plus the overhead, and long enough to be unprotected. */
  lemma ProtectSize(a: Algorithms, h: HashState, full: bool, f: seq<byte>)
    requires Sound(a) && |f| >= HEADER
    ensures |Protect(a, h, full, f).1| <= |f| + Overhead(a, h)
    ensures IsProtected(a, h, f) ==> |Protect(a, h, full, f).1| > PAYLOAD + 1
  {
    if IsProtected(a, h, f) { WrapSize(a, h, f[PAYLOAD..]); }
  }

  /**
   * A packet within a buffer that leaves room for the overhead stays within the SDU once protected,
   * and its rewritten length field tells its real length.
   */
  lemma ProtectedPacketFits(a: Algorithms, h: HashState, full: bool, f: seq<byte>, maxSize: nat, sdu: nat)
    requires Sound(a) && WellFormed(full, f) && |f| <= maxSize
    requires maxSize + Overhead(a, h) == sdu && FitsLengthField(full, sdu)
    ensures var g := Protect(a, h, full, f).1;
            HEADER <= |g| <= sdu && DeclaredLength(full, g) == |g| && g[4] == f[4]
  {
    ProtectSize(a, h, full, f);
    if IsProtected(a, h, f) {
      var wrapped := Wrap(a, h, f[PAYLOAD..]).1;
      LengthFieldTellsLength(full, f[..PAYLOAD] + wrapped);
      RelabelledParts(full, f, wrapped);
    }
  }

  lemma DeclaredInPrefix(full: bool, f: seq<byte>, rest: seq<byte>)
    requires |f| >= HEADER
    ensures DeclaredLength(full, (f + rest)[..HEADER]) == DeclaredLength(full, f)
  {
    var s := f + rest;
    assert s[..HEADER][..4] == f[..4];
    assert s[..HEADER][..2] == f[..2];
  }

  lemma FrameIsFound(full: bool, f: seq<byte>, rest: seq<byte>)
    requires |f| >= HEADER && DeclaredLength(full, f) == |f| <= 4 * MAX_SDU
    ensures NextFrame(full, f + rest) == Frame(f, rest)
  {
    DeclaredInPrefix(full, f, rest);
    Split(f, rest);
  }

  /** Relabelling the length touches neither type nor payload. */
  lemma RelabelledParts(full: bool, f: seq<byte>, wrapped: seq<byte>)
    requires |f| >= PAYLOAD
    ensures var g := WithLengthField(full, f[..PAYLOAD] + wrapped);
            |g| == PAYLOAD + |wrapped| && g[4] == f[4] && g[PAYLOAD..] == wrapped
            && |g[..PAYLOAD] + f[PAYLOAD..]| == |f| && (g[..PAYLOAD] + f[PAYLOAD..])[4..] == f[4..]
  {
    var u := f[..PAYLOAD] + wrapped;
    var g := WithLengthField(full, u);
    assert forall k :: 4 <= k < |g| ==> g[k] == g[4..][k - 4] == u[4..][k - 4] == u[k];
  }

  /** One packet over the wire: found by its length field, unprotected to what was sent. */
  lemma PacketTravels(a: Algorithms, sender: HashState, receiver: HashState, full: bool, f: seq<byte>, rest: seq<byte>)
    requires Sound(a) && WellFormed(full, f) && LeavesRoom(a, sender, full, f)
    requires sender.out == receiver.inn && sender.gen == receiver.gen
    ensures var (sender', g) := Protect(a, sender, full, f);
            NextFrame(full, g + rest) == Frame(g, rest)
            && var u := Unprotect(a, receiver, g);
            u.Some? && u.value.0 == receiver.(inn := sender'.out)
            && |u.value.1| == |f| && u.value.1[4..] == f[4..]
  {
    var g := Protect(a, sender, full, f).1;
    ProtectSize(a, sender, full, f);
    if IsProtected(a, sender, f) {
      var wrapped := Wrap(a, sender, f[PAYLOAD..]).1;
      RelabelledParts(full, f, wrapped);
      UnwrapUndoesWrap(a, sender, receiver, f[PAYLOAD..]);
      LengthFieldTellsLength(full, f[..PAYLOAD] + wrapped);
    }
    FrameIsFound(full, g, rest);
  }

  /** The received packets carry what was sent; only a rewritten length field may differ. */
  predicate SameContents(ps: seq<Packet>, fs: seq<seq<byte>>) {
    |ps| == |fs| && forall k :: 0 <= k < |fs| ==> |ps[k].buf| == |fs[k]| >= HEADER && ps[k].buf[4..] == fs[k][4..]
  }

  ghost predicate Sendable(a: Algorithms, h: HashState, full: bool, fs: seq<seq<byte>>) {
    forall k :: 0 <= k < |fs| ==> WellFormed(full, fs[k]) && LeavesRoom(a, h, full, fs[k])
  }

  lemma ProtectKeepsKind(a: Algorithms, h: HashState, full: bool, f: seq<byte>)
    requires |f| >= HEADER
    ensures var h' := Protect(a, h, full, f).0;
            h'.gen == h.gen && h'.inn == h.inn && Overhead(a, h') == Overhead(a, h)
  {
  }

  /** What is sent depends on the key generator and the sending lane alone. */
  lemma ProtectAlike(a: Algorithms, h: HashState, k: HashState, full: bool, f: seq<byte>)
    requires |f| >= HEADER && h.out == k.out && h.gen == k.gen
    ensures var (h', g) := Protect(a, h, full, f);
            var (k', g') := Protect(a, k, full, f);
            g == g' && h'.out == k'.out && h'.gen == k'.gen
  {
  }

  lemma ProtectAllSnoc(a: Algorithms, h: HashState, full: bool, fs: seq<seq<byte>>, f: seq<byte>)
    requires |f| >= HEADER && forall k :: 0 <= k < |fs| ==> |fs[k]| >= HEADER
    ensures var (h', gs) := ProtectAll(a, h, full, fs);
            var (h'', g) := Protect(a, h', full, f);
            ProtectAll(a, h, full, fs + [f]) == (h'', gs + [g])
  {
    hide Protect;
    assert (fs + [f])[..|fs|] == fs && (fs + [f])[|fs|] == f;
  }

  lemma {:induction false} ProtectAllHead(a: Algorithms, h: HashState, full: bool, fs: seq<seq<byte>>)
    requires fs != [] && forall k :: 0 <= k < |fs| ==> |fs[k]| >= HEADER
    ensures var (h1, g) := Protect(a, h, full, fs[0]);
            ProtectAll(a, h, full, fs) == (ProtectAll(a, h1, full, fs[1..]).0, [g] + ProtectAll(a, h1, full, fs[1..]).1)
    decreases |fs|
  {
    var init := fs[..|fs| - 1];
    var g := Protect(a, h, full, fs[0]).1;
    if init == [] {
      assert fs == [fs[0]] && fs[1..] == [];
      assert [] + [g] == [g] + [];
    } else {
      ProtectAllHead(a, h, full, init);
      var tail := fs[1..];
      assert tail[..|tail| - 1] == init[1..] && tail[|tail| - 1] == fs[|fs| - 1];
      var (h1, out) := ProtectAll(a, Protect(a, h, full, fs[0]).0, full, init[1..]);
      var f := Protect(a, h1, full, fs[|fs| - 1]).1;
      assert ([g] + out) + [f] == [g] + (out + [f]);
    }
  }

  lemma ArrivingCons(a: Algorithms, h: HashState, full: bool, s: seq<byte>, g: seq<byte>, rest: seq<byte>, h': HashState, buf: seq<byte>)
    requires |g| >= HEADER && NextFrame(full, s) == Frame(g, rest) && Unprotect(a, h, g) == Some((h', buf))
    ensures Arriving(a, h, full, s) == [Packet(buf)] + Arriving(a, h', full, rest)
  {
  }

  lemma SameContentsCons(buf: seq<byte>, ps: seq<Packet>, f: seq<byte>, fs: seq<seq<byte>>)
    requires SameContents(ps, fs) && |buf| == |f| >= HEADER && buf[4..] == f[4..]
    ensures SameContents([Packet(buf)] + ps, [f] + fs)
  {
  }

  lemma FlattenCons(f: seq<byte>, more: seq<seq<byte>>)
    ensures Flatten([f] + more) == f + Flatten(more)
  {
    FlattenHead([f] + more);
    assert ([f] + more)[1..] == more;
  }

  lemma NothingTravels(a: Algorithms, sender: HashState, receiver: HashState, full: bool)
    ensures SameContents(Arriving(a, receiver, full, Flatten(ProtectAll(a, sender, full, []).1)), [])
  {
  }

  /**
   * Whole connections: whatever packets one end sends, the byte stream of the protected packets
   * is cut back into exactly those packets by a mirrored other end.
   */
  lemma {:induction false} PacketsTravel(a: Algorithms, sender: HashState, receiver: HashState, full: bool, fs: seq<seq<byte>>)
    requires Sound(a) && Sendable(a, sender, full, fs)
    requires sender.out == receiver.inn && sender.gen == receiver.gen
    ensures SameContents(Arriving(a, receiver, full, Flatten(ProtectAll(a, sender, full, fs).1)), fs)
    decreases |fs|
  {
    hide Unprotect, Protect, ProtectAll, Flatten, Arriving, SameContents;
    if fs == [] {
      NothingTravels(a, sender, receiver, full);
    } else {
      var (s1, g) := Protect(a, sender, full, fs[0]);
      ProtectKeepsKind(a, sender, full, fs[0]);
      var more := ProtectAll(a, s1, full, fs[1..]).1;
      assert Flatten(ProtectAll(a, sender, full, fs).1) == g + Flatten(more) by {
        ProtectAllHead(a, sender, full, fs);
        FlattenCons(g, more);
      }
      PacketTravels(a, sender, receiver, full, fs[0], Flatten(more));
      var r1 := receiver.(inn := s1.out);
      var buf := Unprotect(a, receiver, g).value.1;
      ArrivingCons(a, receiver, full, g + Flatten(more), g, Flatten(more), r1, buf);
      PacketsTravel(a, s1, r1, full, fs[1..]);
      SameContentsCons(buf, Arriving(a, r1, full, Flatten(more)), fs[0], fs[1..]);
      assert fs == [fs[0]] + fs[1..];
    }
  }

  lemma {:induction false} ProtectAllKeepsGenerator(a: Algorithms, h: HashState, full: bool, fs: seq<seq<byte>>)
    requires forall k :: 0 <= k < |fs| ==> |fs[k]| >= HEADER
    ensures ProtectAll(a, h, full, fs).0.gen == h.gen
    decreases |fs|
  {
    if fs != [] {
      var init := fs[..|fs| - 1];
      ProtectAllKeepsGenerator(a, h, full, init);
      ProtectKeepsKind(a, ProtectAll(a, h, full, init).0, full, fs[|fs| - 1]);
    }
  }

  lemma SameOverhead(a: Algorithms, h: HashState, g: HashState)
    requires h.gen == g.gen
    ensures Overhead(a, h) == Overhead(a, g)
  {
  }

  /** From number i on, packets are at most n bytes long and their length fields are right. */
  predicate FittingFrom(full: bool, gs: seq<seq<byte>>, i: nat, n: nat) {
    forall k :: i <= k < |gs| ==> HEADER <= |gs[k]| <= n && DeclaredLength(full, gs[k]) == |gs[k]|
  }

  /** Packets within the buffer's limit all stay within the SDU once protected, one after the other. */
  lemma {:induction false} AllProtectedFit(a: Algorithms, h: HashState, full: bool, fs: seq<seq<byte>>, i: nat, maxSize: nat, sdu: nat)
    requires Sound(a) && maxSize + Overhead(a, h) == sdu && FitsLengthField(full, sdu)
    requires forall k :: 0 <= k < |fs| ==> |fs[k]| >= HEADER
    requires forall k :: i <= k < |fs| ==> WellFormed(full, fs[k]) && |fs[k]| <= maxSize
    ensures FittingFrom(full, ProtectAll(a, h, full, fs).1, i, sdu)
    decreases |fs|
  {
    hide Protect, WellFormed, DeclaredLength, Overhead, FitsLengthField, Sound;
    if fs != [] {
      var n := |fs| - 1;
      AllProtectedFit(a, h, full, fs[..n], i, maxSize, sdu);
      ProtectAllKeepsGenerator(a, h, full, fs[..n]);
      SameOverhead(a, h, ProtectAll(a, h, full, fs[..n]).0);
      if i <= n {
        ProtectedPacketFits(a, ProtectAll(a, h, full, fs[..n]).0, full, fs[n], maxSize, sdu);
      }
    }
  }

  // ---- the connection object ----

  /** The negotiated protection of a session. With neither cipher nor hash it is inactive. */
  class Session {
    var algs: Algorithms
    const role: Role
    var state: HashState

    constructor (algs: Algorithms, role: Role, state: HashState)
      ensures this.algs == algs && this.role == role && this.state == state
    {
      this.algs, this.role, this.state := algs, role, state;
    }

    /** What was negotiated takes effect. */
    method Install(algs: Algorithms, state: HashState)
      modifies `algs, `state
      ensures this.algs == algs && this.state == state
    {
      this.algs, this.state := algs, state;
    }

    method WrapPayload(payload: seq<byte>) returns (data: seq<byte>)
      modifies `state
      ensures (state, data) == Wrap(algs, old(state), payload)
    {
      var out := payload;
      if HasHash(state) {
        var (lane, mac) := Compute(algs, state.out, payload);
        state := state.(out := lane);
        out := payload + mac;
      } else {
        assert payload + [] == payload;
      }
      if algs.hasCipher {
        out := Encrypt(algs, out);
      }
      data := out + [0];
    }

    method UnwrapPayload(data: seq<byte>) returns (r: Option<seq<byte>>)
      modifies `state
      ensures match Unwrap(algs, old(state), data)
              case None => r == None
              case Some((h, plain)) => r == Some(plain) && state == h
      ensures state.out == old(state.out) && state.gen == old(state.gen)
    {
      if |data| < 1 {
        return None;
      }
      var out := data[..|data| - 1];
      if algs.hasCipher {
        var plain := Decrypt(algs, out);
        if plain.None? {
          return None;
        }
        out := plain.value;
      }
      if HasHash(state) {
        var v := Validate(algs, state.inn, out);
        if v.None? {
          return None;
        }
        state := state.(inn := v.value.0);
        out := v.value.1;
      }
      return Some(out);
    }

    /** Re-initialises the keystreams after a marker reset. */
    method ResetKeystream()
      modifies `state
      ensures state == Reset(algs, role, old(state))
    {
      state := Reset(algs, role, state);
    }
  }

  /** Copies s into a at off. */
  method CopyInto(a: array<byte>, off: nat, s: seq<byte>)
    requires off + |s| <= a.Length
    modifies a
    ensures a[off..off + |s|] == s
    ensures forall k :: (0 <= k < off || off + |s| <= k < a.Length) ==> a[k] == old(a[k])
  {
    var k := 0;
    while k < |s|
      invariant 0 <= k <= |s|
      invariant forall j :: (0 <= j < off || off + |s| <= j < a.Length) ==> a[j] == old(a[j])
      invariant forall j :: 0 <= j < k ==> a[off + j] == s[j]
    {
      a[off + k] := s[k];
      k := k + 1;
    }
  }

  class Transport {
    const session: Session
    var closed: bool
    var fullPacketSize: bool
    var capacity: nat              // packets the socket still takes before it breaks
    var outgoing: seq<byte>        // bytes written to the socket
    var incoming: seq<byte>        // bytes the peer has sent and will send
    ghost var plain: seq<seq<byte>>  // packets written since the keystream was last (re-)initialised
    ghost var origin: HashState      // the protection state then
    ghost var earlier: seq<byte>     // the bytes on the wire then

    constructor (session: Session, full: bool, capacity: nat, incoming: seq<byte>)
      ensures !closed && this.session == session && fullPacketSize == full && this.capacity == capacity
      ensures this.incoming == incoming && outgoing == [] && plain == []
      ensures origin == session.state && earlier == [] && Wired()
    {
      closed, fullPacketSize, this.session, this.capacity := false, full, session, capacity;
      this.incoming, outgoing, plain := incoming, [], [];
      origin, earlier := session.state, [];
    }

    /** The bytes on the wire are the written packets, protected one after the other. */
    ghost predicate Wired()
      reads this, session
    {
      (forall k :: 0 <= k < |plain| ==> |plain[k]| >= HEADER)
      && var (h, gs) := ProtectAll(session.algs, origin, fullPacketSize, plain);
         outgoing == earlier + Flatten(gs) && h.out == session.state.out && h.gen == session.state.gen
    }

    /** The packets the connection will still deliver. */
    ghost function Coming(): (ps: seq<Packet>)
      reads this, session
      ensures AllFramed(ps)
    {
      if closed then [] else Arriving(session.algs, session.state, fullPacketSize, incoming)
    }

    /** The packet with its DATA payload protected and its length field rewritten, built in a fresh buffer. */
    method ProtectPacket(data: seq<byte>) returns (frame: seq<byte>)
      requires |data| >= HEADER
      modifies session`state
      ensures (session.state, frame) == Protect(session.algs, old(session.state), fullPacketSize, data)
    {
      if !Active(session.algs, session.state) || data[4] != TYPE_DATA || |data| < PAYLOAD {
        return data;
      }
      var wrapped := session.WrapPayload(data[PAYLOAD..]);
      var nb := new byte[PAYLOAD + |wrapped|](_ => 0);
      CopyInto(nb, 0, data[..PAYLOAD]);
      assert nb[0..0 + PAYLOAD] == data[..PAYLOAD];
      CopyInto(nb, PAYLOAD, wrapped);
      ghost var unlabelled := data[..PAYLOAD] + wrapped;
      assert nb[..PAYLOAD] == data[..PAYLOAD] by { assert nb[..PAYLOAD] == nb[0..0 + PAYLOAD]; }
      assert nb[PAYLOAD..] == wrapped by { assert nb[PAYLOAD..] == nb[PAYLOAD..PAYLOAD + |wrapped|]; }
      assert nb[..] == unlabelled;
      var n := if fullPacketSize then 4 else 2;
      PutBE(nb, 0, nb.Length, n);
      assert nb[..] == nb[0..0 + n] + unlabelled[n..];
      assert nb[..] == WithLengthField(fullPacketSize, unlabelled);
      frame := nb[..];
    }

    /** Writes one packet. */
    method WritePacket(data: seq<byte>) returns (ok: bool)
      requires |data| >= HEADER
      modifies `closed, `capacity, `outgoing, `plain, session`state
      ensures ok ==> !old(closed) && !closed && plain == old(plain) + [data]
      ensures ok ==> (session.state, outgoing) == var (h, f) := Protect(session.algs, old(session.state), fullPacketSize, data);
                                                  (h, old(outgoing) + f)
      ensures !ok ==> closed && outgoing == old(outgoing) && plain == old(plain)
      ensures session.state.inn == old(session.state.inn) && session.state.gen == old(session.state.gen)
      ensures ok && old(Wired()) ==> Wired()
    {
      hide ProtectAll, Flatten, Protect;
      if closed {
        return false;
      }
      ghost var start := session.state;
      ghost var wired := Wired();
      ProtectKeepsKind(session.algs, start, fullPacketSize, data);
      var frame := ProtectPacket(data);
      if capacity == 0 {
        closed := true;
        return false;
      }
      capacity := capacity - 1;
      if wired { StaysWired(session.algs, start, fullPacketSize, plain, data); }
      outgoing := outgoing + frame;
      plain := plain + [data];
      return true;
    }

    lemma StaysWired(a: Algorithms, now: HashState, full: bool, fs: seq<seq<byte>>, f: seq<byte>)
      requires |f| >= HEADER && forall k :: 0 <= k < |fs| ==> |fs[k]| >= HEADER
      requires var (h, gs) := ProtectAll(a, origin, full, fs);
               outgoing == earlier + Flatten(gs) && h.out == now.out && h.gen == now.gen
      ensures var (h, gs) := ProtectAll(a, origin, full, fs + [f]);
              var (now', g) := Protect(a, now, full, f);
              outgoing + g == earlier + Flatten(gs) && h.out == now'.out && h.gen == now'.gen
    {
      hide *;
      var (h, gs) := ProtectAll(a, origin, full, fs);
      var g := Protect(a, now, full, f).1;
      ProtectAllSnoc(a, origin, full, fs, f);
      ProtectAlike(a, h, now, full, f);
      FlattenSnoc(gs, g);
      assert earlier + (Flatten(gs) + g) == earlier + Flatten(gs) + g;
    }

    /** What was negotiated protects all DATA packets from here on. */
    method SetSecurity(algs: Algorithms, state: HashState)
      modifies session`algs, session`state, `plain, `origin, `earlier
      ensures session.algs == algs && session.state == state
      ensures Wired() && plain == [] && earlier == outgoing && origin == state
    {
      session.Install(algs, state);
      plain, origin, earlier := [], state, outgoing;
    }

    /** Re-initialises the keystreams at a marker reset; what follows on the wire is counted from here. */
    method ResetSecurity()
      modifies session`state, `plain, `origin, `earlier
      ensures session.state == Reset(session.algs, session.role, old(session.state))
      ensures Wired() && plain == [] && earlier == outgoing && origin == session.state
    {
      session.ResetKeystream();
      plain, origin, earlier := [], session.state, outgoing;
    }

    /** Reads one complete packet and unprotects it. */
    method ReadPacket() returns (r: Option<Packet>)
      modifies `closed, `incoming, session`state
      ensures session.state.out == old(session.state.out) && session.state.gen == old(session.state.gen)
      ensures old(Wired()) ==> Wired()
      ensures if old(Coming()) == [] then r == None && closed
              else r == Some(old(Coming())[0]) && Coming() == old(Coming())[1..] && !closed
    {
      hide ProtectAll, Flatten, DeclaredLength, Unwrap;
      if closed {
        return None;
      }
      if |incoming| < HEADER {
        closed := true;
        return None;
      }
      var hdr := incoming[..HEADER];
      var size := DeclaredLength(fullPacketSize, hdr);
      if size < HEADER || size > 4 * MAX_SDU || |incoming| < size {
        closed := true;
        return None;
      }
      var buf := incoming[..size];
      incoming := incoming[size..];
      if Active(session.algs, session.state) && buf[4] == TYPE_DATA && |buf| > PAYLOAD + 1 {
        var plain := session.UnwrapPayload(buf[PAYLOAD..]);
        if plain.None? {
          closed := true;
          return None;
        }
        buf := buf[..PAYLOAD] + plain.value;
      }
      return Some(Packet(buf));
    }
  }
}
