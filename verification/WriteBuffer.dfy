// WriteBuffer: typed values laid into packets no larger than the SDU allows.
module RequestWriter {
  import opened Bytes
  import opened TtcValues
  import opened Security
  import opened Tns

  const MIN_SIZE := 18   // header, data flags and the widest fixed-size value

  predicate AllWellFormed(full: bool, fs: seq<seq<byte>>) {
    forall k :: 0 <= k < |fs| ==> WellFormed(full, fs[k])
  }

  /** Payload bytes of consecutive packets. */
  function Payloads(full: bool, fs: seq<seq<byte>>): seq<byte>
    requires AllWellFormed(full, fs)
  {
    if fs == [] then []
    else
      assert WellFormed(full, fs[|fs| - 1]);
      Payloads(full, fs[..|fs| - 1]) + PayloadOf(fs[|fs| - 1])
  }

  lemma PayloadsSnoc(full: bool, fs: seq<seq<byte>>, f: seq<byte>)
    requires AllWellFormed(full, fs) && WellFormed(full, f)
    ensures AllWellFormed(full, fs + [f])
    ensures Payloads(full, fs + [f]) == Payloads(full, fs) + PayloadOf(f)
  {
    assert (fs + [f])[..|fs|] == fs;
  }

  /** One more packet since packet number base. */
  lemma OneMorePacket(full: bool, before: seq<seq<byte>>, base: nat, f: seq<byte>)
    requires base <= |before| && AllWellFormed(full, before[base..]) && WellFormed(full, f)
    ensures AllWellFormed(full, (before + [f])[base..])
    ensures Payloads(full, (before + [f])[base..]) == Payloads(full, before[base..]) + PayloadOf(f)
  {
    PayloadsSnoc(full, before[base..], f);
    assert (before + [f])[base..] == before[base..] + [f];
  }

  lemma TwoBytesLE(v: nat)
    requires v < 0x1_0000
    ensures LE(v, 2) == [v % 256, v / 256]
  {
    assert LE(v / 256, 1) == [v / 256] by { assert LE(v / 256 / 256, 0) == []; }
  }

  class WriteBuffer {
    const transport: Transport
    const largeSDU: bool           // protocol version 315 and later
    var data: array<byte>
    var pos: nat
    var maxSize: nat
    var packetType: byte
    var packetFlags: byte
    var dataFlags: nat
    var seqNum: byte
    var packetSent: bool
    var failed: bool               // the sticky error
    ghost var base: nat            // packets on the wire when the request started

    /** Where a packet's payload starts. */
    function Start(): nat
      reads `packetType
    {
      if packetType == TYPE_DATA then PAYLOAD else HEADER
    }

    /** Buffer and limits: a full packet still fits its length field once protected. */
    ghost predicate Basic()
      reads this, data, transport, transport.session
    {
      MIN_SIZE <= maxSize <= data.Length
      && transport.fullPacketSize == largeSDU
      && FitsLengthField(largeSDU, maxSize + Overhead(transport.session.algs, transport.session.state))
      && dataFlags < 0x1_0000
      && (transport.closed || transport.Wired())
      && (failed ==> transport.closed)
    }

    /** Sending moves neither the key generator nor the receiving lane. */
    ghost predicate ReceivingSideKept(was: HashState)
      reads transport.session
    {
      transport.session.state.gen == was.gen && transport.session.state.inn == was.inn
    }

    /** Type, flags and unused bytes of a packet; behind the header of a DATA packet come its data flags. */
    ghost predicate Labelled(f: seq<byte>)
      reads `packetType, `packetFlags, `dataFlags
    {
      |f| >= 8 && f[4] == packetType && f[5] == packetFlags && f[6] == f[7] == 0
      && (!largeSDU ==> f[2] == f[3] == 0)
      && (packetType == 6 ==> |f| >= 10 && f[8] == dataFlags / 256 && f[9] == dataFlags % 256)
    }

    ghost predicate FrameOk(f: seq<byte>)
      reads `packetType, `packetFlags, `dataFlags, `maxSize
    {
      WellFormed(largeSDU, f) && |f| <= maxSize && Labelled(f)
    }

    /** The request's packets so far are well formed and within the limit, and not empty unless that is allowed. */
    ghost predicate SentFrames(mayBeEmpty: bool)
      reads this, transport
    {
      base <= |transport.plain|
      && forall k :: base <= k < |transport.plain| ==>
           FrameOk(transport.plain[k]) && (mayBeEmpty || PayloadOf(transport.plain[k]) != [])
    }

    /** Payload bytes of the request's packets. */
    ghost function SentBytes(): seq<byte>
      reads this, transport
      requires SentFrames(true)
    {
      assert forall f :: f in transport.plain[base..] ==> WellFormed(largeSDU, f);
      Payloads(largeSDU, transport.plain[base..])
    }

    ghost predicate Writable()
      reads this, data, transport, transport.session
    {
      Basic() && (!failed ==> Start() <= pos <= maxSize && SentFrames(false))
    }

    /** Between writes the pending packet is empty only if nothing was written at all. */
    ghost predicate Valid()
      reads this, data, transport, transport.session
    {
      Writable() && (!failed && pos == Start() ==> |transport.plain| == base)
    }

    /** Everything this request has written: packets on the wire, then the pending payload. */
    ghost function Stream(): seq<byte>
      reads this, data, transport, transport.session
      requires Writable() && !failed
    {
      SentBytes() + data[Start()..pos]
    }

    constructor (transport: Transport, sdu: nat)
      requires sdu - Overhead(transport.session.algs, transport.session.state) >= MIN_SIZE
      requires FitsLengthField(transport.fullPacketSize, sdu) && transport.Wired()
      ensures this.transport == transport && Basic() && fresh(data) && largeSDU == transport.fullPacketSize
      ensures maxSize + Overhead(transport.session.algs, transport.session.state) == sdu
    {
      this.transport, largeSDU := transport, transport.fullPacketSize;
      var n: nat := sdu - Overhead(transport.session.algs, transport.session.state);
      data := new byte[n](_ => 0);
      maxSize, pos, failed, packetSent := n, HEADER, false, false;
      packetType, packetFlags, dataFlags, seqNum, base := TYPE_DATA, 0, 0, 0, 0;
    }

    /** Resizes the buffer to the negotiated SDU, leaving room for the protection now in force. */
    method SizeForSDU(sdu: nat)
      requires sdu - Overhead(transport.session.algs, transport.session.state) >= MIN_SIZE
      requires transport.fullPacketSize == largeSDU && FitsLengthField(largeSDU, sdu) && dataFlags < 0x1_0000
      requires transport.closed || (transport.Wired() && !failed)
      modifies `data, `maxSize
      ensures Basic() && maxSize + Overhead(transport.session.algs, transport.session.state) == sdu
      ensures data == old(data) || fresh(data)
    {
      maxSize := sdu - Overhead(transport.session.algs, transport.session.state);
      if data.Length < maxSize {
        data := new byte[maxSize](_ => 0);
      }
    }

    /**
     * negotiateANO: once the protection is installed the buffer shrinks by its overhead. What is on
     * the wire so far was written without it, so the record of protected packets starts afresh.
     */
    method InstallSecurity(algs: Algorithms, state: HashState, sdu: nat)
      requires sdu - Overhead(algs, state) >= MIN_SIZE
      requires Basic() && FitsLengthField(largeSDU, sdu)
      modifies `data, `maxSize, transport`plain, transport`origin, transport`earlier, transport.session`algs, transport.session`state
      ensures Basic() && maxSize + Overhead(transport.session.algs, transport.session.state) == sdu
      ensures transport.session.algs == algs && transport.session.state == state
      ensures data == old(data) || fresh(data)
    {
      transport.SetSecurity(algs, state);
      SizeForSDU(sdu);
    }

    method StartRequest(packetType: byte, packetFlags: byte, dataFlags: nat)
      requires Basic() && dataFlags < 0x1_0000
      modifies this
      ensures Valid() && !failed && Stream() == [] && this.packetType == packetType
      ensures data == old(data) && maxSize == old(maxSize) && base == |transport.plain|
    {
      failed, packetSent := false, false;
      this.packetType, this.packetFlags := packetType, packetFlags;
      pos := HEADER;
      if packetType == TYPE_DATA {
        this.dataFlags := dataFlags;
        pos := pos + 2;
      }
      base := |transport.plain|;
    }

    /** Fills in the header of the pending packet. */
    method FillHeader()
      requires HEADER <= Start() <= pos <= data.Length && FitsLengthField(largeSDU, pos) && dataFlags < 0x1_0000
      modifies data
      ensures data[Start()..pos] == old(data[Start()..pos])
      ensures WellFormed(largeSDU, data[..pos]) && data[4] == packetType && Labelled(data[..pos])
    {
      hide BE, LengthField;
      ghost var payload := data[Start()..pos];
      if packetType == TYPE_DATA {
        PutBE(data, 8, dataFlags, 2);
        TwoBytes(data, 8, dataFlags);
      }
      PutBE(data, 6, 0, 2);
      TwoBytes(data, 6, 0);
      data[4], data[5] := packetType, packetFlags;
      PutLength(pos);
      assert forall k :: 0 <= k < |payload| ==> data[Start() + k] == payload[k];
      assert data[Start()..pos] == payload;
    }

    lemma TwoBytes(a: array<byte>, off: nat, v: nat)
      requires off + 2 <= a.Length && v < 0x1_0000 && a[off..off + 2] == BE(v, 2)
      ensures a[off] == v / 256 && a[off + 1] == v % 256
    {
      hide BE;
      BEBytes(v);
      assert a[off] == a[off..off + 2][0] && a[off + 1] == a[off..off + 2][1];
    }

    /** The length field: four bytes, or two and two zero bytes. */
    method PutLength(size: nat)
      requires HEADER <= size <= data.Length && FitsLengthField(largeSDU, size)
      modifies data
      ensures forall k :: 4 <= k < data.Length ==> data[k] == old(data[k])
      ensures DeclaredLength(largeSDU, data[..size]) == size && (!largeSDU ==> data[2] == data[3] == 0)
    {
      if largeSDU {
        PutBE(data, 0, size, 4);
        assert data[..size][..4] == data[0..0 + 4];
      } else {
        PutBE(data, 2, 0, 2);
        TwoBytes(data, 2, 0);
        PutBE(data, 0, size, 2);
        assert data[..size][..2] == data[0..0 + 2];
      }
      DeclaredByField(data[..size]);
    }

    lemma DeclaredByField(f: seq<byte>)
      requires |f| >= HEADER && FitsLengthField(largeSDU, |f|)
      requires f[..if largeSDU then 4 else 2] == LengthField(largeSDU, |f|)
      ensures DeclaredLength(largeSDU, f) == |f|
    {
      LengthFieldTellsLength(largeSDU, f);
      var n := if largeSDU then 4 else 2;
      assert WithLengthField(largeSDU, f)[..n] == f[..n];
    }

    lemma PayloadOfPending()
      requires HEADER <= Start() <= pos <= data.Length && data[4] == packetType && WellFormed(largeSDU, data[..pos])
      ensures PayloadOf(data[..pos]) == data[Start()..pos] && data[..pos][4] == packetType
    {
    }

    /** Sends the pending packet and starts the next one. */
    method SendPacket(final: bool)
      requires Writable() && !failed
      modifies `pos, `failed, `packetSent, data, transport`closed, transport`capacity, transport`outgoing, transport`plain, transport.session`state
      ensures Basic()
      ensures ReceivingSideKept(old(transport.session.state))
      ensures failed ==> transport.plain == old(transport.plain)
      ensures !failed ==> !transport.closed && pos == (if final then HEADER else Start())
      ensures !failed ==> |transport.plain| == |old(transport.plain)| + 1 && old(transport.plain) <= transport.plain
      ensures !failed ==> FrameOk(transport.plain[|old(transport.plain)|])
      ensures !failed ==> PayloadOf(transport.plain[|old(transport.plain)|]) == old(data[Start()..pos])
    {
      hide DeclaredLength, BE, PayloadOf, WellFormed, Protect, ProtectAll, Flatten;
      FillHeader();
      var f := data[..pos];
      PayloadOfPending();
      var ok := transport.WritePacket(f);
      if !ok {
        failed := true;
        return;
      }
      packetSent := true;
      pos := HEADER;
      if !final && packetType == TYPE_DATA {
        pos := pos + 2;
      }
    }

    /** A non-final send of a non-empty packet keeps the stream. */
    method Flush()
      requires Writable() && !failed && pos > Start()
      modifies `pos, `failed, `packetSent, data, transport`closed, transport`capacity, transport`outgoing, transport`plain, transport.session`state
      ensures Writable()
      ensures ReceivingSideKept(old(transport.session.state))
      ensures failed ==> transport.plain == old(transport.plain)
      ensures !failed ==> pos == Start() && Stream() == old(Stream())
    {
      hide DeclaredLength, BE, WellFormed, PayloadOf, ProtectAll, Flatten, FitsLengthField, Overhead;
      ghost var before := transport.plain;
      SendPacket(false);
      if !failed {
        ghost var f := transport.plain[|before|];
        assert transport.plain == before + [f];
        assert AllWellFormed(largeSDU, before[base..]);
        OneMorePacket(largeSDU, before, base, f);
      }
    }

    /** Makes room for n more bytes. */
    method Ensure(n: nat) returns (ok: bool)
      requires Valid() && 0 < n <= 8
      modifies `pos, `failed, `packetSent, data, transport`closed, transport`capacity, transport`outgoing, transport`plain, transport.session`state
      ensures Writable() && ok == !failed
      ensures ReceivingSideKept(old(transport.session.state))
      ensures old(failed) ==> failed && transport.plain == old(transport.plain)
      ensures ok ==> pos + n <= maxSize && Stream() == old(Stream())
    {
      if failed {
        return false;
      }
      if pos + n > maxSize {
        Flush();
      }
      ok := !failed;
    }

    /** Accounts for n bytes just stored at pos. */
    ghost method Advanced(n: nat, bs: seq<byte>, before: seq<byte>)
      requires Writable() && !failed && pos >= n && n > 0
      requires pos - n >= Start()
      requires data[pos - n..pos] == bs
      requires before == SentBytes() + data[Start()..pos - n]
      ensures Valid() && Stream() == before + bs
    {
      assert data[Start()..pos] == data[Start()..pos - n] + data[pos - n..pos];
      Associate(SentBytes(), data[Start()..pos - n], bs);
    }

    /** Stores bytes behind the pending payload. */
    method Store(bs: seq<byte>)
      requires Start() <= pos && pos + |bs| <= data.Length
      modifies data
      ensures data[Start()..pos] == old(data[Start()..pos]) && data[pos..pos + |bs|] == bs
    {
      CopyInto(data, pos, bs);
    }

    /** Bytes for which there is room go into the pending packet. */
    method CopyPart(b: seq<byte>)
      requires Writable() && !failed && 0 < |b| <= maxSize - pos
      modifies `pos, data
      ensures Valid() && Stream() == old(Stream()) + b
    {
      ghost var before := Stream();
      Store(b);
      pos := pos + |b|;
      Advanced(|b|, b, before);
    }

    method WriteUint8(v: byte)
      requires Valid()
      modifies `pos, `failed, `packetSent, data, transport`closed, transport`capacity, transport`outgoing, transport`plain, transport.session`state
      ensures Valid()
      ensures ReceivingSideKept(old(transport.session.state))
      ensures old(failed) ==> failed && transport.plain == old(transport.plain)
      ensures !failed ==> Stream() == old(Stream()) + [v]
    {
      hide Stream, Writable;
      var ok := Ensure(1);
      if !ok {
        return;
      }
      CopyPart([v]);
    }

    /** WriteUint16BE, WriteUint32BE and WriteUint64BE. */
    method WriteUintBE(v: nat, n: nat)
      requires Valid() && (n == 2 || n == 4 || n == 8)
      modifies `pos, `failed, `packetSent, data, transport`closed, transport`capacity, transport`outgoing, transport`plain, transport.session`state
      ensures Valid()
      ensures ReceivingSideKept(old(transport.session.state))
      ensures old(failed) ==> failed && transport.plain == old(transport.plain)
      ensures !failed ==> Stream() == old(Stream()) + BE(v, n)
    {
      hide Stream, Writable, BE;
      var ok := Ensure(n);
      if !ok {
        return;
      }
      CopyPart(BE(v, n));
    }

    method WriteUint16LE(v: nat)
      requires Valid() && v < 0x1_0000
      modifies `pos, `failed, `packetSent, data, transport`closed, transport`capacity, transport`outgoing, transport`plain, transport.session`state
      ensures Valid()
      ensures ReceivingSideKept(old(transport.session.state))
      ensures old(failed) ==> failed && transport.plain == old(transport.plain)
      ensures !failed ==> Stream() == old(Stream()) + LE(v, 2)
    {
      hide LE, Stream, Writable;
      var ok := Ensure(2);
      if !ok {
        return;
      }
      TwoBytesLE(v);
      CopyPart([v % 256, v / 256]);
    }

    /** WriteUB2, WriteUB4 and WriteUB8: the shortest of the universal forms. */
    method WriteUB(v: uint64)
      requires Valid()
      modifies `pos, `failed, `packetSent, data, transport`closed, transport`capacity, transport`outgoing, transport`plain, transport.session`state
      ensures Valid()
      ensures ReceivingSideKept(old(transport.session.state))
      ensures old(failed) ==> failed && transport.plain == old(transport.plain)
      ensures !failed ==> Stream() == old(Stream()) + EncUB(v)
    {
      hide Stream, Writable;
      if v == 0 {
        WriteUint8(0);
      } else if v <= MAX_U8 {
        WriteSized(1, v, 1);
        OneByteBE(v);
      } else {
        var n := if v <= MAX_U16 then 2 else if v <= MAX_U32 then 4 else 8;
        WriteSized(n, v, n);
      }
    }

    method WriteSB4(v0: int)
      requires Valid() && -0x8000_0000 <= v0 <= 0x7fff_ffff
      modifies `pos, `failed, `packetSent, data, transport`closed, transport`capacity, transport`outgoing, transport`plain, transport.session`state
      ensures Valid()
      ensures ReceivingSideKept(old(transport.session.state))
      ensures old(failed) ==> failed && transport.plain == old(transport.plain)
      ensures !failed ==> Stream() == old(Stream()) + EncSB4(v0)
    {
      hide Stream, Writable;
      var v, sign := v0, 0;
      if v < 0 {
        v := if v == -0x8000_0000 then v else -v;  // int32 negation
        sign := 0x80;
      }
      if v == 0 {
        WriteUint8(0);
      } else if v <= MAX_U8 {
        WriteSized(1 + sign, v % 256, 1);
        OneByteBE(v % 256);
      } else {
        var n := if v <= MAX_U16 then 2 else 4;
        WriteSized(n + sign, v, n);
      }
    }

    /** A length byte and that many bytes. */
    method WriteSized(lead: byte, v: nat, n: nat)
      requires Valid() && (n == 1 || n == 2 || n == 4 || n == 8) && (n == 1 ==> v < 256)
      modifies `pos, `failed, `packetSent, data, transport`closed, transport`capacity, transport`outgoing, transport`plain, transport.session`state
      ensures Valid()
      ensures ReceivingSideKept(old(transport.session.state))
      ensures old(failed) ==> failed && transport.plain == old(transport.plain)
      ensures !failed ==> Stream() == old(Stream()) + ([lead] + BE(v, n))
    {
      hide Stream, Writable;
      ghost var s := if failed then [] else Stream();
      WriteUint8(lead);
      if n == 1 {
        WriteUint8(v);
        OneByteBE(v);
      } else {
        WriteUintBE(v, n);
      }
      Associate(s, [lead], BE(v, n));
    }

    /** One round of WriteRaw: flushes a full packet, or copies as much of b as fits. */
    method WriteSome(b: seq<byte>) returns (n: nat)
      requires Writable() && !failed && |b| > 0
      modifies `pos, `failed, `packetSent, data, transport`closed, transport`capacity, transport`outgoing, transport`plain, transport.session`state
      ensures Writable() && n <= |b|
      ensures ReceivingSideKept(old(transport.session.state))
      ensures n > 0 ==> !failed && Valid()
      ensures n == 0 && !failed ==> pos < old(pos)
      ensures !failed ==> Stream() == old(Stream()) + b[..n]
    {
      var avail := maxSize - pos;
      if avail == 0 {
        Flush();
        n := 0;
      } else {
        n := if |b| > avail then avail else |b|;
        CopyPart(b[..n]);
      }
    }

    /** Raw bytes, split across packets as needed. */
    method WriteRaw(b0: seq<byte>)
      requires Valid()
      modifies `pos, `failed, `packetSent, data, transport`closed, transport`capacity, transport`outgoing, transport`plain, transport.session`state
      ensures Valid()
      ensures ReceivingSideKept(old(transport.session.state))
      ensures old(failed) ==> failed && transport.plain == old(transport.plain)
      ensures !failed ==> Stream() == old(Stream()) + b0
    {
      hide Stream, Basic;
      var k := 0;
      ghost var s := if failed then [] else Stream();
      while k < |b0| && !failed
        invariant 0 <= k <= |b0| && Writable()
        invariant ReceivingSideKept(old(transport.session.state))
        invariant k == |b0| ==> Valid()
        invariant old(failed) ==> failed && transport.plain == old(transport.plain)
        invariant !failed ==> Stream() == s + b0[..k]
        decreases |b0| - k, if failed then 0 else pos
      {
        var n := WriteSome(b0[k..]);
        Associate(s, b0[..k], b0[k..][..n]);
        TakeMore(b0, k, n);
        k := k + n;
      }
      assert k == |b0| ==> b0[..k] == b0;
    }

    /** A value prefixed by its TTC length encoding. */
    method WriteBytesWithLength(b0: seq<byte>)
      requires Valid()
      modifies `pos, `failed, `packetSent, data, transport`closed, transport`capacity, transport`outgoing, transport`plain, transport.session`state
      ensures Valid()
      ensures ReceivingSideKept(old(transport.session.state))
      ensures old(failed) ==> failed && transport.plain == old(transport.plain)
      ensures !failed ==> Stream() == old(Stream()) + EncBytes(b0)
    {
      hide Stream, Writable;
      ghost var s := if failed then [] else Stream();
      if |b0| <= MAX_SHORT_LENGTH {
        WriteUint8(|b0|);
        WriteRaw(b0);
        Associate(s, [|b0|], b0);
        return;
      }
      WriteUint8(LONG_LENGTH);
      WriteChunks(b0);
      Associate(s, [LONG_LENGTH], Chunks(b0));
      WriteUB(0);
      Associate(s, [LONG_LENGTH] + Chunks(b0), [0]);
    }

    /** The chunks of a long value. */
    method WriteChunks(b0: seq<byte>)
      requires Valid()
      modifies `pos, `failed, `packetSent, data, transport`closed, transport`capacity, transport`outgoing, transport`plain, transport.session`state
      ensures Valid()
      ensures ReceivingSideKept(old(transport.session.state))
      ensures old(failed) ==> failed && transport.plain == old(transport.plain)
      ensures !failed ==> Stream() == old(Stream()) + Chunks(b0)
    {
      hide Stream, Writable;
      var b := b0;
      ghost var done: seq<byte> := [];
      ghost var s := if failed then [] else Stream();
      assert s + [] == s && [] + Chunks(b0) == Chunks(b0);
      while |b| > 0
        invariant Valid()
        invariant ReceivingSideKept(old(transport.session.state))
        invariant old(failed) ==> failed && transport.plain == old(transport.plain)
        invariant !failed ==> Stream() == s + done
        invariant done + Chunks(b) == Chunks(b0)
      {
        var c := ChunkLength(b);
        WriteUB(c);
        Associate(s, done, EncUB(c));
        WriteRaw(b[..c]);
        Associate(s, done + EncUB(c), b[..c]);
        Associate(done, EncUB(c), b[..c]);
        Associate(done, EncUB(c) + b[..c], Chunks(b[c..]));
        done := done + (EncUB(c) + b[..c]);
        b := b[c..];
      }
      assert done + [] == done;
    }

    method WriteBytesWithTwoLengths(o: Option<seq<byte>>)
      requires Valid() && InRange(WithTwoLengths(o))
      modifies `pos, `failed, `packetSent, data, transport`closed, transport`capacity, transport`outgoing, transport`plain, transport.session`state
      ensures Valid()
      ensures ReceivingSideKept(old(transport.session.state))
      ensures old(failed) ==> failed && transport.plain == old(transport.plain)
      ensures !failed ==> Stream() == old(Stream()) + Enc(WithTwoLengths(o))
    {
      hide Stream, Writable;
      if o.None? {
        WriteUB(0);
        return;
      }
      ghost var s := if failed then [] else Stream();
      WriteUB(|o.value|);
      if |o.value| > 0 {
        WriteBytesWithLength(o.value);
        Associate(s, EncUB(|o.value|), EncBytes(o.value));
      } else {
        assert EncUB(0) + [] == EncUB(0);
      }
    }

    /** The next request sequence number: 1 to 255, never 0. */
    method WriteSeqNum()
      requires Valid()
      modifies `seqNum, `pos, `failed, `packetSent, data, transport`closed, transport`capacity, transport`outgoing, transport`plain, transport.session`state
      ensures Valid() && (old(failed) ==> failed)
      ensures ReceivingSideKept(old(transport.session.state))
      ensures seqNum == (if old(seqNum) == 255 then 1 else old(seqNum) + 1) && seqNum != 0
      ensures !failed ==> Stream() == old(Stream()) + [seqNum]
    {
      seqNum := (seqNum + 1) % 256;
      if seqNum == 0 {
        seqNum := 1;
      }
      WriteUint8(seqNum);
    }

    /** Any one typed write. */
    method Write(op: Op)
      requires Valid() && InRange(op)
      modifies `pos, `failed, `packetSent, data, transport`closed, transport`capacity, transport`outgoing, transport`plain, transport.session`state
      ensures Valid()
      ensures ReceivingSideKept(old(transport.session.state))
      ensures old(failed) ==> failed && transport.plain == old(transport.plain)
      ensures !failed ==> Stream() == old(Stream()) + Enc(op)
    {
      hide Stream, Writable;
      match op {
        case U8(v) => WriteUint8(v);
        case UB2(v) => WriteUB(v);
        case UB4(v) => WriteUB(v);
        case UB8(v) => WriteUB(v);
        case SB4(v) => WriteSB4(v);
        case U16BE(v) => WriteUintBE(v, 2);
        case U32BE(v) => WriteUintBE(v, 4);
        case U64BE(v) => WriteUintBE(v, 8);
        case U16LE(v) => WriteUint16LE(v);
        case Raw(b) => WriteRaw(b);
        case WithLength(b) => WriteBytesWithLength(b);
        case WithTwoLengths(o) => WriteBytesWithTwoLengths(o);
      }
    }

    /** Sends the final packet, if anything is pending. */
    method Finish()
      requires Valid() && (failed || pos > HEADER)
      modifies `pos, `failed, `packetSent, data, transport`closed, transport`capacity, transport`outgoing, transport`plain, transport.session`state
      ensures Basic() && (old(failed) ==> failed)
      ensures ReceivingSideKept(old(transport.session.state))
      ensures !failed ==> base < |transport.plain| && !transport.closed
      ensures !failed ==> SentFrames(old(Stream()) == []) && SentBytes() == old(Stream())
      ensures !failed && old(Stream()) == [] ==> |transport.plain| == base + 1
    {
      hide DeclaredLength, Payloads, FrameOk, SentFrames, SentBytes;
      if failed {
        return;
      }
      ghost var before := transport.plain;
      StreamEmptyIff();
      SendPacket(true);
      if !failed {
        PacketAdded(before, old(pos) == old(Start()));
      }
    }

    lemma StreamEmptyIff()
      requires Valid() && !failed
      ensures Stream() == [] <==> pos == Start()
      ensures HEADER <= Start() <= pos
      ensures pos == Start() ==> |transport.plain| == base
      ensures base <= |transport.plain| && AllSent(transport.plain, base)
      ensures Stream() == Payloads(largeSDU, transport.plain[base..]) + data[Start()..pos]
    {
      if pos == Start() {
        assert transport.plain[base..] == [];
      }
    }

    /** Packets from number n on are well formed, within the limit and not empty. */
    ghost predicate AllSent(plain: seq<seq<byte>>, n: nat)
      reads `packetType, `packetFlags, `dataFlags, `maxSize
      ensures AllSent(plain, n) ==> n <= |plain| && AllWellFormed(largeSDU, plain[n..])
    {
      n <= |plain| && forall k :: n <= k < |plain| ==> FrameOk(plain[k]) && PayloadOf(plain[k]) != []
    }

    /** One more packet is on the wire than before. */
    lemma PacketAdded(before: seq<seq<byte>>, mayBeEmpty: bool)
      requires AllSent(before, base) && |transport.plain| == |before| + 1 && before <= transport.plain
      requires FrameOk(transport.plain[|before|]) && (mayBeEmpty || PayloadOf(transport.plain[|before|]) != [])
      ensures SentFrames(mayBeEmpty)
      ensures SentBytes() == Payloads(largeSDU, before[base..]) + PayloadOf(transport.plain[|before|])
    {
      var f := transport.plain[|before|];
      assert transport.plain == before + [f];
      OneMorePacket(largeSDU, before, base, f);
    }

    /**
     * Flushes the final packet. Every packet of the request is then well formed and within the limit,
     * their payloads make up exactly what was written, and none is empty unless nothing was written.
     */
    method EndRequest()
      requires Valid() && packetType == TYPE_DATA
      modifies `pos, `failed, `packetSent, data, transport`closed, transport`capacity, transport`outgoing, transport`plain, transport.session`state
      ensures Basic() && (old(failed) ==> failed)
      ensures ReceivingSideKept(old(transport.session.state))
      ensures !failed ==> base < |transport.plain| && !transport.closed
      ensures !failed ==> SentFrames(old(Stream()) == []) && SentBytes() == old(Stream())
      ensures !failed && old(Stream()) == [] ==> |transport.plain| == base + 1
    {
      Finish();
    }

    /** A marker packet; its failure is not reported. */
    method SendMarker(markerType: byte)
      requires Basic()
      modifies this, data, transport`closed, transport`capacity, transport`outgoing, transport`plain, transport.session`state
      ensures Basic() && data == old(data) && (!failed ==> !transport.closed)
      ensures ReceivingSideKept(old(transport.session.state))
      ensures !failed ==> SentFrames(false) && SentBytes() == [1, 0, markerType] && packetType == TYPE_MARKER
    {
      hide Stream, Writable, SentBytes, SentFrames;
      StartRequest(TYPE_MARKER, 0, 0);
      WriteUint8(1);
      WriteUint8(0);
      WriteUint8(markerType);
      if !failed {
        StreamEmptyIff();
      }
      Finish();
    }

    /** Typed writes, one after the other. */
    method WriteAll(ops: seq<Op>)
      requires Valid() && AllInRange(ops)
      modifies `pos, `failed, `packetSent, data, transport`closed, transport`capacity, transport`outgoing, transport`plain, transport.session`state
      ensures Valid() && (old(failed) ==> failed)
      ensures ReceivingSideKept(old(transport.session.state))
      ensures !failed ==> Stream() == old(Stream()) + EncAll(ops)
      decreases |ops|
    {
      hide Stream, Writable;
      if ops == [] {
        assert !failed ==> Stream() + [] == Stream();
        return;
      }
      ghost var s := if failed then [] else Stream();
      Write(ops[0]);
      WriteAll(ops[1..]);
      Associate(s, Enc(ops[0]), EncAll(ops[1..]));
    }

    /** Every packet of the request, as protected and relabelled for the wire, is at most n bytes long and says so. */
    ghost predicate OnWireWithin(n: nat)
      reads this, transport, transport.session
      requires transport.Wired()
    {
      FittingFrom(largeSDU, ProtectAll(transport.session.algs, transport.origin, largeSDU, transport.plain).1, base, n)
    }

    lemma AllOnWireFit(mayBeEmpty: bool)
      requires Basic() && !transport.closed && SentFrames(mayBeEmpty) && Sound(transport.session.algs)
      ensures OnWireWithin(maxSize + Overhead(transport.session.algs, transport.session.state))
    {
      hide ProtectAll, Payloads, PayloadOf;
      var a, h := transport.session.algs, transport.origin;
      ProtectAllKeepsGenerator(a, h, largeSDU, transport.plain);
      AllProtectedFit(a, h, largeSDU, transport.plain, base, maxSize, maxSize + Overhead(a, h));
    }

    /** A whole request of typed writes: in particular no packet on the wire is longer than the SDU the buffer was sized for. */
    method Request(ops: seq<Op>, dataFlags: nat)
      requires Basic() && dataFlags < 0x1_0000 && AllInRange(ops)
      modifies this, data, transport`closed, transport`capacity, transport`outgoing, transport`plain, transport.session`state
      ensures Basic() && data == old(data) && (!failed ==> !transport.closed)
      ensures ReceivingSideKept(old(transport.session.state))
      ensures base == |old(transport.plain)| && packetType == TYPE_DATA && maxSize == old(maxSize)
      ensures !failed ==> !transport.closed && SentFrames(EncAll(ops) == []) && SentBytes() == EncAll(ops)
      ensures !failed && Sound(transport.session.algs) ==> OnWireWithin(maxSize + Overhead(transport.session.algs, transport.session.state))
    {
      hide Stream, Writable, SentBytes, SentFrames, EncAll;
      StartRequest(TYPE_DATA, 0, dataFlags);
      WriteAll(ops);
      EndRequest();
      if !failed && Sound(transport.session.algs) {
        AllOnWireFit(EncAll(ops) == []);
      }
    }
  }
}
