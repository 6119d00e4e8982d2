// Native Network Encryption: a keyed-hash trailer drawn from a running keystream,
// AES-CBC with visible padding, and a folding byte. Ciphers and hashes are parameters.
module Security {
  import opened Bytes

  const BLOCK := 16

  /** The primitives. `encrypt`/`decrypt` run on whole blocks; `cbc` and `rc4` make keystreams. */
  datatype Algorithms = Algorithms(
    hasCipher: bool,
    encrypt: seq<byte> -> seq<byte>,
    decrypt: seq<byte> -> seq<byte>,
    hashSize: nat,
    digest: seq<byte> -> seq<byte>,
    cbc: (seq<byte>, seq<byte>, seq<byte>) -> seq<byte>,
    rc4: (seq<byte>, nat, nat) -> seq<byte>)

  /** All that is assumed of them: lengths, and that decryption undoes encryption on whole blocks. */
  ghost predicate Sound(a: Algorithms) {
    (forall x: seq<byte> :: |x| % BLOCK == 0 ==> |a.encrypt(x)| == |x| && a.decrypt(a.encrypt(x)) == x)
    && (forall x: seq<byte> :: |x| % BLOCK == 0 ==> |a.decrypt(x)| == |x|)
    && (forall x: seq<byte> :: |a.digest(x)| == a.hashSize)
    && (forall k: seq<byte>, iv: seq<byte>, d: seq<byte> :: |a.cbc(k, iv, d)| == |d|)
    && (forall k: seq<byte>, off: nat, n: nat :: |a.rc4(k, off, n)| == n)
    && a.hashSize >= BLOCK
  }

  /** One direction of the keystream. The AES scheme re-encrypts a running state; RC4 just runs on. */
  datatype Lane =
    | NoLane
    | AesLane(key: seq<byte>, iv: seq<byte>, running: seq<byte>)
    | Rc4Lane(key: seq<byte>, off: nat)

  /** The key generator both lanes are derived from at every reset. */
  datatype Generator =
    | NoGenerator
    | AesGenerator(key: seq<byte>, iv: seq<byte>, buffer: seq<byte>)
    | Rc4Generator(key: seq<byte>, off: nat)

  datatype HashState = HashState(gen: Generator, out: Lane, inn: Lane)

  datatype Role = Client | Server

  predicate HasHash(h: HashState) {
    !h.gen.NoGenerator?
  }

  predicate Active(a: Algorithms, h: HashState) {
    a.hasCipher || HasHash(h)
  }

  function Last16(d: seq<byte>, otherwise: seq<byte>): seq<byte> {
    if |d| >= BLOCK then d[|d| - BLOCK..] else otherwise
  }

  /** Draws the next keystream block of a lane. */
  function Advance(a: Algorithms, lane: Lane): (r: (Lane, seq<byte>)) {
    match lane
    case NoLane => (NoLane, [])
    case AesLane(key, iv, running) =>
      var next := a.cbc(key, iv, running);
      (AesLane(key, Last16(next, iv), next), next)
    case Rc4Lane(key, off) => (Rc4Lane(key, off + a.hashSize), a.rc4(key, off, a.hashSize))
  }

  const CLIENT_TAG: byte := 90
  const SERVER_TAG: byte := 180

  function OutTag(role: Role): byte {
    if role.Client? then CLIENT_TAG else SERVER_TAG
  }

  function InTag(role: Role): byte {
    if role.Client? then SERVER_TAG else CLIENT_TAG
  }

  function Tagged(key: seq<byte>, tag: byte): seq<byte> {
    if |key| > 5 then key[5 := tag] else key
  }

  function Running(lane: Lane): seq<byte> {
    if lane.AesLane? then lane.running else []
  }

  /** Security.Reset: new lane keys from the generator. The AES running states are not reset. */
  function Reset(a: Algorithms, role: Role, h: HashState): HashState {
    match h.gen
    case NoGenerator => h
    case AesGenerator(key, iv, buffer) =>
      var b := a.cbc(key, iv, buffer);
      var k := if |b| >= BLOCK then b[..BLOCK] else b;
      var v := if |b| >= 2 * BLOCK then b[BLOCK..2 * BLOCK] else [];
      HashState(AesGenerator(k, v, b),
                AesLane(Tagged(k, OutTag(role)), v, Running(h.out)),
                AesLane(Tagged(k, InTag(role)), v, Running(h.inn)))
    case Rc4Generator(key, off) =>
      var k := a.rc4(key, off, 5);
      HashState(Rc4Generator(key, off + 5), Rc4Lane(k + [OutTag(role)], 0), Rc4Lane(k + [InTag(role)], 0))
  }

  // ---- one packet ----

  function Compute(a: Algorithms, lane: Lane, payload: seq<byte>): (r: (Lane, seq<byte>)) {
    var (lane', ks) := Advance(a, lane);
    (lane', a.digest(payload + ks))
  }

  /** The payload without its trailer, if the trailer is the one this lane expects. */
  function Validate(a: Algorithms, lane: Lane, data: seq<byte>): (r: Option<(Lane, seq<byte>)>) {
    if |data| < a.hashSize then None
    else
      var payload, received := data[..|data| - a.hashSize], data[|data| - a.hashSize..];
      var (lane', mac) := Compute(a, lane, payload);
      if received == mac then Some((lane', payload)) else None
  }

  function Zeros(n: nat): (z: seq<byte>)
    ensures |z| == n
  {
    seq(n, _ => 0)
  }

  function PadLength(n: nat): nat {
    if n % BLOCK == 0 then 0 else BLOCK - n % BLOCK
  }

  /** AES-CBC: zero padding to whole blocks, then a byte telling the pad length plus one. */
  function Encrypt(a: Algorithms, plain: seq<byte>): seq<byte> {
    var pad := PadLength(|plain|);
    a.encrypt(plain + Zeros(pad)) + [pad + 1]
  }

  function Decrypt(a: Algorithms, data: seq<byte>): Option<seq<byte>> {
    if |data| < 1 || (|data| - 1) % BLOCK != 0 then None
    else
      var pad := data[|data| - 1];
      var out := a.decrypt(data[..|data| - 1]);
      if pad < 1 || pad > 17 || pad - 1 > |out| then None
      else Some(out[..|out| - (pad - 1)])
  }

  function Wrap(a: Algorithms, h: HashState, payload: seq<byte>): (r: (HashState, seq<byte>)) {
    var (lane, mac) := if HasHash(h) then Compute(a, h.out, payload) else (h.out, []);
    var body := if a.hasCipher then Encrypt(a, payload + mac) else payload + mac;
    (h.(out := lane), body + [0])
  }

  function Unwrap(a: Algorithms, h: HashState, data: seq<byte>): (r: Option<(HashState, seq<byte>)>) {
    if data == [] then None
    else
      match (if a.hasCipher then Decrypt(a, data[..|data| - 1]) else Some(data[..|data| - 1]))
      case None => None
      case Some(body) =>
        if !HasHash(h) then Some((h, body))
        else match Validate(a, h.inn, body)
          case None => None
          case Some((lane, payload)) => Some((h.(inn := lane), payload))
  }

  /** Security.Overhead. */
  function Overhead(a: Algorithms, h: HashState): nat {
    if !Active(a, h) then 0
    else 1 + (if HasHash(h) then a.hashSize else 0) + (if a.hasCipher then 17 else 0)
  }

  // ---- packets survive ----

  lemma PaddingCompletesBlocks(n: nat)
    ensures (n + PadLength(n)) % BLOCK == 0 && PadLength(n) < BLOCK
  {
  }

  lemma Split(x: seq<byte>, y: seq<byte>)
    ensures (x + y)[..|x|] == x && (x + y)[|x|..] == y
  {
  }

  /** Decrypting drops the pad byte, and as much padding as it says. */
  lemma DecryptDropsPadding(a: Algorithms, body: seq<byte>, plain: seq<byte>, pad: nat)
    requires |body| % BLOCK == 0 && pad < BLOCK && a.decrypt(body) == plain + Zeros(pad)
    ensures Decrypt(a, body + [pad + 1]) == Some(plain)
  {
    hide Zeros;
    Split(body, [pad + 1]);
    Split(plain, Zeros(pad));
  }

  lemma CipherInverts(a: Algorithms, x: seq<byte>)
    requires Sound(a) && |x| % BLOCK == 0
    ensures |a.encrypt(x)| == |x| && a.decrypt(a.encrypt(x)) == x
  {
  }

  lemma DecryptUndoesEncrypt(a: Algorithms, plain: seq<byte>)
    requires Sound(a)
    ensures Decrypt(a, Encrypt(a, plain)) == Some(plain)
    ensures |Encrypt(a, plain)| == |plain| + PadLength(|plain|) + 1
  {
    hide PadLength, Zeros, Decrypt, Sound;
    var pad := PadLength(|plain|);
    var padded := plain + Zeros(pad);
    PaddingCompletesBlocks(|plain|);
    CipherInverts(a, padded);
    DecryptDropsPadding(a, a.encrypt(padded), plain, pad);
  }

  lemma ValidateUndoesCompute(a: Algorithms, lane: Lane, payload: seq<byte>)
    requires Sound(a)
    ensures var (lane', mac) := Compute(a, lane, payload);
            |mac| == a.hashSize && Validate(a, lane, payload + mac) == Some((lane', payload))
  {
    var (lane', mac) := Compute(a, lane, payload);
    var data := payload + mac;
    assert data[..|data| - a.hashSize] == payload;
    assert data[|data| - a.hashSize..] == mac;
  }

  /**
   * A wrapped payload unwraps at any endpoint whose receiving lane is where the sending lane is,
   * and moves that lane exactly where the sending lane went.
   */
  lemma UnwrapUndoesWrap(a: Algorithms, sender: HashState, receiver: HashState, payload: seq<byte>)
    requires Sound(a)
    requires sender.out == receiver.inn && HasHash(sender) == HasHash(receiver)
    ensures var (sender', data) := Wrap(a, sender, payload);
            Unwrap(a, receiver, data) == Some((receiver.(inn := sender'.out), payload))
  {
    hide Sound, Compute, Validate, Encrypt, Decrypt;
    var (lane, mac) := if HasHash(sender) then Compute(a, sender.out, payload) else (sender.out, []);
    if HasHash(sender) { ValidateUndoesCompute(a, sender.out, payload); }
    DecryptUndoesEncrypt(a, payload + mac);
    var data := Wrap(a, sender, payload).1;
    var body := data[..|data| - 1];
    assert body == if a.hasCipher then Encrypt(a, payload + mac) else payload + mac;
    assert payload + [] == payload;
  }

  /** A protected payload grows by at most the overhead, and by at least two bytes. */
  lemma WrapSize(a: Algorithms, h: HashState, payload: seq<byte>)
    requires Sound(a) && Active(a, h)
    ensures |payload| + 2 <= |Wrap(a, h, payload).1| <= |payload| + Overhead(a, h)
  {
    var mac := if HasHash(h) then Compute(a, h.out, payload).1 else [];
    if a.hasCipher { DecryptUndoesEncrypt(a, payload + mac); }
  }

  // ---- whole runs of two endpoints ----

  /** Both ends, the packets in flight each way, and what was sent and delivered each way. */
  datatype Link = Link(
    client: HashState, server: HashState,
    toServer: seq<seq<byte>>, toClient: seq<seq<byte>>,
    sentByClient: seq<seq<byte>>, sentByServer: seq<seq<byte>>,
    gotByServer: seq<seq<byte>>, gotByClient: seq<seq<byte>>)

  datatype Event = ClientSends(p: seq<byte>) | ServerSends(p: seq<byte>) | ServerReceives | ClientReceives | BothReset

  /** May this happen now? A reset is a boundary: nothing in flight. */
  predicate Enabled(s: Link, e: Event) {
    match e
    case ClientSends(_) => true
    case ServerSends(_) => true
    case ServerReceives => s.toServer != []
    case ClientReceives => s.toClient != []
    case BothReset => s.toServer == [] && s.toClient == []
  }

  /** None: an endpoint refused a packet and closed the connection. */
  function Step(a: Algorithms, s: Link, e: Event): Option<Link>
    requires Enabled(s, e)
  {
    match e
    case ClientSends(p) =>
      var (h, d) := Wrap(a, s.client, p);
      Some(s.(client := h, toServer := s.toServer + [d], sentByClient := s.sentByClient + [p]))
    case ServerSends(p) =>
      var (h, d) := Wrap(a, s.server, p);
      Some(s.(server := h, toClient := s.toClient + [d], sentByServer := s.sentByServer + [p]))
    case ServerReceives =>
      (match Unwrap(a, s.server, s.toServer[0])
       case None => None
       case Some((h, p)) => Some(s.(server := h, toServer := s.toServer[1..], gotByServer := s.gotByServer + [p])))
    case ClientReceives =>
      (match Unwrap(a, s.client, s.toClient[0])
       case None => None
       case Some((h, p)) => Some(s.(client := h, toClient := s.toClient[1..], gotByClient := s.gotByClient + [p])))
    case BothReset =>
      Some(s.(client := Reset(a, Client, s.client), server := Reset(a, Server, s.server)))
  }

  /** The payloads a lane would accept from the packets in flight, and where it would end up. */
  function Drain(a: Algorithms, lane: Lane, hashed: bool, flight: seq<seq<byte>>): (r: Option<(seq<seq<byte>>, Lane)>)
    decreases |flight|
  {
    if flight == [] then Some(([], lane))
    else
      var h := HashState(if hashed then Rc4Generator([], 0) else NoGenerator, NoLane, lane);
      match Unwrap(a, h, flight[0])
      case None => None
      case Some((h', p)) =>
        match Drain(a, h'.inn, hashed, flight[1..])
        case None => None
        case Some((ps, lane')) => Some(([p] + ps, lane'))
  }

  /** Unwrapping looks at nothing but the receiving lane. */
  lemma UnwrapUsesLaneOnly(a: Algorithms, h: HashState, g: HashState, d: seq<byte>)
    requires h.inn == g.inn && HasHash(h) == HasHash(g)
    ensures match Unwrap(a, h, d)
            case None => Unwrap(a, g, d) == None
            case Some((h', p)) => Unwrap(a, g, d) == Some((g.(inn := h'.inn), p)) && h' == h.(inn := h'.inn)
  {
  }

  /** Another packet from the lane's own sender drains behind those in flight. */
  lemma {:induction false} DrainSnoc(a: Algorithms, lane: Lane, flight: seq<seq<byte>>, sender: HashState, p: seq<byte>)
    requires Sound(a)
    requires Drain(a, lane, HasHash(sender), flight).Some?
    requires Drain(a, lane, HasHash(sender), flight).value.1 == sender.out
    ensures var (sender', d) := Wrap(a, sender, p);
            Drain(a, lane, HasHash(sender), flight + [d])
            == Some((Drain(a, lane, HasHash(sender), flight).value.0 + [p], sender'.out))
    decreases |flight|
  {
    var hashed := HasHash(sender);
    var (sender', d) := Wrap(a, sender, p);
    var h := HashState(if hashed then Rc4Generator([], 0) else NoGenerator, NoLane, lane);
    if flight == [] {
      assert flight + [d] == [d];
      UnwrapUndoesWrap(a, sender, h, p);
      assert [d][1..] == [];
      assert Drain(a, sender'.out, hashed, []) == Some(([], sender'.out));
      assert [p] + [] == [] + [p];
    } else {
      var (h', q) := Unwrap(a, h, flight[0]).value;
      assert (flight + [d])[1..] == flight[1..] + [d];
      DrainSnoc(a, h'.inn, flight[1..], sender, p);
      var ps := Drain(a, h'.inn, hashed, flight[1..]).value.0;
      assert [q] + (ps + [p]) == ([q] + ps) + [p];
    }
  }

  /** One direction is in step: what is in flight will be accepted and completes what was sent. */
  ghost predicate InStep(a: Algorithms, sender: HashState, receiver: HashState, flight: seq<seq<byte>>, sent: seq<seq<byte>>, got: seq<seq<byte>>)
  {
    sender.gen == receiver.gen
    && var d := Drain(a, receiver.inn, HasHash(sender), flight);
       d.Some? && d.value.1 == sender.out && got + d.value.0 == sent
  }

  ghost predicate Invariant(a: Algorithms, s: Link) {
    InStep(a, s.client, s.server, s.toServer, s.sentByClient, s.gotByServer)
    && InStep(a, s.server, s.client, s.toClient, s.sentByServer, s.gotByClient)
  }

  lemma SendKeepsStep(a: Algorithms, sender: HashState, receiver: HashState, flight: seq<seq<byte>>, sent: seq<seq<byte>>, got: seq<seq<byte>>, p: seq<byte>)
    requires Sound(a) && InStep(a, sender, receiver, flight, sent, got)
    ensures var (sender', d) := Wrap(a, sender, p);
            InStep(a, sender', receiver, flight + [d], sent + [p], got)
  {
    DrainSnoc(a, receiver.inn, flight, sender, p);
    var ps := Drain(a, receiver.inn, HasHash(sender), flight).value.0;
    assert got + (ps + [p]) == (got + ps) + [p];
  }

  lemma ReceiveKeepsStep(a: Algorithms, sender: HashState, receiver: HashState, flight: seq<seq<byte>>, sent: seq<seq<byte>>, got: seq<seq<byte>>)
    requires InStep(a, sender, receiver, flight, sent, got) && flight != []
    ensures var u := Unwrap(a, receiver, flight[0]);
            u.Some? && u.value.0 == receiver.(inn := u.value.0.inn)
            && |got| < |sent| && u.value.1 == sent[|got|]
            && InStep(a, sender, u.value.0, flight[1..], sent, got + [u.value.1])
  {
    var hashed := HasHash(sender);
    var h := HashState(if hashed then Rc4Generator([], 0) else NoGenerator, NoLane, receiver.inn);
    UnwrapUsesLaneOnly(a, h, receiver, flight[0]);
    var (h', p) := Unwrap(a, h, flight[0]).value;
    var ps := Drain(a, h'.inn, hashed, flight[1..]).value.0;
    assert got + ([p] + ps) == (got + [p]) + ps;
  }

  /** Changing only the other direction of an endpoint does not disturb this one. */
  lemma OtherLaneIrrelevant(a: Algorithms, sender: HashState, receiver: HashState, flight: seq<seq<byte>>, sent: seq<seq<byte>>, got: seq<seq<byte>>, inn: Lane, out: Lane)
    requires InStep(a, sender, receiver, flight, sent, got)
    ensures InStep(a, sender.(inn := inn), receiver.(out := out), flight, sent, got)
  {
  }

  /** Every step of a run keeps both directions in step, and no endpoint ever refuses a packet. */
  lemma StepKeepsInvariant(a: Algorithms, s: Link, e: Event)
    requires Sound(a) && Invariant(a, s) && Enabled(s, e)
    ensures Step(a, s, e).Some? && Invariant(a, Step(a, s, e).value)
  {
    match e
    case ClientSends(p) =>
      SendKeepsStep(a, s.client, s.server, s.toServer, s.sentByClient, s.gotByServer, p);
      OtherLaneIrrelevant(a, s.server, s.client, s.toClient, s.sentByServer, s.gotByClient, s.server.inn, Wrap(a, s.client, p).0.out);
    case ServerSends(p) =>
      SendKeepsStep(a, s.server, s.client, s.toClient, s.sentByServer, s.gotByClient, p);
      OtherLaneIrrelevant(a, s.client, s.server, s.toServer, s.sentByClient, s.gotByServer, s.client.inn, Wrap(a, s.server, p).0.out);
    case ServerReceives =>
      ReceiveKeepsStep(a, s.client, s.server, s.toServer, s.sentByClient, s.gotByServer);
      var h := Unwrap(a, s.server, s.toServer[0]).value.0;
      OtherLaneIrrelevant(a, s.server, s.client, s.toClient, s.sentByServer, s.gotByClient, h.inn, s.client.out);
    case ClientReceives =>
      ReceiveKeepsStep(a, s.server, s.client, s.toClient, s.sentByServer, s.gotByClient);
      var h := Unwrap(a, s.client, s.toClient[0]).value.0;
      OtherLaneIrrelevant(a, s.client, s.server, s.toServer, s.sentByClient, s.gotByServer, h.inn, s.server.out);
    case BothReset =>
  }

  /** Runs the events in order; None as soon as one is not enabled or an endpoint refuses a packet. */
  function Run(a: Algorithms, s: Link, es: seq<Event>): Option<Link>
    decreases |es|
  {
    if es == [] then Some(s)
    else if !Enabled(s, es[0]) then None
    else match Step(a, s, es[0])
      case None => None
      case Some(s') => Run(a, s', es[1..])
  }

  ghost predicate AllEnabled(a: Algorithms, s: Link, es: seq<Event>)
    decreases |es|
  {
    es == [] || (Enabled(s, es[0]) && (Step(a, s, es[0]).Some? ==> AllEnabled(a, Step(a, s, es[0]).value, es[1..])))
  }

  /** Mirrored endpoints right after negotiation. */
  predicate Mirrored(s: Link) {
    s.client.gen == s.server.gen && s.client.out == s.server.inn && s.client.inn == s.server.out
    && s.toServer == [] && s.toClient == [] && s.sentByClient == [] && s.sentByServer == []
    && s.gotByServer == [] && s.gotByClient == []
  }

  /**
   * Over every run of two mirrored endpoints, whatever the algorithms: no packet is ever refused and
   * each side has received, in order, an initial part of exactly what the other side sent.
   */
  lemma {:induction false} RunsDeliver(a: Algorithms, s: Link, es: seq<Event>)
    requires Sound(a) && Invariant(a, s) && AllEnabled(a, s, es)
    ensures var r := Run(a, s, es);
            r.Some? && Invariant(a, r.value)
            && r.value.gotByServer <= r.value.sentByClient && r.value.gotByClient <= r.value.sentByServer
    decreases |es|
  {
    if es != [] {
      StepKeepsInvariant(a, s, es[0]);
      RunsDeliver(a, Step(a, s, es[0]).value, es[1..]);
    }
  }

  /** How the negotiated checksum draws its keystream: SHA-2 from AES, MD5 and SHA-1 from RC4. */
  datatype Scheme = NoChecksum | AesChecksum | Rc4Checksum

  /** NewSecurity's keyed hash at one end, from the shared key and the server's IV; None if they are too short. */
  function Setup(a: Algorithms, role: Role, scheme: Scheme, key: seq<byte>, iv: seq<byte>): Option<HashState> {
    match scheme
    case NoChecksum => Some(HashState(NoGenerator, NoLane, NoLane))
    case AesChecksum =>
      if |key| < 5 || |iv| < BLOCK then None
      else
        var idle := AesLane([], [], Zeros(a.hashSize));
        Some(Reset(a, role, HashState(AesGenerator(key[..5] + [0xff] + Zeros(10), iv[..BLOCK], Zeros(2 * BLOCK)), idle, idle)))
    case Rc4Checksum =>
      if |key| < 5 then None
      else Some(Reset(a, role, HashState(Rc4Generator(key[|key| - 5..] + [0xff] + iv, 0), NoLane, NoLane)))
  }

  /** Two endpoints that nothing has been sent between. */
  function Idle(client: HashState, server: HashState): Link {
    Link(client, server, [], [], [], [], [], [])
  }

  /** Set up from one key, the two ends mirror each other: the same generator, and lanes tagged the other way round. */
  lemma SetupMirrors(a: Algorithms, scheme: Scheme, key: seq<byte>, iv: seq<byte>)
    ensures Setup(a, Client, scheme, key, iv).Some? <==> Setup(a, Server, scheme, key, iv).Some?
    ensures Setup(a, Client, scheme, key, iv).Some? ==>
              Mirrored(Idle(Setup(a, Client, scheme, key, iv).value, Setup(a, Server, scheme, key, iv).value))
  {
  }

  lemma MirroredEndpointsDeliver(a: Algorithms, scheme: Scheme, key: seq<byte>, iv: seq<byte>, es: seq<Event>)
    requires Sound(a) && Setup(a, Client, scheme, key, iv).Some? && Setup(a, Server, scheme, key, iv).Some?
    requires AllEnabled(a, Idle(Setup(a, Client, scheme, key, iv).value, Setup(a, Server, scheme, key, iv).value), es)
    ensures var r := Run(a, Idle(Setup(a, Client, scheme, key, iv).value, Setup(a, Server, scheme, key, iv).value), es);
            r.Some? && r.value.gotByServer <= r.value.sentByClient && r.value.gotByClient <= r.value.sentByServer
  {
    hide Setup, AllEnabled, Run;
    SetupMirrors(a, scheme, key, iv);
    RunsDeliver(a, Idle(Setup(a, Client, scheme, key, iv).value, Setup(a, Server, scheme, key, iv).value), es);
  }

  // ---- what a reset repairs ----

  /**
   * Resetting both ends of a direction realigns it exactly when the running states agree. An RC4
   * lane always realigns; an AES lane that was out of step stays so, since the source re-keys it
   * but keeps the running state.
   */
  lemma ResetRealignsIff(a: Algorithms, client: HashState, server: HashState)
    requires client.gen == server.gen && HasHash(client)
    ensures Reset(a, Client, client).out == Reset(a, Server, server).inn
            <==> client.gen.AesGenerator? ==> Running(client.out) == Running(server.inn)
    ensures Reset(a, Client, client).gen == Reset(a, Server, server).gen
  {
  }

  // ---- what goes over the wire ----

  /** Encrypted text: whole blocks of the plain text and up to fifteen zero bytes, and a byte one more than their number. */
  lemma EncryptedForm(a: Algorithms, plain: seq<byte>)
    requires Sound(a)
    ensures var e := Encrypt(a, plain);
            e != [] && 1 <= e[|e| - 1] <= 16 && (|e| - 1) % 16 == 0 && |e| - 1 == |plain| + e[|e| - 1] - 1
            && a.decrypt(e[..|e| - 1]) == plain + seq(e[|e| - 1] - 1, _ => 0)
  {
    hide Sound;
    var pad := PadLength(|plain|);
    PaddingCompletesBlocks(|plain|);
    CipherInverts(a, plain + Zeros(pad));
    var e := Encrypt(a, plain);
    assert e[..|e| - 1] == a.encrypt(plain + Zeros(pad));
  }

  /** An endpoint takes a packet exactly if its trailer is the digest of the payload and the keystream drawn for it. */
  lemma UnwrapsIff(a: Algorithms, h: HashState, data: seq<byte>)
    requires HasHash(h) && data != []
    requires a.hasCipher ==> Decrypt(a, data[..|data| - 1]).Some?
    ensures var body := if a.hasCipher then Decrypt(a, data[..|data| - 1]).value else data[..|data| - 1];
            var n := |body| - a.hashSize;
            if n >= 0 && body[n..] == a.digest(body[..n] + Advance(a, h.inn).1)
            then Unwrap(a, h, data).Some? && Unwrap(a, h, data).value.1 == body[..n]
            else Unwrap(a, h, data) == None
  {
    hide Decrypt, Advance;
  }

  /** A trailer that was changed on the way is refused, whatever it was changed to. */
  lemma TamperedIsRefused(a: Algorithms, sender: HashState, receiver: HashState, payload: seq<byte>, trailer: seq<byte>)
    requires Sound(a) && !a.hasCipher && HasHash(sender) && HasHash(receiver) && sender.out == receiver.inn
    requires |trailer| == a.hashSize && trailer != Compute(a, sender.out, payload).1
    ensures Unwrap(a, receiver, payload + trailer + [0]) == None
  {
    hide Advance;
    var data := payload + trailer + [0];
    assert data[..|data| - 1] == payload + trailer;
    Split(payload, trailer);
    UnwrapsIff(a, receiver, data);
  }

  /** The lane once it has computed a trailer for each of these payloads. */
  function LaneAfter(a: Algorithms, lane: Lane, ps: seq<seq<byte>>): Lane {
    if ps == [] then lane else Compute(a, LaneAfter(a, lane, ps[..|ps| - 1]), ps[|ps| - 1]).0
  }

  /** Keystream block n of an AES lane: each block is encrypted once more, under its own last sixteen bytes. */
  function KeystreamBlock(a: Algorithms, key: seq<byte>, iv: seq<byte>, running: seq<byte>, n: nat): seq<byte> {
    if n == 0 then a.cbc(key, iv, running)
    else
      var before := KeystreamBlock(a, key, iv, running, n - 1);
      a.cbc(key, if |before| >= 16 then before[|before| - 16..] else iv, before)
  }

  lemma CbcSize(a: Algorithms, key: seq<byte>, iv: seq<byte>, d: seq<byte>)
    requires Sound(a)
    ensures |a.cbc(key, iv, d)| == |d|
  {
  }

  lemma Rc4Size(a: Algorithms, key: seq<byte>, off: nat, n: nat)
    requires Sound(a)
    ensures |a.rc4(key, off, n)| == n
  {
  }

  lemma {:induction false} BlockSizes(a: Algorithms, key: seq<byte>, iv: seq<byte>, running: seq<byte>, n: nat)
    requires Sound(a)
    ensures |KeystreamBlock(a, key, iv, running, n)| == |running|
  {
    hide Sound;
    if n > 0 {
      BlockSizes(a, key, iv, running, n - 1);
      var before := KeystreamBlock(a, key, iv, running, n - 1);
      CbcSize(a, key, if |before| >= 16 then before[|before| - 16..] else iv, before);
    } else {
      CbcSize(a, key, iv, running);
    }
  }

  lemma {:induction false} AesLaneAfter(a: Algorithms, key: seq<byte>, iv: seq<byte>, running: seq<byte>, ps: seq<seq<byte>>)
    requires Sound(a) && |running| >= 16 && ps != []
    ensures var b := KeystreamBlock(a, key, iv, running, |ps| - 1);
            |b| >= 16 && LaneAfter(a, AesLane(key, iv, running), ps) == AesLane(key, b[|b| - 16..], b)
  {
    hide Sound;
    BlockSizes(a, key, iv, running, |ps| - 1);
    if |ps| > 1 {
      AesLaneAfter(a, key, iv, running, ps[..|ps| - 1]);
    } else {
      assert LaneAfter(a, AesLane(key, iv, running), ps[..0]) == AesLane(key, iv, running);
    }
  }

  /** The trailer of packet n under AES: a digest with block n of the keystream. */
  lemma NthAesTrailer(a: Algorithms, key: seq<byte>, iv: seq<byte>, running: seq<byte>, ps: seq<seq<byte>>, p: seq<byte>)
    requires Sound(a) && |running| >= 16
    ensures Compute(a, LaneAfter(a, AesLane(key, iv, running), ps), p).1 == a.digest(p + KeystreamBlock(a, key, iv, running, |ps|))
  {
    hide Sound;
    if ps != [] { AesLaneAfter(a, key, iv, running, ps); }
  }

  /** How far an RC4 keystream has run once n trailers of this size are drawn from it. */
  function Drawn(off: nat, n: nat, size: nat): nat {
    if n == 0 then off else Drawn(off, n - 1, size) + size
  }

  lemma {:induction false} Rc4LaneAfter(a: Algorithms, key: seq<byte>, off: nat, ps: seq<seq<byte>>)
    ensures LaneAfter(a, Rc4Lane(key, off), ps) == Rc4Lane(key, Drawn(off, |ps|, a.hashSize))
  {
    if ps != [] { Rc4LaneAfter(a, key, off, ps[..|ps| - 1]); }
  }

  /** And under RC4: a digest with the piece of keystream behind all those drawn before, so that none is drawn twice. */
  lemma NthRc4Trailer(a: Algorithms, key: seq<byte>, off: nat, ps: seq<seq<byte>>, p: seq<byte>)
    ensures Compute(a, LaneAfter(a, Rc4Lane(key, off), ps), p).1 == a.digest(p + a.rc4(key, Drawn(off, |ps|, a.hashSize), a.hashSize))
  {
    Rc4LaneAfter(a, key, off, ps);
  }

  /** The keys of the two directions differ in byte five: 90 from client to server, 180 from server to client. */
  lemma DirectionsAreTagged(a: Algorithms, role: Role, scheme: Scheme, key: seq<byte>, iv: seq<byte>)
    requires Sound(a) && !scheme.NoChecksum? && Setup(a, role, scheme, key, iv).Some?
    ensures var h := Setup(a, role, scheme, key, iv).value;
            var mine, theirs := if role.Client? then 90 else 180, if role.Client? then 180 else 90;
            !h.out.NoLane? && !h.inn.NoLane? && |h.out.key| > 5 && |h.inn.key| > 5
            && h.out.key[5] == mine && h.inn.key[5] == theirs && h.out.key[..5] == h.inn.key[..5]
  {
    hide Sound;
    if scheme.AesChecksum? {
      CbcSize(a, key[..5] + [0xff] + Zeros(10), iv[..BLOCK], Zeros(2 * BLOCK));
    } else {
      Rc4Size(a, key[|key| - 5..] + [0xff] + iv, 0, 5);
    }
  }
}
