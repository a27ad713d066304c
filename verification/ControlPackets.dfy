/** Control packets on the wire, and the proof that their reader meets the decoder's contract. */
module ControlPackets {
  import opened Common
  import opened Framing

  type U32 = x: int | 0 <= x < 0x1_0000_0000

  const I32_LIMIT := 0x8000_0000

  /** An `i32` that both reader and writer assert to be non-negative. */
  type Delta = x: int | 0 <= x < I32_LIMIT

  datatype SyncData = SyncData(handshake: U32, time: U32, delta: Delta)

  datatype ControlC2s =
    | HeartbeatResponse
    | HandshakeResponse(data: SyncData)
    | RequestTimeSync(data: SyncData)

  function Opcode(p: ControlC2s): Byte {
    match p
    case HeartbeatResponse => OPCODE_HEARTBEAT_RESPONSE
    case HandshakeResponse(_) => OPCODE_HANDSHAKE_RESPONSE
    case RequestTimeSync(_) => OPCODE_TIME_SYNC_REQUEST
  }

  // ----- little-endian words

  function WriteU32(v: U32): (b: seq<Byte>)
    ensures |b| == 4
  {
    var v1 := v / 256;
    var v2 := v1 / 256;
    [v % 256, v1 % 256, v2 % 256, v2 / 256]
  }

  function ReadU32(b: seq<Byte>): U32
    requires |b| >= 4
  {
    var b0: int, b1: int, b2: int, b3: int := b[0], b[1], b[2], b[3];
    b0 + 256 * (b1 + 256 * (b2 + 256 * b3))
  }

  lemma U32RoundTrip(v: U32, more: seq<Byte>)
    ensures ReadU32(WriteU32(v) + more) == v
  {
  }

  // ----- packets

  function WriteSync(d: SyncData): (b: seq<Byte>)
    ensures |b| == 12
  {
    WriteU32(d.handshake) + WriteU32(d.time) + WriteU32(d.delta)
  }

  function WriteControl(p: ControlC2s): seq<Byte> {
    [Opcode(p)] + if p.HeartbeatResponse? then [] else WriteSync(p.data)
  }

  function ReadSync(b: seq<Byte>): ReadResult<SyncData> {
    if |b| < 12 then Incomplete
    else
      var delta := ReadU32(b[8..]);
      if delta >= I32_LIMIT then Malformed else Read(SyncData(ReadU32(b), ReadU32(b[4..]), delta), 12)
  }

  function ReadControl(b: seq<Byte>): ReadResult<ControlC2s> {
    if b == [] then Incomplete
    else if b[0] == OPCODE_HEARTBEAT_RESPONSE then Read(HeartbeatResponse, 1)
    else if b[0] == OPCODE_HANDSHAKE_RESPONSE || b[0] == OPCODE_TIME_SYNC_REQUEST then
      match ReadSync(b[1..])
      case Incomplete => Incomplete
      case Malformed => Malformed
      case Read(d, n) =>
        Read(if b[0] == OPCODE_HANDSHAKE_RESPONSE then HandshakeResponse(d) else RequestTimeSync(d), n + 1)
    else Malformed
  }

  lemma WriteSyncParts(d: SyncData, more: seq<Byte>)
    ensures var b := WriteSync(d) + more;
            && b == WriteU32(d.handshake) + (WriteU32(d.time) + (WriteU32(d.delta) + more))
            && b[4..] == WriteU32(d.time) + (WriteU32(d.delta) + more)
            && b[8..] == WriteU32(d.delta) + more
  {
  }

  /** Reading back what was written gives the packet and takes exactly its bytes, whatever follows. */
  lemma ControlRoundTrip(p: ControlC2s, more: seq<Byte>)
    ensures ReadControl(WriteControl(p) + more) == Read(p, |WriteControl(p)|)
  {
    if !p.HeartbeatResponse? {
      var d := p.data;
      assert (WriteControl(p) + more)[1..] == WriteSync(d) + more;
      WriteSyncParts(d, more);
      U32RoundTrip(d.handshake, WriteU32(d.time) + (WriteU32(d.delta) + more));
      U32RoundTrip(d.time, WriteU32(d.delta) + more);
      U32RoundTrip(d.delta, more);
    }
  }

  lemma WordBack(b: seq<Byte>)
    requires |b| >= 4
    ensures WriteU32(ReadU32(b)) == b[..4]
  {
    var b0: int, b1: int, b2: int, b3: int := b[0], b[1], b[2], b[3];
    var v1, v2 := b1 + 256 * (b2 + 256 * b3), b2 + 256 * b3;
    DivUnique(b0 + 256 * v1, 256, v1, b0);
    DivUnique(v1, 256, v2, b1);
    DivUnique(v2, 256, b3, b2);
  }

  lemma SyncBack(b: seq<Byte>)
    requires ReadSync(b).Read?
    ensures WriteSync(ReadSync(b).packet) == b[..12]
  {
    WordBack(b);
    WordBack(b[4..]);
    WordBack(b[8..]);
    assert b[..12] == b[..4] + b[4..][..4] + b[8..][..4];
  }

  /** Nothing is read but what would be written, so no two byte strings are read as one packet. */
  lemma ControlReadExact(b: seq<Byte>)
    requires ReadControl(b).Read?
    ensures ReadControl(b).len <= |b| && WriteControl(ReadControl(b).packet) == b[..ReadControl(b).len]
  {
    if b[0] != OPCODE_HEARTBEAT_RESPONSE {
      SyncBack(b[1..]);
      assert b[..13] == [b[0]] + b[1..][..12];
    }
  }

  lemma ReadSyncStable(b: seq<Byte>, more: seq<Byte>)
    requires !ReadSync(b).Incomplete?
    ensures ReadSync(b + more) == ReadSync(b)
  {
    assert (b + more)[4..][..4] == b[4..][..4] && (b + more)[8..][..4] == b[8..][..4];
  }

  /** Once the reader has decided, later bytes do not matter. */
  lemma ControlReaderStable(b: seq<Byte>, more: seq<Byte>)
    requires !ReadControl(b).Incomplete?
    ensures ReadControl(b + more) == ReadControl(b)
  {
    assert (b + more)[1..] == b[1..] + more;
    if !ReadSync(b[1..]).Incomplete? {
      ReadSyncStable(b[1..], more);
    }
  }

  function ControlProtocol(table: seq<Byte>, next: (nat, Phase, ControlC2s) -> Phase): Protocol<ControlC2s> {
    Protocol(table, (_, b) => ReadControl(b), next)
  }

  ghost predicate NextOk(next: (nat, Phase, ControlC2s) -> Phase) {
    forall n, ph, p :: next(n, ph, p) == ph || IsTransition(ph, next(n, ph, p))
  }

  lemma ControlProtocolOk(table: seq<Byte>, next: (nat, Phase, ControlC2s) -> Phase)
    requires table != [] && NextOk(next)
    ensures ProtocolOk(ControlProtocol(table, next))
  {
    var pr := ControlProtocol(table, next);
    forall ph, b, more | b != [] && !pr.read(ph, b).Incomplete? ensures pr.read(ph, b + more) == pr.read(ph, b) {
      ControlReaderStable(b, more);
    }
  }

  /** Control packets belong to every phase. */
  function ControlClient(): Client<ControlC2s> {
    Client(WriteControl, (_, _) => true)
  }

  lemma ControlClientOk(table: seq<Byte>, next: (nat, Phase, ControlC2s) -> Phase)
    ensures ClientOk(ControlProtocol(table, next), ControlClient())
  {
    var pr, client := ControlProtocol(table, next), ControlClient();
    forall ph, p, more
      ensures client.write(p) != [] && pr.read(ph, client.write(p) + more) == Read(p, |client.write(p)|)
    {
      ControlRoundTrip(p, more);
    }
  }

  lemma {:induction false} ControlSpoken(pr: Protocol<ControlC2s>, n: nat, phase: Phase, ps: seq<ControlC2s>)
    ensures Spoken(pr, ControlClient(), n, phase, ps)
    decreases |ps|
  {
    if ps != [] {
      ControlSpoken(pr, n + 1, pr.next(n, phase, ps[0]), ps[1..]);
    }
  }

  /** A client that sends control packets with the right sequence bytes is heard in full, in any
      chunking, from any phase and sequence position. */
  lemma ControlClientIsHeard(table: seq<Byte>, next: (nat, Phase, ControlC2s) -> Phase, n: nat, phase: Phase, k: nat,
                             ps: seq<ControlC2s>, steps: seq<IoStep>)
    requires table != [] && NextOk(next) && (phase.Handshake? ==> k == 0)
    requires Arrived(steps) == ClientBytes(ControlProtocol(table, next), ControlClient(), n, phase, k, ps)
    ensures ProtocolOk(ControlProtocol(table, next))
    ensures var pr, c := ControlProtocol(table, next), Conn(phase, Cursor(k, |table|), n, [], false);
            var (taken, now) := RunIo(pr, c, steps);
            Packets(taken + Drain(pr, now).0) == ps
  {
    ControlProtocolOk(table, next);
    var pr, c := ControlProtocol(table, next), Conn(phase, Cursor(k, |table|), n, [], false);
    ControlClientOk(table, next);
    ControlSpoken(pr, n, phase, ps);
    ClientIsHeardInChunks(pr, ControlClient(), c, k, ps, steps);
  }
}
