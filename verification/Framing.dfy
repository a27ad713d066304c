/** The incremental packet decoder, its sequence check, and the phases of a connection. */
module Framing {
  import opened Common

  type Byte = x: int | 0 <= x < 256

  const OPCODE_HEARTBEAT_RESPONSE: Byte := 0xFE
  const OPCODE_HANDSHAKE_RESPONSE: Byte := 0xFF
  const OPCODE_TIME_SYNC_REQUEST: Byte := 0xFC

  predicate IsUnsequencedOpcode(opcode: Byte) {
    opcode == OPCODE_HEARTBEAT_RESPONSE || opcode == OPCODE_HANDSHAKE_RESPONSE
  }

  datatype Phase = Handshake | Login | Select | Loading | InGame

  /** The `NextState` edges; staying put is not a transition. */
  predicate IsTransition(a: Phase, b: Phase) {
    match a
    case Handshake => b == Login
    case Login => b == Select
    case Select => b == Loading
    case Loading => b == InGame
    case InGame => b == Select
  }

  /** What the packet reader of a phase makes of the bytes in front of it. */
  datatype ReadResult<+P> = Read(packet: P, len: nat) | Incomplete | Malformed

  /** The sequence table, the readers, and the phase the server moves to after the n-th packet.  That
      decision may depend on anything the server knows by then (earlier packets, its database, its
      clock), so the same packet in the same phase need not lead to the same phase again. */
  datatype Protocol<!P> =
    Protocol(table: seq<Byte>, read: (Phase, seq<Byte>) -> ReadResult<P>, next: (nat, Phase, P) -> Phase)

  /** The reader takes at least the opcode and never more than there is, and an answer reached
      without running out of bytes does not depend on the bytes after them. */
  ghost predicate ReaderOk<P(!new)>(read: (Phase, seq<Byte>) -> ReadResult<P>) {
    && (forall ph, b :: read(ph, b).Read? ==> 1 <= read(ph, b).len <= |b|)
    && (forall ph, b, more {:trigger read(ph, b + more)} :: b != [] && !read(ph, b).Incomplete? ==>
        read(ph, b + more) == read(ph, b))
  }

  ghost predicate ProtocolOk<P(!new)>(pr: Protocol<P>) {
    && pr.table != [] && ReaderOk(pr.read)
    && forall n, ph, p :: pr.next(n, ph, p) == ph || IsTransition(ph, pr.next(n, ph, p))
  }

  // ----- the sequencer

  function NextPos(pos: nat, size: nat): nat {
    if pos + 1 == size then 0 else pos + 1
  }

  /** Where the cursor stands after `k` bytes. */
  function Cursor(k: nat, size: nat): (pos: nat)
    requires size > 0
    ensures pos < size
  {
    if k == 0 then 0 else NextPos(Cursor(k - 1, size), size)
  }

  lemma {:induction false} CursorIsMod(k: nat, size: nat)
    requires size > 0
    ensures Cursor(k, size) == k % size
  {
    if k == 0 {
      DivUnique(0, size, 0, 0);
    } else {
      CursorIsMod(k - 1, size);
      var q, r := (k - 1) / size, (k - 1) % size;
      assert k - 1 == q * size + r;
      if r + 1 == size {
        DivUnique(k, size, q + 1, 0);
      } else {
        DivUnique(k, size, q, r + 1);
      }
    }
  }

  class PacketSequencer {
    const seqBytes: seq<Byte>
    var pos: nat
    var lastMismatch: Option<(Byte, Byte)>
    ghost var taken: nat

    ghost predicate Valid()
      reads this
    {
      seqBytes != [] && pos == Cursor(taken, |seqBytes|)
    }

    constructor (table: seq<Byte>)
      requires table != []
      ensures Valid() && seqBytes == table && pos == 0 && taken == 0 && lastMismatch == None
    {
      seqBytes, pos, lastMismatch, taken := table, 0, None, 0;
    }

    method NextByte() returns (b: Byte)
      requires Valid()
      modifies this`pos, this`taken
      ensures Valid() && taken == old(taken) + 1
      ensures b == seqBytes[old(taken) % |seqBytes|] && pos == NextPos(old(pos), |seqBytes|)
    {
      CursorIsMod(taken, |seqBytes|);
      b := seqBytes[pos];
      pos := pos + 1;
      if pos == |seqBytes| {
        pos := 0;
      }
      taken := taken + 1;
    }

    method Check(got: Byte) returns (matches: bool)
      requires Valid()
      modifies this
      ensures Valid() && taken == old(taken) + 1 && pos == NextPos(old(pos), |seqBytes|)
      ensures matches <==> got == seqBytes[old(taken) % |seqBytes|]
      ensures lastMismatch == if matches then None else Some((seqBytes[old(taken) % |seqBytes|], got))
    {
      var expected := NextByte();
      matches := got == expected;
      lastMismatch := if matches then None else Some((expected, got));
    }
  }

  // ----- one connection

  /** `handled` counts the packets taken so far. */
  datatype Conn = Conn(phase: Phase, pos: nat, handled: nat, buffer: seq<Byte>, failed: bool)

  const OPENED := Conn(Handshake, 0, 0, [], false)

  predicate ConnOk<P>(pr: Protocol<P>, c: Conn) {
    c.pos < |pr.table| && (c.phase.Handshake? ==> c.pos == 0)
  }

  /** One packet taken off the stream, with its trailing sequence byte if it has one. */
  datatype Frame<+P> = Frame(phase: Phase, packet: P, raw: seq<Byte>, check: Option<Byte>) {
    function Bytes(): seq<Byte> {
      if check.Some? then raw + [check.value] else raw
    }
  }

  /** The Handshake codec has no sequencer; the others exempt two control opcodes. */
  predicate IsSequenced(phase: Phase, opcode: Byte) {
    !phase.Handshake? && !IsUnsequencedOpcode(opcode)
  }

  /** `transition_default` out of Handshake, `transition_with_sequencer` elsewhere: the read buffer
      always moves over, and so does the sequencer between sequenced phases. */
  function Transition(c: Conn, phase: Phase): Conn {
    c.(phase := phase, pos := if c.phase.Handshake? then 0 else c.pos)
  }

  /** The packet is handed on, and the server stays in its phase or moves. */
  function Handled<P>(pr: Protocol<P>, c: Conn, p: P): Conn {
    var phase, done := pr.next(c.handled, c.phase, p), c.(handled := c.handled + 1);
    if phase == c.phase then done else Transition(done, phase)
  }

  /** One call of the decoder, and the phase change its packet brings. */
  function DecodeOnce<P(!new)>(pr: Protocol<P>, c: Conn): (r: (Conn, Option<Frame<P>>))
    requires ProtocolOk(pr) && ConnOk(pr, c)
    ensures ConnOk(pr, r.0)
    ensures if r.1.Some? then |r.0.buffer| < |c.buffer| else r.0.buffer == c.buffer
  {
    if c.failed || c.buffer == [] then (c, None)
    else
      var sequenced := IsSequenced(c.phase, c.buffer[0]);
      match pr.read(c.phase, c.buffer)
      case Incomplete => (c, None)
      case Malformed => (c.(failed := true), None)
      case Read(p, len) =>
        if !sequenced then
          (Handled(pr, c.(buffer := c.buffer[len..]), p), Some(Frame(c.phase, p, c.buffer[..len], None)))
        else if len >= |c.buffer| then (c, None)
        else
          var got, pos := c.buffer[len], NextPos(c.pos, |pr.table|);
          if got != pr.table[c.pos] then (c.(pos := pos, failed := true), None)
          else (Handled(pr, c.(pos := pos, buffer := c.buffer[len + 1..]), p),
                Some(Frame(c.phase, p, c.buffer[..len], Some(got))))
  }

  /** Decoding until the decoder asks for more or fails. */
  function Drain<P(!new)>(pr: Protocol<P>, c: Conn): (r: (seq<Frame<P>>, Conn))
    requires ProtocolOk(pr) && ConnOk(pr, c)
    ensures ConnOk(pr, r.1)
    decreases |c.buffer|
  {
    var (next, frame) := DecodeOnce(pr, c);
    if frame.None? then ([], next)
    else
      var (rest, end) := Drain(pr, next);
      ([frame.value] + rest, end)
  }

  function Arrive(c: Conn, chunk: seq<Byte>): Conn {
    c.(buffer := c.buffer + chunk)
  }

  /** The framed stream: bytes are appended as they arrive, the decoder advances the buffer and the
      sequencer, which the Handshake codec does without. */
  class Connection<P(!new)> {
    const pr: Protocol<P>
    var phase: Phase
    var sequencer: PacketSequencer?
    var handled: nat
    var buffer: seq<Byte>
    var failed: bool

    ghost function View(): Conn
      reads this, sequencer
    {
      Conn(phase, if sequencer == null then 0 else sequencer.pos, handled, buffer, failed)
    }

    ghost predicate Valid()
      reads this, sequencer
    {
      && ProtocolOk(pr) && (sequencer == null <==> phase.Handshake?)
      && (sequencer != null ==> sequencer.Valid() && sequencer.seqBytes == pr.table)
    }

    constructor (protocol: Protocol<P>)
      requires ProtocolOk(protocol)
      ensures Valid() && pr == protocol && View() == OPENED && sequencer == null
    {
      pr, phase, sequencer, handled, buffer, failed := protocol, Handshake, null, 0, [], false;
    }

    method Receive(chunk: seq<Byte>)
      requires Valid()
      modifies this`buffer
      ensures Valid() && View() == Arrive(old(View()), chunk)
    {
      buffer := buffer + chunk;
    }

    /** Hands the packet to the server and rebuilds the stream around the phase it moves to: the
        buffer always moves over, the sequencer between sequenced phases. */
    method Advance(p: P)
      requires Valid()
      modifies this
      ensures Valid() && (sequencer == old(sequencer) || fresh(sequencer))
      ensures View() == Handled(pr, old(View()), p)
    {
      var next := pr.next(handled, phase, p);
      handled := handled + 1;
      if next != phase {
        if phase.Handshake? {
          sequencer := new PacketSequencer(pr.table);
        }
        phase := next;
      }
    }

    method Decode() returns (frame: Option<Frame<P>>)
      requires Valid()
      modifies this, sequencer
      ensures Valid() && (sequencer == old(sequencer) || fresh(sequencer))
      ensures ConnOk(pr, old(View())) && (View(), frame) == DecodeOnce(pr, old(View()))
    {
      if failed || buffer == [] {
        return None;
      }
      var sequenced := IsSequenced(phase, buffer[0]);
      var result := pr.read(phase, buffer);
      if result.Incomplete? {
        return None;
      }
      if result.Malformed? {
        failed := true;
        return None;
      }
      var len := result.len;
      frame := Some(Frame(phase, result.packet, buffer[..len], None));
      if sequenced {
        if len >= |buffer| {
          return None;
        }
        var got := buffer[len];
        CursorIsMod(sequencer.taken, |pr.table|);
        var matches := sequencer.Check(got);
        if !matches {
          failed := true;
          return None;
        }
        frame := Some(frame.value.(check := Some(got)));
        buffer := buffer[len + 1..];
      } else {
        buffer := buffer[len..];
      }
      Advance(result.packet);
    }
  }

  // ----- chunking does not matter

  /** Bytes that arrive later never change what the decoder does with the ones before. */
  lemma {:induction false} DecodeStable<P(!new)>(pr: Protocol<P>, c: Conn, more: seq<Byte>)
    requires ProtocolOk(pr) && ConnOk(pr, c)
    ensures var (next, frame) := DecodeOnce(pr, c);
            frame.Some? || next.failed ==> DecodeOnce(pr, Arrive(c, more)) == (Arrive(next, more), frame)
  {
    if !c.failed && c.buffer != [] && !pr.read(c.phase, c.buffer).Incomplete? {
      var b := c.buffer;
      assert pr.read(c.phase, b + more) == pr.read(c.phase, b);
      if pr.read(c.phase, b).Read? {
        var len := pr.read(c.phase, b).len;
        assert (b + more)[..len] == b[..len] && (b + more)[len..] == b[len..] + more;
        if len < |b| {
          assert (b + more)[len + 1..] == b[len + 1..] + more;
        }
      }
    }
  }

  lemma {:induction false} DrainFailed<P(!new)>(pr: Protocol<P>, c: Conn)
    requires ProtocolOk(pr) && ConnOk(pr, c) && c.failed
    ensures Drain(pr, c) == ([], c)
  {
  }

  /** One decoder call now, or leaving it until more has arrived, comes to the same. */
  lemma {:induction false} PollEarly<P(!new)>(pr: Protocol<P>, c: Conn, more: seq<Byte>)
    requires ProtocolOk(pr) && ConnOk(pr, c)
    ensures var (next, frame) := DecodeOnce(pr, c);
            var (rest, end) := Drain(pr, Arrive(next, more));
            Drain(pr, Arrive(c, more)) == (if frame.Some? then [frame.value] + rest else rest, end)
  {
    var (next, frame) := DecodeOnce(pr, c);
    DecodeStable(pr, c, more);
    if frame.None? {
      if next.failed {
        DrainFailed(pr, Arrive(next, more));
      } else {
        assert next == c;
      }
    }
  }

  datatype IoStep = Chunk(bytes: seq<Byte>) | Poll

  function Arrived(steps: seq<IoStep>): seq<Byte> {
    if steps == [] then []
    else (if steps[0].Chunk? then steps[0].bytes else []) + Arrived(steps[1..])
  }

  /** Any interleaving of arriving chunks and single decoder calls. */
  function RunIo<P(!new)>(pr: Protocol<P>, c: Conn, steps: seq<IoStep>): (r: (seq<Frame<P>>, Conn))
    requires ProtocolOk(pr) && ConnOk(pr, c)
    ensures ConnOk(pr, r.1)
    decreases |steps|
  {
    if steps == [] then ([], c)
    else match steps[0]
      case Chunk(bytes) => RunIo(pr, Arrive(c, bytes), steps[1..])
      case Poll =>
        var (next, frame) := DecodeOnce(pr, c);
        var (rest, end) := RunIo(pr, next, steps[1..]);
        (if frame.Some? then [frame.value] + rest else rest, end)
  }

  lemma {:induction false} ArriveTwice(c: Conn, a: seq<Byte>, b: seq<Byte>)
    ensures Arrive(Arrive(c, a), b) == Arrive(c, a + b)
  {
    assert c.buffer + a + b == c.buffer + (a + b);
  }

  lemma ConcatAssoc<T>(a: seq<T>, b: seq<T>, c: seq<T>)
    ensures a + b + c == a + (b + c)
  {
  }

  lemma {:induction false} PollFirst<P(!new)>(pr: Protocol<P>, c: Conn, steps: seq<IoStep>)
    requires ProtocolOk(pr) && ConnOk(pr, c) && steps != [] && steps[0].Poll?
    ensures var (next, frame) := DecodeOnce(pr, c);
            var (taken, now) := RunIo(pr, next, steps[1..]);
            var rest := Drain(pr, now).0;
            RunIo(pr, c, steps).1 == now
            && RunIo(pr, c, steps).0 + rest == if frame.Some? then [frame.value] + (taken + rest) else taken + rest
  {
    var (next, frame) := DecodeOnce(pr, c);
    var (taken, now) := RunIo(pr, next, steps[1..]);
    if frame.Some? {
      ConcatAssoc([frame.value], taken, Drain(pr, now).0);
    }
  }

  /** One arrival or one decoder call. */
  function IoOnce<P(!new)>(pr: Protocol<P>, c: Conn, step: IoStep): (r: (Conn, Option<Frame<P>>))
    requires ProtocolOk(pr) && ConnOk(pr, c)
    ensures ConnOk(pr, r.0)
  {
    match step
    case Chunk(bytes) => (Arrive(c, bytes), None)
    case Poll => DecodeOnce(pr, c)
  }

  function Added<P>(frames: seq<Frame<P>>, frame: Option<Frame<P>>): seq<Frame<P>> {
    if frame.Some? then frames + [frame.value] else frames
  }

  lemma {:induction false} RunIoStep<P(!new)>(pr: Protocol<P>, c: Conn, steps: seq<IoStep>, frames: seq<Frame<P>>)
    requires ProtocolOk(pr) && ConnOk(pr, c) && steps != []
    ensures var (next, frame) := IoOnce(pr, c, steps[0]);
            && RunIo(pr, c, steps).1 == RunIo(pr, next, steps[1..]).1
            && frames + RunIo(pr, c, steps).0 == Added(frames, frame) + RunIo(pr, next, steps[1..]).0
  {
  }

  method ServeOnce<P(!new)>(conn: Connection<P>, step: IoStep) returns (frame: Option<Frame<P>>)
    requires conn.Valid()
    modifies conn, conn.sequencer
    ensures conn.Valid() && (conn.sequencer == old(conn.sequencer) || fresh(conn.sequencer))
    ensures ConnOk(conn.pr, old(conn.View())) && (conn.View(), frame) == IoOnce(conn.pr, old(conn.View()), step)
  {
    frame := None;
    if step.Poll? {
      frame := conn.Decode();
    } else {
      conn.Receive(step.bytes);
    }
  }

  /** The framed stream over a whole run of arrivals and decoder calls. */
  method Serve<P(!new)>(conn: Connection<P>, steps: seq<IoStep>) returns (frames: seq<Frame<P>>)
    requires conn.Valid()
    modifies conn, conn.sequencer
    ensures conn.Valid() && ConnOk(conn.pr, old(conn.View()))
    ensures (frames, conn.View()) == RunIo(conn.pr, old(conn.View()), steps)
  {
    ghost var all := RunIo(conn.pr, conn.View(), steps);
    frames := [];
    assert steps[0..] == steps && [] + all.0 == all.0;
    for i := 0 to |steps|
      invariant conn.Valid() && (conn.sequencer == old(conn.sequencer) || fresh(conn.sequencer))
      invariant ConnOk(conn.pr, conn.View()) && ConnOk(conn.pr, old(conn.View()))
      invariant frames + RunIo(conn.pr, conn.View(), steps[i..]).0 == all.0
      invariant RunIo(conn.pr, conn.View(), steps[i..]).1 == all.1
    {
      RunIoStep(conn.pr, conn.View(), steps[i..], frames);
      assert steps[i..][1..] == steps[i + 1..];
      var frame := ServeOnce(conn, steps[i]);
      if frame.Some? {
        frames := frames + [frame.value];
      }
    }
    assert steps[|steps|..] == [] && frames + [] == frames;
  }

  /** However the bytes are split and whenever the decoder is called, the frames already taken and
      those still to come are the ones the whole stream gives at once. */
  lemma {:induction false} ChunkingIrrelevant<P(!new)>(pr: Protocol<P>, c: Conn, steps: seq<IoStep>)
    requires ProtocolOk(pr) && ConnOk(pr, c)
    ensures var (taken, now) := RunIo(pr, c, steps);
            var (rest, end) := Drain(pr, now);
            Drain(pr, Arrive(c, Arrived(steps))) == (taken + rest, end)
    decreases |steps|
  {
    if steps == [] {
      assert Arrive(c, []) == c;
      assert [] + Drain(pr, c).0 == Drain(pr, c).0;
    } else {
      var later := Arrived(steps[1..]);
      match steps[0] {
        case Chunk(bytes) =>
          ChunkingIrrelevant(pr, Arrive(c, bytes), steps[1..]);
          ArriveTwice(c, bytes, later);
        case Poll =>
          assert Arrived(steps) == later;
          PollEarly(pr, c, later);
          ChunkingIrrelevant(pr, DecodeOnce(pr, c).0, steps[1..]);
          PollFirst(pr, c, steps);
      }
    }
  }

  // ----- conservation and the sequence bytes

  function Concat<P>(fs: seq<Frame<P>>): seq<Byte> {
    if fs == [] then [] else fs[0].Bytes() + Concat(fs[1..])
  }

  function Rank<P>(f: Frame<P>): nat {
    if f.check.Some? then 1 else 0
  }

  /** Sequenced frames among the first `n`. */
  function Sequenced<P>(fs: seq<Frame<P>>, n: nat): nat
    requires n <= |fs|
  {
    if n == 0 then 0 else Rank(fs[0]) + Sequenced(fs[1..], n - 1)
  }

  /** The frame carries the sequence byte of its rank exactly when its opcode is sequenced. */
  ghost predicate FrameChecked<P>(table: seq<Byte>, f: Frame<P>, rank: nat)
    requires table != []
  {
    && f.raw != []
    && f.check == if IsSequenced(f.phase, f.raw[0]) then Some(table[Cursor(rank, |table|)]) else None
  }

  lemma {:induction false} DecodeTakes<P(!new)>(pr: Protocol<P>, c: Conn)
    requires ProtocolOk(pr) && ConnOk(pr, c) && DecodeOnce(pr, c).1.Some?
    ensures c.buffer == DecodeOnce(pr, c).1.value.Bytes() + DecodeOnce(pr, c).0.buffer
  {
    var len := pr.read(c.phase, c.buffer).len;
    assert c.buffer == c.buffer[..len] + c.buffer[len..];
    if len < |c.buffer| {
      assert c.buffer == c.buffer[..len] + [c.buffer[len]] + c.buffer[len + 1..];
    }
  }

  lemma {:induction false} DecodeChecked<P(!new)>(pr: Protocol<P>, c: Conn, k: nat)
    returns (next: Conn, f: Frame<P>, k': nat)
    requires ProtocolOk(pr) && ConnOk(pr, c) && c.pos == Cursor(k, |pr.table|)
    requires (c.phase.Handshake? ==> k == 0) && DecodeOnce(pr, c).1.Some?
    ensures DecodeOnce(pr, c) == (next, Some(f)) && ConnOk(pr, next) && |next.buffer| < |c.buffer|
    ensures k' == k + Rank(f) && FrameChecked(pr.table, f, k)
    ensures next.pos == Cursor(k', |pr.table|) && (next.phase.Handshake? ==> k' == 0) && !next.failed
  {
    next, f := DecodeOnce(pr, c).0, DecodeOnce(pr, c).1.value;
    k' := k + Rank(f);
  }

  /** Every frame was checked against the table byte of its rank, counting from `k`. */
  ghost predicate AllChecked<P>(table: seq<Byte>, fs: seq<Frame<P>>, k: nat)
    requires table != []
  {
    fs == [] || (FrameChecked(table, fs[0], k) && AllChecked(table, fs[1..], k + Rank(fs[0])))
  }

  lemma {:induction false} AllCheckedAt<P>(table: seq<Byte>, fs: seq<Frame<P>>, k: nat, i: nat)
    requires table != [] && AllChecked(table, fs, k) && i < |fs|
    ensures FrameChecked(table, fs[i], k + Sequenced(fs, i))
  {
    if i > 0 {
      AllCheckedAt(table, fs[1..], k + Rank(fs[0]), i - 1);
    }
  }

  lemma {:induction false} DrainCons<P(!new)>(pr: Protocol<P>, c: Conn)
    requires ProtocolOk(pr) && ConnOk(pr, c) && DecodeOnce(pr, c).1.Some?
    ensures var (next, frame) := DecodeOnce(pr, c);
            var (rest, end) := Drain(pr, next);
            Drain(pr, c) == ([frame.value] + rest, end)
  {
  }

  lemma {:induction false} DrainNothing<P(!new)>(pr: Protocol<P>, c: Conn)
    requires ProtocolOk(pr) && ConnOk(pr, c) && DecodeOnce(pr, c).1.None?
    ensures Drain(pr, c).0 == [] && Drain(pr, c).1.buffer == c.buffer
  {
  }

  lemma {:induction false} ConcatCons<P>(f: Frame<P>, rest: seq<Frame<P>>, tail: seq<Byte>)
    ensures Concat([f] + rest) + tail == f.Bytes() + (Concat(rest) + tail)
  {
    assert ([f] + rest)[1..] == rest;
  }

  /** The frames taken and the bytes left are the stream, in order. */
  lemma {:induction false} DrainConserves<P(!new)>(pr: Protocol<P>, c: Conn)
    requires ProtocolOk(pr) && ConnOk(pr, c)
    ensures c.buffer == Concat(Drain(pr, c).0) + Drain(pr, c).1.buffer
    decreases |c.buffer|
  {
    var (next, frame) := DecodeOnce(pr, c);
    if frame.Some? {
      DecodeTakes(pr, c);
      DrainConserves(pr, next);
      DrainCons(pr, c);
      ConcatCons(frame.value, Drain(pr, next).0, Drain(pr, next).1.buffer);
    } else {
      DrainNothing(pr, c);
      assert [] + c.buffer == c.buffer;
    }
  }

  lemma {:induction false} AllCheckedCons<P>(table: seq<Byte>, f: Frame<P>, rest: seq<Frame<P>>, k: nat)
    requires table != [] && FrameChecked(table, f, k) && AllChecked(table, rest, k + Rank(f))
    ensures AllChecked(table, [f] + rest, k)
  {
    assert ([f] + rest)[1..] == rest;
  }

  ghost predicate ChecksOut<P(!new)>(pr: Protocol<P>, c: Conn, k: nat)
    requires ProtocolOk(pr) && ConnOk(pr, c)
  {
    AllChecked(pr.table, Drain(pr, c).0, k)
  }

  lemma {:induction false} CheckedStep<P(!new)>(pr: Protocol<P>, c: Conn, next: Conn, f: Frame<P>, k: nat)
    requires ProtocolOk(pr) && ConnOk(pr, c) && ConnOk(pr, next) && DecodeOnce(pr, c) == (next, Some(f))
    requires FrameChecked(pr.table, f, k) && ChecksOut(pr, next, k + Rank(f))
    ensures ChecksOut(pr, c, k)
  {
    AllCheckedCons(pr.table, f, Drain(pr, next).0, k);
    DrainCons(pr, c);
  }

  lemma {:induction false} CheckedNothing<P(!new)>(pr: Protocol<P>, c: Conn, k: nat)
    requires ProtocolOk(pr) && ConnOk(pr, c) && DecodeOnce(pr, c).1.None?
    ensures ChecksOut(pr, c, k)
  {
    DrainNothing(pr, c);
  }

  /** Every frame of a stream that starts after `k` sequenced packets met its rank's byte. */
  lemma {:induction false} DrainChecked<P(!new)>(pr: Protocol<P>, c: Conn, k: nat)
    requires ProtocolOk(pr) && ConnOk(pr, c) && c.pos == Cursor(k, |pr.table|)
    requires c.phase.Handshake? ==> k == 0
    ensures ChecksOut(pr, c, k)
    decreases |c.buffer|
  {
    if DecodeOnce(pr, c).1.None? {
      CheckedNothing(pr, c, k);
      return;
    }
    var next, f, k' := DecodeChecked(pr, c, k);
    DrainChecked(pr, next, k');
    CheckedStep(pr, c, next, f, k);
  }

  /** Frame `i` of a connection carries a sequence byte unless it is a Handshake packet or opens
      with 0xFE or 0xFF, and that byte is the table's at its rank modulo the table length. */
  ghost predicate RankByteMet<P>(table: seq<Byte>, fs: seq<Frame<P>>, i: nat)
    requires table != [] && i < |fs|
  {
    var f := fs[i];
    && f.raw != []
    && (f.check.Some? <==> !f.phase.Handshake? && f.raw[0] != 0xFE && f.raw[0] != 0xFF)
    && (f.check.Some? ==> f.check.value == table[Sequenced(fs, i) % |table|])
  }

  lemma {:induction false} RankBytesMet<P>(table: seq<Byte>, fs: seq<Frame<P>>)
    requires table != [] && AllChecked(table, fs, 0)
    ensures forall i :: 0 <= i < |fs| ==> RankByteMet(table, fs, i)
  {
    forall i | 0 <= i < |fs| ensures RankByteMet(table, fs, i) {
      AllCheckedAt(table, fs, 0, i);
      CursorIsMod(Sequenced(fs, i), |table|);
    }
  }

  /** The byte after a packet of `len` bytes that opens `b` is not the one due after `k` sequenced packets. */
  predicate WrongByte(table: seq<Byte>, b: seq<Byte>, len: nat, k: nat)
    requires table != []
  {
    len < |b| && b[len] != table[k % |table|]
  }

  /** Why the decoder takes nothing more from `b`: there is nothing, a packet or its sequence byte is
      still incomplete, or, and only then does the connection fail, a packet is malformed or followed
      by a wrong sequence byte. */
  ghost predicate StopsAt<P(!new)>(pr: Protocol<P>, phase: Phase, b: seq<Byte>, k: nat, failed: bool)
    requires ProtocolOk(pr)
  {
    if b == [] then !failed
    else match pr.read(phase, b)
      case Incomplete => !failed
      case Malformed => failed
      case Read(_, len) =>
        && !phase.Handshake? && b[0] != 0xFE && b[0] != 0xFF
        && (failed <==> WrongByte(pr.table, b, len, k)) && (failed || len == |b|)
  }

  lemma {:induction false} DecodeStops<P(!new)>(pr: Protocol<P>, c: Conn, k: nat) returns (next: Conn)
    requires ProtocolOk(pr) && ConnOk(pr, c) && !c.failed && c.pos == Cursor(k, |pr.table|)
    requires DecodeOnce(pr, c).1.None?
    ensures DecodeOnce(pr, c) == (next, None) && next.phase == c.phase && next.buffer == c.buffer
    ensures StopsAt(pr, c.phase, c.buffer, k, next.failed)
  {
    next := DecodeOnce(pr, c).0;
    CursorIsMod(k, |pr.table|);
  }

  /** The frames came after `k` sequenced packets, and what is left after them is left for a reason. */
  ghost predicate StopsRight<P(!new)>(pr: Protocol<P>, fs: seq<Frame<P>>, end: Conn, k: nat)
    requires ProtocolOk(pr)
  {
    StopsAt(pr, end.phase, end.buffer, k + Sequenced(fs, |fs|), end.failed)
  }

  lemma {:induction false} StopsCons<P(!new)>(pr: Protocol<P>, f: Frame<P>, rest: seq<Frame<P>>, end: Conn, k: nat)
    requires ProtocolOk(pr) && StopsRight(pr, rest, end, k + Rank(f))
    ensures StopsRight(pr, [f] + rest, end, k)
  {
    assert ([f] + rest)[1..] == rest;
    assert Sequenced([f] + rest, |[f] + rest|) == Rank(f) + Sequenced(rest, |rest|);
  }

  lemma {:induction false} StopsNil<P(!new)>(pr: Protocol<P>, end: Conn, k: nat)
    requires ProtocolOk(pr) && StopsAt(pr, end.phase, end.buffer, k, end.failed)
    ensures StopsRight<P>(pr, [], end, k)
  {
  }

  lemma {:induction false} DrainNone<P(!new)>(pr: Protocol<P>, c: Conn, next: Conn)
    requires ProtocolOk(pr) && ConnOk(pr, c) && DecodeOnce(pr, c) == (next, None)
    ensures Drain(pr, c) == ([], next)
  {
  }

  /** Draining stops only where it must. */
  lemma {:induction false} DrainStops<P(!new)>(pr: Protocol<P>, c: Conn, k: nat)
    returns (fs: seq<Frame<P>>, end: Conn)
    requires ProtocolOk(pr) && ConnOk(pr, c) && !c.failed && c.pos == Cursor(k, |pr.table|)
    requires c.phase.Handshake? ==> k == 0
    ensures Drain(pr, c) == (fs, end) && StopsRight(pr, fs, end, k)
    decreases |c.buffer|
  {
    if DecodeOnce(pr, c).1.None? {
      end := DecodeStops(pr, c, k);
      fs := [];
      StopsNil(pr, end, k);
      DrainNone(pr, c, end);
      return;
    }
    var next, f, k' := DecodeChecked(pr, c, k);
    var rest;
    rest, end := DrainStops(pr, next, k');
    fs := [f] + rest;
    DrainCons(pr, c);
    StopsCons(pr, f, rest, end, k);
  }

  /** What a connection makes of its bytes: no byte is lost, the k-th sequenced packet met table byte k
      modulo the table length, and what is left is left for a reason. */
  ghost predicate ReadExactly<P(!new)>(pr: Protocol<P>, bytes: seq<Byte>, fs: seq<Frame<P>>, end: Conn)
    requires ProtocolOk(pr)
  {
    && bytes == Concat(fs) + end.buffer && (forall i :: 0 <= i < |fs| ==> RankByteMet(pr.table, fs, i))
    && StopsRight(pr, fs, end, 0)
  }

  lemma {:induction false} ReadParts<P(!new)>(pr: Protocol<P>, bytes: seq<Byte>, fs: seq<Frame<P>>, end: Conn)
    requires ProtocolOk(pr) && bytes == Concat(fs) + end.buffer && AllChecked(pr.table, fs, 0)
    requires StopsRight(pr, fs, end, 0)
    ensures ReadExactly(pr, bytes, fs, end)
  {
    RankBytesMet(pr.table, fs);
  }

  lemma {:induction false} StreamChecked<P(!new)>(pr: Protocol<P>, c: Conn, fs: seq<Frame<P>>, end: Conn)
    requires ProtocolOk(pr) && ConnOk(pr, c) && c.pos == 0 && Drain(pr, c) == (fs, end)
    ensures c.buffer == Concat(fs) + end.buffer && AllChecked(pr.table, fs, 0)
  {
    DrainConserves(pr, c);
    DrainChecked(pr, c, 0);
  }

  lemma {:induction false} StreamExact<P(!new)>(pr: Protocol<P>, c: Conn) returns (fs: seq<Frame<P>>, end: Conn)
    requires ProtocolOk(pr) && ConnOk(pr, c) && !c.failed && c.pos == 0
    ensures Drain(pr, c) == (fs, end) && ReadExactly(pr, c.buffer, fs, end)
  {
    fs, end := DrainStops(pr, c, 0);
    StreamChecked(pr, c, fs, end);
    ReadParts(pr, c.buffer, fs, end);
  }

  /** A whole connection from its first byte, over any chunking and any phase changes: no byte is lost,
      the sequence bytes met the table, and the connection fails exactly at a malformed packet or a
      wrong sequence byte and otherwise waits only for bytes still to come. */
  lemma {:induction false} ConnectionExact<P(!new)>(pr: Protocol<P>, steps: seq<IoStep>)
    requires ProtocolOk(pr)
    ensures var (taken, now) := RunIo(pr, OPENED, steps);
            var (rest, end) := Drain(pr, now);
            ReadExactly(pr, Arrived(steps), taken + rest, end)
  {
    ChunkingIrrelevant(pr, OPENED, steps);
    assert [] + Arrived(steps) == Arrived(steps);
    var fs, end := StreamExact(pr, Arrive(OPENED, Arrived(steps)));
  }

  // ----- the order of phases

  predicate Follows(a: Phase, b: Phase) {
    a == b || (a, b) in {(Handshake, Login), (Login, Select), (Select, Loading), (Loading, InGame), (InGame, Select)}
  }

  /** The frames come in `phase` and the phases that follow it one by one up to `last`. */
  ghost predicate Chain<P>(phase: Phase, fs: seq<Frame<P>>, last: Phase)
    decreases |fs|
  {
    if fs == [] then phase == last
    else
      var next := if |fs| > 1 then fs[1].phase else last;
      fs[0].phase == phase && Follows(phase, next) && Chain(next, fs[1..], last)
  }

  lemma {:induction false} DecodeFollows<P(!new)>(pr: Protocol<P>, c: Conn)
    requires ProtocolOk(pr) && ConnOk(pr, c)
    ensures var (next, frame) := DecodeOnce(pr, c);
            if frame.Some? then frame.value.phase == c.phase && Follows(c.phase, next.phase) else next.phase == c.phase
  {
  }

  lemma {:induction false} ChainCons<P>(f: Frame<P>, next: Phase, rest: seq<Frame<P>>, last: Phase)
    requires Follows(f.phase, next) && Chain(next, rest, last)
    ensures Chain(f.phase, [f] + rest, last)
  {
    assert ([f] + rest)[1..] == rest;
  }

  lemma {:induction false} DrainFollows<P(!new)>(pr: Protocol<P>, c: Conn) returns (fs: seq<Frame<P>>, end: Conn)
    requires ProtocolOk(pr) && ConnOk(pr, c)
    ensures Drain(pr, c) == (fs, end) && Chain(c.phase, fs, end.phase)
    decreases |c.buffer|
  {
    DecodeFollows(pr, c);
    var next, frame := DecodeOnce(pr, c).0, DecodeOnce(pr, c).1;
    if frame.None? {
      fs, end := [], next;
      DrainNone(pr, c, next);
      return;
    }
    var rest;
    rest, end := DrainFollows(pr, next);
    fs := [frame.value] + rest;
    DrainCons(pr, c);
    ChainCons(frame.value, next.phase, rest, end.phase);
  }

  /** How far a phase is from the first one; the last three come round again. */
  function Depth(phase: Phase): nat {
    match phase
    case Handshake => 0
    case Login => 1
    case _ => 2
  }

  /** Along a chain of frames each phase is the one before it or follows it, and what is before Select
      never comes back. */
  ghost predicate GoesForward<P>(fs: seq<Frame<P>>) {
    && (forall i :: 0 <= i < |fs| - 1 ==> Follows(fs[i].phase, fs[i + 1].phase))
    && (forall i, j :: 0 <= i < j < |fs| ==> Depth(fs[i].phase) <= Depth(fs[j].phase))
  }

  lemma {:induction false} ChainForward<P>(phase: Phase, fs: seq<Frame<P>>, last: Phase)
    requires Chain(phase, fs, last)
    ensures GoesForward(fs) && forall i :: 0 <= i < |fs| ==> Depth(phase) <= Depth(fs[i].phase)
    decreases |fs|
  {
    if fs != [] {
      var rest := fs[1..];
      assert forall i :: 0 <= i < |rest| ==> rest[i] == fs[i + 1];
      ChainForward(if |fs| > 1 then fs[1].phase else last, rest, last);
      forall i | 0 <= i < |fs| - 1 ensures Follows(fs[i].phase, fs[i + 1].phase) {
        if i > 0 {
          assert Follows(rest[i - 1].phase, rest[i - 1 + 1].phase);
        }
      }
      forall i | 0 < i < |fs| ensures Depth(phase) <= Depth(fs[i].phase) {
        assert fs[i] == rest[i - 1];
      }
    }
  }

  /** A connection starts with the handshake and only goes on: whatever the server decides and however
      the bytes arrive, no packet is read in a phase that does not follow the one before it, and none as
      a handshake or login packet once that is over. */
  lemma {:induction false} PhasesForward<P(!new)>(pr: Protocol<P>, steps: seq<IoStep>)
    requires ProtocolOk(pr)
    ensures var (taken, now) := RunIo(pr, OPENED, steps);
            var fs := taken + Drain(pr, now).0;
            GoesForward(fs) && (fs != [] ==> fs[0].phase.Handshake?)
  {
    ChunkingIrrelevant(pr, OPENED, steps);
    var fs, end := DrainFollows(pr, Arrive(OPENED, Arrived(steps)));
    ChainForward(Handshake, fs, end.phase);
  }

  // ----- what a well-behaved client sends

  /** How a client writes packets, and which of them belong to which phase. */
  datatype Client<!P> = Client(write: P -> seq<Byte>, belongs: (Phase, P) -> bool)

  /** The reader of a phase takes back every packet that belongs to the phase, whatever follows it. */
  ghost predicate ClientOk<P(!new)>(pr: Protocol<P>, client: Client<P>) {
    forall ph, p, more {:trigger pr.read(ph, client.write(p) + more)} :: client.belongs(ph, p) ==>
      client.write(p) != [] && pr.read(ph, client.write(p) + more) == Read(p, |client.write(p)|)
  }

  /** Every packet belongs to the phase in which it is sent, the phase changing as the server decides. */
  predicate Spoken<P(!new)>(pr: Protocol<P>, client: Client<P>, n: nat, phase: Phase, ps: seq<P>)
    decreases |ps|
  {
    ps == [] || (client.belongs(phase, ps[0]) && Spoken(pr, client, n + 1, pr.next(n, phase, ps[0]), ps[1..]))
  }

  /** The client's bytes for a list of packets, each followed by its sequence byte if it needs one. */
  function ClientBytes<P(!new)>(pr: Protocol<P>, client: Client<P>, n: nat, phase: Phase, k: nat,
                                ps: seq<P>): seq<Byte>
    requires pr.table != []
    decreases |ps|
  {
    if ps == [] then []
    else
      var raw := client.write(ps[0]);
      var sequenced := raw != [] && IsSequenced(phase, raw[0]);
      var tail := ClientBytes(pr, client, n + 1, pr.next(n, phase, ps[0]), if sequenced then k + 1 else k, ps[1..]);
      raw + if sequenced then [pr.table[Cursor(k, |pr.table|)]] + tail else tail
  }

  function Packets<P>(fs: seq<Frame<P>>): seq<P> {
    if fs == [] then [] else [fs[0].packet] + Packets(fs[1..])
  }

  /** The decoder takes the packet at the head of a well-formed stream. */
  lemma {:induction false} DecodeWritten<P(!new)>(pr: Protocol<P>, c: Conn, p: P, raw: seq<Byte>, tail: seq<Byte>)
    requires ProtocolOk(pr) && ConnOk(pr, c) && !c.failed && raw != []
    requires c.buffer == raw + tail && pr.read(c.phase, c.buffer) == Read(p, |raw|)
    requires IsSequenced(c.phase, raw[0]) ==> tail != [] && tail[0] == pr.table[c.pos]
    ensures var (next, frame) := DecodeOnce(pr, c);
            && frame.Some? && frame.value.packet == p && !next.failed
                && next.phase == pr.next(c.handled, c.phase, p) && next.handled == c.handled + 1
            && next.buffer == (if IsSequenced(c.phase, raw[0]) then tail[1..] else tail)
            && next.pos == (if IsSequenced(c.phase, raw[0]) then NextPos(c.pos, |pr.table|) else c.pos)
  {
    assert c.buffer[|raw|..] == tail;
    if tail != [] {
      assert c.buffer[|raw| + 1..] == tail[1..];
    }
  }

  ghost predicate ClientStream<P(!new)>(pr: Protocol<P>, client: Client<P>, c: Conn, k: nat, ps: seq<P>)
    requires pr.table != []
  {
    && ConnOk(pr, c) && !c.failed
    && c.pos == Cursor(k, |pr.table|) && (c.phase.Handshake? ==> k == 0)
    && Spoken(pr, client, c.handled, c.phase, ps)
    && c.buffer == ClientBytes(pr, client, c.handled, c.phase, k, ps)
  }

  function Trailer<P(!new)>(pr: Protocol<P>, sequenced: bool, k: nat): seq<Byte>
    requires pr.table != []
  {
    if sequenced then [pr.table[Cursor(k, |pr.table|)]] else []
  }

  lemma {:induction false} WrittenRead<P(!new)>(pr: Protocol<P>, client: Client<P>, ph: Phase, p: P,
                                                more: seq<Byte>)
    requires ClientOk(pr, client) && client.belongs(ph, p)
    ensures client.write(p) != [] && pr.read(ph, client.write(p) + more) == Read(p, |client.write(p)|)
  {
  }

  lemma {:induction false} ClientHead<P(!new)>(pr: Protocol<P>, client: Client<P>, n: nat, phase: Phase, k: nat,
                                               ps: seq<P>)
    returns (raw: seq<Byte>, sequenced: bool, tail: seq<Byte>)
    requires ProtocolOk(pr) && ClientOk(pr, client) && ps != [] && client.belongs(phase, ps[0])
    ensures raw != [] && sequenced == IsSequenced(phase, raw[0])
    ensures tail == ClientBytes(pr, client, n + 1, pr.next(n, phase, ps[0]), if sequenced then k + 1 else k, ps[1..])
    ensures ClientBytes(pr, client, n, phase, k, ps) == raw + (Trailer(pr, sequenced, k) + tail)
    ensures pr.read(phase, raw + (Trailer(pr, sequenced, k) + tail)) == Read(ps[0], |raw|)
  {
    var p := ps[0];
    WrittenRead(pr, client, phase, p, []);
    raw := client.write(p);
    sequenced := IsSequenced(phase, raw[0]);
    tail := ClientBytes(pr, client, n + 1, pr.next(n, phase, p), if sequenced then k + 1 else k, ps[1..]);
    WrittenRead(pr, client, phase, p, Trailer(pr, sequenced, k) + tail);
  }

  /** What the decoder makes of the packet at the head of a client's stream. */
  lemma {:induction false} DecodeHead<P(!new)>(pr: Protocol<P>, c: Conn, p: P, raw: seq<Byte>, k: nat, tail: seq<Byte>)
    requires ProtocolOk(pr) && ConnOk(pr, c) && !c.failed && raw != [] && c.pos == Cursor(k, |pr.table|)
    requires c.buffer == raw + (Trailer(pr, IsSequenced(c.phase, raw[0]), k) + tail)
    requires pr.read(c.phase, c.buffer) == Read(p, |raw|)
    ensures var (next, frame) := DecodeOnce(pr, c);
            && frame.Some? && frame.value.packet == p && !next.failed && next.buffer == tail
            && next.phase == pr.next(c.handled, c.phase, p) && next.handled == c.handled + 1
            && next.pos == Cursor(if IsSequenced(c.phase, raw[0]) then k + 1 else k, |pr.table|)
            && (next.phase.Handshake? ==> c.phase.Handshake?) && ConnOk(pr, next)
  {
    var more := Trailer(pr, IsSequenced(c.phase, raw[0]), k) + tail;
    assert (if IsSequenced(c.phase, raw[0]) then more[1..] else more) == tail;
    DecodeWritten(pr, c, p, raw, more);
  }

  lemma {:induction false} ClientStep<P(!new)>(pr: Protocol<P>, client: Client<P>, c: Conn, k: nat, ps: seq<P>)
    returns (k': nat)
    requires ProtocolOk(pr) && ClientOk(pr, client) && ClientStream(pr, client, c, k, ps) && ps != []
    ensures var (next, frame) := DecodeOnce(pr, c);
            frame.Some? && frame.value.packet == ps[0] && ClientStream(pr, client, next, k', ps[1..])
  {
    var raw, sequenced, tail := ClientHead(pr, client, c.handled, c.phase, k, ps);
    k' := if sequenced then k + 1 else k;
    DecodeHead(pr, c, ps[0], raw, k, tail);
  }

  lemma {:induction false} PacketsCons<P>(f: Frame<P>, rest: seq<Frame<P>>)
    ensures Packets([f] + rest) == [f.packet] + Packets(rest)
  {
    assert ([f] + rest)[1..] == rest;
  }

  lemma {:induction false} DrainPackets<P(!new)>(pr: Protocol<P>, c: Conn)
    requires ProtocolOk(pr) && ConnOk(pr, c) && DecodeOnce(pr, c).1.Some?
    ensures var (next, frame) := DecodeOnce(pr, c);
            && Packets(Drain(pr, c).0) == [frame.value.packet] + Packets(Drain(pr, next).0)
            && Drain(pr, c).1 == Drain(pr, next).1
  {
    DrainCons(pr, c);
    PacketsCons(DecodeOnce(pr, c).1.value, Drain(pr, DecodeOnce(pr, c).0).0);
  }

  /** Everything a client sends in its own phase, with correct sequence bytes, is received through every
      phase change, with nothing left. */
  lemma {:induction false} ClientIsHeard<P(!new)>(pr: Protocol<P>, client: Client<P>, c: Conn, k: nat, ps: seq<P>)
    requires ProtocolOk(pr) && ClientOk(pr, client) && ClientStream(pr, client, c, k, ps)
    ensures var (fs, end) := Drain(pr, c);
            Packets(fs) == ps && end.buffer == [] && !end.failed
    decreases |ps|
  {
    if ps != [] {
      var k' := ClientStep(pr, client, c, k, ps);
      var (next, frame) := DecodeOnce(pr, c);
      ClientIsHeard(pr, client, next, k', ps[1..]);
      DrainPackets(pr, c);
    }
  }

  /** The same from the bytes on: however they are split and whenever the decoder is called. */
  lemma {:induction false} ClientIsHeardInChunks<P(!new)>(pr: Protocol<P>, client: Client<P>, c: Conn, k: nat,
                                                          ps: seq<P>, steps: seq<IoStep>)
    requires ProtocolOk(pr) && ClientOk(pr, client) && ConnOk(pr, c) && !c.failed && c.buffer == []
    requires c.pos == Cursor(k, |pr.table|) && (c.phase.Handshake? ==> k == 0)
    requires Spoken(pr, client, c.handled, c.phase, ps)
    requires Arrived(steps) == ClientBytes(pr, client, c.handled, c.phase, k, ps)
    ensures var (taken, now) := RunIo(pr, c, steps);
            var (rest, end) := Drain(pr, now);
            Packets(taken + rest) == ps && end.buffer == [] && !end.failed
  {
    ChunkingIrrelevant(pr, c, steps);
    assert [] + Arrived(steps) == Arrived(steps);
    ClientIsHeard(pr, client, Arrive(c, Arrived(steps)), k, ps);
  }
}
