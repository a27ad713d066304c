/** The packets a game client may send in each phase, their readers, and a client heard over a session. */
module GamePackets {
  import opened Common
  import opened Framing
  import opened ControlPackets

  const USERNAME_BYTES: nat := 31
  const ENC_KEY_BYTES: nat := 16
  const PLAYER_NAME_BYTES: nat := 25
  const DELETE_CODE_BYTES: nat := 7
  const VERSION_BYTES: nat := 33
  const CHAT_HEADER_BYTES: nat := 4

  /** Everything the five phases' packet enums hold; world positions by their bit patterns. */
  datatype GameC2s =
    | Control(packet: ControlC2s)
    | FetchChannelList
    | RequestTokenLogin(username: seq<Byte>, token: U32, encKey: seq<Byte>)
    | SubmitEmpireChoice(empire: Byte)
    | RequestCreatePlayer(newSlot: Byte, name: seq<Byte>, classGender: Byte, reserved: Byte, appearance: Byte,
                          reservedStats: U32)
    | RequestDeletePlayer(oldSlot: Byte, code: seq<Byte>, padding: Byte)
    | SubmitPlayerChoice(slot: Byte)
    | SubmitClientVersion(clientName: seq<Byte>, version: seq<Byte>)
    | SignalLoadingComplete
    | InputMovement(kind: Byte, arg: Byte, rot: Byte, x: U32, y: U32, ts: U32)
    | SubmitChatMessage(chatKind: Byte, message: seq<Byte>)
    | InputAttack(attackType: Byte, target: U32, unknown: seq<Byte>)
    | SignalTargetSwitch(newTarget: U32)

  // ----- layouts

  /** What one byte of a layout may be. */
  datatype Field = AnyByte | SlotByte | EmpireByte | ClassByte | AppearanceByte | MoveByte | ChatByte | SkillByte

  /** The discriminants of `Skill`. */
  predicate IsSkill(b: Byte) {
    || 1 <= b <= 6 || 16 <= b <= 21 || 31 <= b <= 36 || 46 <= b <= 51 || 61 <= b <= 66 || 76 <= b <= 81
    || 91 <= b <= 96 || 106 <= b <= 111 || 121 <= b <= 124 || 126 <= b <= 131 || 137 <= b <= 142 || 151 <= b <= 159
  }

  predicate Allows(f: Field, b: Byte) {
    match f
    case AnyByte => true
    case SlotByte => b < 4
    case EmpireByte => 1 <= b <= 3
    case ClassByte => b < 8
    case AppearanceByte => b < 2
    case MoveByte => b < 4
    case ChatByte => b <= 2 || b == 5 || b == 6
    case SkillByte => b == 0 || IsSkill(b)
  }

  function Fill(n: nat): seq<Field> {
    seq(n, _ => AnyByte)
  }

  /** The length a chat header announces, less the header. */
  function ChatLength(b: seq<Byte>): nat
    requires |b| >= 2
  {
    var low: int, high: int := b[0], b[1];
    var size := low + 256 * high;
    if size < CHAT_HEADER_BYTES then 0 else size - CHAT_HEADER_BYTES
  }

  /** The layout after the opcode of the packets a phase knows, besides control packets; that of chat
      depends on the size at its head. */
  function Layout(ph: Phase, opcode: Byte, b: seq<Byte>): Option<seq<Field>> {
    match ph
    case Handshake => if opcode == 0xCE then Some([]) else None
    case Login => if opcode == 0x6D then Some(Fill(USERNAME_BYTES + 4 + ENC_KEY_BYTES)) else None
    case Select =>
      if opcode == 0x5A then Some([EmpireByte])
      else if opcode == 0x04 then
        Some([SlotByte] + Fill(PLAYER_NAME_BYTES) + [ClassByte, AnyByte, AppearanceByte] + Fill(4))
      else if opcode == 0x05 then Some([SlotByte] + Fill(DELETE_CODE_BYTES + 1))
      else if opcode == 0x06 then Some([SlotByte])
      else None
    case Loading =>
      if opcode == 0xF1 then Some(Fill(VERSION_BYTES + VERSION_BYTES))
      else if opcode == 0x0A then Some([])
      else None
    case InGame =>
      if opcode == 0x07 then Some([MoveByte] + Fill(14))
      else if opcode == 0x03 then Some([AnyByte, AnyByte, ChatByte] + Fill(if |b| < 2 then 0 else ChatLength(b)))
      else if opcode == 0x02 then Some([SkillByte] + Fill(6))
      else if opcode == 0x3D then Some(Fill(4))
      else None
  }

  datatype Scanned = Whole | Short | Bad

  /** Fields are read in order: the first bad byte fails, running out before it waits for more. */
  function Scan(layout: seq<Field>, b: seq<Byte>): Scanned
    decreases |layout|
  {
    if layout == [] then Whole
    else if b == [] then Short
    else if !Allows(layout[0], b[0]) then Bad
    else Scan(layout[1..], b[1..])
  }

  predicate FitsLayout(layout: seq<Field>, body: seq<Byte>) {
    |body| == |layout| && forall i :: 0 <= i < |body| ==> Allows(layout[i], body[i])
  }

  lemma {:induction false} ScanFitting(layout: seq<Field>, body: seq<Byte>, more: seq<Byte>)
    requires FitsLayout(layout, body)
    ensures Scan(layout, body + more) == Whole
    decreases |layout|
  {
    if layout != [] {
      assert (body + more)[1..] == body[1..] + more;
      ScanFitting(layout[1..], body[1..], more);
    }
  }

  lemma {:induction false} ScanLength(layout: seq<Field>, b: seq<Byte>)
    requires Scan(layout, b) == Whole
    ensures |layout| <= |b|
    decreases |layout|
  {
    if layout != [] {
      ScanLength(layout[1..], b[1..]);
    }
  }

  lemma {:induction false} ScanStable(layout: seq<Field>, b: seq<Byte>, more: seq<Byte>)
    requires Scan(layout, b) != Short
    ensures Scan(layout, b + more) == Scan(layout, b)
    decreases |layout|
  {
    if layout != [] {
      assert (b + more)[1..] == b[1..] + more;
      if Allows(layout[0], b[0]) {
        ScanStable(layout[1..], b[1..], more);
      }
    }
  }

  // ----- reading and writing

  /** The packet with this opcode and body in this phase. */
  function Decoded(ph: Phase, opcode: Byte, b: seq<Byte>): GameC2s
    requires Layout(ph, opcode, b).Some? && |b| == |Layout(ph, opcode, b).value|
  {
    match ph
    case Handshake => FetchChannelList
    case Login => RequestTokenLogin(b[..31], ReadU32(b[31..]), b[35..])
    case Select =>
      if opcode == 0x5A then SubmitEmpireChoice(b[0])
      else if opcode == 0x04 then RequestCreatePlayer(b[0], b[1..26], b[26], b[27], b[28], ReadU32(b[29..]))
      else if opcode == 0x05 then RequestDeletePlayer(b[0], b[1..8], b[8])
      else SubmitPlayerChoice(b[0])
    case Loading =>
      if opcode == 0xF1 then SubmitClientVersion(b[..33], b[33..]) else SignalLoadingComplete
    case InGame =>
      if opcode == 0x07 then InputMovement(b[0], b[1], b[2], ReadU32(b[3..]), ReadU32(b[7..]), ReadU32(b[11..]))
      else if opcode == 0x03 then SubmitChatMessage(b[2], b[3..])
      else if opcode == 0x02 then InputAttack(b[0], ReadU32(b[1..]), b[5..])
      else SignalTargetSwitch(ReadU32(b))
  }

  function GameOpcode(p: GameC2s): Byte {
    match p
    case Control(c) => Opcode(c)
    case FetchChannelList => 0xCE
    case RequestTokenLogin(_, _, _) => 0x6D
    case SubmitEmpireChoice(_) => 0x5A
    case RequestCreatePlayer(_, _, _, _, _, _) => 0x04
    case RequestDeletePlayer(_, _, _) => 0x05
    case SubmitPlayerChoice(_) => 0x06
    case SubmitClientVersion(_, _) => 0xF1
    case SignalLoadingComplete => 0x0A
    case InputMovement(_, _, _, _, _, _) => 0x07
    case SubmitChatMessage(_, _) => 0x03
    case InputAttack(_, _, _) => 0x02
    case SignalTargetSwitch(_) => 0x3D
  }

  /** The chat size is written as a `u16`, wrapping. */
  function ChatSize(message: seq<Byte>): seq<Byte> {
    var size := (|message| + CHAT_HEADER_BYTES) % 0x10000;
    [size % 256, size / 256]
  }

  function Body(p: GameC2s): seq<Byte> {
    match p
    case Control(c) => if c.HeartbeatResponse? then [] else WriteSync(c.data)
    case FetchChannelList => []
    case RequestTokenLogin(username, token, encKey) => username + WriteU32(token) + encKey
    case SubmitEmpireChoice(empire) => [empire]
    case RequestCreatePlayer(slot, name, classGender, reserved, appearance, stats) =>
      [slot] + name + [classGender, reserved, appearance] + WriteU32(stats)
    case RequestDeletePlayer(slot, code, padding) => [slot] + code + [padding]
    case SubmitPlayerChoice(slot) => [slot]
    case SubmitClientVersion(clientName, version) => clientName + version
    case SignalLoadingComplete => []
    case InputMovement(kind, arg, rot, x, y, ts) => [kind, arg, rot] + WriteU32(x) + WriteU32(y) + WriteU32(ts)
    case SubmitChatMessage(chatKind, message) => ChatSize(message) + [chatKind] + message
    case InputAttack(attackType, target, unknown) => [attackType] + WriteU32(target) + unknown
    case SignalTargetSwitch(target) => WriteU32(target)
  }

  function WriteGame(p: GameC2s): seq<Byte> {
    [GameOpcode(p)] + Body(p)
  }

  predicate IsControlOpcode(opcode: Byte) {
    opcode == OPCODE_HEARTBEAT_RESPONSE || opcode == OPCODE_HANDSHAKE_RESPONSE || opcode == OPCODE_TIME_SYNC_REQUEST
  }

  /** The layout does not depend on anything behind the packet. */
  lemma LayoutOfBody(ph: Phase, opcode: Byte, b: seq<Byte>)
    requires Layout(ph, opcode, b).Some? && |Layout(ph, opcode, b).value| <= |b|
    ensures Layout(ph, opcode, b[..|Layout(ph, opcode, b).value|]) == Layout(ph, opcode, b)
  {
  }

  /** The body is all there: the packet and how many bytes it took. */
  function ReadWhole(ph: Phase, opcode: Byte, b: seq<Byte>): ReadResult<GameC2s>
    requires Layout(ph, opcode, b).Some? && Scan(Layout(ph, opcode, b).value, b) == Whole
  {
    var n := |Layout(ph, opcode, b).value|;
    ScanLength(Layout(ph, opcode, b).value, b);
    LayoutOfBody(ph, opcode, b);
    Read(Decoded(ph, opcode, b[..n]), n + 1)
  }

  /** The reader of a phase: routed by opcode, then field by field. */
  function ReadGame(ph: Phase, b: seq<Byte>): ReadResult<GameC2s> {
    if b == [] then Incomplete
    else if IsControlOpcode(b[0]) then
      match ReadControl(b)
      case Incomplete => Incomplete
      case Malformed => Malformed
      case Read(c, n) => Read(Control(c), n)
    else
      var layout := Layout(ph, b[0], b[1..]);
      if layout.None? then Malformed
      else match Scan(layout.value, b[1..])
        case Short => Incomplete
        case Bad => Malformed
        case Whole => ReadWhole(ph, b[0], b[1..])
  }

  // ----- the reader meets the decoder's contract

  lemma LayoutStable(ph: Phase, opcode: Byte, b: seq<Byte>, more: seq<Byte>)
    ensures Layout(ph, opcode, b).None? <==> Layout(ph, opcode, b + more).None?
    ensures |b| >= 2 ==> Layout(ph, opcode, b + more) == Layout(ph, opcode, b)
  {
  }

  /** With fewer than two bytes the layout of chat is open, but no byte of it can be bad yet. */
  lemma ChatHeadOpen(b: seq<Byte>, more: seq<Byte>)
    requires |b| < 2
    ensures Scan(Layout(InGame, 0x03, b).value, b) == Short
  {
    var layout := Layout(InGame, 0x03, b).value;
    if |b| == 1 {
      assert b[1..] == [] && layout[1..] != [];
    }
  }

  /** Once the reader of a phase has decided, later bytes do not matter. */
  lemma GameReaderStable(ph: Phase, b: seq<Byte>, more: seq<Byte>)
    requires b != [] && !ReadGame(ph, b).Incomplete?
    ensures ReadGame(ph, b + more) == ReadGame(ph, b)
  {
    if IsControlOpcode(b[0]) {
      ControlReaderStable(b, more);
    } else {
      var rest := b[1..];
      assert (b + more)[1..] == rest + more;
      LayoutStable(ph, b[0], rest, more);
      if Layout(ph, b[0], rest).Some? {
        var layout := Layout(ph, b[0], rest).value;
        if ph.InGame? && b[0] == 0x03 && |rest| < 2 {
          ChatHeadOpen(rest, more);
        }
        assert Layout(ph, b[0], rest + more) == Layout(ph, b[0], rest);
        ScanStable(layout, rest, more);
        if Scan(layout, rest) == Whole {
          ScanLength(layout, rest);
          assert (rest + more)[..|layout|] == rest[..|layout|];
        }
      }
    }
  }

  lemma GameReadLength(ph: Phase, b: seq<Byte>)
    ensures ReadGame(ph, b).Read? ==> 1 <= ReadGame(ph, b).len <= |b|
  {
    if b != [] && !IsControlOpcode(b[0]) && Layout(ph, b[0], b[1..]).Some? {
      var layout := Layout(ph, b[0], b[1..]).value;
      if Scan(layout, b[1..]) == Whole {
        ScanLength(layout, b[1..]);
      }
    }
  }

  // ----- every packet is read back in its own phase

  function HomeOf(p: GameC2s): Phase
    requires !p.Control?
  {
    match p
    case FetchChannelList => Handshake
    case RequestTokenLogin(_, _, _) => Login
    case SubmitEmpireChoice(_) => Select
    case RequestCreatePlayer(_, _, _, _, _, _) => Select
    case RequestDeletePlayer(_, _, _) => Select
    case SubmitPlayerChoice(_) => Select
    case SubmitClientVersion(_, _) => Loading
    case SignalLoadingComplete => Loading
    case InputMovement(_, _, _, _, _, _) => InGame
    case SubmitChatMessage(_, _) => InGame
    case InputAttack(_, _, _) => InGame
    case SignalTargetSwitch(_) => InGame
  }

  /** The fixed widths, the enum discriminants, and a chat message whose size fits its `u16`. */
  predicate FieldsOk(p: GameC2s) {
    match p
    case RequestTokenLogin(username, _, encKey) => |username| == 31 && |encKey| == 16
    case SubmitEmpireChoice(empire) => empire == 1 || empire == 2 || empire == 3
    case RequestCreatePlayer(slot, name, classGender, _, appearance, _) =>
      slot <= 3 && |name| == 25 && classGender <= 7 && appearance <= 1
    case RequestDeletePlayer(slot, code, _) => slot <= 3 && |code| == 7
    case SubmitPlayerChoice(slot) => slot <= 3
    case SubmitClientVersion(clientName, version) => |clientName| == 33 && |version| == 33
    case InputMovement(kind, _, _, _, _, _) => kind <= 3
    case SubmitChatMessage(chatKind, message) => chatKind in {0, 1, 2, 5, 6} && |message| <= 65531
    case InputAttack(attackType, _, unknown) => (attackType == 0 || IsSkill(attackType)) && |unknown| == 2
    case _ => true
  }

  /** Control packets belong everywhere, any other packet to its own phase. */
  predicate Belongs(ph: Phase, p: GameC2s) {
    p.Control? || (ph == HomeOf(p) && FieldsOk(p))
  }

  /** The body is laid out as its phase expects, whatever follows, and decodes to the packet. */
  ghost predicate LaidOut(p: GameC2s, more: seq<Byte>)
    requires !p.Control?
  {
    var layout := Layout(HomeOf(p), GameOpcode(p), Body(p) + more);
    && layout.Some? && FitsLayout(layout.value, Body(p))
    && Layout(HomeOf(p), GameOpcode(p), Body(p)) == layout && Decoded(HomeOf(p), GameOpcode(p), Body(p)) == p
  }

  lemma LoginLaidOut(p: GameC2s, more: seq<Byte>)
    requires p.RequestTokenLogin? && FieldsOk(p)
    ensures LaidOut(p, more)
  {
    var b := Body(p);
    assert b[..31] == p.username && b[35..] == p.encKey && b[31..] == WriteU32(p.token) + p.encKey;
    U32RoundTrip(p.token, p.encKey);
  }

  lemma CreateLaidOut(p: GameC2s, more: seq<Byte>)
    requires p.RequestCreatePlayer? && FieldsOk(p)
    ensures LaidOut(p, more)
  {
    var b := Body(p);
    assert b[1..26] == p.name && b[29..] == WriteU32(p.reservedStats) + [];
    U32RoundTrip(p.reservedStats, []);
  }

  lemma DeleteLaidOut(p: GameC2s, more: seq<Byte>)
    requires p.RequestDeletePlayer? && FieldsOk(p)
    ensures LaidOut(p, more)
  {
    assert Body(p)[1..8] == p.code;
  }

  lemma SelectLaidOut(p: GameC2s, more: seq<Byte>)
    requires !p.Control? && HomeOf(p).Select? && FieldsOk(p)
    ensures LaidOut(p, more)
  {
    match p {
      case RequestCreatePlayer(_, _, _, _, _, _) => CreateLaidOut(p, more);
      case RequestDeletePlayer(_, _, _) => DeleteLaidOut(p, more);
      case _ =>
    }
  }

  lemma LoadingLaidOut(p: GameC2s, more: seq<Byte>)
    requires !p.Control? && HomeOf(p).Loading? && FieldsOk(p)
    ensures LaidOut(p, more)
  {
    if p.SubmitClientVersion? {
      assert Body(p)[..33] == p.clientName && Body(p)[33..] == p.version;
    }
  }

  lemma SplitSize(size: nat)
    requires size < 0x10000
    ensures size % 0x10000 == size && size % 256 + 256 * (size / 256) == size
  {
  }

  /** The size written at the head of a chat packet announces its message, whatever follows. */
  lemma ChatSizeRead(message: seq<Byte>, more: seq<Byte>)
    requires |message| <= 65531
    ensures |ChatSize(message)| == 2 && ChatLength(ChatSize(message) + more) == |message|
  {
    SplitSize(|message| + CHAT_HEADER_BYTES);
    var size, b := ChatSize(message), ChatSize(message) + more;
    assert b[0] == size[0] && b[1] == size[1];
  }

  lemma ChatFits(size: seq<Byte>, chatKind: Byte, message: seq<Byte>)
    requires |size| == 2 && Allows(ChatByte, chatKind)
    ensures FitsLayout([AnyByte, AnyByte, ChatByte] + Fill(|message|), size + [chatKind] + message)
  {
  }

  lemma ChatLaidOut(p: GameC2s, more: seq<Byte>)
    requires p.SubmitChatMessage? && FieldsOk(p)
    ensures LaidOut(p, more)
  {
    var b, size := Body(p), ChatSize(p.message);
    ChatSizeRead(p.message, [p.chatKind] + p.message);
    ChatSizeRead(p.message, [p.chatKind] + p.message + more);
    assert b == size + ([p.chatKind] + p.message) && b + more == size + ([p.chatKind] + p.message + more);
    ChatFits(size, p.chatKind, p.message);
    assert b[3..] == p.message;
  }

  lemma MoveLaidOut(p: GameC2s, more: seq<Byte>)
    requires p.InputMovement? && FieldsOk(p)
    ensures LaidOut(p, more)
  {
    var b, x, y, ts := Body(p), WriteU32(p.x), WriteU32(p.y), WriteU32(p.ts);
    assert b[3..] == x + (y + ts) && b[7..] == y + ts && b[11..] == ts + [];
    U32RoundTrip(p.x, y + ts);
    U32RoundTrip(p.y, ts);
    U32RoundTrip(p.ts, []);
  }

  lemma AttackLaidOut(p: GameC2s, more: seq<Byte>)
    requires p.InputAttack? && FieldsOk(p)
    ensures LaidOut(p, more)
  {
    var b := Body(p);
    assert b[1..] == WriteU32(p.target) + p.unknown && b[5..] == p.unknown;
    U32RoundTrip(p.target, p.unknown);
  }

  lemma InGameLaidOut(p: GameC2s, more: seq<Byte>)
    requires !p.Control? && HomeOf(p).InGame? && FieldsOk(p)
    ensures LaidOut(p, more)
  {
    match p {
      case InputMovement(_, _, _, _, _, _) => MoveLaidOut(p, more);
      case SubmitChatMessage(_, _) => ChatLaidOut(p, more);
      case InputAttack(_, _, _) => AttackLaidOut(p, more);
      case SignalTargetSwitch(target) =>
        assert Body(p) == WriteU32(target) + [];
        U32RoundTrip(target, []);
      case _ =>
    }
  }

  lemma GameLaidOut(p: GameC2s, more: seq<Byte>)
    requires !p.Control? && FieldsOk(p)
    ensures LaidOut(p, more)
  {
    match HomeOf(p) {
      case Handshake =>
      case Login => LoginLaidOut(p, more);
      case Select => SelectLaidOut(p, more);
      case Loading => LoadingLaidOut(p, more);
      case InGame => InGameLaidOut(p, more);
    }
  }

  lemma WholeRead(p: GameC2s, more: seq<Byte>)
    requires !p.Control? && LaidOut(p, more)
    ensures Scan(Layout(HomeOf(p), GameOpcode(p), Body(p) + more).value, Body(p) + more) == Whole
    ensures ReadWhole(HomeOf(p), GameOpcode(p), Body(p) + more) == Read(p, |Body(p)| + 1)
  {
    ScanFitting(Layout(HomeOf(p), GameOpcode(p), Body(p) + more).value, Body(p), more);
    assert (Body(p) + more)[..|Body(p)|] == Body(p);
  }

  lemma OwnOpcode(p: GameC2s)
    requires !p.Control?
    ensures !IsControlOpcode(GameOpcode(p))
  {
  }

  /** What the reader does with an opcode of its own phase and a whole body. */
  lemma ReadRouted(ph: Phase, opcode: Byte, b: seq<Byte>)
    requires !IsControlOpcode(opcode) && Layout(ph, opcode, b).Some? && Scan(Layout(ph, opcode, b).value, b) == Whole
    ensures ReadGame(ph, [opcode] + b) == ReadWhole(ph, opcode, b)
  {
    assert ([opcode] + b)[1..] == b;
  }

  lemma ReadLaidOut(p: GameC2s, more: seq<Byte>)
    requires !p.Control? && LaidOut(p, more)
    ensures ReadGame(HomeOf(p), WriteGame(p) + more) == Read(p, |WriteGame(p)|)
  {
    var opcode := GameOpcode(p);
    assert WriteGame(p) + more == [opcode] + (Body(p) + more);
    OwnOpcode(p);
    WholeRead(p, more);
    ReadRouted(HomeOf(p), opcode, Body(p) + more);
  }

  /** Reading a packet back in a phase it belongs to gives it and takes exactly its bytes. */
  lemma GameRoundTrip(ph: Phase, p: GameC2s, more: seq<Byte>)
    requires Belongs(ph, p)
    ensures ReadGame(ph, WriteGame(p) + more) == Read(p, |WriteGame(p)|)
  {
    if p.Control? {
      assert WriteGame(p) == WriteControl(p.packet);
      ControlRoundTrip(p.packet, more);
    } else {
      GameLaidOut(p, more);
      ReadLaidOut(p, more);
    }
  }

  // ----- nothing else is read

  /** A chat packet that announces fewer bytes than its own header takes. */
  predicate ShortChat(ph: Phase, b: seq<Byte>) {
    ph.InGame? && |b| >= 3 && b[0] == 0x03 && b[1] < 4 && b[2] == 0
  }

  /** The body is that of the packet decoded from it, and the packet belongs to the phase. */
  ghost predicate ReadBack(ph: Phase, opcode: Byte, body: seq<Byte>)
    requires Layout(ph, opcode, body).Some? && |body| == |Layout(ph, opcode, body).value|
  {
    var p := Decoded(ph, opcode, body);
    !p.Control? && ph == HomeOf(p) && GameOpcode(p) == opcode && FieldsOk(p) && Body(p) == body
  }

  ghost predicate Laid(ph: Phase, opcode: Byte, body: seq<Byte>) {
    Layout(ph, opcode, body).Some? && FitsLayout(Layout(ph, opcode, body).value, body)
  }

  lemma LoginBack(b: seq<Byte>)
    requires Laid(Login, 0x6D, b)
    ensures ReadBack(Login, 0x6D, b)
  {
    WordBack(b[31..]);
    assert b == b[..31] + b[31..][..4] + b[35..];
  }

  lemma CreateBack(b: seq<Byte>)
    requires Laid(Select, 0x04, b)
    ensures ReadBack(Select, 0x04, b)
  {
    var layout := Layout(Select, 0x04, b).value;
    assert layout[0] == SlotByte && layout[26] == ClassByte && layout[28] == AppearanceByte;
    assert Allows(layout[0], b[0]) && Allows(layout[26], b[26]) && Allows(layout[28], b[28]);
    WordBack(b[29..]);
    assert b == [b[0]] + b[1..26] + [b[26], b[27], b[28]] + b[29..][..4];
  }

  lemma SelectBack(opcode: Byte, b: seq<Byte>)
    requires Laid(Select, opcode, b)
    ensures ReadBack(Select, opcode, b)
  {
    if opcode == 0x04 {
      CreateBack(b);
    } else if opcode == 0x05 {
      assert Layout(Select, opcode, b).value[0] == SlotByte && b == [b[0]] + b[1..8] + [b[8]];
      assert Allows(SlotByte, b[0]);
    } else {
      assert b == [b[0]] && Allows(Layout(Select, opcode, b).value[0], b[0]);
    }
  }

  lemma LoadingBack(opcode: Byte, b: seq<Byte>)
    requires Laid(Loading, opcode, b)
    ensures ReadBack(Loading, opcode, b)
  {
    if opcode == 0xF1 {
      assert b == b[..33] + b[33..];
    }
  }

  lemma MoveBack(b: seq<Byte>)
    requires Laid(InGame, 0x07, b)
    ensures ReadBack(InGame, 0x07, b)
  {
    assert Layout(InGame, 0x07, b).value[0] == MoveByte && Allows(MoveByte, b[0]);
    WordBack(b[3..]);
    WordBack(b[7..]);
    WordBack(b[11..]);
    assert b == [b[0], b[1], b[2]] + b[3..][..4] + b[7..][..4] + b[11..][..4];
  }

  lemma ChatSizeBack(b: seq<Byte>, message: seq<Byte>)
    requires |b| >= 2 && !(b[0] < 4 && b[1] == 0) && |message| == ChatLength(b)
    ensures ChatSize(message) == [b[0], b[1]] && |message| <= 65531
  {
    var low: int, high: int := b[0], b[1];
    DivUnique(low + 256 * high, 256, high, low);
    assert |message| + CHAT_HEADER_BYTES == low + 256 * high;
  }

  lemma ChatBack(b: seq<Byte>)
    requires Laid(InGame, 0x03, b) && !(|b| >= 2 && b[0] < 4 && b[1] == 0)
    ensures ReadBack(InGame, 0x03, b)
  {
    assert Layout(InGame, 0x03, b).value[2] == ChatByte && Allows(ChatByte, b[2]);
    ChatSizeBack(b, b[3..]);
    assert b == [b[0], b[1]] + [b[2]] + b[3..];
  }

  lemma InGameBack(opcode: Byte, b: seq<Byte>)
    requires Laid(InGame, opcode, b) && !(opcode == 0x03 && |b| >= 2 && b[0] < 4 && b[1] == 0)
    ensures ReadBack(InGame, opcode, b)
  {
    if opcode == 0x07 {
      MoveBack(b);
    } else if opcode == 0x03 {
      ChatBack(b);
    } else if opcode == 0x02 {
      assert Layout(InGame, opcode, b).value[0] == SkillByte && Allows(SkillByte, b[0]);
      WordBack(b[1..]);
      assert b == [b[0]] + b[1..][..4] + b[5..];
    } else {
      WordBack(b);
    }
  }

  lemma GameBack(ph: Phase, opcode: Byte, b: seq<Byte>)
    requires Laid(ph, opcode, b) && !(ph.InGame? && opcode == 0x03 && |b| >= 2 && b[0] < 4 && b[1] == 0)
    ensures ReadBack(ph, opcode, b)
  {
    match ph {
      case Handshake =>
      case Login => LoginBack(b);
      case Select => SelectBack(opcode, b);
      case Loading => LoadingBack(opcode, b);
      case InGame => InGameBack(opcode, b);
    }
  }

  lemma {:induction false} ScanFits(layout: seq<Field>, b: seq<Byte>)
    requires Scan(layout, b) == Whole
    ensures |layout| <= |b| && FitsLayout(layout, b[..|layout|])
    decreases |layout|
  {
    if layout != [] {
      ScanFits(layout[1..], b[1..]);
      assert b[..|layout|] == [b[0]] + b[1..][..|layout| - 1];
      assert forall i :: 0 < i < |layout| ==> layout[i] == layout[1..][i - 1];
    }
  }

  lemma ControlBack(ph: Phase, b: seq<Byte>)
    requires ReadGame(ph, b).Read? && IsControlOpcode(b[0])
    ensures ReadGame(ph, b).len <= |b| && ReadGame(ph, b).packet.Control?
    ensures WriteGame(ReadGame(ph, b).packet) == b[..ReadGame(ph, b).len]
  {
    ControlReadExact(b);
    var c := ReadControl(b).packet;
    assert WriteGame(Control(c)) == WriteControl(c);
  }

  lemma ShortChatRead(b: seq<Byte>)
    requires ReadGame(InGame, b).Read? && ShortChat(InGame, b)
    ensures |b| >= 4 && ReadGame(InGame, b) == Read(SubmitChatMessage(b[3], []), 4)
  {
    ScanFits(Layout(InGame, b[0], b[1..]).value, b[1..]);
    assert b[1..][..3][3..] == [];
  }

  /** What the reader must have found to read a packet of a phase's own. */
  lemma ReadIsWhole(ph: Phase, b: seq<Byte>)
    requires ReadGame(ph, b).Read? && !IsControlOpcode(b[0])
    ensures Layout(ph, b[0], b[1..]).Some? && Scan(Layout(ph, b[0], b[1..]).value, b[1..]) == Whole
    ensures ReadGame(ph, b) == ReadWhole(ph, b[0], b[1..])
  {
  }

  lemma HeadAndBody(b: seq<Byte>, n: nat)
    requires n < |b|
    ensures b[..n + 1] == [b[0]] + b[1..][..n]
  {
  }

  /** The body the reader found, with its opcode. */
  lemma ReadParts(ph: Phase, b: seq<Byte>) returns (body: seq<Byte>)
    requires ReadGame(ph, b).Read? && !IsControlOpcode(b[0])
    ensures Laid(ph, b[0], body) && |body| + 1 <= |b| && b[..|body| + 1] == [b[0]] + body
    ensures ReadGame(ph, b) == Read(Decoded(ph, b[0], body), |body| + 1)
  {
    ReadIsWhole(ph, b);
    var layout := Layout(ph, b[0], b[1..]).value;
    ScanFits(layout, b[1..]);
    LayoutOfBody(ph, b[0], b[1..]);
    HeadAndBody(b, |layout|);
    body := b[1..][..|layout|];
  }

  /** In every phase nothing is read but packets of the phase with their own bytes, a chat packet that
      announces less than its header apart: that is read as an empty message. */
  lemma GameReadExact(ph: Phase, b: seq<Byte>)
    requires ReadGame(ph, b).Read?
    ensures var p, n := ReadGame(ph, b).packet, ReadGame(ph, b).len;
            && n <= |b|
            && if ShortChat(ph, b) then p == SubmitChatMessage(b[3], []) && n == 4
               else Belongs(ph, p) && WriteGame(p) == b[..n]
  {
    if IsControlOpcode(b[0]) {
      ControlBack(ph, b);
    } else if ShortChat(ph, b) {
      ShortChatRead(b);
    } else {
      var body := ReadParts(ph, b);
      assert |body| >= 2 ==> b[..|body| + 1][1] == body[0] && b[..|body| + 1][2] == body[1];
      GameBack(ph, b[0], body);
    }
  }

  /** Opcode and size of every packet on the wire. */
  lemma WireSizes(p: GameC2s)
    requires FieldsOk(p)
    ensures (WriteGame(p)[0], |WriteGame(p)|) == match p
            case Control(HeartbeatResponse) => (0xFE, 1)
            case Control(HandshakeResponse(_)) => (0xFF, 13)
            case Control(RequestTimeSync(_)) => (0xFC, 13)
            case FetchChannelList => (0xCE, 1)
            case RequestTokenLogin(_, _, _) => (0x6D, 52)
            case SubmitEmpireChoice(_) => (0x5A, 2)
            case RequestCreatePlayer(_, _, _, _, _, _) => (0x04, 34)
            case RequestDeletePlayer(_, _, _) => (0x05, 10)
            case SubmitPlayerChoice(_) => (0x06, 2)
            case SubmitClientVersion(_, _) => (0xF1, 67)
            case SignalLoadingComplete => (0x0A, 1)
            case InputMovement(_, _, _, _, _, _) => (0x07, 16)
            case SubmitChatMessage(_, message) => (0x03, 4 + |message|)
            case InputAttack(_, _, _) => (0x02, 8)
            case SignalTargetSwitch(_) => (0x3D, 5)
  {
  }

  // ----- a whole session

  function GameProtocol(table: seq<Byte>, next: (nat, Phase, GameC2s) -> Phase): Protocol<GameC2s> {
    Protocol(table, ReadGame, next)
  }

  function GameClient(): Client<GameC2s> {
    Client(WriteGame, Belongs)
  }

  ghost predicate MovesOk(next: (nat, Phase, GameC2s) -> Phase) {
    forall n, ph, p :: next(n, ph, p) == ph || IsTransition(ph, next(n, ph, p))
  }

  lemma GameProtocolOk(table: seq<Byte>, next: (nat, Phase, GameC2s) -> Phase)
    requires table != [] && MovesOk(next)
    ensures ProtocolOk(GameProtocol(table, next))
  {
    var pr := GameProtocol(table, next);
    forall ph, b ensures pr.read(ph, b).Read? ==> 1 <= pr.read(ph, b).len <= |b| {
      GameReadLength(ph, b);
    }
    forall ph, b, more | b != [] && !pr.read(ph, b).Incomplete? ensures pr.read(ph, b + more) == pr.read(ph, b) {
      GameReaderStable(ph, b, more);
    }
  }

  lemma GameClientOk(table: seq<Byte>, next: (nat, Phase, GameC2s) -> Phase)
    ensures ClientOk(GameProtocol(table, next), GameClient())
  {
    var pr, client := GameProtocol(table, next), GameClient();
    forall ph, p, more | client.belongs(ph, p)
      ensures client.write(p) != [] && pr.read(ph, client.write(p) + more) == Read(p, |client.write(p)|)
    {
      GameRoundTrip(ph, p, more);
    }
  }

  /** A game session from its first byte: whatever packets the client sends, each in its own phase and
      with its sequence byte, and however the bytes are split, the server receives exactly those. */
  lemma SessionIsHeard(table: seq<Byte>, next: (nat, Phase, GameC2s) -> Phase, ps: seq<GameC2s>, steps: seq<IoStep>)
    requires table != [] && MovesOk(next) && Spoken(GameProtocol(table, next), GameClient(), 0, Handshake, ps)
    requires Arrived(steps) == ClientBytes(GameProtocol(table, next), GameClient(), 0, Handshake, 0, ps)
    ensures ProtocolOk(GameProtocol(table, next))
    ensures var pr := GameProtocol(table, next);
            var (taken, now) := RunIo(pr, OPENED, steps);
            var (rest, end) := Drain(pr, now);
            Packets(taken + rest) == ps && end.buffer == [] && !end.failed
  {
    GameProtocolOk(table, next);
    GameClientOk(table, next);
    ClientIsHeardInChunks(GameProtocol(table, next), GameClient(), OPENED, 0, ps, steps);
  }

  // ----- such sessions exist

  /** The server of the example: it moves on at the handshake answer, the login, the second choice of a
      player, and the end of loading. */
  function ExampleNext(n: nat, ph: Phase, p: GameC2s): Phase {
    if n == 0 && ph.Handshake? then Login
    else if ph.Login? && p.RequestTokenLogin? then Select
    else if n == 3 && ph.Select? && p.SubmitPlayerChoice? then Loading
    else if ph.Loading? && p.SignalLoadingComplete? then InGame
    else ph
  }

  function Greeting(): GameC2s {
    Control(HandshakeResponse(SyncData(1, 2, 3)))
  }

  function TokenLogin(): GameC2s {
    RequestTokenLogin(seq(USERNAME_BYTES, _ => 0), 7, seq(ENC_KEY_BYTES, _ => 0))
  }

  lemma SpokenCons<P(!new)>(pr: Protocol<P>, client: Client<P>, n: nat, phase: Phase, p: P, rest: seq<P>)
    requires client.belongs(phase, p) && Spoken(pr, client, n + 1, pr.next(n, phase, p), rest)
    ensures Spoken(pr, client, n, phase, [p] + rest)
  {
    assert ([p] + rest)[1..] == rest;
  }

  /** From handshake to chat, the same choice of a player answered once by staying and once by moving:
      the assumptions of `SessionIsHeard` are met across every kind of phase change. */
  lemma SessionExample(table: seq<Byte>)
    ensures MovesOk(ExampleNext)
    ensures Spoken(GameProtocol(table, ExampleNext), GameClient(), 0, Handshake,
                   [Greeting()] + ([TokenLogin()] + ([SubmitPlayerChoice(0)] + ([SubmitPlayerChoice(0)]
                     + ([SignalLoadingComplete] + ([SubmitChatMessage(0, [104, 105])] + []))))))
  {
    var pr, client := GameProtocol(table, ExampleNext), GameClient();
    var chat := [SubmitChatMessage(0, [104, 105])] + [];
    SpokenCons(pr, client, 5, InGame, SubmitChatMessage(0, [104, 105]), []);
    SpokenCons(pr, client, 4, Loading, SignalLoadingComplete, chat);
    var loading := [SignalLoadingComplete] + chat;
    SpokenCons(pr, client, 3, Select, SubmitPlayerChoice(0), loading);
    SpokenCons(pr, client, 2, Select, SubmitPlayerChoice(0), [SubmitPlayerChoice(0)] + loading);
    var select := [SubmitPlayerChoice(0)] + ([SubmitPlayerChoice(0)] + loading);
    SpokenCons(pr, client, 1, Login, TokenLogin(), select);
    SpokenCons(pr, client, 0, Handshake, Greeting(), [TokenLogin()] + select);
  }
}
