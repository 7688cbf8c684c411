/** The inbound half of an RTMP connection, as a function from parser states and
    unread bytes to parser states.

    Each `process*` function of the original is one case of `Step`: it stalls for
    want of bytes, consumes a number of bytes fixed by the state, or reports an error.
    `Run` is the loop that repeats them.  The callback that receives a completed
    message becomes an append-only log, and its verdict a function of that log.
 */
module RtmpParser {
  import opened Bytes

  const SIG_SIZE: nat := 1536
  const MAX_CHANNELS: nat := 125
  const DEFAULT_CHUNK_SIZE: nat := 128
  const TYPE_CHUNK_SIZE: nat := 1
  const NO_TIME: int := 0xff_ffff

  datatype Phase =
    | RecvHandshake0
    | RecvHandshake1
    | NewPacket
    | ExtHeader
    | PartHeader
    | ExtTimer
    | AmfData

  datatype TimerType = TimerUnknown | TimerRelative | TimerAbs | TimerExt

  datatype Header = Header(
    headType: nat, headSize: nat, extHeadSize: nat, channelId: nat,
    timer: int, timerType: TimerType, packetSize: nat, packetType: nat, streamId: nat)
  {
    predicate IsValid() {
      packetType != 0
    }
  }

  const CLEARED := Header(0, 0, 0, 0, 0, TimerUnknown, 0, 0, 0)

  /** A message being reassembled: the bytes so far, its full length, the buffer's capacity. */
  datatype Slot = Free | Pending(data: seq<byte>, lenTrans: nat, bufLen: nat)

  datatype Delivery = Delivery(header: Header, payload: seq<byte>)

  datatype RawState = State(
    phase: Phase, handshaked: bool, header: Header, prev: seq<Header>, slots: seq<Slot>,
    chunkSizeIn: int, log: seq<Delivery>, sent: seq<byte>)

  ghost predicate Shaped(s: RawState) {
    && |s.prev| == MAX_CHANNELS
    && |s.slots| == MAX_CHANNELS
    && (s.handshaked <==> s.phase != RecvHandshake0 && s.phase != RecvHandshake1)
    && (s.phase == ExtHeader ==> s.header.extHeadSize in {1, 2})
    && (s.phase in {ExtHeader, PartHeader} ==> s.header.headSize in {1, 4, 8, 12})
  }

  ghost const INIT: RawState :=
    State(RecvHandshake0, false, CLEARED, seq(MAX_CHANNELS, _ => CLEARED), seq(MAX_CHANNELS, _ => Free),
          DEFAULT_CHUNK_SIZE, [], [])

  type State = s: RawState | Shaped(s) ghost witness INIT

  /** What the connection is given: the server signature, the content of memory nobody
      has written yet (read by a Set Chunk Size message of fewer than four bytes), and
      whether the completion callback refuses, or closes the connection, after a given log. */
  datatype RawEnv = Env(serverSig: seq<byte>, unset: seq<byte>,
                        refuses: seq<Delivery> -> bool, closes: seq<Delivery> -> bool)
  {
    /** After this log the loop is left and nothing more is read. */
    predicate Stops(log: seq<Delivery>) {
      refuses(log) || closes(log)
    }
  }

  type Env = e: RawEnv | |e.serverSig| == SIG_SIZE && |e.unset| == 4
    ghost witness RawEnv.Env(seq(SIG_SIZE, _ => 0), [0, 0, 0, 0], _ => false, _ => false)

  datatype StepResult =
    | Stall(state: State)
    | Advance(state: State, used: nat)
    | Fail(state: State, used: nat)

  function HeaderSize(headType: nat): (size: nat)
    requires headType < 4
    ensures size in {1, 4, 8, 12}
  {
    [12, 8, 4, 1][headType]
  }

  function ChunkSizeFrom(env: Env, payload: seq<byte>): (size: int)
    ensures size >= 1
  {
    var v := ToInt32(DecodeInt32(payload + env.unset, 0));
    if v <= 0 then DEFAULT_CHUNK_SIZE else v
  }

  function Remember(s: State): State {
    if s.header.channelId < MAX_CHANNELS then s.(prev := s.prev[s.header.channelId := s.header]) else s
  }

  function Handshake0(env: Env, s: State, u: seq<byte>): StepResult
    requires s.phase == RecvHandshake0
  {
    if |u| < SIG_SIZE + 1 then Stall(s)
    else if u[0] != 3 then Fail(s, SIG_SIZE + 1)
    else Advance(s.(phase := RecvHandshake1, sent := s.sent + [u[0]] + env.serverSig + u[1..SIG_SIZE + 1]),
                 SIG_SIZE + 1)
  }

  function Handshake1(env: Env, s: State, u: seq<byte>): StepResult
    requires s.phase == RecvHandshake1
  {
    if |u| < SIG_SIZE then Stall(s)
    else if u[..SIG_SIZE] != env.serverSig then Fail(s, SIG_SIZE)
    else Advance(s.(phase := NewPacket, handshaked := true), SIG_SIZE)
  }

  function BasicHeader(b: byte): (h: Header)
    ensures h.headSize in {1, 4, 8, 12}
  {
    CLEARED.(headType := b / 64, channelId := b % 64, headSize := HeaderSize(b / 64))
  }

  /** Channel ids 0 and 1 announce a longer id; a one-byte header with a valid predecessor
      goes straight to the data. */
  function AfterBasicHeader(s: State, h: Header): State
    requires s.phase == NewPacket && h.channelId < 64 && h.headSize in {1, 4, 8, 12}
  {
    if h.channelId == 0 then s.(header := h.(extHeadSize := 1), phase := ExtHeader)
    else if h.channelId == 1 then s.(header := h.(extHeadSize := 2), phase := ExtHeader)
    else if h.headSize == 1 && s.prev[h.channelId].IsValid() then s.(header := s.prev[h.channelId], phase := AmfData)
    else s.(header := h, phase := PartHeader)
  }

  function InitialHeader(s: State, u: seq<byte>): StepResult
    requires s.phase == NewPacket
  {
    if |u| < 1 then Stall(s) else Advance(AfterBasicHeader(s, BasicHeader(u[0])), 1)
  }

  function ExtendedHeader(s: State, u: seq<byte>): StepResult
    requires s.phase == ExtHeader
  {
    var n := s.header.extHeadSize;
    if |u| < n then Stall(s) else
    var id := if n == 1 then u[0] as int else u[1] as int * 0x100 + u[0] as int;
    Advance(s.(header := s.header.(channelId := id + 64), phase := PartHeader), n)
  }

  /** The header fields a message header of `n` bytes overwrites. */
  function ReadFields(h: Header, u: seq<byte>, n: nat): Header
    requires n <= |u|
  {
    var h := if n >= 3 then h.(timer := DecodeInt24(u, 0)) else h;
    var h := if n >= 6 then h.(packetSize := DecodeInt24(u, 3)) else h;
    var h := if n > 6 then h.(packetType := u[6]) else h;
    if n == 11 then h.(streamId := DecodeInt32LE(u, 7)) else h
  }

  /** A compressed header starts from the channel's previous one, if there is a valid one. */
  function BaseHeader(s: State): Header {
    var channel := s.header.channelId;
    if s.header.headSize < 12 && channel < MAX_CHANNELS && s.prev[channel].IsValid() then s.prev[channel] else s.header
  }

  function RemainingHeader(s: State, u: seq<byte>): StepResult
    requires s.phase == PartHeader
  {
    var n := s.header.headSize - 1;
    if |u| < n then Stall(s) else
    var h := ReadFields(BaseHeader(s), u, n);
    if n >= 3 && h.timer == NO_TIME then
      Advance(s.(header := h, phase := ExtTimer), n)
    else
      var h := if n < 3 then h else h.(timerType := if n == 11 then TimerAbs else TimerRelative);
      Advance(Remember(s.(header := h, phase := AmfData)), n)
  }

  function ExtendedTimer(s: State, u: seq<byte>): StepResult
    requires s.phase == ExtTimer
  {
    if |u| < 4 then Stall(s) else
    var h := s.header.(timer := ToInt32(DecodeInt32(u, 0)), timerType := TimerExt);
    Advance(Remember(s.(header := h, phase := AmfData)), 4)
  }

  /** The reassembly slot of the current channel, created on demand. */
  function CurrentSlot(s: State): (slot: Slot)
    requires s.header.channelId < MAX_CHANNELS
    ensures slot.Pending?
  {
    var slot := s.slots[s.header.channelId];
    if slot.Free? then Pending([], s.header.packetSize, RoundUp(s.header.packetSize + 4, 1024)) else slot
  }

  function WithSlot(s: State, slot: Slot): State
    requires s.header.channelId < MAX_CHANNELS
  {
    s.(slots := s.slots[s.header.channelId := slot])
  }

  /** The state after the last byte of a message: slot freed, chunk size updated, message logged. */
  function Complete(env: Env, s: State, payload: seq<byte>): State
    requires s.header.channelId < MAX_CHANNELS && s.phase == AmfData
  {
    WithSlot(s, Free).(
      phase := NewPacket,
      chunkSizeIn := if s.header.packetType == TYPE_CHUNK_SIZE then ChunkSizeFrom(env, payload) else s.chunkSizeIn,
      log := s.log + [Delivery(s.header, payload)],
      header := CLEARED)
  }

  function Data(env: Env, s: State, u: seq<byte>): StepResult
    requires s.phase == AmfData
  {
    if s.header.packetSize == 0 then Advance(s.(phase := NewPacket), 0)
    else if s.header.channelId >= MAX_CHANNELS then Fail(s, 0)
    else
      var slot := CurrentSlot(s);
      var need := Min(s.chunkSizeIn, slot.lenTrans - |slot.data|);
      if need < 0 then Fail(WithSlot(s, slot), 0)
      else if |u| < need then Stall(WithSlot(s, slot))
      else
        var data := slot.data + u[..need];
        if |data| >= slot.lenTrans then
          var done := Complete(env, s, data);
          if env.Stops(done.log) then Fail(done, need) else Advance(done, need)
        else
          Advance(WithSlot(s, slot.(data := data)).(phase := NewPacket), need)
  }

  function Rank(p: Phase): nat {
    match p
    case RecvHandshake0 => 6
    case RecvHandshake1 => 5
    case ExtHeader => 4
    case PartHeader => 3
    case ExtTimer => 2
    case AmfData => 1
    case NewPacket => 0
  }

  /** One dispatch of the loop.  A pass that makes progress either reads a byte or moves
      to a phase of lower rank, so the loop terminates. */
  function Step(env: Env, s: State, u: seq<byte>): (r: StepResult)
    ensures r.Stall? ==> r.state.phase == s.phase
    ensures !r.Stall? ==> r.used <= |u|
    ensures s.handshaked ==> r.state.handshaked
    ensures r.Advance? ==> r.used > 0 || Rank(r.state.phase) < Rank(s.phase)
  {
    match s.phase
    case RecvHandshake0 => Handshake0(env, s, u)
    case RecvHandshake1 => Handshake1(env, s, u)
    case NewPacket => InitialHeader(s, u)
    case ExtHeader => ExtendedHeader(s, u)
    case PartHeader => RemainingHeader(s, u)
    case ExtTimer => ExtendedTimer(s, u)
    case AmfData => Data(env, s, u)
  }

  datatype RunResult = RunResult(state: State, rest: seq<byte>, failed: bool)

  /** `processInputBuffer`: dispatch until a pass stalls, fails, or leaves the connection closed. */
  function Run(env: Env, s: State, u: seq<byte>): RunResult
    decreases |u|, Rank(s.phase)
  {
    match Step(env, s, u)
    case Stall(s') => RunResult(s', u, false)
    case Fail(s', n) => RunResult(s', u[n..], true)
    case Advance(s', n) => Run(env, s', u[n..])
  }
}
