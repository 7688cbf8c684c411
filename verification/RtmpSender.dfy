/** Two endpoints: what one side sends against the parser of the other.

    Control messages go out whole, in one chunk on channel 2, whatever the chunk size; invokes are
    cut at the sender's outgoing chunk size on channel 3. */
module RtmpSender {
  import opened Bytes
  import opened ChunkWriters
  import opened RtmpParser
  import opened RtmpStream
  import opened RtmpWire

  const CONTROL_CHANNEL: nat := 2
  const INVOKE_CHANNEL: nat := 3
  const TYPE_BYTES_READ: byte := 3
  const TYPE_CTRL: byte := 4
  const TYPE_WINDOW_ACK: byte := 5
  const TYPE_PEER_BANDWIDTH: byte := 6
  const TYPE_INVOKE: byte := 0x14
  const HEAD_SIZE: nat := 12

  datatype Op =
    | Control(typeId: byte, payload: seq<byte>)
    | SetChunkSize(size: nat)
    | Invoke(payload: seq<byte>)

  /** The twelve header bytes of every message sent: format 0, no timestamp, stream 0. */
  function Head(channel: byte, typeId: byte, length: nat): (r: seq<byte>)
    ensures |r| == HEAD_SIZE
  {
    [channel, 0, 0, 0] + EncodeInt24(length) + [typeId, 0, 0, 0, 0]
  }

  function ControlBytes(typeId: byte, payload: seq<byte>): seq<byte> {
    Head(CONTROL_CHANNEL, typeId, |payload|) + payload
  }

  function InvokeBytes(chunkSize: nat, payload: seq<byte>): seq<byte>
    requires chunkSize >= 1
  {
    Head(INVOKE_CHANNEL, TYPE_INVOKE, |payload|) + Chunked(payload, chunkSize, INVOKE_CHANNEL)
  }

  /** Zero asks for the default chunk size. */
  function Effective(size: nat): (r: nat)
    ensures r >= 1
  {
    if size == 0 then DEFAULT_CHUNK_SIZE else size
  }

  function OpBytes(chunkSize: nat, op: Op): seq<byte>
    requires chunkSize >= 1
  {
    match op
    case Control(typeId, payload) => ControlBytes(typeId, payload)
    case SetChunkSize(size) => ControlBytes(TYPE_CHUNK_SIZE, EncodeInt32(Effective(size)))
    case Invoke(payload) => InvokeBytes(chunkSize, payload)
  }

  /** The sender's outgoing chunk size after an operation. */
  function OpChunkSize(chunkSize: nat, op: Op): (r: nat)
    requires chunkSize >= 1
    ensures r >= 1
  {
    if op.SetChunkSize? then Effective(op.size) else chunkSize
  }

  function OpsBytes(chunkSize: nat, ops: seq<Op>): seq<byte>
    requires chunkSize >= 1
    decreases |ops|
  {
    if ops == [] then [] else OpBytes(chunkSize, ops[0]) + OpsBytes(OpChunkSize(chunkSize, ops[0]), ops[1..])
  }

  function OpsChunkSize(chunkSize: nat, ops: seq<Op>): (r: nat)
    requires chunkSize >= 1
    ensures r >= 1
    decreases |ops|
  {
    if ops == [] then chunkSize else OpsChunkSize(OpChunkSize(chunkSize, ops[0]), ops[1..])
  }

  /** What a sender may be asked to send. */
  ghost predicate Sendable(op: Op) {
    match op
    case Control(typeId, payload) => 2 <= typeId && 1 <= |payload| < 0x100_0000
    case SetChunkSize(size) => size < 0x8000_0000
    case Invoke(payload) => 1 <= |payload| < 0x100_0000
  }

  /** A control payload must fit the chunk size in force; an invoke is cut to it. */
  predicate Fits(chunkSize: nat, op: Op) {
    match op
    case Control(_, payload) => |payload| <= chunkSize
    case SetChunkSize(_) => 4 <= chunkSize
    case Invoke(_) => true
  }

  predicate FitsAll(chunkSize: nat, ops: seq<Op>)
    requires chunkSize >= 1
    decreases |ops|
  {
    ops != [] ==> Fits(chunkSize, ops[0]) && FitsAll(OpChunkSize(chunkSize, ops[0]), ops[1..])
  }

  /** The message an operation means to deliver. */
  function MessageOf(op: Op): Message {
    match op
    case Control(typeId, payload) => Message(CONTROL_CHANNEL, 0, TimerAbs, typeId, 0, payload)
    case SetChunkSize(size) => Message(CONTROL_CHANNEL, 0, TimerAbs, TYPE_CHUNK_SIZE, 0, EncodeInt32(Effective(size)))
    case Invoke(payload) => Message(INVOKE_CHANNEL, 0, TimerAbs, TYPE_INVOKE, 0, payload)
  }

  // ---------------------------------------------------------------- operations as chunk events

  lemma HeadIsHeader(m: Message)
    requires WellFormed(m) && m.channel < 64 && m.stamp == 0 && m.streamId == 0
    ensures BasicHeaderBytes(0, m.channel, false) + FieldBytes(0, m) == Head(m.channel, m.typeId, |m.payload|)
    ensures ExtendedTime(0, m) == []
  {
    hide EncodeInt24;
    assert EncodeInt24(0) == [0, 0, 0] by {
      ZeroBytes();
    }
    ZeroBytes();
  }

  lemma ZeroBytes()
    ensures EncodeInt24(0) == [0, 0, 0] && EncodeInt32LE(0) == [0, 0, 0, 0]
  {
  }

  /** The first chunk of a message is its header and as much payload as fits. */
  lemma FirstChunk(w: Writer, m: Message)
    requires Sane(w) && WellFormed(m) && m.channel < 64 && m.stamp == 0 && m.stampType == TimerAbs && m.streamId == 0
    requires m.channel !in w.open
    ensures Admissible(w, Begin(m, 0, false))
    ensures Emit(w, Begin(m, 0, false)) == Head(m.channel, m.typeId, |m.payload|) + m.payload[..NextPiece(w, m, 0)]
  {
    hide BasicHeaderBytes, FieldBytes, Head, ExtendedTime;
    HeadIsHeader(m);
    assert Emit(w, Begin(m, 0, false))
        == BasicHeaderBytes(0, m.channel, false) + (FieldBytes(0, m) + ([] + m.payload[..NextPiece(w, m, 0)]));
  }

  /** Nothing is finished before the last chunk. */
  ghost predicate DoneLast(w: Writer, es: seq<Event>)
    requires Sane(w) && AdmissibleAll(w, es)
    decreases |es|
  {
    es != [] && (es[1..] == [] || (Next(w, es[0]).done == w.done && DoneLast(Next(w, es[0]), es[1..])))
  }

  lemma {:induction false} NoneDoneBefore(w: Writer, es: seq<Event>, n: nat)
    requires Sane(w) && AdmissibleAll(w, es) && DoneLast(w, es) && n < |EmitAll(w, es)|
    ensures DoneAfter(w, es, n) == w.done
    decreases |es|
  {
    hide Emit, Next, Admissible;
    var b, tail := Emit(w, es[0]), EmitAll(Next(w, es[0]), es[1..]);
    if n >= |b| && es[1..] != [] {
      NoneDoneBefore(Next(w, es[0]), es[1..], n - |b|);
    }
  }

  lemma Chain(w: Writer, e: Event, tail: seq<Event>)
    requires Sane(w) && Admissible(w, e) && AdmissibleAll(Next(w, e), tail)
    ensures AdmissibleAll(w, [e] + tail)
    ensures EmitAll(w, [e] + tail) == Emit(w, e) + EmitAll(Next(w, e), tail)
    ensures NextAll(w, [e] + tail) == NextAll(Next(w, e), tail)
    ensures tail == [] || (Next(w, e).done == w.done && DoneLast(Next(w, e), tail)) ==> DoneLast(w, [e] + tail)
  {
    hide Emit, Next, Admissible;
    assert ([e] + tail)[1..] == tail;
  }

  lemma NoEvents(w: Writer)
    requires Sane(w)
    ensures AdmissibleAll(w, []) && EmitAll(w, []) == [] && NextAll(w, []) == w
  {
  }

  /** One continuation chunk of an invoke: the writer's marker is the type-3 basic header. */
  lemma ContinuationChunk(w: Writer, m: Message, sent: nat)
    requires Sane(w) && m.channel == INVOKE_CHANNEL && m.typeId != TYPE_CHUNK_SIZE
    requires w.open == map[INVOKE_CHANNEL := Sending(m, sent)] && sent < |m.payload|
    ensures var e, end := Continue(INVOKE_CHANNEL, false), NextPiece(w, m, sent);
            && Admissible(w, e)
            && Emit(w, e) == [Marker(INVOKE_CHANNEL)] + m.payload[sent..end]
            && Next(w, e) == if end == |m.payload| then w.(open := map[], done := w.done + [m])
                             else w.(open := map[INVOKE_CHANNEL := Sending(m, end)])
  {
    assert BasicHeaderBytes(3, INVOKE_CHANNEL, false) == [Marker(INVOKE_CHANNEL)];
    assert w.open - {INVOKE_CHANNEL} == map[];
    assert forall s: Sending :: w.open[INVOKE_CHANNEL := s] == map[INVOKE_CHANNEL := s];
  }

  lemma ChunksFrom(p: seq<byte>, sent: nat, end: nat, size: nat)
    requires size >= 1 && sent <= end <= |p| && end == Min(sent + size, |p|)
    ensures Chunks(p[sent..], size, INVOKE_CHANNEL)
            == p[sent..end] + if end == |p| then []
                              else [Marker(INVOKE_CHANNEL)] + Chunks(p[end..], size, INVOKE_CHANNEL)
  {
    hide Marker;
    var r := p[sent..];
    if end < |p| {
      assert r[..size] == p[sent..end] && r[size..] == p[end..];
    }
  }

  lemma {:induction false} RemainingChunks(w: Writer, m: Message, sent: nat) returns (es: seq<Event>)
    requires Sane(w) && m.channel == INVOKE_CHANNEL && m.typeId != TYPE_CHUNK_SIZE
    requires w.open == map[INVOKE_CHANNEL := Sending(m, sent)] && sent < |m.payload|
    ensures AdmissibleAll(w, es)
    ensures EmitAll(w, es) == [Marker(INVOKE_CHANNEL)] + Chunks(m.payload[sent..], w.chunkSize, INVOKE_CHANNEL)
    ensures NextAll(w, es) == w.(open := map[], done := w.done + [m])
    ensures DoneLast(w, es)
    decreases |m.payload| - sent
  {
    hide Emit, Next, Admissible, EmitAll, NextAll, AdmissibleAll, Marker, WellFormed, Chunks, DoneLast;
    var e, end := Continue(INVOKE_CHANNEL, false), NextPiece(w, m, sent);
    ContinuationChunk(w, m, sent);
    var tail := [];
    if end == |m.payload| {
      NoEvents(Next(w, e));
      assert m.payload[sent..end] == m.payload[sent..];
    } else {
      tail := RemainingChunks(Next(w, e), m, end);
    }
    ChunksFrom(m.payload, sent, end, w.chunkSize);
    Chain(w, e, tail);
    es := [e] + tail;
  }

  /** The writer after the first chunk of an operation's message. */
  lemma FirstChunkNext(w: Writer, op: Op)
    requires Sane(w) && w.open == map[] && Sendable(op) && Fits(w.chunkSize, op)
    ensures var m := MessageOf(op);
            var e, end := Begin(m, 0, false), NextPiece(w, m, 0);
            && Admissible(w, e)
            && (end < |m.payload| ==> op.Invoke? && end == w.chunkSize)
            && var w' := Next(w, e);
               && w'.chunkSize == (if end == |m.payload| then OpChunkSize(w.chunkSize, op) else w.chunkSize)
               && w'.done == (if end == |m.payload| then w.done + [m] else w.done)
               && w'.open == (if end == |m.payload| then map[] else map[m.channel := Sending(m, end)])
  {
    hide Emit, EncodeInt32, ChunkSizeSet;
    FirstChunk(w, MessageOf(op));
    if op.SetChunkSize? {
      SizeIsRead(Effective(op.size));
    }
  }

  /** An operation that fits is a schedule of chunk events, with nothing left underway. */
  lemma OpAsEvents(w: Writer, op: Op) returns (es: seq<Event>)
    requires Sane(w) && w.open == map[] && Sendable(op) && Fits(w.chunkSize, op)
    ensures AdmissibleAll(w, es)
    ensures EmitAll(w, es) == OpBytes(w.chunkSize, op)
    ensures var w' := NextAll(w, es);
            w'.open == map[] && w'.done == w.done + [MessageOf(op)] && w'.chunkSize == OpChunkSize(w.chunkSize, op)
    ensures DoneLast(w, es)
  {
    hide Emit, Next, Admissible, EmitAll, NextAll, AdmissibleAll, DoneLast, Head, EncodeInt32, Chunked, Marker;
    var m := MessageOf(op);
    var e, end := Begin(m, 0, false), NextPiece(w, m, 0);
    FirstChunk(w, m);
    FirstChunkNext(w, op);
    ChunkedIsChunks(m.payload, w.chunkSize, INVOKE_CHANNEL);
    var tail := [];
    if end == |m.payload| {
      NoEvents(Next(w, e));
      assert m.payload[..end] == m.payload;
    } else {
      tail := RemainingChunks(Next(w, e), m, end);
    }
    Chain(w, e, tail);
    es := [e] + tail;
  }

  lemma SizeIsRead(size: nat)
    requires 1 <= size < 0x8000_0000
    ensures ChunkSizeSet(EncodeInt32(size)) == size
  {
    hide EncodeInt32, DecodeInt32;
    assert EncodeInt32(size)[0..4] == EncodeInt32(size);
    RoundTrip32(size, EncodeInt32(size), 0);
  }

  // ---------------------------------------------------------------- too long for the chunk size

  /** A channel that waits for more bytes than there are. */
  ghost predicate Starving(s: State, u: seq<byte>, c: nat)
    requires c < MAX_CHANNELS
  {
    && s.slots[c].Pending?
    && (|s.slots[c].data| + |u| < s.slots[c].lenTrans
        || (s.phase == NewPacket && |s.slots[c].data| + |u| == s.slots[c].lenTrans))
  }

  /** The channel stays starved, and nothing is delivered on it, by one step. */
  lemma StepStarves(env: Env, s: State, u: seq<byte>, c: nat)
    requires c < MAX_CHANNELS && Starving(s, u, c)
    ensures var r := Step(env, s, u);
            && s.log <= r.state.log
            && (forall i :: |s.log| <= i < |r.state.log| ==> r.state.log[i].header.channelId != c)
            && (r.Advance? ==> Starving(r.state, u[r.used..], c))
  {
    if s.phase != AmfData {
      HeaderStepKeeps(env, s, u);
    } else {
      hide ChunkSizeFrom, RoundUp;
    }
  }

  /** While a channel waits for more bytes than there are, nothing is delivered on it. */
  lemma {:induction false} Starved(env: Env, s: State, u: seq<byte>, c: nat)
    requires c < MAX_CHANNELS && Starving(s, u, c)
    ensures var log := Run(env, s, u).state.log;
            s.log <= log && forall i :: |s.log| <= i < |log| ==> log[i].header.channelId != c
    decreases |u|, Rank(s.phase)
  {
    hide Step, Starving;
    StepStarves(env, s, u, c);
    var r := Step(env, s, u);
    if r.Advance? {
      Starved(env, r.state, u[r.used..], c);
    }
  }

  /** A control payload longer than the chunk size is never delivered by its own bytes: the parser
      takes the payload after the first chunk for new chunk headers, and is short of data. */
  lemma TooLongIsNotDelivered(env: Env, s: State, w: Writer, m: Message)
    requires Sane(w) && w.open == map[] && Mirrors(s, w) && Accepting(env)
    requires WellFormed(m) && m.channel == CONTROL_CHANNEL && m.stamp == 0 && m.stampType == TimerAbs && m.streamId == 0
    requires |m.payload| > w.chunkSize
    ensures var log := Run(env, s, Head(CONTROL_CHANNEL, m.typeId, |m.payload|) + m.payload).state.log;
            s.log <= log && forall i :: |s.log| <= i < |log| ==> log[i].header.channelId != CONTROL_CHANNEL
  {
    hide Run, Emit, Head;
    var e, end := Begin(m, 0, false), NextPiece(w, m, 0);
    var rest := m.payload[end..];
    FirstChunk(w, m);
    var t := ReadsEvent(env, s, w, e, rest);
    assert Emit(w, e) + rest == Head(CONTROL_CHANNEL, m.typeId, |m.payload|) + m.payload by {
      assert m.payload[..end] + m.payload[end..] == m.payload;
    }
    var w1 := Next(w, e);
    assert w1.open[CONTROL_CHANNEL] == Sending(m, end);
    assert SlotMirrors(t.slots[CONTROL_CHANNEL], w1, CONTROL_CHANNEL);
    Starved(env, t, rest, CONTROL_CHANNEL);
    assert t.log == s.log;
  }

  // ---------------------------------------------------------------- runs of operations

  /** At every message boundary: the bytes of the operation are consumed, exactly its message has been
      delivered, and the incoming chunk size is the sender's outgoing one. */
  ghost predicate DeliversEach(env: Env, s: State, chunkSize: nat, ops: seq<Op>)
    requires chunkSize >= 1
    decreases |ops|
  {
    ops != [] ==>
      var r := Run(env, s, OpBytes(chunkSize, ops[0]));
      && !r.failed && r.rest == []
      && |r.state.log| == |s.log| + 1 && s.log <= r.state.log
      && Delivered(r.state.log[|s.log|], MessageOf(ops[0]))
      && r.state.chunkSizeIn == OpChunkSize(chunkSize, ops[0])
      && DeliversEach(env, r.state, OpChunkSize(chunkSize, ops[0]), ops[1..])
  }

  /** One operation is delivered exactly when it fits. */
  lemma DeliversOne(env: Env, s: State, w: Writer, op: Op) returns (w': Writer)
    requires Sane(w) && w.open == map[] && Mirrors(s, w) && Accepting(env) && Sendable(op)
    ensures var r := Run(env, s, OpBytes(w.chunkSize, op));
            if Fits(w.chunkSize, op) then
              && !r.failed && r.rest == [] && s.log <= r.state.log
              && Sane(w') && w'.open == map[] && Mirrors(r.state, w')
              && w'.done == w.done + [MessageOf(op)] && w'.chunkSize == OpChunkSize(w.chunkSize, op)
            else
              !(|r.state.log| == |s.log| + 1 && Delivered(r.state.log[|s.log|], MessageOf(op)))
  {
    hide Run, OpBytes, Mirrors, EmitAll, NextAll, AdmissibleAll;
    if Fits(w.chunkSize, op) {
      var es := OpAsEvents(w, op);
      Demultiplex(env, s, w, es);
      w' := NextAll(w, es);
    } else {
      w' := w;
      var m := MessageOf(op);
      TooLongIsNotDelivered(env, s, w, m);
      assert OpBytes(w.chunkSize, op) == Head(CONTROL_CHANNEL, m.typeId, |m.payload|) + m.payload by {
        ControlOpBytes(w.chunkSize, op);
      }
    }
  }

  lemma ControlOpBytes(chunkSize: nat, op: Op)
    requires chunkSize >= 1 && !op.Invoke?
    ensures var m := MessageOf(op);
            OpBytes(chunkSize, op) == Head(CONTROL_CHANNEL, m.typeId, |m.payload|) + m.payload
  {
  }

  /** Two endpoints agree at every message boundary exactly when every control payload fits the chunk
      size in force when it is sent. */
  lemma {:induction false} DeliversExactlyWhatFits(env: Env, s: State, w: Writer, ops: seq<Op>)
    requires Sane(w) && w.open == map[] && Mirrors(s, w) && Accepting(env)
    requires forall op :: op in ops ==> Sendable(op)
    ensures DeliversEach(env, s, w.chunkSize, ops) <==> FitsAll(w.chunkSize, ops)
    decreases |ops|
  {
    hide Run, OpBytes, Sendable;
    if ops != [] {
      var w' := DeliversOne(env, s, w, ops[0]);
      var r := Run(env, s, OpBytes(w.chunkSize, ops[0]));
      if Fits(w.chunkSize, ops[0]) {
        assert Delivered(r.state.log[|w.done|], w'.done[|w.done|]);
        DeliversExactlyWhatFits(env, r.state, w', ops[1..]);
      }
    }
  }

  /** The whole stream at once: a run that fits is consumed, and delivers its messages in order. */
  lemma {:induction false} TwoEndpoints(env: Env, s: State, w: Writer, ops: seq<Op>) returns (w': Writer)
    requires Sane(w) && w.open == map[] && Mirrors(s, w) && Accepting(env)
    requires (forall op :: op in ops ==> Sendable(op)) && FitsAll(w.chunkSize, ops)
    ensures var r := Run(env, s, OpsBytes(w.chunkSize, ops));
            !r.failed && r.rest == [] && Mirrors(r.state, w')
    ensures Sane(w') && w'.open == map[] && w'.chunkSize == OpsChunkSize(w.chunkSize, ops)
    ensures w'.done == w.done + seq(|ops|, i requires 0 <= i < |ops| => MessageOf(ops[i]))
    decreases |ops|
  {
    hide Run, OpBytes, Mirrors, Sendable;
    if ops == [] {
      w' := w;
      Demultiplex(env, s, w, []);
      NoEvents(w);
    } else {
      var a, b := OpBytes(w.chunkSize, ops[0]), OpsBytes(OpChunkSize(w.chunkSize, ops[0]), ops[1..]);
      var w1 := DeliversOne(env, s, w, ops[0]);
      RunAppend(env, s, a, b);
      var t := Run(env, s, a).state;
      assert [] + b == b;
      w' := TwoEndpoints(env, t, w1, ops[1..]);
    }
  }

  /** The operations that lie whole in the first `n` bytes. */
  function WholeOps(chunkSize: nat, ops: seq<Op>, n: nat): (k: nat)
    requires chunkSize >= 1
    ensures k <= |ops|
    decreases |ops|
  {
    if ops == [] || n < |OpBytes(chunkSize, ops[0])| then 0
    else 1 + WholeOps(OpChunkSize(chunkSize, ops[0]), ops[1..], n - |OpBytes(chunkSize, ops[0])|)
  }

  lemma {:induction false} AllWhole(chunkSize: nat, ops: seq<Op>)
    requires chunkSize >= 1
    ensures WholeOps(chunkSize, ops, |OpsBytes(chunkSize, ops)|) == |ops|
    decreases |ops|
  {
    hide OpBytes, OpChunkSize;
    if ops != [] {
      AllWhole(OpChunkSize(chunkSize, ops[0]), ops[1..]);
    }
  }

  /** The log has gained exactly these operations' messages. */
  ghost predicate Gained(before: seq<Delivery>, log: seq<Delivery>, ops: seq<Op>) {
    && |log| == |before| + |ops| && before <= log
    && forall i :: 0 <= i < |ops| ==> Delivered(log[|before| + i], MessageOf(ops[i]))
  }

  /** An operation cut short delivers nothing. */
  lemma CutOp(env: Env, s: State, w: Writer, op: Op, p: seq<byte>)
    requires Sane(w) && w.open == map[] && Mirrors(s, w) && Accepting(env) && Sendable(op) && Fits(w.chunkSize, op)
    requires p < OpBytes(w.chunkSize, op)
    ensures !Run(env, s, p).failed && Run(env, s, p).state.log == s.log
  {
    hide Run, OpBytes, EmitAll, NextAll, AdmissibleAll, DoneLast;
    var es := OpAsEvents(w, op);
    CutSchedule(env, s, w, es, p);
    NoneDoneBefore(w, es, |p|);
  }

  /** A run cut short anywhere: exactly the operations whose last byte has come are delivered. */
  lemma {:induction false} TwoEndpointsSoFar(env: Env, s: State, w: Writer, ops: seq<Op>, p: seq<byte>)
    requires Sane(w) && w.open == map[] && Mirrors(s, w) && Accepting(env)
    requires (forall op :: op in ops ==> Sendable(op)) && FitsAll(w.chunkSize, ops)
    requires p <= OpsBytes(w.chunkSize, ops)
    ensures var r := Run(env, s, p);
            !r.failed && Gained(s.log, r.state.log, ops[..WholeOps(w.chunkSize, ops, |p|)])
    decreases |ops|
  {
    hide Run, OpBytes, Sendable, Fits;
    if ops == [] {
      assert p == [];
      Demultiplex(env, s, w, []);
      NoEvents(w);
    } else {
      hide Mirrors;
      var a := OpBytes(w.chunkSize, ops[0]);
      if |p| < |a| {
        assert p == a[..|p|];
        CutOp(env, s, w, ops[0], p);
      } else {
        assert p == a + p[|a|..];
        var w1 := DeliversOne(env, s, w, ops[0]);
        RunAppend(env, s, a, p[|a|..]);
        var t := Run(env, s, a).state;
        assert [] + p[|a|..] == p[|a|..];
        TwoEndpointsSoFar(env, t, w1, ops[1..], p[|a|..]);
        OneGained(s, w, t, w1, ops[0]);
        GainedMore(s.log, t.log, Run(env, s, p).state.log, ops[0],
          ops[1..][..WholeOps(w1.chunkSize, ops[1..], |p| - |a|)]);
        assert [ops[0]] + ops[1..][..WholeOps(w1.chunkSize, ops[1..], |p| - |a|)]
          == ops[..WholeOps(w.chunkSize, ops, |p|)];
      }
    }
  }

  lemma OneGained(s: State, w: Writer, t: State, w1: Writer, op: Op)
    requires Mirrors(s, w) && Mirrors(t, w1) && w1.done == w.done + [MessageOf(op)] && s.log <= t.log
    ensures Gained(s.log, t.log, [op])
  {
    assert Delivered(t.log[|w.done|], w1.done[|w.done|]);
  }

  lemma GainedMore(a: seq<Delivery>, b: seq<Delivery>, c: seq<Delivery>, op: Op, ops: seq<Op>)
    requires Gained(a, b, [op]) && Gained(b, c, ops)
    ensures Gained(a, c, [op] + ops)
  {
    hide Delivered;
    assert c[|a|] == b[|a|];
    forall i | 0 <= i < |[op] + ops| ensures Delivered(c[|a| + i], MessageOf(([op] + ops)[i])) {
      if i > 0 {
        assert c[|b| + (i - 1)] == c[|a| + i];
      } else {
        assert Delivered(b[|a| + 0], MessageOf([op][0]));
      }
    }
  }

  /** A chunk size of 4 and a six-byte control message: nothing is delivered for the latter. */
  lemma SmallChunkSizeLosesControl(env: Env, s: State)
    requires Mirrors(s, IDLE) && Accepting(env)
    ensures !DeliversEach(env, s, DEFAULT_CHUNK_SIZE, [SetChunkSize(4), Control(TYPE_CTRL, [0, 6, 0, 0, 0, 0])])
  {
    hide DeliversEach, Mirrors;
    var ops := [SetChunkSize(4), Control(TYPE_CTRL, [0, 6, 0, 0, 0, 0])];
    assert ops[1..] == [ops[1]];
    assert !FitsAll(4, ops[1..]);
    DeliversExactlyWhatFits(env, s, IDLE, ops);
  }
}
