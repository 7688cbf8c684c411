/** Demultiplexing: a multiplexed chunk stream, as sections 5.3.1 and 5.4.1 of the RTMP 1.0
    specification lay it out, against the parser that reads it.

    The writer is a state machine of its own.  Each event sends one chunk: the first of a message
    on some channel, with any admissible degree of header compression, or the next one of a message
    already begun there.  Extended timestamps are not repeated on type-3 chunks. */
module RtmpWire {
  import opened Bytes
  import opened RtmpParser
  import opened RtmpStream

  /** Section 5.4.1. */
  const SET_CHUNK_SIZE: nat := 1

  datatype Message = Message(
    channel: nat, stamp: nat, stampType: TimerType, typeId: nat, streamId: nat, payload: seq<byte>)

  datatype Sending = Sending(msg: Message, sent: nat)

  /** `last` holds the message whose header a channel carries, `open` the messages begun and not
      finished, `done` the finished ones in order of completion. */
  datatype Writer = Writer(chunkSize: nat, last: map<nat, Message>, open: map<nat, Sending>, done: seq<Message>)

  datatype Event =
    | Begin(msg: Message, fmt: nat, longId: bool)
    | Continue(channel: nat, longId: bool)

  ghost predicate WellFormed(m: Message) {
    && 2 <= m.channel < 125
    && m.stamp < 0x1_0000_0000
    && 1 <= m.typeId < 256
    && m.streamId < 0x1_0000_0000
    && 1 <= |m.payload| < 0x100_0000
    && (m.typeId == SET_CHUNK_SIZE ==> |m.payload| >= 4)
  }

  function StampTypeOf(fmt: nat, stamp: nat): TimerType {
    if stamp >= 0xff_ffff then TimerExt else if fmt == 0 then TimerAbs else TimerRelative
  }

  /** Format 1 leaves out the stream, 2 also length and type, 3 also the timestamp. */
  ghost predicate MayOmit(fmt: nat, m: Message, l: Message) {
    && l.streamId == m.streamId
    && (fmt >= 2 ==> |l.payload| == |m.payload| && l.typeId == m.typeId)
    && (fmt == 3 ==> l.stamp == m.stamp && l.stampType == m.stampType)
  }

  ghost predicate Admissible(w: Writer, e: Event) {
    match e
    case Begin(m, fmt, _) =>
      && WellFormed(m)
      && m.channel !in w.open
      && fmt < 4
      && (fmt < 3 ==> m.stampType == StampTypeOf(fmt, m.stamp))
      && (fmt > 0 ==> m.channel in w.last && MayOmit(fmt, m, w.last[m.channel]))
    case Continue(channel, _) => channel in w.open
  }

  // ---------------------------------------------------------------- the bytes on the wire

  function BasicHeaderBytes(fmt: nat, channel: nat, longId: bool): seq<byte>
    requires fmt < 4 && 2 <= channel < 125
  {
    if channel < 64 then [fmt * 64 + channel]
    else if !longId then [fmt * 64, channel - 64]
    else [fmt * 64 + 1, (channel - 64) % 0x100, (channel - 64) / 0x100]
  }

  function FieldBytes(fmt: nat, m: Message): seq<byte>
    requires m.typeId < 256
  {
    var time := EncodeInt24(Min(m.stamp, 0xff_ffff));
    if fmt == 0 then time + EncodeInt24(|m.payload|) + [m.typeId] + EncodeInt32LE(m.streamId)
    else if fmt == 1 then time + EncodeInt24(|m.payload|) + [m.typeId]
    else if fmt == 2 then time
    else []
  }

  function ExtendedTime(fmt: nat, m: Message): seq<byte> {
    if fmt < 3 && m.stamp >= 0xff_ffff then EncodeInt32(m.stamp) else []
  }

  function ChunkSizeSet(payload: seq<byte>): (size: nat)
    requires |payload| >= 4
    ensures size >= 1
  {
    var v := ToInt32(DecodeInt32(payload, 0));
    if v <= 0 then 128 else v
  }

  function NextPiece(w: Writer, m: Message, sent: nat): (end: nat)
    requires sent <= |m.payload|
    ensures sent <= end <= |m.payload|
  {
    Min(sent + w.chunkSize, |m.payload|)
  }

  ghost function Emit(w: Writer, e: Event): seq<byte>
    requires Sane(w) && Admissible(w, e)
  {
    match e
    case Begin(m, fmt, longId) =>
      BasicHeaderBytes(fmt, m.channel, longId) + (FieldBytes(fmt, m) + (ExtendedTime(fmt, m)
        + m.payload[..NextPiece(w, m, 0)]))
    case Continue(channel, longId) =>
      var s := w.open[channel];
      BasicHeaderBytes(3, channel, longId) + s.msg.payload[s.sent..NextPiece(w, s.msg, s.sent)]
  }

  /** The writer after `m` has been sent up to `sent`; a finished Set Chunk Size takes effect at once. */
  function Sent(w: Writer, m: Message, sent: nat): Writer
    requires m.typeId == SET_CHUNK_SIZE ==> |m.payload| >= 4
  {
    if sent < |m.payload| then w.(open := w.open[m.channel := Sending(m, sent)])
    else w.(
      open := w.open - {m.channel},
      done := w.done + [m],
      chunkSize := if m.typeId == SET_CHUNK_SIZE then ChunkSizeSet(m.payload) else w.chunkSize)
  }

  lemma SentIsSane(w: Writer, m: Message, sent: nat)
    requires Sane(w) && m.channel in w.last && w.last[m.channel] == m && 0 < sent
    ensures Sane(Sent(w, m, sent))
  {
    hide ChunkSizeSet, WellFormed;
    assert w.last[m.channel].channel == m.channel && WellFormed(w.last[m.channel]);
  }

  ghost function Next(w: Writer, e: Event): (w': Writer)
    requires Sane(w) && Admissible(w, e)
    ensures Sane(w')
  {
    match e
    case Begin(m, _, _) =>
      var w1 := w.(last := w.last[m.channel := m]);
      SentIsSane(w1, m, NextPiece(w, m, 0));
      Sent(w1, m, NextPiece(w, m, 0))
    case Continue(channel, _) =>
      var s := w.open[channel];
      SentIsSane(w, s.msg, NextPiece(w, s.msg, s.sent));
      Sent(w, s.msg, NextPiece(w, s.msg, s.sent))
  }

  /** The writer's own invariant. */
  ghost predicate Sane(w: Writer) {
    && w.chunkSize >= 1
    && (forall c :: c in w.last ==> w.last[c].channel == c && WellFormed(w.last[c]))
    && (forall c :: c in w.open ==> c in w.last && w.open[c].msg == w.last[c]
                                    && 0 < w.open[c].sent < |w.last[c].payload|)
  }

  // ---------------------------------------------------------------- what the parser holds

  /** A header that says what the wire said about `m`. */
  ghost predicate Carries(h: Header, m: Message) {
    && h.channelId == m.channel
    && h.timer == (if m.stampType == TimerExt then ToInt32(m.stamp) else m.stamp)
    && h.timerType == m.stampType
    && h.packetSize == |m.payload|
    && h.packetType == m.typeId
    && h.streamId == m.streamId
  }

  ghost predicate Delivered(d: Delivery, m: Message) {
    Carries(d.header, m) && d.payload == m.payload
  }

  /** The parser between chunks mirrors the writer, channel by channel. */
  ghost predicate Mirrors(s: State, w: Writer) {
    && s.phase == NewPacket
    && s.chunkSizeIn == w.chunkSize
    && (forall c :: c in w.last ==> c < MAX_CHANNELS && Carries(s.prev[c], w.last[c]))
    && (forall c :: 0 <= c < MAX_CHANNELS ==> SlotMirrors(s.slots[c], w, c))
    && |s.log| == |w.done|
    && (forall i :: 0 <= i < |w.done| ==> Delivered(s.log[i], w.done[i]))
  }

  ghost predicate SlotMirrors(slot: Slot, w: Writer, c: nat) {
    if c in w.open then
      var o := w.open[c];
      slot.Pending? && o.sent <= |o.msg.payload| && slot.data == o.msg.payload[..o.sent]
      && slot.lenTrans == |o.msg.payload|
    else slot.Free?
  }

  /** The parser remembers a header only on channels the writer has used. */
  ghost predicate KnowsOnly(s: State, w: Writer) {
    forall c :: 0 <= c < MAX_CHANNELS && s.prev[c].IsValid() ==> c in w.last
  }

  ghost predicate Accepting(env: Env) {
    forall log :: !env.Stops(log)
  }

  // ---------------------------------------------------------------- reading one chunk

  lemma RunStep(env: Env, s: State, u: seq<byte>)
    requires Step(env, s, u).Advance?
    ensures Run(env, s, u) == Run(env, Step(env, s, u).state, u[Step(env, s, u).used..])
  {
    hide Step;
  }

  /** After a basic header: at the data if the channel's previous header will do, else at the fields. */
  lemma ReadsBasicHeader(env: Env, s: State, fmt: nat, channel: nat, longId: bool, rest: seq<byte>) returns (t: State)
    requires s.phase == NewPacket && fmt < 4 && 2 <= channel < MAX_CHANNELS
    ensures Run(env, s, BasicHeaderBytes(fmt, channel, longId) + rest) == Run(env, t, rest)
    ensures t == s.(phase := t.phase, header := t.header)
    ensures if t.phase == AmfData then fmt == 3 && s.prev[channel].IsValid() && t.header == s.prev[channel]
            else t.phase == PartHeader && t.header.channelId == channel && t.header.headSize == HeaderSize(fmt)
                 && (fmt == 3 && channel < 64 ==> !s.prev[channel].IsValid())
  {
    hide Run;
    var b := BasicHeaderBytes(fmt, channel, longId);
    var u := b + rest;
    assert u[0] == b[0];
    RunStep(env, s, u);
    t := Step(env, s, u).state;
    if channel < 64 {
      assert u[1..] == rest;
    } else {
      var v := u[1..];
      assert v == b[1..] + rest;
      assert v[t.header.extHeadSize..] == rest;
      RunStep(env, t, v);
      t := Step(env, t, v).state;
    }
  }

  /** The header fields as a message header of format `fmt` sets them. */
  function WithFields(h: Header, fmt: nat, m: Message): Header {
    var h := if fmt < 3 then h.(timer := Min(m.stamp, NO_TIME)) else h;
    var h := if fmt < 2 then h.(packetSize := |m.payload|, packetType := m.typeId) else h;
    if fmt < 1 then h.(streamId := m.streamId) else h
  }

  lemma TimeIsRead(m: Message, u: seq<byte>, tail: seq<byte>)
    requires WellFormed(m) && At(u, 0, EncodeInt24(Min(m.stamp, NO_TIME)) + tail)
    ensures |u| >= 3 + |tail| && DecodeInt24(u, 0) == Min(m.stamp, NO_TIME) && At(u, 3, tail)
  {
    hide EncodeInt24, DecodeInt24, At;
    AtSplit(u, 0, EncodeInt24(Min(m.stamp, NO_TIME)), tail);
    RoundTrip24(Min(m.stamp, NO_TIME), u, 0);
    AtFits(u, 3, tail);
  }

  lemma LengthAndTypeAreRead(m: Message, u: seq<byte>, tail: seq<byte>)
    requires WellFormed(m) && At(u, 3, EncodeInt24(|m.payload|) + ([m.typeId] + tail))
    ensures |u| >= 7 + |tail| && DecodeInt24(u, 3) == |m.payload| && u[6] == m.typeId && At(u, 7, tail)
  {
    hide EncodeInt24, DecodeInt24, At;
    AtSplit(u, 3, EncodeInt24(|m.payload|), [m.typeId] + tail);
    AtFits(u, 3, EncodeInt24(|m.payload|));
    AtFits(u, 6, [m.typeId] + tail);
    FirstByteAt(m.typeId, tail, u, 6);
    RoundTrip24(|m.payload|, u, 3);
  }

  lemma FieldsAreRead(h: Header, fmt: nat, m: Message, u: seq<byte>)
    requires WellFormed(m) && fmt < 4 && At(u, 0, FieldBytes(fmt, m))
    ensures |FieldBytes(fmt, m)| == HeaderSize(fmt) - 1 <= |u|
    ensures ReadFields(h, u, HeaderSize(fmt) - 1) == WithFields(h, fmt, m)
  {
    hide EncodeInt24, DecodeInt24, EncodeInt32LE, DecodeInt32LE, At;
    var time := EncodeInt24(Min(m.stamp, NO_TIME));
    var length := EncodeInt24(|m.payload|);
    if fmt == 0 {
      var stream := EncodeInt32LE(m.streamId);
      var tail := length + ([m.typeId] + stream);
      assert FieldBytes(fmt, m) == time + tail;
      TimeIsRead(m, u, tail);
      LengthAndTypeAreRead(m, u, stream);
      RoundTrip32LE(m.streamId, u, 7);
    } else if fmt == 1 {
      var tail := length + ([m.typeId] + []);
      assert FieldBytes(fmt, m) == time + tail;
      TimeIsRead(m, u, tail);
      LengthAndTypeAreRead(m, u, []);
    } else if fmt == 2 {
      assert FieldBytes(fmt, m) == time + [];
      TimeIsRead(m, u, []);
    }
  }

  /** Reading the fields, and the extended timestamp if there is one, leaves a header that carries the message. */
  lemma ReadsFields(env: Env, s: State, fmt: nat, m: Message, l: Message, rest: seq<byte>) returns (t: State)
    requires WellFormed(m) && fmt < 4 && s.phase == PartHeader
    requires s.header.channelId == m.channel && s.header.headSize == HeaderSize(fmt)
    requires fmt < 3 ==> m.stampType == StampTypeOf(fmt, m.stamp)
    requires fmt > 0 ==> WellFormed(l) && l.channel == m.channel && Carries(s.prev[m.channel], l) && MayOmit(fmt, m, l)
    ensures Run(env, s, FieldBytes(fmt, m) + (ExtendedTime(fmt, m) + rest)) == Run(env, t, rest)
    ensures t.phase == AmfData && Carries(t.header, m)
    ensures t == s.(phase := AmfData, header := t.header, prev := s.prev[m.channel := t.header])
  {
    hide Run, ReadFields, FieldBytes, EncodeInt32, DecodeInt32;
    var f := FieldBytes(fmt, m);
    var u := f + (ExtendedTime(fmt, m) + rest);
    FieldsAreRead(BaseHeader(s), fmt, m, u);
    assert u[|f|..] == ExtendedTime(fmt, m) + rest;
    RunStep(env, s, u);
    t := Step(env, s, u).state;
    if fmt < 3 && m.stamp >= NO_TIME {
      var v := u[|f|..];
      assert v[..4] == EncodeInt32(m.stamp) && v[4..] == rest;
      RoundTrip32(m.stamp, v, 0);
      RunStep(env, t, v);
      t := Step(env, t, v).state;
    } else {
      assert [] + rest == rest;
    }
  }

  // ---------------------------------------------------------------- the data of one chunk

  /** The parser after the piece of `m` up to `end`, which completes the message or not. */
  ghost function AfterPiece(env: Env, s: State, m: Message, end: nat): State
    requires s.phase == AmfData && s.header.channelId < MAX_CHANNELS && end <= |m.payload|
  {
    if end == |m.payload| then Complete(env, s, m.payload)
    else
      var slot := CurrentSlot(s);
      WithSlot(s, slot.(data := m.payload[..end])).(phase := NewPacket)
  }

  lemma ReadsPiece(env: Env, s: State, m: Message, sent: nat, end: nat, rest: seq<byte>)
    requires Accepting(env) && s.phase == AmfData && s.header.packetSize > 0 && s.header.channelId < MAX_CHANNELS
    requires var slot := CurrentSlot(s);
             sent <= |m.payload| && slot.data == m.payload[..sent] && slot.lenTrans == |m.payload|
    requires s.chunkSizeIn >= 1 && sent <= end && end == Min(sent + s.chunkSizeIn, |m.payload|)
    ensures Run(env, s, m.payload[sent..end] + rest) == Run(env, AfterPiece(env, s, m, end), rest)
  {
    hide Run, Complete, CurrentSlot;
    var piece := m.payload[sent..end];
    var u := piece + rest;
    var slot := CurrentSlot(s);
    assert Min(s.chunkSizeIn, slot.lenTrans - |slot.data|) == |piece|;
    assert u[..|piece|] == piece && u[|piece|..] == rest;
    assert m.payload[..sent] + piece == m.payload[..end];
    if end == |m.payload| {
      assert m.payload[..end] == m.payload;
    }
    RunStep(env, s, u);
  }

  /** The parser that has read a piece mirrors the writer that has sent it. */
  lemma PieceMirrors(env: Env, s: State, w: Writer, m: Message, end: nat)
    requires Sane(w) && WellFormed(m) && s.phase == AmfData && Carries(s.header, m)
    requires m.channel in w.last && w.last[m.channel] == m && 0 < end <= |m.payload|
    requires Mirrors(s.(phase := NewPacket), w)
    requires m.channel in w.open ==> w.open[m.channel].msg == m
    ensures Mirrors(AfterPiece(env, s, m, end), Sent(w, m, end))
    ensures s.log <= AfterPiece(env, s, m, end).log
  {
    hide ChunkSizeFrom, ChunkSizeSet;
    assert SlotMirrors(s.slots[m.channel], w, m.channel);
    if m.typeId == TYPE_CHUNK_SIZE {
      SameChunkSize(env, m.payload);
    }
    var t, w' := AfterPiece(env, s, m, end), Sent(w, m, end);
    forall c | 0 <= c < MAX_CHANNELS ensures SlotMirrors(t.slots[c], w', c) {
      assert SlotMirrors(s.slots[c], w, c);
    }
  }

  lemma SameChunkSize(env: Env, payload: seq<byte>)
    requires |payload| >= 4
    ensures ChunkSizeFrom(env, payload) == ChunkSizeSet(payload)
  {
  }

  /** With the header of a new message read, the parser mirrors a sender about to send its first piece. */
  lemma BeginMirrors(s: State, w: Writer, t: State, m: Message)
    requires Mirrors(s, w) && m.channel < MAX_CHANNELS && m.channel !in w.open
    requires t.phase == AmfData && t.slots == s.slots && t.log == s.log && t.chunkSizeIn == s.chunkSizeIn
    requires Carries(t.prev[m.channel], m) && t.prev == s.prev[m.channel := t.prev[m.channel]]
    ensures Mirrors(t.(phase := NewPacket), w.(last := w.last[m.channel := m]))
    ensures t.slots[m.channel].Free?
  {
    var w1 := w.(last := w.last[m.channel := m]);
    assert SlotMirrors(s.slots[m.channel], w, m.channel);
    forall c | 0 <= c < MAX_CHANNELS ensures SlotMirrors(t.slots[c], w1, c) {
      assert SlotMirrors(s.slots[c], w, c);
    }
  }

  lemma PieceKnowsOnly(env: Env, s: State, w: Writer, t: State, m: Message, end: nat)
    requires t.phase == AmfData && t.header.channelId < MAX_CHANNELS && end <= |m.payload| && m.channel < MAX_CHANNELS
    requires m.typeId == TYPE_CHUNK_SIZE ==> |m.payload| >= 4
    requires t.prev == s.prev || t.prev == s.prev[m.channel := t.prev[m.channel]]
    ensures KnowsOnly(s, w) ==> KnowsOnly(AfterPiece(env, t, m, end), Sent(w.(last := w.last[m.channel := m]), m, end))
    ensures KnowsOnly(s, w) && m.channel in w.last ==> KnowsOnly(AfterPiece(env, t, m, end), Sent(w, m, end))
  {
    hide ChunkSizeFrom, ChunkSizeSet, RoundUp;
  }

  /** What the parser knows about the message before its header. */
  ghost predicate Begins(s: State, w: Writer, m: Message) {
    && s.phase == NewPacket
    && (m.channel in w.last ==>
          var l := w.last[m.channel];
          WellFormed(l) && l.channel == m.channel && Carries(s.prev[m.channel], l))
  }

  lemma BeginFinds(s: State, w: Writer, m: Message, fmt: nat, longId: bool)
    requires Sane(w) && Mirrors(s, w) && Admissible(w, Begin(m, fmt, longId))
    ensures Begins(s, w, m)
  {
  }

  /** Its header is read; its first piece comes next. */
  lemma ReadsFirstPiece(env: Env, s: State, w: Writer, t: State, m: Message, rest: seq<byte>)
    requires Sane(w) && Mirrors(s, w) && WellFormed(m) && m.channel !in w.open && Accepting(env)
    requires t.phase == AmfData && t.slots == s.slots && t.log == s.log && t.chunkSizeIn == s.chunkSizeIn
    requires Carries(t.header, m) && Carries(t.prev[m.channel], m) && t.prev == s.prev[m.channel := t.prev[m.channel]]
    ensures var w1, end := w.(last := w.last[m.channel := m]), NextPiece(w, m, 0);
            && Run(env, t, m.payload[..end] + rest) == Run(env, AfterPiece(env, t, m, end), rest)
            && Mirrors(AfterPiece(env, t, m, end), Sent(w1, m, end)) && s.log <= AfterPiece(env, t, m, end).log
            && (KnowsOnly(s, w) ==> KnowsOnly(AfterPiece(env, t, m, end), Sent(w1, m, end)))
  {
    hide Run, AfterPiece;
    BeginMirrors(s, w, t, m);
    var w1, end := w.(last := w.last[m.channel := m]), NextPiece(w, m, 0);
    assert m.payload[0..end] == m.payload[..end];
    ReadsPiece(env, t, m, 0, end, rest);
    PieceMirrors(env, t, w1, m, end);
    PieceKnowsOnly(env, s, w, t, m, end);
  }

  /** The header of a new message, and any bytes behind it. */
  lemma ReadsBeginHead(env: Env, s: State, w: Writer, m: Message, fmt: nat, longId: bool, x: seq<byte>)
    returns (t: State)
    requires Begins(s, w, m) && Admissible(w, Begin(m, fmt, longId))
    ensures Run(env, s, BasicHeaderBytes(fmt, m.channel, longId) + (FieldBytes(fmt, m) + (ExtendedTime(fmt, m) + x)))
            == Run(env, t, x)
    ensures t == s.(phase := AmfData, header := t.header, prev := s.prev[m.channel := t.prev[m.channel]])
    ensures Carries(t.header, m) && Carries(t.prev[m.channel], m) && t.header.channelId == m.channel
  {
    hide Run, BasicHeaderBytes, FieldBytes, ExtendedTime;
    var tail := FieldBytes(fmt, m) + (ExtendedTime(fmt, m) + x);
    t := ReadsBasicHeader(env, s, fmt, m.channel, longId, tail);
    var l := if m.channel in w.last then w.last[m.channel] else m;
    if t.phase == PartHeader {
      t := ReadsFields(env, t, fmt, m, l, x);
    } else {
      NoFields(m, x);
    }
  }

  lemma ReadsBegin(env: Env, s: State, w: Writer, m: Message, fmt: nat, longId: bool, rest: seq<byte>)
    returns (t: State)
    requires Sane(w) && Mirrors(s, w) && Admissible(w, Begin(m, fmt, longId)) && Accepting(env)
    ensures Run(env, s, Emit(w, Begin(m, fmt, longId)) + rest) == Run(env, t, rest)
    ensures Mirrors(t, Next(w, Begin(m, fmt, longId))) && s.log <= t.log
    ensures KnowsOnly(s, w) ==> KnowsOnly(t, Next(w, Begin(m, fmt, longId)))
  {
    hide Run, BasicHeaderBytes, FieldBytes, ExtendedTime, AfterPiece, Mirrors, KnowsOnly, Sent, Carries, Begins;
    assert Begins(s, w, m) by { BeginFinds(s, w, m, fmt, longId); }
    var piece := m.payload[..NextPiece(w, m, 0)];
    var tail := FieldBytes(fmt, m) + (ExtendedTime(fmt, m) + (piece + rest));
    assert Emit(w, Begin(m, fmt, longId)) + rest == BasicHeaderBytes(fmt, m.channel, longId) + tail;
    t := ReadsBeginHead(env, s, w, m, fmt, longId, piece + rest);
    ReadsFirstPiece(env, s, w, t, m, rest);
    t := AfterPiece(env, t, m, NextPiece(w, m, 0));
  }

  /** The header of a continuation, and any bytes behind it. */
  lemma ReadsContinueHead(env: Env, s: State, w: Writer, channel: nat, longId: bool, x: seq<byte>) returns (t: State)
    requires Sane(w) && Mirrors(s, w) && channel in w.open
    ensures Run(env, s, BasicHeaderBytes(3, channel, longId) + x) == Run(env, t, x)
    ensures t == s.(phase := AmfData, header := t.header, prev := s.prev[channel := t.prev[channel]])
    ensures Carries(t.header, w.open[channel].msg) && Carries(t.prev[channel], w.open[channel].msg)
  {
    hide Run, BasicHeaderBytes, FieldBytes, ExtendedTime;
    var o := w.open[channel];
    t := ReadsBasicHeader(env, s, 3, channel, longId, x);
    if t.phase == PartHeader {
      NoFields(o.msg, x);
      t := ReadsFields(env, t, 3, o.msg, o.msg, x);
    }
  }

  lemma ReadsContinue(env: Env, s: State, w: Writer, channel: nat, longId: bool, rest: seq<byte>) returns (t: State)
    requires Sane(w) && Mirrors(s, w) && channel in w.open && Accepting(env)
    ensures Run(env, s, Emit(w, Continue(channel, longId)) + rest) == Run(env, t, rest)
    ensures Mirrors(t, Next(w, Continue(channel, longId))) && s.log <= t.log
    ensures KnowsOnly(s, w) ==> KnowsOnly(t, Next(w, Continue(channel, longId)))
  {
    hide Run, BasicHeaderBytes, FieldBytes, ExtendedTime, AfterPiece;
    var o := w.open[channel];
    var end := NextPiece(w, o.msg, o.sent);
    var piece := o.msg.payload[o.sent..end];
    assert Emit(w, Continue(channel, longId)) + rest == BasicHeaderBytes(3, channel, longId) + (piece + rest);
    t := ReadsContinueHead(env, s, w, channel, longId, piece + rest);
    assert SlotMirrors(s.slots[channel], w, channel);
    assert t.slots == s.slots;
    assert Mirrors(t.(phase := NewPacket), w);
    ReadsPiece(env, t, o.msg, o.sent, end, rest);
    PieceMirrors(env, t, w, o.msg, end);
    PieceKnowsOnly(env, s, w, t, o.msg, end);
    t := AfterPiece(env, t, o.msg, end);
  }

  /** One event: the parser reads its bytes and mirrors the writer again. */
  lemma ReadsEvent(env: Env, s: State, w: Writer, e: Event, rest: seq<byte>) returns (t: State)
    requires Sane(w) && Mirrors(s, w) && Admissible(w, e) && Accepting(env)
    ensures Run(env, s, Emit(w, e) + rest) == Run(env, t, rest)
    ensures Mirrors(t, Next(w, e)) && s.log <= t.log
    ensures KnowsOnly(s, w) ==> KnowsOnly(t, Next(w, e))
  {
    hide Run, Emit, Next, Mirrors, KnowsOnly;
    match e {
      case Begin(m, fmt, longId) => t := ReadsBegin(env, s, w, m, fmt, longId, rest);
      case Continue(channel, longId) => t := ReadsContinue(env, s, w, channel, longId, rest);
    }
  }

  lemma NoFields(m: Message, rest: seq<byte>)
    requires WellFormed(m)
    ensures FieldBytes(3, m) + (ExtendedTime(3, m) + rest) == rest
  {
  }

  // ---------------------------------------------------------------- whole schedules

  ghost predicate AdmissibleAll(w: Writer, es: seq<Event>)
    requires Sane(w)
    decreases |es|
  {
    es != [] ==> Admissible(w, es[0]) && AdmissibleAll(Next(w, es[0]), es[1..])
  }

  ghost function EmitAll(w: Writer, es: seq<Event>): seq<byte>
    requires Sane(w) && AdmissibleAll(w, es)
    decreases |es|
  {
    if es == [] then [] else Emit(w, es[0]) + EmitAll(Next(w, es[0]), es[1..])
  }

  ghost function NextAll(w: Writer, es: seq<Event>): (w': Writer)
    requires Sane(w) && AdmissibleAll(w, es)
    ensures Sane(w')
    decreases |es|
  {
    if es == [] then w else NextAll(Next(w, es[0]), es[1..])
  }

  lemma {:induction false} ReadsAll(env: Env, s: State, w: Writer, es: seq<Event>, rest: seq<byte>) returns (t: State)
    requires Sane(w) && Mirrors(s, w) && AdmissibleAll(w, es) && Accepting(env)
    ensures Run(env, s, EmitAll(w, es) + rest) == Run(env, t, rest)
    ensures Mirrors(t, NextAll(w, es)) && s.log <= t.log
    decreases |es|
  {
    hide Run, Emit, Next, Mirrors;
    if es == [] {
      t := s;
      assert EmitAll(w, es) + rest == rest;
    } else {
      var tail := EmitAll(Next(w, es[0]), es[1..]) + rest;
      assert EmitAll(w, es) + rest == Emit(w, es[0]) + tail;
      t := ReadsEvent(env, s, w, es[0], tail);
      t := ReadsAll(env, t, Next(w, es[0]), es[1..], rest);
    }
  }

  /** Demultiplexing.  Whatever the schedule, the parser consumes it all, holds for every channel
      exactly the part of its message that has been sent, follows every change of chunk size, and
      has delivered exactly the finished messages, in order of completion. */
  lemma Demultiplex(env: Env, s: State, w: Writer, es: seq<Event>)
    requires Sane(w) && Mirrors(s, w) && AdmissibleAll(w, es) && Accepting(env)
    ensures var r := Run(env, s, EmitAll(w, es));
            !r.failed && r.rest == [] && Mirrors(r.state, NextAll(w, es)) && s.log <= r.state.log
  {
    var t := ReadsAll(env, s, w, es, []);
    assert EmitAll(w, es) + [] == EmitAll(w, es);
    assert Run(env, t, []) == RunResult(t, [], false);
  }

  // ---------------------------------------------------------------- schedules cut short

  /** A chunk without its last byte delivers nothing. */
  lemma CutEvent(env: Env, s: State, w: Writer, e: Event)
    requires Sane(w) && Mirrors(s, w) && Admissible(w, e) && Accepting(env)
    ensures Emit(w, e) != [] && Run(env, s, Emit(w, e)[..|Emit(w, e)| - 1]).state.log == s.log
  {
    hide Run, BasicHeaderBytes, FieldBytes, ExtendedTime;
    var b := Emit(w, e);
    match e {
      case Begin(m, fmt, longId) =>
        var end := NextPiece(w, m, 0);
        var x, h, f, d := m.payload[..end - 1], BasicHeaderBytes(fmt, m.channel, longId),
          FieldBytes(fmt, m), ExtendedTime(fmt, m);
        assert m.payload[..end] == x + [m.payload[end - 1]];
        assert b == (h + (f + (d + x))) + [m.payload[end - 1]];
        BeginFinds(s, w, m, fmt, longId);
        var t := ReadsBeginHead(env, s, w, m, fmt, longId, x);
        assert SlotMirrors(s.slots[m.channel], w, m.channel);
        ShortOfData(env, t, x);
      case Continue(channel, longId) =>
        var o := w.open[channel];
        var end := NextPiece(w, o.msg, o.sent);
        var x, h := o.msg.payload[o.sent..end - 1], BasicHeaderBytes(3, channel, longId);
        assert o.msg.payload[o.sent..end] == x + [o.msg.payload[end - 1]];
        assert b == (h + x) + [o.msg.payload[end - 1]];
        var t := ReadsContinueHead(env, s, w, channel, longId, x);
        assert SlotMirrors(s.slots[channel], w, channel);
        ShortOfData(env, t, x);
    }
  }

  lemma ShortOfData(env: Env, t: State, x: seq<byte>)
    requires t.phase == AmfData && t.header.channelId < MAX_CHANNELS && t.header.packetSize > 0
    requires |x| < Min(t.chunkSizeIn, CurrentSlot(t).lenTrans - |CurrentSlot(t).data|)
    ensures Run(env, t, x).state.log == t.log
  {
    hide CurrentSlot;
  }

  /** The messages finished by the chunks that lie whole in the first `n` bytes. */
  ghost function DoneAfter(w: Writer, es: seq<Event>, n: nat): seq<Message>
    requires Sane(w) && AdmissibleAll(w, es)
    decreases |es|
  {
    if es == [] || n < |Emit(w, es[0])| then w.done
    else DoneAfter(Next(w, es[0]), es[1..], n - |Emit(w, es[0])|)
  }

  ghost predicate DeliveredAll(log: seq<Delivery>, done: seq<Message>) {
    |log| == |done| && forall i :: 0 <= i < |done| ==> Delivered(log[i], done[i])
  }

  lemma PartOfEvent(env: Env, s: State, w: Writer, e: Event, p: seq<byte>)
    requires Sane(w) && Mirrors(s, w) && Admissible(w, e) && Accepting(env) && p < Emit(w, e)
    ensures !Run(env, s, p).failed && Run(env, s, p).state.log == s.log
  {
    hide Run, Emit, Next, Mirrors;
    var b := Emit(w, e);
    CutEvent(env, s, w, e);
    assert p + b[|p|..|b| - 1] == b[..|b| - 1];
    PrefixRun(env, s, p, b[|p|..|b| - 1]);
    var t := ReadsEvent(env, s, w, e, []);
    assert p + b[|p|..] == b + [];
    PrefixRun(env, s, p, b[|p|..]);
    Demultiplex(env, t, Next(w, e), []);
  }

  /** A schedule cut short anywhere, also inside a chunk: nothing has failed, and the messages delivered are those
      whose last byte has come. */
  lemma {:induction false} CutSchedule(env: Env, s: State, w: Writer, es: seq<Event>, p: seq<byte>)
    requires Sane(w) && Mirrors(s, w) && AdmissibleAll(w, es) && Accepting(env) && p <= EmitAll(w, es)
    ensures var r := Run(env, s, p);
            !r.failed && s.log <= r.state.log && DeliveredAll(r.state.log, DoneAfter(w, es, |p|))
    decreases |es|
  {
    hide Run, Emit, Next;
    assert DeliveredAll(s.log, w.done);
    hide Mirrors, DeliveredAll;
    if es == [] {
      Demultiplex(env, s, w, []);
      assert p == [];
    } else {
      var b := Emit(w, es[0]);
      if |p| >= |b| {
        assert p == b + p[|b|..];
        var t := ReadsEvent(env, s, w, es[0], p[|b|..]);
        CutSchedule(env, t, Next(w, es[0]), es[1..], p[|b|..]);
      } else {
        assert p == b[..|p|];
        PartOfEvent(env, s, w, es[0], p);
      }
    }
  }

  // ---------------------------------------------------------------- channel by channel

  /** The messages of one channel, in order. */
  function OnChannel(ms: seq<Message>, c: nat): seq<Message> {
    if ms == [] then [] else
    OnChannel(ms[..|ms| - 1], c) + if ms[|ms| - 1].channel == c then [ms[|ms| - 1]] else []
  }

  function Underway(w: Writer, c: nat): seq<Message> {
    if c in w.open then [w.open[c].msg] else []
  }

  /** The messages a schedule begins on one channel, in order. */
  function Begun(es: seq<Event>, c: nat): seq<Message> {
    if es == [] then [] else
    (if es[0].Begin? && es[0].msg.channel == c then [es[0].msg] else []) + Begun(es[1..], c)
  }

  lemma SentKeepsChannelOrder(w: Writer, m: Message, end: nat, c: nat)
    requires m.typeId == TYPE_CHUNK_SIZE ==> |m.payload| >= 4
    ensures var w' := Sent(w, m, end);
            OnChannel(w'.done, c) + Underway(w', c)
              == OnChannel(w.done, c) + if m.channel == c then [m] else Underway(w, c)
  {
    hide ChunkSizeSet;
    if end >= |m.payload| {
      assert (w.done + [m])[..|w.done|] == w.done;
    }
  }

  lemma EventKeepsChannelOrder(w: Writer, e: Event, c: nat)
    requires Sane(w) && Admissible(w, e)
    ensures var w' := Next(w, e);
            OnChannel(w'.done, c) + Underway(w', c) == OnChannel(w.done, c) + Underway(w, c) + Begun([e], c)
  {
    hide Sent, OnChannel, Emit;
    assert Begun([e], c) == if e.Begin? && e.msg.channel == c then [e.msg] else [];
    match e {
      case Begin(m, _, _) => SentKeepsChannelOrder(w.(last := w.last[m.channel := m]), m, NextPiece(w, m, 0), c);
      case Continue(channel, _) =>
        var o := w.open[channel];
        SentKeepsChannelOrder(w, o.msg, NextPiece(w, o.msg, o.sent), c);
    }
  }

  /** What a channel has finished and what it has underway is what was begun there: nothing is
      lost, repeated or reordered, whatever happens on the other channels. */
  lemma {:induction false} ChannelOrder(w: Writer, es: seq<Event>, c: nat)
    requires Sane(w) && AdmissibleAll(w, es)
    ensures var w' := NextAll(w, es);
            OnChannel(w'.done, c) + Underway(w', c) == OnChannel(w.done, c) + Underway(w, c) + Begun(es, c)
    decreases |es|
  {
    hide Next, Emit, OnChannel, Underway;
    if es != [] {
      EventKeepsChannelOrder(w, es[0], c);
      ChannelOrder(Next(w, es[0]), es[1..], c);
      assert Begun([es[0]], c) + Begun(es[1..], c) == Begun(es, c);
    }
  }

  // ---------------------------------------------------------------- from the first byte

  const IDLE := Writer(128, map[], map[], [])

  /** The parser of a connection whose handshake is done mirrors a writer that has sent nothing. */
  lemma HandshakeThenIdle(env: Env, c1: seq<byte>) returns (s: State)
    requires |c1| == SIG_SIZE
    ensures Mirrors(s, IDLE) && KnowsOnly(s, IDLE) && s.log == []
    ensures forall rest :: Run(env, INIT, [3] + c1 + env.serverSig + rest) == Run(env, s, rest)
  {
    hide Run;
    var s0 := INIT;
    s := s0.(phase := NewPacket, handshaked := true, sent := [] + [3] + env.serverSig + c1);
    forall rest ensures Run(env, INIT, [3] + c1 + env.serverSig + rest) == Run(env, s, rest) {
      var u := [3] + c1 + env.serverSig + rest;
      assert u[1..SIG_SIZE + 1] == c1;
      var v := u[SIG_SIZE + 1..];
      assert v == env.serverSig + rest;
      assert v[..SIG_SIZE] == env.serverSig && v[SIG_SIZE..] == rest;
      RunStep(env, INIT, u);
      RunStep(env, Step(env, INIT, u).state, v);
    }
  }

  /** End to end: a new connection fed, in pieces of any size, a handshake and any multiplexed schedule
      has delivered the finished messages, channel by channel in the order they were begun. */
  lemma ConnectionDemultiplexes(env: Env, c1: seq<byte>, es: seq<Event>, pieces: seq<seq<byte>>)
    requires |c1| == SIG_SIZE && Accepting(env) && pieces != []
    requires AdmissibleAll(IDLE, es)
    requires Flatten(pieces) == [3] + c1 + env.serverSig + EmitAll(IDLE, es)
    ensures var c := OnReads(env, FRESH, pieces);
            !c.closed && c.unread == [] && Mirrors(c.state, NextAll(IDLE, es))
    ensures forall k :: OnChannel(NextAll(IDLE, es).done, k) + Underway(NextAll(IDLE, es), k) == Begun(es, k)
  {
    hide Run, Emit, Mirrors, Next;
    var s := HandshakeThenIdle(env, c1);
    var wire := EmitAll(IDLE, es);
    Demultiplex(env, s, IDLE, es);
    FragmentationIndependence(env, FRESH, pieces);
    assert FRESH.unread + Flatten(pieces) == [3] + c1 + env.serverSig + wire;
    forall k ensures OnChannel(NextAll(IDLE, es).done, k) + Underway(NextAll(IDLE, es), k) == Begun(es, k) {
      ChannelOrder(IDLE, es, k);
      assert OnChannel([], k) + Underway(IDLE, k) + Begun(es, k) == Begun(es, k);
    }
  }
}
