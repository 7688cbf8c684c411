/** The RTMP connection as the original keeps it: parser fields, per-channel tables and
    byte queues updated in place by the `process*` functions, each proved to be one `Step`. */
module RtmpConnections {
  import opened Bytes
  import opened ObjBuffers
  import opened RtmpParser
  import opened RtmpStream

  const ALIGN: nat := 8192
  const SAFE_TAIL: nat := 8
  const HTTP_SAFE_TAIL: nat := 256

  /** A `process*` call that started with `u` unread and ended in `s`, `rest` did what the step `r` says. */
  ghost predicate Did(r: StepResult, u: seq<byte>, s: State, rest: seq<byte>, ok: bool, bError: bool) {
    && s == r.state
    && ok == r.Advance?
    && bError == r.Fail?
    && (r.Stall? || r.used <= |u|)
    && rest == if r.Stall? then u else u[r.used..]
  }

  /** The run from `s` and `u` goes on, or has ended, in the situation reached by one call. */
  lemma RunOnce(env: Env, s: State, u: seq<byte>, s': State, u': seq<byte>, ok: bool, bError: bool)
    requires Did(Step(env, s, u), u, s', u', ok, bError)
    ensures Run(env, s, u) == if ok then Run(env, s', u') else RunResult(s', u', bError)
    ensures ok ==> !bError && (|u'| < |u| || (|u'| == |u| && Rank(s'.phase) < Rank(s.phase)))
  {
    hide Step;
  }

  lemma ReadFieldsPrefix(h: Header, u: seq<byte>, n: nat)
    requires n <= |u|
    ensures ReadFields(h, u[..n], n) == ReadFields(h, u, n)
    ensures n < 3 ==> ReadFields(h, u, n) == h
  {
  }

  lemma WithSlotTwice(s: State, a: Slot, b: Slot)
    requires s.header.channelId < MAX_CHANNELS
    ensures WithSlot(WithSlot(s, a), b) == WithSlot(s, b)
  {
    assert s.slots[s.header.channelId := a][s.header.channelId := b] == s.slots[s.header.channelId := b];
  }

  lemma CompleteFreesSlot(env: Env, s: State, slot: Slot, payload: seq<byte>)
    requires s.header.channelId < MAX_CHANNELS && s.phase == AmfData
    ensures Complete(env, WithSlot(s, slot), payload) == Complete(env, s, payload)
  {
    WithSlotTwice(s, slot, Free);
  }

  class RtmpConnection {
    const env: Env
    var isRtmp: bool
    var closing: bool
    const buf: ObjBuffer
    const bufHttp: ObjBuffer

    var phase: Phase
    var handshaked: bool
    var header: Header
    const prevHeaders: array<Header>
    const pktIoBufs: array<Slot>
    var chunkSizeIn: int
    var log: seq<Delivery>
    var sent: seq<byte>

    ghost function Raw(): RawState
      reads this, prevHeaders, pktIoBufs
    {
      RawState.State(phase, handshaked, header, prevHeaders[..], pktIoBufs[..], chunkSizeIn, log, sent)
    }

    ghost predicate Valid()
      reads this, prevHeaders, pktIoBufs, buf, bufHttp
    {
      && Shaped(Raw())
      && buf != bufHttp
      && buf.Valid() && bufHttp.Valid()
      && buf.data != bufHttp.data
      && buf.safeTail == SAFE_TAIL && bufHttp.safeTail == HTTP_SAFE_TAIL
    }

    ghost function Abs(): State
      reads this, prevHeaders, pktIoBufs, buf, bufHttp
      requires Valid()
    {
      Raw()
    }

    constructor (e: Env)
      ensures Valid() && HeldBack() && env == e && Abs() == INIT && !isRtmp && !closing
      ensures buf.Unread() == [] && bufHttp.Unread() == [] && buf.writePos == 0 && bufHttp.writePos == 0
      ensures fresh(buf) && fresh(bufHttp) && fresh(buf.data) && fresh(bufHttp.data)
      ensures fresh(prevHeaders) && fresh(pktIoBufs)
    {
      env := e;
      isRtmp, closing := false, false;
      var b := new ObjBuffer(SAFE_TAIL);
      var h := new ObjBuffer(HTTP_SAFE_TAIL);
      buf, bufHttp := b, h;
      phase, handshaked, header := RecvHandshake0, false, CLEARED;
      prevHeaders := new Header[MAX_CHANNELS](_ => CLEARED);
      pktIoBufs := new Slot[MAX_CHANNELS](_ => Free);
      chunkSizeIn, log, sent := DEFAULT_CHUNK_SIZE, [], [];
      new;
      assert prevHeaders[..] == seq(MAX_CHANNELS, _ => CLEARED);
      assert pktIoBufs[..] == seq(MAX_CHANNELS, _ => Free);
    }

    /** Advances the read position by `n` and packs if that leaves it far along. */
    method Consume(n: nat)
      requires Valid() && n <= |buf.Unread()|
      modifies buf, buf.data
      ensures Valid() && buf.data == old(buf.data)
      ensures buf.Unread() == old(buf.Unread())[n..]
      ensures Raw() == old(Raw())
    {
      buf.Skip(n);
      buf.PackIfFar(ALIGN);
    }

    method ProcessRecvHandshake0() returns (ok: bool, bError: bool)
      requires Valid() && phase == RecvHandshake0
      modifies `phase, `handshaked, `header, `sent, buf, buf.data
      ensures Valid() && buf.data == old(buf.data)
      ensures Did(Step(env, old(Abs()), old(buf.Unread())), old(buf.Unread()), Abs(), buf.Unread(), ok, bError)
    {
      hide ObjBuffer.Valid, ObjBuffer.Unread;
      ok, bError := false, false;
      var length := buf.DataLength();
      if length < SIG_SIZE + 1 {
        return;
      }
      var sig := buf.Peek(SIG_SIZE + 1);
      buf.Skip(SIG_SIZE + 1);
      if sig[0] != 3 {
        return false, true;
      }
      assert sig[1..] == old(buf.Unread())[1..SIG_SIZE + 1];
      sent := sent + [sig[0]] + env.serverSig + sig[1..];
      buf.PackIfFar(ALIGN);
      phase := RecvHandshake1;
      ok := true;
    }

    method ProcessRecvHandshake1() returns (ok: bool, bError: bool)
      requires Valid() && phase == RecvHandshake1
      modifies `phase, `handshaked, `header, `sent, buf, buf.data
      ensures Valid() && buf.data == old(buf.data)
      ensures Did(Step(env, old(Abs()), old(buf.Unread())), old(buf.Unread()), Abs(), buf.Unread(), ok, bError)
    {
      hide ObjBuffer.Valid, ObjBuffer.Unread;
      ok, bError := false, false;
      var length := buf.DataLength();
      if length < SIG_SIZE {
        return;
      }
      var sig := buf.Peek(SIG_SIZE);
      buf.Skip(SIG_SIZE);
      if sig != env.serverSig {
        return false, true;
      }
      buf.PackIfFar(ALIGN);
      handshaked, phase := true, NewPacket;
      ok := true;
    }

    /** Where a basic header leads: a longer channel id, a message header, or straight to the data. */
    method EnterChunk()
      requires Valid() && phase == NewPacket && header.channelId < 64 && header.headSize in {1, 4, 8, 12}
      modifies `phase, `header
      ensures Valid() && Abs() == AfterBasicHeader(old(Abs()), old(header))
    {
      if header.channelId == 0 {
        phase, header := ExtHeader, header.(extHeadSize := 1);
      } else if header.channelId == 1 {
        phase, header := ExtHeader, header.(extHeadSize := 2);
      } else {
        phase := PartHeader;
        if header.headSize == 1 {
          if header.channelId < MAX_CHANNELS {
            if prevHeaders[header.channelId].IsValid() {
              phase, header := AmfData, prevHeaders[header.channelId];
            }
          }
        }
      }
    }

    method ProcessInitialHeader() returns (ok: bool, bError: bool)
      requires Valid() && phase == NewPacket
      modifies `phase, `handshaked, `header, `sent, buf, buf.data
      ensures Valid() && buf.data == old(buf.data)
      ensures Did(Step(env, old(Abs()), old(buf.Unread())), old(buf.Unread()), Abs(), buf.Unread(), ok, bError)
      ensures ok ==> phase in {ExtHeader, PartHeader, AmfData}
    {
      hide ObjBuffer.Valid, ObjBuffer.Unread;
      ok, bError := false, false;
      var length := buf.DataLength();
      if length < 1 {
        return;
      }
      var first := buf.Peek(1);
      var tmp := first[0];
      header := BasicHeader(tmp);
      buf.Skip(1);
      buf.PackIfFar(ALIGN);
      EnterChunk();
      ok := true;
    }

    method ProcessExtHeader() returns (ok: bool, bError: bool)
      requires Valid() && phase == ExtHeader
      modifies `phase, `handshaked, `header, `sent, buf, buf.data
      ensures Valid() && buf.data == old(buf.data)
      ensures Did(Step(env, old(Abs()), old(buf.Unread())), old(buf.Unread()), Abs(), buf.Unread(), ok, bError)
      ensures ok ==> phase == PartHeader
    {
      hide ObjBuffer.Valid, ObjBuffer.Unread;
      ok, bError := false, false;
      var length := buf.DataLength();
      if length < header.extHeadSize {
        return;
      }
      var bytes := buf.Peek(header.extHeadSize);
      if header.extHeadSize == 1 {
        header := header.(channelId := bytes[0] as int + 64);
      } else if header.extHeadSize == 2 {
        var id := bytes[1] as int * 0x100 + bytes[0] as int;
        header := header.(channelId := id + 64);
      }
      phase := PartHeader;
      Consume(header.extHeadSize);
      ok := true;
    }

    /** Overwrites the header fields a message header of `n` bytes carries. */
    method ReadHeaderFields(bytes: seq<byte>, n: nat)
      requires n == |bytes| >= 3
      modifies this`header
      ensures header == ReadFields(old(header), bytes, n)
    {
      header := header.(timer := DecodeInt24(bytes, 0));
      if n >= 6 {
        header := header.(packetSize := DecodeInt24(bytes, 3));
        if n > 6 {
          header := header.(packetType := bytes[6]);
          if n == 11 {
            header := header.(streamId := DecodeInt32LE(bytes, 7));
          }
        }
      }
    }

    method RememberHeader()
      requires Valid()
      modifies prevHeaders
      ensures Valid() && Abs() == Remember(old(Abs()))
      ensures buf.Unread() == old(buf.Unread())
    {
      hide ObjBuffer.Valid, ObjBuffer.Unread;
      if header.channelId < MAX_CHANNELS {
        prevHeaders[header.channelId] := header;
      }
      assert prevHeaders[..] == Remember(old(Abs())).prev;
      assert pktIoBufs[..] == old(pktIoBufs[..]);
    }

    /** The header is complete: skip its last `n` bytes, remember it, go on to the data. */
    method CommitHeader(n: nat)
      requires Valid() && phase == AmfData && n <= |buf.Unread()|
      modifies buf, buf.data, prevHeaders
      ensures Valid() && buf.data == old(buf.data)
      ensures Abs() == Remember(old(Abs())) && buf.Unread() == old(buf.Unread())[n..]
    {
      hide ObjBuffer.Valid, ObjBuffer.Unread, Remember;
      Consume(n);
      RememberHeader();
    }

    method InheritHeader()
      requires Valid()
      modifies `header
      ensures header == BaseHeader(old(Abs()))
    {
      if header.headSize < 12 {
        if header.channelId < MAX_CHANNELS {
          if prevHeaders[header.channelId].IsValid() {
            header := prevHeaders[header.channelId];
          }
        }
      }
    }

    /** Inheritance and overwriting together: the header that `n` more bytes leave. */
    method MergeHeader(n: nat)
      requires Valid() && n in {0, 3, 7, 11} && n <= |buf.Unread()|
      modifies `header
      ensures header == ReadFields(BaseHeader(old(Abs())), buf.Unread(), n)
    {
      hide ReadFields, BaseHeader, ObjBuffer.Valid, ObjBuffer.Unread;
      var bytes := buf.Peek(n);
      InheritHeader();
      ReadFieldsPrefix(header, buf.Unread(), n);
      if n >= 3 {
        ReadHeaderFields(bytes, n);
      }
    }

    method ProcessRemainingHeader() returns (ok: bool, bError: bool)
      requires Valid() && phase == PartHeader
      modifies `phase, `header, buf, buf.data, prevHeaders
      ensures Valid() && buf.data == old(buf.data)
      ensures Did(Step(env, old(Abs()), old(buf.Unread())), old(buf.Unread()), Abs(), buf.Unread(), ok, bError)
      ensures ok ==> phase in {ExtTimer, AmfData}
    {
      hide ReadFields, BaseHeader, ObjBuffer.Valid, ObjBuffer.Unread, Remember;
      ok, bError := false, false;
      ghost var s, u := Abs(), buf.Unread();
      var n := header.headSize - 1;
      var length := buf.DataLength();
      if length < n {
        return;
      }
      MergeHeader(n);
      if n >= 3 {
        if header.timer == NO_TIME {
          phase := ExtTimer;
          buf.Skip(n);
          return true, false;
        }
        header := header.(timerType := if n == 11 then TimerAbs else TimerRelative);
      }
      phase := AmfData;
      CommitHeader(n);
      ok := true;
    }

    method ProcessExtTimer() returns (ok: bool, bError: bool)
      requires Valid() && phase == ExtTimer
      modifies `phase, `header, buf, buf.data, prevHeaders
      ensures Valid() && buf.data == old(buf.data)
      ensures Did(Step(env, old(Abs()), old(buf.Unread())), old(buf.Unread()), Abs(), buf.Unread(), ok, bError)
    {
      hide ObjBuffer.Valid, ObjBuffer.Unread;
      ok, bError := false, false;
      var length := buf.DataLength();
      if length < 4 {
        return;
      }
      var bytes := buf.Peek(4);
      header := header.(timer := ToInt32(DecodeInt32(bytes, 0)), timerType := TimerExt);
      phase := AmfData;
      CommitHeader(4);
      ok := true;
    }

    /** The current channel's buffer, allocated if there is none. */
    method CreateIoBuffer() returns (ioBuf: Slot)
      requires Valid() && header.channelId < MAX_CHANNELS
      modifies pktIoBufs
      ensures Valid() && buf.Unread() == old(buf.Unread())
      ensures ioBuf == CurrentSlot(old(Abs())) && Abs() == WithSlot(old(Abs()), ioBuf)
    {
      var channel := header.channelId;
      if pktIoBufs[channel] == Free {
        pktIoBufs[channel] := Pending([], header.packetSize, RoundUp(header.packetSize + 4, 1024));
      }
      ioBuf := pktIoBufs[channel];
      assert pktIoBufs[..] == old(pktIoBufs[..])[channel := ioBuf];
      assert prevHeaders[..] == old(prevHeaders[..]);
    }

    method SetIoBuffer(ioBuf: Slot)
      requires Valid() && header.channelId < MAX_CHANNELS
      modifies pktIoBufs
      ensures Valid() && buf.Unread() == old(buf.Unread())
      ensures Abs() == WithSlot(old(Abs()), ioBuf)
    {
      pktIoBufs[header.channelId] := ioBuf;
      assert pktIoBufs[..] == old(pktIoBufs[..])[header.channelId := ioBuf];
      assert prevHeaders[..] == old(prevHeaders[..]);
    }

    method TakeChunkSize(data: seq<byte>)
      modifies `chunkSizeIn
      ensures chunkSizeIn == if header.packetType == TYPE_CHUNK_SIZE then ChunkSizeFrom(env, data) else old(chunkSizeIn)
    {
      if header.packetType == TYPE_CHUNK_SIZE {
        chunkSizeIn := ToInt32(DecodeInt32(data + env.unset, 0));
        if chunkSizeIn <= 0 {
          chunkSizeIn := DEFAULT_CHUNK_SIZE;
        }
      }
    }

    /** The last byte of a message is in: free its slot, take a new chunk size, deliver.  The callback may
        refuse the message, or close the connection. */
    method FinishMessage(data: seq<byte>) returns (bError: bool)
      requires Valid() && !closing && phase == AmfData && header.channelId < MAX_CHANNELS
      modifies `phase, `header, `chunkSizeIn, `log, `closing, pktIoBufs
      ensures Valid()
      ensures buf.Unread() == old(buf.Unread())
      ensures Abs() == Complete(env, old(Abs()), data)
      ensures bError == env.refuses(Abs().log) && closing == env.closes(Abs().log)
    {
      hide ObjBuffer.Valid, ObjBuffer.Unread, ChunkSizeFrom;
      ghost var s := Abs();
      SetIoBuffer(Free);
      assert Abs() == WithSlot(s, Free);
      phase := NewPacket;
      TakeChunkSize(data);
      log := log + [Delivery(header, data)];
      bError, closing := env.refuses(log), env.closes(log);
      header := CLEARED;
    }

    method ProcessData() returns (ok: bool, bError: bool)
      requires Valid() && !closing && phase == AmfData
      modifies `phase, `header, `chunkSizeIn, `log, `closing, buf, buf.data, pktIoBufs
      ensures Valid() && buf.data == old(buf.data)
      ensures Did(Step(env, old(Abs()), old(buf.Unread())), old(buf.Unread()),
                  Abs(), buf.Unread(), ok && !closing, bError || closing)
    {
      hide ObjBuffer.Valid, Complete, CurrentSlot, ObjBuffer.Unread;
      ok, bError := false, false;
      ghost var s, u := Abs(), buf.Unread();
      if header.packetSize == 0 {
        buf.PackIfFar(ALIGN);
        phase := NewPacket;
        return true, false;
      }
      if header.channelId >= MAX_CHANNELS {
        return false, true;
      }
      var ioBuf := CreateIoBuffer();
      var nRequiredLen := Min(chunkSizeIn, ioBuf.lenTrans - |ioBuf.data|);
      if nRequiredLen < 0 {
        return false, true;
      }
      var length := buf.DataLength();
      if length < nRequiredLen {
        return;
      }
      var body := buf.Peek(nRequiredLen);
      var data := ioBuf.data + body;
      buf.Skip(nRequiredLen);
      if |data| >= ioBuf.lenTrans {
        CompleteFreesSlot(env, s, ioBuf, data);
        bError := FinishMessage(data);
        if bError {
          return false, true;
        }
      } else {
        WithSlotTwice(s, ioBuf, ioBuf.(data := data));
        SetIoBuffer(ioBuf.(data := data));
        phase := NewPacket;
      }
      buf.PackIfFar(ALIGN);
      ok := true;
    }

    /** The header phases, in the order the loop tests them. */
    method HeaderPass() returns (ok: bool, bError: bool)
      requires Valid() && handshaked
      modifies `phase, `handshaked, `header, `chunkSizeIn, `log, `sent, buf, buf.data, prevHeaders, pktIoBufs
      ensures Valid() && buf.data == old(buf.data) && (ok ==> !bError && handshaked)
      ensures Run(env, old(Abs()), old(buf.Unread()))
              == if ok then Run(env, Abs(), buf.Unread()) else RunResult(Abs(), buf.Unread(), bError)
      ensures ok ==> phase == AmfData || phase == ExtTimer
      ensures ok && old(phase) !in {AmfData, ExtTimer} ==>
                |buf.Unread()| < |old(buf.Unread())|
                || (|buf.Unread()| == |old(buf.Unread())| && Rank(phase) < Rank(old(phase)))
      ensures old(phase) in {AmfData, ExtTimer} ==> ok && phase == old(phase) && buf.Unread() == old(buf.Unread())
    {
      hide Step, Run, ObjBuffer.Valid, ObjBuffer.Unread;
      ok, bError := true, false;
      ghost var s, u := Abs(), buf.Unread();
      if phase == NewPacket {
        ok, bError := ProcessInitialHeader();
        RunOnce(env, s, u, Abs(), buf.Unread(), ok, bError);
        if !ok { return; }
      }
      s, u := Abs(), buf.Unread();
      if phase == ExtHeader {
        ok, bError := ProcessExtHeader();
        RunOnce(env, s, u, Abs(), buf.Unread(), ok, bError);
        if !ok { return; }
      }
      s, u := Abs(), buf.Unread();
      if phase == PartHeader {
        ok, bError := ProcessRemainingHeader();
        RunOnce(env, s, u, Abs(), buf.Unread(), ok, bError);
      }
    }

    /** One pass of the loop. */
    method Pass() returns (ok: bool, bError: bool)
      requires Valid() && !closing && handshaked
      modifies `phase, `handshaked, `header, `chunkSizeIn, `log, `sent, `closing, buf, buf.data, prevHeaders, pktIoBufs
      ensures Valid() && buf.data == old(buf.data) && (ok && !closing ==> !bError && handshaked)
      ensures Run(env, old(Abs()), old(buf.Unread()))
              == if ok && !closing then Run(env, Abs(), buf.Unread())
                  else RunResult(Abs(), buf.Unread(), bError || closing)
      ensures ok && !closing ==>
                |buf.Unread()| < |old(buf.Unread())|
                || (|buf.Unread()| == |old(buf.Unread())| && Rank(phase) < Rank(old(phase)))
    {
      hide Step, Run, ObjBuffer.Valid, ObjBuffer.Unread;
      ok, bError := HeaderPass();
      if !ok { return; }
      ghost var s, u := Abs(), buf.Unread();
      if phase == ExtTimer {
        ok, bError := ProcessExtTimer();
        RunOnce(env, s, u, Abs(), buf.Unread(), ok, bError);
        if !ok { return; }
      }
      s, u := Abs(), buf.Unread();
      if phase == AmfData {
        ok, bError := ProcessData();
        RunOnce(env, s, u, Abs(), buf.Unread(), ok && !closing, bError || closing);
      }
    }

    /** The handshake loop, which falls through to the packet loop when C2 is accepted. */
    method Handshake() returns (ok: bool, bError: bool)
      requires Valid() && !handshaked
      modifies `phase, `handshaked, `header, `sent, buf, buf.data
      ensures Valid() && buf.data == old(buf.data)
      ensures (ok ==> !bError && handshaked)
      ensures Run(env, old(Abs()), old(buf.Unread()))
              == if ok then Run(env, Abs(), buf.Unread()) else RunResult(Abs(), buf.Unread(), bError)
    {
      hide Step, Run;
      ok, bError := true, false;
      while !handshaked
        invariant Valid() && buf.data == old(buf.data)
        invariant ok && !bError
        invariant Run(env, Abs(), buf.Unread()) == Run(env, old(Abs()), old(buf.Unread()))
        decreases |buf.Unread()|, Rank(phase)
      {
        ghost var s, u := Abs(), buf.Unread();
        if phase == RecvHandshake0 {
          ok, bError := ProcessRecvHandshake0();
          RunOnce(env, s, u, Abs(), buf.Unread(), ok, bError);
          if !ok { return; }
        }
        s, u := Abs(), buf.Unread();
        if phase == RecvHandshake1 {
          ok, bError := ProcessRecvHandshake1();
          RunOnce(env, s, u, Abs(), buf.Unread(), ok, bError);
          if !ok { return; }
        }
      }
    }

    /** The dispatch loop.  It ends where `Run` ends, whatever it is given: also when a callback has closed
        the connection. */
    method ProcessInputBuffer() returns (bError: bool)
      requires Valid() && !closing
      modifies `phase, `handshaked, `header, `chunkSizeIn, `log, `sent, `closing, buf, buf.data, prevHeaders, pktIoBufs
      ensures Valid() && buf.data == old(buf.data)
      ensures RunResult(Abs(), buf.Unread(), bError || closing) == Run(env, old(Abs()), old(buf.Unread()))
    {
      hide Step, Run;
      var ok := true;
      bError := false;
      if !handshaked {
        ok, bError := Handshake();
      }
      if !ok {
        return;
      }
      while !bError && !closing
        invariant Valid() && buf.data == old(buf.data)
        invariant !closing ==> handshaked && !bError
        invariant (if closing then RunResult(Abs(), buf.Unread(), true) else Run(env, Abs(), buf.Unread()))
                  == Run(env, old(Abs()), old(buf.Unread()))
        decreases !closing, |buf.Unread()|, Rank(phase)
      {
        ok, bError := Pass();
        if !ok {
          return;
        }
      }
    }

    /** The connection as the stream theorems see it. */
    ghost function View(): Conn
      reads this, prevHeaders, pktIoBufs, buf, buf.data, bufHttp, bufHttp.data
      requires Valid()
    {
      RtmpStream.Conn(isRtmp, if isRtmp then buf.Unread() else bufHttp.Unread(), Abs(), closing)
    }

    /** Until the protocol is known the RTMP queue is untouched and nothing has been read. */
    ghost predicate HeldBack()
      reads this, buf, bufHttp
    {
      !isRtmp ==> buf.writePos == 0 && bufHttp.readPos == 0
    }

    /** Five bytes are in: the connection is RTMP and takes over what was held back. */
    method OpenRtmp()
      requires Valid() && HeldBack() && !isRtmp
      requires bufHttp.writePos + SAFE_TAIL + ALIGN < 0x8000_0000
      modifies this`isRtmp, buf, buf.data, bufHttp
      ensures Valid() && isRtmp && (fresh(buf.data) || buf.data == old(buf.data))
      ensures bufHttp.data == old(bufHttp.data)
      ensures Raw() == old(Raw()) && buf.Unread() == old(bufHttp.Unread())
    {
      isRtmp := true;
      buf.Write(bufHttp.data[..bufHttp.writePos], ALIGN);
      bufHttp.Drop();
    }

    /** The read callback: the connection moves as `OnRead` says. */
    method OnReadCompleted(piece: seq<byte>)
      requires Valid() && HeldBack()
      requires buf.writePos + bufHttp.writePos + |piece| + 1 + HTTP_SAFE_TAIL + ALIGN < 0x8000_0000
      modifies this, buf, buf.data, bufHttp, bufHttp.data, prevHeaders, pktIoBufs
      ensures Valid() && HeldBack()
      ensures View() == OnRead(env, old(View()), piece)
    {
      hide Run, ObjBuffer.Valid, ObjBuffer.Unread;
      if closing {
        return;
      }
      if isRtmp {
        buf.Write(piece, ALIGN);
        buf.Terminate(ALIGN);
      } else {
        bufHttp.Write(piece, ALIGN);
        bufHttp.Terminate(ALIGN);
        var length := bufHttp.DataLength();
        if length < 5 {
          return;
        }
        OpenRtmp();
      }
      var bError := ProcessInputBuffer();
      if bError {
        closing := true;
      }
    }
  }
}
