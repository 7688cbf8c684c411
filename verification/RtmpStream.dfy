/** What holds of the parser over whole byte streams: how the network cuts the stream
    does not matter, and the invariants of every reachable state. */
module RtmpStream {
  import opened Bytes
  import opened RtmpParser

  // ---------------------------------------------------------------- one step

  /** A step that moved ignores bytes that arrive later. */
  lemma StepIgnoresSuffix(env: Env, s: State, a: seq<byte>, b: seq<byte>)
    requires !Step(env, s, a).Stall?
    ensures Step(env, s, a + b) == Step(env, s, a)
  {
    match s.phase {
      case RecvHandshake0 => assert (a + b)[1..SIG_SIZE + 1] == a[1..SIG_SIZE + 1];
      case RecvHandshake1 => assert (a + b)[..SIG_SIZE] == a[..SIG_SIZE];
      case AmfData =>
        if s.header.packetSize != 0 && s.header.channelId < MAX_CHANNELS {
          var slot := CurrentSlot(s);
          var need := Min(s.chunkSizeIn, slot.lenTrans - |slot.data|);
          if 0 <= need <= |a| {
            assert (a + b)[..need] == a[..need];
          }
        }
      case _ =>
    }
  }

  /** A stalled step can be resumed from the state it left behind. */
  lemma StepResumes(env: Env, s: State, a: seq<byte>, b: seq<byte>)
    requires Step(env, s, a).Stall?
    ensures Step(env, Step(env, s, a).state, a + b) == Step(env, s, a + b)
    ensures Step(env, Step(env, s, a).state, a) == Step(env, s, a)
  {
    if s.phase.AmfData? {
      var t := Step(env, s, a).state;
      assert t.slots == s.slots[s.header.channelId := CurrentSlot(s)];
      assert CurrentSlot(t) == CurrentSlot(s);
      forall slot ensures WithSlot(t, slot) == WithSlot(s, slot) {
        assert t.slots[s.header.channelId := slot] == s.slots[s.header.channelId := slot];
      }
    }
  }

  /** Only the data step touches the reassembly slots and the log. */
  lemma HeaderStepKeeps(env: Env, s: State, u: seq<byte>)
    requires s.phase != AmfData
    ensures var r := Step(env, s, u);
            && r.state.slots == s.slots && r.state.log == s.log
            && (s.phase == NewPacket && r.Advance? ==> r.used == 1)
  {
    hide ReadFields, BaseHeader, BasicHeader, DecodeInt32, ToInt32;
  }

  /** The data step on its own channel adds to the slot's bytes and keeps them, or logs them; elsewhere it
      touches nothing. */
  lemma DataStepAdds(env: Env, s: State, u: seq<byte>, c: nat)
    requires s.phase == AmfData && c < MAX_CHANNELS
    ensures var t := Step(env, s, u).state;
            && (t.log == s.log || (|t.log| == |s.log| + 1 && s.log <= t.log))
            && (t.log == s.log && s.slots[c].Pending? ==> t.slots[c].Pending? && s.slots[c].data <= t.slots[c].data)
            && (t.log != s.log ==>
                  if t.log[|s.log|].header.channelId == c then s.slots[c].Pending? ==>
                    s.slots[c].data <= t.log[|s.log|].payload
                  else t.slots[c] == s.slots[c])
  {
    hide ChunkSizeFrom, RoundUp;
  }

  /** The log only grows. */
  lemma {:induction false} LogGrows(env: Env, s: State, u: seq<byte>)
    ensures s.log <= Run(env, s, u).state.log
    decreases |u|, Rank(s.phase)
  {
    var r := Step(env, s, u);
    if s.phase != AmfData {
      HeaderStepKeeps(env, s, u);
    } else {
      DataStepAdds(env, s, u, 0);
    }
    hide Step;
    if r.Advance? {
      LogGrows(env, r.state, u[r.used..]);
    }
  }

  /** A message header that leaves fields out, on a channel without a valid previous header: they are zero.  Without a
      length there is no payload to wait for. */
  lemma WithoutPredecessor(env: Env, s: State, u: seq<byte>)
    requires s.phase == NewPacket && |u| >= 8 && u[0] / 64 in {1, 2} && 2 <= u[0] % 64 && !s.prev[u[0] % 64].IsValid()
    requires BigEndianValue(u[1..4]) != 0xff_ffff
    ensures var t, fmt := Step(env, Step(env, s, u).state, u[1..]).state, u[0] / 64;
            && t.phase == AmfData
            && t.header.channelId == u[0] % 64 && t.header.timer == BigEndianValue(u[1..4])
            && t.header.timerType == TimerRelative && t.header.streamId == 0
            && t.header.packetSize == (if fmt == 1 then BigEndianValue(u[4..7]) else 0)
            && t.header.packetType == (if fmt == 1 then u[7] as nat else 0)
            && t.prev == s.prev[u[0] % 64 := t.header] && t.slots == s.slots && t.log == s.log
  {
    hide DecodeInt24, BigEndianValue;
    var v := u[1..];
    DecodersReadInOrder(v, 0);
    DecodersReadInOrder(v, 3);
    assert v[0..3] == u[1..4] && v[3..6] == u[4..7];
  }

  // ---------------------------------------------------------------- fragmentation

  /** Reading `a` and then `b` is reading `a + b`; after an error `b` is never looked at. */
  lemma {:induction false} RunAppend(env: Env, s: State, a: seq<byte>, b: seq<byte>)
    ensures var r := Run(env, s, a);
            Run(env, s, a + b) == if r.failed then r.(rest := r.rest + b) else Run(env, r.state, r.rest + b)
    decreases |a|, Rank(s.phase)
  {
    var r := Step(env, s, a);
    if r.Stall? {
      StepResumes(env, s, a, b);
    } else {
      StepIgnoresSuffix(env, s, a, b);
      assert (a + b)[r.used..] == a[r.used..] + b;
      if r.Advance? {
        RunAppend(env, r.state, a[r.used..], b);
      }
    }
  }

  /** A shorter input delivers a prefix of what a longer one does, and fails only if that one does. */
  lemma PrefixRun(env: Env, s: State, a: seq<byte>, b: seq<byte>)
    ensures var r, longer := Run(env, s, a), Run(env, s, a + b);
            s.log <= r.state.log <= longer.state.log && (r.failed ==> longer.failed)
  {
    hide Run;
    RunAppend(env, s, a, b);
    LogGrows(env, s, a);
    var r := Run(env, s, a);
    LogGrows(env, r.state, r.rest + b);
  }

  /** A connection as the read callback sees it: the bytes held back until five have
      arrived, then the parser and what it has not consumed. */
  datatype Conn = Conn(isRtmp: bool, unread: seq<byte>, state: State, closed: bool)

  /** The read callback on one network read, without the pending-size cut-off. */
  function OnRead(env: Env, c: Conn, piece: seq<byte>): Conn {
    if c.closed then c
    else if !c.isRtmp && |c.unread + piece| < 5 then c.(unread := c.unread + piece)
    else
      var r := Run(env, c.state, c.unread + piece);
      Conn(true, r.rest, r.state, r.failed)
  }

  function OnReads(env: Env, c: Conn, pieces: seq<seq<byte>>): Conn
    decreases |pieces|
  {
    if pieces == [] then c else OnReads(env, OnRead(env, c, pieces[0]), pieces[1..])
  }

  function Flatten(pieces: seq<seq<byte>>): seq<byte> {
    if pieces == [] then [] else pieces[0] + Flatten(pieces[1..])
  }

  /** Same parser state (log, replies, reassembly slots and all) and same verdict; an
      errored connection may have been handed less of the stream. */
  ghost predicate SameOutcome(fragmented: Conn, whole: Conn) {
    && fragmented.(unread := []) == whole.(unread := [])
    && fragmented.unread <= whole.unread
    && (!whole.closed ==> fragmented.unread == whole.unread)
  }

  /** Nothing happens before five bytes have come, in however many reads; then all of them are read at once. */
  lemma FiveBytesDecide(env: Env, c: Conn, piece: seq<byte>)
    requires !c.closed && !c.isRtmp
    ensures var d := OnRead(env, c, piece);
            if |c.unread| + |piece| < 5 then d == Conn(false, c.unread + piece, c.state, false)
            else d.isRtmp && d.state == Run(env, c.state, c.unread + piece).state
  {
  }

  lemma OnReadAppend(env: Env, c: Conn, a: seq<byte>, b: seq<byte>)
    ensures SameOutcome(OnRead(env, OnRead(env, c, a), b), OnRead(env, c, a + b))
  {
    assert c.unread + (a + b) == (c.unread + a) + b;
    if !c.closed && (c.isRtmp || |c.unread + a| >= 5) {
      RunAppend(env, c.state, c.unread + a, b);
    }
  }

  /** Fragmentation independence: any cut of the stream into reads ends like one read of it all. */
  lemma {:induction false} FragmentationIndependence(env: Env, c: Conn, pieces: seq<seq<byte>>)
    requires pieces != []
    ensures SameOutcome(OnReads(env, c, pieces), OnRead(env, c, Flatten(pieces)))
    decreases |pieces|
  {
    if |pieces| == 1 {
      assert Flatten(pieces[1..]) == [];
      assert pieces[0] + [] == pieces[0];
      assert OnReads(env, OnRead(env, c, pieces[0]), pieces[1..]) == OnRead(env, c, pieces[0]);
    } else {
      var c1 := OnRead(env, c, pieces[0]);
      FragmentationIndependence(env, c1, pieces[1..]);
      OnReadAppend(env, c, pieces[0], Flatten(pieces[1..]));
    }
  }

  /** Hence any two cuts of one stream agree on everything but an errored tail. */
  lemma AnyTwoCutsAgree(env: Env, c: Conn, cut1: seq<seq<byte>>, cut2: seq<seq<byte>>)
    requires cut1 != [] && cut2 != [] && Flatten(cut1) == Flatten(cut2)
    ensures OnReads(env, c, cut1).(unread := []) == OnReads(env, c, cut2).(unread := [])
    ensures !OnReads(env, c, cut1).closed ==> OnReads(env, c, cut1) == OnReads(env, c, cut2)
  {
    FragmentationIndependence(env, c, cut1);
    FragmentationIndependence(env, c, cut2);
  }

  // ---------------------------------------------------------------- conservation

  /** What a run leaves unread is a suffix of what it was given. */
  lemma {:induction false} RunConserves(env: Env, s: State, u: seq<byte>)
    ensures |Run(env, s, u).rest| <= |u|
    ensures Run(env, s, u).rest == u[|u| - |Run(env, s, u).rest|..]
    decreases |u|, Rank(s.phase)
  {
    var r := Step(env, s, u);
    if r.Advance? {
      RunConserves(env, r.state, u[r.used..]);
    }
  }

  // ---------------------------------------------------------------- reachable states

  ghost predicate SlotOk(slot: Slot) {
    slot.Pending? ==> |slot.data| < slot.lenTrans && slot.lenTrans + 4 <= slot.bufLen
  }

  /** The invariant of the parser. */
  ghost predicate Inv(s: State) {
    && s.chunkSizeIn >= 1
    && (forall c :: 0 <= c < MAX_CHANNELS ==> SlotOk(s.slots[c]))
    && (forall c :: 0 <= c < MAX_CHANNELS && s.prev[c].IsValid() ==> s.prev[c].channelId == c)
    && (!s.handshaked ==> s.log == [])
    && (forall i :: 0 <= i < |s.log| ==> Whole(s.log[i]))
  }

  /** A logged message is non-empty, and on a channel the parser keeps state for. */
  ghost predicate Whole(d: Delivery) {
    0 < |d.payload| && d.header.channelId < MAX_CHANNELS
  }

  lemma StepKeepsInv(env: Env, s: State, u: seq<byte>)
    requires Inv(s)
    ensures Inv(Step(env, s, u).state)
  {
    hide DecodeInt16, DecodeInt24, DecodeInt32, DecodeInt32LE, ToInt32, RoundUp;
    if s.phase.AmfData? && 0 < s.header.packetSize && s.header.channelId < MAX_CHANNELS {
      assert SlotOk(CurrentSlot(s));
    }
  }

  /** Under the invariant the data step never finds a negative length to copy, and the
      bytes it copies fit the message and its buffer. */
  lemma DataLengthIsPositive(s: State)
    requires Inv(s) && s.phase == AmfData && 0 < s.header.packetSize && s.header.channelId < MAX_CHANNELS
    ensures var slot := CurrentSlot(s);
            var need := Min(s.chunkSizeIn, slot.lenTrans - |slot.data|);
            1 <= need && |slot.data| + need <= slot.lenTrans <= slot.bufLen
  {
    assert SlotOk(s.slots[s.header.channelId]);
  }

  /** So the only errors are a bad handshake, a channel out of range, or a callback that refuses or closes. */
  lemma WhenStepFails(env: Env, s: State, u: seq<byte>)
    requires Inv(s)
    ensures Step(env, s, u).Fail? <==>
      match s.phase
      case RecvHandshake0 => |u| > 1536 && u[0] != 3
      case RecvHandshake1 => |u| >= 1536 && u[..1536] != env.serverSig
      case AmfData =>
        && s.header.packetSize > 0
        && (s.header.channelId < 125 ==>
              var slot := CurrentSlot(s);
              var need := Min(s.chunkSizeIn, slot.lenTrans - |slot.data|);
              && 0 <= need <= |u| && |slot.data| + need >= slot.lenTrans
              && env.Stops(s.log + [Delivery(s.header, slot.data + u[..need])]))
      case _ => false
  {
    if s.phase.AmfData? && 0 < s.header.packetSize && s.header.channelId < MAX_CHANNELS {
      DataLengthIsPositive(s);
    }
  }

  lemma {:induction false} RunKeepsInv(env: Env, s: State, u: seq<byte>)
    requires Inv(s)
    ensures Inv(Run(env, s, u).state)
    decreases |u|, Rank(s.phase)
  {
    StepKeepsInv(env, s, u);
    var r := Step(env, s, u);
    if r.Advance? {
      RunKeepsInv(env, r.state, u[r.used..]);
    }
  }

  ghost const FRESH: Conn := Conn(false, [], INIT, false)

  /** Every state reached from a new connection, by any reads whatsoever, satisfies the invariant. */
  lemma ReachableInv(env: Env, pieces: seq<seq<byte>>)
    ensures Inv(OnReads(env, FRESH, pieces).state)
  {
    if pieces != [] {
      FragmentationIndependence(env, FRESH, pieces);
      RunKeepsInv(env, INIT, FRESH.unread + Flatten(pieces));
      assert OnReads(env, FRESH, pieces).state == OnRead(env, FRESH, Flatten(pieces)).state;
    }
  }

  // ---------------------------------------------------------------- handshake gate

  lemma {:induction false} HandshakeIsSticky(env: Env, s: State, u: seq<byte>)
    requires s.handshaked
    ensures Run(env, s, u).state.handshaked
    decreases |u|, Rank(s.phase)
  {
    var r := Step(env, s, u);
    if r.Advance? {
      HandshakeIsSticky(env, r.state, u[r.used..]);
    }
  }

  /** The handshake completes exactly on streams that open with version 3, any C1, and a C2
      that equals the server's S1. */
  lemma HandshakeGate(env: Env, u: seq<byte>)
    ensures Run(env, INIT, u).state.handshaked <==>
              && |u| >= 1 + 2 * SIG_SIZE
              && u[0] == 3
              && u[1 + SIG_SIZE..1 + 2 * SIG_SIZE] == env.serverSig
  {
    var r0 := Step(env, INIT, u);
    if r0.Advance? {
      var u1 := u[SIG_SIZE + 1..];
      var r1 := Step(env, r0.state, u1);
      if |u1| >= SIG_SIZE {
        assert u1[..SIG_SIZE] == u[1 + SIG_SIZE..1 + 2 * SIG_SIZE];
      }
      if r1.Advance? {
        HandshakeIsSticky(env, r1.state, u1[SIG_SIZE..]);
      }
    }
  }

  /** No message is delivered, however the stream is cut, unless C2 equalled S1. */
  lemma NoDeliveryBeforeHandshake(env: Env, pieces: seq<seq<byte>>)
    requires OnReads(env, FRESH, pieces).state.log != []
    ensures var u := Flatten(pieces);
            && |u| >= 1 + 2 * SIG_SIZE
            && u[0] == 3
            && u[1 + SIG_SIZE..1 + 2 * SIG_SIZE] == env.serverSig
  {
    FragmentationIndependence(env, FRESH, pieces);
    var u := Flatten(pieces);
    assert FRESH.unread + u == u;
    RunKeepsInv(env, INIT, u);
    HandshakeGate(env, u);
  }

  /** The reply to C0 and C1 is S0, S1 and S2: the version, the server signature, and C1 echoed. */
  lemma HandshakeReply(env: Env, u: seq<byte>)
    requires |u| == 1 + 1536 && u[0] == 3
    ensures Run(env, INIT, u).state.sent == [3] + env.serverSig + u[1..]
    ensures Run(env, INIT, u).state.phase == RecvHandshake1
  {
    var r0 := Step(env, INIT, u);
    assert u[1..SIG_SIZE + 1] == u[1..];
    assert u[SIG_SIZE + 1..] == [];
    assert Run(env, r0.state, []) == RunResult(r0.state, [], false);
  }
}
