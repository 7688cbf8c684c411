/** What the parser makes of bytes that its peer did not mean as chunk headers: which of them it passes over, and
    what a message with wrong bytes in it comes to. */
module RtmpStray {
  import opened Bytes
  import opened RtmpParser
  import opened RtmpStream
  import opened RtmpWire

  // ---------------------------------------------------------------- a spoilt message stays spoilt

  ghost predicate NoneOn(log: seq<Delivery>, from: nat, c: nat) {
    forall i :: from <= i < |log| ==> log[i].header.channelId != c
  }

  ghost predicate FirstOn(log: seq<Delivery>, from: nat, c: nat, k: nat) {
    from <= k < |log| && log[k].header.channelId == c && forall i :: from <= i < k ==> log[i].header.channelId != c
  }

  /** What channel `c` delivers first from log entry `from` on, or is still collecting, begins with `d`. */
  ghost predicate Spoilt(s: State, from: nat, c: nat, d: seq<byte>) {
    && c < MAX_CHANNELS && from <= |s.log|
    && ((exists k: nat :: FirstOn(s.log, from, c, k) && d <= s.log[k].payload)
        || (NoneOn(s.log, from, c) && s.slots[c].Pending? && d <= s.slots[c].data))
  }

  ghost predicate FirstIn(done: seq<Message>, from: nat, c: nat, k: nat) {
    from <= k < |done| && done[k].channel == c && forall i :: from <= i < k ==> done[i].channel != c
  }

  /** What the sender finishes first on channel `c`, or has underway, is `m`. */
  ghost predicate Owes(w: Writer, from: nat, c: nat, m: Message) {
    && from <= |w.done|
    && ((exists k: nat :: FirstIn(w.done, from, c, k) && w.done[k] == m)
        || ((forall i :: from <= i < |w.done| ==> w.done[i].channel != c) && c in w.open && w.open[c].msg == m))
  }

  lemma NotOwed(s: State, w: Writer, from: nat, c: nat, d: seq<byte>, m: Message)
    requires Mirrors(s, w) && Spoilt(s, from, c, d) && Owes(w, from, c, m)
    ensures d <= m.payload
  {
    assert SlotMirrors(s.slots[c], w, c);
    assert forall i :: 0 <= i < |w.done| ==> s.log[i].header.channelId == w.done[i].channel
                                              && s.log[i].payload == w.done[i].payload
    by {
      assert forall i :: 0 <= i < |w.done| ==> Delivered(s.log[i], w.done[i]);
    }
    if k: nat :| FirstOn(s.log, from, c, k) && d <= s.log[k].payload {
      if j: nat :| FirstIn(w.done, from, c, j) && w.done[j] == m {
        assert j == k;
      }
    }
  }

  lemma StepKeepsSpoilt(env: Env, s: State, u: seq<byte>, from: nat, c: nat, d: seq<byte>)
    requires Spoilt(s, from, c, d)
    ensures Spoilt(Step(env, s, u).state, from, c, d)
  {
    var t := Step(env, s, u).state;
    if s.phase != AmfData {
      HeaderStepKeeps(env, s, u);
    } else {
      DataStepAdds(env, s, u, c);
    }
    hide Step;
    if k: nat :| FirstOn(s.log, from, c, k) && d <= s.log[k].payload {
      assert FirstOn(t.log, from, c, k);
    } else if t.log != s.log && t.log[|s.log|].header.channelId == c {
      assert FirstOn(t.log, from, c, |s.log|);
    }
  }

  lemma {:induction false} RunKeepsSpoilt(env: Env, s: State, u: seq<byte>, from: nat, c: nat, d: seq<byte>)
    requires Spoilt(s, from, c, d)
    ensures Spoilt(Run(env, s, u).state, from, c, d)
    decreases |u|, Rank(s.phase)
  {
    hide Step, Spoilt;
    StepKeepsSpoilt(env, s, u, from, c, d);
    var r := Step(env, s, u);
    if r.Advance? {
      RunKeepsSpoilt(env, r.state, u[r.used..], from, c, d);
    }
  }

  lemma NextKeepsOwes(w: Writer, e: Event, from: nat, c: nat, m: Message)
    requires Sane(w) && Admissible(w, e) && Owes(w, from, c, m)
    ensures Owes(Next(w, e), from, c, m)
  {
    hide ChunkSizeSet, Emit;
    var w' := Next(w, e);
    if k: nat :| FirstIn(w.done, from, c, k) && w.done[k] == m {
      assert FirstIn(w'.done, from, c, k);
    } else if c !in w'.open {
      assert FirstIn(w'.done, from, c, |w.done|);
    }
  }

  lemma {:induction false} NextAllKeepsOwes(w: Writer, es: seq<Event>, from: nat, c: nat, m: Message)
    requires Sane(w) && AdmissibleAll(w, es) && Owes(w, from, c, m)
    ensures Owes(NextAll(w, es), from, c, m)
    decreases |es|
  {
    hide Next, Owes, Admissible, Emit;
    if es != [] {
      NextKeepsOwes(w, es[0], from, c, m);
      NextAllKeepsOwes(Next(w, es[0]), es[1..], from, c, m);
    }
  }

  // ---------------------------------------------------------------- up to four stray bytes

  /** The length of the basic header that begins with `b`. */
  function BasicLength(b: byte): (n: nat)
    ensures 1 <= n <= 3
  {
    if b % 64 == 0 then 2 else if b % 64 == 1 then 3 else 1
  }

  function ChannelOf(u: seq<byte>): nat
    requires u != [] && BasicLength(u[0]) <= |u|
  {
    if u[0] % 64 == 0 then u[1] as nat + 64
    else if u[0] % 64 == 1 then u[2] as nat * 0x100 + u[1] as nat + 64
    else u[0] % 64
  }

  /** The bytes are whole headers without a length, on channels the sender has not used: type-3 headers, or one
      type-2 header whose timestamp is not an extended one. */
  ghost predicate Ignored(w: Writer, u: seq<byte>)
    requires |u| <= 4
  {
    u != [] ==>
      var n := BasicLength(u[0]);
      && n <= |u| && ChannelOf(u) !in w.last
      && if u[0] / 64 == 3 then Ignored(w, u[n..])
         else u[0] / 64 == 2 && n == 1 && |u| == 4 && DecodeInt24(u, 1) != NO_TIME
  }

  /** A type-3 header and nothing else: the channel's previous header if it has a valid one, else an empty one. */
  lemma ReadsBare(env: Env, s: State, u: seq<byte>) returns (t: State)
    requires s.phase == NewPacket && u != [] && u[0] / 64 == 3 && BasicLength(u[0]) <= |u|
    requires var c := ChannelOf(u); c < MAX_CHANNELS && s.prev[c].IsValid() ==> s.prev[c].channelId == c
    ensures Run(env, s, u) == Run(env, t, u[BasicLength(u[0])..])
    ensures t == s.(phase := AmfData, header := t.header, prev := t.prev)
    ensures var c := ChannelOf(u);
            if c < MAX_CHANNELS && s.prev[c].IsValid() then t.header == s.prev[c] && t.prev == s.prev
            else && !t.header.IsValid() && t.header.packetSize == 0
                 && t.prev == if c < MAX_CHANNELS then s.prev[c := t.header] else s.prev
  {
    hide Run;
    RunStep(env, s, u);
    t := Step(env, s, u).state;
    var v := u[1..];
    if t.phase == ExtHeader {
      RunStep(env, t, v);
      assert v[t.header.extHeadSize..] == u[BasicLength(u[0])..];
      v := v[t.header.extHeadSize..];
      t := Step(env, t, u[1..]).state;
    }
    if t.phase == PartHeader {
      assert v[0..] == v;
      RunStep(env, t, v);
      t := Step(env, t, v).state;
    }
  }

  /** An empty header is passed over. */
  lemma PassesOver(env: Env, s: State, w: Writer, t: State, c: nat, v: seq<byte>) returns (t': State)
    requires Mirrors(s, w) && KnowsOnly(s, w) && c !in w.last
    requires t == s.(phase := AmfData, header := t.header, prev := t.prev)
    requires !t.header.IsValid() && t.header.packetSize == 0
    requires t.prev == if c < MAX_CHANNELS then s.prev[c := t.header] else s.prev
    ensures Run(env, t, v) == Run(env, t', v)
    ensures Mirrors(t', w) && KnowsOnly(t', w) && t'.log == s.log
  {
    t' := t.(phase := NewPacket);
    assert v[0..] == v;
  }

  /** A type-2 header on a channel the sender has not used, with an ordinary timestamp. */
  lemma ReadsTimed(env: Env, s: State, u: seq<byte>, c: nat) returns (t: State)
    requires s.phase == NewPacket && |u| >= 4 && u[0] / 64 == 2 && u[0] % 64 == c >= 2 && !s.prev[c].IsValid()
    requires DecodeInt24(u, 1) != NO_TIME
    ensures Run(env, s, u) == Run(env, t, u[4..])
    ensures t == s.(phase := AmfData, header := t.header, prev := s.prev[c := t.header])
    ensures !t.header.IsValid() && t.header.packetSize == 0
  {
    hide Run;
    RunStep(env, s, u);
    t := Step(env, s, u).state;
    var v := u[1..];
    assert DecodeInt24(v, 0) == DecodeInt24(u, 1) && v[3..] == u[4..];
    RunStep(env, t, v);
    t := Step(env, t, v).state;
  }

  /** Such bytes leave the parser where it was. */
  lemma {:induction false} ReadsIgnored(env: Env, s: State, w: Writer, u: seq<byte>, rest: seq<byte>) returns (t: State)
    requires |u| <= 4 && Mirrors(s, w) && KnowsOnly(s, w) && Ignored(w, u)
    ensures Run(env, s, u + rest) == Run(env, t, rest)
    ensures Mirrors(t, w) && KnowsOnly(t, w) && t.log == s.log
    decreases |u|
  {
    hide Run, DecodeInt24;
    if u == [] {
      t := s;
      assert u + rest == rest;
    } else {
      var n, c, all := BasicLength(u[0]), ChannelOf(u), u + rest;
      assert ChannelOf(all) == c;
      if u[0] / 64 == 3 {
        assert all[n..] == u[n..] + rest;
        t := ReadsBare(env, s, all);
        t := PassesOver(env, s, w, t, c, all[n..]);
        t := ReadsIgnored(env, t, w, u[n..], rest);
      } else {
        assert all[4..] == rest;
        TimeOf(u, rest);
        t := ReadsTimed(env, s, all, c);
        t := PassesOver(env, s, w, t, c, rest);
      }
    }
  }

  lemma TimeOf(u: seq<byte>, rest: seq<byte>)
    requires |u| == 4
    ensures DecodeInt24(u + rest, 1) == DecodeInt24(u, 1)
  {
  }

  // ---------------------------------------------------------------- and those it does not pass over

  /** Stray bytes taken for payload: the channel holds, or delivers, more than was sent on it, for good. */
  lemma Overfed(env: Env, s: State, w: Writer, t: State, v: seq<byte>)
    requires Sane(w) && Mirrors(s, w) && Accepting(env)
    requires t.phase == AmfData && t.slots == s.slots && t.log == s.log && t.chunkSizeIn == s.chunkSizeIn
    requires t.header.channelId in w.last && t.header.packetSize > 0
    ensures !Mirrors(Run(env, t, v).state, w)
  {
    var c, from := t.header.channelId, |w.done|;
    assert SlotMirrors(s.slots[c], w, c);
    var slot := CurrentSlot(t);
    var r := Step(env, t, v);
    if r.Advance? {
      DataGrows(env, t, v);
      var d := slot.data + v[..r.used];
      assert r.state.log != t.log ==> FirstOn(r.state.log, from, c, from);
      RunKeepsSpoilt(env, r.state, v[r.used..], from, c, d);
      StaysOverfed(Run(env, r.state, v[r.used..]).state, w, c, d, slot);
    }
  }

  /** A data step that advances adds at least a byte to its channel. */
  lemma DataGrows(env: Env, t: State, v: seq<byte>)
    requires t.phase == AmfData && t.header.channelId < MAX_CHANNELS && t.header.packetSize > 0 && t.chunkSizeIn > 0
    requires |CurrentSlot(t).data| < CurrentSlot(t).lenTrans && Step(env, t, v).Advance?
    ensures var r, c, d := Step(env, t, v), t.header.channelId, CurrentSlot(t).data;
            && 0 < r.used <= |v|
            && if r.state.log == t.log then r.state.slots[c].Pending? && r.state.slots[c].data == d + v[..r.used]
               else r.state.log == t.log + [Delivery(t.header, d + v[..r.used])]
  {
    hide CurrentSlot, ChunkSizeFrom;
  }

  lemma StaysOverfed(f: State, w: Writer, c: nat, d: seq<byte>, slot: Slot)
    requires Spoilt(f, |w.done|, c, d) && slot.Pending? && |slot.data| < |d|
    requires c in w.open ==> SlotMirrors(slot, w, c)
    ensures !Mirrors(f, w)
  {
    assert Mirrors(f, w) ==> SlotMirrors(f.slots[c], w, c);
  }

  /** A header cut off by the end of the bytes is waited for. */
  lemma WaitsForHeader(env: Env, s: State, u: seq<byte>)
    requires s.phase == NewPacket && 0 < |u| <= 4
    requires |u| < BasicLength(u[0]) || u[0] / 64 < 2 || (u[0] / 64 == 2 && (BasicLength(u[0]) > 1 || |u| < 4))
    ensures Run(env, s, u).state.phase != NewPacket
  {
    hide Run;
    RunStep(env, s, u);
    var t, v := Step(env, s, u).state, u[1..];
    if t.phase == ExtHeader && |v| >= t.header.extHeadSize {
      RunStep(env, t, v);
      v := v[t.header.extHeadSize..];
      t := Step(env, t, u[1..]).state;
    }
    StallEnds(env, t, v);
  }

  lemma StallEnds(env: Env, t: State, v: seq<byte>)
    requires Step(env, t, v).Stall?
    ensures Run(env, t, v).state.phase == t.phase
  {
    hide Step;
  }

  /** A type-2 header on a channel in use starts its next message, or waits for an extended timestamp. */
  lemma TimedHarms(env: Env, s: State, w: Writer, u: seq<byte>)
    requires Sane(w) && Mirrors(s, w) && KnowsOnly(s, w) && Accepting(env)
    requires |u| == 4 && u[0] / 64 == 2 && BasicLength(u[0]) == 1 && !Ignored(w, u)
    ensures !Mirrors(Run(env, s, u).state, w)
  {
    hide Run, DecodeInt24;
    var c := ChannelOf(u);
    RunStep(env, s, u);
    var t, v := Step(env, s, u).state, u[1..];
    assert DecodeInt24(v, 0) == DecodeInt24(u, 1) by { TimeBehind(u); }
    RunStep(env, t, v);
    var t1 := Step(env, t, v).state;
    assert v[3..] == [];
    if t1.phase == ExtTimer {
      StallEnds(env, t1, []);
    } else {
      assert Carries(s.prev[c], w.last[c]);
      Overfed(env, s, w, t1, []);
    }
  }

  lemma TimeBehind(u: seq<byte>)
    requires |u| == 4
    ensures DecodeInt24(u[1..], 0) == DecodeInt24(u, 1)
  {
  }

  /** Any other bytes, up to four, leave the parser where the sender does not mean it to be. */
  lemma {:induction false} StrayHarms(env: Env, s: State, w: Writer, u: seq<byte>)
    requires Sane(w) && |u| <= 4 && Mirrors(s, w) && KnowsOnly(s, w) && Accepting(env) && !Ignored(w, u)
    ensures !Mirrors(Run(env, s, u).state, w)
    decreases |u|
  {
    hide Run, DecodeInt24, WellFormed;
    var n := BasicLength(u[0]);
    if u[0] / 64 == 3 && n <= |u| {
      var c := ChannelOf(u);
      assert c in w.last ==> Carries(s.prev[c], w.last[c]);
      var t := ReadsBare(env, s, u);
      if c in w.last {
        NotEmpty(w, c);
        Overfed(env, s, w, t, u[n..]);
      } else {
        t := PassesOver(env, s, w, t, c, u[n..]);
        StrayHarms(env, t, w, u[n..]);
      }
    } else if u[0] / 64 == 2 && n == 1 && |u| == 4 {
      TimedHarms(env, s, w, u);
    } else {
      WaitsForHeader(env, s, u);
    }
  }

  lemma NotEmpty(w: Writer, c: nat)
    requires Sane(w) && c in w.last
    ensures w.last[c].channel == c && w.last[c].typeId != 0 && |w.last[c].payload| > 0 && c < MAX_CHANNELS
  {
    assert WellFormed(w.last[c]);
  }

  /** Between chunks, up to four stray bytes do no harm exactly when they are such headers. */
  lemma StrayExactly(env: Env, s: State, w: Writer, u: seq<byte>)
    requires Sane(w) && |u| <= 4 && Mirrors(s, w) && KnowsOnly(s, w) && Accepting(env)
    ensures Mirrors(Run(env, s, u).state, w) <==> Ignored(w, u)
  {
    hide Mirrors, Ignored;
    if Ignored(w, u) {
      var t := ReadsIgnored(env, s, w, u, []);
      assert u + [] == u;
      NothingToRead(env, t, w);
    } else {
      StrayHarms(env, s, w, u);
    }
  }

  lemma NothingToRead(env: Env, t: State, w: Writer)
    requires Mirrors(t, w)
    ensures Run(env, t, []) == RunResult(t, [], false)
  {
  }
}
