/** A sender that keeps to section 5.3.1.3 of RTMP 1.0 repeats an extended timestamp on every type-3 chunk of
    its message.  The parser does not expect it there: this file says what it makes of the four bytes, and
    exactly which schedules of such a sender it still reads as meant. */
module RtmpConforming {
  import opened Bytes
  import opened RtmpParser
  import opened RtmpStream
  import opened RtmpWire
  import opened RtmpStray

  // ---------------------------------------------------------------- the conforming sender

  function MessageOf(w: Writer, e: Event): Message
    requires e.Begin? || e.channel in w.open
  {
    if e.Begin? then e.msg else w.open[e.channel].msg
  }

  function From(w: Writer, e: Event): nat
    requires e.Begin? || e.channel in w.open
  {
    if e.Begin? then 0 else w.open[e.channel].sent
  }

  ghost function Upto(w: Writer, e: Event): (end: nat)
    requires Sane(w) && Admissible(w, e)
    ensures From(w, e) < end <= |MessageOf(w, e).payload|
  {
    NextPiece(w, MessageOf(w, e), From(w, e))
  }

  ghost function Piece(w: Writer, e: Event): (p: seq<byte>)
    requires Sane(w) && Admissible(w, e)
    ensures |p| == Upto(w, e) - From(w, e)
  {
    MessageOf(w, e).payload[From(w, e)..Upto(w, e)]
  }

  /** A type-3 chunk of a message with an extended timestamp. */
  ghost predicate Repeats(w: Writer, e: Event)
    requires Sane(w) && Admissible(w, e)
  {
    (e.Begin? ==> e.fmt == 3) && MessageOf(w, e).stampType == TimerExt
  }

  /** The repeated timestamp and the payload behind it. */
  ghost function Slipped(w: Writer, e: Event): (p: seq<byte>)
    requires Sane(w) && Admissible(w, e)
    ensures |p| == |Piece(w, e)| + 4
  {
    EncodeInt32(MessageOf(w, e).stamp) + Piece(w, e)
  }

  ghost function EmitConforming(w: Writer, e: Event): seq<byte>
    requires Sane(w) && Admissible(w, e)
  {
    if Repeats(w, e) then BasicHeaderBytes(3, MessageOf(w, e).channel, e.longId) + Slipped(w, e) else Emit(w, e)
  }

  ghost function EmitConformingAll(w: Writer, es: seq<Event>): seq<byte>
    requires Sane(w) && AdmissibleAll(w, es)
    decreases |es|
  {
    if es == [] then [] else EmitConforming(w, es[0]) + EmitConformingAll(Next(w, es[0]), es[1..])
  }

  // ---------------------------------------------------------------- one repeated timestamp

  /** The coincidence that hides the repetition: the payload goes on like the timestamp bytes. */
  ghost predicate Echoes(w: Writer, e: Event)
    requires Sane(w) && Admissible(w, e)
  {
    Piece(w, e) == Slipped(w, e)[..|Piece(w, e)|]
  }

  /** The message as the parser takes it: the timestamp bytes for the first payload bytes of the chunk. */
  ghost function Mistaken(w: Writer, e: Event): (m: Message)
    requires Sane(w) && Admissible(w, e)
    ensures |m.payload| == |MessageOf(w, e).payload|
    ensures m.payload[..Upto(w, e)] == MessageOf(w, e).payload[..From(w, e)] + Slipped(w, e)[..|Piece(w, e)|]
  {
    var m := MessageOf(w, e);
    m.(payload := m.payload[..From(w, e)] + Slipped(w, e)[..|Piece(w, e)|] + m.payload[Upto(w, e)..])
  }

  ghost function MistakenEvent(w: Writer, e: Event): Event
    requires Sane(w) && Admissible(w, e)
  {
    if e.Begin? then e.(msg := Mistaken(w, e)) else e
  }

  ghost function MistakenWriter(w: Writer, e: Event): Writer
    requires Sane(w) && Admissible(w, e)
  {
    var m := Mistaken(w, e);
    if e.Begin? then w else w.(last := w.last[e.channel := m], open := w.open[e.channel := Sending(m, From(w, e))])
  }

  /** A sender of the mistaken message, without repetition, would send these bytes up to the last four. */
  lemma MistakenIsAdmissible(w: Writer, e: Event)
    requires Sane(w) && Admissible(w, e) && Repeats(w, e)
    ensures Sane(MistakenWriter(w, e)) && Admissible(MistakenWriter(w, e), MistakenEvent(w, e))
  {
    hide Slipped;
  }

  lemma MistakenEmits(w: Writer, e: Event)
    requires Sane(w) && Admissible(w, e) && Repeats(w, e)
    ensures Sane(MistakenWriter(w, e)) && Admissible(MistakenWriter(w, e), MistakenEvent(w, e))
    ensures Emit(MistakenWriter(w, e), MistakenEvent(w, e))
            == BasicHeaderBytes(3, MessageOf(w, e).channel, e.longId) + Slipped(w, e)[..|Piece(w, e)|]
  {
    hide BasicHeaderBytes, EncodeInt32, Slipped, WellFormed, MayOmit;
    MistakenIsAdmissible(w, e);
    var m, from, end := Mistaken(w, e), From(w, e), Upto(w, e);
    assert m.payload[from..end] == Slipped(w, e)[..|Piece(w, e)|] by {
      assert m.payload[from..end] == m.payload[..end][from..];
    }
    if e.Begin? {
      assert m.payload[..end] == m.payload[0..end];
      assert WellFormed(m);
      NoFields(m, m.payload[..end]);
    }
  }

  lemma MistakenMirrors(s: State, w: Writer, e: Event)
    requires Sane(w) && Admissible(w, e) && Mirrors(s, w)
    ensures Mirrors(s, MistakenWriter(w, e))
  {
    hide Slipped;
    var w' := MistakenWriter(w, e);
    var m := MessageOf(w, e);
    assert Mistaken(w, e).payload[..From(w, e)] == m.payload[..From(w, e)];
    forall c | 0 <= c < MAX_CHANNELS ensures SlotMirrors(s.slots[c], w', c) {
      assert SlotMirrors(s.slots[c], w, c);
    }
  }

  /** The parser fills the chunk with the timestamp bytes and what fits behind them; the last four bytes of the
      chunk are left over, to be read as chunk headers. */
  lemma ReadsRepeated(env: Env, s: State, w: Writer, e: Event, rest: seq<byte>) returns (t: State)
    requires Sane(w) && Mirrors(s, w) && Admissible(w, e) && Repeats(w, e) && Accepting(env)
    ensures Sane(MistakenWriter(w, e)) && Admissible(MistakenWriter(w, e), MistakenEvent(w, e))
    ensures Run(env, s, EmitConforming(w, e) + rest) == Run(env, t, Slipped(w, e)[|Piece(w, e)|..] + rest)
    ensures Mirrors(t, Next(MistakenWriter(w, e), MistakenEvent(w, e))) && s.log <= t.log
    ensures KnowsOnly(s, MistakenWriter(w, e)) ==> KnowsOnly(t, Next(MistakenWriter(w, e), MistakenEvent(w, e)))
  {
    hide Run, Emit, Next, Mirrors, KnowsOnly, Slipped, Mistaken, MistakenWriter, MistakenEvent, BasicHeaderBytes;
    MistakenEmits(w, e);
    MistakenMirrors(s, w, e);
    var p, n := Slipped(w, e), |Piece(w, e)|;
    var h := BasicHeaderBytes(3, MessageOf(w, e).channel, e.longId);
    assert (h + p) + rest == (h + p[..n]) + (p[n..] + rest);
    t := ReadsEvent(env, s, MistakenWriter(w, e), MistakenEvent(w, e), p[n..] + rest);
  }

  /** What both senders hold after the event: the message begun or finished. */
  lemma AfterMistake(w: Writer, e: Event)
    requires Sane(w) && Admissible(w, e) && Repeats(w, e)
    requires Sane(MistakenWriter(w, e)) && Admissible(MistakenWriter(w, e), MistakenEvent(w, e))
    ensures var c, end := MessageOf(w, e).channel, Upto(w, e);
            var v, v' := Next(w, e), Next(MistakenWriter(w, e), MistakenEvent(w, e));
            if end == |MessageOf(w, e).payload| then
              v.done == w.done + [MessageOf(w, e)] && v'.done == w.done + [Mistaken(w, e)]
            else
              && c in v.open && v.open[c] == Sending(MessageOf(w, e), end) && v.done == w.done
              && c in v'.open && v'.open[c] == Sending(Mistaken(w, e), end) && v'.done == w.done
  {
    hide Slipped, ChunkSizeSet, Emit, EncodeInt32, BasicHeaderBytes, FieldBytes, MayOmit, WellFormed;
  }

  /** What the parser holds after the chunk is spoilt by the mistake, and what the sender owes there is not. */
  lemma MistakeSpoils(t: State, w: Writer, e: Event)
    requires Sane(w) && Admissible(w, e) && Repeats(w, e)
    requires Sane(MistakenWriter(w, e)) && Admissible(MistakenWriter(w, e), MistakenEvent(w, e))
    requires Mirrors(t, Next(MistakenWriter(w, e), MistakenEvent(w, e)))
    ensures Spoilt(t, |w.done|, MessageOf(w, e).channel, Mistaken(w, e).payload[..Upto(w, e)])
    ensures Owes(Next(w, e), |w.done|, MessageOf(w, e).channel, MessageOf(w, e))
  {
    hide Emit, Next, Slipped, Mistaken, Mirrors, Spoilt, Owes, WellFormed, MayOmit;
    AfterMistake(w, e);
    UsableChannel(w, e);
    Collected(t, Next(MistakenWriter(w, e), MistakenEvent(w, e)), |w.done|, Mistaken(w, e), Upto(w, e));
    Due(Next(w, e), |w.done|, MessageOf(w, e), Upto(w, e));
  }

  /** The parser holds, or has just delivered, the front of what a writer it mirrors has sent. */
  lemma Collected(t: State, v: Writer, from: nat, m: Message, end: nat)
    requires Mirrors(t, v) && m.channel < MAX_CHANNELS && end <= |m.payload| && from <= |v.done|
    requires if end == |m.payload| then |v.done| == from + 1 && v.done[from] == m
             else |v.done| == from && m.channel in v.open && v.open[m.channel] == Sending(m, end)
    ensures Spoilt(t, from, m.channel, m.payload[..end])
  {
    assert SlotMirrors(t.slots[m.channel], v, m.channel);
    if end == |m.payload| {
      assert m.payload[..end] == m.payload && Delivered(t.log[from], v.done[from]);
      assert FirstOn(t.log, from, m.channel, from);
    }
  }

  lemma Due(v: Writer, from: nat, m: Message, end: nat)
    requires end <= |m.payload| && from <= |v.done|
    requires if end == |m.payload| then |v.done| == from + 1 && v.done[from] == m
             else |v.done| == from && m.channel in v.open && v.open[m.channel] == Sending(m, end)
    ensures Owes(v, from, m.channel, m)
  {
    assert end == |m.payload| ==> FirstIn(v.done, from, m.channel, from);
  }

  lemma UsableChannel(w: Writer, e: Event)
    requires Sane(w) && Admissible(w, e)
    ensures MessageOf(w, e).channel < MAX_CHANNELS && Mistaken(w, e).channel == MessageOf(w, e).channel
    ensures |Mistaken(w, e).payload| == |MessageOf(w, e).payload|
  {
  }

  /** After the chunk the parser is where the sender means it to be exactly if the payload echoes the timestamp. */
  lemma RepeatedIsReadExactlyWhenEchoed(env: Env, s: State, w: Writer, e: Event, rest: seq<byte>) returns (t: State)
    requires Sane(w) && Mirrors(s, w) && Admissible(w, e) && Repeats(w, e) && Accepting(env)
    ensures Run(env, s, EmitConforming(w, e) + rest) == Run(env, t, Slipped(w, e)[|Piece(w, e)|..] + rest)
    ensures Mirrors(t, Next(w, e)) <==> Echoes(w, e)
    ensures Echoes(w, e) && KnowsOnly(s, w) ==> KnowsOnly(t, Next(w, e))
    ensures Spoilt(t, |w.done|, MessageOf(w, e).channel, Mistaken(w, e).payload[..Upto(w, e)])
    ensures Owes(Next(w, e), |w.done|, MessageOf(w, e).channel, MessageOf(w, e))
    ensures s.log <= t.log
  {
    hide Run, Emit, Next, Mirrors, KnowsOnly, Slipped, Mistaken, MistakenWriter, MistakenEvent, Spoilt, Owes, Echoes,
      Repeats, EmitConforming, WellFormed, MayOmit;
    t := ReadsRepeated(env, s, w, e, rest);
    MistakeSpoils(t, w, e);
    SameMessage(w, e);
    if !Echoes(w, e) && Mirrors(t, Next(w, e)) {
      var m := MessageOf(w, e);
      NotOwed(t, Next(w, e), |w.done|, m.channel, Mistaken(w, e).payload[..Upto(w, e)], m);
    }
  }

  lemma SameMessage(w: Writer, e: Event)
    requires Sane(w) && Admissible(w, e)
    ensures Echoes(w, e) ==> MistakenWriter(w, e) == w && MistakenEvent(w, e) == e
    ensures Echoes(w, e) <==> Mistaken(w, e).payload[..Upto(w, e)] <= MessageOf(w, e).payload
  {
    hide Slipped;
    var m, from, end := MessageOf(w, e), From(w, e), Upto(w, e);
    var q := Slipped(w, e)[..|Piece(w, e)|];
    assert m.payload == m.payload[..from] + Piece(w, e) + m.payload[end..];
    assert (m.payload[..from] + q)[from..] == q;
    assert m.payload[..end][from..] == Piece(w, e);
    if Echoes(w, e) {
      assert Mistaken(w, e).payload == m.payload;
    }
  }

  // ---------------------------------------------------------------- whole schedules

  ghost predicate RepeatsNone(w: Writer, es: seq<Event>)
    requires Sane(w) && AdmissibleAll(w, es)
    decreases |es|
  {
    es != [] ==> !Repeats(w, es[0]) && RepeatsNone(Next(w, es[0]), es[1..])
  }

  /** A repeated timestamp does no harm when the payload echoes it and the four bytes it pushes out of the chunk are
      passed over. */
  ghost predicate Harmless(w: Writer, e: Event)
    requires Sane(w) && Admissible(w, e)
  {
    Repeats(w, e) ==> Echoes(w, e) && Ignored(Next(w, e), Slipped(w, e)[|Piece(w, e)|..])
  }

  ghost predicate AllHarmless(w: Writer, es: seq<Event>)
    requires Sane(w) && AdmissibleAll(w, es)
    decreases |es|
  {
    es != [] ==> Harmless(w, es[0]) && AllHarmless(Next(w, es[0]), es[1..])
  }

  /** The first harmful repetition, if there is one, is not echoed by the payload. */
  ghost predicate FirstHarmIsNoEcho(w: Writer, es: seq<Event>)
    requires Sane(w) && AdmissibleAll(w, es)
    decreases |es|
  {
    es != [] ==> if Harmless(w, es[0]) then FirstHarmIsNoEcho(Next(w, es[0]), es[1..]) else !Echoes(w, es[0])
  }

  lemma {:induction false} WithoutRepetition(w: Writer, es: seq<Event>)
    requires Sane(w) && AdmissibleAll(w, es) && RepeatsNone(w, es)
    ensures EmitConformingAll(w, es) == EmitAll(w, es) && AllHarmless(w, es)
    decreases |es|
  {
    hide Next, Emit, Repeats, Admissible;
    if es != [] {
      WithoutRepetition(Next(w, es[0]), es[1..]);
    }
  }

  /** A harmless event, whatever follows. */
  lemma ReadsHarmless(env: Env, s: State, w: Writer, e: Event, rest: seq<byte>) returns (t: State)
    requires Sane(w) && Mirrors(s, w) && KnowsOnly(s, w) && Admissible(w, e) && Harmless(w, e) && Accepting(env)
    ensures Run(env, s, EmitConforming(w, e) + rest) == Run(env, t, rest)
    ensures Mirrors(t, Next(w, e)) && KnowsOnly(t, Next(w, e))
  {
    hide Run, Emit, Next, Mirrors, KnowsOnly, Ignored, Repeats, Echoes, Slipped, EmitConforming, Spoilt, Owes, Mistaken;
    if Repeats(w, e) {
      t := RepeatedIsReadExactlyWhenEchoed(env, s, w, e, rest);
      t := ReadsIgnored(env, t, Next(w, e), Slipped(w, e)[|Piece(w, e)|..], rest);
    } else {
      PlainEmit(w, e);
      t := ReadsEvent(env, s, w, e, rest);
    }
  }

  /** The message of an unechoed repetition never arrives: from some log entry on, what its channel delivers first, or
      still collects, begins with other bytes than the message the sender finishes there first, or has underway. */
  ghost predicate Lost(s: State, w: Writer) {
    exists from: nat, c: nat, d, m :: Spoilt(s, from, c, d) && Owes(w, from, c, m) && !(d <= m.payload)
  }

  lemma LostIsNotMirrored(s: State, w: Writer)
    requires Lost(s, w)
    ensures !Mirrors(s, w)
  {
    hide Mirrors, Spoilt, Owes;
    var from: nat, c: nat, d, m :| Spoilt(s, from, c, d) && Owes(w, from, c, m) && !(d <= m.payload);
    if Mirrors(s, w) {
      NotOwed(s, w, from, c, d, m);
    }
  }

  /** After an unechoed repetition its message is lost, whatever bytes follow and whatever is sent after it. */
  lemma UnechoedIsLost(env: Env, s: State, w: Writer, e: Event, rest: seq<byte>, es: seq<Event>)
    requires Sane(w) && Mirrors(s, w) && Admissible(w, e) && Repeats(w, e) && !Echoes(w, e) && Accepting(env)
    requires AdmissibleAll(Next(w, e), es)
    ensures Lost(Run(env, s, EmitConforming(w, e) + rest).state, NextAll(Next(w, e), es))
  {
    hide Run, Emit, Next, Mirrors, Repeats, Echoes, WellFormed, MayOmit, Spoilt, Owes, Slipped, Mistaken,
      EmitConforming,
      KnowsOnly;
    var t := RepeatedIsReadExactlyWhenEchoed(env, s, w, e, rest);
    var m, d := MessageOf(w, e), Mistaken(w, e).payload[..Upto(w, e)];
    RunKeepsSpoilt(env, t, Slipped(w, e)[|Piece(w, e)|..] + rest, |w.done|, m.channel, d);
    NextAllKeepsOwes(Next(w, e), es, |w.done|, m.channel, m);
    SameMessage(w, e);
  }

  /** A conforming sender is understood exactly when its repetitions are harmless, provided that the first harmful one
      is not hidden by an echo; otherwise the message it repeats it in is lost, whatever follows. */
  lemma {:induction false} UnderstoodExactly(env: Env, s: State, w: Writer, es: seq<Event>)
    requires Sane(w) && Mirrors(s, w) && KnowsOnly(s, w) && AdmissibleAll(w, es) && Accepting(env)
    requires FirstHarmIsNoEcho(w, es)
    ensures var t, w' := Run(env, s, EmitConformingAll(w, es)).state, NextAll(w, es);
            && (Mirrors(t, w') <==> AllHarmless(w, es))
            && (!AllHarmless(w, es) ==> Lost(t, w'))
    decreases |es|
  {
    hide Run, Emit, Next, Mirrors, KnowsOnly, Repeats, Echoes, Ignored, WellFormed, MayOmit, Slipped,
      EmitConforming, Lost;
    if es == [] {
      Demultiplex(env, s, w, es);
    } else {
      var e, w1 := es[0], Next(w, es[0]);
      var tail := EmitConformingAll(w1, es[1..]);
      if Harmless(w, e) {
        var t := ReadsHarmless(env, s, w, e, tail);
        UnderstoodExactly(env, t, w1, es[1..]);
      } else {
        UnechoedIsLost(env, s, w, e, tail, es[1..]);
        LostIsNotMirrored(Run(env, s, EmitConformingAll(w, es)).state, NextAll(w, es));
      }
    }
  }

  /** After every event the bytes are read and the parser is where the sender means it to be. */
  ghost predicate MirrorsThroughout(env: Env, s: State, w: Writer, es: seq<Event>)
    requires Sane(w) && AdmissibleAll(w, es)
    decreases |es|
  {
    es != [] ==>
      var r := Run(env, s, EmitConforming(w, es[0]));
      && !r.failed && r.rest == [] && Mirrors(r.state, Next(w, es[0]))
      && MirrorsThroughout(env, r.state, Next(w, es[0]), es[1..])
  }

  /** One event: understood exactly when it is harmless. */
  lemma EventExactly(env: Env, s: State, w: Writer, e: Event)
    requires Sane(w) && Mirrors(s, w) && KnowsOnly(s, w) && Admissible(w, e) && Accepting(env)
    ensures var r := Run(env, s, EmitConforming(w, e));
            if Harmless(w, e) then !r.failed && r.rest == []
              && Mirrors(r.state, Next(w, e)) && KnowsOnly(r.state, Next(w, e))
            else !Mirrors(r.state, Next(w, e))
  {
    hide Run, Emit, Next, Mirrors, KnowsOnly, Ignored, Repeats, Echoes, Slipped, EmitConforming,
      Spoilt, Owes, Mistaken, Lost;
    var b := EmitConforming(w, e);
    assert b + [] == b;
    if Harmless(w, e) {
      var t := ReadsHarmless(env, s, w, e, []);
      NothingToRead(env, t, Next(w, e));
    } else if Echoes(w, e) {
      var t := RepeatedIsReadExactlyWhenEchoed(env, s, w, e, []);
      var u := Slipped(w, e)[|Piece(w, e)|..];
      assert u + [] == u;
      StrayExactly(env, t, Next(w, e), u);
    } else {
      UnechoedIsLost(env, s, w, e, [], []);
      LostIsNotMirrored(Run(env, s, b).state, Next(w, e));
    }
  }

  /** For every schedule: a conforming sender is understood after each of its chunks exactly when every repetition is
      harmless. */
  lemma {:induction false} UnderstoodThroughout(env: Env, s: State, w: Writer, es: seq<Event>)
    requires Sane(w) && Mirrors(s, w) && KnowsOnly(s, w) && AdmissibleAll(w, es) && Accepting(env)
    ensures MirrorsThroughout(env, s, w, es) <==> AllHarmless(w, es)
    decreases |es|
  {
    hide Run, Emit, Next, Mirrors, KnowsOnly, Harmless, EmitConforming;
    if es != [] {
      EventExactly(env, s, w, es[0]);
      if Harmless(w, es[0]) {
        UnderstoodThroughout(env, Run(env, s, EmitConforming(w, es[0])).state, Next(w, es[0]), es[1..]);
      }
    }
  }

  lemma PlainEmit(w: Writer, e: Event)
    requires Sane(w) && Admissible(w, e) && !Repeats(w, e)
    ensures EmitConforming(w, e) == Emit(w, e)
  {
  }

  /** A harmless schedule is read to its last byte. */
  lemma {:induction false} ReadsAllHarmless(env: Env, s: State, w: Writer, es: seq<Event>)
    requires Sane(w) && Mirrors(s, w) && KnowsOnly(s, w) && AdmissibleAll(w, es) && Accepting(env) && AllHarmless(w, es)
    ensures var r := Run(env, s, EmitConformingAll(w, es)); !r.failed && r.rest == []
    decreases |es|
  {
    hide Run, Emit, Next, Mirrors, KnowsOnly, Harmless, EmitConforming;
    if es == [] {
      NothingToRead(env, s, w);
    } else {
      var t := ReadsHarmless(env, s, w, es[0], EmitConformingAll(Next(w, es[0]), es[1..]));
      ReadsAllHarmless(env, t, Next(w, es[0]), es[1..]);
    }
  }

  /** End to end, for a new connection and reads of any size. */
  lemma ConformingConnection(env: Env, c1: seq<byte>, es: seq<Event>, pieces: seq<seq<byte>>)
    requires |c1| == SIG_SIZE && Accepting(env) && pieces != []
    requires AdmissibleAll(IDLE, es)
    requires Flatten(pieces) == [3] + c1 + env.serverSig + EmitConformingAll(IDLE, es)
    ensures var c, w := OnReads(env, FRESH, pieces), NextAll(IDLE, es);
            && (AllHarmless(IDLE, es) ==> Mirrors(c.state, w) && !c.closed && c.unread == [])
            && (!AllHarmless(IDLE, es) && FirstHarmIsNoEcho(IDLE, es) ==> Lost(c.state, w) && !Mirrors(c.state, w))
  {
    hide Run, Emit, Mirrors, KnowsOnly, Next, EmitConformingAll, AllHarmless, FirstHarmIsNoEcho, Lost;
    var s := HandshakeThenIdle(env, c1);
    var wire := EmitConformingAll(IDLE, es);
    FragmentationIndependence(env, FRESH, pieces);
    assert FRESH.unread + Flatten(pieces) == [3] + c1 + env.serverSig + wire;
    if AllHarmless(IDLE, es) {
      HarmlessHidesNone(IDLE, es);
      ReadsAllHarmless(env, s, IDLE, es);
    }
    if FirstHarmIsNoEcho(IDLE, es) {
      UnderstoodExactly(env, s, IDLE, es);
    }
  }

  lemma {:induction false} HarmlessHidesNone(w: Writer, es: seq<Event>)
    requires Sane(w) && AdmissibleAll(w, es) && AllHarmless(w, es)
    ensures FirstHarmIsNoEcho(w, es)
    decreases |es|
  {
    hide Next, Harmless, Admissible;
    if es != [] {
      HarmlessHidesNone(Next(w, es[0]), es[1..]);
    }
  }

  // ---------------------------------------------------------------- what the sender can look at

  ghost predicate NoneExtended(w: Writer) {
    forall c :: c in w.open ==> w.open[c].msg.stampType != TimerExt
  }

  /** Every message with an extended timestamp has a timestamp field and fits the chunk size in force. */
  ghost predicate Uncut(w: Writer, es: seq<Event>)
    requires Sane(w) && AdmissibleAll(w, es)
    decreases |es|
  {
    es != [] ==>
      && (es[0].Begin? && es[0].msg.stampType == TimerExt ==> es[0].fmt < 3 && |es[0].msg.payload| <= w.chunkSize)
      && Uncut(Next(w, es[0]), es[1..])
  }

  /** An extended message underway is finished only by a chunk that repeats its timestamp. */
  lemma {:induction false} UnderwayRepeats(w: Writer, es: seq<Event>, c: nat)
    requires Sane(w) && AdmissibleAll(w, es) && c in w.open && w.open[c].msg.stampType == TimerExt
    requires NoneExtended(NextAll(w, es))
    ensures !RepeatsNone(w, es)
    decreases |es|
  {
    hide Emit, ChunkSizeSet;
    if es != [] && es[0] != Continue(c, es[0].longId) {
      UnderwayRepeats(Next(w, es[0]), es[1..], c);
    }
  }

  lemma BegunIsOpen(w: Writer, e: Event)
    requires Sane(w) && Admissible(w, e)
    ensures var w1 := Next(w, e);
            && (e.Begin? ==> (e.msg.channel in w1.open <==> |e.msg.payload| > w.chunkSize))
            && (forall c :: c in w1.open && !(e.Begin? && c == e.msg.channel)
                  ==> c in w.open && w.open[c].msg == w1.open[c].msg)
            && (e.Begin? && e.msg.channel in w1.open ==> w1.open[e.msg.channel].msg == e.msg)
  {
    hide Emit, ChunkSizeSet;
  }

  /** In a schedule that leaves no such message half sent, no timestamp is repeated exactly when no such message
      is cut. */
  lemma {:induction false} RepeatsNoneIsUncut(w: Writer, es: seq<Event>)
    requires Sane(w) && AdmissibleAll(w, es) && NoneExtended(w) && NoneExtended(NextAll(w, es))
    ensures RepeatsNone(w, es) <==> Uncut(w, es)
    decreases |es|
  {
    hide Emit, Next;
    if es != [] {
      var e, w1 := es[0], Next(w, es[0]);
      BegunIsOpen(w, e);
      if NoneExtended(w1) {
        RepeatsNoneIsUncut(w1, es[1..]);
      } else {
        var c :| c in w1.open && w1.open[c].msg.stampType == TimerExt;
        UnderwayRepeats(w1, es[1..], c);
      }
    }
  }

  // ---------------------------------------------------------------- an instance

  function Stamped(p: seq<byte>, stamp: nat): Message {
    Message(3, stamp, TimerExt, 9, 0, p)
  }

  /** A message of 129 bytes with the timestamp 0x01000000, cut at 128: its last byte arrives as the first byte of
      the repeated timestamp. */
  lemma LastByteIsTheTimestamp(env: Env, s: State, p: seq<byte>)
    requires Mirrors(s, IDLE) && Accepting(env) && |p| == 129
    ensures var es := [Begin(Stamped(p, 0x100_0000), 0, false), Continue(3, false)];
            && AdmissibleAll(IDLE, es)
            && EmitConformingAll(IDLE, es)
               == Emit(IDLE, es[0]) + ([0xC3] + EncodeInt32(0x100_0000) + [p[128]])
            && var log := Run(env, s, EmitConformingAll(IDLE, es)).state.log;
               |log| >= 1 && log[0].payload == p[..128] + [1]
  {
    var m := Stamped(p, 0x100_0000);
    var e0, e1 := Begin(m, 0, false), Continue(3, false);
    var w1 := Next(IDLE, e0);
    CutAt128(p);
    hide Run, Emit, Next, Mirrors, Slipped, EncodeInt32, EmitConforming, Admissible, Piece, From, Upto, Mistaken,
         MistakenWriter, MistakenEvent;
    OneEvent(w1, e1);
    OneMore(IDLE, e0, [e1]);
    assert [e0] + [e1] == [e0, e1];
    var tail := EmitConformingAll(w1, [e1]);
    assert EmitConforming(w1, e1) + [] == tail;
    PlainEmit(IDLE, e0);
    var t := ReadsEvent(env, s, IDLE, e0, tail);
    var t' := ReadsRepeated(env, t, w1, e1, []);
    AfterMistake(w1, e1);
    LogGrows(env, t', Slipped(w1, e1)[1..] + []);
    OneDelivered(t', Next(MistakenWriter(w1, e1), MistakenEvent(w1, e1)), Mistaken(w1, e1));
  }

  /** The two chunks, the second with the timestamp the sender repeats in it. */
  lemma CutAt128(p: seq<byte>)
    requires |p| == 129
    ensures var e0, e1 := Begin(Stamped(p, 0x100_0000), 0, false), Continue(3, false);
            && Admissible(IDLE, e0) && !Repeats(IDLE, e0)
            && var w1 := Next(IDLE, e0);
               && Admissible(w1, e1) && Repeats(w1, e1) && w1.done == []
               && Upto(w1, e1) == |MessageOf(w1, e1).payload| && |Piece(w1, e1)| == 1
               && EmitConforming(w1, e1) == [0xC3] + EncodeInt32(0x100_0000) + [p[128]]
               && Mistaken(w1, e1).payload == p[..128] + [1]
  {
    hide Emit, Next;
    var e0, e1 := Begin(Stamped(p, 0x100_0000), 0, false), Continue(3, false);
    var w1 := Next(IDLE, e0);
    TwoChunks(Stamped(p, 0x100_0000));
    assert EncodeInt32(0x100_0000) == [1, 0, 0, 0];
    assert Slipped(w1, e1)[..1] == [1];
    assert Mistaken(w1, e1).payload[..129] == Mistaken(w1, e1).payload;
  }

  /** A message of 129 bytes on channel 3 with the timestamp 0xC5C5C5C5: cut at 128, it is understood if its last byte
      is C5, because the four bytes pushed out of the chunk are then empty headers on channel 5. */
  lemma EchoCanHideIt(p: seq<byte>)
    requires |p| == 129 && p[128] == 0xC5
    ensures var es := [Begin(Stamped(p, 0xC5C5_C5C5), 0, false), Continue(3, false)];
            AdmissibleAll(IDLE, es) && AllHarmless(IDLE, es) && !RepeatsNone(IDLE, es)
  {
    var m := Stamped(p, 0xC5C5_C5C5);
    var e0, e1 := Begin(m, 0, false), Continue(3, false);
    TwoChunks(m);
    hide Emit, Next, Slipped, Ignored, Admissible, Piece, Harmless, Repeats, EmitConforming;
    var w1 := Next(IDLE, e0);
    StrayFives(w1, e1);
    assert Harmless(IDLE, e0) by { NotRepeated(IDLE, e0); }
    OneEvent(w1, e1);
    OneMore(IDLE, e0, [e1]);
    assert [e0] + [e1] == [e0, e1] && [e0, e1][1..] == [e1] && [e1][1..] == [];
    assert AllHarmless(w1, [e1]);
  }

  lemma NotRepeated(w: Writer, e: Event)
    requires Sane(w) && Admissible(w, e) && !Repeats(w, e)
    ensures Harmless(w, e)
  {
  }

  lemma StrayFives(w: Writer, e: Event)
    requires Sane(w) && Admissible(w, e) && MessageOf(w, e).stamp == 0xC5C5_C5C5 && Piece(w, e) == [0xC5]
    requires 5 !in Next(w, e).last
    ensures Harmless(w, e)
  {
    hide Emit, Next, Ignored, Admissible, Piece, MessageOf, EncodeInt32, Repeats;
    FiveFives();
    SameByteIsIgnored(Next(w, e), Slipped(w, e)[1..]);
  }

  lemma FiveFives()
    ensures EncodeInt32(0xC5C5_C5C5) + [0xC5] == [0xC5, 0xC5, 0xC5, 0xC5, 0xC5]
  {
  }

  lemma {:induction false} SameByteIsIgnored(w: Writer, u: seq<byte>)
    requires |u| <= 4 && 5 !in w.last && forall i :: 0 <= i < |u| ==> u[i] == 0xC5
    ensures Ignored(w, u)
    decreases |u|
  {
    if u != [] {
      SameByteIsIgnored(w, u[1..]);
    }
  }

  /** A message of 129 bytes with an extended timestamp, in two chunks of which the second repeats it. */
  lemma TwoChunks(m: Message)
    requires WellFormed(m) && m.channel == 3 && m.stamp >= NO_TIME && m.stampType == TimerExt && |m.payload| == 129
    requires m.typeId != TYPE_CHUNK_SIZE
    ensures var e0, e1 := Begin(m, 0, false), Continue(3, false);
            && Admissible(IDLE, e0) && !Repeats(IDLE, e0)
            && var w1 := Next(IDLE, e0);
               && Admissible(w1, e1) && Repeats(w1, e1) && w1.done == [] && MessageOf(w1, e1) == m
               && From(w1, e1) == 128
               && Upto(w1, e1) == 129 && Piece(w1, e1) == [m.payload[128]]
               && Next(w1, e1).last.Keys == {3}
  {
    hide Emit;
    var w1 := Next(IDLE, Begin(m, 0, false));
    assert w1.open == map[3 := Sending(m, 128)];
  }

  lemma OneEvent(w: Writer, e: Event)
    requires Sane(w) && Admissible(w, e)
    ensures AdmissibleAll(w, [e]) && EmitConformingAll(w, [e]) == EmitConforming(w, e)
  {
    hide EmitConforming, Next, Admissible;
    assert [e][1..] == [];
  }

  lemma OneMore(w: Writer, e: Event, es: seq<Event>)
    requires Sane(w) && Admissible(w, e) && AdmissibleAll(Next(w, e), es)
    ensures AdmissibleAll(w, [e] + es)
    ensures EmitConformingAll(w, [e] + es) == EmitConforming(w, e) + EmitConformingAll(Next(w, e), es)
  {
    hide EmitConforming, Next, Admissible;
    assert ([e] + es)[1..] == es;
  }

  lemma OneDelivered(s: State, w: Writer, m: Message)
    requires Mirrors(s, w) && w.done == [m]
    ensures |s.log| == 1 && s.log[0].payload == m.payload
  {
    assert Delivered(s.log[0], w.done[0]);
  }
}
