/** The sending side as the original runs it, and the two sides put together. */
module RtmpEndpoint {
  import opened Bytes
  import opened ChunkWriters
  import opened Amf
  import opened AmfRoundTrip
  import opened AmfCodec
  import opened RtmpParser
  import opened RtmpStream
  import opened RtmpWire
  import opened RtmpSender
  import SendQueues

  /** What goes out for a variable: a null and a string as they are, anything else as the number it converts to. */
  function Argument(value: Value, number: Bits): Value {
    match value
    case Null => Null
    case Str(_) => value
    case _ => Number(number)
  }

  /** The arguments of an invoke: method name, transaction, a null, and the value. */
  function InvokeArgs(name: Text, txn: Bits, value: Value): Props {
    Cons([], Str(name), Cons([], Number(txn), Cons([], Null, Cons([], value, Nil))))
  }

  lemma InvokeArgsBytes(name: Text, txn: Bits, value: Value)
    ensures EncodeProps(InvokeArgs(name, txn, value))
            == EncodeString(name) + EncodeValue(Number(txn)) + EncodeValue(Null) + EncodeValue(value)
  {
    hide EncodeValue, EncodeString, EncodeProps, EncodeName;
    var p4 := Cons([], value, Nil);
    var p3 := Cons([], Null, p4);
    var p2 := Cons([], Number(txn), p3);
    PropsUnfold([], value, Nil);
    PropsUnfold([], Null, p4);
    PropsUnfold([], Number(txn), p3);
    PropsUnfold([], Str(name), p2);
    StringValue(name);
  }

  /** The bytes in front of the last argument of an invoke: the name, the transaction, and a null. */
  function Called(name: Text, txn: Bits): seq<byte> {
    EncodeString(name) + ([0x00] + txn) + [0x05]
  }

  /** The last argument is written as a null, as a string, or as a number. */
  lemma LastArgument(name: Text, txn: Bits, value: Value, number: Bits)
    ensures EncodeProps(InvokeArgs(name, txn, Argument(value, number)))
            == Called(name, txn)
               + if value == Null then [0x05] else if value.Str? then EncodeString(value.s) else [0x00] + number
  {
    hide EncodeProps, EncodeString;
    InvokeArgsBytes(name, txn, Argument(value, number));
  }

  /** The receiver of an invoke with a value that is neither a null nor a string reads four arguments: the name, the
      transaction, a null, and the number. */
  lemma NumberArrives(d: Delivery, name: Text, txn: Bits, number: Bits)
    requires NoTrailingNul(name) && 0 < |name| < 65536
    requires !(txn[0] == 0 && txn[1] == 9) && !(number[0] == 0 && number[1] == 9)
    requires Delivered(d, MessageOf(Invoke(Called(name, txn) + ([0x00] + number))))
    ensures DecodesTo(d, Cons([], Str(name), Cons([], Number(txn), Cons([], Null, Cons([], Number(number), Nil)))))
  {
    hide EncodeProps, EncodeString, Encodable, DecodesTo;
    var value := Boolean(false);
    var args := InvokeArgs(name, txn, Argument(value, number));
    LastArgument(name, txn, value, number);
    assert Encodable(args) by { NumbersEncodable(name, txn, number); }
    assert |EncodeProps(args)| < 0x7fff_fff0 by { StringFits(name); }
    InvokeDecodes(d, args);
  }

  lemma NumbersEncodable(name: Text, txn: Bits, number: Bits)
    requires NoTrailingNul(name) && |name| < 65536
    requires !(txn[0] == 0 && txn[1] == 9) && !(number[0] == 0 && number[1] == 9)
    ensures Encodable(InvokeArgs(name, txn, Number(number)))
  {
    var p3 := Cons([], Number(number), Nil);
    var p2 := Cons([], Null, p3);
    var p1 := Cons([], Number(txn), p2);
    assert Echoing(Number(number)) && Echoing(Number(txn)) && Echoing(Null) && Echoing(Str(name)) && EchoingProps(Nil);
    assert EchoingProps(p3) && EchoingProps(p2) && EchoingProps(p1);
    assert Plain(Number(number)) && Plain(Number(txn)) && Plain(Null) && Plain(Str(name)) && PlainList(Nil);
    assert PlainList(p3);
    assert PlainList(p2);
    assert PlainList(p1);
  }

  lemma StringFits(name: Text)
    requires |name| < 65536
    ensures |EncodeString(name)| == 3 + |name|
  {
  }

  lemma HeadBytes(channel: byte, typeId: byte, length: nat)
    ensures Head(channel, typeId, length) == [channel, 0, 0, 0] + EncodeInt24(length) + [typeId, 0, 0, 0, 0]
  {
  }

  lemma Joined(head: seq<byte>, length: seq<byte>, typeId: byte, payload: seq<byte>)
    requires |head| == 4 && |length| == 3
    ensures head + length + [typeId, 0, 0, 0, 0] + payload
            == [head[0], head[1], head[2], head[3], length[0], length[1], length[2], typeId, 0, 0, 0, 0] + payload
  {
  }

  lemma SmallLengths()
    ensures EncodeInt24(3) == [0, 0, 3] && EncodeInt24(4) == [0, 0, 4] && EncodeInt24(5) == [0, 0, 5]
    ensures EncodeInt24(6) == [0, 0, 6] && EncodeInt24(10) == [0, 0, 10] && EncodeInt24(44) == [0, 0, 44]
    ensures EncodeInt16(0x03) == [0, 3] && EncodeInt16(0x1A) == [0, 0x1A] && EncodeInt16(0x1B) == [0, 0x1B]
  {
  }

  lemma StringValue(s: Text)
    ensures EncodeValue(Str(s)) == EncodeString(s)
  {
  }

  lemma {:induction false} OpsAppend(chunkSize: nat, ops: seq<Op>, op: Op)
    requires chunkSize >= 1
    ensures OpsBytes(chunkSize, ops + [op]) == OpsBytes(chunkSize, ops) + OpBytes(OpsChunkSize(chunkSize, ops), op)
    ensures OpsChunkSize(chunkSize, ops + [op]) == OpChunkSize(OpsChunkSize(chunkSize, ops), op)
    decreases |ops|
  {
    hide OpBytes, OpChunkSize;
    if ops == [] {
      assert [op][1..] == [];
    } else {
      assert (ops + [op])[1..] == ops[1..] + [op];
      OpsAppend(OpChunkSize(chunkSize, ops[0]), ops[1..], op);
    }
  }

  /** Writes the twelve header bytes in place. */
  method PutHead(mem: array<byte>, channel: byte, typeId: byte, length: nat)
    requires mem.Length >= HEAD_SIZE
    modifies mem
    ensures mem[..HEAD_SIZE] == Head(channel, typeId, length)
    ensures mem[HEAD_SIZE..] == old(mem[HEAD_SIZE..])
  {
    var size := EncodeInt24(length);
    forall i | 0 <= i < HEAD_SIZE {
      mem[i] := 0;
    }
    mem[0] := channel;
    mem[4], mem[5], mem[6] := size[0], size[1], size[2];
    mem[7] := typeId;
  }

  /** The buffer of a control message. */
  method Framed(typeId: byte, payload: seq<byte>) returns (message: seq<byte>)
    ensures message == Head(CONTROL_CHANNEL, typeId, |payload|) + payload
  {
    hide Head;
    var mem := new byte[HEAD_SIZE + |payload|];
    forall i | 0 <= i < |payload| {
      mem[HEAD_SIZE + i] := payload[i];
    }
    assert mem[HEAD_SIZE..] == payload;
    PutHead(mem, CONTROL_CHANNEL, typeId, |payload|);
    message := mem[..];
    assert message == mem[..HEAD_SIZE] + mem[HEAD_SIZE..];
  }

  class Endpoint {
    var chunkSizeOut: nat
    /** Everything handed to the connection's send queue, in order. */
    var wire: seq<byte>
    ghost var ops: seq<Op>

    ghost predicate Valid()
      reads this
    {
      && chunkSizeOut == OpsChunkSize(DEFAULT_CHUNK_SIZE, ops)
      && wire == OpsBytes(DEFAULT_CHUNK_SIZE, ops)
    }

    constructor ()
      ensures Valid() && ops == [] && wire == []
    {
      chunkSizeOut, wire, ops := DEFAULT_CHUNK_SIZE, [], [];
    }

    /** Hands one finished message to the queue. */
    method Send(bytes: seq<byte>, ghost op: Op)
      requires wire == OpsBytes(DEFAULT_CHUNK_SIZE, ops)
      requires bytes == OpBytes(OpsChunkSize(DEFAULT_CHUNK_SIZE, ops), op)
      modifies `wire, `ops
      ensures ops == old(ops) + [op] && wire == OpsBytes(DEFAULT_CHUNK_SIZE, ops) && wire == old(wire) + bytes
      ensures OpsChunkSize(DEFAULT_CHUNK_SIZE, ops) == OpChunkSize(OpsChunkSize(DEFAULT_CHUNK_SIZE, old(ops)), op)
    {
      OpsAppend(DEFAULT_CHUNK_SIZE, ops, op);
      wire := wire + bytes;
      ops := ops + [op];
    }

    /** A control message: a header and its payload, never cut. */
    method SendControl(typeId: byte, payload: seq<byte>)
      requires Valid()
      modifies this
      ensures Valid() && ops == old(ops) + [Control(typeId, payload)]
      ensures wire == old(wire) + ([2, 0, 0, 0] + EncodeInt24(|payload|) + [typeId, 0, 0, 0, 0] + payload)
    {
      HeadBytes(CONTROL_CHANNEL, typeId, |payload|);
      hide OpsBytes, OpsChunkSize, Head, EncodeInt24;
      OpsAppend(DEFAULT_CHUNK_SIZE, ops, Control(typeId, payload));
      var message := Framed(typeId, payload);
      Send(message, Control(typeId, payload));
    }

    method SendBytesRead(bytes: int)
      requires Valid()
      modifies this
      ensures Valid() && ops == old(ops) + [Control(TYPE_BYTES_READ, EncodeInt32(bytes))]
      ensures wire == old(wire) + ([2, 0, 0, 0, 0, 0, 4, 3, 0, 0, 0, 0] + EncodeInt32(bytes))
    {
      hide EncodeInt24, EncodeInt32;
      SmallLengths();
      Joined([2, 0, 0, 0], [0, 0, 4], 3, EncodeInt32(bytes));
      SendControl(TYPE_BYTES_READ, EncodeInt32(bytes));
    }

    method SendWindowAck(size: int)
      requires Valid()
      modifies this
      ensures Valid() && ops == old(ops) + [Control(TYPE_WINDOW_ACK, EncodeInt32(size))]
      ensures wire == old(wire) + ([2, 0, 0, 0, 0, 0, 4, 5, 0, 0, 0, 0] + EncodeInt32(size))
    {
      hide EncodeInt24, EncodeInt32;
      SmallLengths();
      Joined([2, 0, 0, 0], [0, 0, 4], 5, EncodeInt32(size));
      SendControl(TYPE_WINDOW_ACK, EncodeInt32(size));
    }

    /** The limit type is left out when it is 255. */
    method SendSetPeerBandwidth(bandwidth: int, limitType: byte)
      requires Valid()
      modifies this
      ensures Valid()
      ensures ops == old(ops) + [Control(TYPE_PEER_BANDWIDTH,
                EncodeInt32(bandwidth) + if limitType == 255 then [] else [limitType])]
      ensures wire == old(wire)
                      + if limitType == 255 then [2, 0, 0, 0, 0, 0, 4, 6, 0, 0, 0, 0] + EncodeInt32(bandwidth)
                        else [2, 0, 0, 0, 0, 0, 5, 6, 0, 0, 0, 0] + (EncodeInt32(bandwidth) + [limitType])
    {
      hide EncodeInt24, EncodeInt32;
      SmallLengths();
      Joined([2, 0, 0, 0], [0, 0, 4], 6, EncodeInt32(bandwidth));
      Joined([2, 0, 0, 0], [0, 0, 5], 6, EncodeInt32(bandwidth) + [limitType]);
      var payload := EncodeInt32(bandwidth);
      if limitType != 255 {
        payload := payload + [limitType];
      }
      assert EncodeInt32(bandwidth) + [] == EncodeInt32(bandwidth);
      SendControl(TYPE_PEER_BANDWIDTH, payload);
    }

    /** A user control message.  Two kinds carry bytes the sender never sets: `unset` stands for them.  The time
        is asked for and never sent: where it belongs, the object goes out a second time. */
    method SendCtrl(kind: int, object_: int, time: int, unset: seq<byte>)
      requires Valid() && |unset| == 42
      modifies this
      ensures Valid()
      ensures ops == old(ops) + [Control(TYPE_CTRL, CtrlPayload(kind, object_, unset))]
      ensures wire == old(wire)
                      + match kind
                        case 0x03 => [2, 0, 0, 0, 0, 0, 10, 4, 0, 0, 0, 0]
                                     + ([0, 3] + EncodeInt32(object_) + EncodeInt32(object_))
                        case 0x1A => [2, 0, 0, 0, 0, 0, 3, 4, 0, 0, 0, 0] + ([0, 0x1A] + unset[..1])
                        case 0x1B => [2, 0, 0, 0, 0, 0, 44, 4, 0, 0, 0, 0] + ([0, 0x1B] + unset)
                        case _ => [2, 0, 0, 0, 0, 0, 6, 4, 0, 0, 0, 0] + (EncodeInt16(kind) + EncodeInt32(object_))
    {
      hide EncodeInt16, EncodeInt24, EncodeInt32;
      SmallLengths();
      var size := match kind case 0x03 => 10 case 0x1A => 3 case 0x1B => 44 case _ => 6;
      var payload := EncodeInt16(kind);
      if kind == 0x1B || kind == 0x1A {
        payload := payload + unset[..size - 2];
      } else {
        if size > 2 {
          payload := payload + EncodeInt32(object_);
        }
        if size > 6 {
          payload := payload + EncodeInt32(object_);
        }
      }
      assert unset[..42] == unset;
      assert payload == CtrlPayload(kind, object_, unset);
      Joined([2, 0, 0, 0], EncodeInt24(|payload|), TYPE_CTRL, payload);
      SendControl(TYPE_CTRL, payload);
    }

    method SendChunkSize(size: nat)
      requires Valid()
      modifies this
      ensures Valid() && ops == old(ops) + [SetChunkSize(size)]
      ensures chunkSizeOut == if size == 0 then 128 else size
      ensures wire == old(wire) + ([2, 0, 0, 0, 0, 0, 4, 1, 0, 0, 0, 0] + EncodeInt32(chunkSizeOut))
    {
      SmallLengths();
      HeadBytes(CONTROL_CHANNEL, TYPE_CHUNK_SIZE, 4);
      hide OpsBytes, OpsChunkSize, Head, EncodeInt24, EncodeInt32;
      Joined([2, 0, 0, 0], [0, 0, 4], 1, EncodeInt32(Effective(size)));
      ghost var op := SetChunkSize(size);
      OpsAppend(DEFAULT_CHUNK_SIZE, ops, op);
      chunkSizeOut := Effective(size);
      var message := Framed(TYPE_CHUNK_SIZE, EncodeInt32(chunkSizeOut));
      Send(message, op);
    }

    /** An invoke: the arguments are encoded into a chunking buffer behind twelve bytes of room, and
        the header goes in last, when the length is known. */
    method SendInvoke(name: Text, txn: Bits, value: Value, number: Bits) returns (ok: bool)
      requires Valid() && (value.Number? ==> number == value.bits)
      requires |EncodeProps(InvokeArgs(name, txn, Argument(value, number)))| < 0x1000_0000
      modifies this
      ensures Valid() && ok == (name != [])
      ensures ops == if ok then old(ops) + [Invoke(EncodeProps(InvokeArgs(name, txn, Argument(value, number))))]
                     else old(ops)
      ensures !ok ==> wire == old(wire)
      ensures ok ==>
                var payload := Called(name, txn)
                               + if value == Null then [0x05] else if value.Str? then EncodeString(value.s)
                                 else [0x00] + number;
                && ops == old(ops) + [Invoke(payload)] && chunkSizeOut == old(chunkSizeOut)
                && wire == old(wire)
                           + ([3, 0, 0, 0] + EncodeInt24(|payload|) + [0x14, 0, 0, 0, 0]
                              + Chunked(payload, chunkSizeOut, 3))
    {
      hide OpsBytes, OpsChunkSize, EncodeProps, EncodeValue, EncodeString, Chunked, Head;
      if name == [] {
        return false;
      }
      ghost var arg := Argument(value, number);
      ghost var payload := EncodeProps(InvokeArgs(name, txn, arg));
      InvokeArgsBytes(name, txn, arg);
      LastArgument(name, txn, value, number);
      HeadBytes(INVOKE_CHANNEL, TYPE_INVOKE, |payload|);
      OpsAppend(DEFAULT_CHUNK_SIZE, ops, Invoke(payload));
      var buf := new AmfBuffer(HEAD_SIZE, chunkSizeOut, INVOKE_CHANNEL);
      EncodeArgs(buf, name, txn, value, number);
      assert buf.payload == payload;
      var end := buf.out.writePos;
      ghost var body := buf.out.data[HEAD_SIZE..end];
      assert body == buf.out.data[HEAD_SIZE..][..end - HEAD_SIZE];
      PutHead(buf.out.data, INVOKE_CHANNEL, TYPE_INVOKE, buf.amfSize);
      var message := buf.out.data[..end];
      assert message[HEAD_SIZE..] == buf.out.data[HEAD_SIZE..][..end - HEAD_SIZE] == body;
      assert message == message[..HEAD_SIZE] + message[HEAD_SIZE..];
      Send(message, Invoke(payload));
      ok := true;
    }
  }

  method EncodeArgs(buf: AmfBuffer, name: Text, txn: Bits, value: Value, number: Bits)
    requires buf.Valid() && buf.HasRoom(|EncodeProps(InvokeArgs(name, txn, Argument(value, number)))|)
    modifies buf, buf.out, buf.out.data
    ensures Appended(buf, EncodeProps(InvokeArgs(name, txn, Argument(value, number))))
  {
    hide EncodeProps, EncodeValue, EncodeString, AmfBuffer.Valid;
    InvokeArgsBytes(name, txn, Argument(value, number));
    NumberAndNull(txn);
    NumberAndNull(number);
    WriteString(buf, name);
    WriteNumber(buf, txn);
    WriteNull(buf);
    if value == Null {
      WriteNull(buf);
    } else if value.Str? {
      StringValue(value.s);
      WriteString(buf, value.s);
    } else {
      WriteNumber(buf, number);
    }
  }

  lemma NumberAndNull(txn: Bits)
    ensures |EncodeValue(Number(txn))| == 9 && |EncodeValue(Null)| == 1
  {
  }

  function CtrlPayload(kind: int, object_: int, unset: seq<byte>): (r: seq<byte>)
    requires |unset| == 42
    ensures |r| == if kind == 0x03 then 10 else if kind == 0x1A then 3 else if kind == 0x1B then 44 else 6
  {
    if kind == 0x1B then EncodeInt16(kind) + unset
    else if kind == 0x1A then EncodeInt16(kind) + unset[..1]
    else if kind == 0x03 then EncodeInt16(kind) + EncodeInt32(object_) + EncodeInt32(object_)
    else EncodeInt16(kind) + EncodeInt32(object_)
  }

  /** A Set Buffer Length carries the object's number as its length, so the length asked for arrives exactly
      when the two are the same 32-bit number. */
  lemma BufferLengthIsTheObject(object_: int, time: int, unset: seq<byte>)
    requires |unset| == 42
    ensures var p := CtrlPayload(0x03, object_, unset);
            && DecodeInt32(p, 2) == DecodeInt32(p, 6) == object_ % 0x1_0000_0000
            && (DecodeInt32(p, 6) == time % 0x1_0000_0000 <==> time % 0x1_0000_0000 == object_ % 0x1_0000_0000)
  {
    hide EncodeInt16, EncodeInt32, DecodeInt32;
    var p, o := CtrlPayload(0x03, object_, unset), EncodeInt32(object_);
    assert p[2..6] == o && p[6..10] == o;
    RoundTrip32(object_, p, 2);
    RoundTrip32(object_, p, 6);
  }

  // ---------------------------------------------------------------- sender and receiver together

  /** The message decodes to these arguments, and to the last byte. */
  ghost predicate DecodesTo(d: Delivery, args: Props) {
    |d.payload| < 0x7fff_fff0 && DecodeProps(d.payload, 0, false) == ListResult(args, |d.payload|, Ended)
  }

  /** A delivered invoke decodes to the arguments that were encoded. */
  lemma InvokeDecodes(d: Delivery, args: Props)
    requires Encodable(args) && |EncodeProps(args)| < 0x7fff_fff0
    requires Delivered(d, MessageOf(Invoke(EncodeProps(args))))
    ensures DecodesTo(d, args)
  {
    hide EncodeProps;
    EncodableRoundTrips(args);
    var u := d.payload;
    assert u[0..|u|] == u;
    assert At(u, 0, EncodeProps(args));
    assert DecodeProps(u, |u|, false) == ListResult(Nil, 0, Ended);
    AppendNil(args);
  }

  /** From encoder to decoder: a new connection that is fed, in any pieces, a handshake and the bytes of any
      run of sends whose control payloads fit, has delivered one message per send, in order, with the
      right type and payload, and every encodable invoke decodes to its arguments. */
  lemma SendsArrive(env: Env, c1: seq<byte>, ops: seq<Op>, pieces: seq<seq<byte>>)
    requires |c1| == SIG_SIZE && Accepting(env) && pieces != []
    requires (forall op :: op in ops ==> Sendable(op)) && FitsAll(DEFAULT_CHUNK_SIZE, ops)
    requires Flatten(pieces) == [3] + c1 + env.serverSig + OpsBytes(DEFAULT_CHUNK_SIZE, ops)
    ensures var c := OnReads(env, FRESH, pieces);
            && !c.closed && c.unread == []
            && c.state.chunkSizeIn == OpsChunkSize(DEFAULT_CHUNK_SIZE, ops)
            && |c.state.log| == |ops|
            && (forall i :: 0 <= i < |ops| ==> Delivered(c.state.log[i], MessageOf(ops[i])))
            && (forall i, args | 0 <= i < |ops| && ops[i] == Invoke(EncodeProps(args)) && Encodable(args) ::
                  DecodesTo(c.state.log[i], args))
  {
    hide Run, OpsBytes, DecodesTo, EncodeProps, Encodable, OpsChunkSize, FitsAll;
    var c := ReadsSends(env, c1, ops, pieces);
    forall i, args | 0 <= i < |ops| && ops[i] == Invoke(EncodeProps(args)) && Encodable(args)
      ensures DecodesTo(c.state.log[i], args)
    {
      assert Sendable(ops[i]);
      InvokeDecodes(c.state.log[i], args);
    }
  }

  lemma ReadsSends(env: Env, c1: seq<byte>, ops: seq<Op>, pieces: seq<seq<byte>>) returns (c: Conn)
    requires |c1| == SIG_SIZE && Accepting(env) && pieces != []
    requires (forall op :: op in ops ==> Sendable(op)) && FitsAll(DEFAULT_CHUNK_SIZE, ops)
    requires Flatten(pieces) == [3] + c1 + env.serverSig + OpsBytes(DEFAULT_CHUNK_SIZE, ops)
    ensures c == OnReads(env, FRESH, pieces)
    ensures !c.closed && c.unread == [] && c.state.chunkSizeIn == OpsChunkSize(DEFAULT_CHUNK_SIZE, ops)
    ensures |c.state.log| == |ops| && (forall i :: 0 <= i < |ops| ==> Delivered(c.state.log[i], MessageOf(ops[i])))
  {
    hide Run, OpsBytes, OpsChunkSize, FitsAll, Sendable, Delivered;
    var s := HandshakeThenIdle(env, c1);
    var bytes := OpsBytes(DEFAULT_CHUNK_SIZE, ops);
    var w := TwoEndpoints(env, s, IDLE, ops);
    FragmentationIndependence(env, FRESH, pieces);
    assert FRESH.unread + Flatten(pieces) == [3] + c1 + env.serverSig + bytes;
    c := OnReads(env, FRESH, pieces);
    assert c.state == Run(env, s, bytes).state;
  }

  /** The peer's first bytes: version, C1, and the server signature echoed. */
  ghost function Hello(env: Env, c1: seq<byte>): seq<byte> {
    [3] + c1 + env.serverSig
  }

  /** How many of the sends lie whole in the first `n` bytes of the stream. */
  ghost function Arrived(env: Env, c1: seq<byte>, ops: seq<Op>, n: nat): (k: nat)
    ensures k <= |ops|
  {
    if n < |Hello(env, c1)| then 0 else WholeOps(DEFAULT_CHUNK_SIZE, ops, n - |Hello(env, c1)|)
  }

  /** At any moment: a new connection that has been fed, in any pieces, any part of such a stream has delivered exactly
      the messages whose last byte it has been fed, and every encodable invoke among them decodes to its arguments. */
  lemma SendsArriveSoFar(env: Env, c1: seq<byte>, ops: seq<Op>, pieces: seq<seq<byte>>)
    requires |c1| == SIG_SIZE && Accepting(env) && pieces != []
    requires (forall op :: op in ops ==> Sendable(op)) && FitsAll(DEFAULT_CHUNK_SIZE, ops)
    requires Flatten(pieces) <= Hello(env, c1) + OpsBytes(DEFAULT_CHUNK_SIZE, ops)
    ensures var c, k := OnReads(env, FRESH, pieces), Arrived(env, c1, ops, |Flatten(pieces)|);
            && !c.closed && |c.state.log| == k
            && (forall i :: 0 <= i < k ==> Delivered(c.state.log[i], MessageOf(ops[i])))
            && (forall i, args | 0 <= i < k && ops[i] == Invoke(EncodeProps(args)) && Encodable(args) ::
                  DecodesTo(c.state.log[i], args))
  {
    hide Run, OpsBytes, DecodesTo, EncodeProps, Encodable, FitsAll, WholeOps, Hello, Delivered, Sendable;
    var flat := Flatten(pieces);
    var c, k := OnReads(env, FRESH, pieces), Arrived(env, c1, ops, |flat|);
    FragmentationIndependence(env, FRESH, pieces);
    assert FRESH.unread + flat == flat;
    ReadsSoFar(env, c1, ops, flat);
    assert c.state.log == (if |flat| < 5 then [] else Run(env, INIT, flat).state.log);
    assert |flat| < 5 ==> k == 0 by { HelloIsLong(env, c1); }
    forall i | 0 <= i < k ensures Delivered(c.state.log[i], MessageOf(ops[i])) {
      assert Delivered(c.state.log[0 + i], MessageOf(ops[..k][i]));
    }
    forall i, args | 0 <= i < k && ops[i] == Invoke(EncodeProps(args)) && Encodable(args)
      ensures DecodesTo(c.state.log[i], args)
    {
      InvokeFits(ops[i], args);
      InvokeDecodes(c.state.log[i], args);
    }
  }

  lemma HelloIsLong(env: Env, c1: seq<byte>)
    ensures |Hello(env, c1)| >= 5
  {
  }

  lemma InvokeFits(op: Op, args: Props)
    requires Sendable(op) && op == Invoke(EncodeProps(args))
    ensures |EncodeProps(args)| < 0x7fff_fff0
  {
  }

  lemma ReadsSoFar(env: Env, c1: seq<byte>, ops: seq<Op>, flat: seq<byte>)
    requires |c1| == SIG_SIZE && Accepting(env)
    requires (forall op :: op in ops ==> Sendable(op)) && FitsAll(DEFAULT_CHUNK_SIZE, ops)
    requires flat <= Hello(env, c1) + OpsBytes(DEFAULT_CHUNK_SIZE, ops)
    ensures var r := Run(env, INIT, flat);
            !r.failed && Gained([], r.state.log, ops[..Arrived(env, c1, ops, |flat|)])
  {
    hide Run, OpsBytes, FitsAll, Sendable, WholeOps, Mirrors, Hello, Gained;
    var s := AfterHello(env, c1);
    var h := Hello(env, c1);
    if |flat| < |h| {
      assert flat == h[..|flat|];
      NothingBeforeHello(env, s, h, flat);
      NoneGained(ops);
    } else {
      var p := flat[|h|..];
      assert flat == h + p;
      TwoEndpointsSoFar(env, s, IDLE, ops, p);
    }
  }

  lemma NoneGained(ops: seq<Op>)
    ensures Gained([], [], ops[..0])
  {
  }

  lemma AfterHello(env: Env, c1: seq<byte>) returns (s: State)
    requires |c1| == SIG_SIZE
    ensures Mirrors(s, IDLE) && s.log == []
    ensures forall rest :: Run(env, INIT, Hello(env, c1) + rest) == Run(env, s, rest)
  {
    hide Run, Mirrors;
    s := HandshakeThenIdle(env, c1);
  }

  lemma NothingBeforeHello(env: Env, s: State, h: seq<byte>, flat: seq<byte>)
    requires Mirrors(s, IDLE) && s.log == [] && |flat| < |h| && flat == h[..|flat|]
    requires Run(env, INIT, h + []) == Run(env, s, [])
    ensures !Run(env, INIT, flat).failed && Run(env, INIT, flat).state.log == []
  {
    hide Run, Mirrors;
    assert flat + h[|flat|..] == h + [];
    PrefixRun(env, INIT, flat, h[|flat|..]);
    NoMore(env, s);
  }

  lemma NoMore(env: Env, s: State)
    requires Mirrors(s, IDLE)
    ensures Run(env, s, []) == RunResult(s, [], false)
  {
  }

  /** Through the send queue: whatever the socket has taken so far, and in whatever pieces the peer reads it, the peer
      has delivered exactly the sends whose last byte the socket took, in order, also after the connection closed. */
  lemma HandedArrives(e: Endpoint, conn: SendQueues.Connection, env: Env, c1: seq<byte>, pieces: seq<seq<byte>>)
    requires e.Valid() && conn.Valid() && conn.accepted == Hello(env, c1) + e.wire
    requires |c1| == SIG_SIZE && Accepting(env) && pieces != [] && Flatten(pieces) == conn.handed
    requires (forall op :: op in e.ops ==> Sendable(op)) && FitsAll(DEFAULT_CHUNK_SIZE, e.ops)
    ensures var c, k := OnReads(env, FRESH, pieces), Arrived(env, c1, e.ops, |conn.handed|);
            && !c.closed && |c.state.log| == k
            && (forall i :: 0 <= i < k ==> Delivered(c.state.log[i], MessageOf(e.ops[i])))
            && (conn.IsOpen() && conn.sendBufs == [] ==> k == |e.ops|)
  {
    hide OpsBytes, WholeOps, FitsAll, Sendable, Hello;
    SendsArriveSoFar(env, c1, e.ops, pieces);
    if conn.IsOpen() && conn.sendBufs == [] {
      AllWhole(DEFAULT_CHUNK_SIZE, e.ops);
    }
  }
}
