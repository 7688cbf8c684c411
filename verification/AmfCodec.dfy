/** The AMF0 encoders and decoders as the original runs them: writes to a chunked buffer,
    and loops that advance a read pointer and fill an object. */
module AmfCodec {
  import opened Bytes
  import opened ChunkWriters
  import opened Amf
  import opened AmfRoundTrip

  // ---------------------------------------------------------------- encoders

  /** What an encoder does to its buffer: it appends `bytes` to the payload. */
  twostate predicate Appended(buf: AmfBuffer, bytes: seq<byte>)
    reads buf, buf.out, buf.out.data
  {
    && buf.Valid()
    && (buf.out.data == old(buf.out.data) || fresh(buf.out.data))
    && buf.payload == old(buf.payload) + bytes
    && buf.out.writePos <= old(buf.out.writePos) + 2 * |bytes|
  }

  method WriteString(buf: AmfBuffer, s: Text)
    requires buf.Valid() && buf.HasRoom(|EncodeString(s)|)
    modifies buf, buf.out, buf.out.data
    ensures Appended(buf, EncodeString(s))
  {
    hide EncodeInt16, EncodeInt32, AmfBuffer.Valid;
    if |s| < 65536 {
      buf.Write([STRING]);
      buf.Write(EncodeInt16(|s|));
    } else {
      buf.Write([LONG_STRING]);
      buf.Write(EncodeInt32(|s|));
    }
    buf.Write(s);
  }

  method WriteNumber(buf: AmfBuffer, bits: Bits)
    requires buf.Valid() && buf.HasRoom(9)
    modifies buf, buf.out, buf.out.data
    ensures Appended(buf, EncodeValue(Number(bits)))
  {
    hide AmfBuffer.Valid;
    buf.Write([NUMBER]);
    buf.Write(bits);
  }

  method WriteBoolean(buf: AmfBuffer, b: bool)
    requires buf.Valid() && buf.HasRoom(2)
    modifies buf, buf.out, buf.out.data
    ensures Appended(buf, EncodeValue(Boolean(b)))
  {
    hide AmfBuffer.Valid;
    buf.Write([BOOLEAN]);
    buf.Write([if b then 1 else 0]);
  }

  method WriteNull(buf: AmfBuffer)
    requires buf.Valid() && buf.HasRoom(1)
    modifies buf, buf.out, buf.out.data
    ensures Appended(buf, EncodeValue(Null))
  {
    buf.Write([NULL]);
  }

  method WriteName(buf: AmfBuffer, name: Text, value: Value)
    requires buf.Valid() && buf.HasRoom(|EncodeName(name, value)|)
    modifies buf, buf.out, buf.out.data
    ensures Appended(buf, EncodeName(name, value))
  {
    hide AmfBuffer.Valid;
    if value != Null && |name| > 0 {
      buf.Write([|name| / 0x100 % 0x100]);
      buf.Write([|name| % 0x100]);
      buf.Write(name);
    }
  }

  method WriteValue(buf: AmfBuffer, v: Value)
    requires buf.Valid() && buf.HasRoom(|EncodeValue(v)|)
    modifies buf, buf.out, buf.out.data
    ensures Appended(buf, EncodeValue(v))
    decreases v, 0
  {
    hide AmfBuffer.Valid, EncodeString;
    match v {
      case Number(bits) => WriteNumber(buf, bits);
      case Boolean(b) => WriteBoolean(buf, b);
      case Str(s) => WriteString(buf, s);
      case Null => WriteNull(buf);
      case Object(props) => WriteObject(buf, props);
    }
  }

  method WriteObject(buf: AmfBuffer, props: Props)
    requires buf.Valid() && buf.HasRoom(|EncodeValue(Object(props))|)
    modifies buf, buf.out, buf.out.data
    ensures Appended(buf, EncodeValue(Object(props)))
    decreases props, 2
  {
    hide AmfBuffer.Valid, EncodeProps, EncodeInt24;
    buf.Write([OBJECT]);
    WriteProps(buf, props);
    buf.Write(EncodeInt24(END_OF_OBJECT));
  }

  /** One property: its name and its value. */
  method WriteProp(buf: AmfBuffer, name: Text, value: Value)
    requires buf.Valid() && buf.HasRoom(|EncodeName(name, value) + EncodeValue(value)|)
    modifies buf, buf.out, buf.out.data
    ensures Appended(buf, EncodeName(name, value) + EncodeValue(value))
    decreases value, 1
  {
    hide AmfBuffer.Valid, EncodeName, EncodeValue;
    WriteName(buf, name, value);
    WriteValue(buf, value);
  }

  /** The properties of an object, or a list of top-level values, in order. */
  method WriteProps(buf: AmfBuffer, props: Props)
    requires buf.Valid() && buf.HasRoom(|EncodeProps(props)|)
    modifies buf, buf.out, buf.out.data
    ensures Appended(buf, EncodeProps(props))
    decreases props, 1
  {
    hide AmfBuffer.Valid, EncodeValue, EncodeName, EncodeProps;
    var ps := props;
    ghost var done := [];
    while ps.Cons?
      invariant buf.Valid() && (buf.out.data == old(buf.out.data) || fresh(buf.out.data))
      invariant buf.payload == old(buf.payload) + done
      invariant buf.out.writePos <= old(buf.out.writePos) + 2 * |done|
      invariant done + EncodeProps(ps) == EncodeProps(props)
      invariant ps == props || ps < props
      decreases ps
    {
      PropsUnfold(ps.name, ps.value, ps.rest);
      ghost var bytes := EncodeName(ps.name, ps.value) + EncodeValue(ps.value);
      assert done + (bytes + EncodeProps(ps.rest)) == (done + bytes) + EncodeProps(ps.rest);
      WriteProp(buf, ps.name, ps.value);
      done := done + bytes;
      ps := ps.rest;
    }
    PropsUnfold([], Null, Nil);
  }

  // ---------------------------------------------------------------- decoders

  lemma {:induction false} AppendAssoc(a: Props, b: Props, c: Props)
    ensures Append(Append(a, b), c) == Append(a, Append(b, c))
  {
    if a.Cons? {
      AppendAssoc(a.rest, b, c);
    }
  }

  method PropDecode(u: Buffer, from: nat, named: bool) returns (r: PropResult)
    ensures r == DecodeProp(u, from, named)
    decreases |u| - from, 1
  {
    hide DecodeInt16, DecodeInt32, ToInt32, DecodeProps, DecodeArray, DecodeValue, Trim;
    var pos, name: Text := from, [];
    if pos == |u| {
      return PropError;
    }
    if named && |u| - pos < 4 {
      return PropError;
    }
    if named {
      var n := DecodeInt16(u, pos);
      if n > |u| - pos - 2 {
        return PropError;
      }
      name := Trim(u[pos + 2..pos + 2 + n]);
      pos := pos + 2 + n;
    }
    if pos == |u| {
      return PropError;
    }
    r := ValueDecode(u, pos);
    if r.PropOk? {
      r := PropOk(name, r.value, pos - from + r.used);
    }
  }

  /** The value of an object or array that has been decoded, or what went wrong with it. */
  method ObjectFrom(obj: ListResult, head: nat) returns (r: PropResult)
    ensures r == AsObject(obj, head)
  {
    if obj.ending == Overran {
      return PropOverrun;
    }
    if obj.ending == HandedOver {
      return PropAmf3;
    }
    if obj.ending == Failed {
      return PropError;
    }
    r := PropOk([], Object(obj.props), head + obj.used);
  }

  method ValueDecode(u: Buffer, from: nat) returns (r: PropResult)
    requires from != |u|
    ensures r == DecodeValue(u, from)
    decreases |u| - from, 0
  {
    hide DecodeInt16, DecodeInt32, ToInt32, DecodeProps, DecodeArray, Trim;
    var size, pos := |u| - from - 1, from + 1;
    if from > |u| {
      return PropOverrun;
    }
    if u[from] == STRING {
      if size < 2 {
        return PropError;
      }
      var n := DecodeInt16(u, pos);
      if size < n + 2 {
        return PropError;
      }
      r := PropOk([], Str(Trim(u[pos + 2..pos + 2 + n])), 3 + n);
    } else if u[from] == NUMBER {
      if size < 8 {
        return PropError;
      }
      r := PropOk([], Number(u[pos..pos + 8]), 9);
    } else if u[from] == OBJECT {
      var obj := ListDecode(u, pos, true);
      r := ObjectFrom(obj, 1);
    } else if u[from] == BOOLEAN {
      if size < 1 {
        return PropError;
      }
      r := PropOk([], Boolean(u[pos] != 0), 2);
    } else if u[from] == NULL || u[from] == UNDEFINED {
      r := PropOk([], Null, 1);
    } else if u[from] == MIXED_ARRAY {
      var obj := ListDecode(u, pos + 4, true);
      r := ObjectFrom(obj, 5);
    } else if u[from] == DATE {
      if size < 10 {
        return PropError;
      }
      r := PropOk([], Number(u[pos..pos + 8]), 11);
    } else if u[from] == LONG_STRING {
      if size < 4 {
        return PropOverrun;
      }
      var n := DecodeInt32(u, pos);
      if size < (n + 4) % 0x1_0000_0000 {
        return PropError;
      }
      if size < n + 4 {
        return PropOverrun;
      }
      r := PropOk([], Str(Trim(u[pos + 2..pos + 2 + n])), 5 + n);
    } else if u[from] == ARRAY {
      if size < 4 {
        return PropOverrun;
      }
      var count := ToInt32(DecodeInt32(u, pos));
      var obj := ArrayDecode(u, pos + 4, if count > 0 then count else 0);
      r := ObjectFrom(obj, 5);
    } else if u[from] == AMF3 {
      r := Amf3Decode(u, pos);
    } else {
      r := PropError;
    }
  }

  /** The AMF3 switch, up to the calls that check no sizes. */
  method Amf3Decode(u: Buffer, pos: nat) returns (r: PropResult)
    requires pos <= |u|
    ensures r == DecodeAmf3(u, pos)
  {
    if pos == |u| {
      return PropOverrun;
    }
    var kind, size := u[pos], |u| - pos - 1;
    if kind == AMF3_TRUE {
      return PropError;
    }
    if kind == AMF3_UNDEFINED || kind == AMF3_NULL {
      r := PropOk([], Null, 2);
    } else if kind == AMF3_FALSE {
      r := PropOk([], Boolean(false), 2);
    } else if kind == AMF3_DOUBLE {
      if size < 8 {
        return PropError;
      }
      r := PropOk([], Number(u[pos + 1..pos + 9]), 10);
    } else if kind <= AMF3_XML {
      r := PropAmf3;
    } else {
      r := PropError;
    }
  }

  /** The object loop: properties are added until an end mark, the end of the buffer, or an
      error, after which bytes are dropped one by one up to the next end mark. */
  method ListDecode(u: Buffer, from: nat, named: bool) returns (r: ListResult)
    ensures r == DecodeProps(u, from, named)
    decreases |u| - from, 2
  {
    hide DecodeProp, AtEndMark, DecodeProps;
    var pos, bError, obj := from, false, Nil;
    while pos < |u|
      invariant from <= pos && (bError ==> pos <= |u|)
      invariant var rest := if bError then SkipToEndMark(u, pos) else DecodeProps(u, pos, named);
                DecodeProps(u, from, named) == ListResult(Append(obj, rest.props), pos - from + rest.used, rest.ending)
      decreases |u| - pos, !bError
    {
      if AtEndMark(u, pos) {
        ReadsEnd(u, pos, named);
        AppendNil(obj);
        return ListResult(obj, pos - from + 3, Ended);
      }
      if bError {
        pos := pos + 1;
      } else {
        var p := PropDecode(u, pos, named);
        if !p.PropOk? {
          ReadsNone(u, pos, named);
        }
        if p.PropOverrun? {
          AppendNil(obj);
          return ListResult(obj, pos - from, Overran);
        } else if p.PropAmf3? {
          AppendNil(obj);
          return ListResult(obj, pos - from, HandedOver);
        } else if p.PropError? {
          bError := true;
        } else {
          ReadsOne(u, pos, named);
          AppendAssoc(obj, Cons(p.name, p.value, Nil), DecodeProps(u, pos + p.used, named).props);
          obj := Append(obj, Cons(p.name, p.value, Nil));
          pos := pos + p.used;
        }
      }
    }
    AppendNil(obj);
    r := ListResult(obj, pos - from, if bError then Failed else Ended);
  }

  /** The array loop goes on after an error, but has then lost. */
  method ArrayDecode(u: Buffer, from: nat, count: nat) returns (r: ListResult)
    ensures r.ending == DecodeArray(u, from, count).ending
    ensures !r.ending.Failed? ==> r == DecodeArray(u, from, count)
    decreases |u| - from, 2
  {
    hide DecodeProp;
    var pos, left, bError, obj := from, count, false, Nil;
    while left > 0
      invariant pos == from || from < |u|
      invariant from <= pos
      invariant bError ==> DecodeProp(u, pos, false).PropError? && DecodeArray(u, from, count).ending.Failed?
      invariant !bError ==>
                  var rest := DecodeArray(u, pos, left);
                  DecodeArray(u, from, count)
                    == ListResult(Append(obj, rest.props), pos - from + rest.used, rest.ending)
    {
      left := left - 1;
      var p := PropDecode(u, pos, false);
      if p.PropOverrun? {
        AppendNil(obj);
        return ListResult(obj, pos - from, Overran);
      } else if p.PropAmf3? {
        AppendNil(obj);
        return ListResult(obj, pos - from, HandedOver);
      } else if p.PropError? {
        bError := true;
      } else {
        AppendAssoc(obj, Cons(p.name, p.value, Nil), DecodeArray(u, pos + p.used, left).props);
        obj := Append(obj, Cons(p.name, p.value, Nil));
        pos := pos + p.used;
      }
    }
    AppendNil(obj);
    r := ListResult(obj, pos - from, if bError then Failed else Ended);
  }
}
