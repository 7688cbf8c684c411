/** AMF0 values, their encoding, and the decoder, as functions over byte strings.

    `u` is the whole buffer and `i` the read pointer, so the bytes left are `|u| - i`. */
module Amf {
  import opened Bytes

  const NUMBER: byte := 0x00
  const BOOLEAN: byte := 0x01
  const STRING: byte := 0x02
  const OBJECT: byte := 0x03
  const NULL: byte := 0x05
  const UNDEFINED: byte := 0x06
  const MIXED_ARRAY: byte := 0x08
  const END_OF_OBJECT: byte := 0x09
  const ARRAY: byte := 0x0A
  const DATE: byte := 0x0B
  const LONG_STRING: byte := 0x0C
  const AMF3: byte := 0x11

  /** The type bytes behind an AMF3 marker that are decided here, and the last there is. */
  const AMF3_UNDEFINED: byte := 0
  const AMF3_NULL: byte := 1
  const AMF3_FALSE: byte := 2
  const AMF3_TRUE: byte := 3
  const AMF3_INTEGER: byte := 4
  const AMF3_DOUBLE: byte := 5
  const AMF3_XML: byte := 11

  /** Strings and names have lengths an `int` can hold. */
  type Text = s: seq<byte> | |s| < 0x7fff_fff0
  /** The eight bytes of a double, most significant first. */
  type Bits = s: seq<byte> | |s| == 8 witness [0, 0, 0, 0, 0, 0, 0, 0]

  datatype Value =
    | Number(bits: Bits)
    | Boolean(b: bool)
    | Str(s: Text)
    | Null
    | Object(props: Props)

  /** Properties in order.  An empty name stands for no name. */
  datatype Props = Nil | Cons(name: Text, value: Value, rest: Props)

  // ---------------------------------------------------------------- encoding

  function EncodeString(s: Text): seq<byte> {
    if |s| < 65536 then [STRING] + EncodeInt16(|s|) + s else [LONG_STRING] + EncodeInt32(|s|) + s
  }

  function EncodeValue(v: Value): seq<byte> {
    match v
    case Number(bits) => [NUMBER] + bits
    case Boolean(b) => [BOOLEAN, if b then 1 else 0]
    case Str(s) => EncodeString(s)
    case Null => [NULL]
    case Object(props) => [OBJECT] + EncodeProps(props) + EncodeInt24(END_OF_OBJECT)
  }

  /** A name is written only when it is not empty and the value is not null. */
  function EncodeName(name: Text, v: Value): seq<byte> {
    if v != Null && name != [] then EncodeInt16(|name|) + name else []
  }

  function EncodeProps(ps: Props): seq<byte> {
    match ps
    case Nil => []
    case Cons(name, value, rest) => EncodeName(name, value) + EncodeValue(value) + EncodeProps(rest)
  }

  // ---------------------------------------------------------------- decoding

  /** A string loses one trailing NUL on its way into a variable. */
  function Trim(s: Text): Text {
    if s != [] && s[|s| - 1] == 0 then s[..|s| - 1] else s
  }

  /** A value read, an error, or one of two outcomes that the bytes of the message alone do not decide.
      An overrun: the decoder has looked for a count, a length or a marker behind the buffer, and what it
      does next depends on memory that is not the message's.  AMF3: it has handed over to the part of the
      AMF3 decoder that has no size checks. */
  datatype PropResult = PropOk(name: Text, value: Value, used: nat) | PropError | PropOverrun | PropAmf3

  datatype Ending = Ended | Failed | Overran | HandedOver

  /** What a list decode has collected, how far it got, and how it ended. */
  datatype ListResult = ListResult(props: Props, used: nat, ending: Ending)

  type Buffer = s: seq<byte> | |s| < 0x7fff_fff0

  predicate AtEndMark(u: Buffer, i: nat) {
    i + 3 <= |u| && DecodeInt24(u, i) == END_OF_OBJECT as int
  }

  /** After an error: bytes to drop up to and including the next end mark, if there is one. */
  function SkipToEndMark(u: Buffer, i: nat): (r: ListResult)
    requires i <= |u|
    ensures r.props == Nil && r.used <= |u| - i && r.ending in {Ended, Failed} && (r.ending.Ended? ==> r.used >= 3)
    decreases |u| - i
  {
    if i == |u| then ListResult(Nil, 0, Failed)
    else if AtEndMark(u, i) then ListResult(Nil, 3, Ended)
    else
      var r := SkipToEndMark(u, i + 1);
      r.(used := r.used + 1)
  }

  /** The value that a decoded list stands for, behind a marker and `head - 1` further bytes. */
  function AsObject(r: ListResult, head: nat): PropResult {
    match r.ending
    case Ended => PropOk([], Object(r.props), head + r.used)
    case Failed => PropError
    case Overran => PropOverrun
    case HandedOver => PropAmf3
  }

  /** One typed value at `i`; its name has been read already.  A mixed array skips its four-byte count
      unseen, so it may end behind the buffer; the size left is then negative, and its list empty. */
  function DecodeValue(u: Buffer, i: nat): (r: PropResult)
    ensures r.PropOk? ==> i < |u| && 1 <= r.used && i + r.used <= |u| + 4 && r.name == []
    ensures i == |u| ==> r.PropError?
    ensures i > |u| ==> r.PropOverrun?
    decreases |u| - i, 0
  {
    if i == |u| then PropError else
    if i > |u| then PropOverrun else
    var size := |u| - i - 1;
    var p := i + 1;
    if u[i] == NUMBER then
      if size < 8 then PropError else PropOk([], Number(u[p..p + 8]), 9)
    else if u[i] == BOOLEAN then
      if size < 1 then PropError else PropOk([], Boolean(u[p] != 0), 2)
    else if u[i] == STRING then
      if size < 2 then PropError else
      var n := DecodeInt16(u, p);
      if size < n + 2 then PropError else PropOk([], Str(Trim(u[p + 2..p + 2 + n])), 3 + n)
    else if u[i] == OBJECT then
      AsObject(DecodeProps(u, p, true), 1)
    else if u[i] == NULL || u[i] == UNDEFINED then
      PropOk([], Null, 1)
    else if u[i] == MIXED_ARRAY then
      AsObject(DecodeProps(u, p + 4, true), 5)
    else if u[i] == DATE then
      if size < 10 then PropError else PropOk([], Number(u[p..p + 8]), 11)
    else if u[i] == LONG_STRING then
      if size < 4 then PropOverrun else
      var n := DecodeInt32(u, p);
      if size < (n + 4) % 0x1_0000_0000 then PropError
      else if size < n + 4 then PropOverrun
      else PropOk([], Str(Trim(u[p + 2..p + 2 + n])), 5 + n)
    else if u[i] == ARRAY then
      if size < 4 then PropOverrun else
      var count := ToInt32(DecodeInt32(u, p));
      AsObject(DecodeArray(u, p + 4, if count > 0 then count else 0), 5)
    else if u[i] == AMF3 then
      DecodeAmf3(u, p)
    else PropError
  }

  /** Behind an AMF3 marker.  The switch takes "true", which is 3, for an object marker, and then for an error. */
  function DecodeAmf3(u: Buffer, p: nat): (r: PropResult)
    requires p <= |u|
    ensures r.PropOk? ==> p + r.used <= |u| + 1 && 2 <= r.used && r.name == []
  {
    if p == |u| then PropOverrun
    else if u[p] == AMF3_UNDEFINED || u[p] == AMF3_NULL then PropOk([], Null, 2)
    else if u[p] == AMF3_FALSE then PropOk([], Boolean(false), 2)
    else if u[p] == AMF3_TRUE || u[p] > AMF3_XML then PropError
    else if u[p] == AMF3_DOUBLE then
      if |u| - p - 1 < 8 then PropError else PropOk([], Number(u[p + 1..p + 9]), 10)
    else PropAmf3
  }

  function DecodeProp(u: Buffer, i: nat, named: bool): (r: PropResult)
    ensures r.PropOk? ==> i < |u| && 1 <= r.used && i + r.used <= |u| + 4
    ensures r.PropOk? && !named ==> r.name == []
    decreases |u| - i, 1
  {
    if !named then DecodeValue(u, i)
    else if |u| - i < 4 then PropError
    else
      var n := DecodeInt16(u, i);
      if n > |u| - i - 2 then PropError else
      var r := DecodeValue(u, i + 2 + n);
      if r.PropOk? then PropOk(Trim(u[i + 2..i + 2 + n]), r.value, 2 + n + r.used) else r
  }

  /** Values up to an end mark, or to the end of the buffer; an error drops bytes up to the
      next end mark. */
  function DecodeProps(u: Buffer, i: nat, named: bool): (r: ListResult)
    ensures r.used == 0 || i + r.used <= |u| + 4
    ensures i >= |u| ==> r == ListResult(Nil, 0, Ended)
    decreases |u| - i, 2
  {
    if i >= |u| then ListResult(Nil, 0, Ended)
    else if AtEndMark(u, i) then ListResult(Nil, 3, Ended)
    else
      var p := DecodeProp(u, i, named);
      match p
      case PropError => SkipToEndMark(u, i)
      case PropOverrun => ListResult(Nil, 0, Overran)
      case PropAmf3 => ListResult(Nil, 0, HandedOver)
      case PropOk(name, value, used) =>
        var r := DecodeProps(u, i + used, named);
        ListResult(Cons(name, value, r.props), used + r.used, r.ending)
  }

  function DecodeArray(u: Buffer, i: nat, count: nat): (r: ListResult)
    ensures r.used == 0 || i + r.used <= |u| + 4
    decreases |u| - i, 2
  {
    if count == 0 then ListResult(Nil, 0, Ended)
    else
      match DecodeProp(u, i, false)
      case PropError => ListResult(Nil, 0, Failed)
      case PropOverrun => ListResult(Nil, 0, Overran)
      case PropAmf3 => ListResult(Nil, 0, HandedOver)
      case PropOk(name, value, used) =>
        var r := DecodeArray(u, i + used, count - 1);
        ListResult(Cons(name, value, r.props), used + r.used, r.ending)
  }
}
