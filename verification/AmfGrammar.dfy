/** What the decoder makes of everything it accepts, written down as a grammar with a meaning: also the forms that
    the library's own encoder never writes. */
module AmfGrammar {
  import opened Bytes
  import opened Amf
  import opened AmfRoundTrip

  type Two = s: seq<byte> | |s| == 2 witness [0, 0]
  type Four = s: seq<byte> | |s| == 4 witness [0, 0, 0, 0]

  const MARK: seq<byte> := [0, 0, 9]

  /** A value as it stands on the wire.  The four bytes of a mixed array mean nothing; those of an array are how many
      values there are, if they are a positive number. */
  datatype Wire =
    | WNumber(bits: Bits)
    | WBoolean(b: byte)
    | WString(s: Text)
    | WLongString(s: Text)
    | WNull
    | WUndefined
    | WDate(bits: Bits, zone: Two)
    | WObject(list: WireList)
    | WMixedArray(unused: Four, list: WireList)
    | WArray(count: Four, items: WireProps)
    | WAmf3Null(kind: byte)
    | WAmf3False
    | WAmf3Double(bits: Bits)

  datatype WireProps = WNil | WCons(name: Text, value: Wire, rest: WireProps)

  /** Properties, bytes that do not decode, and the end mark.  Only the end of the buffer can stand for the mark. */
  datatype WireList = WList(props: WireProps, junk: seq<byte>, closed: bool)

  // ---------------------------------------------------------------- its bytes

  function WireBytes(w: Wire): seq<byte> {
    match w
    case WNumber(bits) => [0x00] + bits
    case WBoolean(b) => [0x01, b]
    case WString(s) => [0x02] + (Length(s) + s)
    case WObject(list) => [0x03] + ListBytes(list)
    case WNull => [0x05]
    case WUndefined => [0x06]
    case WMixedArray(unused, list) => [0x08] + (unused + ListBytes(list))
    case WArray(count, items) => [0x0A] + (count + PropsBytes(items, false))
    case WDate(bits, zone) => [0x0B] + (bits + zone)
    case WLongString(s) => [0x0C] + (EncodeInt32(|s|) + s)
    case WAmf3Null(kind) => [0x11, kind]
    case WAmf3False => [0x11, 0x02]
    case WAmf3Double(bits) => [0x11, 0x05] + bits
  }

  /** Two bytes of length, most significant first. */
  function Length(s: Text): seq<byte> {
    [|s| / 0x100 % 0x100, |s| % 0x100]
  }

  function NameBytes(name: Text, named: bool): seq<byte> {
    if named then Length(name) + name else []
  }

  function PropsBytes(ps: WireProps, named: bool): seq<byte> {
    match ps
    case WNil => []
    case WCons(name, value, rest) => NameBytes(name, named) + (WireBytes(value) + PropsBytes(rest, named))
  }

  function ListBytes(list: WireList): seq<byte> {
    PropsBytes(list.props, true) + (list.junk + if list.closed then MARK else [])
  }

  // ---------------------------------------------------------------- its meaning

  /** A long string is read two bytes too early. */
  function LongRead(s: Text): Text {
    Trim((EncodeInt32(|s|) + s)[2..2 + |s|])
  }

  function Meaning(w: Wire): Value {
    match w
    case WNumber(bits) => Number(bits)
    case WBoolean(b) => Boolean(b != 0)
    case WString(s) => Str(Trim(s))
    case WLongString(s) => Str(LongRead(s))
    case WNull => Null
    case WUndefined => Null
    case WDate(bits, _) => Number(bits)
    case WObject(list) => Object(PropsMeaning(list.props, true))
    case WMixedArray(_, list) => Object(PropsMeaning(list.props, true))
    case WArray(_, items) => Object(PropsMeaning(items, false))
    case WAmf3Null(_) => Null
    case WAmf3False => Boolean(false)
    case WAmf3Double(bits) => Number(bits)
  }

  function PropsMeaning(ps: WireProps, named: bool): Props {
    match ps
    case WNil => Nil
    case WCons(name, value, rest) =>
      Cons(if named then Trim(name) else [], Meaning(value), PropsMeaning(rest, named))
  }

  function Count(ps: WireProps): nat {
    if ps.WNil? then 0 else 1 + Count(ps.rest)
  }

  /** How many values four bytes announce. */
  function Announced(count: Four): nat {
    var n := ToInt32(DecodeInt32(count, 0));
    if n > 0 then n else 0
  }

  // ---------------------------------------------------------------- what is well formed

  /** Lengths that their fields can hold, arrays as long as they say, lists that end in their mark. */
  ghost predicate Sound(w: Wire) {
    match w
    case WString(s) => |s| < 65536
    case WObject(list) => SoundList(list)
    case WMixedArray(_, list) => SoundList(list)
    case WArray(count, items) => SoundProps(items, false) && Announced(count) == Count(items)
    case WAmf3Null(kind) => kind <= 1
    case _ => true
  }

  ghost predicate SoundProps(ps: WireProps, named: bool) {
    ps.WCons? ==> (if named then |ps.name| < 65536 else ps.name == []) && Sound(ps.value) && SoundProps(ps.rest, named)
  }

  ghost predicate SoundList(list: WireList) {
    SoundProps(list.props, true) && list.junk == [] && list.closed
  }

  // ---------------------------------------------------------------- everything well formed is read as it is meant

  lemma FirstByteOf(w: Wire)
    ensures WireBytes(w) != [] && WireBytes(w)[0] in {0, 1, 2, 3, 5, 6, 8, 10, 11, 12, 17}
  {
    hide EncodeInt32, ListBytes, PropsBytes, Length;
  }

  /** The leaves of the grammar. */
  lemma DecodesLeaf(w: Wire, u: Buffer, i: nat)
    requires Sound(w) && !w.WObject? && !w.WMixedArray? && !w.WArray? && !w.WString? && !w.WLongString?
    requires At(u, i, WireBytes(w))
    ensures DecodeValue(u, i) == PropOk([], Meaning(w), |WireBytes(w)|)
  {
    hide DecodeProps, DecodeArray, Trim, DecodeInt16, DecodeInt32, ToInt32;
    AtIndex(u, i, WireBytes(w));
    assert u[i + 0] == WireBytes(w)[0];
    match w {
      case WBoolean(b) => assert u[i + 1] == b;
      case WNumber(bits) => FirstByteAt(0, bits, u, i);
      case WDate(bits, zone) =>
        FirstByteAt(0x0B, bits + zone, u, i);
        AtSplit(u, i + 1, bits, zone);
      case WAmf3Double(bits) =>
        assert u[i + 1] == 5;
        AtSplit(u, i, [0x11, 0x05], bits);
      case WAmf3Null(kind) => assert u[i + 1] == kind;
      case WAmf3False => assert u[i + 1] == 2;
      case _ =>
    }
  }

  lemma LengthIs16(s: Text)
    requires |s| < 65536
    ensures Length(s) == EncodeInt16(|s|)
  {
  }

  lemma DecodesText(w: Wire, u: Buffer, i: nat)
    requires Sound(w) && (w.WString? || w.WLongString?) && At(u, i, WireBytes(w))
    ensures DecodeValue(u, i) == PropOk([], Meaning(w), |WireBytes(w)|)
  {
    hide DecodeValue, Trim, EncodeInt16, EncodeInt32, DecodeInt16, DecodeInt32, At, Length;
    var s := w.s;
    if w.WString? {
      LengthIs16(s);
      FirstByteAt(0x02, EncodeInt16(|s|) + s, u, i);
      TextAt(s, u, i + 1);
      ReadsString(u, i);
    } else {
      FirstByteAt(0x0C, EncodeInt32(|s|) + s, u, i);
      LongTextAt(s, u, i + 1);
      DecodesLongText(u, i, |s|);
    }
  }

  lemma {:induction false} DecodesWire(w: Wire, u: Buffer, i: nat)
    requires Sound(w) && At(u, i, WireBytes(w))
    ensures DecodeValue(u, i) == PropOk([], Meaning(w), |WireBytes(w)|)
    decreases w, 0
  {
    hide DecodeProps, DecodeArray, Trim, DecodeInt16, DecodeInt32, ToInt32, At, ListBytes, PropsBytes, PropsMeaning,
      SoundList, SoundProps, LongRead, Length, EncodeInt32, Announced;
    match w {
      case WObject(list) =>
        FirstByteAt(0x03, ListBytes(list), u, i);
        DecodesWireList(list, u, i + 1);
      case WMixedArray(unused, list) =>
        FirstByteAt(0x08, unused + ListBytes(list), u, i);
        AtSplit(u, i + 1, unused, ListBytes(list));
        DecodesWireList(list, u, i + 5);
      case WArray(count, items) =>
        FirstByteAt(0x0A, count + PropsBytes(items, false), u, i);
        AtSplit(u, i + 1, count, PropsBytes(items, false));
        CountAt(u, i, count);
        DecodesWireArray(items, u, i + 5);
      case WString(_) => DecodesText(w, u, i);
      case WLongString(_) => DecodesText(w, u, i);
      case _ => DecodesLeaf(w, u, i);
    }
  }

  lemma CountAt(u: Buffer, i: nat, count: Four)
    requires At(u, i + 1, count)
    ensures i + 5 <= |u|
    ensures Announced(count) == var n := ToInt32(DecodeInt32(u, i + 1)); if n > 0 then n else 0
  {
    hide ToInt32;
    AtIndex(u, i + 1, count);
    assert u[i + 1 + 0] == count[0] && u[i + 1 + 1] == count[1] && u[i + 1 + 2] == count[2] && u[i + 1 + 3] == count[3];
  }

  lemma {:induction false} DecodesWireList(list: WireList, u: Buffer, i: nat)
    requires SoundList(list) && At(u, i, ListBytes(list))
    ensures DecodeProps(u, i, true) == ListResult(PropsMeaning(list.props, true), |ListBytes(list)|, Ended)
    decreases list, 3
  {
    hide DecodeProps, PropsMeaning, PropsBytes, SoundProps, At;
    assert ListBytes(list) == PropsBytes(list.props, true) + MARK;
    assert ListBytes(list) == PropsBytes(list.props, true) + ([] + MARK);
    DecodesWireProps(list.props, [], u, i);
  }

  /** Properties up to their end mark.  Where one does not decode, everything up to the next mark is dropped, and what
      came before is kept. */
  lemma {:induction false} DecodesWireProps(ps: WireProps, junk: seq<byte>, u: Buffer, i: nat)
    requires SoundProps(ps, true) && FirstMark(junk) && At(u, i, PropsBytes(ps, true) + (junk + MARK))
    requires junk != [] ==> DecodeProp(u, i + |PropsBytes(ps, true)|, true).PropError?
    ensures DecodeProps(u, i, true)
            == ListResult(PropsMeaning(ps, true), |PropsBytes(ps, true)| + |junk| + 3, Ended)
    decreases ps, 2
  {
    hide DecodeProps, DecodeProp, AtEndMark, NameBytes, WireBytes, At, Trim, Meaning, Sound, FirstMark, SkipToEndMark;
    match ps {
      case WNil =>
        assert PropsBytes(ps, true) + (junk + MARK) == junk + MARK;
        DropsJunk(junk, u, i);
      case WCons(name, value, rest) =>
        var e := NameBytes(name, true) + WireBytes(value);
        var tail := PropsBytes(rest, true) + (junk + MARK);
        assert PropsBytes(ps, true) + (junk + MARK) == e + tail;
        AtSplit(u, i, e, tail);
        AtFits(u, i + |e|, tail);
        DecodesWireProp(name, value, u, i);
        ReadsOne(u, i, true);
        assert i + |PropsBytes(ps, true)| == i + |e| + |PropsBytes(rest, true)|;
        DecodesWireProps(rest, junk, u, i + |e|);
    }
  }

  lemma DropsJunk(junk: seq<byte>, u: Buffer, i: nat)
    requires FirstMark(junk) && At(u, i, junk + MARK)
    requires junk != [] ==> DecodeProp(u, i, true).PropError?
    ensures DecodeProps(u, i, true) == ListResult(Nil, |junk| + 3, Ended)
  {
    hide DecodeProps, DecodeProp, AtEndMark, SkipToEndMark, FirstMark, At;
    AtFits(u, i, junk + MARK);
    forall j | i <= j <= i + |junk| ensures AtEndMark(u, j) <==> j == i + |junk| {
      MarkInJunk(junk, u, i, j);
    }
    if junk == [] {
      ReadsEnd(u, i, true);
    } else {
      var end := i + |junk|;
      assert AtEndMark(u, end) && !AtEndMark(u, i);
      ReadsNone(u, i, true);
      SkipFindsFirst(u, i);
    }
  }

  lemma MarkInJunk(junk: seq<byte>, u: Buffer, i: nat, j: nat)
    requires FirstMark(junk) && At(u, i, junk + MARK) && i <= j <= i + |junk|
    ensures AtEndMark(u, j) <==> j == i + |junk|
  {
    hide AtEndMark;
    var all, k := junk + MARK, j - i;
    AtIndex(u, i, all);
    assert u[i + k] == all[k] && u[i + (k + 1)] == all[k + 1] && u[i + (k + 2)] == all[k + 2];
    EndIsMark(u, j);
    assert k < |junk| ==> !MarkAt(all, k);
  }

  lemma {:induction false} DecodesWireProp(name: Text, value: Wire, u: Buffer, i: nat)
    requires |name| < 65536 && Sound(value) && At(u, i, NameBytes(name, true) + WireBytes(value))
    requires i + |NameBytes(name, true) + WireBytes(value)| + 3 <= |u|
    ensures i < |u| && !AtEndMark(u, i)
    ensures DecodeProp(u, i, true) == PropOk(Trim(name), Meaning(value), |NameBytes(name, true) + WireBytes(value)|)
    decreases value, 1
  {
    hide DecodeValue, WireBytes, At, Meaning, DecodeInt16, EncodeInt16, Length, Trim, Sound, AtEndMark;
    LengthIs16(name);
    AtSplit(u, i, EncodeInt16(|name|) + name, WireBytes(value));
    TextAt(name, u, i);
    DecodesWire(value, u, i + 2 + |name|);
    FirstByteOf(value);
    NameIsNoMark(name, value, u, i);
  }

  lemma NameIsNoMark(name: Text, value: Wire, u: Buffer, i: nat)
    requires i + 3 + |name| <= |u| && DecodeInt16(u, i) == |name| && At(u, i + 2 + |name|, WireBytes(value))
    ensures !AtEndMark(u, i)
  {
    hide WireBytes;
    FirstByteOf(value);
    AtIndex(u, i + 2 + |name|, WireBytes(value));
    assert u[i + 2 + |name| + 0] == WireBytes(value)[0];
  }

  lemma {:induction false} DecodesWireArray(items: WireProps, u: Buffer, i: nat)
    requires SoundProps(items, false) && At(u, i, PropsBytes(items, false))
    ensures DecodeArray(u, i, Count(items)) == ListResult(PropsMeaning(items, false), |PropsBytes(items, false)|, Ended)
    decreases items, 2
  {
    hide DecodeValue, WireBytes, At, Meaning, Sound;
    if items.WCons? {
      var e, tail := WireBytes(items.value), PropsBytes(items.rest, false);
      assert PropsBytes(items, false) == e + tail;
      AtSplit(u, i, e, tail);
      DecodesWire(items.value, u, i);
      DecodesWireArray(items.rest, u, i + |e|);
    }
  }

  /** No number in a top-level list may start like an end mark. */
  ghost predicate NoneLikeMark(items: WireProps) {
    items.WCons? ==>
      (items.value.WNumber? ==> !(items.value.bits[0] == 0 && items.value.bits[1] == 9)) && NoneLikeMark(items.rest)
  }

  lemma ValueIsNoMark(w: Wire, u: Buffer, i: nat)
    requires At(u, i, WireBytes(w)) && (w.WNumber? ==> !(w.bits[0] == 0 && w.bits[1] == 9))
    ensures i < |u| && !AtEndMark(u, i)
  {
    hide EncodeInt32, ListBytes, PropsBytes, Length;
    AtIndex(u, i, WireBytes(w));
    assert u[i + 0] == WireBytes(w)[0];
    if w.WNumber? {
      assert u[i + 1] == WireBytes(w)[1] && u[i + 2] == WireBytes(w)[2];
    }
  }

  /** A message: values without names up to its last byte. */
  lemma {:induction false} DecodesMessage(items: WireProps, u: Buffer, i: nat)
    requires SoundProps(items, false) && NoneLikeMark(items)
    requires At(u, i, PropsBytes(items, false)) && i + |PropsBytes(items, false)| == |u|
    ensures DecodeProps(u, i, false) == ListResult(PropsMeaning(items, false), |u| - i, Ended)
    decreases items
  {
    hide DecodeValue, WireBytes, At, Meaning, Sound, AtEndMark, SkipToEndMark;
    if items.WCons? {
      var e, tail := WireBytes(items.value), PropsBytes(items.rest, false);
      assert PropsBytes(items, false) == e + tail;
      AtSplit(u, i, e, tail);
      ValueIsNoMark(items.value, u, i);
      DecodesWire(items.value, u, i);
      ReadsOne(u, i, false);
      DecodesMessage(items.rest, u, i + |e|);
    }
  }

  // ---------------------------------------------------------------- the encoder writes a part of it

  function WireOf(v: Value): Wire {
    match v
    case Number(bits) => WNumber(bits)
    case Boolean(b) => WBoolean(if b then 1 else 0)
    case Str(s) => if |s| < 65536 then WString(s) else WLongString(s)
    case Null => WNull
    case Object(props) => WObject(WList(WirePropsOf(props), [], true))
  }

  function WirePropsOf(ps: Props): WireProps {
    match ps
    case Nil => WNil
    case Cons(name, value, rest) => WCons(name, WireOf(value), WirePropsOf(rest))
  }

  /** Strings and names as they are written, whatever is in them; a name goes out with its length modulo 2 to the 16. */
  lemma TextsAreWritten(s: Text, name: Text, v: Value)
    ensures EncodeString(s) == if |s| < 65536 then [0x02] + (Length(s) + s) else [0x0C] + (EncodeInt32(|s|) + s)
    ensures EncodeName(name, v) == if v == Null || name == [] then [] else Length(name) + name
  {
    hide EncodeInt32;
    LengthIs16Always(s);
    LengthIs16Always(name);
    var l := if |s| < 65536 then Length(s) else EncodeInt32(|s|);
    assert [0x02] + l + s == [0x02] + (l + s) && [0x0C] + l + s == [0x0C] + (l + s);
  }

  lemma LengthIs16Always(s: Text)
    ensures Length(s) == EncodeInt16(|s|)
  {
  }

  /** What the encoder writes for a plain value, byte for byte. */
  lemma {:induction false} EncodesWire(v: Value)
    requires Plain(v)
    ensures EncodeValue(v) == WireBytes(WireOf(v)) && Sound(WireOf(v)) && Meaning(WireOf(v)) == Seen(v)
    decreases v
  {
    hide Trim, EncodeInt16, EncodeInt32, Length;
    match v {
      case Str(s) =>
        if |s| < 65536 {
          LengthIs16(s);
          ShortStringShape(s);
        } else {
          LongStringShape(s);
        }
      case Object(props) =>
        EncodesWireProps(props);
        assert EncodeInt24(END_OF_OBJECT) == MARK;
        assert EncodeValue(v) == [0x03] + (EncodeProps(props) + ([] + MARK));
      case _ =>
    }
  }

  lemma {:induction false} EncodesWireProps(ps: Props)
    requires PlainProps(ps)
    ensures EncodeProps(ps) == PropsBytes(WirePropsOf(ps), true) && SoundProps(WirePropsOf(ps), true)
    ensures PropsMeaning(WirePropsOf(ps), true) == SeenProps(ps)
    decreases ps
  {
    hide EncodeValue, WireBytes, Plain, WireOf, Sound, Meaning, Seen, EncodeInt16;
    if ps.Cons? {
      EncodesWire(ps.value);
      EncodesWireProps(ps.rest);
      LengthIs16(ps.name);
      assert Trim(ps.name) == ps.name;
      var a, b, c := NameBytes(ps.name, true), EncodeValue(ps.value), EncodeProps(ps.rest);
      assert a + (b + c) == a + b + c;
    }
  }

  // ---------------------------------------------------------------- nothing else is accepted

  /** As `Sound`, but with undecodable bytes in front of the first end mark, and without the mark where the value
      reaches the end of the buffer. */
  ghost predicate Loose(w: Wire, atEnd: bool) {
    match w
    case WString(s) => |s| < 65536
    case WObject(list) => LooseList(list, atEnd)
    case WMixedArray(_, list) => LooseList(list, atEnd)
    case WArray(count, items) => LooseProps(items, false, atEnd) && Announced(count) == Count(items)
    case WAmf3Null(kind) => kind <= 1
    case _ => true
  }

  ghost predicate LooseProps(ps: WireProps, named: bool, atEnd: bool) {
    ps.WCons? ==>
      && (if named then |ps.name| < 65536 else ps.name == [])
      && Loose(ps.value, atEnd && ps.rest.WNil?)
      && LooseProps(ps.rest, named, atEnd)
  }

  ghost predicate MarkAt(s: seq<byte>, k: nat) {
    k + 3 <= |s| && s[k] == 0 && s[k + 1] == 0 && s[k + 2] == 9
  }

  ghost predicate FirstMark(junk: seq<byte>) {
    forall k :: 0 <= k < |junk| ==> !MarkAt(junk + MARK, k)
  }

  ghost predicate LooseList(list: WireList, atEnd: bool) {
    && LooseProps(list.props, true, atEnd && !list.closed)
    && (if list.closed then FirstMark(list.junk) else atEnd && list.junk == [])
  }

  lemma {:induction false} LooseMore(w: Wire, atEnd: bool)
    requires Loose(w, false)
    ensures Loose(w, atEnd)
    decreases w
  {
    match w {
      case WObject(list) => LoosePropsMore(list.props, true, atEnd && !list.closed);
      case WMixedArray(_, list) => LoosePropsMore(list.props, true, atEnd && !list.closed);
      case WArray(_, items) => LoosePropsMore(items, false, atEnd);
      case _ =>
    }
  }

  lemma {:induction false} LoosePropsMore(ps: WireProps, named: bool, atEnd: bool)
    requires LooseProps(ps, named, false)
    ensures LooseProps(ps, named, atEnd)
    decreases ps
  {
    if ps.WCons? {
      LooseMore(ps.value, atEnd && ps.rest.WNil?);
      LoosePropsMore(ps.rest, named, atEnd);
    }
  }

  /** The search after an error ends behind the first end mark. */
  lemma {:induction false} SkipFindsFirst(u: Buffer, i: nat)
    requires i <= |u|
    ensures var r := SkipToEndMark(u, i);
            if r.ending.Ended? then
              3 <= r.used && i + r.used <= |u| && AtEndMark(u, i + r.used - 3)
              && forall k :: i <= k < i + r.used - 3 ==> !AtEndMark(u, k)
            else r.ending == Failed && r.used == |u| - i && forall k :: i <= k <= |u| ==> !AtEndMark(u, k)
    decreases |u| - i
  {
    hide DecodeInt24;
    if i < |u| && !AtEndMark(u, i) {
      SkipFindsFirst(u, i + 1);
    }
  }

  lemma EndIsMark(u: Buffer, i: nat)
    ensures AtEndMark(u, i) <==> MarkAt(u, i)
  {
  }

  /** What a recovered list drops is bytes without a mark in front of a mark. */
  lemma SkippedIsJunk(u: Buffer, i: nat) returns (junk: seq<byte>)
    requires i <= |u| && SkipToEndMark(u, i).ending.Ended?
    ensures FirstMark(junk) && i + SkipToEndMark(u, i).used <= |u|
    ensures u[i..i + SkipToEndMark(u, i).used] == junk + MARK
  {
    SkipFindsFirst(u, i);
    hide AtEndMark, SkipToEndMark;
    var end := i + SkipToEndMark(u, i).used;
    junk := u[i..end - 3];
    EndIsMark(u, end - 3);
    assert u[i..end] == junk + u[end - 3..end] && u[end - 3..end] == MARK;
    forall k | 0 <= k < |junk| ensures !MarkAt(junk + MARK, k) {
      EndIsMark(u, i + k);
      assert (junk + MARK)[k] == u[i + k] && k + 3 <= |junk + MARK|;
      assert (junk + MARK)[k + 1] == u[i + k + 1] && (junk + MARK)[k + 2] == u[i + k + 2];
    }
  }

  lemma Glue(u: seq<byte>, i: nat, j: nat, k: nat)
    requires i <= j <= k <= |u|
    ensures u[i..j] + u[j..k] == u[i..k]
  {
  }

  lemma ParsesLeaf(u: Buffer, i: nat) returns (w: Wire)
    requires i < |u| && u[i] !in {STRING, LONG_STRING, OBJECT, MIXED_ARRAY, ARRAY}
    requires DecodeValue(u, i).PropOk? && i + DecodeValue(u, i).used <= |u|
    ensures var r := DecodeValue(u, i);
            u[i..i + r.used] == WireBytes(w) && Meaning(w) == r.value && Loose(w, i + r.used == |u|)
  {
    hide DecodeProps, DecodeArray, Trim, DecodeInt16, DecodeInt32, ToInt32;
    w := if u[i] == NUMBER then WNumber(u[i + 1..i + 9])
         else if u[i] == BOOLEAN then WBoolean(u[i + 1])
         else if u[i] == NULL then WNull
         else if u[i] == UNDEFINED then WUndefined
         else if u[i] == DATE then WDate(u[i + 1..i + 9], u[i + 9..i + 11])
         else if u[i + 1] == AMF3_FALSE then WAmf3False
         else if u[i + 1] == AMF3_DOUBLE then WAmf3Double(u[i + 2..i + 10])
         else WAmf3Null(u[i + 1]);
  }

  lemma LengthRead(u: seq<byte>, i: nat)
    requires i + 2 <= |u| && i + 2 + DecodeInt16(u, i) <= |u|
    ensures var n := DecodeInt16(u, i);
            n < 65536 && (n < 0x7fff_fff0 ==> u[i..i + 2 + n] == Length(u[i + 2..i + 2 + n]) + u[i + 2..i + 2 + n])
  {
    var n := DecodeInt16(u, i);
    assert u[i..i + 2] == [n / 0x100 % 0x100, n % 0x100];
    Glue(u, i, i + 2, i + 2 + n);
  }

  lemma LongLengthRead(u: Buffer, i: nat)
    requires i + 4 <= |u| && i + 4 + DecodeInt32(u, i) <= |u|
    ensures var n := DecodeInt32(u, i);
            u[i..i + 4 + n] == EncodeInt32(n) + u[i + 4..i + 4 + n]
  {
    var n := DecodeInt32(u, i);
    Bytes32(u[i], u[i + 1], u[i + 2], u[i + 3]);
    assert u[i..i + 4] == EncodeInt32(n);
    Glue(u, i, i + 4, i + 4 + n);
  }

  lemma Bytes32(a: byte, b: byte, c: byte, d: byte)
    ensures EncodeInt32(a * 0x100_0000 + b * 0x1_0000 + c * 0x100 + d) == [a, b, c, d]
  {
    var n := a * 0x100_0000 + b * 0x1_0000 + c * 0x100 + d;
    DivModUnique(n, a, b * 0x1_0000 + c * 0x100 + d, 0x100_0000);
    DivModUnique(n, a * 0x100 + b, c * 0x100 + d, 0x1_0000);
    DivModUnique(a * 0x100 + b, a, b, 0x100);
    DivModUnique(n, (a * 0x100 + b) * 0x100 + c, d, 0x100);
    DivModUnique((a * 0x100 + b) * 0x100 + c, a * 0x100 + b, c, 0x100);
  }

  /** Whatever decodes inside its buffer is a value of the grammar, and is read as it is meant. */
  lemma {:induction false} Parses(u: Buffer, i: nat) returns (w: Wire)
    requires DecodeValue(u, i).PropOk? && i + DecodeValue(u, i).used <= |u|
    ensures var r := DecodeValue(u, i);
            u[i..i + r.used] == WireBytes(w) && Meaning(w) == r.value && Loose(w, i + r.used == |u|)
    decreases |u| - i, 0
  {
    hide DecodeValue, ListBytes, PropsBytes, PropsMeaning, LooseList, LooseProps, Announced, WireBytes, Meaning,
      DecodeProps, DecodeArray;
    ValueKinds(u, i);
    if u[i] == OBJECT {
      var list := ParsesList(u, i + 1);
      w := WObject(list);
      ObjectShape(u, i, list);
    } else if u[i] == MIXED_ARRAY {
      var list := ParsesList(u, i + 5);
      w := WMixedArray(u[i + 1..i + 5], list);
      MixedShape(u, i, list);
    } else if u[i] == ARRAY {
      var count: Four := u[i + 1..i + 5];
      CountAt(u, i, count);
      var items := ParsesArray(u, i + 5, Announced(count));
      w := WArray(count, items);
      ArrayShape(u, i, count, items);
    } else if u[i] == STRING {
      w := ParsesShort(u, i);
    } else if u[i] == LONG_STRING {
      w := ParsesLong(u, i);
    } else {
      w := ParsesLeaf(u, i);
    }
  }

  /** What stands behind the markers of the three kinds with values inside. */
  lemma ValueKinds(u: Buffer, i: nat)
    requires DecodeValue(u, i).PropOk?
    ensures i < |u|
    ensures var r := DecodeValue(u, i);
            && (u[i] == OBJECT ==> r == AsObject(DecodeProps(u, i + 1, true), 1))
            && (u[i] == MIXED_ARRAY ==> r == AsObject(DecodeProps(u, i + 5, true), 5))
            && (u[i] == ARRAY ==> i + 5 <= |u|)
            && (u[i] == ARRAY ==> r == AsObject(DecodeArray(u, i + 5, Announced(u[i + 1..i + 5])), 5))
  {
    hide DecodeProps, DecodeArray, Trim, DecodeInt16, Announced;
    if u[i] == ARRAY {
      CountAt(u, i, u[i + 1..i + 5]);
    }
  }

  lemma FiveAndRest(u: seq<byte>, i: nat, end: nat)
    requires i + 5 <= end <= |u|
    ensures u[i..end] == [u[i]] + (u[i + 1..i + 5] + u[i + 5..end])
  {
  }

  lemma ObjectShape(u: Buffer, i: nat, list: WireList)
    requires i < |u| && u[i] == OBJECT && DecodeValue(u, i) == AsObject(DecodeProps(u, i + 1, true), 1)
    requires var r := DecodeProps(u, i + 1, true);
             && r.ending.Ended? && i + 1 + r.used <= |u| && u[i + 1..i + 1 + r.used] == ListBytes(list)
             && PropsMeaning(list.props, true) == r.props
    ensures var r := DecodeValue(u, i);
            i + r.used <= |u| && u[i..i + r.used] == WireBytes(WObject(list)) && Meaning(WObject(list)) == r.value
  {
    hide DecodeValue, DecodeProps, ListBytes, PropsMeaning;
    Glue(u, i, i + 1, i + DecodeValue(u, i).used);
  }

  lemma MixedShape(u: Buffer, i: nat, list: WireList)
    requires i + 5 <= |u| && u[i] == MIXED_ARRAY && DecodeValue(u, i) == AsObject(DecodeProps(u, i + 5, true), 5)
    requires var r := DecodeProps(u, i + 5, true);
             && r.ending.Ended? && i + 5 + r.used <= |u| && u[i + 5..i + 5 + r.used] == ListBytes(list)
             && PropsMeaning(list.props, true) == r.props
    ensures var r, w := DecodeValue(u, i), WMixedArray(u[i + 1..i + 5], list);
            i + r.used <= |u| && u[i..i + r.used] == WireBytes(w) && Meaning(w) == r.value
  {
    hide DecodeValue, DecodeProps, ListBytes, PropsMeaning;
    FiveAndRest(u, i, i + DecodeValue(u, i).used);
  }

  lemma ArrayShape(u: Buffer, i: nat, count: Four, items: WireProps)
    requires i + 5 <= |u| && u[i] == ARRAY && count == u[i + 1..i + 5]
    requires DecodeValue(u, i) == AsObject(DecodeArray(u, i + 5, Announced(count)), 5)
    requires var r := DecodeArray(u, i + 5, Announced(count));
             && r.ending.Ended? && i + 5 + r.used <= |u| && u[i + 5..i + 5 + r.used] == PropsBytes(items, false)
             && PropsMeaning(items, false) == r.props
    ensures var r, w := DecodeValue(u, i), WArray(count, items);
            i + r.used <= |u| && u[i..i + r.used] == WireBytes(w) && Meaning(w) == r.value
  {
    hide DecodeValue, DecodeArray, PropsBytes, PropsMeaning, Announced;
    FiveAndRest(u, i, i + DecodeValue(u, i).used);
  }

  lemma ParsesShort(u: Buffer, i: nat) returns (w: Wire)
    requires i < |u| && u[i] == STRING && DecodeValue(u, i).PropOk?
    ensures var r := DecodeValue(u, i);
            && i + r.used <= |u| && u[i..i + r.used] == WireBytes(w) && Meaning(w) == r.value
            && w.WString? && |w.s| < 65536
  {
    hide DecodeProps, DecodeArray, Trim, DecodeInt32, Length;
    var n := DecodeInt16(u, i + 1);
    w := WString(u[i + 3..i + 3 + n]);
    LengthRead(u, i + 1);
    Glue(u, i, i + 1, i + 3 + n);
  }

  lemma ParsesLong(u: Buffer, i: nat) returns (w: Wire)
    requires i < |u| && u[i] == LONG_STRING && DecodeValue(u, i).PropOk?
    ensures var r := DecodeValue(u, i);
            i + r.used <= |u| && u[i..i + r.used] == WireBytes(w) && Meaning(w) == r.value && w.WLongString?
  {
    hide DecodeProps, DecodeArray, Trim, DecodeInt32, EncodeInt32;
    var n := DecodeInt32(u, i + 1);
    var s: Text := u[i + 5..i + 5 + n];
    w := WLongString(s);
    LongLengthRead(u, i + 1);
    Glue(u, i, i + 1, i + 5 + n);
    SliceOfSlice(u, i + 1, 4 + n, 2, n);
  }

  lemma {:induction false} ParsesList(u: Buffer, i: nat) returns (list: WireList)
    requires DecodeProps(u, i, true).ending.Ended? && i + DecodeProps(u, i, true).used <= |u|
    ensures var r := DecodeProps(u, i, true);
            && u[i..i + r.used] == ListBytes(list) && PropsMeaning(list.props, true) == r.props
            && LooseList(list, i + r.used == |u|)
    decreases |u| - i, 2
  {
    hide ListBytes, LooseList, DecodeProp, DecodeProps, SkipToEndMark, AtEndMark, FirstMark, WireBytes, Meaning,
      Loose, Trim;
    NothingBehind(u, i);
    if i == |u| {
      list := WList(WNil, [], false);
      NilList([], false, true);
    } else if AtEndMark(u, i) {
      ReadsEnd(u, i, true);
      EndIsMark(u, i);
      list := WList(WNil, [], true);
      NoJunk();
      NilList([], true, i + 3 == |u|);
      assert u[i..i + 3] == MARK;
    } else {
      var p := DecodeProp(u, i, true);
      if p.PropOk? {
        ReadsOne(u, i, true);
        var name, value := ParsesProp(u, i);
        var rest := ParsesList(u, i + p.used);
        list := WList(WCons(name, value, rest.props), rest.junk, rest.closed);
        Glue(u, i, i + p.used, i + DecodeProps(u, i, true).used);
        ListGrows(name, value, rest);
        NothingBehind(u, i + p.used);
        if i + p.used == |u| {
          NothingIsNil(rest);
        }
        LooseCons(name, value, rest, i + p.used == |u|, i + DecodeProps(u, i, true).used == |u|);
      } else {
        ReadsNone(u, i, true);
        var junk := SkippedIsJunk(u, i);
        list := WList(WNil, junk, true);
        NilList(junk, true, i + DecodeProps(u, i, true).used == |u|);
      }
    }
  }

  lemma LooseCons(name: Text, value: Wire, rest: WireList, valueAtEnd: bool, atEnd: bool)
    requires |name| < 65536 && Loose(value, valueAtEnd) && LooseList(rest, atEnd)
    requires valueAtEnd ==> atEnd && rest.props == WNil && !rest.closed
    ensures LooseList(WList(WCons(name, value, rest.props), rest.junk, rest.closed), atEnd)
  {
    hide Loose, FirstMark;
    if !valueAtEnd {
      LooseMore(value, true);
    }
  }

  lemma NilList(junk: seq<byte>, closed: bool, atEnd: bool)
    requires if closed then FirstMark(junk) else atEnd && junk == []
    ensures var list := WList(WNil, junk, closed);
            LooseList(list, atEnd) && ListBytes(list) == if closed then junk + MARK else []
  {
    hide FirstMark;
  }

  lemma NoJunk()
    ensures FirstMark([])
  {
  }

  lemma NothingIsNil(list: WireList)
    requires |ListBytes(list)| == 0
    ensures list.props == WNil && !list.closed && list.junk == []
  {
    hide WireBytes;
    if list.props.WCons? {
      FirstByteOf(list.props.value);
    }
  }

  lemma ListGrows(name: Text, value: Wire, rest: WireList)
    ensures ListBytes(WList(WCons(name, value, rest.props), rest.junk, rest.closed))
            == (NameBytes(name, true) + WireBytes(value)) + ListBytes(rest)
  {
    hide WireBytes, NameBytes;
    var a, b, c, d := NameBytes(name, true), WireBytes(value), PropsBytes(rest.props, true),
      rest.junk + if rest.closed then MARK else [];
    Regroup4(a, b, c, d);
  }

  lemma Regroup4(a: seq<byte>, b: seq<byte>, c: seq<byte>, d: seq<byte>)
    ensures (a + (b + c)) + d == (a + b) + (c + d)
  {
  }

  lemma NothingBehind(u: Buffer, i: nat)
    ensures i == |u| ==> DecodeProps(u, i, true) == ListResult(Nil, 0, Ended)
    ensures i > |u| ==> DecodeProps(u, i, true).used == 0
  {
  }

  lemma {:induction false} ParsesProp(u: Buffer, i: nat) returns (name: Text, value: Wire)
    requires DecodeProp(u, i, true).PropOk? && i + DecodeProp(u, i, true).used <= |u|
    ensures var p := DecodeProp(u, i, true);
            && u[i..i + p.used] == NameBytes(name, true) + WireBytes(value) && |name| < 65536
            && p.name == Trim(name) && p.value == Meaning(value) && Loose(value, i + p.used == |u|)
    decreases |u| - i, 1
  {
    hide DecodeValue, DecodeInt16, WireBytes, Meaning, Loose, Trim, Length;
    var n := DecodeInt16(u, i);
    name := u[i + 2..i + 2 + n];
    LengthRead(u, i);
    value := Parses(u, i + 2 + n);
    Glue(u, i, i + 2 + n, i + DecodeProp(u, i, true).used);
  }

  lemma {:induction false} ParsesArray(u: Buffer, i: nat, count: nat) returns (items: WireProps)
    requires DecodeArray(u, i, count).ending.Ended? && i + DecodeArray(u, i, count).used <= |u|
    ensures var r := DecodeArray(u, i, count);
            && u[i..i + r.used] == PropsBytes(items, false) && PropsMeaning(items, false) == r.props
            && Count(items) == count && LooseProps(items, false, i + r.used == |u|)
    decreases |u| - i, 2
  {
    hide DecodeValue, WireBytes, Meaning, Loose;
    if count == 0 {
      items := WNil;
    } else {
      var p := DecodeProp(u, i, false);
      var value := Parses(u, i);
      var rest := ParsesArray(u, i + p.used, count - 1);
      items := WCons([], value, rest);
      Glue(u, i, i + p.used, i + DecodeArray(u, i, count).used);
      if i + p.used == |u| {
        assert |PropsBytes(rest, false)| == 0;
        NothingIsNoItem(rest);
      } else {
        LooseMore(value, true);
      }
    }
  }

  lemma NothingIsNoItem(ps: WireProps)
    requires |PropsBytes(ps, false)| == 0
    ensures ps == WNil
  {
    hide WireBytes;
    if ps.WCons? {
      FirstByteOf(ps.value);
    }
  }
}
