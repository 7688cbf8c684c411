/** Decoding undoes encoding: on which values, and on no others. */
module AmfRoundTrip {
  import opened Bytes
  import opened Amf

  // ---------------------------------------------------------------- what comes back

  /** A long string is written with a four-byte length but read from two bytes too early. */
  function Garbled(s: Text): Text {
    if |s| < 65536 then Trim(s) else Trim((EncodeInt32(|s|) + s)[2..2 + |s|])
  }

  /** The value the decoder rebuilds from an encoding it can follow. */
  function Seen(v: Value): Value {
    match v
    case Str(s) => Str(Garbled(s))
    case Object(props) => Object(SeenProps(props))
    case _ => v
  }

  function SeenProps(ps: Props): Props {
    match ps
    case Nil => Nil
    case Cons(name, value, rest) => Cons(name, Seen(value), SeenProps(rest))
  }

  function Append(ps: Props, qs: Props): Props {
    match ps
    case Nil => qs
    case Cons(name, value, rest) => Cons(name, value, Append(rest, qs))
  }

  // ---------------------------------------------------------------- conditions on the caller's values

  ghost predicate NoTrailingNul(s: Text) {
    s != [] ==> s[|s| - 1] != 0
  }

  /** Strings end in no NUL; properties have proper names and values that are not null. */
  ghost predicate Plain(v: Value) {
    match v
    case Str(s) => NoTrailingNul(s)
    case Object(props) => PlainProps(props)
    case _ => true
  }

  ghost predicate PlainProps(ps: Props) {
    match ps
    case Nil => true
    case Cons(name, value, rest) =>
      1 <= |name| < 65536 && NoTrailingNul(name) && value != Null && Plain(value) && PlainProps(rest)
  }

  /** A number whose encoding starts like an end mark. */
  ghost predicate LooksLikeEnd(v: Value) {
    v.Number? && v.bits[0] == 0 && v.bits[1] == END_OF_OBJECT
  }

  /** A top-level list: no names, plain values, no number that reads as an end mark. */
  ghost predicate PlainList(ps: Props) {
    match ps
    case Nil => true
    case Cons(name, value, rest) => name == [] && Plain(value) && !LooksLikeEnd(value) && PlainList(rest)
  }

  lemma PropsUnfold(name: Text, value: Value, rest: Props)
    ensures EncodeProps(Cons(name, value, rest)) == EncodeName(name, value) + EncodeValue(value) + EncodeProps(rest)
    ensures EncodeProps(Nil) == []
    ensures name == [] ==> EncodeName(name, value) == []
  {
  }

  // ---------------------------------------------------------------- decoding an encoding

  /** Where the parts of a length-prefixed text are found. */
  lemma TextAt(s: Text, u: seq<byte>, i: nat)
    requires |s| < 65536 && At(u, i, EncodeInt16(|s|) + s)
    ensures i + 2 + |s| <= |u|
    ensures DecodeInt16(u, i) == |s| && u[i + 2..i + 2 + |s|] == s
  {
    hide EncodeInt16, DecodeInt16;
    AtSplit(u, i, EncodeInt16(|s|), s);
    RoundTrip16(|s|, u, i);
  }

  lemma LongTextAt(s: Text, u: seq<byte>, i: nat)
    requires At(u, i, EncodeInt32(|s|) + s)
    ensures i + 4 + |s| <= |u|
    ensures DecodeInt32(u, i) == |s| && u[i + 2..i + 2 + |s|] == (EncodeInt32(|s|) + s)[2..2 + |s|]
  {
    hide EncodeInt32, DecodeInt32;
    var w := EncodeInt32(|s|) + s;
    AtSplit(u, i, EncodeInt32(|s|), s);
    RoundTrip32(|s|, u, i);
    assert u[i..i + |w|] == w;
    SliceOfSlice(u, i, |w|, 2, |s|);
  }

  lemma SliceOfSlice(u: seq<byte>, i: nat, n: nat, from: nat, m: nat)
    requires i + n <= |u| && from + m <= n
    ensures u[i..i + n][from..from + m] == u[i + from..i + from + m]
  {
    var part := u[i..i + n];
    var a, b := part[from..from + m], u[i + from..i + from + m];
    forall k | 0 <= k < m ensures a[k] == b[k] {
      assert part[from + k] == u[i + from + k];
    }
  }

  lemma ReadsString(u: Buffer, i: nat)
    requires i + 3 <= |u| && u[i] == STRING
    ensures i + 3 + DecodeInt16(u, i + 1) <= |u| ==>
              DecodeValue(u, i)
              == PropOk([], Str(Trim(u[i + 3..i + 3 + DecodeInt16(u, i + 1)])), 3 + DecodeInt16(u, i + 1))
  {
    hide DecodeProps, DecodeArray, Trim, DecodeInt16, DecodeInt32;
  }

  lemma ShortStringShape(s: Text)
    requires |s| < 65536
    ensures EncodeString(s) == [STRING] + (EncodeInt16(|s|) + s)
    ensures Garbled(s) == Trim(s)
  {
    hide Trim, EncodeInt16;
  }

  lemma DecodesShortString(s: Text, u: Buffer, i: nat)
    requires |s| < 65536 && At(u, i, EncodeString(s))
    ensures DecodeValue(u, i) == PropOk([], Str(Garbled(s)), |EncodeString(s)|)
  {
    hide DecodeValue, EncodeString, Garbled, Trim, EncodeInt16, DecodeInt16, At;
    ShortStringShape(s);
    FirstByteAt(STRING, EncodeInt16(|s|) + s, u, i);
    TextAt(s, u, i + 1);
    ReadsString(u, i);
  }

  lemma LongStringShape(s: Text)
    requires |s| >= 65536
    ensures EncodeString(s) == [LONG_STRING] + (EncodeInt32(|s|) + s)
    ensures Garbled(s) == Trim((EncodeInt32(|s|) + s)[2..2 + |s|])
  {
    assert [LONG_STRING] + EncodeInt32(|s|) + s == [LONG_STRING] + (EncodeInt32(|s|) + s);
  }

  /** The long-string branch of the decoder. */
  lemma DecodesLongText(u: Buffer, i: nat, n: nat)
    requires i + 5 + n <= |u| && u[i] == LONG_STRING && DecodeInt32(u, i + 1) == n
    ensures DecodeValue(u, i) == PropOk([], Str(Trim(u[i + 3..i + 3 + n])), 5 + n)
  {
    hide DecodeProps, DecodeArray, Trim, DecodeInt16, DecodeInt32;
  }

  lemma DecodesLongString(s: Text, u: Buffer, i: nat)
    requires |s| >= 65536 && At(u, i, EncodeString(s))
    ensures DecodeValue(u, i) == PropOk([], Str(Garbled(s)), |EncodeString(s)|)
  {
    hide DecodeValue, Trim, EncodeString, Garbled, EncodeInt32, DecodeInt32, At;
    LongStringShape(s);
    FirstByteAt(LONG_STRING, EncodeInt32(|s|) + s, u, i);
    LongTextAt(s, u, i + 1);
    DecodesLongText(u, i, |s|);
  }

  lemma EndMarkAt(u: Buffer, i: nat)
    requires At(u, i, EncodeInt24(END_OF_OBJECT))
    ensures AtEndMark(u, i)
  {
    RoundTrip24(END_OF_OBJECT, u, i);
  }

  lemma {:induction false} DecodesValue(v: Value, u: Buffer, i: nat)
    requires Plain(v) && At(u, i, EncodeValue(v))
    ensures DecodeValue(u, i) == PropOk([], Seen(v), |EncodeValue(v)|)
    decreases v, 0
  {
    hide DecodeProps, DecodeArray, EncodeString, Garbled, AtEndMark;
    match v {
      case Number(bits) =>
        FirstByteAt(NUMBER, bits, u, i);
        assert u[i + 1..i + 1 + 8] == bits;
      case Boolean(b) =>
        AtIndex(u, i, EncodeValue(v));
        assert u[i + 0] == BOOLEAN && u[i + 1] == if b then 1 else 0;
      case Str(s) =>
        if |s| < 65536 {
          DecodesShortString(s, u, i);
        } else {
          DecodesLongString(s, u, i);
        }
      case Null =>
        AtIndex(u, i, EncodeValue(v));
        assert u[i + 0] == NULL;
      case Object(props) =>
        var body := EncodeProps(props) + EncodeInt24(END_OF_OBJECT);
        assert EncodeValue(v) == [OBJECT] + body;
        FirstByteAt(OBJECT, body, u, i);
        DecodesProps(props, u, i + 1);
    }
  }

  lemma NotEndOfNames(u: Buffer, i: nat)
    requires i + 3 <= |u| && DecodeInt16(u, i) > 0
    ensures !AtEndMark(u, i)
  {
  }

  /** A written name is read back, and is not taken for an end mark. */
  lemma DecodesName(name: Text, value: Value, u: Buffer, i: nat)
    requires 1 <= |name| < 65536 && NoTrailingNul(name) && value != Null
    requires At(u, i, EncodeName(name, value)) && DecodeValue(u, i + 2 + |name|).PropOk?
    requires i + 4 <= |u|
    ensures var r := DecodeValue(u, i + 2 + |name|);
            DecodeProp(u, i, true) == PropOk(name, r.value, 2 + |name| + r.used)
    ensures !AtEndMark(u, i)
  {
    hide DecodeValue, DecodeInt16, At;
    TextAt(name, u, i);
    NotEndOfNames(u, i);
  }

  /** One property read, and the rest behind it. */
  lemma ReadsOne(u: Buffer, i: nat, named: bool)
    requires i < |u| && !AtEndMark(u, i) && DecodeProp(u, i, named).PropOk?
    ensures var p := DecodeProp(u, i, named);
            var r := DecodeProps(u, i + p.used, named);
            DecodeProps(u, i, named) == ListResult(Cons(p.name, p.value, r.props), p.used + r.used, r.ending)
  {
    hide DecodeProp, AtEndMark;
  }

  /** A property that cannot be read. */
  lemma ReadsNone(u: Buffer, i: nat, named: bool)
    requires i < |u| && !AtEndMark(u, i) && !DecodeProp(u, i, named).PropOk?
    ensures DecodeProps(u, i, named)
            == match DecodeProp(u, i, named)
               case PropError => SkipToEndMark(u, i)
               case PropOverrun => ListResult(Nil, 0, Overran)
               case _ => ListResult(Nil, 0, HandedOver)
  {
    hide DecodeProp, AtEndMark;
  }

  lemma ReadsEnd(u: Buffer, i: nat, named: bool)
    requires AtEndMark(u, i)
    ensures DecodeProps(u, i, named) == ListResult(Nil, 3, Ended)
  {
  }

  lemma {:induction false} DecodesProp(name: Text, value: Value, u: Buffer, i: nat)
    requires 1 <= |name| < 65536 && NoTrailingNul(name) && value != Null && Plain(value)
    requires At(u, i, EncodeName(name, value) + EncodeValue(value))
    ensures i < |u| && !AtEndMark(u, i)
    ensures DecodeProp(u, i, true) == PropOk(name, Seen(value), |EncodeName(name, value) + EncodeValue(value)|)
    decreases value, 1
  {
    hide DecodeValue, DecodeProp, AtEndMark, EncodeValue, At, Seen, Plain;
    AtSplit(u, i, EncodeName(name, value), EncodeValue(value));
    AtFits(u, i + 2 + |name|, EncodeValue(value));
    EncodingIsNotEmpty(value);
    DecodesValue(value, u, i + 2 + |name|);
    DecodesName(name, value, u, i);
  }

  lemma EncodingIsNotEmpty(v: Value)
    ensures |EncodeValue(v)| >= 1
  {
  }

  lemma {:induction false} DecodesProps(ps: Props, u: Buffer, i: nat)
    requires PlainProps(ps) && At(u, i, EncodeProps(ps) + EncodeInt24(END_OF_OBJECT))
    ensures DecodeProps(u, i, true) == ListResult(SeenProps(ps), |EncodeProps(ps)| + 3, Ended)
    decreases ps, 2
  {
    hide DecodeProps, DecodeValue, DecodeProp, AtEndMark, EncodeValue, EncodeName, EncodeInt24, At;
    match ps {
      case Nil =>
        assert [] + EncodeInt24(END_OF_OBJECT) == EncodeInt24(END_OF_OBJECT);
        EndMarkAt(u, i);
        ReadsEnd(u, i, true);
      case Cons(name, value, rest) =>
        var e := EncodeName(name, value) + EncodeValue(value);
        var tail := EncodeProps(rest) + EncodeInt24(END_OF_OBJECT);
        assert EncodeProps(ps) + EncodeInt24(END_OF_OBJECT) == e + tail;
        AtSplit(u, i, e, tail);
        DecodesProp(name, value, u, i);
        ReadsOne(u, i, true);
        DecodesProps(rest, u, i + |e|);
    }
  }

  lemma NotEndMark(v: Value, u: Buffer, i: nat)
    requires !LooksLikeEnd(v) && At(u, i, EncodeValue(v))
    ensures !AtEndMark(u, i)
  {
    hide EncodeProps, EncodeInt16, EncodeInt32, EncodeInt24;
    var e := EncodeValue(v);
    AtIndex(u, i, e);
    assert u[i + 0] == e[0];
    if v.Number? {
      assert u[i + 1] == e[1] == v.bits[0];
      assert u[i + 2] == e[2] == v.bits[1];
    }
  }

  /** A plain top-level list is read back from the front of any buffer, and reading goes on
      with whatever follows it. */
  lemma {:induction false} DecodesList(ps: Props, u: Buffer, i: nat)
    requires PlainList(ps) && At(u, i, EncodeProps(ps))
    ensures var after := DecodeProps(u, i + |EncodeProps(ps)|, false);
            DecodeProps(u, i, false)
              == ListResult(Append(SeenProps(ps), after.props), |EncodeProps(ps)| + after.used, after.ending)
  {
    hide DecodeValue, SkipToEndMark, DecodeArray, EncodeValue, AtEndMark;
    if ps.Cons? {
      var e := EncodeValue(ps.value);
      assert EncodeProps(ps) == e + EncodeProps(ps.rest);
      AtSplit(u, i, e, EncodeProps(ps.rest));
      NotEndMark(ps.value, u, i);
      DecodesValue(ps.value, u, i);
      DecodesList(ps.rest, u, i + |e|);
    }
  }

  // ---------------------------------------------------------------- nothing is gained

  /** The bytes a faithful encoding of a value would take: every name and every byte of text. */
  ghost function Size(v: Value): nat {
    match v
    case Number(_) => 9
    case Boolean(_) => 2
    case Str(s) => if |s| < 65536 then 3 + |s| else 5 + |s|
    case Null => 1
    case Object(props) => 4 + SizeProps(props)
  }

  ghost function SizeProps(ps: Props): nat {
    match ps
    case Nil => 0
    case Cons(name, value, rest) => (if name == [] then 0 else 2 + |name|) + Size(value) + SizeProps(rest)
  }

  /** No null value hides behind a name. */
  ghost predicate NoNamedNull(v: Value) {
    v.Object? ==> NoNamedNullProps(v.props)
  }

  ghost predicate NoNamedNullProps(ps: Props) {
    ps.Cons? ==> (ps.name == [] || ps.value != Null) && NoNamedNull(ps.value) && NoNamedNullProps(ps.rest)
  }

  lemma {:induction false} EncodingFits(v: Value)
    ensures |EncodeValue(v)| <= Size(v)
    ensures |EncodeValue(v)| == Size(v) ==> NoNamedNull(v)
  {
    if v.Object? {
      EncodingFitsProps(v.props);
    }
  }

  lemma {:induction false} EncodingFitsProps(ps: Props)
    ensures |EncodeProps(ps)| <= SizeProps(ps)
    ensures |EncodeProps(ps)| == SizeProps(ps) ==> NoNamedNullProps(ps)
  {
    if ps.Cons? {
      EncodingFits(ps.value);
      EncodingFitsProps(ps.rest);
    }
  }

  /** A value read without losing a byte has no empty names and no trailing NULs. */
  ghost predicate Clean(v: Value) {
    match v
    case Str(s) => NoTrailingNul(s)
    case Object(props) => CleanProps(props)
    case _ => true
  }

  ghost predicate CleanProps(ps: Props) {
    ps.Cons? ==> 1 <= |ps.name| < 65536 && NoTrailingNul(ps.name) && Clean(ps.value) && CleanProps(ps.rest)
  }

  /** One NUL goes, and no more than one. */
  lemma TrimDropsOneNul(s: Text)
    requires |s| + 1 < 0x7fff_fff0
    ensures Trim(s + [0]) == s && (NoTrailingNul(s) ==> Trim(s) == s)
  {
  }

  lemma TrimShortens(s: Text)
    ensures |Trim(s)| <= |s|
    ensures |Trim(s)| == |s| ==> NoTrailingNul(Trim(s))
  {
  }

  /** A value read without reaching the end of the buffer is no larger than what was read. */
  lemma {:induction false} DecodingLoses(u: Buffer, i: nat)
    requires DecodeValue(u, i).PropOk? && i + DecodeValue(u, i).used < |u|
    ensures var r := DecodeValue(u, i);
            Size(r.value) <= r.used && (Size(r.value) == r.used ==> Clean(r.value))
    decreases |u| - i, 0
  {
    hide DecodeProps, DecodeArray, Trim, DecodeInt16, DecodeInt32, ToInt32;
    var p := i + 1;
    if u[i] == STRING {
      TrimShortens(u[p + 2..p + 2 + DecodeInt16(u, p)]);
    } else if u[i] == LONG_STRING {
      TrimShortens(u[p + 2..p + 2 + DecodeInt32(u, p)]);
    } else if u[i] == OBJECT {
      DecodingLosesProps(u, p);
    } else if u[i] == MIXED_ARRAY {
      DecodingLosesProps(u, p + 4);
    } else if u[i] == ARRAY {
      var count := ToInt32(DecodeInt32(u, p));
      DecodingLosesArray(u, p + 4, if count > 0 then count else 0);
    }
  }

  lemma {:induction false} DecodingLosesProps(u: Buffer, i: nat)
    requires DecodeProps(u, i, true).ending.Ended? && i + DecodeProps(u, i, true).used < |u|
    ensures var r := DecodeProps(u, i, true);
            SizeProps(r.props) + 3 <= r.used && (SizeProps(r.props) + 3 == r.used ==> CleanProps(r.props))
    decreases |u| - i, 2
  {
    hide DecodeValue, Trim, AtEndMark;
    if !AtEndMark(u, i) {
      var p := DecodeProp(u, i, true);
      if p.PropOk? {
        var n := DecodeInt16(u, i);
        DecodingLoses(u, i + 2 + n);
        TrimShortens(u[i + 2..i + 2 + n]);
        DecodingLosesProps(u, i + p.used);
      }
    }
  }

  lemma {:induction false} DecodingLosesArray(u: Buffer, i: nat, count: nat)
    requires DecodeArray(u, i, count).ending.Ended? && i + DecodeArray(u, i, count).used < |u|
    ensures SizeProps(DecodeArray(u, i, count).props) <= DecodeArray(u, i, count).used
    decreases |u| - i, 2
  {
    hide DecodeValue;
    if count > 0 {
      var p := DecodeProp(u, i, false);
      DecodingLoses(u, i);
      DecodingLosesArray(u, i + p.used, count - 1);
    }
  }

  /** A list none of whose values lost a byte or reads as an end mark. */
  ghost predicate CleanList(ps: Props) {
    ps.Cons? ==> Clean(ps.value) && !LooksLikeEnd(ps.value) && CleanList(ps.rest)
  }

  /** A top-level list that stopped before the end of the buffer is no larger than what was read either. */
  lemma {:induction false} DecodingLosesList(u: Buffer, i: nat)
    requires DecodeProps(u, i, false).ending.Ended? && i + DecodeProps(u, i, false).used < |u|
    ensures var r := DecodeProps(u, i, false);
            SizeProps(r.props) + 3 <= r.used && (SizeProps(r.props) + 3 == r.used ==> CleanList(r.props))
    decreases |u| - i
  {
    hide DecodeValue, Size, Clean, LooksLikeEnd;
    if !AtEndMark(u, i) {
      var p := DecodeProp(u, i, false);
      if p.PropOk? {
        DecodingLoses(u, i);
        NumberLooksLikeEnd(u, i);
        DecodingLosesList(u, i + p.used);
      }
    }
  }

  lemma NumberLooksLikeEnd(u: Buffer, i: nat)
    requires DecodeValue(u, i).PropOk?
    ensures LooksLikeEnd(DecodeValue(u, i).value)
            ==> AtEndMark(u, i) || DecodeValue(u, i).used > Size(DecodeValue(u, i).value)
  {
  }

  // ---------------------------------------------------------------- the exact condition

  /** A long string survives its own decoder: it repeats the two low bytes of its length. */
  ghost predicate EchoesLength(s: Text) {
    |s| >= 65536 ==>
      && s[0] == |s| / 0x100 % 0x100 && s[1] == |s| % 0x100
      && forall k :: 2 <= k < |s| ==> s[k] == s[k - 2]
  }

  ghost predicate Echoing(v: Value) {
    match v
    case Str(s) => EchoesLength(s)
    case Object(props) => EchoingProps(props)
    case _ => true
  }

  ghost predicate EchoingProps(ps: Props) {
    ps.Cons? ==> Echoing(ps.value) && EchoingProps(ps.rest)
  }

  ghost predicate Unnamed(ps: Props) {
    ps.Cons? ==> ps.name == [] && Unnamed(ps.rest)
  }

  /** The window the decoder takes of a long string's length and bytes. */
  lemma LongWindow(s: Text)
    requires |s| >= 65536
    ensures var t := (EncodeInt32(|s|) + s)[2..2 + |s|];
            && t[0] == |s| / 0x100 % 0x100 && t[1] == |s| % 0x100
            && forall k :: 2 <= k < |s| ==> t[k] == s[k - 2]
  {
  }

  lemma GarbledIsSame(s: Text)
    requires NoTrailingNul(s)
    ensures Garbled(s) == s <==> EchoesLength(s)
  {
    hide EncodeInt32;
    if |s| >= 65536 {
      LongWindow(s);
      var t := (EncodeInt32(|s|) + s)[2..2 + |s|];
      TrimShortens(t);
      assert t == s <==> EchoesLength(s);
    }
  }

  lemma {:induction false} SeenIsSame(v: Value)
    requires Plain(v)
    ensures Seen(v) == v <==> Echoing(v)
  {
    hide Garbled, EchoesLength;
    match v {
      case Str(s) => GarbledIsSame(s);
      case Object(props) => SeenPropsIsSame(props);
      case _ =>
    }
  }

  lemma {:induction false} SeenPropsIsSame(ps: Props)
    requires PlainProps(ps)
    ensures SeenProps(ps) == ps <==> EchoingProps(ps)
  {
    if ps.Cons? {
      SeenIsSame(ps.value);
      SeenPropsIsSame(ps.rest);
    }
  }

  lemma {:induction false} SeenListIsSame(ps: Props)
    requires PlainList(ps)
    ensures SeenProps(ps) == ps <==> EchoingProps(ps)
  {
    if ps.Cons? {
      SeenIsSame(ps.value);
      SeenListIsSame(ps.rest);
    }
  }

  lemma {:induction false} PlainIsClean(v: Value)
    ensures Plain(v) <==> Clean(v) && NoNamedNull(v)
  {
    if v.Object? {
      PlainPropsIsClean(v.props);
    }
  }

  lemma {:induction false} PlainPropsIsClean(ps: Props)
    ensures PlainProps(ps) <==> CleanProps(ps) && NoNamedNullProps(ps)
  {
    if ps.Cons? {
      PlainIsClean(ps.value);
      PlainPropsIsClean(ps.rest);
    }
  }

  lemma {:induction false} PlainListIsClean(ps: Props)
    requires Unnamed(ps)
    ensures PlainList(ps) <==> CleanList(ps) && NoNamedNullProps(ps)
  {
    if ps.Cons? {
      PlainIsClean(ps.value);
      PlainListIsClean(ps.rest);
    }
  }

  lemma {:induction false} AppendNil(ps: Props)
    ensures Append(ps, Nil) == ps
  {
    if ps.Cons? {
      AppendNil(ps.rest);
    }
  }

  /** Decoding what was encoded, wherever it stands and whatever follows it, gives back the same
      tree and consumes exactly its encoding. */
  ghost predicate RoundTrips(ps: Props) {
    forall u: Buffer, i: nat | At(u, i, EncodeProps(ps)) ::
      var after := DecodeProps(u, i + |EncodeProps(ps)|, false);
      DecodeProps(u, i, false) == ListResult(Append(ps, after.props), |EncodeProps(ps)| + after.used, after.ending)
  }

  /** The caller's condition: strings without a trailing NUL, property names of 1 to 65535 bytes, no
      null property, no top-level number that reads as an end mark, no long string but an echoing one. */
  ghost predicate Encodable(ps: Props) {
    PlainList(ps) && EchoingProps(ps)
  }

  lemma EncodableRoundTrips(ps: Props)
    requires Encodable(ps)
    ensures RoundTrips(ps)
  {
    SeenListIsSame(ps);
    forall u: Buffer, i: nat | At(u, i, EncodeProps(ps))
      ensures var after := DecodeProps(u, i + |EncodeProps(ps)|, false);
              DecodeProps(u, i, false)
                == ListResult(Append(ps, after.props), |EncodeProps(ps)| + after.used, after.ending)
    {
      DecodesList(ps, u, i);
    }
  }

  /** The top-level decoder gives no names. */
  lemma {:induction false} ListIsUnnamed(u: Buffer, i: nat)
    ensures Unnamed(DecodeProps(u, i, false).props)
    decreases |u| - i
  {
    hide DecodeProp, AtEndMark;
    var p := DecodeProp(u, i, false);
    if i < |u| && p.PropOk? {
      ListIsUnnamed(u, i + p.used);
    }
  }

  /** A list that survives one particular follower, an end mark and one more byte, is encodable. */
  lemma RoundTripsEncodable(ps: Props)
    requires |EncodeProps(ps)| + 4 < 0x7fff_fff0
    requires RoundTrips(ps)
    ensures Encodable(ps)
  {
    hide DecodeProps, EncodeProps, EchoingProps, PlainList, CleanList, NoNamedNullProps, SizeProps;
    var e := EncodeProps(ps);
    var u: Buffer := e + EncodeInt24(END_OF_OBJECT) + [0];
    assert At(u, 0, e);
    assert At(u, |e|, EncodeInt24(END_OF_OBJECT)) by {
      assert u[|e|..|e| + 3] == EncodeInt24(END_OF_OBJECT);
    }
    EndsAtMark(u, |e|);
    AppendNil(ps);
    assert DecodeProps(u, 0, false) == ListResult(ps, |e| + 3, Ended);
    ListIsUnnamed(u, 0);
    DecodingLosesList(u, 0);
    EncodingFitsProps(ps);
    PlainListIsClean(ps);
    DecodesList(ps, u, 0);
    AppendNil(SeenProps(ps));
    SeenListIsSame(ps);
  }

  lemma EndsAtMark(u: Buffer, i: nat)
    requires At(u, i, EncodeInt24(END_OF_OBJECT))
    ensures DecodeProps(u, i, false) == ListResult(Nil, 3, Ended)
  {
    EndMarkAt(u, i);
  }

  /** Exactly the encodable lists make the round trip. */
  lemma RoundTripExactly(ps: Props)
    requires |EncodeProps(ps)| + 4 < 0x7fff_fff0
    ensures RoundTrips(ps) <==> Encodable(ps)
  {
    if RoundTrips(ps) {
      RoundTripsEncodable(ps);
    }
    if Encodable(ps) {
      EncodableRoundTrips(ps);
    }
  }

  /** A number that does not: 00 09 at the front of its pattern ends the list. */
  lemma DenormalNumberIsLost()
    ensures var ps := Cons([], Number([0, 9, 0, 0, 0, 0, 0, 0]), Nil);
            DecodeProps(EncodeProps(ps), 0, false) == ListResult(Nil, 3, Ended)
  {
    var ps := Cons([], Number([0, 9, 0, 0, 0, 0, 0, 0]), Nil);
    var u := EncodeProps(ps);
    assert u == [0, 0, 9, 0, 0, 0, 0, 0, 0];
    assert AtEndMark(u, 0);
  }

  /** A null property does not: its name is dropped, and the object cannot be read back. */
  lemma NullPropertyIsLost()
    ensures var ps := Cons([], Object(Cons([97], Null, Nil)), Nil);
            EncodeProps(ps) == [3, 5, 0, 0, 9] && !RoundTrips(ps)
  {
    var ps := Cons([], Object(Cons([97], Null, Nil)), Nil);
    assert EncodeProps(Cons([97], Null, Nil)) == [5];
    assert EncodeValue(ps.value) == [3, 5, 0, 0, 9];
    assert EncodeProps(ps) == [3, 5, 0, 0, 9];
    RoundTripExactly(ps);
    assert !PlainProps(ps.value.props);
  }

  /** Nor does a string of 65536 letters: it comes back with two bytes of its length in front. */
  lemma LongStringIsLost()
    ensures var s := seq(65536, _ => 97);
            Plain(Str(s)) && !RoundTrips(Cons([], Str(s), Nil))
  {
    hide RoundTrips;
    var s: Text := seq(65536, _ => 97);
    var ps := Cons([], Str(s), Nil);
    assert s[0] == 97 && !EchoesLength(s);
    assert !Echoing(ps.value) && !Encodable(ps);
    assert |EncodeProps(ps)| == 65541 by {
      PropsUnfold([], Str(s), Nil);
      LongStringShape(s);
    }
    RoundTripExactly(ps);
  }
}
