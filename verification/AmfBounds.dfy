/** When the AMF0 decoder stays inside the bytes it was given, and when it does not. */
module AmfBounds {
  import opened Bytes
  import opened Amf
  import opened AmfRoundTrip

  /** The places where decoding from `i` looks for the type of a value. */
  ghost function Markers(u: Buffer, i: nat): (ms: set<nat>)
    ensures forall j :: j in ms ==> i <= j < |u|
    decreases |u| - i, 1
  {
    if i >= |u| then {} else {i} + Inner(u, i)
  }

  /** Those inside the value at `i`. */
  ghost function Inner(u: Buffer, i: nat): (ms: set<nat>)
    requires i < |u|
    ensures forall j :: j in ms ==> i < j < |u|
    decreases |u| - i, 0
  {
    if u[i] == OBJECT then ListMarkers(u, i + 1, true)
    else if u[i] == MIXED_ARRAY then ListMarkers(u, i + 5, true)
    else if u[i] == ARRAY && i + 5 <= |u| then ArrayMarkers(u, i + 5, ArrayCount(u, i))
    else {}
  }

  ghost function ArrayCount(u: Buffer, i: nat): nat
    requires i + 5 <= |u|
  {
    var count := ToInt32(DecodeInt32(u, i + 1));
    if count > 0 then count else 0
  }

  ghost function PropMarkers(u: Buffer, i: nat, named: bool): (ms: set<nat>)
    ensures forall j :: j in ms ==> i <= j < |u|
    decreases |u| - i, 2
  {
    if !named then Markers(u, i)
    else if |u| - i < 4 || DecodeInt16(u, i) > |u| - i - 2 then {}
    else Markers(u, i + 2 + DecodeInt16(u, i))
  }

  ghost function ListMarkers(u: Buffer, i: nat, named: bool): (ms: set<nat>)
    ensures forall j :: j in ms ==> i <= j < |u|
    decreases |u| - i, 3
  {
    if i >= |u| || AtEndMark(u, i) then {} else
    var p := DecodeProp(u, i, named);
    PropMarkers(u, i, named) + if p.PropOk? then ListMarkers(u, i + p.used, named) else {}
  }

  ghost function ArrayMarkers(u: Buffer, i: nat, count: nat): (ms: set<nat>)
    ensures forall j :: j in ms ==> i <= j < |u|
    decreases |u| - i, 3
  {
    if i >= |u| || count == 0 then {} else
    var p := DecodeProp(u, i, false);
    Markers(u, i) + if p.PropOk? then ArrayMarkers(u, i + p.used, count - 1) else {}
  }

  // ---------------------------------------------------------------- what is looked at

  /** One past the furthest byte that decoding a value at `i` looks at, or `i` if it looks at none.  The AMF3
      switch looks at one byte behind its marker; what the AMF3 decoder goes on to read without a size check
      is not part of it. */
  ghost function Touched(u: Buffer, i: nat): (end: nat)
    ensures i <= end
    decreases |u| - i, 1
  {
    if i == |u| then i
    else if i > |u| then i + 1
    else if u[i] in {OBJECT, MIXED_ARRAY, ARRAY} then TouchedInner(u, i)
    else TouchedLeaf(u, i)
  }

  ghost function TouchedLeaf(u: Buffer, i: nat): (end: nat)
    requires i < |u|
    ensures i < end
  {
    var size := |u| - i - 1;
    if u[i] == NUMBER then if size < 8 then i + 1 else i + 9
    else if u[i] == BOOLEAN then if size < 1 then i + 1 else i + 2
    else if u[i] == STRING then
      if size < 2 || size < DecodeInt16(u, i + 1) + 2 then i + 3 else i + 3 + DecodeInt16(u, i + 1)
    else if u[i] == DATE then if size < 10 then i + 1 else i + 11
    else if u[i] == LONG_STRING then
      if size < 4 || size < (DecodeInt32(u, i + 1) + 4) % 0x1_0000_0000 then i + 5
      else Max(i + 5, i + 3 + DecodeInt32(u, i + 1))
    else if u[i] == AMF3 then if size < 9 || u[i + 1] != AMF3_DOUBLE then i + 2 else i + 10
    else i + 1
  }

  ghost function TouchedInner(u: Buffer, i: nat): (end: nat)
    requires i < |u|
    ensures i <= end
    decreases |u| - i, 0
  {
    if u[i] == OBJECT then Max(i + 1, TouchedList(u, i + 1, true))
    else if u[i] == MIXED_ARRAY then if i + 5 <= |u| then Max(i + 1, TouchedList(u, i + 5, true)) else i + 1
    else if i + 5 <= |u| then Max(i + 5, TouchedArray(u, i + 5, ArrayCount(u, i)))
    else i + 5
  }

  ghost function TouchedProp(u: Buffer, i: nat, named: bool): (end: nat)
    ensures i <= end
    decreases |u| - i, 2
  {
    if !named then Touched(u, i)
    else if |u| - i < 4 then i
    else if DecodeInt16(u, i) > |u| - i - 2 then i + 2
    else Max(i + 2, Touched(u, i + 2 + DecodeInt16(u, i)))
  }

  /** The search for the next end mark looks three bytes at a time. */
  ghost function TouchedSkip(u: Buffer, i: nat): (end: nat)
    requires i <= |u|
    ensures i <= end <= |u|
  {
    var r := SkipToEndMark(u, i);
    if r.ending.Ended? then i + r.used else if i + 3 <= |u| then |u| else i
  }

  ghost function TouchedList(u: Buffer, i: nat, named: bool): (end: nat)
    ensures i <= end
    decreases |u| - i, 3
  {
    if i >= |u| then i else
    var mark := if i + 3 <= |u| then i + 3 else i;
    if AtEndMark(u, i) then mark else
    var p := DecodeProp(u, i, named);
    Max(Max(mark, TouchedProp(u, i, named)),
        match p
        case PropError => TouchedSkip(u, i)
        case PropOk(_, _, used) => TouchedList(u, i + used, named)
        case _ => i)
  }

  ghost function TouchedArray(u: Buffer, i: nat, count: nat): (end: nat)
    ensures i <= end
    decreases |u| - i, 3
  {
    if count == 0 then i else
    var p := DecodeProp(u, i, false);
    Max(Touched(u, i), if p.PropOk? then TouchedArray(u, i + p.used, count - 1) else i)
  }

  /** Decoding a value at `i` looks at nothing behind the buffer, and does not claim to end behind it. */
  ghost predicate Inside(u: Buffer, i: nat) {
    Touched(u, i) <= |u| && EndsInside(u, i, DecodeValue(u, i))
  }

  ghost predicate EndsInside(u: Buffer, i: nat, r: PropResult) {
    r.PropOk? ==> i + r.used <= |u|
  }

  ghost predicate PropInside(u: Buffer, i: nat, named: bool) {
    TouchedProp(u, i, named) <= |u| && EndsInside(u, i, DecodeProp(u, i, named))
  }

  ghost predicate ListInside(u: Buffer, i: nat, named: bool) {
    var r := DecodeProps(u, i, named);
    TouchedList(u, i, named) <= |u| && (r.ending.Ended? ==> i + r.used <= |u|)
  }

  ghost predicate ArrayInside(u: Buffer, i: nat, count: nat) {
    var r := DecodeArray(u, i, count);
    TouchedArray(u, i, count) <= |u| && (r.ending.Ended? ==> i + r.used <= |u|)
  }

  // ---------------------------------------------------------------- the exact condition

  /** A marker whose length, count or kind is cut off by the end of the buffer, or a long string whose
      length is so large that the size check wraps around. */
  ghost predicate Unguarded(u: Buffer, j: nat)
    requires j < |u|
  {
    || (u[j] in {MIXED_ARRAY, ARRAY, LONG_STRING} && j + 5 > |u|)
    || (u[j] == STRING && j + 3 > |u|)
    || (u[j] == AMF3 && j + 2 > |u|)
    || (u[j] == LONG_STRING && |u| - j - 1 >= DecodeInt32(u, j + 1) + 4 - 0x1_0000_0000 >= 0)
  }

  /** An AMF3 marker with one of the kinds whose decoding checks no sizes: an integer, a string, a date, an
      array, an object, or XML. */
  ghost predicate HandsOver(u: Buffer, j: nat)
    requires j < |u|
  {
    u[j] == AMF3 && j + 2 <= |u| && AMF3_INTEGER <= u[j + 1] <= AMF3_XML && u[j + 1] != AMF3_DOUBLE
  }

  ghost predicate AllGuarded(u: Buffer, ms: set<nat>)
    requires forall j :: j in ms ==> j < |u|
  {
    forall j :: j in ms ==> !Unguarded(u, j)
  }

  ghost predicate NoneHandsOver(u: Buffer, ms: set<nat>)
    requires forall j :: j in ms ==> j < |u|
  {
    forall j :: j in ms ==> !HandsOver(u, j)
  }

  /** Decoding a value stays inside its buffer exactly when every marker it meets is guarded, and hands over
      to the AMF3 decoder exactly when it meets a marker that does. */
  lemma {:induction false} StaysInside(u: Buffer, i: nat)
    requires i <= |u|
    ensures Inside(u, i) <==> AllGuarded(u, Markers(u, i))
    ensures DecodeValue(u, i) != PropAmf3 <==> NoneHandsOver(u, Markers(u, i))
    ensures DecodeValue(u, i) == PropOverrun ==> !Inside(u, i)
    decreases |u| - i, 1
  {
    hide DecodeProps, DecodeArray, ListMarkers, ArrayMarkers, TouchedList, TouchedArray, Trim, DecodeInt16,
      DecodeInt32, ToInt32, AllGuarded, NoneHandsOver, TouchedLeaf, Inner;
    OfNone(u);
    if i < |u| {
      OfUnion(u, {i}, Inner(u, i));
      OfOne(u, i);
      if u[i] in {OBJECT, MIXED_ARRAY, ARRAY} {
        InnerStaysInside(u, i);
      } else {
        LeafStaysInside(u, i);
      }
    }
  }

  lemma {:induction false} InnerStaysInside(u: Buffer, i: nat)
    requires i < |u| && u[i] in {OBJECT, MIXED_ARRAY, ARRAY}
    ensures Inside(u, i) <==> !Unguarded(u, i) && AllGuarded(u, Inner(u, i))
    ensures DecodeValue(u, i) != PropAmf3 <==> NoneHandsOver(u, Inner(u, i))
    ensures DecodeValue(u, i) == PropOverrun ==> !Inside(u, i)
    decreases |u| - i, 0
  {
    hide DecodeProps, DecodeArray, ListMarkers, ArrayMarkers, TouchedList, TouchedArray, DecodeInt32, ToInt32,
      AllGuarded, NoneHandsOver;
    OfNone(u);
    if u[i] == OBJECT {
      ListStaysInside(u, i + 1, true);
      assert Touched(u, i) == Max(i + 1, TouchedList(u, i + 1, true));
    } else if i + 5 > |u| {
      CutOff(u, i);
    } else if u[i] == MIXED_ARRAY {
      ListStaysInside(u, i + 5, true);
      assert Touched(u, i) == Max(i + 1, TouchedList(u, i + 5, true));
      assert Inner(u, i) == ListMarkers(u, i + 5, true);
      assert DecodeValue(u, i) == AsObject(DecodeProps(u, i + 5, true), 5);
    } else {
      ArrayStaysInside(u, i + 5, ArrayCount(u, i));
      assert Touched(u, i) == Max(i + 5, TouchedArray(u, i + 5, ArrayCount(u, i)));
    }
  }

  lemma CutOff(u: Buffer, i: nat)
    requires i < |u| < i + 5 && u[i] in {MIXED_ARRAY, ARRAY}
    ensures !Inside(u, i) && DecodeValue(u, i) != PropAmf3 && Inner(u, i) == {}
  {
    hide TouchedList, TouchedArray, DecodeProps, DecodeArray, ListMarkers;
    assert u[i] == MIXED_ARRAY ==> DecodeValue(u, i) == AsObject(DecodeProps(u, i + 5, true), 5);
    assert u[i] == MIXED_ARRAY ==> DecodeValue(u, i) == PropOk([], Object(Nil), 5);
    assert u[i] == ARRAY ==> Touched(u, i) == i + 5;
  }

  lemma LeafStaysInside(u: Buffer, i: nat)
    requires i < |u| && u[i] !in {OBJECT, MIXED_ARRAY, ARRAY}
    ensures Inside(u, i) <==> !Unguarded(u, i)
    ensures DecodeValue(u, i) == PropAmf3 <==> HandsOver(u, i)
    ensures DecodeValue(u, i) == PropOverrun ==> !Inside(u, i)
    ensures Inner(u, i) == {}
  {
    hide DecodeInt16, DecodeInt32, Trim;
  }

  lemma OfUnion(u: Buffer, a: set<nat>, b: set<nat>)
    requires forall j :: j in a + b ==> j < |u|
    ensures AllGuarded(u, a + b) <==> AllGuarded(u, a) && AllGuarded(u, b)
    ensures NoneHandsOver(u, a + b) <==> NoneHandsOver(u, a) && NoneHandsOver(u, b)
  {
  }

  lemma OfOne(u: Buffer, i: nat)
    requires i < |u|
    ensures AllGuarded(u, {i}) <==> !Unguarded(u, i)
    ensures NoneHandsOver(u, {i}) <==> !HandsOver(u, i)
  {
  }

  lemma OfNone(u: Buffer)
    ensures AllGuarded(u, {}) && NoneHandsOver(u, {})
  {
  }

  lemma {:induction false} PropStaysInside(u: Buffer, i: nat, named: bool)
    requires i <= |u|
    ensures PropInside(u, i, named) <==> AllGuarded(u, PropMarkers(u, i, named))
    ensures DecodeProp(u, i, named) != PropAmf3 <==> NoneHandsOver(u, PropMarkers(u, i, named))
    ensures DecodeProp(u, i, named) == PropOverrun ==> !PropInside(u, i, named)
    decreases |u| - i, 2
  {
    hide DecodeValue, Markers, Touched, DecodeInt16, AllGuarded, NoneHandsOver;
    OfNone(u);
    if !named {
      StaysInside(u, i);
    } else if |u| - i >= 4 && DecodeInt16(u, i) <= |u| - i - 2 {
      StaysInside(u, i + 2 + DecodeInt16(u, i));
    }
  }

  lemma ListGoesOn(u: Buffer, i: nat, named: bool)
    requires i < |u| && !AtEndMark(u, i) && DecodeProp(u, i, named).PropOk?
    ensures var p := DecodeProp(u, i, named);
            && (ListInside(u, i, named) <==> PropInside(u, i, named) && ListInside(u, i + p.used, named))
            && ListMarkers(u, i, named) == PropMarkers(u, i, named) + ListMarkers(u, i + p.used, named)
            && (i + p.used > |u| ==> !PropInside(u, i, named) && DecodeProps(u, i, named).ending == Ended)
  {
    hide DecodeProp, PropMarkers, AtEndMark, TouchedProp, SkipToEndMark, TouchedSkip;
    ReadsOne(u, i, named);
  }

  lemma ListGoesWrong(u: Buffer, i: nat, named: bool)
    requires i < |u| && !AtEndMark(u, i) && !DecodeProp(u, i, named).PropOk?
    ensures ListInside(u, i, named) <==> PropInside(u, i, named)
    ensures ListMarkers(u, i, named) == PropMarkers(u, i, named)
    ensures DecodeProps(u, i, named).ending == HandedOver <==> DecodeProp(u, i, named).PropAmf3?
    ensures DecodeProps(u, i, named).ending == Overran <==> DecodeProp(u, i, named).PropOverrun?
  {
    hide DecodeProp, PropMarkers, AtEndMark, TouchedProp, SkipToEndMark;
    ReadsNone(u, i, named);
  }

  lemma ListStops(u: Buffer, i: nat, named: bool)
    requires i == |u| || AtEndMark(u, i)
    ensures ListInside(u, i, named) && ListMarkers(u, i, named) == {} && DecodeProps(u, i, named).ending == Ended
  {
    hide DecodeInt24;
  }

  lemma {:induction false} ListStaysInside(u: Buffer, i: nat, named: bool)
    requires i <= |u|
    ensures ListInside(u, i, named) <==> AllGuarded(u, ListMarkers(u, i, named))
    ensures DecodeProps(u, i, named).ending != HandedOver <==> NoneHandsOver(u, ListMarkers(u, i, named))
    ensures DecodeProps(u, i, named).ending == Overran ==> !ListInside(u, i, named)
    decreases |u| - i, 3
  {
    hide DecodeProp, PropMarkers, AllGuarded, NoneHandsOver, PropInside, ListInside, ListMarkers,
      DecodeProps, AtEndMark;
    OfNone(u);
    if i == |u| || AtEndMark(u, i) {
      ListStops(u, i, named);
    } else {
      var p := DecodeProp(u, i, named);
      PropStaysInside(u, i, named);
      if p.PropOk? {
        ListGoesOn(u, i, named);
        ReadsOne(u, i, named);
        OfUnion(u, PropMarkers(u, i, named), ListMarkers(u, i + p.used, named));
        if i + p.used <= |u| {
          ListStaysInside(u, i + p.used, named);
        } else {
          NothingBehind(u, i + p.used, named);
        }
      } else {
        ListGoesWrong(u, i, named);
      }
    }
  }

  lemma NothingBehind(u: Buffer, i: nat, named: bool)
    requires i > |u|
    ensures ListMarkers(u, i, named) == {}
  {
  }

  lemma {:induction false} ArrayStaysInside(u: Buffer, i: nat, count: nat)
    requires i <= |u|
    ensures ArrayInside(u, i, count) <==> AllGuarded(u, ArrayMarkers(u, i, count))
    ensures DecodeArray(u, i, count).ending != HandedOver <==> NoneHandsOver(u, ArrayMarkers(u, i, count))
    ensures DecodeArray(u, i, count).ending == Overran ==> !ArrayInside(u, i, count)
    decreases |u| - i, 3
  {
    hide DecodeValue, Markers, Touched, AllGuarded, NoneHandsOver;
    OfNone(u);
    if count > 0 {
      var p := DecodeProp(u, i, false);
      StaysInside(u, i);
      if p.PropOk? {
        OfUnion(u, Markers(u, i), ArrayMarkers(u, i + p.used, count - 1));
        if i + p.used <= |u| {
          ArrayStaysInside(u, i + p.used, count - 1);
        } else {
          ArrayOvershoots(u, i + p.used, count - 1);
        }
      } else if i < |u| {
        assert Markers(u, i) + {} == Markers(u, i);
      } else {
        assert Markers(u, i) == {};
      }
    }
  }

  /** Behind the buffer an array ends at once or overruns. */
  lemma ArrayOvershoots(u: Buffer, i: nat, count: nat)
    requires i > |u|
    ensures !ArrayInside(u, i, count) && DecodeArray(u, i, count).ending != HandedOver
  {
  }

  /** What a caller can look at: a message in which no byte could be such a marker is decoded inside its bytes,
      to an end or an error that its bytes alone decide. */
  lemma GuardedMessage(u: Buffer, i: nat)
    requires i <= |u| && forall j :: i <= j < |u| ==> !Unguarded(u, j) && !HandsOver(u, j)
    ensures ListInside(u, i, false) && DecodeProps(u, i, false).ending in {Ended, Failed}
  {
    ListStaysInside(u, i, false);
  }

  /** One past the furthest byte that an AMF3 integer at `p` is read from: up to three bytes with the high bit
      set, and one more. */
  ghost function IntegerEnd(u: Buffer, p: nat, left: nat := 3): (end: nat)
    decreases left
  {
    if p < |u| && u[p] >= 0x80 && left > 0 then IntegerEnd(u, p + 1, left - 1) else p + 1
  }

  ghost predicate IsLast(u: Buffer, p: nat, left: nat, k: nat) {
    p <= k <= p + left && k < |u| && (u[k] < 0x80 || k == p + left)
  }

  /** An AMF3 integer, which the decoder hands over to a reader without a size check, stays inside exactly when
      a byte without the high bit or a fourth byte comes before the end. */
  lemma {:induction false} IntegerStaysInside(u: Buffer, p: nat, left: nat)
    ensures IntegerEnd(u, p, left) <= |u| <==> exists k :: IsLast(u, p, left, k)
    decreases left
  {
    if p < |u| && u[p] >= 0x80 && left > 0 {
      var q, less := p + 1, left - 1;
      IntegerStaysInside(u, q, less);
      forall k ensures IsLast(u, p, left, k) <==> IsLast(u, q, less, k) {
      }
      assert IntegerEnd(u, p, left) == IntegerEnd(u, q, less);
    } else if p < |u| {
      assert IsLast(u, p, left, p);
    }
  }

  // ---------------------------------------------------------------- the smallest messages that are not

  /** A mixed-array marker alone is five bytes to the decoder. */
  lemma LoneMixedArray()
    ensures DecodeValue([MIXED_ARRAY], 0) == PropOk([], Object(Nil), 5)
    ensures !ListInside([MIXED_ARRAY], 0, false)
  {
    ListStaysInside([MIXED_ARRAY], 0, false);
    assert DecodeProps([MIXED_ARRAY], 5, true) == ListResult(Nil, 0, Ended);
  }

  /** A string marker alone is refused, but only after two bytes behind it were read for its length. */
  lemma LoneString()
    ensures DecodeValue([STRING], 0) == PropError
    ensures Touched([STRING], 0) == 3
  {
  }

  /** An AMF3 marker alone takes its kind from the byte behind the message; with the kind of an integer the
      integer comes from there; with the kind of "true" it is refused. */
  lemma LoneAmf3()
    ensures DecodeValue([AMF3], 0) == PropOverrun && Touched([AMF3], 0) == 2
    ensures DecodeValue([AMF3, AMF3_INTEGER], 0) == PropAmf3 && IntegerEnd([AMF3, AMF3_INTEGER], 2) == 3
    ensures DecodeValue([AMF3, AMF3_TRUE], 0) == PropError
  {
  }
}
