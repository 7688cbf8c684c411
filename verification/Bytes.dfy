/** Bytes and the fixed-width integer codecs shared by the RTMP and AMF layers.

    The encoders take any integer, because the original stores the low bytes of
    whatever `int` it is handed; the decoders read at an offset of a byte string.
 */
module Bytes {

  type byte = x: int | 0 <= x < 256

  function Min(a: int, b: int): int {
    if a < b then a else b
  }

  function Max(a: int, b: int): int {
    if a < b then b else a
  }

  /** Two's-complement reading of an unsigned 32-bit word. */
  function ToInt32(w: int): int {
    var m := w % 0x1_0000_0000;
    if m < 0x8000_0000 then m else m - 0x1_0000_0000
  }

  /** Bitwise and of two naturals, digit by digit. */
  function And(x: nat, m: nat): (r: nat)
    ensures r <= m && r <= x
  {
    if x == 0 || m == 0 then 0 else (x % 2) * (m % 2) + 2 * And(x / 2, m / 2)
  }

  /** `(size + m) & ~m` with `m = align - 1`, as the allocator rounds.  Clearing the bits
      of `m` takes away at most `m`, so nothing is lost whether or not `align` is a power of two. */
  function RoundUp(size: nat, align: nat): (rounded: nat)
    requires 1 <= align
    ensures size <= rounded < size + align
  {
    var sum := size + (align - 1);
    sum - And(sum, align - 1)
  }

  function Pow2(k: nat): (m: nat)
    ensures m >= 1
  {
    if k == 0 then 1 else 2 * Pow2(k - 1)
  }

  lemma HalfOfMod(x: nat, m: nat)
    requires m >= 1
    ensures x % (2 * m) == 2 * (x / 2 % m) + x % 2
  {
    var h := x / 2;
    var q, r := h / m, h % m;
    assert h == m * q + r;
    Twice(q, m);
    DivModUnique(x, q, 2 * r + x % 2, 2 * m);
  }

  lemma Twice(q: int, m: int)
    ensures q * (2 * m) == 2 * (m * q)
  {
  }

  lemma AndStep(x: nat, m: nat)
    requires x > 0 && m >= 1
    ensures And(x, 2 * m - 1) == x % 2 + 2 * And(x / 2, m - 1)
  {
    DivModUnique(2 * m - 1, m - 1, 1, 2);
  }

  /** The low `k` bits of a number are its remainder. */
  lemma {:induction false} LowBits(x: nat, k: nat)
    ensures And(x, Pow2(k) - 1) == x % Pow2(k)
    decreases k
  {
    hide And;
    if k == 0 {
      NoBits(x);
    } else if x == 0 {
      NoBits(Pow2(k) - 1);
      DivModUnique(0, 0, 0, Pow2(k));
    } else {
      LowBits(x / 2, k - 1);
      AndStep(x, Pow2(k - 1));
      HalfOfMod(x, Pow2(k - 1));
    }
  }

  lemma NoBits(x: nat)
    ensures And(x, 0) == 0 == And(0, x) && x % 1 == 0
  {
  }

  /** To a power of two, rounding is to a multiple of it. */
  lemma RoundsToMultiple(size: nat, k: nat)
    ensures RoundUp(size, Pow2(k)) % Pow2(k) == 0
  {
    hide And, Pow2;
    var m := Pow2(k);
    var sum := size + (m - 1);
    LowBits(sum, k);
    var q, r := sum / m, sum % m;
    assert sum == m * q + r;
    DivModUnique(sum - r, q, 0, m);
  }

  function EncodeInt16(n: int): (r: seq<byte>)
    ensures |r| == 2
  {
    [n / 0x100 % 0x100, n % 0x100]
  }

  function EncodeInt24(n: int): (r: seq<byte>)
    ensures |r| == 3
  {
    [n / 0x1_0000 % 0x100, n / 0x100 % 0x100, n % 0x100]
  }

  function EncodeInt32(n: int): (r: seq<byte>)
    ensures |r| == 4
  {
    [n / 0x100_0000 % 0x100, n / 0x1_0000 % 0x100, n / 0x100 % 0x100, n % 0x100]
  }

  function EncodeInt32LE(n: int): (r: seq<byte>)
    ensures |r| == 4
  {
    [n % 0x100, n / 0x100 % 0x100, n / 0x1_0000 % 0x100, n / 0x100_0000 % 0x100]
  }

  function DecodeInt16(u: seq<byte>, i: nat): (r: int)
    requires i + 2 <= |u|
    ensures 0 <= r < 0x1_0000
  {
    u[i] as int * 0x100 + u[i + 1] as int
  }

  function DecodeInt24(u: seq<byte>, i: nat): (r: int)
    requires i + 3 <= |u|
    ensures 0 <= r < 0x100_0000
  {
    u[i] as int * 0x1_0000 + u[i + 1] as int * 0x100 + u[i + 2] as int
  }

  function DecodeInt32(u: seq<byte>, i: nat): (r: int)
    requires i + 4 <= |u|
    ensures 0 <= r < 0x1_0000_0000
  {
    u[i] as int * 0x100_0000 + u[i + 1] as int * 0x1_0000 + u[i + 2] as int * 0x100 + u[i + 3] as int
  }

  function DecodeInt32LE(u: seq<byte>, i: nat): (r: int)
    requires i + 4 <= |u|
    ensures 0 <= r < 0x1_0000_0000
  {
    u[i + 3] as int * 0x100_0000 + u[i + 2] as int * 0x1_0000 + u[i + 1] as int * 0x100 + u[i] as int
  }

  /** What a byte string stands for with the most significant byte in front. */
  function BigEndianValue(s: seq<byte>): nat {
    if s == [] then 0 else BigEndianValue(s[..|s| - 1]) * 0x100 + s[|s| - 1]
  }

  /** And with the least significant byte in front. */
  function LittleEndianValue(s: seq<byte>): nat {
    if s == [] then 0 else s[0] + 0x100 * LittleEndianValue(s[1..])
  }

  lemma BigEndian4(a: byte, b: byte, c: byte, d: byte)
    ensures BigEndianValue([a, b]) == a * 0x100 + b
    ensures BigEndianValue([a, b, c]) == a * 0x1_0000 + b * 0x100 + c
    ensures BigEndianValue([a, b, c, d]) == a * 0x100_0000 + b * 0x1_0000 + c * 0x100 + d
  {
    assert [a, b, c, d][..3] == [a, b, c] && [a, b, c][..2] == [a, b] && [a, b][..1] == [a] && [a][..0] == [];
    assert BigEndianValue([a]) == a;
    assert BigEndianValue([a, b]) == BigEndianValue([a]) * 0x100 + b;
    assert BigEndianValue([a, b, c]) == BigEndianValue([a, b]) * 0x100 + c;
  }

  lemma LittleEndian4(a: byte, b: byte, c: byte, d: byte)
    ensures LittleEndianValue([a, b, c, d]) == a + b * 0x100 + c * 0x1_0000 + d * 0x100_0000
  {
    assert [a, b, c, d][1..] == [b, c, d] && [b, c, d][1..] == [c, d] && [c, d][1..] == [d] && [d][1..] == [];
    assert LittleEndianValue([d]) == d;
    assert LittleEndianValue([c, d]) == c + 0x100 * LittleEndianValue([d]);
    assert LittleEndianValue([b, c, d]) == b + 0x100 * LittleEndianValue([c, d]);
    assert LittleEndianValue([a, b, c, d]) == a + 0x100 * LittleEndianValue([b, c, d]);
  }

  /** Numbers stand on the wire with the most significant byte in front, except where it says otherwise. */
  lemma DecodersReadInOrder(u: seq<byte>, i: nat)
    ensures i + 2 <= |u| ==> DecodeInt16(u, i) == BigEndianValue(u[i..i + 2])
    ensures i + 3 <= |u| ==> DecodeInt24(u, i) == BigEndianValue(u[i..i + 3])
    ensures i + 4 <= |u| ==> DecodeInt32(u, i) == BigEndianValue(u[i..i + 4])
    ensures i + 4 <= |u| ==> DecodeInt32LE(u, i) == LittleEndianValue(u[i..i + 4])
  {
    hide BigEndianValue, LittleEndianValue;
    var a, b := if i < |u| then u[i] else 0, if i + 1 < |u| then u[i + 1] else 0;
    var c, d := if i + 2 < |u| then u[i + 2] else 0, if i + 3 < |u| then u[i + 3] else 0;
    BigEndian4(a, b, c, d);
    LittleEndian4(a, b, c, d);
    assert i + 2 <= |u| ==> u[i..i + 2] == [a, b];
    assert i + 3 <= |u| ==> u[i..i + 3] == [a, b, c];
    assert i + 4 <= |u| ==> u[i..i + 4] == [a, b, c, d];
  }

  /** `part` occupies `u` from offset `i` on. */
  predicate At(u: seq<byte>, i: nat, part: seq<byte>) {
    i + |part| <= |u| && u[i..i + |part|] == part
  }

  lemma AtFits(u: seq<byte>, i: nat, part: seq<byte>)
    requires At(u, i, part)
    ensures i + |part| <= |u|
  {
  }

  lemma AtIndex(u: seq<byte>, i: nat, part: seq<byte>)
    requires At(u, i, part)
    ensures forall k :: 0 <= k < |part| ==> u[i + k] == part[k]
  {
    forall k | 0 <= k < |part| ensures u[i + k] == part[k] {
      assert u[i..i + |part|][k] == u[i + k];
    }
  }

  lemma AtSplit(u: seq<byte>, i: nat, a: seq<byte>, b: seq<byte>)
    requires At(u, i, a + b)
    ensures At(u, i, a) && At(u, i + |a|, b)
  {
    assert u[i..i + |a|] == (a + b)[..|a|] == a;
    assert u[i + |a|..i + |a| + |b|] == (a + b)[|a|..] == b;
  }

  lemma FirstByteAt(b: byte, w: seq<byte>, u: seq<byte>, i: nat)
    requires At(u, i, [b] + w)
    ensures u[i] == b && At(u, i + 1, w)
  {
    AtSplit(u, i, [b], w);
    assert u[i..i + 1][0] == u[i];
  }

  lemma MulGap(a: int, b: int, m: int)
    requires a < b && m > 0
    ensures a * m + m <= b * m
  {
    var k := b - a - 1;
    assert k * m >= 0;
    assert b * m == (a + 1 + k) * m == a * m + m + k * m;
  }

  lemma DivModUnique(x: int, q: int, r: int, m: int)
    requires 0 <= r < m && x == q * m + r
    ensures x / m == q && x % m == r
  {
    var q', r' := x / m, x % m;
    assert x == m * q' + r';
    if q' < q {
      MulGap(q', q, m);
    } else if q < q' {
      MulGap(q, q', m);
    }
  }

  /** Dividing by 256 twice is dividing by 65536, and so on. */
  lemma Shifts(n: int)
    ensures n / 0x1_0000 == n / 0x100 / 0x100
    ensures n / 0x100_0000 == n / 0x100 / 0x100 / 0x100
  {
  }

  /** The three low bytes of a word, recombined. */
  lemma Split24(n: int)
    ensures n / 0x1_0000 % 0x100 * 0x1_0000 + n / 0x100 % 0x100 * 0x100 + n % 0x100 == n % 0x100_0000
  {
    Shifts(n);
    var n1 := n / 0x100;
    var n2 := n1 / 0x100;
    assert n == n2 / 0x100 * 0x100_0000 + (n2 % 0x100) * 0x1_0000 + (n1 % 0x100) * 0x100 + n % 0x100;
  }

  /** The four low bytes of a word, recombined. */
  lemma Split32(n: int)
    ensures n / 0x100_0000 % 0x100 * 0x100_0000 + n / 0x1_0000 % 0x100 * 0x1_0000 + n / 0x100 % 0x100 * 0x100
            + n % 0x100
            == n % 0x1_0000_0000
  {
    Split24(n);
    var n3 := n / 0x100_0000;
    assert n == n3 / 0x100 * 0x1_0000_0000 + (n3 % 0x100) * 0x100_0000 + n % 0x100_0000;
  }

  lemma RoundTrip16(n: int, u: seq<byte>, i: nat)
    requires At(u, i, EncodeInt16(n))
    ensures DecodeInt16(u, i) == n % 0x1_0000
  {
    AtIndex(u, i, EncodeInt16(n));
  }

  lemma RoundTrip24(n: int, u: seq<byte>, i: nat)
    requires At(u, i, EncodeInt24(n))
    ensures DecodeInt24(u, i) == n % 0x100_0000
  {
    AtIndex(u, i, EncodeInt24(n));
    Split24(n);
  }

  lemma RoundTrip32(n: int, u: seq<byte>, i: nat)
    requires At(u, i, EncodeInt32(n))
    ensures DecodeInt32(u, i) == n % 0x1_0000_0000
    ensures ToInt32(DecodeInt32(u, i)) == ToInt32(n)
  {
    AtIndex(u, i, EncodeInt32(n));
    Split32(n);
  }

  lemma RoundTrip32LE(n: int, u: seq<byte>, i: nat)
    requires At(u, i, EncodeInt32LE(n))
    ensures DecodeInt32LE(u, i) == n % 0x1_0000_0000
  {
    AtIndex(u, i, EncodeInt32LE(n));
    Split32(n);
  }
}
