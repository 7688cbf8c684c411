/** MD5, fed in pieces of any length. */
module Md5 {
  import opened BlockPadding
  import opened Bytes

  type word = bv32

  datatype State = State(a: word, b: word, c: word, d: word)

  const INIT := State(0x67452301, 0xefcdab89, 0x98badcfe, 0x10325476)

  // ---------------------------------------------------------------- the compression function of RFC 1321

  function RotateLeft(x: word, n: nat): word
    requires 0 < n < 32
  {
    (x << n) | (x >> (32 - n))
  }

  function F(x: word, y: word, z: word): word {
    (x & y) | ((!x) & z)
  }

  function G(x: word, y: word, z: word): word {
    (x & z) | (y & (!z))
  }

  function H(x: word, y: word, z: word): word {
    x ^ y ^ z
  }

  function I(x: word, y: word, z: word): word {
    y ^ (x | (!z))
  }

  /** The sine table, four entries a row. */
  function Row(q: nat): (word, word, word, word)
    requires q < 16
  {
    match q
    case 0 => (0xd76aa478, 0xe8c7b756, 0x242070db, 0xc1bdceee)
    case 1 => (0xf57c0faf, 0x4787c62a, 0xa8304613, 0xfd469501)
    case 2 => (0x698098d8, 0x8b44f7af, 0xffff5bb1, 0x895cd7be)
    case 3 => (0x6b901122, 0xfd987193, 0xa679438e, 0x49b40821)
    case 4 => (0xf61e2562, 0xc040b340, 0x265e5a51, 0xe9b6c7aa)
    case 5 => (0xd62f105d, 0x02441453, 0xd8a1e681, 0xe7d3fbc8)
    case 6 => (0x21e1cde6, 0xc33707d6, 0xf4d50d87, 0x455a14ed)
    case 7 => (0xa9e3e905, 0xfcefa3f8, 0x676f02d9, 0x8d2a4c8a)
    case 8 => (0xfffa3942, 0x8771f681, 0x6d9d6122, 0xfde5380c)
    case 9 => (0xa4beea44, 0x4bdecfa9, 0xf6bb4b60, 0xbebfbc70)
    case 10 => (0x289b7ec6, 0xeaa127fa, 0xd4ef3085, 0x04881d05)
    case 11 => (0xd9d4d039, 0xe6db99e5, 0x1fa27cf8, 0xc4ac5665)
    case 12 => (0xf4292244, 0x432aff97, 0xab9423a7, 0xfc93a039)
    case 13 => (0x655b59c3, 0x8f0ccc92, 0xffeff47d, 0x85845dd1)
    case 14 => (0x6fa87e4f, 0xfe2ce6e0, 0xa3014314, 0x4e0811a1)
    case _ => (0xf7537e82, 0xbd3af235, 0x2ad7d2bb, 0xeb86d391)
  }

  /** The number that operation `t` adds. */
  function T(t: nat): word
    requires t < 64
  {
    var r := Row(t / 4);
    if t % 4 == 0 then r.0 else if t % 4 == 1 then r.1 else if t % 4 == 2 then r.2 else r.3
  }

  /** The message word that operation `t` uses. */
  function Index(t: nat): nat
    requires t < 64
    ensures Index(t) < 16
  {
    if t < 16 then t else if t < 32 then (5 * t + 1) % 16 else if t < 48 then (3 * t + 5) % 16 else 7 * t % 16
  }

  /** How far operation `t` rotates. */
  function Shift(t: nat): nat
    requires t < 64
    ensures 0 < Shift(t) < 32
  {
    if t < 16 then Pick(t % 4, 7, 12, 17, 22)
    else if t < 32 then Pick(t % 4, 5, 9, 14, 20)
    else if t < 48 then Pick(t % 4, 4, 11, 16, 23)
    else Pick(t % 4, 6, 10, 15, 21)
  }

  function Pick(k: nat, s0: nat, s1: nat, s2: nat, s3: nat): nat {
    if k == 0 then s0 else if k == 1 then s1 else if k == 2 then s2 else s3
  }

  function Mix(t: nat, b: word, c: word, d: word): word {
    if t < 16 then F(b, c, d) else if t < 32 then G(b, c, d) else if t < 48 then H(b, c, d) else I(b, c, d)
  }

  /** `a = b + ((a + Mix(b,c,d) + X[k] + T[i]) <<< s)`, section 3.4. */
  function Operation(t: nat, a: word, b: word, c: word, d: word, x: word): word
    requires t < 64
  {
    Turn(a, b, Mix(t, b, c, d), x, Shift(t), T(t))
  }

  function Turn(a: word, b: word, f: word, x: word, s: nat, t: word): word
    requires 0 < s < 32
  {
    b + RotateLeft(a + f + x + t, s)
  }

  /** The four registers after `t` operations; every operation renames them once round. */
  function Steps(h: State, x: seq<word>, t: nat): State
    requires |x| == 16 && t <= 64
  {
    if t == 0 then h else
    var g := Steps(h, x, t - 1);
    State(g.d, Operation(t - 1, g.a, g.b, g.c, g.d, x[Index(t - 1)]), g.b, g.c)
  }

  function LittleEndian(block: seq<byte>, t: nat): word
    requires |block| == 64 && t < 16
  {
    (block[4 * t] as word) | ((block[4 * t + 1] as word) << 8)
    | ((block[4 * t + 2] as word) << 16) | ((block[4 * t + 3] as word) << 24)
  }

  function Words(block: seq<byte>): (x: seq<word>)
    requires |block| == 64
    ensures |x| == 16
  {
    seq(16, t requires 0 <= t < 16 => LittleEndian(block, t))
  }

  function Plus(h: State, g: State): State {
    State(h.a + g.a, h.b + g.b, h.c + g.c, h.d + g.d)
  }

  function Compress(h: State, block: seq<byte>): State
    requires |block| == 64
  {
    Plus(h, Steps(h, Words(block), 64))
  }

  // ---------------------------------------------------------------- the specification of the digest

  function Fold(h: State, data: seq<byte>): State
    requires |data| % 64 == 0
    decreases |data|
  {
    if |data| == 0 then h
    else Compress(Fold(h, data[..|data| - 64]), data[|data| - 64..])
  }

  lemma FoldBlock(h: State, data: seq<byte>, block: seq<byte>)
    requires |data| % BLOCK == 0 && |block| == BLOCK
    ensures |data + block| % BLOCK == 0
    ensures Fold(h, data + block) == Compress(Fold(h, data), block)
  {
    hide Compress;
    WholeBlocks(|data|, |block|);
    assert (data + block)[..|data + block| - 64] == data;
    assert (data + block)[|data + block| - 64..] == block;
  }

  /** The length field is the length in bits as 64 bits, least significant byte first. */
  function LengthField(n: nat): (f: seq<byte>)
    ensures |f| == 8
  {
    EncodeInt32LE(8 * n) + EncodeInt32LE(8 * n / TWO_32)
  }

  function WordBytes(w: word): (b: seq<byte>)
    ensures |b| == 4
  {
    [(w & 0xff) as int, ((w >> 8) & 0xff) as int, ((w >> 16) & 0xff) as int, ((w >> 24) & 0xff) as int]
  }

  function Digest(h: State): (d: seq<byte>)
    ensures |d| == 16
  {
    WordBytes(h.a) + WordBytes(h.b) + WordBytes(h.c) + WordBytes(h.d)
  }

  /** The digest of a message: the fold of the compression function over its padded blocks. */
  function DigestOf(message: seq<byte>): (d: seq<byte>)
    ensures |d| == 16
  {
    PadFills(message, LengthField(|message|));
    Digest(Fold(INIT, Padded(message, LengthField(|message|))))
  }

  // ---------------------------------------------------------------- the unrolled code

  /** What the four macros have in common: add, rotate in place, add. */
  function Accumulate(a: word, b: word, f: word, x: word, s: nat, t: word): word
    requires 0 < s < 32
  {
    RotateLeft(a + (f + x + t), s) + b
  }

  function FF(a: word, b: word, c: word, d: word, x: word, s: nat, t: word): word
    requires 0 < s < 32
  {
    Accumulate(a, b, F(b, c, d), x, s, t)
  }

  function GG(a: word, b: word, c: word, d: word, x: word, s: nat, t: word): word
    requires 0 < s < 32
  {
    Accumulate(a, b, G(b, c, d), x, s, t)
  }

  function HH(a: word, b: word, c: word, d: word, x: word, s: nat, t: word): word
    requires 0 < s < 32
  {
    Accumulate(a, b, H(b, c, d), x, s, t)
  }

  function II(a: word, b: word, c: word, d: word, x: word, s: nat, t: word): word
    requires 0 < s < 32
  {
    Accumulate(a, b, I(b, c, d), x, s, t)
  }

  lemma SumForm(a: word, f: word, x: word, t: word)
    ensures a + (f + x + t) == a + f + x + t
  {
  }

  lemma AccumulateTurns(a: word, b: word, f: word, x: word, s: nat, t: word)
    requires 0 < s < 32
    ensures Accumulate(a, b, f, x, s, t) == Turn(a, b, f, x, s, t)
  {
    hide RotateLeft;
    SumForm(a, f, x, t);
  }

  lemma Step(h: State, x: seq<word>, t: nat, a: word, b: word, c: word, d: word)
    requires |x| == 16 && t < 64
    requires Steps(h, x, t) == State(a, b, c, d)
    ensures Steps(h, x, t + 1)
            == State(d, Accumulate(a, b, Mix(t, b, c, d), x[Index(t)], Shift(t), T(t)), b, c)
  {
    hide Turn, Accumulate, Mix, Shift, T, Index;
    AccumulateTurns(a, b, Mix(t, b, c, d), x[Index(t)], Shift(t), T(t));
  }

  /** Four operations of round 1 bring the registers back to their places. */
  lemma QuadF(h: State, x: seq<word>, t: nat, a: word, b: word, c: word, d: word)
    requires |x| == 16 && 0 <= t <= 12
    requires Steps(h, x, t) == State(a, b, c, d)
    ensures var a' := FF(a, b, c, d, x[Index(t)], Shift(t), T(t));
            var d' := FF(d, a', b, c, x[Index(t + 1)], Shift(t + 1), T(t + 1));
            var c' := FF(c, d', a', b, x[Index(t + 2)], Shift(t + 2), T(t + 2));
            var b' := FF(b, c', d', a', x[Index(t + 3)], Shift(t + 3), T(t + 3));
            Steps(h, x, t + 4) == State(a', b', c', d')
  {
    hide Accumulate, F, G, H, I, Shift, T, Index, Steps;
    var a' := FF(a, b, c, d, x[Index(t)], Shift(t), T(t));
    Step(h, x, t, a, b, c, d);
    var d' := FF(d, a', b, c, x[Index(t + 1)], Shift(t + 1), T(t + 1));
    Step(h, x, t + 1, d, a', b, c);
    var c' := FF(c, d', a', b, x[Index(t + 2)], Shift(t + 2), T(t + 2));
    Step(h, x, t + 2, c, d', a', b);
    Step(h, x, t + 3, b, c', d', a');
  }

  /** Four operations of round 2 bring the registers back to their places. */
  lemma QuadG(h: State, x: seq<word>, t: nat, a: word, b: word, c: word, d: word)
    requires |x| == 16 && 16 <= t <= 28
    requires Steps(h, x, t) == State(a, b, c, d)
    ensures var a' := GG(a, b, c, d, x[Index(t)], Shift(t), T(t));
            var d' := GG(d, a', b, c, x[Index(t + 1)], Shift(t + 1), T(t + 1));
            var c' := GG(c, d', a', b, x[Index(t + 2)], Shift(t + 2), T(t + 2));
            var b' := GG(b, c', d', a', x[Index(t + 3)], Shift(t + 3), T(t + 3));
            Steps(h, x, t + 4) == State(a', b', c', d')
  {
    hide Accumulate, F, G, H, I, Shift, T, Index, Steps;
    var a' := GG(a, b, c, d, x[Index(t)], Shift(t), T(t));
    Step(h, x, t, a, b, c, d);
    var d' := GG(d, a', b, c, x[Index(t + 1)], Shift(t + 1), T(t + 1));
    Step(h, x, t + 1, d, a', b, c);
    var c' := GG(c, d', a', b, x[Index(t + 2)], Shift(t + 2), T(t + 2));
    Step(h, x, t + 2, c, d', a', b);
    Step(h, x, t + 3, b, c', d', a');
  }

  /** Four operations of round 3 bring the registers back to their places. */
  lemma QuadH(h: State, x: seq<word>, t: nat, a: word, b: word, c: word, d: word)
    requires |x| == 16 && 32 <= t <= 44
    requires Steps(h, x, t) == State(a, b, c, d)
    ensures var a' := HH(a, b, c, d, x[Index(t)], Shift(t), T(t));
            var d' := HH(d, a', b, c, x[Index(t + 1)], Shift(t + 1), T(t + 1));
            var c' := HH(c, d', a', b, x[Index(t + 2)], Shift(t + 2), T(t + 2));
            var b' := HH(b, c', d', a', x[Index(t + 3)], Shift(t + 3), T(t + 3));
            Steps(h, x, t + 4) == State(a', b', c', d')
  {
    hide Accumulate, F, G, H, I, Shift, T, Index, Steps;
    var a' := HH(a, b, c, d, x[Index(t)], Shift(t), T(t));
    Step(h, x, t, a, b, c, d);
    var d' := HH(d, a', b, c, x[Index(t + 1)], Shift(t + 1), T(t + 1));
    Step(h, x, t + 1, d, a', b, c);
    var c' := HH(c, d', a', b, x[Index(t + 2)], Shift(t + 2), T(t + 2));
    Step(h, x, t + 2, c, d', a', b);
    Step(h, x, t + 3, b, c', d', a');
  }

  /** Four operations of round 4 bring the registers back to their places. */
  lemma QuadI(h: State, x: seq<word>, t: nat, a: word, b: word, c: word, d: word)
    requires |x| == 16 && 48 <= t <= 60
    requires Steps(h, x, t) == State(a, b, c, d)
    ensures var a' := II(a, b, c, d, x[Index(t)], Shift(t), T(t));
            var d' := II(d, a', b, c, x[Index(t + 1)], Shift(t + 1), T(t + 1));
            var c' := II(c, d', a', b, x[Index(t + 2)], Shift(t + 2), T(t + 2));
            var b' := II(b, c', d', a', x[Index(t + 3)], Shift(t + 3), T(t + 3));
            Steps(h, x, t + 4) == State(a', b', c', d')
  {
    hide Accumulate, F, G, H, I, Shift, T, Index, Steps;
    var a' := II(a, b, c, d, x[Index(t)], Shift(t), T(t));
    Step(h, x, t, a, b, c, d);
    var d' := II(d, a', b, c, x[Index(t + 1)], Shift(t + 1), T(t + 1));
    Step(h, x, t + 1, d, a', b, c);
    var c' := II(c, d', a', b, x[Index(t + 2)], Shift(t + 2), T(t + 2));
    Step(h, x, t + 2, c, d', a', b);
    Step(h, x, t + 3, b, c', d', a');
  }

  lemma Round1Table()
    ensures Index(0) == 0 && Index(1) == 1 && Index(2) == 2 && Index(3) == 3
    ensures Shift(0) == 7 && Shift(1) == 12 && Shift(2) == 17 && Shift(3) == 22
    ensures T(0) == 0xd76aa478 && T(1) == 0xe8c7b756 && T(2) == 0x242070db && T(3) == 0xc1bdceee
    ensures Index(4) == 4 && Index(5) == 5 && Index(6) == 6 && Index(7) == 7
    ensures Shift(4) == 7 && Shift(5) == 12 && Shift(6) == 17 && Shift(7) == 22
    ensures T(4) == 0xf57c0faf && T(5) == 0x4787c62a && T(6) == 0xa8304613 && T(7) == 0xfd469501
    ensures Index(8) == 8 && Index(9) == 9 && Index(10) == 10 && Index(11) == 11
    ensures Shift(8) == 7 && Shift(9) == 12 && Shift(10) == 17 && Shift(11) == 22
    ensures T(8) == 0x698098d8 && T(9) == 0x8b44f7af && T(10) == 0xffff5bb1 && T(11) == 0x895cd7be
    ensures Index(12) == 12 && Index(13) == 13 && Index(14) == 14 && Index(15) == 15
    ensures Shift(12) == 7 && Shift(13) == 12 && Shift(14) == 17 && Shift(15) == 22
    ensures T(12) == 0x6b901122 && T(13) == 0xfd987193 && T(14) == 0xa679438e && T(15) == 0x49b40821
  {
  }

  method Round1(ghost h: State, x: array<word>, g: State) returns (r: State)
    requires x.Length == 16 && g == Steps(h, x[..], 0)
    ensures r == Steps(h, x[..], 16)
  {
    hide FF, GG, HH, II, Steps, Index, Shift, T;
    Round1Table();
    var a, b, c, d := g.a, g.b, g.c, g.d;
    QuadF(h, x[..], 0, a, b, c, d);
    a := FF(a, b, c, d, x[0], 7, 0xd76aa478);
    d := FF(d, a, b, c, x[1], 12, 0xe8c7b756);
    c := FF(c, d, a, b, x[2], 17, 0x242070db);
    b := FF(b, c, d, a, x[3], 22, 0xc1bdceee);
    QuadF(h, x[..], 4, a, b, c, d);
    a := FF(a, b, c, d, x[4], 7, 0xf57c0faf);
    d := FF(d, a, b, c, x[5], 12, 0x4787c62a);
    c := FF(c, d, a, b, x[6], 17, 0xa8304613);
    b := FF(b, c, d, a, x[7], 22, 0xfd469501);
    QuadF(h, x[..], 8, a, b, c, d);
    a := FF(a, b, c, d, x[8], 7, 0x698098d8);
    d := FF(d, a, b, c, x[9], 12, 0x8b44f7af);
    c := FF(c, d, a, b, x[10], 17, 0xffff5bb1);
    b := FF(b, c, d, a, x[11], 22, 0x895cd7be);
    QuadF(h, x[..], 12, a, b, c, d);
    a := FF(a, b, c, d, x[12], 7, 0x6b901122);
    d := FF(d, a, b, c, x[13], 12, 0xfd987193);
    c := FF(c, d, a, b, x[14], 17, 0xa679438e);
    b := FF(b, c, d, a, x[15], 22, 0x49b40821);
    r := State(a, b, c, d);
  }

  lemma Round2Table()
    ensures Index(16) == 1 && Index(17) == 6 && Index(18) == 11 && Index(19) == 0
    ensures Shift(16) == 5 && Shift(17) == 9 && Shift(18) == 14 && Shift(19) == 20
    ensures T(16) == 0xf61e2562 && T(17) == 0xc040b340 && T(18) == 0x265e5a51 && T(19) == 0xe9b6c7aa
    ensures Index(20) == 5 && Index(21) == 10 && Index(22) == 15 && Index(23) == 4
    ensures Shift(20) == 5 && Shift(21) == 9 && Shift(22) == 14 && Shift(23) == 20
    ensures T(20) == 0xd62f105d && T(21) == 0x02441453 && T(22) == 0xd8a1e681 && T(23) == 0xe7d3fbc8
    ensures Index(24) == 9 && Index(25) == 14 && Index(26) == 3 && Index(27) == 8
    ensures Shift(24) == 5 && Shift(25) == 9 && Shift(26) == 14 && Shift(27) == 20
    ensures T(24) == 0x21e1cde6 && T(25) == 0xc33707d6 && T(26) == 0xf4d50d87 && T(27) == 0x455a14ed
    ensures Index(28) == 13 && Index(29) == 2 && Index(30) == 7 && Index(31) == 12
    ensures Shift(28) == 5 && Shift(29) == 9 && Shift(30) == 14 && Shift(31) == 20
    ensures T(28) == 0xa9e3e905 && T(29) == 0xfcefa3f8 && T(30) == 0x676f02d9 && T(31) == 0x8d2a4c8a
  {
  }

  method Round2(ghost h: State, x: array<word>, g: State) returns (r: State)
    requires x.Length == 16 && g == Steps(h, x[..], 16)
    ensures r == Steps(h, x[..], 32)
  {
    hide FF, GG, HH, II, Steps, Index, Shift, T;
    Round2Table();
    var a, b, c, d := g.a, g.b, g.c, g.d;
    QuadG(h, x[..], 16, a, b, c, d);
    a := GG(a, b, c, d, x[1], 5, 0xf61e2562);
    d := GG(d, a, b, c, x[6], 9, 0xc040b340);
    c := GG(c, d, a, b, x[11], 14, 0x265e5a51);
    b := GG(b, c, d, a, x[0], 20, 0xe9b6c7aa);
    QuadG(h, x[..], 20, a, b, c, d);
    a := GG(a, b, c, d, x[5], 5, 0xd62f105d);
    d := GG(d, a, b, c, x[10], 9, 0x02441453);
    c := GG(c, d, a, b, x[15], 14, 0xd8a1e681);
    b := GG(b, c, d, a, x[4], 20, 0xe7d3fbc8);
    QuadG(h, x[..], 24, a, b, c, d);
    a := GG(a, b, c, d, x[9], 5, 0x21e1cde6);
    d := GG(d, a, b, c, x[14], 9, 0xc33707d6);
    c := GG(c, d, a, b, x[3], 14, 0xf4d50d87);
    b := GG(b, c, d, a, x[8], 20, 0x455a14ed);
    QuadG(h, x[..], 28, a, b, c, d);
    a := GG(a, b, c, d, x[13], 5, 0xa9e3e905);
    d := GG(d, a, b, c, x[2], 9, 0xfcefa3f8);
    c := GG(c, d, a, b, x[7], 14, 0x676f02d9);
    b := GG(b, c, d, a, x[12], 20, 0x8d2a4c8a);
    r := State(a, b, c, d);
  }

  lemma Round3Table()
    ensures Index(32) == 5 && Index(33) == 8 && Index(34) == 11 && Index(35) == 14
    ensures Shift(32) == 4 && Shift(33) == 11 && Shift(34) == 16 && Shift(35) == 23
    ensures T(32) == 0xfffa3942 && T(33) == 0x8771f681 && T(34) == 0x6d9d6122 && T(35) == 0xfde5380c
    ensures Index(36) == 1 && Index(37) == 4 && Index(38) == 7 && Index(39) == 10
    ensures Shift(36) == 4 && Shift(37) == 11 && Shift(38) == 16 && Shift(39) == 23
    ensures T(36) == 0xa4beea44 && T(37) == 0x4bdecfa9 && T(38) == 0xf6bb4b60 && T(39) == 0xbebfbc70
    ensures Index(40) == 13 && Index(41) == 0 && Index(42) == 3 && Index(43) == 6
    ensures Shift(40) == 4 && Shift(41) == 11 && Shift(42) == 16 && Shift(43) == 23
    ensures T(40) == 0x289b7ec6 && T(41) == 0xeaa127fa && T(42) == 0xd4ef3085 && T(43) == 0x04881d05
    ensures Index(44) == 9 && Index(45) == 12 && Index(46) == 15 && Index(47) == 2
    ensures Shift(44) == 4 && Shift(45) == 11 && Shift(46) == 16 && Shift(47) == 23
    ensures T(44) == 0xd9d4d039 && T(45) == 0xe6db99e5 && T(46) == 0x1fa27cf8 && T(47) == 0xc4ac5665
  {
  }

  method Round3(ghost h: State, x: array<word>, g: State) returns (r: State)
    requires x.Length == 16 && g == Steps(h, x[..], 32)
    ensures r == Steps(h, x[..], 48)
  {
    hide FF, GG, HH, II, Steps, Index, Shift, T;
    Round3Table();
    var a, b, c, d := g.a, g.b, g.c, g.d;
    QuadH(h, x[..], 32, a, b, c, d);
    a := HH(a, b, c, d, x[5], 4, 0xfffa3942);
    d := HH(d, a, b, c, x[8], 11, 0x8771f681);
    c := HH(c, d, a, b, x[11], 16, 0x6d9d6122);
    b := HH(b, c, d, a, x[14], 23, 0xfde5380c);
    QuadH(h, x[..], 36, a, b, c, d);
    a := HH(a, b, c, d, x[1], 4, 0xa4beea44);
    d := HH(d, a, b, c, x[4], 11, 0x4bdecfa9);
    c := HH(c, d, a, b, x[7], 16, 0xf6bb4b60);
    b := HH(b, c, d, a, x[10], 23, 0xbebfbc70);
    QuadH(h, x[..], 40, a, b, c, d);
    a := HH(a, b, c, d, x[13], 4, 0x289b7ec6);
    d := HH(d, a, b, c, x[0], 11, 0xeaa127fa);
    c := HH(c, d, a, b, x[3], 16, 0xd4ef3085);
    b := HH(b, c, d, a, x[6], 23, 0x04881d05);
    QuadH(h, x[..], 44, a, b, c, d);
    a := HH(a, b, c, d, x[9], 4, 0xd9d4d039);
    d := HH(d, a, b, c, x[12], 11, 0xe6db99e5);
    c := HH(c, d, a, b, x[15], 16, 0x1fa27cf8);
    b := HH(b, c, d, a, x[2], 23, 0xc4ac5665);
    r := State(a, b, c, d);
  }

  lemma Round4Table()
    ensures Index(48) == 0 && Index(49) == 7 && Index(50) == 14 && Index(51) == 5
    ensures Shift(48) == 6 && Shift(49) == 10 && Shift(50) == 15 && Shift(51) == 21
    ensures T(48) == 0xf4292244 && T(49) == 0x432aff97 && T(50) == 0xab9423a7 && T(51) == 0xfc93a039
    ensures Index(52) == 12 && Index(53) == 3 && Index(54) == 10 && Index(55) == 1
    ensures Shift(52) == 6 && Shift(53) == 10 && Shift(54) == 15 && Shift(55) == 21
    ensures T(52) == 0x655b59c3 && T(53) == 0x8f0ccc92 && T(54) == 0xffeff47d && T(55) == 0x85845dd1
    ensures Index(56) == 8 && Index(57) == 15 && Index(58) == 6 && Index(59) == 13
    ensures Shift(56) == 6 && Shift(57) == 10 && Shift(58) == 15 && Shift(59) == 21
    ensures T(56) == 0x6fa87e4f && T(57) == 0xfe2ce6e0 && T(58) == 0xa3014314 && T(59) == 0x4e0811a1
    ensures Index(60) == 4 && Index(61) == 11 && Index(62) == 2 && Index(63) == 9
    ensures Shift(60) == 6 && Shift(61) == 10 && Shift(62) == 15 && Shift(63) == 21
    ensures T(60) == 0xf7537e82 && T(61) == 0xbd3af235 && T(62) == 0x2ad7d2bb && T(63) == 0xeb86d391
  {
  }

  method Round4(ghost h: State, x: array<word>, g: State) returns (r: State)
    requires x.Length == 16 && g == Steps(h, x[..], 48)
    ensures r == Steps(h, x[..], 64)
  {
    hide FF, GG, HH, II, Steps, Index, Shift, T;
    Round4Table();
    var a, b, c, d := g.a, g.b, g.c, g.d;
    QuadI(h, x[..], 48, a, b, c, d);
    a := II(a, b, c, d, x[0], 6, 0xf4292244);
    d := II(d, a, b, c, x[7], 10, 0x432aff97);
    c := II(c, d, a, b, x[14], 15, 0xab9423a7);
    b := II(b, c, d, a, x[5], 21, 0xfc93a039);
    QuadI(h, x[..], 52, a, b, c, d);
    a := II(a, b, c, d, x[12], 6, 0x655b59c3);
    d := II(d, a, b, c, x[3], 10, 0x8f0ccc92);
    c := II(c, d, a, b, x[10], 15, 0xffeff47d);
    b := II(b, c, d, a, x[1], 21, 0x85845dd1);
    QuadI(h, x[..], 56, a, b, c, d);
    a := II(a, b, c, d, x[8], 6, 0x6fa87e4f);
    d := II(d, a, b, c, x[15], 10, 0xfe2ce6e0);
    c := II(c, d, a, b, x[6], 15, 0xa3014314);
    b := II(b, c, d, a, x[13], 21, 0x4e0811a1);
    QuadI(h, x[..], 60, a, b, c, d);
    a := II(a, b, c, d, x[4], 6, 0xf7537e82);
    d := II(d, a, b, c, x[11], 10, 0xbd3af235);
    c := II(c, d, a, b, x[2], 15, 0x2ad7d2bb);
    b := II(b, c, d, a, x[9], 21, 0xeb86d391);
    r := State(a, b, c, d);
  }

  /** `ByteToDWord`: sixteen words, least significant byte first. */
  method ByteToDWord(block: seq<byte>) returns (x: array<word>)
    requires |block| == 64
    ensures fresh(x) && x[..] == Words(block)
  {
    hide LittleEndian;
    x := new word[16];
    var i := 0;
    while i < 16
      invariant 0 <= i <= 16
      invariant forall k :: 0 <= k < i ==> x[k] == LittleEndian(block, k)
    {
      x[i] := DWordAt(block, i);
      i := i + 1;
    }
  }

  method DWordAt(block: seq<byte>, i: nat) returns (x: word)
    requires |block| == 64 && i < 16
    ensures x == LittleEndian(block, i)
  {
    var j := 4 * i;
    x := (block[j] as word) | ((block[j + 1] as word) << 8)
    | ((block[j + 2] as word) << 16) | ((block[j + 3] as word) << 24);
  }

  // ---------------------------------------------------------------- the length counter

  /** The two words count `n` bytes in bits, modulo 2 to the 64. */
  predicate Counts(count0: int, count1: int, n: nat) {
    count0 == 8 * n % TWO_32 && count1 == 8 * n / TWO_32 % TWO_32
  }

  /** The low word alone tells how full the buffer is. */
  lemma IndexFromCount(count0: int, count1: int, n: nat)
    requires Counts(count0, count1, n)
    ensures count0 / 8 % 64 == n % 64
  {
    var high := 8 * n / TWO_32;
    assert 8 * n == high * TWO_32 + count0;
    assert count0 / 8 == n - high * 0x2000_0000;
    DivModUnique(n, high * 0x80_0000 + count0 / 8 / 64, count0 / 8 % 64, 64);
  }

  /** One addition with its carry, as the code spots it: the sum comes out below what was added. */
  lemma CarryOnce(x: int, y: int, sum: int)
    requires 0 <= x < TWO_32 && 0 <= y < TWO_32 && sum == (x + y) % TWO_32
    ensures x + y == sum + (if sum < y then TWO_32 else 0)
  {
  }

  lemma ModAdd(x: int, y: int)
    ensures (x % TWO_32 + y) % TWO_32 == (x + y) % TWO_32
  {
    var q := x / TWO_32;
    assert x % TWO_32 + y == x + y - q * TWO_32;
    DivModUnique(x % TWO_32 + y, (x + y) / TWO_32 - q, (x + y) % TWO_32, TWO_32);
  }

  /** Adding counts: the low words with their carry, the high words modulo 2 to the 32. */
  lemma CountsAdd(count0: int, count1: int, n: nat, low: int, high: int, length: nat, carry: int, sum0: int)
    requires Counts(count0, count1, n)
    requires 8 * length == high * TWO_32 + low
    requires count0 + low == sum0 + carry * TWO_32 && 0 <= sum0 < TWO_32
    ensures Counts(sum0, (count1 + carry + high) % TWO_32, n + length)
  {
    var top := 8 * n / TWO_32;
    DivModUnique(8 * (n + length), top + high + carry, sum0, TWO_32);
    ModAdd(top, carry + high);
  }

  method AddBits(count0: int, count1: int, length: int, ghost n: nat) returns (sum0: int, sum1: int)
    requires Counts(count0, count1, n) && 0 <= length < TWO_32
    ensures Counts(sum0, sum1, n + length)
  {
    var low := length * 8 % TWO_32;
    sum0 := (count0 + low) % TWO_32;
    CarryOnce(count0, low, sum0);
    DivModUnique(8 * length, length / 0x2000_0000, 8 * (length % 0x2000_0000), TWO_32);
    CountsAdd(count0, count1, n, low, length / 0x2000_0000, length, if sum0 < low then 1 else 0, sum0);
    hide Counts;
    sum1 := count1;
    if sum0 < low {
      sum1 := (sum1 + 1) % TWO_32;
      ModAdd(count1 + 1, length / 0x2000_0000);
    }
    sum1 := (sum1 + length / 0x2000_0000) % TWO_32;
  }

  // ---------------------------------------------------------------- the handle

  class Md5Handle {
    const buffer: array<byte>
    var count0: int
    var count1: int
    var md5: State

    /** Everything fed since the start, and the whole blocks of it. */
    ghost var message: seq<byte>
    ghost var whole: seq<byte>

    ghost predicate Valid()
      reads this, buffer
    {
      && buffer.Length == BLOCK
      && Counts(count0, count1, |message|)
      && |whole| % BLOCK == 0
      && md5 == Fold(INIT, whole)
      && 0 <= |message| - |whole| < BLOCK
      && message == whole + buffer[..|message| - |whole|]
    }

    constructor ()
      ensures Valid() && fresh(buffer) && message == []
    {
      buffer := new byte[BLOCK];
      count0, count1, md5 := 0, 0, INIT;
      message, whole := [], [];
    }

    /** How full the buffer is, read off the low word of the counter. */
    lemma Fill()
      requires Valid()
      ensures count0 / 8 % 64 == |message| - |whole| == |message| % BLOCK
    {
      hide Fold;
      IndexFromCount(count0, count1, |message|);
      DivModUnique(|message|, |whole| / BLOCK, |message| - |whole|, BLOCK);
    }

    method Transform(block: seq<byte>)
      requires |block| == 64
      modifies `md5
      ensures md5 == Compress(old(md5), block)
    {
      hide Steps, Words, Plus;
      NoSteps(md5, Words(block));
      var x := ByteToDWord(block);
      var g := md5;
      g := Round1(md5, x, g);
      g := Round2(md5, x, g);
      g := Round3(md5, x, g);
      g := Round4(md5, x, g);
      md5 := Plus(md5, g);
    }

    /** `memcpy` into the buffer. */
    method Keep(index: int, data: seq<byte>)
      requires 0 <= index && index + |data| <= buffer.Length
      modifies buffer
      ensures buffer[..index] == old(buffer[..index])
      ensures buffer[index..index + |data|] == data
    {
      forall k | 0 <= k < |data| {
        buffer[index + k] := data[k];
      }
    }

    method Update(input: seq<byte>)
      requires Valid() && |input| < 0x8000_0000
      modifies this, buffer
      ensures Valid() && message == old(message) + input
    {
      hide Fold, Compress, Counts;
      Fill();
      var index := count0 / 8 % 64;
      count0, count1 := AddBits(count0, count1, |input|, |message|);
      message := message + input;
      var i, partLength := 0, 64 - index;
      if |input| >= partLength {
        Complete(index, input[..partLength]);
        i := Blocks(input, partLength);
        index := 0;
      }
      BufferRest(index, input[i..]);
    }

    /** What is left of the input, behind what the buffer holds. */
    method BufferRest(index: int, rest: seq<byte>)
      requires buffer.Length == BLOCK && 0 <= index && index + |rest| < BLOCK
      requires Counts(count0, count1, |message|)
      requires |whole| % BLOCK == 0 && md5 == Fold(INIT, whole)
      requires message == whole + (buffer[..index] + rest)
      modifies buffer
      ensures Valid()
    {
      hide Fold, Counts;
      ghost var tail := buffer[..index];
      Keep(index, rest);
      assert buffer[..index + |rest|] == tail + rest;
    }

    /** The loop over the whole blocks of the input. */
    method Blocks(input: seq<byte>, start: int) returns (i: int)
      requires 0 <= start <= |input|
      requires |whole| % BLOCK == 0 && message == whole + input[start..]
      requires md5 == Fold(INIT, whole)
      modifies `md5, `whole
      ensures start <= i <= |input| < i + 64
      ensures |whole| % BLOCK == 0 && message == whole + input[i..]
      ensures md5 == Fold(INIT, whole)
    {
      hide Fold;
      i := start;
      while i + 63 < |input|
        invariant start <= i <= |input|
        invariant |whole| % BLOCK == 0 && message == whole + input[i..]
        invariant md5 == Fold(INIT, whole)
      {
        assert input[i..] == input[i..i + 64] + input[i + 64..];
        Absorb(input[i..i + 64]);
        i := i + 64;
      }
    }

    /** The buffer filled up and taken in. */
    method Complete(index: int, head: seq<byte>)
      requires buffer.Length == BLOCK && 0 <= index && index + |head| == BLOCK
      requires |whole| % BLOCK == 0 && md5 == Fold(INIT, whole)
      modifies `md5, `whole, buffer
      ensures whole == old(whole) + (old(buffer[..index]) + head)
      ensures |whole| % BLOCK == 0 && md5 == Fold(INIT, whole)
    {
      hide Fold;
      ghost var tail := buffer[..index];
      Keep(index, head);
      assert buffer[..] == tail + head;
      Absorb(buffer[..]);
    }

    /** One block more. */
    method Absorb(block: seq<byte>)
      requires |whole| % BLOCK == 0 && md5 == Fold(INIT, whole) && |block| == BLOCK
      modifies `md5, `whole
      ensures whole == old(whole) + block
      ensures |whole| % BLOCK == 0 && md5 == Fold(INIT, whole)
    {
      FoldBlock(INIT, whole, block);
      Transform(block);
      whole := whole + block;
    }

    /** The digest in hexadecimal, as much of it as fits in a buffer of `outLength` characters. */
    method Final(outLength: int) returns (out: string)
      requires Valid()
      modifies this, buffer
      ensures out == Hex(DigestOf(old(message)))[..2 * HexBytes(outLength)]
    {
      hide Fold, Counts, Digest, Padded, Zeros, Padding, LengthField, Hex, HexBytes;
      var bits := EncodeInt32LE(count0) + EncodeInt32LE(count1);
      LengthBytes(count0, count1, |message|);
      Fill();
      var index := count0 / 8 % 64;
      var padLength := if index < 56 then 56 - index else 120 - index;
      PaddingIs(message, bits, padLength);
      Update(Padding()[..padLength]);
      Update(bits);
      Fill();
      assert whole == message;
      out := HexOut(Digest(md5), outLength);
    }
  }

  lemma NoSteps(h: State, x: seq<word>)
    requires |x| == 16
    ensures Steps(h, x, 0) == h
  {
  }

  function Padding(): (p: seq<byte>)
    ensures |p| == 64
  {
    [0x80] + Zeros(63)
  }

  lemma LengthBytes(count0: int, count1: int, n: nat)
    requires Counts(count0, count1, n)
    ensures EncodeInt32LE(count0) + EncodeInt32LE(count1) == LengthField(n)
  {
    SameLowWordLE(8 * n, count0);
    SameLowWordLE(8 * n / TWO_32, count1);
  }

  lemma PaddingIs(message: seq<byte>, bits: seq<byte>, padLength: nat)
    requires |bits| == 8 && padLength <= 64
    requires padLength == if |message| % BLOCK < 56 then 56 - |message| % BLOCK else 120 - |message| % BLOCK
    ensures message + Padding()[..padLength] + bits == Padded(message, bits)
    ensures |Padded(message, bits)| % BLOCK == 0
  {
    PadFills(message, bits);
    assert Padding()[..padLength] == [0x80] + Zeros(padLength - 1);
  }

  // ---------------------------------------------------------------- hexadecimal output

  function HexDigit(n: nat): char
    requires n < 16
  {
    "0123456789abcdef"[n]
  }

  /** Two digits a byte. */
  function Hex(data: seq<byte>): (h: string)
    ensures |h| == 2 * |data|
  {
    if data == [] then ""
    else Hex(data[..|data| - 1]) + [HexDigit(data[|data| - 1] as int / 16), HexDigit(data[|data| - 1] as int % 16)]
  }

  /** What `%x` prints: no leading zeros. */
  function PercentX(n: nat): string {
    if n < 16 then [HexDigit(n)] else PercentX(n / 16) + [HexDigit(n % 16)]
  }

  lemma PercentXOfByte(n: byte)
    ensures n == 0 ==> "00" == Hex([n])
    ensures n < 16 ==> "0" + PercentX(n as int) == Hex([n])
    ensures 16 <= n ==> PercentX(n as int) == Hex([n])
  {
    assert [n][..0] == [];
    if n >= 16 {
      assert PercentX(n as int / 16) == [HexDigit(n as int / 16)];
    }
  }

  lemma HexSnoc(data: seq<byte>, n: byte)
    ensures Hex(data + [n]) == Hex(data) + Hex([n])
  {
    assert (data + [n])[..|data|] == data && [n][..0] == [];
  }

  /** How many bytes are written: the loop stops with two characters, or fewer, to spare. */
  function HexBytes(outLength: int): nat {
    Min(16, if outLength < 3 then 0 else (outLength - 1) / 2)
  }

  /** As many bytes are printed as leave room for a terminator. */
  lemma HexBytesFit(outLength: int, k: nat)
    ensures 0 < k ==> (k <= HexBytes(outLength) <==> k <= 16 && 2 * k + 1 <= outLength)
  {
  }

  lemma {:induction false} HexPrefix(data: seq<byte>, n: nat)
    requires n <= |data|
    ensures Hex(data[..n]) == Hex(data)[..2 * n]
  {
    if n < |data| {
      HexPrefix(data[..|data| - 1], n);
      assert data[..|data| - 1][..n] == data[..n];
    } else {
      assert data[..n] == data;
    }
  }

  method HexOut(digest: seq<byte>, outLength: int) returns (out: string)
    requires |digest| == 16
    ensures out == Hex(digest)[..2 * HexBytes(outLength)]
  {
    hide Hex, PercentX, HexBytes;
    NoHex();
    out := "";
    var i := 0;
    assert digest[..0] == [];
    while i < 16 && outLength - |out| > 2
      invariant 0 <= i <= 16 && 2 * i <= (if outLength < 3 then 0 else outLength - 1)
      invariant out == Hex(digest[..i])
    {
      PercentXOfByte(digest[i]);
      HexSnoc(digest[..i], digest[i]);
      if digest[i] == 0 {
        out := out + "00";
      } else if digest[i] <= 15 {
        out := out + "0" + PercentX(digest[i] as int);
      } else {
        out := out + PercentX(digest[i] as int);
      }
      assert digest[..i + 1] == digest[..i] + [digest[i]];
      i := i + 1;
    }
    HexPrefix(digest, i);
    BytesWritten(outLength, i);
  }

  lemma NoHex()
    ensures Hex([]) == ""
  {
  }

  lemma BytesWritten(outLength: int, i: nat)
    requires i <= 16 && 2 * i <= (if outLength < 3 then 0 else outLength - 1)
    requires i == 16 || outLength - 2 * i <= 2
    ensures i == HexBytes(outLength)
  {
  }

  // ---------------------------------------------------------------- the two entry points

  method GetMd5(data: seq<byte>, outLength: int) returns (out: string)
    requires |data| < 0x8000_0000
    ensures out == Hex(DigestOf(data))[..2 * HexBytes(outLength)]
  {
    hide DigestOf, Hex, HexBytes, Fold, Counts;
    var handle := new Md5Handle();
    handle.Update(data);
    assert handle.message == data;
    out := handle.Final(outLength);
  }

  /** The file's reads may return any number of bytes up to 32768: the digest never shows the cuts. */
  method GetMd5File(contents: seq<byte>, outLength: int) returns (out: string)
    ensures out == Hex(DigestOf(contents))[..2 * HexBytes(outLength)]
  {
    hide DigestOf, Hex, HexBytes, Fold, Counts;
    var handle := new Md5Handle();
    var position := 0;
    while position < |contents|
      invariant 0 <= position <= |contents|
      invariant handle.Valid() && fresh(handle) && fresh(handle.buffer)
      invariant handle.message == contents[..position]
      decreases |contents| - position
    {
      var length: int :| 0 < length <= 32768 && position + length <= |contents|;
      assert contents[..position + length] == contents[..position] + contents[position..position + length];
      handle.Update(contents[position..position + length]);
      position := position + length;
    }
    assert contents[..position] == contents;
    out := handle.Final(outLength);
  }
}
