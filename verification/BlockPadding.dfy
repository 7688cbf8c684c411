/** The padding the two hashes share: a one bit, zeros, and a length field of eight bytes
    (section 3.1 of RFC 1321; section 5.1.1 of FIPS 180-4). */
module BlockPadding {
  import opened Bytes

  const TWO_32: int := 0x1_0000_0000
  const BLOCK: int := 64

  function Zeros(n: nat): (z: seq<byte>)
    ensures |z| == n
  {
    seq(n, _ => 0)
  }

  function ZerosNeeded(r: nat): nat
    requires r < BLOCK
  {
    if r <= 55 then 55 - r else 119 - r
  }

  function Padded(message: seq<byte>, length: seq<byte>): seq<byte>
    requires |length| == 8
  {
    message + [0x80] + Zeros(ZerosNeeded(|message| % BLOCK)) + length
  }

  /** The padded length is a whole number of blocks, and the least one that fits. */
  lemma PadFills(message: seq<byte>, length: seq<byte>)
    requires |length| == 8
    ensures |Padded(message, length)| % BLOCK == 0
    ensures |message| + 9 <= |Padded(message, length)| < |message| + 9 + BLOCK
  {
    var q, r := |message| / BLOCK, |message| % BLOCK;
    DivModUnique(|Padded(message, length)|, if r <= 55 then q + 1 else q + 2, 0, BLOCK);
  }

  /** A multiple of the block length stays one when a block is added. */
  lemma WholeBlocks(a: int, b: int)
    requires a % BLOCK == 0 && b % BLOCK == 0
    ensures (a + b) % BLOCK == 0
  {
  }

  /** The padded message, cut at a block boundary: one last block when the tail leaves room
      for the length, two otherwise. */
  lemma PaddedByBlocks(whole: seq<byte>, tail: seq<byte>, length: seq<byte>)
    requires |whole| % BLOCK == 0 && |tail| < BLOCK && |length| == 8
    ensures |tail| <= 55 ==> Padded(whole + tail, length) == whole + (tail + [0x80] + Zeros(55 - |tail|) + length)
    ensures |tail| > 55 ==>
              Padded(whole + tail, length) == whole + (tail + [0x80] + Zeros(63 - |tail|)) + (Zeros(56) + length)
  {
    DivModUnique(|whole + tail|, |whole| / BLOCK, |tail|, BLOCK);
    if |tail| > 55 {
      assert Zeros(119 - |tail|) == Zeros(63 - |tail|) + Zeros(56);
    }
  }

  /** Two messages padded alike are the same message: the last one bit marks where the message ends. */
  lemma {:induction false} PaddedIsInjective(m: seq<byte>, n: seq<byte>, lm: seq<byte>, ln: seq<byte>)
    requires |lm| == 8 && |ln| == 8
    requires Padded(m, lm) == Padded(n, ln)
    ensures m == n && lm == ln
  {
    var p, q := Padded(m, lm), Padded(n, ln);
    assert p[|m|] == 0x80 && forall k :: |m| < k < |p| - 8 ==> p[k] == 0;
    assert q[|n|] == 0x80 && forall k :: |n| < k < |q| - 8 ==> q[k] == 0;
    assert |m| == |n|;
    assert m == p[..|m|] == q[..|n|] == n;
    assert lm == p[|p| - 8..] == q[|q| - 8..] == ln;
  }

  lemma DigitsAgree(a: byte, b: byte, c: byte, d: byte, a': byte, b': byte, c': byte, d': byte)
    requires a as int * 0x100_0000 + b as int * 0x1_0000 + c as int * 0x100 + d as int
             == a' as int * 0x100_0000 + b' as int * 0x1_0000 + c' as int * 0x100 + d' as int
    ensures a == a' && b == b' && c == c' && d == d'
  {
  }

  /** Only the low 32 bits of a number are stored. */
  lemma SameLowWord(n: nat, low: nat)
    requires n % TWO_32 == low
    ensures EncodeInt32(n) == EncodeInt32(low)
  {
    var u, v := EncodeInt32(n), EncodeInt32(low);
    assert u[0..4] == u && v[0..4] == v;
    hide EncodeInt32;
    RoundTrip32(n, u, 0);
    RoundTrip32(low, v, 0);
    DigitsAgree(u[0], u[1], u[2], u[3], v[0], v[1], v[2], v[3]);
  }

  lemma SameLowWordLE(n: nat, low: nat)
    requires n % TWO_32 == low
    ensures EncodeInt32LE(n) == EncodeInt32LE(low)
  {
    SameLowWord(n, low);
    assert forall k: int :: 0 <= k < 4 ==> EncodeInt32LE(n)[k] == EncodeInt32(n)[3 - k];
  }
}
