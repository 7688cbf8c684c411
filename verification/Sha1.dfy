/** SHA-1, fed byte by byte. */
module Sha1 {
  import opened BlockPadding
  import opened Bytes

  type word = bv32

  datatype Hash = Hash(a: word, b: word, c: word, d: word, e: word)

  const INIT := Hash(0x67452301, 0xEFCDAB89, 0x98BADCFE, 0x10325476, 0xC3D2E1F0)

  // ---------------------------------------------------------------- the compression function of FIPS 180-4

  function RotL(x: word, n: nat): word
    requires 0 < n < 32
  {
    (x << n) | (x >> (32 - n))
  }

  function Ch(x: word, y: word, z: word): word {
    (x & y) ^ (!x & z)
  }

  function Parity(x: word, y: word, z: word): word {
    x ^ y ^ z
  }

  function Maj(x: word, y: word, z: word): word {
    (x & y) ^ (x & z) ^ (y & z)
  }

  function F(t: nat, x: word, y: word, z: word): word {
    if t < 20 then Ch(x, y, z) else if t < 40 then Parity(x, y, z) else if t < 60 then Maj(x, y, z) else Parity(x, y, z)
  }

  function K(t: nat): word {
    if t < 20 then 0x5A827999 else if t < 40 then 0x6ED9EBA1 else if t < 60 then 0x8F1BBCDC else 0xCA62C1D6
  }

  function BigEndian(block: seq<byte>, t: nat): word
    requires |block| == 64 && t < 16
  {
    ((block[4 * t] as word) << 24) | ((block[4 * t + 1] as word) << 16)
    | ((block[4 * t + 2] as word) << 8) | (block[4 * t + 3] as word)
  }

  function Xor4(a: word, b: word, c: word, d: word): word {
    a ^ b ^ c ^ d
  }

  /** The message schedule of section 6.1.2. */
  function W(block: seq<byte>, t: nat): word
    requires |block| == 64
  {
    if t < 16 then BigEndian(block, t)
    else RotL(Xor4(W(block, t - 3), W(block, t - 8), W(block, t - 14), W(block, t - 16)), 1)
  }

  function Sum5(x: word, f: word, e: word, w: word, k: word): word {
    x + f + e + w + k
  }

  function Round(h: Hash, f: word, k: word, w: word): Hash {
    Hash(Sum5(RotL(h.a, 5), f, h.e, w, k), h.a, RotL(h.b, 30), h.c, h.d)
  }

  /** The working variables after `t` rounds. */
  function Rounds(h: Hash, block: seq<byte>, t: nat): Hash
    requires |block| == 64
  {
    if t == 0 then h else
    var g := Rounds(h, block, t - 1);
    Round(g, F(t - 1, g.b, g.c, g.d), K(t - 1), W(block, t - 1))
  }

  function Plus(h: Hash, g: Hash): Hash {
    Hash(h.a + g.a, h.b + g.b, h.c + g.c, h.d + g.d, h.e + g.e)
  }

  function Compress(h: Hash, block: seq<byte>): Hash
    requires |block| == 64
  {
    Plus(h, Rounds(h, block, 80))
  }

  /** Choice and majority as the code writes them, with "or". */
  function ChOr(x: word, y: word, z: word): word {
    (x & y) | ((!x) & z)
  }

  function MajOr(x: word, y: word, z: word): word {
    (x & y) | (x & z) | (y & z)
  }

  /** The bits joined by "or" never overlap, or agree. */
  lemma ChForm(x: word, y: word, z: word)
    ensures (x & y) | ((!x) & z) == (x & y) ^ (!x & z)
  {
  }

  lemma MajForm(x: word, y: word, z: word)
    ensures (x & y) | (x & z) | (y & z) == (x & y) ^ (x & z) ^ (y & z)
  {
  }

  lemma OrForms(x: word, y: word, z: word)
    ensures ChOr(x, y, z) == Ch(x, y, z)
    ensures MajOr(x, y, z) == Maj(x, y, z)
  {
    ChForm(x, y, z);
    MajForm(x, y, z);
  }

  /** Which function and constant a round uses, in the code's forms. */
  lemma Phases(t: nat, x: word, y: word, z: word)
    ensures t < 20 ==> F(t, x, y, z) == ChOr(x, y, z) && K(t) == 0x5A827999
    ensures 20 <= t < 40 ==> F(t, x, y, z) == Parity(x, y, z) && K(t) == 0x6ED9EBA1
    ensures 40 <= t < 60 ==> F(t, x, y, z) == MajOr(x, y, z) && K(t) == 0x8F1BBCDC
    ensures 60 <= t < 80 ==> F(t, x, y, z) == Parity(x, y, z) && K(t) == 0xCA62C1D6
  {
    OrForms(x, y, z);
    hide Ch, Maj, Parity, ChOr, MajOr;
  }

  lemma NoRounds(h: Hash, block: seq<byte>)
    requires |block| == 64
    ensures Rounds(h, block, 0) == h
  {
  }

  lemma RoundStep(h: Hash, block: seq<byte>, t: nat, a: word, b: word, c: word, d: word, e: word)
    requires |block| == 64 && t < 80
    requires Hash(a, b, c, d, e) == Rounds(h, block, t)
    ensures Rounds(h, block, t + 1)
            == Hash(Sum5(RotL(a, 5), F(t, b, c, d), e, W(block, t), K(t)), a, RotL(b, 30), c, d)
  {
    hide F, K, W, RotL, Sum5;
  }

  // ---------------------------------------------------------------- the specification of the digest

  /** The hash of a whole number of blocks. */
  function Fold(h: Hash, data: seq<byte>): Hash
    requires |data| % 64 == 0
    decreases |data|
  {
    if |data| == 0 then h
    else Compress(Fold(h, data[..|data| - 64]), data[|data| - 64..])
  }

  /** The length field is the length in bits as 64 bits, most significant byte first. */
  function Pad(message: seq<byte>): seq<byte> {
    var bits := 8 * |message|;
    Padded(message, EncodeInt32(bits / TWO_32) + EncodeInt32(bits))
  }

  /** The digest of a message: the fold of the compression function over its padded blocks. */
  ghost function DigestOf(message: seq<byte>): (d: seq<byte>)
    ensures |d| == 20
  {
    PadFills(message, EncodeInt32(8 * |message| / TWO_32) + EncodeInt32(8 * |message|));
    Digest(Fold(INIT, Pad(message)))
  }

  function ByteOf(w: word, shift: nat): byte
    requires shift < 32
  {
    ((w >> shift) & 0xFF) as int
  }

  function DigestByte(h: Hash, i: nat): byte
    requires i < 20
  {
    var w := [h.a, h.b, h.c, h.d, h.e][i / 4];
    ByteOf(w, 8 * (3 - i % 4))
  }

  function Digest(h: Hash): (d: seq<byte>)
    ensures |d| == 20
  {
    seq(20, i requires 0 <= i < 20 => DigestByte(h, i))
  }

  lemma FoldBlock(h: Hash, data: seq<byte>, block: seq<byte>)
    requires |data| % BLOCK == 0 && |block| == BLOCK
    ensures |data + block| % BLOCK == 0
    ensures Fold(h, data + block) == Compress(Fold(h, data), block)
  {
    hide Compress;
    WholeBlocks(|data|, |block|);
    assert (data + block)[..|data + block| - 64] == data;
    assert (data + block)[|data + block| - 64..] == block;
  }

  // ---------------------------------------------------------------- the context

  const SUCCESS := 0
  const TOO_LONG := 1
  const STATE_ERROR := 3

  /** Length, in bytes, at which the 64-bit counter of bits wraps. */
  const LIMIT: int := 0x2000_0000_0000_0000

  class Sha1Context {
    const block: array<byte>
    var index: int
    var lengthLow: int
    var lengthHigh: int
    var hash: Hash
    var computed: bool
    var corrupted: int

    /** Everything fed since the reset, and the part of it that filled whole blocks. */
    ghost var message: seq<byte>
    ghost var whole: seq<byte>

    ghost predicate Buffered()
      reads this, block
    {
      && block.Length == BLOCK
      && 0 <= index < BLOCK
      && |whole| % BLOCK == 0
      && message == whole + block[..index]
      && hash == Fold(INIT, whole)
    }

    /** The two words count `n` bytes in bits, modulo 2 to the 64. */
    ghost predicate Counts(n: nat)
      reads this
    {
      && n <= LIMIT
      && 0 <= lengthLow < TWO_32 && lengthLow % 8 == 0
      && 0 <= lengthHigh < TWO_32
      && lengthHigh * TWO_32 + lengthLow == (if n == LIMIT then 0 else 8 * n)
      && corrupted == (if n == LIMIT then TOO_LONG else SUCCESS)
    }

    ghost predicate Finished()
      reads this
    {
      && |message| < LIMIT
      && |Pad(message)| % BLOCK == 0
      && hash == Fold(INIT, Pad(message))
      && (corrupted == SUCCESS || corrupted == STATE_ERROR)
    }

    ghost predicate Valid()
      reads this, block
    {
      && block.Length == BLOCK
      && if computed then Finished() else Buffered() && Counts(|message|)
    }

    constructor ()
      ensures Valid() && fresh(block)
      ensures message == [] && !computed && corrupted == SUCCESS
    {
      block := new byte[BLOCK];
      index, lengthLow, lengthHigh := 0, 0, 0;
      hash, computed, corrupted := INIT, false, SUCCESS;
      message, whole := [], [];
    }

    method ProcessMessageBlock()
      requires block.Length == BLOCK
      modifies `hash, `index
      ensures hash == Compress(old(hash), block[..])
      ensures index == 0
    {
      hide RotL, Parity, ChOr, MajOr, Sum5, F, K, W, Round, Plus, Rounds;
      NoRounds(hash, block[..]);
      ghost var data := block[..];
      var w := MessageSchedule();
      assert block[..] == data;
      assert forall t :: 0 <= t < 80 ==> w[t] == W(data, t);
      var a, b, c, d, e := hash.a, hash.b, hash.c, hash.d, hash.e;
      var t := 0;
      while t < 20
        invariant 0 <= t <= 20
        invariant Hash(a, b, c, d, e) == Rounds(hash, data, t)
        modifies {}
      {
        RoundStep(hash, data, t, a, b, c, d, e);
        Phases(t, b, c, d);
        var temp := Sum5(RotL(a, 5), ChOr(b, c, d), e, w[t], 0x5A827999);
        e, d, c, b, a := d, c, RotL(b, 30), a, temp;
        t := t + 1;
      }
      while t < 40
        invariant 20 <= t <= 40
        invariant Hash(a, b, c, d, e) == Rounds(hash, data, t)
        modifies {}
      {
        RoundStep(hash, data, t, a, b, c, d, e);
        Phases(t, b, c, d);
        var temp := Sum5(RotL(a, 5), Parity(b, c, d), e, w[t], 0x6ED9EBA1);
        e, d, c, b, a := d, c, RotL(b, 30), a, temp;
        t := t + 1;
      }
      while t < 60
        invariant 40 <= t <= 60
        invariant Hash(a, b, c, d, e) == Rounds(hash, data, t)
        modifies {}
      {
        RoundStep(hash, data, t, a, b, c, d, e);
        Phases(t, b, c, d);
        var temp := Sum5(RotL(a, 5), MajOr(b, c, d), e, w[t], 0x8F1BBCDC);
        e, d, c, b, a := d, c, RotL(b, 30), a, temp;
        t := t + 1;
      }
      while t < 80
        invariant 60 <= t <= 80
        invariant Hash(a, b, c, d, e) == Rounds(hash, data, t)
        modifies {}
      {
        RoundStep(hash, data, t, a, b, c, d, e);
        Phases(t, b, c, d);
        var temp := Sum5(RotL(a, 5), Parity(b, c, d), e, w[t], 0xCA62C1D6);
        e, d, c, b, a := d, c, RotL(b, 30), a, temp;
        t := t + 1;
      }
      hash := Plus(hash, Hash(a, b, c, d, e));
      index := 0;
    }

    method MessageSchedule() returns (w: array<word>)
      requires block.Length == BLOCK
      ensures fresh(w) && w.Length == 80
      ensures forall t :: 0 <= t < 80 ==> w[t] == W(block[..], t)
    {
      hide RotL, BigEndian, Xor4;
      w := new word[80];
      var t := 0;
      while t < 16
        invariant 0 <= t <= 16
        invariant forall k :: 0 <= k < t ==> w[k] == W(block[..], k)
      {
        w[t] := BlockWord(t);
        t := t + 1;
      }
      while t < 80
        invariant 16 <= t <= 80
        invariant forall k :: 0 <= k < t ==> w[k] == W(block[..], k)
      {
        w[t] := RotL(Xor4(w[t - 3], w[t - 8], w[t - 14], w[t - 16]), 1);
        t := t + 1;
      }
    }

    method BlockWord(t: int) returns (x: word)
      requires block.Length == BLOCK && 0 <= t < 16
      ensures x == BigEndian(block[..], t)
    {
      x := (block[4 * t] as word) << 24;
      x := x | ((block[4 * t + 1] as word) << 16);
      x := x | ((block[4 * t + 2] as word) << 8);
      x := x | (block[4 * t + 3] as word);
    }

    method StoreByte(b: byte)
      requires block.Length == BLOCK && 0 <= index < BLOCK
      modifies block, `index
      ensures index == old(index) + 1
      ensures block[..index] == old(block[..index]) + [b]
      ensures index == BLOCK ==> block[..] == block[..index]
    {
      block[index] := b;
      index := index + 1;
    }

    method CountByte(ghost n: nat)
      requires Counts(n) && n < LIMIT
      modifies `lengthLow, `lengthHigh, `corrupted
      ensures Counts(n + 1)
    {
      lengthLow := (lengthLow + 8) % TWO_32;
      if lengthLow == 0 {
        lengthHigh := (lengthHigh + 1) % TWO_32;
        if lengthHigh == 0 {
          corrupted := TOO_LONG;
        }
      }
    }

    /** One turn of the loop of `Input`. */
    method InputByte(b: byte)
      requires Valid() && !computed && corrupted == SUCCESS
      modifies this, block
      ensures Valid() && !computed
      ensures message == old(message) + [b]
    {
      hide Fold, Compress, Pad, Finished;
      StoreByte(b);
      CountByte(|message|);
      message := message + [b];
      assert message == whole + block[..index];
      if index == BLOCK {
        FoldBlock(INIT, whole, block[..]);
        ProcessMessageBlock();
        whole := message;
        assert message == whole + block[..0];
      }
    }

    method Input(data: seq<byte>) returns (status: int)
      requires Valid()
      modifies this, block
      ensures Valid() && computed == old(computed)
      ensures data == [] ==> status == SUCCESS && corrupted == old(corrupted) && message == old(message)
      ensures data != [] && computed ==> status == STATE_ERROR == corrupted && message == old(message)
      ensures data != [] && !computed && old(corrupted) != SUCCESS ==>
                status == corrupted == old(corrupted) && message == old(message)
      ensures data != [] && !computed && old(corrupted) == SUCCESS ==>
                && status == SUCCESS
                && message == old(message) + data[..Min(|data|, LIMIT - |old(message)|)]
      ensures data != [] && !computed && old(corrupted) == SUCCESS ==>
                corrupted == if |old(message)| + |data| < LIMIT then SUCCESS else TOO_LONG
      ensures computed ==> hash == old(hash)
    {
      hide Fold, Pad;
      if |data| == 0 {
        return SUCCESS;
      }
      if computed {
        corrupted := STATE_ERROR;
        return STATE_ERROR;
      }
      if corrupted != SUCCESS {
        return corrupted;
      }
      var i := 0;
      while i < |data| && corrupted == SUCCESS
        invariant 0 <= i <= |data|
        invariant Valid() && !computed
        invariant message == old(message) + data[..i]
      {
        InputByte(data[i]);
        i := i + 1;
      }
      return SUCCESS;
    }

    method ZeroTo(limit: int)
      requires block.Length == BLOCK && 0 <= index <= limit <= BLOCK
      modifies block, `index
      ensures index == limit
      ensures block[..limit] == old(block[..index]) + Zeros(limit - old(index))
      ensures old(index) == 0 ==> block[..limit] == Zeros(limit)
    {
      ghost var start, before := index, block[..index];
      while index < limit
        invariant start <= index <= limit
        invariant block[..index] == before + Zeros(index - start)
      {
        block[index] := 0;
        index := index + 1;
        assert block[..index] == block[..index - 1] + [0];
        assert Zeros(index - start) == Zeros(index - 1 - start) + [0];
      }
    }

    method PadMessage()
      requires Valid() && !computed && corrupted == SUCCESS
      modifies this, block
      ensures message == old(message) && computed == old(computed) && corrupted == old(corrupted)
      ensures |Pad(message)| % BLOCK == 0
      ensures hash == Fold(INIT, Pad(message))
    {
      hide Fold, Compress, Zeros, Pad, Padded, EncodeInt32;
      ghost var tail, length := block[..index], EncodeInt32(lengthHigh) + EncodeInt32(lengthLow);
      CountedBits();
      PadFills(message, length);
      PaddedByBlocks(whole, tail, length);
      ghost var done := whole;
      if index > 55 {
        MarkEnd(64);
        FoldBlock(INIT, whole, block[..]);
        done := whole + block[..];
        ProcessMessageBlock();
        ZeroTo(56);
      } else {
        MarkEnd(56);
      }
      StoreLength(block[..56]);
      FoldBlock(INIT, done, block[..]);
      ProcessMessageBlock();
    }

    /** The one bit behind the message, and zeros up to `limit`. */
    method MarkEnd(limit: int)
      requires block.Length == BLOCK && 0 <= index < limit <= BLOCK
      modifies block, `index
      ensures index == limit
      ensures block[..limit] == old(block[..index]) + [0x80] + Zeros(limit - 1 - old(index))
      ensures limit == BLOCK ==> block[..] == block[..limit]
    {
      block[index] := 0x80;
      index := index + 1;
      assert block[..index] == old(block[..index]) + [0x80];
      ZeroTo(limit);
    }

    /** The two words of the counter, written behind the padding. */
    method StoreLength(ghost front: seq<byte>)
      requires block.Length == BLOCK && front == block[..56]
      modifies block
      ensures block[..] == front + (EncodeInt32(lengthHigh) + EncodeInt32(lengthLow))
    {
      block[56] := lengthHigh / 0x100_0000 % 0x100;
      block[57] := lengthHigh / 0x1_0000 % 0x100;
      block[58] := lengthHigh / 0x100 % 0x100;
      block[59] := lengthHigh % 0x100;
      block[60] := lengthLow / 0x100_0000 % 0x100;
      block[61] := lengthLow / 0x1_0000 % 0x100;
      block[62] := lengthLow / 0x100 % 0x100;
      block[63] := lengthLow % 0x100;
      assert block[..56] == front;
      assert block[56..60] == EncodeInt32(lengthHigh);
      assert block[60..] == EncodeInt32(lengthLow);
      assert block[..] == block[..56] + block[56..60] + block[60..];
    }

    lemma CountedBits()
      requires Counts(|message|) && corrupted == SUCCESS
      ensures Pad(message) == Padded(message, EncodeInt32(lengthHigh) + EncodeInt32(lengthLow))
    {
      var bits := 8 * |message|;
      DivModUnique(bits, lengthHigh, lengthLow, TWO_32);
      SameLowWord(bits, lengthLow);
    }

    method Result() returns (status: int, digest: seq<byte>)
      requires Valid()
      modifies this, block
      ensures Valid() && message == old(message) && corrupted == old(corrupted)
      ensures old(corrupted) != SUCCESS ==> status == old(corrupted) && computed == old(computed) && digest == []
      ensures old(corrupted) == SUCCESS ==> status == SUCCESS && computed && digest == DigestOf(message)
    {
      hide Fold, Pad, DigestByte;
      digest := [];
      if corrupted != SUCCESS {
        return corrupted, digest;
      }
      if !computed {
        PadMessage();
        var k := 0;
        while k < 64
          modifies block
        {
          block[k] := 0;
          k := k + 1;
        }
        lengthLow, lengthHigh := 0, 0;
        computed := true;
      }
      var i := 0;
      while i < 20
        invariant 0 <= i <= 20
        invariant digest == Digest(hash)[..i]
      {
        digest := digest + [DigestByte(hash, i)];
        i := i + 1;
      }
      return SUCCESS, digest;
    }
  }

  /** `GetSHA1`: a reset, one input, and the result cut to the caller's buffer. */
  method GetSha1(data: seq<byte>, outLength: nat) returns (out: seq<byte>)
    requires |data| < 0x8000_0000
    ensures out == DigestOf(data)[..Min(outLength, 20)]
  {
    hide DigestOf;
    var context := new Sha1Context();
    var status := context.Input(data);
    assert context.message == data;
    var digest: seq<byte>;
    status, digest := context.Result();
    out := digest[..Min(outLength, 20)];
  }

  /** One byte short of the limit: the byte that overflows the counter is taken with success, and only the next one is
      refused. */
  method OneByteTooMany(c: Sha1Context, b: byte) returns (first: int, second: int)
    requires c.Valid() && !c.computed && c.corrupted == SUCCESS && |c.message| == LIMIT - 1
    modifies c, c.block
    ensures first == SUCCESS && second == TOO_LONG
    ensures c.message == old(c.message) + [b]
  {
    first := c.Input([b]);
    second := c.Input([b]);
  }
}
