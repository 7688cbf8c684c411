/** Known answers: the digests that RFC 1321 (appendix A.5) and FIPS 180-4 give for "abc", worked out step by step from
    the specifications of the two hashes.  They pin down every constant and table of both. */
module HashAnswers {
  import opened Bytes
  import opened BlockPadding
  import Md5
  import Sha1

  type word = bv32

  /** "abc". */
  const ABC: seq<byte> := [0x61, 0x62, 0x63]

  // ---------------------------------------------------------------- MD5

  const MD5_BLOCK: seq<byte> := ABC + [0x80] + Zeros(52) + [24, 0, 0, 0, 0, 0, 0, 0]

  ghost function MD5_WORDS(): (x: seq<word>)
    ensures |x| == 16
  {
    [0x80636261, 0, 0, 0, 0, 0, 0, 0, 0, 0, 0, 0, 0, 0, 24, 0]
  }

  lemma Md5Op(t: nat, a: word, b: word, c: word, d: word, k: nat, s: nat, n: word, r: word)
    requires t < 64 && k < 16 && Md5.Steps(Md5.INIT, MD5_WORDS(), t) == Md5.State(a, b, c, d)
    requires Md5.Index(t) == k && Md5.Shift(t) == s && Md5.T(t) == n
    requires Md5.Turn(a, b, Md5.Mix(t, b, c, d), if k == 0 then 0x80636261 else if k == 14 then 24 else 0, s, n) == r
    ensures Md5.Steps(Md5.INIT, MD5_WORDS(), t + 1) == Md5.State(d, r, b, c)
  {
    hide Md5.Turn, Md5.Index, Md5.Shift, Md5.T, Md5.Mix;
  }

  lemma Md5Abc0()
    ensures Md5.Steps(Md5.INIT, MD5_WORDS(), 0) == Md5.State(0x67452301, 0xefcdab89, 0x98badcfe, 0x10325476)
  {
  }

  lemma Md5Abc16()
    ensures Md5.Steps(Md5.INIT, MD5_WORDS(), 16)
            == Md5.State(0xdda9b9a6, 0x72aff2e0, 0xe396856b, 0xa1051895)
  {
    hide Md5.Steps, Md5.Index, Md5.Shift, Md5.T, MD5_WORDS;
    Md5.Round1Table();
    Md5Abc0();
    Md5Op(0, 0x67452301, 0xefcdab89, 0x98badcfe, 0x10325476, 0, 7, 0xd76aa478, 0xd6d117b4);
    Md5Op(1, 0x10325476, 0xd6d117b4, 0xefcdab89, 0x98badcfe, 1, 12, 0xe8c7b756, 0x344a8432);
    Md5Op(2, 0x98badcfe, 0x344a8432, 0xd6d117b4, 0xefcdab89, 2, 17, 0x242070db, 0x2f6fbd72);
    Md5Op(3, 0xefcdab89, 0x2f6fbd72, 0x344a8432, 0xd6d117b4, 3, 22, 0xc1bdceee, 0x7ad956f2);
    Md5Op(4, 0xd6d117b4, 0x7ad956f2, 0x2f6fbd72, 0x344a8432, 4, 7, 0xf57c0faf, 0xc73741ef);
    Md5Op(5, 0x344a8432, 0xc73741ef, 0x7ad956f2, 0x2f6fbd72, 5, 12, 0x4787c62a, 0x8bac3051);
    Md5Op(6, 0x2f6fbd72, 0x8bac3051, 0xc73741ef, 0x7ad956f2, 6, 17, 0xa8304613, 0x207dc67b);
    Md5Op(7, 0x7ad956f2, 0x207dc67b, 0x8bac3051, 0xc73741ef, 7, 22, 0xfd469501, 0x928d99f6);
    Md5Op(8, 0xc73741ef, 0x928d99f6, 0x207dc67b, 0x8bac3051, 8, 7, 0x698098d8, 0x854b3712);
    Md5Op(9, 0x8bac3051, 0x854b3712, 0x928d99f6, 0x207dc67b, 9, 12, 0x8b44f7af, 0x74e2f284);
    Md5Op(10, 0x207dc67b, 0x74e2f284, 0x854b3712, 0x928d99f6, 10, 17, 0xffff5bb1, 0x3020401c);
    Md5Op(11, 0x928d99f6, 0x3020401c, 0x74e2f284, 0x854b3712, 11, 22, 0x895cd7be, 0x5ed49596);
    Md5Op(12, 0x854b3712, 0x5ed49596, 0x3020401c, 0x74e2f284, 12, 7, 0x6b901122, 0xdda9b9a6);
    Md5Op(13, 0x74e2f284, 0xdda9b9a6, 0x5ed49596, 0x3020401c, 13, 12, 0xfd987193, 0xa1051895);
    Md5Op(14, 0x3020401c, 0xa1051895, 0xdda9b9a6, 0x5ed49596, 14, 17, 0xa679438e, 0xe396856b);
    Md5Op(15, 0x5ed49596, 0xe396856b, 0xa1051895, 0xdda9b9a6, 15, 22, 0x49b40821, 0x72aff2e0);
  }

  lemma Md5Abc32()
    ensures Md5.Steps(Md5.INIT, MD5_WORDS(), 32)
            == Md5.State(0x790a77fb, 0x726342d3, 0xa62884aa, 0x9f47e4f8)
  {
    hide Md5.Steps, Md5.Index, Md5.Shift, Md5.T, MD5_WORDS;
    Md5.Round2Table();
    Md5Abc16();
    Md5Op(16, 0xdda9b9a6, 0x72aff2e0, 0xe396856b, 0xa1051895, 1, 5, 0xf61e2562, 0x3e9e9126);
    Md5Op(17, 0xa1051895, 0x3e9e9126, 0x72aff2e0, 0xe396856b, 6, 9, 0xc040b340, 0x4a1d804e);
    Md5Op(18, 0xe396856b, 0x4a1d804e, 0x3e9e9126, 0x72aff2e0, 11, 14, 0x265e5a51, 0xe25e1652);
    Md5Op(19, 0x72aff2e0, 0xe25e1652, 0x4a1d804e, 0x3e9e9126, 0, 20, 0xe9b6c7aa, 0xb5b204e4);
    Md5Op(20, 0x3e9e9126, 0xb5b204e4, 0xe25e1652, 0x4a1d804e, 5, 5, 0xd62f105d, 0x59a8ffda);
    Md5Op(21, 0x4a1d804e, 0x59a8ffda, 0xb5b204e4, 0xe25e1652, 10, 9, 0x02441453, 0x6d002f1e);
    Md5Op(22, 0xe25e1652, 0x6d002f1e, 0x59a8ffda, 0xb5b204e4, 15, 14, 0xd8a1e681, 0xabfc7920);
    Md5Op(23, 0xb5b204e4, 0xabfc7920, 0x6d002f1e, 0x59a8ffda, 4, 20, 0xe7d3fbc8, 0x47092c07);
    Md5Op(24, 0x59a8ffda, 0x47092c07, 0xabfc7920, 0x6d002f1e, 9, 5, 0x21e1cde6, 0xb7f268cf);
    Md5Op(25, 0x6d002f1e, 0xb7f268cf, 0x47092c07, 0xabfc7920, 14, 9, 0xc33707d6, 0x09388eff);
    Md5Op(26, 0xabfc7920, 0x09388eff, 0xb7f268cf, 0x47092c07, 3, 14, 0xf4d50d87, 0xfe1623b1);
    Md5Op(27, 0x47092c07, 0xfe1623b1, 0x09388eff, 0xb7f268cf, 8, 20, 0x455a14ed, 0x786acb8f);
    Md5Op(28, 0xb7f268cf, 0x786acb8f, 0xfe1623b1, 0x09388eff, 13, 5, 0xa9e3e905, 0x790a77fb);
    Md5Op(29, 0x09388eff, 0x790a77fb, 0x786acb8f, 0xfe1623b1, 2, 9, 0xfcefa3f8, 0x9f47e4f8);
    Md5Op(30, 0xfe1623b1, 0x9f47e4f8, 0x790a77fb, 0x786acb8f, 7, 14, 0x676f02d9, 0xa62884aa);
    Md5Op(31, 0x786acb8f, 0xa62884aa, 0x9f47e4f8, 0x790a77fb, 12, 20, 0x8d2a4c8a, 0x726342d3);
  }

  lemma Md5Abc48()
    ensures Md5.Steps(Md5.INIT, MD5_WORDS(), 48)
            == Md5.State(0x7f2e507b, 0x7beb9700, 0x8fae6399, 0x99d9679d)
  {
    hide Md5.Steps, Md5.Index, Md5.Shift, Md5.T, MD5_WORDS;
    Md5.Round3Table();
    Md5Abc32();
    Md5Op(32, 0x790a77fb, 0x726342d3, 0xa62884aa, 0x9f47e4f8, 5, 4, 0xfffa3942, 0xb3707ebf);
    Md5Op(33, 0x9f47e4f8, 0xb3707ebf, 0x726342d3, 0xa62884aa, 8, 11, 0x8771f681, 0x60127b2e);
    Md5Op(34, 0xa62884aa, 0x60127b2e, 0xb3707ebf, 0x726342d3, 11, 16, 0x6d9d6122, 0x8d212ff5);
    Md5Op(35, 0x726342d3, 0x8d212ff5, 0x60127b2e, 0xb3707ebf, 14, 23, 0xfde5380c, 0x3b0875c7);
    Md5Op(36, 0xb3707ebf, 0x3b0875c7, 0x8d212ff5, 0x60127b2e, 1, 4, 0xa4beea44, 0x21b117b9);
    Md5Op(37, 0x60127b2e, 0x21b117b9, 0x3b0875c7, 0x8d212ff5, 4, 11, 0x4bdecfa9, 0x6e7429d5);
    Md5Op(38, 0x8d212ff5, 0x6e7429d5, 0x21b117b9, 0x3b0875c7, 7, 16, 0xf6bb4b60, 0x3575227e);
    Md5Op(39, 0x3b0875c7, 0x3575227e, 0x6e7429d5, 0x21b117b9, 10, 23, 0xbebfbc70, 0x5a2f5ea5);
    Md5Op(40, 0x21b117b9, 0x5a2f5ea5, 0x3575227e, 0x6e7429d5, 13, 4, 0x289b7ec6, 0x11de1779);
    Md5Op(41, 0x6e7429d5, 0x11de1779, 0x5a2f5ea5, 0x3575227e, 0, 11, 0xeaa127fa, 0xfadcaa38);
    Md5Op(42, 0x3575227e, 0xfadcaa38, 0x11de1779, 0x5a2f5ea5, 3, 16, 0xd4ef3085, 0x31c465ca);
    Md5Op(43, 0x5a2f5ea5, 0x31c465ca, 0xfadcaa38, 0x11de1779, 6, 23, 0x04881d05, 0x4c6124f4);
    Md5Op(44, 0x11de1779, 0x4c6124f4, 0x31c465ca, 0xfadcaa38, 9, 4, 0xd9d4d039, 0x7f2e507b);
    Md5Op(45, 0xfadcaa38, 0x7f2e507b, 0x4c6124f4, 0x31c465ca, 12, 11, 0xe6db99e5, 0x99d9679d);
    Md5Op(46, 0x31c465ca, 0x99d9679d, 0x7f2e507b, 0x4c6124f4, 15, 16, 0x1fa27cf8, 0x8fae6399);
    Md5Op(47, 0x4c6124f4, 0x8fae6399, 0x99d9679d, 0x7f2e507b, 2, 23, 0xc4ac5665, 0x7beb9700);
  }

  lemma Md5Abc64()
    ensures Md5.Steps(Md5.INIT, MD5_WORDS(), 64)
            == Md5.State(0x310ade8f, 0xc08226b3, 0xe484b9d8, 0x624d8cb2)
  {
    hide Md5.Steps, Md5.Index, Md5.Shift, Md5.T, MD5_WORDS;
    Md5.Round4Table();
    Md5Abc48();
    Md5Op(48, 0x7f2e507b, 0x7beb9700, 0x8fae6399, 0x99d9679d, 0, 6, 0xf4292244, 0x7b201df8);
    Md5Op(49, 0x99d9679d, 0x7b201df8, 0x7beb9700, 0x8fae6399, 7, 10, 0x432aff97, 0xf4e8e96e);
    Md5Op(50, 0x8fae6399, 0xf4e8e96e, 0x7b201df8, 0x7beb9700, 14, 15, 0xab9423a7, 0xb298cefd);
    Md5Op(51, 0x7beb9700, 0xb298cefd, 0xf4e8e96e, 0x7b201df8, 5, 21, 0xfc93a039, 0x8bf025c4);
    Md5Op(52, 0x7b201df8, 0x8bf025c4, 0xb298cefd, 0xf4e8e96e, 12, 6, 0x655b59c3, 0x06cc5e8a);
    Md5Op(53, 0xf4e8e96e, 0x06cc5e8a, 0x8bf025c4, 0xb298cefd, 3, 10, 0x8f0ccc92, 0x5b0d97aa);
    Md5Op(54, 0xb298cefd, 0x5b0d97aa, 0x06cc5e8a, 0x8bf025c4, 10, 15, 0xffeff47d, 0x7d632dd0);
    Md5Op(55, 0x8bf025c4, 0x7d632dd0, 0x5b0d97aa, 0x06cc5e8a, 1, 21, 0x85845dd1, 0x3bfa2c27);
    Md5Op(56, 0x06cc5e8a, 0x3bfa2c27, 0x7d632dd0, 0x5b0d97aa, 8, 6, 0x6fa87e4f, 0x7f81cc35);
    Md5Op(57, 0x5b0d97aa, 0x7f81cc35, 0x3bfa2c27, 0x7d632dd0, 15, 10, 0xfe2ce6e0, 0x094454ab);
    Md5Op(58, 0x7d632dd0, 0x094454ab, 0x7f81cc35, 0x3bfa2c27, 6, 15, 0xa3014314, 0x4f9dbe3f);
    Md5Op(59, 0x3bfa2c27, 0x4f9dbe3f, 0x094454ab, 0x7f81cc35, 13, 21, 0x4e0811a1, 0x7327d604);
    Md5Op(60, 0x7f81cc35, 0x7327d604, 0x4f9dbe3f, 0x094454ab, 4, 6, 0xf7537e82, 0x310ade8f);
    Md5Op(61, 0x094454ab, 0x310ade8f, 0x7327d604, 0x4f9dbe3f, 11, 10, 0xbd3af235, 0x624d8cb2);
    Md5Op(62, 0x4f9dbe3f, 0x624d8cb2, 0x310ade8f, 0x7327d604, 2, 15, 0x2ad7d2bb, 0xe484b9d8);
    Md5Op(63, 0x7327d604, 0xe484b9d8, 0x624d8cb2, 0x310ade8f, 9, 21, 0xeb86d391, 0xc08226b3);
  }

  /** The padded block has the message, one bit, and the length in bits. */
  lemma Md5Block()
    ensures Padded(ABC, Md5.LengthField(3)) == MD5_BLOCK && |MD5_BLOCK| == 64 && |ABC| == 3
  {
  }

  lemma Md5ZeroWord(block: seq<byte>, t: nat)
    requires |block| == 64 && t < 16
    requires block[4 * t] == block[4 * t + 1] == block[4 * t + 2] == block[4 * t + 3] == 0
    ensures Md5.LittleEndian(block, t) == 0
  {
  }

  lemma Md5Words()
    requires |MD5_BLOCK| == 64
    ensures Md5.Words(MD5_BLOCK) == MD5_WORDS()
  {
    hide Zeros;
    hide MD5_BLOCK, Md5.LittleEndian;
    var b := MD5_BLOCK;
    Md5Bytes();
    forall t | 0 <= t < 16 ensures Md5.LittleEndian(b, t) == if t == 0 then 0x80636261 else if t == 14 then 24 else 0 {
      if t == 0 {
        Md5FirstWord(b);
      } else if t == 14 {
        Md5LengthWord(b);
      } else {
        Md5ZeroWord(b, t);
      }
    }
  }

  lemma Md5Bytes()
    requires |MD5_BLOCK| == 64
    ensures var b := MD5_BLOCK;
            && b[0] == 0x61 && b[1] == 0x62 && b[2] == 0x63 && b[3] == 0x80 && b[56] == 24
            && forall k :: 4 <= k < 64 && k != 56 ==> b[k] == 0
  {
    hide Zeros;
    ZerosAreZero(52);
  }

  lemma Md5FirstWord(b: seq<byte>)
    requires |b| == 64 && b[0] == 0x61 && b[1] == 0x62 && b[2] == 0x63 && b[3] == 0x80
    ensures Md5.LittleEndian(b, 0) == 0x80636261
  {
  }

  lemma Md5LengthWord(b: seq<byte>)
    requires |b| == 64 && b[56] == 24 && b[57] == b[58] == b[59] == 0
    ensures Md5.LittleEndian(b, 14) == 24
  {
  }

  lemma ZerosAreZero(n: nat)
    ensures |Zeros(n)| == n && forall k :: 0 <= k < n ==> Zeros(n)[k] == 0
  {
  }

  lemma Md5Fold()
    requires |MD5_BLOCK| == 64
    ensures Md5.Fold(Md5.INIT, MD5_BLOCK) == Md5.Compress(Md5.INIT, MD5_BLOCK)
  {
    hide Md5.Compress, MD5_BLOCK;
    var b := MD5_BLOCK;
    assert b[..|b| - 64] == [] && b[|b| - 64..] == b;
  }

  /** RFC 1321, section 3.3: the registers start with these bytes. */
  lemma Md5Start()
    ensures Md5.Digest(Md5.INIT)
            == [0x01, 0x23, 0x45, 0x67, 0x89, 0xab, 0xcd, 0xef, 0xfe, 0xdc, 0xba, 0x98, 0x76, 0x54, 0x32, 0x10]
  {
  }

  lemma Md5Registers()
    ensures Md5.Digest(Md5.State(0x98500190, 0xb04fd23c, 0x7d3f96d6, 0x727fe128))
            == [0x90, 0x01, 0x50, 0x98] + [0x3c, 0xd2, 0x4f, 0xb0] + [0xd6, 0x96, 0x3f, 0x7d] + [0x28, 0xe1, 0x7f, 0x72]
  {
  }

  /** RFC 1321, appendix A.5. */
  lemma Md5OfAbc()
    ensures Md5.Hex(Md5.DigestOf(ABC)) == "90015098" + "3cd24fb0" + "d6963f7d" + "28e17f72"
  {
    hide Md5.Steps, Md5.Fold, Md5.Hex, Md5.Digest, Padded, Md5.Words, Md5.LengthField, MD5_WORDS, MD5_BLOCK, ABC;
    Md5Block();
    Md5Words();
    Md5Abc64();
    Md5Fold();
    Md5Registers();
    HexQuarter1();
    HexQuarter2();
    HexQuarter3();
    HexQuarter4();
    HexOfFour([0x90, 0x01, 0x50, 0x98], [0x3c, 0xd2, 0x4f, 0xb0], [0xd6, 0x96, 0x3f, 0x7d], [0x28, 0xe1, 0x7f, 0x72]);
  }

  lemma {:induction false} HexConcat(a: seq<byte>, b: seq<byte>)
    ensures Md5.Hex(a + b) == Md5.Hex(a) + Md5.Hex(b)
    decreases |b|
  {
    if b == [] {
      assert a + b == a;
    } else {
      var c := b[..|b| - 1];
      assert (a + b)[..|a + b| - 1] == a + c;
      HexConcat(a, c);
    }
  }

  lemma Hex4(a: byte, b: byte, c: byte, d: byte)
    ensures Md5.Hex([a, b, c, d])
            == [Md5.HexDigit(a / 16), Md5.HexDigit(a % 16), Md5.HexDigit(b / 16), Md5.HexDigit(b % 16),
                Md5.HexDigit(c / 16), Md5.HexDigit(c % 16), Md5.HexDigit(d / 16), Md5.HexDigit(d % 16)]
  {
    hide Md5.HexDigit;
    assert [a, b, c, d][..3] == [a, b, c] && [a, b, c][..2] == [a, b] && [a, b][..1] == [a] && [a][..0] == [];
    assert |Md5.Hex([a])| == 2 && |Md5.Hex([a, b])| == 4;
  }

  lemma HexQuarter1()
    ensures Md5.Hex([0x90, 0x01, 0x50, 0x98]) == "90015098"
  {
    hide Md5.Hex;
    Hex4(0x90, 0x01, 0x50, 0x98);
  }

  lemma HexQuarter2()
    ensures Md5.Hex([0x3c, 0xd2, 0x4f, 0xb0]) == "3cd24fb0"
  {
    hide Md5.Hex;
    Hex4(0x3c, 0xd2, 0x4f, 0xb0);
  }

  lemma HexQuarter3()
    ensures Md5.Hex([0xd6, 0x96, 0x3f, 0x7d]) == "d6963f7d"
  {
    hide Md5.Hex;
    Hex4(0xd6, 0x96, 0x3f, 0x7d);
  }

  lemma HexQuarter4()
    ensures Md5.Hex([0x28, 0xe1, 0x7f, 0x72]) == "28e17f72"
  {
    hide Md5.Hex;
    Hex4(0x28, 0xe1, 0x7f, 0x72);
  }

  lemma HexOfFour(p: seq<byte>, q: seq<byte>, r: seq<byte>, s: seq<byte>)
    ensures Md5.Hex(p + q + r + s) == Md5.Hex(p) + Md5.Hex(q) + Md5.Hex(r) + Md5.Hex(s)
  {
    hide Md5.Hex;
    HexConcat(p, q);
    HexConcat(p + q, r);
    HexConcat(p + q + r, s);
  }


  // ---------------------------------------------------------------- SHA-1

  const SHA_BLOCK: seq<byte> := ABC + [0x80] + Zeros(52) + [0, 0, 0, 0, 0, 0, 0, 24]

  lemma ShaBlock()
    ensures Sha1.Pad(ABC) == SHA_BLOCK && |SHA_BLOCK| == 64 && |ABC| == 3
  {
  }

  lemma ShaBytes()
    requires |SHA_BLOCK| == 64
    ensures var b := SHA_BLOCK;
            && b[0] == 0x61 && b[1] == 0x62 && b[2] == 0x63 && b[3] == 0x80 && b[63] == 24
            && forall k :: 4 <= k < 63 ==> b[k] == 0
  {
    hide Zeros;
    ZerosAreZero(52);
  }

  lemma ShaZeroWord(block: seq<byte>, t: nat)
    requires |block| == 64 && t < 16
    requires block[4 * t] == block[4 * t + 1] == block[4 * t + 2] == block[4 * t + 3] == 0
    ensures Sha1.BigEndian(block, t) == 0
  {
  }

  lemma ShaFirstWord(b: seq<byte>)
    requires |b| == 64 && b[0] == 0x61 && b[1] == 0x62 && b[2] == 0x63 && b[3] == 0x80
    ensures Sha1.BigEndian(b, 0) == 0x61626380
  {
    assert (b[0] as word) << 24 == 0x61000000 && (b[1] as word) << 16 == 0x620000 && (b[2] as word) << 8 == 0x6300;
  }

  lemma ShaLengthWord(b: seq<byte>)
    requires |b| == 64 && b[60] == b[61] == b[62] == 0 && b[63] == 24
    ensures Sha1.BigEndian(b, 15) == 24
  {
  }

  lemma ShaWord(t: nat)
    requires |SHA_BLOCK| == 64 && t < 16
    ensures Sha1.W(SHA_BLOCK, t) == if t == 0 then 0x61626380 else if t == 15 then 24 else 0
  {
    hide SHA_BLOCK, Sha1.BigEndian;
    var b := SHA_BLOCK;
    ShaBytes();
    if t == 0 {
      ShaFirstWord(b);
    } else if t == 15 {
      ShaLengthWord(b);
    } else {
      ShaZeroWord(b, t);
    }
  }

  lemma ShaMix(t: nat, w3: word, w8: word, w14: word, w16: word, w: word)
    requires |SHA_BLOCK| == 64 && t >= 16
    requires Sha1.W(SHA_BLOCK, t - 3) == w3 && Sha1.W(SHA_BLOCK, t - 8) == w8
    requires Sha1.W(SHA_BLOCK, t - 14) == w14 && Sha1.W(SHA_BLOCK, t - 16) == w16
    requires Sha1.RotL(Sha1.Xor4(w3, w8, w14, w16), 1) == w
    ensures Sha1.W(SHA_BLOCK, t) == w
  {
    hide Sha1.RotL, Sha1.Xor4, SHA_BLOCK;
  }

  lemma ShaOp(t: nat, a: word, b: word, c: word, d: word, e: word, w: word, r: word, b': word)
    requires |SHA_BLOCK| == 64 && t < 80
    requires Sha1.Rounds(Sha1.INIT, SHA_BLOCK, t) == Sha1.Hash(a, b, c, d, e) && Sha1.W(SHA_BLOCK, t) == w
    requires Sha1.Sum5(Sha1.RotL(a, 5), Sha1.F(t, b, c, d), e, w, Sha1.K(t)) == r && Sha1.RotL(b, 30) == b'
    ensures Sha1.Rounds(Sha1.INIT, SHA_BLOCK, t + 1) == Sha1.Hash(r, a, b', c, d)
  {
    hide Sha1.RotL, Sha1.Sum5, Sha1.F, Sha1.K, Sha1.W, SHA_BLOCK;
  }

  lemma ShaWords0()
    requires |SHA_BLOCK| == 64
    ensures Sha1.W(SHA_BLOCK, 0) == 0x61626380 && Sha1.W(SHA_BLOCK, 1) == 0x00000000
    ensures Sha1.W(SHA_BLOCK, 2) == 0x00000000 && Sha1.W(SHA_BLOCK, 3) == 0x00000000
    ensures Sha1.W(SHA_BLOCK, 4) == 0x00000000 && Sha1.W(SHA_BLOCK, 5) == 0x00000000
    ensures Sha1.W(SHA_BLOCK, 6) == 0x00000000 && Sha1.W(SHA_BLOCK, 7) == 0x00000000
    ensures Sha1.W(SHA_BLOCK, 8) == 0x00000000 && Sha1.W(SHA_BLOCK, 9) == 0x00000000
    ensures Sha1.W(SHA_BLOCK, 10) == 0x00000000 && Sha1.W(SHA_BLOCK, 11) == 0x00000000
    ensures Sha1.W(SHA_BLOCK, 12) == 0x00000000 && Sha1.W(SHA_BLOCK, 13) == 0x00000000
    ensures Sha1.W(SHA_BLOCK, 14) == 0x00000000 && Sha1.W(SHA_BLOCK, 15) == 0x00000018
  {
    hide SHA_BLOCK, Sha1.W;
    ShaWord(0);
    ShaWord(1);
    ShaWord(2);
    ShaWord(3);
    ShaWord(4);
    ShaWord(5);
    ShaWord(6);
    ShaWord(7);
    ShaWord(8);
    ShaWord(9);
    ShaWord(10);
    ShaWord(11);
    ShaWord(12);
    ShaWord(13);
    ShaWord(14);
    ShaWord(15);
  }

  lemma ShaWords16()
    requires |SHA_BLOCK| == 64
    ensures Sha1.W(SHA_BLOCK, 16) == 0xc2c4c700 && Sha1.W(SHA_BLOCK, 17) == 0x00000000
    ensures Sha1.W(SHA_BLOCK, 18) == 0x00000030 && Sha1.W(SHA_BLOCK, 19) == 0x85898e01
    ensures Sha1.W(SHA_BLOCK, 20) == 0x00000000 && Sha1.W(SHA_BLOCK, 21) == 0x00000060
    ensures Sha1.W(SHA_BLOCK, 22) == 0x0b131c03 && Sha1.W(SHA_BLOCK, 23) == 0x00000030
    ensures Sha1.W(SHA_BLOCK, 24) == 0x85898ec1 && Sha1.W(SHA_BLOCK, 25) == 0x16263806
    ensures Sha1.W(SHA_BLOCK, 26) == 0x00000000 && Sha1.W(SHA_BLOCK, 27) == 0x00000180
    ensures Sha1.W(SHA_BLOCK, 28) == 0x2c4c700c && Sha1.W(SHA_BLOCK, 29) == 0x000000f0
    ensures Sha1.W(SHA_BLOCK, 30) == 0x93afb507 && Sha1.W(SHA_BLOCK, 31) == 0x5898e048
  {
    hide SHA_BLOCK, Sha1.W;
    ShaWords0();
    ShaMix(16, 0x00000000, 0x00000000, 0x00000000, 0x61626380, 0xc2c4c700);
    ShaMix(17, 0x00000000, 0x00000000, 0x00000000, 0x00000000, 0x00000000);
    ShaMix(18, 0x00000018, 0x00000000, 0x00000000, 0x00000000, 0x00000030);
    ShaMix(19, 0xc2c4c700, 0x00000000, 0x00000000, 0x00000000, 0x85898e01);
    ShaMix(20, 0x00000000, 0x00000000, 0x00000000, 0x00000000, 0x00000000);
    ShaMix(21, 0x00000030, 0x00000000, 0x00000000, 0x00000000, 0x00000060);
    ShaMix(22, 0x85898e01, 0x00000000, 0x00000000, 0x00000000, 0x0b131c03);
    ShaMix(23, 0x00000000, 0x00000018, 0x00000000, 0x00000000, 0x00000030);
    ShaMix(24, 0x00000060, 0xc2c4c700, 0x00000000, 0x00000000, 0x85898ec1);
    ShaMix(25, 0x0b131c03, 0x00000000, 0x00000000, 0x00000000, 0x16263806);
    ShaMix(26, 0x00000030, 0x00000030, 0x00000000, 0x00000000, 0x00000000);
    ShaMix(27, 0x85898ec1, 0x85898e01, 0x00000000, 0x00000000, 0x00000180);
    ShaMix(28, 0x16263806, 0x00000000, 0x00000000, 0x00000000, 0x2c4c700c);
    ShaMix(29, 0x00000000, 0x00000060, 0x00000018, 0x00000000, 0x000000f0);
    ShaMix(30, 0x00000180, 0x0b131c03, 0xc2c4c700, 0x00000000, 0x93afb507);
    ShaMix(31, 0x2c4c700c, 0x00000030, 0x00000000, 0x00000018, 0x5898e048);
  }

  lemma ShaWords32()
    requires |SHA_BLOCK| == 64
    ensures Sha1.W(SHA_BLOCK, 32) == 0x8e9a9202 && Sha1.W(SHA_BLOCK, 33) == 0x00000600
    ensures Sha1.W(SHA_BLOCK, 34) == 0xb131c0f0 && Sha1.W(SHA_BLOCK, 35) == 0x16263bc6
    ensures Sha1.W(SHA_BLOCK, 36) == 0x4ebed41e && Sha1.W(SHA_BLOCK, 37) == 0x626380a1
    ensures Sha1.W(SHA_BLOCK, 38) == 0x16263806 && Sha1.W(SHA_BLOCK, 39) == 0x000018c0
    ensures Sha1.W(SHA_BLOCK, 40) == 0xd2e138c4 && Sha1.W(SHA_BLOCK, 41) == 0x00000f00
    ensures Sha1.W(SHA_BLOCK, 42) == 0x3afb5079 && Sha1.W(SHA_BLOCK, 43) == 0x898e04e5
    ensures Sha1.W(SHA_BLOCK, 44) == 0xe2ba3c2b && Sha1.W(SHA_BLOCK, 45) == 0x000060c0
    ensures Sha1.W(SHA_BLOCK, 46) == 0x053a37cd && Sha1.W(SHA_BLOCK, 47) == 0x74458547
  {
    hide SHA_BLOCK, Sha1.W;
    ShaWords16();
    ShaMix(32, 0x000000f0, 0x85898ec1, 0x00000030, 0xc2c4c700, 0x8e9a9202);
    ShaMix(33, 0x93afb507, 0x16263806, 0x85898e01, 0x00000000, 0x00000600);
    ShaMix(34, 0x5898e048, 0x00000000, 0x00000000, 0x00000030, 0xb131c0f0);
    ShaMix(35, 0x8e9a9202, 0x00000180, 0x00000060, 0x85898e01, 0x16263bc6);
    ShaMix(36, 0x00000600, 0x2c4c700c, 0x0b131c03, 0x00000000, 0x4ebed41e);
    ShaMix(37, 0xb131c0f0, 0x000000f0, 0x00000030, 0x00000060, 0x626380a1);
    ShaMix(38, 0x16263bc6, 0x93afb507, 0x85898ec1, 0x0b131c03, 0x16263806);
    ShaMix(39, 0x4ebed41e, 0x5898e048, 0x16263806, 0x00000030, 0x000018c0);
    ShaMix(40, 0x626380a1, 0x8e9a9202, 0x00000000, 0x85898ec1, 0xd2e138c4);
    ShaMix(41, 0x16263806, 0x00000600, 0x00000180, 0x16263806, 0x00000f00);
    ShaMix(42, 0x000018c0, 0xb131c0f0, 0x2c4c700c, 0x00000000, 0x3afb5079);
    ShaMix(43, 0xd2e138c4, 0x16263bc6, 0x000000f0, 0x00000180, 0x898e04e5);
    ShaMix(44, 0x00000f00, 0x4ebed41e, 0x93afb507, 0x2c4c700c, 0xe2ba3c2b);
    ShaMix(45, 0x3afb5079, 0x626380a1, 0x5898e048, 0x000000f0, 0x000060c0);
    ShaMix(46, 0x898e04e5, 0x16263806, 0x8e9a9202, 0x93afb507, 0x053a37cd);
    ShaMix(47, 0xe2ba3c2b, 0x000018c0, 0x00000600, 0x5898e048, 0x74458547);
  }

  lemma ShaWords48()
    requires |SHA_BLOCK| == 64
    ensures Sha1.W(SHA_BLOCK, 48) == 0xda9415ed && Sha1.W(SHA_BLOCK, 49) == 0x26380a16
    ensures Sha1.W(SHA_BLOCK, 50) == 0x626383a1 && Sha1.W(SHA_BLOCK, 51) == 0x4ebf54de
    ensures Sha1.W(SHA_BLOCK, 52) == 0x3835b44b && Sha1.W(SHA_BLOCK, 53) == 0x0000f600
    ensures Sha1.W(SHA_BLOCK, 54) == 0x1e84c7a3 && Sha1.W(SHA_BLOCK, 55) == 0x98e04d98
    ensures Sha1.W(SHA_BLOCK, 56) == 0x651d16a0 && Sha1.W(SHA_BLOCK, 57) == 0x62658ca1
    ensures Sha1.W(SHA_BLOCK, 58) == 0x458544d6 && Sha1.W(SHA_BLOCK, 59) == 0x44584cb7
    ensures Sha1.W(SHA_BLOCK, 60) == 0x7ba06619 && Sha1.W(SHA_BLOCK, 61) == 0x6380aea2
    ensures Sha1.W(SHA_BLOCK, 62) == 0x0ae55269 && Sha1.W(SHA_BLOCK, 63) == 0x627b49a1
  {
    hide SHA_BLOCK, Sha1.W;
    ShaWords32();
    ShaMix(48, 0x000060c0, 0xd2e138c4, 0xb131c0f0, 0x8e9a9202, 0xda9415ed);
    ShaMix(49, 0x053a37cd, 0x00000f00, 0x16263bc6, 0x00000600, 0x26380a16);
    ShaMix(50, 0x74458547, 0x3afb5079, 0x4ebed41e, 0xb131c0f0, 0x626383a1);
    ShaMix(51, 0xda9415ed, 0x898e04e5, 0x626380a1, 0x16263bc6, 0x4ebf54de);
    ShaMix(52, 0x26380a16, 0xe2ba3c2b, 0x16263806, 0x4ebed41e, 0x3835b44b);
    ShaMix(53, 0x626383a1, 0x000060c0, 0x000018c0, 0x626380a1, 0x0000f600);
    ShaMix(54, 0x4ebf54de, 0x053a37cd, 0xd2e138c4, 0x16263806, 0x1e84c7a3);
    ShaMix(55, 0x3835b44b, 0x74458547, 0x00000f00, 0x000018c0, 0x98e04d98);
    ShaMix(56, 0x0000f600, 0xda9415ed, 0x3afb5079, 0xd2e138c4, 0x651d16a0);
    ShaMix(57, 0x1e84c7a3, 0x26380a16, 0x898e04e5, 0x00000f00, 0x62658ca1);
    ShaMix(58, 0x98e04d98, 0x626383a1, 0xe2ba3c2b, 0x3afb5079, 0x458544d6);
    ShaMix(59, 0x651d16a0, 0x4ebf54de, 0x000060c0, 0x898e04e5, 0x44584cb7);
    ShaMix(60, 0x62658ca1, 0x3835b44b, 0x053a37cd, 0xe2ba3c2b, 0x7ba06619);
    ShaMix(61, 0x458544d6, 0x0000f600, 0x74458547, 0x000060c0, 0x6380aea2);
    ShaMix(62, 0x44584cb7, 0x1e84c7a3, 0xda9415ed, 0x053a37cd, 0x0ae55269);
    ShaMix(63, 0x7ba06619, 0x98e04d98, 0x26380a16, 0x74458547, 0x627b49a1);
  }

  lemma ShaWords64()
    requires |SHA_BLOCK| == 64
    ensures Sha1.W(SHA_BLOCK, 64) == 0x7cd45c9d && Sha1.W(SHA_BLOCK, 65) == 0x000f0000
    ensures Sha1.W(SHA_BLOCK, 66) == 0xfb50753a && Sha1.W(SHA_BLOCK, 67) == 0xec6765e8
    ensures Sha1.W(SHA_BLOCK, 68) == 0xba3c2be2 && Sha1.W(SHA_BLOCK, 69) == 0x0060c000
    ensures Sha1.W(SHA_BLOCK, 70) == 0x3a37cd05 && Sha1.W(SHA_BLOCK, 71) == 0x458546f4
    ensures Sha1.W(SHA_BLOCK, 72) == 0xb8599dd6 && Sha1.W(SHA_BLOCK, 73) == 0x380a1a26
    ensures Sha1.W(SHA_BLOCK, 74) == 0x01e02203 && Sha1.W(SHA_BLOCK, 75) == 0xe7cc3456
    ensures Sha1.W(SHA_BLOCK, 76) == 0xe6e60b69 && Sha1.W(SHA_BLOCK, 77) == 0x00f60a00
    ensures Sha1.W(SHA_BLOCK, 78) == 0x5795ef4f && Sha1.W(SHA_BLOCK, 79) == 0x822e0879
  {
    hide SHA_BLOCK, Sha1.W;
    ShaWords48();
    ShaMix(64, 0x6380aea2, 0x651d16a0, 0x626383a1, 0xda9415ed, 0x7cd45c9d);
    ShaMix(65, 0x0ae55269, 0x62658ca1, 0x4ebf54de, 0x26380a16, 0x000f0000);
    ShaMix(66, 0x627b49a1, 0x458544d6, 0x3835b44b, 0x626383a1, 0xfb50753a);
    ShaMix(67, 0x7cd45c9d, 0x44584cb7, 0x0000f600, 0x4ebf54de, 0xec6765e8);
    ShaMix(68, 0x000f0000, 0x7ba06619, 0x1e84c7a3, 0x3835b44b, 0xba3c2be2);
    ShaMix(69, 0xfb50753a, 0x6380aea2, 0x98e04d98, 0x0000f600, 0x0060c000);
    ShaMix(70, 0xec6765e8, 0x0ae55269, 0x651d16a0, 0x1e84c7a3, 0x3a37cd05);
    ShaMix(71, 0xba3c2be2, 0x627b49a1, 0x62658ca1, 0x98e04d98, 0x458546f4);
    ShaMix(72, 0x0060c000, 0x7cd45c9d, 0x458544d6, 0x651d16a0, 0xb8599dd6);
    ShaMix(73, 0x3a37cd05, 0x000f0000, 0x44584cb7, 0x62658ca1, 0x380a1a26);
    ShaMix(74, 0x458546f4, 0xfb50753a, 0x7ba06619, 0x458544d6, 0x01e02203);
    ShaMix(75, 0xb8599dd6, 0xec6765e8, 0x6380aea2, 0x44584cb7, 0xe7cc3456);
    ShaMix(76, 0x380a1a26, 0xba3c2be2, 0x0ae55269, 0x7ba06619, 0xe6e60b69);
    ShaMix(77, 0x01e02203, 0x0060c000, 0x627b49a1, 0x6380aea2, 0x00f60a00);
    ShaMix(78, 0xe7cc3456, 0x3a37cd05, 0x7cd45c9d, 0x0ae55269, 0x5795ef4f);
    ShaMix(79, 0xe6e60b69, 0x458546f4, 0x000f0000, 0x627b49a1, 0x822e0879);
  }

  lemma ShaAbc0()
    requires |SHA_BLOCK| == 64
    ensures Sha1.Rounds(Sha1.INIT, SHA_BLOCK, 0)
            == Sha1.Hash(0x67452301, 0xefcdab89, 0x98badcfe, 0x10325476, 0xc3d2e1f0)
  {
  }

  lemma ShaAbc16()
    requires |SHA_BLOCK| == 64
    ensures Sha1.Rounds(Sha1.INIT, SHA_BLOCK, 16)
            == Sha1.Hash(0x20bdd62f, 0x196bee77, 0x644a3da5, 0x1181ed99, 0x18c623f9)
  {
    hide SHA_BLOCK, Sha1.W, Sha1.Rounds;
    ShaAbc0();
    ShaWords0();
    ShaOp(0, 0x67452301, 0xefcdab89, 0x98badcfe, 0x10325476, 0xc3d2e1f0, 0x61626380, 0x0116fc33, 0x7bf36ae2);
    ShaOp(1, 0x0116fc33, 0x67452301, 0x7bf36ae2, 0x98badcfe, 0x10325476, 0x00000000, 0x8990536d, 0x59d148c0);
    ShaOp(2, 0x8990536d, 0x0116fc33, 0x59d148c0, 0x7bf36ae2, 0x98badcfe, 0x00000000, 0xa1390f08, 0xc045bf0c);
    ShaOp(3, 0xa1390f08, 0x8990536d, 0xc045bf0c, 0x59d148c0, 0x7bf36ae2, 0x00000000, 0xcdd8e11b, 0x626414db);
    ShaOp(4, 0xcdd8e11b, 0xa1390f08, 0x626414db, 0xc045bf0c, 0x59d148c0, 0x00000000, 0xcfd499de, 0x284e43c2);
    ShaOp(5, 0xcfd499de, 0xcdd8e11b, 0x284e43c2, 0x626414db, 0xc045bf0c, 0x00000000, 0x3fc7ca40, 0xf3763846);
    ShaOp(6, 0x3fc7ca40, 0xcfd499de, 0xf3763846, 0x284e43c2, 0x626414db, 0x00000000, 0x993e30c1, 0xb3f52677);
    ShaOp(7, 0x993e30c1, 0x3fc7ca40, 0xb3f52677, 0xf3763846, 0x284e43c2, 0x00000000, 0x9e8c07d4, 0x0ff1f290);
    ShaOp(8, 0x9e8c07d4, 0x993e30c1, 0x0ff1f290, 0xb3f52677, 0xf3763846, 0x00000000, 0x4b6ae328, 0x664f8c30);
    ShaOp(9, 0x4b6ae328, 0x9e8c07d4, 0x664f8c30, 0x0ff1f290, 0xb3f52677, 0x00000000, 0x8351f929, 0x27a301f5);
    ShaOp(10, 0x8351f929, 0x4b6ae328, 0x27a301f5, 0x664f8c30, 0x0ff1f290, 0x00000000, 0xfbda9e89, 0x12dab8ca);
    ShaOp(11, 0xfbda9e89, 0x8351f929, 0x12dab8ca, 0x27a301f5, 0x664f8c30, 0x00000000, 0x63188fe4, 0x60d47e4a);
    ShaOp(12, 0x63188fe4, 0xfbda9e89, 0x60d47e4a, 0x12dab8ca, 0x27a301f5, 0x00000000, 0x4607b664, 0x7ef6a7a2);
    ShaOp(13, 0x4607b664, 0x63188fe4, 0x7ef6a7a2, 0x60d47e4a, 0x12dab8ca, 0x00000000, 0x9128f695, 0x18c623f9);
    ShaOp(14, 0x9128f695, 0x4607b664, 0x18c623f9, 0x7ef6a7a2, 0x60d47e4a, 0x00000000, 0x196bee77, 0x1181ed99);
    ShaOp(15, 0x196bee77, 0x9128f695, 0x1181ed99, 0x18c623f9, 0x7ef6a7a2, 0x00000018, 0x20bdd62f, 0x644a3da5);
  }

  lemma ShaAbc32()
    requires |SHA_BLOCK| == 64
    ensures Sha1.Rounds(Sha1.INIT, SHA_BLOCK, 32)
            == Sha1.Hash(0x3b845d33, 0x1267b407, 0x717eebd7, 0xa0dc2d4b, 0xd2aa1365)
  {
    hide SHA_BLOCK, Sha1.W, Sha1.Rounds;
    ShaAbc16();
    ShaWords16();
    ShaOp(16, 0x20bdd62f, 0x196bee77, 0x644a3da5, 0x1181ed99, 0x18c623f9, 0xc2c4c700, 0x4e925823, 0xc65afb9d);
    ShaOp(17, 0x4e925823, 0x20bdd62f, 0xc65afb9d, 0x644a3da5, 0x1181ed99, 0x00000000, 0x82aa6728, 0xc82f758b);
    ShaOp(18, 0x82aa6728, 0x4e925823, 0xc82f758b, 0xc65afb9d, 0x644a3da5, 0x00000030, 0xdc64901d, 0xd3a49608);
    ShaOp(19, 0xdc64901d, 0x82aa6728, 0xd3a49608, 0xc82f758b, 0xc65afb9d, 0x85898e01, 0xfd9e1d7d, 0x20aa99ca);
    ShaOp(20, 0xfd9e1d7d, 0xdc64901d, 0x20aa99ca, 0xd3a49608, 0xc82f758b, 0x00000000, 0x1a37b0ca, 0x77192407);
    ShaOp(21, 0x1a37b0ca, 0xfd9e1d7d, 0x77192407, 0x20aa99ca, 0xd3a49608, 0x00000060, 0x33a23bfc, 0x7f67875f);
    ShaOp(22, 0x33a23bfc, 0x1a37b0ca, 0x7f67875f, 0x77192407, 0x20aa99ca, 0x0b131c03, 0x21283486, 0x868dec32);
    ShaOp(23, 0x21283486, 0x33a23bfc, 0x868dec32, 0x7f67875f, 0x77192407, 0x00000030, 0xd541f12d, 0x0ce88eff);
    ShaOp(24, 0xd541f12d, 0x21283486, 0x0ce88eff, 0x868dec32, 0x7f67875f, 0x85898ec1, 0xc7567dc6, 0x884a0d21);
    ShaOp(25, 0xc7567dc6, 0xd541f12d, 0x884a0d21, 0x0ce88eff, 0x868dec32, 0x16263806, 0x48413ba4, 0x75507c4b);
    ShaOp(26, 0x48413ba4, 0xc7567dc6, 0x75507c4b, 0x884a0d21, 0x0ce88eff, 0x00000000, 0xbe35fbd5, 0xb1d59f71);
    ShaOp(27, 0xbe35fbd5, 0x48413ba4, 0xb1d59f71, 0x75507c4b, 0x884a0d21, 0x00000180, 0x4aa84d97, 0x12104ee9);
    ShaOp(28, 0x4aa84d97, 0xbe35fbd5, 0x12104ee9, 0xb1d59f71, 0x75507c4b, 0x2c4c700c, 0x8370b52e, 0x6f8d7ef5);
    ShaOp(29, 0x8370b52e, 0x4aa84d97, 0x6f8d7ef5, 0x12104ee9, 0xb1d59f71, 0x000000f0, 0xc5fbaf5d, 0xd2aa1365);
    ShaOp(30, 0xc5fbaf5d, 0x8370b52e, 0xd2aa1365, 0x6f8d7ef5, 0x12104ee9, 0x93afb507, 0x1267b407, 0xa0dc2d4b);
    ShaOp(31, 0x1267b407, 0xc5fbaf5d, 0xa0dc2d4b, 0xd2aa1365, 0x6f8d7ef5, 0x5898e048, 0x3b845d33, 0x717eebd7);
  }

  lemma ShaAbc48()
    requires |SHA_BLOCK| == 64
    ensures Sha1.Rounds(Sha1.INIT, SHA_BLOCK, 48)
            == Sha1.Hash(0xbead02ca, 0xa01b846c, 0x8714787c, 0x503ca382, 0xfb86c6ab)
  {
    hide SHA_BLOCK, Sha1.W, Sha1.Rounds;
    ShaAbc32();
    ShaWords32();
    ShaOp(32, 0x3b845d33, 0x1267b407, 0x717eebd7, 0xa0dc2d4b, 0xd2aa1365, 0x8e9a9202, 0x046faa0a, 0xc499ed01);
    ShaOp(33, 0x046faa0a, 0x3b845d33, 0xc499ed01, 0x717eebd7, 0xa0dc2d4b, 0x00000600, 0x2c0ebc11, 0xcee1174c);
    ShaOp(34, 0x2c0ebc11, 0x046faa0a, 0xcee1174c, 0xc499ed01, 0x717eebd7, 0xb131c0f0, 0x21796ad4, 0x811bea82);
    ShaOp(35, 0x21796ad4, 0x2c0ebc11, 0x811bea82, 0xcee1174c, 0xc499ed01, 0x16263bc6, 0xdcbbb0cb, 0x4b03af04);
    ShaOp(36, 0xdcbbb0cb, 0x21796ad4, 0x4b03af04, 0x811bea82, 0xcee1174c, 0x4ebed41e, 0x0f511fd8, 0x085e5ab5);
    ShaOp(37, 0x0f511fd8, 0xdcbbb0cb, 0x085e5ab5, 0x4b03af04, 0x811bea82, 0x626380a1, 0xdc63973f, 0xf72eec32);
    ShaOp(38, 0xdc63973f, 0x0f511fd8, 0xf72eec32, 0x085e5ab5, 0x4b03af04, 0x16263806, 0x4c986405, 0x03d447f6);
    ShaOp(39, 0x4c986405, 0xdc63973f, 0x03d447f6, 0xf72eec32, 0x085e5ab5, 0x000018c0, 0x32de1cba, 0xf718e5cf);
    ShaOp(40, 0x32de1cba, 0x4c986405, 0xf718e5cf, 0x03d447f6, 0xf72eec32, 0xd2e138c4, 0xfc87dedf, 0x53261901);
    ShaOp(41, 0xfc87dedf, 0x32de1cba, 0x53261901, 0xf718e5cf, 0x03d447f6, 0x00000f00, 0x970a0d5c, 0x8cb7872e);
    ShaOp(42, 0x970a0d5c, 0xfc87dedf, 0x8cb7872e, 0x53261901, 0xf718e5cf, 0x3afb5079, 0x7f193dc5, 0xff21f7b7);
    ShaOp(43, 0x7f193dc5, 0x970a0d5c, 0xff21f7b7, 0x8cb7872e, 0x53261901, 0x898e04e5, 0xee1b1aaf, 0x25c28357);
    ShaOp(44, 0xee1b1aaf, 0x7f193dc5, 0x25c28357, 0xff21f7b7, 0x8cb7872e, 0xe2ba3c2b, 0x40f28e09, 0x5fc64f71);
    ShaOp(45, 0x40f28e09, 0xee1b1aaf, 0x5fc64f71, 0x25c28357, 0xff21f7b7, 0x000060c0, 0x1c51e1f2, 0xfb86c6ab);
    ShaOp(46, 0x1c51e1f2, 0x40f28e09, 0xfb86c6ab, 0x5fc64f71, 0x25c28357, 0x053a37cd, 0xa01b846c, 0x503ca382);
    ShaOp(47, 0xa01b846c, 0x1c51e1f2, 0x503ca382, 0xfb86c6ab, 0x5fc64f71, 0x74458547, 0xbead02ca, 0x8714787c);
  }

  lemma ShaAbc64()
    requires |SHA_BLOCK| == 64
    ensures Sha1.Rounds(Sha1.INIT, SHA_BLOCK, 64)
            == Sha1.Hash(0x6b61c9e1, 0xb66c020b, 0x9523272c, 0xf5d5b051, 0x8fd4b796)
  {
    hide SHA_BLOCK, Sha1.W, Sha1.Rounds;
    ShaAbc48();
    ShaWords48();
    ShaOp(48, 0xbead02ca, 0xa01b846c, 0x8714787c, 0x503ca382, 0xfb86c6ab, 0xda9415ed, 0xbaf39337, 0x2806e11b);
    ShaOp(49, 0xbaf39337, 0xbead02ca, 0x2806e11b, 0x8714787c, 0x503ca382, 0x26380a16, 0x120731c5, 0xafab40b2);
    ShaOp(50, 0x120731c5, 0xbaf39337, 0xafab40b2, 0x2806e11b, 0x8714787c, 0x626383a1, 0x641db2ce, 0xeebce4cd);
    ShaOp(51, 0x641db2ce, 0x120731c5, 0xeebce4cd, 0xafab40b2, 0x2806e11b, 0x4ebf54de, 0x3847ad66, 0x4481cc71);
    ShaOp(52, 0x3847ad66, 0x641db2ce, 0x4481cc71, 0xeebce4cd, 0xafab40b2, 0x3835b44b, 0xe490436d, 0x99076cb3);
    ShaOp(53, 0xe490436d, 0x3847ad66, 0x99076cb3, 0x4481cc71, 0xeebce4cd, 0x0000f600, 0x27e9f1d8, 0x8e11eb59);
    ShaOp(54, 0x27e9f1d8, 0xe490436d, 0x8e11eb59, 0x99076cb3, 0x4481cc71, 0x1e84c7a3, 0x7b71f76d, 0x792410db);
    ShaOp(55, 0x7b71f76d, 0x27e9f1d8, 0x792410db, 0x8e11eb59, 0x99076cb3, 0x98e04d98, 0x5e6456af, 0x09fa7c76);
    ShaOp(56, 0x5e6456af, 0x7b71f76d, 0x09fa7c76, 0x792410db, 0x8e11eb59, 0x651d16a0, 0xc846093f, 0x5edc7ddb);
    ShaOp(57, 0xc846093f, 0x5e6456af, 0x5edc7ddb, 0x09fa7c76, 0x792410db, 0x62658ca1, 0xd262ff50, 0xd79915ab);
    ShaOp(58, 0xd262ff50, 0xc846093f, 0xd79915ab, 0x5edc7ddb, 0x09fa7c76, 0x458544d6, 0x09d785fd, 0xf211824f);
    ShaOp(59, 0x09d785fd, 0xd262ff50, 0xf211824f, 0xd79915ab, 0x5edc7ddb, 0x44584cb7, 0x3f52de5a, 0x3498bfd4);
    ShaOp(60, 0x3f52de5a, 0x09d785fd, 0x3498bfd4, 0xf211824f, 0xd79915ab, 0x7ba06619, 0xd756c147, 0x4275e17f);
    ShaOp(61, 0xd756c147, 0x3f52de5a, 0x4275e17f, 0x3498bfd4, 0xf211824f, 0x6380aea2, 0x548c9cb2, 0x8fd4b796);
    ShaOp(62, 0x548c9cb2, 0xd756c147, 0x8fd4b796, 0x4275e17f, 0x3498bfd4, 0x0ae55269, 0xb66c020b, 0xf5d5b051);
    ShaOp(63, 0xb66c020b, 0x548c9cb2, 0xf5d5b051, 0x8fd4b796, 0x4275e17f, 0x627b49a1, 0x6b61c9e1, 0x9523272c);
  }

  lemma ShaAbc80()
    requires |SHA_BLOCK| == 64
    ensures Sha1.Rounds(Sha1.INIT, SHA_BLOCK, 80)
            == Sha1.Hash(0x42541b35, 0x5738d5e1, 0x21834873, 0x681e6df6, 0xd8fdf6ad)
  {
    hide SHA_BLOCK, Sha1.W, Sha1.Rounds;
    ShaAbc64();
    ShaWords64();
    ShaOp(64, 0x6b61c9e1, 0xb66c020b, 0x9523272c, 0xf5d5b051, 0x8fd4b796, 0x7cd45c9d, 0x19dfa7ac, 0xed9b0082);
    ShaOp(65, 0x19dfa7ac, 0x6b61c9e1, 0xed9b0082, 0x9523272c, 0xf5d5b051, 0x000f0000, 0x101655f9, 0x5ad87278);
    ShaOp(66, 0x101655f9, 0x19dfa7ac, 0x5ad87278, 0xed9b0082, 0x9523272c, 0xfb50753a, 0x0c3df2b4, 0x0677e9eb);
    ShaOp(67, 0x0c3df2b4, 0x101655f9, 0x0677e9eb, 0x5ad87278, 0xed9b0082, 0xec6765e8, 0x78dd4d2b, 0x4405957e);
    ShaOp(68, 0x78dd4d2b, 0x0c3df2b4, 0x4405957e, 0x0677e9eb, 0x5ad87278, 0xba3c2be2, 0x497093c0, 0x030f7cad);
    ShaOp(69, 0x497093c0, 0x78dd4d2b, 0x030f7cad, 0x4405957e, 0x0677e9eb, 0x0060c000, 0x3f2588c2, 0xde37534a);
    ShaOp(70, 0x3f2588c2, 0x497093c0, 0xde37534a, 0x030f7cad, 0x4405957e, 0x3a37cd05, 0xc199f8c7, 0x125c24f0);
    ShaOp(71, 0xc199f8c7, 0x3f2588c2, 0x125c24f0, 0xde37534a, 0x030f7cad, 0x458546f4, 0x39859de7, 0x8fc96230);
    ShaOp(72, 0x39859de7, 0xc199f8c7, 0x8fc96230, 0x125c24f0, 0xde37534a, 0xb8599dd6, 0xedb42de4, 0xf0667e31);
    ShaOp(73, 0xedb42de4, 0x39859de7, 0xf0667e31, 0x8fc96230, 0x125c24f0, 0x380a1a26, 0x11793f6f, 0xce616779);
    ShaOp(74, 0x11793f6f, 0xedb42de4, 0xce616779, 0xf0667e31, 0x8fc96230, 0x01e02203, 0x5ee76897, 0x3b6d0b79);
    ShaOp(75, 0x5ee76897, 0x11793f6f, 0x3b6d0b79, 0xce616779, 0xf0667e31, 0xe7cc3456, 0x63f7dab7, 0xc45e4fdb);
    ShaOp(76, 0x63f7dab7, 0x5ee76897, 0xc45e4fdb, 0x3b6d0b79, 0xce616779, 0xe6e60b69, 0xa079b7d9, 0xd7b9da25);
    ShaOp(77, 0xa079b7d9, 0x63f7dab7, 0xd7b9da25, 0xc45e4fdb, 0x3b6d0b79, 0x00f60a00, 0x860d21cc, 0xd8fdf6ad);
    ShaOp(78, 0x860d21cc, 0xa079b7d9, 0xd8fdf6ad, 0xd7b9da25, 0xc45e4fdb, 0x5795ef4f, 0x5738d5e1, 0x681e6df6);
    ShaOp(79, 0x5738d5e1, 0x860d21cc, 0x681e6df6, 0xd8fdf6ad, 0xd7b9da25, 0x822e0879, 0x42541b35, 0x21834873);
  }

  lemma ShaFold()
    requires |SHA_BLOCK| == 64
    ensures Sha1.Fold(Sha1.INIT, SHA_BLOCK) == Sha1.Compress(Sha1.INIT, SHA_BLOCK)
  {
    hide Sha1.Compress, SHA_BLOCK;
    var b := SHA_BLOCK;
    assert b[..|b| - 64] == [] && b[|b| - 64..] == b;
  }

  function Register(h: Sha1.Hash, j: nat): word {
    if j == 0 then h.a else if j == 1 then h.b else if j == 2 then h.c else if j == 3 then h.d else h.e
  }

  lemma ShaDigestByte(h: Sha1.Hash, j: nat, k: nat)
    requires j < 5 && k < 4
    ensures Sha1.DigestByte(h, 4 * j + k) == Sha1.ByteOf(Register(h, j), 8 * (3 - k))
  {
    hide Sha1.ByteOf;
    DivModUnique(4 * j + k, j, k, 4);
  }

  lemma ShaBytesOf(h: Sha1.Hash, j: nat, w: word, b0: byte, b1: byte, b2: byte, b3: byte)
    requires j < 5 && w == Register(h, j)
    requires Sha1.ByteOf(w, 24) == b0 && Sha1.ByteOf(w, 16) == b1 && Sha1.ByteOf(w, 8) == b2 && Sha1.ByteOf(w, 0) == b3
    ensures Sha1.Digest(h)[4 * j..4 * j + 4] == [b0, b1, b2, b3]
  {
    hide Sha1.ByteOf, Register, Sha1.DigestByte;
    ShaDigestByte(h, j, 0);
    ShaDigestByte(h, j, 1);
    ShaDigestByte(h, j, 2);
    ShaDigestByte(h, j, 3);
  }

  lemma ShaRegisters()
    ensures Sha1.Digest(Sha1.Hash(0xa9993e36, 0x4706816a, 0xba3e2571, 0x7850c26c, 0x9cd0d89d))
            == [0xa9, 0x99, 0x3e, 0x36, 0x47, 0x06, 0x81, 0x6a, 0xba, 0x3e,
                0x25, 0x71, 0x78, 0x50, 0xc2, 0x6c, 0x9c, 0xd0, 0xd8, 0x9d]
  {
    hide Sha1.Digest;
    var h := Sha1.Hash(0xa9993e36, 0x4706816a, 0xba3e2571, 0x7850c26c, 0x9cd0d89d);
    ShaBytesOf(h, 0, 0xa9993e36, 0xa9, 0x99, 0x3e, 0x36);
    ShaBytesOf(h, 1, 0x4706816a, 0x47, 0x06, 0x81, 0x6a);
    ShaBytesOf(h, 2, 0xba3e2571, 0xba, 0x3e, 0x25, 0x71);
    ShaBytesOf(h, 3, 0x7850c26c, 0x78, 0x50, 0xc2, 0x6c);
    ShaBytesOf(h, 4, 0x9cd0d89d, 0x9c, 0xd0, 0xd8, 0x9d);
    var all := Sha1.Digest(h);
    assert all == all[0..4] + all[4..8] + all[8..12] + all[12..16] + all[16..20];
  }

  /** FIPS 180-4, the one-block example of its test vectors. */
  lemma ShaOfAbc()
    ensures Sha1.DigestOf(ABC)
            == [0xa9, 0x99, 0x3e, 0x36, 0x47, 0x06, 0x81, 0x6a, 0xba, 0x3e,
                0x25, 0x71, 0x78, 0x50, 0xc2, 0x6c, 0x9c, 0xd0, 0xd8, 0x9d]
  {
    hide Sha1.Rounds, Sha1.Fold, Sha1.Digest, Sha1.Pad, SHA_BLOCK, ABC;
    ShaBlock();
    ShaAbc80();
    ShaFold();
    ShaRegisters();
  }

}
