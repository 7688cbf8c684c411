/** Base64: the two encoders, the decoder that skips what it does not know, and the round trip. */
module Base64 {
  import opened Bytes

  const PAD: byte := 61
  const CR: byte := 13
  const LF: byte := 10

  // ---------------------------------------------------------------- the alphabet

  function GetBase64Char(index: int): byte {
    if 0 <= index < 26 then 65 + index
    else if 26 <= index < 52 then 97 + index - 26
    else if 52 <= index < 62 then 48 + index - 52
    else if index == 62 then 43
    else if index == 63 then 47
    else PAD
  }

  /** -1 for every byte outside the alphabet. */
  function GetBase64Index(ch: byte): (index: int)
    ensures -1 <= index < 64
  {
    if 65 <= ch <= 90 then ch - 65
    else if 97 <= ch <= 122 then ch - 97 + 26
    else if 48 <= ch <= 57 then ch - 48 + 52
    else if ch == 43 then 62
    else if ch == 47 then 63
    else -1
  }

  lemma AlphabetRoundTrip(index: int)
    requires 0 <= index < 64
    ensures GetBase64Index(GetBase64Char(index)) == index && GetBase64Char(index) != 0
  {
  }

  // ---------------------------------------------------------------- groups

  /** The digits of a group of one to three bytes. */
  function Digits(g: seq<byte>): (d: seq<int>)
    requires 1 <= |g| <= 3
    ensures |d| == |g| + 1 && Sextets(d)
  {
    if |g| == 1 then [g[0] / 4, g[0] % 4 * 16]
    else if |g| == 2 then [g[0] / 4, g[0] % 4 * 16 + g[1] / 16, g[1] % 16 * 4]
    else [g[0] / 4, g[0] % 4 * 16 + g[1] / 16, g[1] % 16 * 4 + g[2] / 64, g[2] % 64]
  }

  /** Section 4 of RFC 4648: the digits are those of a 24-bit number in base 64. */
  lemma DigitsAreBase64(g: seq<byte>)
    requires 1 <= |g| <= 3
    ensures var n := BitGroup(g);
            && Digits(g)[0] == n / 0x4_0000 % 64 && Digits(g)[1] == n / 0x1000 % 64
            && (|g| > 1 ==> Digits(g)[2] == n / 0x40 % 64) && (|g| > 2 ==> Digits(g)[3] == n % 64)
  {
    var a, b, c := g[0] as int, if |g| > 1 then g[1] as int else 0, if |g| > 2 then g[2] as int else 0;
    var n := BitGroup(g);
    DivModUnique(n, a / 4, a % 4 * 0x1_0000 + b * 0x100 + c, 0x4_0000);
    DivModUnique(n, a * 16 + b / 16, b % 16 * 0x100 + c, 0x1000);
    DivModUnique(a * 16 + b / 16, a / 4, a % 4 * 16 + b / 16, 64);
    DivModUnique(n, a * 0x400 + b * 4 + c / 64, c % 64, 0x40);
    DivModUnique(a * 0x400 + b * 4 + c / 64, a * 16 + b / 16, b % 16 * 4 + c / 64, 64);
  }

  /** The bytes of a group as a 24-bit number, zero bits added at the end. */
  function BitGroup(g: seq<byte>): int
    requires 1 <= |g| <= 3
  {
    g[0] as int * 0x1_0000 + (if |g| > 1 then g[1] as int * 0x100 else 0) + if |g| > 2 then g[2] as int else 0
  }

  /** What the decoder makes of two to four digits. */
  function Undigits(d: seq<int>): seq<byte>
    requires |d| <= 4 && Sextets(d)
  {
    (if |d| > 1 then [d[0] * 4 + d[1] / 16] else [])
    + (if |d| > 2 then [d[1] % 16 * 16 + d[2] / 4] else [])
    + (if |d| > 3 then [d[2] % 4 * 64 + d[3]] else [])
  }

  lemma GroupRoundTrip(g: seq<byte>)
    requires 1 <= |g| <= 3
    ensures Undigits(Digits(g)) == g
  {
    var a, b, c := g[0] as int, if |g| > 1 then g[1] as int else 0, if |g| > 2 then g[2] as int else 0;
    DivModUnique(a % 4 * 16 + b / 16, a % 4, b / 16, 16);
    DivModUnique(b % 16 * 4 + c / 64, b % 16, c / 64, 4);
  }

  /** Digits of base 64. */
  predicate Sextets(d: seq<int>) {
    forall i :: 0 <= i < |d| ==> 0 <= d[i] < 64
  }

  // ---------------------------------------------------------------- encoding

  function Letters(d: seq<int>): (s: seq<byte>)
    ensures |s| == |d|
  {
    if d == [] then [] else [GetBase64Char(d[0])] + Letters(d[1..])
  }

  /** One group as four characters, padded. */
  function Quad(g: seq<byte>): (q: seq<byte>)
    requires 1 <= |g| <= 3
    ensures |q| == 4
  {
    Letters(Digits(g)) + [[PAD, PAD], [PAD], []][|g| - 1]
  }

  function LineBreak(i: nat, breaks: bool): seq<byte> {
    if breaks && i != 0 && i % 54 == 0 then [CR, LF] else []
  }

  /** The encoding from offset `i` on.  Full groups are written while more than one group is left; the
      line-breaking form puts a break before every eighteenth of those, never before the last group. */
  function EncodeFrom(data: seq<byte>, i: nat, breaks: bool): seq<byte>
    requires i < |data|
    decreases |data| - i
  {
    if i + 3 < |data| then LineBreak(i, breaks) + Quad(data[i..i + 3]) + EncodeFrom(data, i + 3, breaks)
    else Quad(data[i..])
  }

  function Encode(data: seq<byte>, breaks: bool): seq<byte> {
    if data == [] then [] else EncodeFrom(data, 0, breaks)
  }

  // ---------------------------------------------------------------- known answers, and the shape of the lines

  /** The table of section 4 of RFC 4648: A to Z, a to z, 0 to 9, plus and slash. */
  lemma AlphabetIs(k: nat)
    requires k < 64
    ensures GetBase64Char(0) == 'A' as int && GetBase64Char(25) == 'Z' as int
    ensures GetBase64Char(26) == 'a' as int && GetBase64Char(51) == 'z' as int
    ensures GetBase64Char(52) == '0' as int && GetBase64Char(61) == '9' as int
    ensures GetBase64Char(62) == '+' as int && GetBase64Char(63) == '/' as int && PAD == '=' as int
    ensures k !in {25, 51, 61, 62, 63} ==> GetBase64Char(k + 1) == GetBase64Char(k) + 1
  {
  }

  /** Test vectors of section 10 of RFC 4648: "f", "fo" and "foo" are "Zg==", "Zm8=" and "Zm9v". */
  lemma KnownAnswers()
    ensures Encode([102], false) == [90, 103, 61, 61]
    ensures Encode([102, 111], false) == [90, 109, 56, 61]
    ensures Encode([102, 111, 111], false) == [90, 109, 57, 118]
  {
    hide Quad;
    KnownQuads();
    assert [102][0..] == [102] && [102, 111][0..] == [102, 111] && [102, 111, 111][0..] == [102, 111, 111];
  }

  lemma KnownQuads()
    ensures Quad([102]) == [90, 103, 61, 61] && Quad([102, 111]) == [90, 109, 56, 61]
    ensures Quad([102, 111, 111]) == [90, 109, 57, 118]
  {
    hide GetBase64Char;
    KnownLetters();
    assert Digits([102]) == [25, 32] && Digits([102, 111]) == [25, 38, 60];
    assert Digits([102, 111, 111]) == [25, 38, 61, 47];
    Letters4(25, 32, 0, 0);
    Letters4(25, 38, 60, 0);
    Letters4(25, 38, 61, 47);
  }

  lemma KnownLetters()
    ensures GetBase64Char(25) == 90 && GetBase64Char(32) == 103 && GetBase64Char(38) == 109 && GetBase64Char(60) == 56
    ensures GetBase64Char(61) == 57 && GetBase64Char(47) == 118
  {
  }

  lemma Letters4(a: int, b: int, c: int, d: int)
    ensures Letters([a, b]) == [GetBase64Char(a), GetBase64Char(b)]
    ensures Letters([a, b, c]) == [GetBase64Char(a), GetBase64Char(b), GetBase64Char(c)]
    ensures Letters([a, b, c, d]) == [GetBase64Char(a), GetBase64Char(b), GetBase64Char(c), GetBase64Char(d)]
  {
    hide GetBase64Char;
    assert [a, b, c, d][1..] == [b, c, d] && [b, c, d][1..] == [c, d] && [c, d][1..] == [d] && [d][1..] == [];
    assert [a, b, c][1..] == [b, c] && [b, c][1..] == [c] && [c][1..] == [] && [a, b][1..] == [b] && [b][1..] == [];
    assert Letters([b]) == [GetBase64Char(b)] && Letters([c]) == [GetBase64Char(c)];
    assert Letters([d]) == [GetBase64Char(d)] && Letters([b, c]) == [GetBase64Char(b), GetBase64Char(c)];
    assert Letters([c, d]) == [GetBase64Char(c), GetBase64Char(d)];
    assert Letters([b, c, d]) == [GetBase64Char(b), GetBase64Char(c), GetBase64Char(d)];
  }

  /** A text in lines: `room` more characters on this one and 72 on each of the others, except that a last group of four
      is never put on a line of its own. */
  function Lines(text: seq<byte>, room: nat): seq<byte>
    requires room > 0
    decreases |text|
  {
    if |text| <= room + 4 then text else text[..room] + [13, 10] + Lines(text[room..], 72)
  }

  /** The line-breaking form is the plain one in lines of 72. */
  lemma BreaksIntoLines(data: seq<byte>)
    ensures Encode(data, true) == Lines(Encode(data, false), 72)
  {
    hide Quad;
    if data != [] {
      BreaksFrom(data, 0, 0);
    }
  }

  /** From a group that is the `k`-th on its line. */
  lemma {:induction false} BreaksFrom(data: seq<byte>, i: nat, k: nat)
    requires i < |data| && k < 18 && i % 54 == 3 * k
    ensures EncodeFrom(data, i, true)
            == (if i + 3 < |data| then LineBreak(i, true) else []) + Lines(EncodeFrom(data, i, false), 72 - 4 * k)
    decreases |data| - i
  {
    hide Quad, LineBreak;
    NoBreak(i);
    if i + 3 < |data| {
      var q, rest := Quad(data[i..i + 3]), EncodeFrom(data, i + 3, false);
      var next := if k == 17 then 0 else k + 1;
      DivModUnique(i + 3, if k == 17 then i / 54 + 1 else i / 54, 3 * next, 54);
      BreaksFrom(data, i + 3, next);
      FullOrLast(data, i + 3);
      if k == 17 {
        BreakIs(i + 3);
        LineEnds(q, rest);
      } else {
        NoBreakInside(i + 3, next);
        LineGoesOn(q, rest, 72 - 4 * k);
      }
    } else {
      LastOne(data, i);
    }
  }

  lemma NoBreak(i: nat)
    ensures LineBreak(i, false) == []
  {
  }

  lemma BreakIs(i: nat)
    requires i != 0 && i % 54 == 0
    ensures LineBreak(i, true) == [CR, LF]
  {
  }

  lemma NoBreakInside(i: nat, k: nat)
    requires i % 54 == 3 * k && k > 0
    ensures LineBreak(i, true) == []
  {
  }

  /** What is left is one group, or more than four characters. */
  lemma FullOrLast(data: seq<byte>, i: nat)
    requires i < |data|
    ensures if i + 3 < |data| then |EncodeFrom(data, i, false)| > 4 else |EncodeFrom(data, i, false)| == 4
    decreases |data| - i
  {
    hide Quad;
    if i + 3 < |data| {
      FullOrLast(data, i + 3);
    }
  }

  lemma LastOne(data: seq<byte>, i: nat)
    requires i < |data| <= i + 3
    ensures EncodeFrom(data, i, true) == EncodeFrom(data, i, false) && |EncodeFrom(data, i, false)| == 4
  {
    hide Quad;
  }

  lemma LineGoesOn(q: seq<byte>, rest: seq<byte>, room: nat)
    requires |q| == 4 && room > 4
    ensures Lines(q + rest, room) == q + Lines(rest, room - 4)
  {
    if |rest| > room {
      assert (q + rest)[..room] == q + rest[..room - 4] && (q + rest)[room..] == rest[room - 4..];
    }
  }

  lemma LineEnds(q: seq<byte>, rest: seq<byte>)
    requires |q| == 4 && |rest| >= 4
    ensures Lines(q + rest, 4) == if |rest| > 4 then q + [CR, LF] + Lines(rest, 72) else q + rest
  {
    assert (q + rest)[..4] == q && (q + rest)[4..] == rest;
  }

  // ---------------------------------------------------------------- decoding

  /** The digits of a text, up to a NUL: every other character is skipped. */
  function Codes(s: seq<byte>): (d: seq<int>)
    ensures Sextets(d)
  {
    if s == [] || s[0] == 0 then []
    else if GetBase64Index(s[0]) < 0 then Codes(s[1..])
    else [GetBase64Index(s[0])] + Codes(s[1..])
  }

  /** Whatever is no digit, and no terminator, is skipped wherever it stands. */
  lemma {:induction false} OthersAreSkipped(a: seq<byte>, other: byte, b: seq<byte>)
    requires other != 0 && GetBase64Index(other) < 0
    ensures Codes(a + [other] + b) == Codes(a + b)
    decreases |a|
  {
    hide GetBase64Index;
    if a == [] {
      assert ([other] + b)[1..] == b && [] + [other] + b == [other] + b && [] + b == b;
    } else {
      assert (a + [other] + b)[1..] == a[1..] + [other] + b && (a + b)[1..] == a[1..] + b;
      OthersAreSkipped(a[1..], other, b);
    }
  }

  /** And every other byte is one of the alphabet's. */
  lemma IndexInverts(ch: byte)
    ensures GetBase64Index(ch) >= 0 ==> GetBase64Char(GetBase64Index(ch)) == ch
  {
  }

  function Ungroup(d: seq<int>): seq<byte>
    requires Sextets(d)
  {
    if |d| < 4 then Undigits(d) else Undigits(d[..4]) + Ungroup(d[4..])
  }

  // ---------------------------------------------------------------- the round trip

  lemma {:induction false} CodesSkip(s: seq<byte>, t: seq<byte>)
    requires forall i :: 0 <= i < |s| ==> s[i] != 0 && GetBase64Index(s[i]) < 0
    ensures Codes(s + t) == Codes(t)
  {
    if s == [] {
      assert s + t == t;
    } else {
      assert (s + t)[1..] == s[1..] + t;
      CodesSkip(s[1..], t);
    }
  }

  lemma CodesLetter(index: int, t: seq<byte>)
    requires 0 <= index < 64
    ensures Codes([GetBase64Char(index)] + t) == [index] + Codes(t)
  {
    AlphabetRoundTrip(index);
    hide GetBase64Char, GetBase64Index;
    assert ([GetBase64Char(index)] + t)[1..] == t;
  }

  lemma LettersUnfold(d: seq<int>)
    requires Sextets(d)
    ensures Letters(d) == if d == [] then [] else [GetBase64Char(d[0])] + Letters(d[1..])
  {
  }

  lemma Reassociate<T>(a: seq<T>, b: seq<T>, c: seq<T>)
    ensures a + b + c == a + (b + c)
    ensures [] + c == c
  {
  }

  lemma {:induction false} CodesLetters(d: seq<int>, t: seq<byte>)
    requires Sextets(d)
    ensures Codes(Letters(d) + t) == d + Codes(t)
  {
    hide Codes, Letters, GetBase64Char, GetBase64Index;
    LettersUnfold(d);
    if d == [] {
      Reassociate([], [], t);
      Reassociate([], [], Codes(t));
    } else {
      Reassociate([GetBase64Char(d[0])], Letters(d[1..]), t);
      CodesLetter(d[0], Letters(d[1..]) + t);
      CodesLetters(d[1..], t);
      Reassociate([d[0]], d[1..], Codes(t));
      assert [d[0]] + d[1..] == d;
    }
  }

  lemma CodesQuad(g: seq<byte>, t: seq<byte>)
    requires 1 <= |g| <= 3
    ensures Codes(Quad(g) + t) == Digits(g) + Codes(t)
  {
    hide Digits, Letters;
    var pad := [[PAD, PAD], [PAD], []][|g| - 1];
    assert Quad(g) + t == Letters(Digits(g)) + (pad + t);
    CodesLetters(Digits(g), pad + t);
    CodesSkip(pad, t);
  }

  /** Decoding either form from any offset gives back the bytes from there on, also when a NUL and
      arbitrary bytes follow. */
  lemma {:induction false} RoundTripFrom(data: seq<byte>, i: nat, breaks: bool, after: seq<byte>)
    requires i < |data| && (after == [] || after[0] == 0)
    ensures Ungroup(Codes(EncodeFrom(data, i, breaks) + after)) == data[i..]
    ensures i + 3 < |data| ==> |Codes(EncodeFrom(data, i, breaks) + after)| >= 4
    decreases |data| - i
  {
    hide Digits, Undigits, Quad;
    if i + 3 < |data| {
      var g, rest := data[i..i + 3], EncodeFrom(data, i + 3, breaks) + after;
      assert EncodeFrom(data, i, breaks) + after == LineBreak(i, breaks) + (Quad(g) + rest);
      CodesSkip(LineBreak(i, breaks), Quad(g) + rest);
      CodesQuad(g, rest);
      RoundTripFrom(data, i + 3, breaks, after);
      var d := Digits(g) + Codes(rest);
      assert d[..4] == Digits(g) && d[4..] == Codes(rest);
      GroupRoundTrip(g);
      assert data[i..] == g + data[i + 3..];
    } else {
      var g := data[i..];
      CodesQuad(g, after);
      assert Digits(g) + Codes(after) == Digits(g);
      GroupRoundTrip(g);
      LastGroup(Digits(g));
    }
  }

  lemma LastGroup(d: seq<int>)
    requires |d| <= 4 && Sextets(d)
    ensures Ungroup(d) == Undigits(d)
  {
    if |d| == 4 {
      assert d[..4] == d && d[4..] == [];
    }
  }

  lemma RoundTrip(data: seq<byte>, breaks: bool, after: seq<byte>)
    requires after == [] || after[0] == 0
    ensures Ungroup(Codes(Encode(data, breaks) + after)) == data
  {
    if data != [] {
      RoundTripFrom(data, 0, breaks, after);
      assert data[0..] == data;
    } else {
      assert [] + after == after;
    }
  }

  // ---------------------------------------------------------------- the operations

  method PutBytes(bytes: seq<byte>, out: array<byte>, at: nat)
    requires at + |bytes| <= out.Length
    modifies out
    ensures out[..at + |bytes|] == old(out[..at]) + bytes
  {
    ghost var before := out[..at];
    forall i | 0 <= i < |bytes| {
      out[at + i] := bytes[i];
    }
    assert out[..at + |bytes|] == before + bytes;
  }

  /** Writes a group's four characters through the output pointer. */
  method PutQuad(g: seq<byte>, out: array<byte>, at: nat)
    requires 1 <= |g| <= 3 && at + 4 <= out.Length
    modifies out
    ensures out[..at + 4] == old(out[..at]) + Quad(g)
  {
    ghost var before := out[..at];
    out[at] := GetBase64Char(g[0] / 4);
    out[at + 1] := GetBase64Char(g[0] % 4 * 16 + if |g| > 1 then g[1] / 16 else 0);
    out[at + 2] := if |g| > 1 then GetBase64Char(g[1] % 16 * 4 + if |g| > 2 then g[2] / 64 else 0) else PAD;
    out[at + 3] := if |g| > 2 then GetBase64Char(g[2] % 64) else PAD;
    QuadIs(g);
    assert out[..at + 4] == before + [out[at], out[at + 1], out[at + 2], out[at + 3]];
  }

  lemma QuadIs(g: seq<byte>)
    requires 1 <= |g| <= 3
    ensures Quad(g) == [
      GetBase64Char(g[0] / 4),
      GetBase64Char(g[0] % 4 * 16 + if |g| > 1 then g[1] / 16 else 0),
      if |g| > 1 then GetBase64Char(g[1] % 16 * 4 + if |g| > 2 then g[2] / 64 else 0) else PAD,
      if |g| > 2 then GetBase64Char(g[2] % 64) else PAD]
  {
    hide GetBase64Char;
    var d := Digits(g);
    assert Letters(d) == [GetBase64Char(d[0])] + Letters(d[1..]);
    assert Letters(d[1..]) == [GetBase64Char(d[1])] + Letters(d[1..][1..]);
    assert |g| > 1 ==> Letters(d[1..][1..]) == [GetBase64Char(d[2])] + Letters(d[1..][1..][1..]);
    assert |g| > 2 ==> Letters(d[1..][1..][1..]) == [GetBase64Char(d[3])] + Letters(d[1..][1..][1..][1..]);
  }

  /** Encodes into a buffer with room for the text and its NUL. */
  method Base64Encode(data: seq<byte>, breaks: bool, out: array<byte>) returns (n: nat)
    requires out.Length > |Encode(data, breaks)|
    modifies out
    ensures n == |Encode(data, breaks)| && out[..n] == Encode(data, breaks)
    ensures data != [] ==> out[n] == 0
  {
    hide Quad, EncodeFrom, GetBase64Char;
    n := 0;
    if |data| == 0 {
      assert out[..0] == [];
      return;
    }
    var i := 0;
    while i + 3 < |data|
      invariant i < |data| && n <= out.Length
      invariant out[..n] + EncodeFrom(data, i, breaks) == Encode(data, breaks)
    {
      var break_ := breaks && i != 0 && i % 54 == 0;
      EncodeStep(data, i, breaks);
      Regroup(out[..n], if break_ then [CR, LF] else [], Quad(data[i..i + 3]), EncodeFrom(data, i + 3, breaks));
      n := PutGroup(data[i..i + 3], break_, out, n);
      i := i + 3;
    }
    EncodeEnd(data, i, breaks);
    PutQuad(data[i..], out, n);
    n := n + 4;
    out[n] := 0;
  }

  /** A full group, behind a line break if one is due. */
  method PutGroup(g: seq<byte>, break_: bool, out: array<byte>, at: nat) returns (end: nat)
    requires |g| == 3 && at + 6 < out.Length + if break_ then 0 else 2
    modifies out
    ensures end <= out.Length && out[..end] == old(out[..at]) + (if break_ then [CR, LF] else []) + Quad(g)
  {
    hide Quad;
    end := at;
    if break_ {
      PutBytes([CR, LF], out, end);
      end := end + 2;
      out[end] := 0;
    }
    PutQuad(g, out, end);
    end := end + 4;
  }

  lemma Regroup(a: seq<byte>, b: seq<byte>, c: seq<byte>, d: seq<byte>)
    ensures a + (b + (c + d)) == (a + b + c) + d
  {
  }

  lemma EncodeStep(data: seq<byte>, i: nat, breaks: bool)
    requires i + 3 < |data|
    ensures EncodeFrom(data, i, breaks)
            == (if breaks && i != 0 && i % 54 == 0 then [CR, LF] else [])
               + (Quad(data[i..i + 3]) + EncodeFrom(data, i + 3, breaks))
    ensures |EncodeFrom(data, i + 3, breaks)| >= 4
  {
  }

  lemma EncodeEnd(data: seq<byte>, i: nat, breaks: bool)
    requires i < |data| <= i + 3
    ensures EncodeFrom(data, i, breaks) == Quad(data[i..])
  {
  }

  lemma {:induction false} CodesFound(s: seq<byte>, p: nat)
    requires p < |s| && s[p] != 0
    ensures Codes(s[p..]) == (if GetBase64Index(s[p]) < 0 then [] else [GetBase64Index(s[p])]) + Codes(s[p + 1..])
  {
    assert s[p..][1..] == s[p + 1..];
  }

  lemma CodesEnd(s: seq<byte>, p: nat)
    requires p < |s| && s[p] == 0
    ensures Codes(s[p..]) == []
  {
  }

  /** On to the next digit, or to the end. */
  method SkipOthers(s: seq<byte>, from: nat) returns (p: nat)
    requires from < |s| && s[|s| - 1] == 0
    ensures from <= p < |s| && Codes(s[p..]) == Codes(s[from..])
    ensures s[p] == 0 || GetBase64Index(s[p]) >= 0
  {
    hide Codes, GetBase64Index;
    p := from;
    while s[p] != 0 && GetBase64Index(s[p]) < 0
      invariant from <= p < |s|
      invariant Codes(s[p..]) == Codes(s[from..])
      decreases |s| - p
    {
      CodesFound(s, p);
      p := p + 1;
    }
  }

  /** The next four digits of a NUL-terminated text, or as many as are left. */
  method Fetch4Code(s: seq<byte>, from: nat) returns (p: nat, index: seq<int>)
    requires from < |s| && s[|s| - 1] == 0
    ensures from <= p < |s| && (index != [] ==> from < p)
    ensures Sextets(index)
    ensures index + Codes(s[p..]) == Codes(s[from..])
    ensures |index| <= 4 && (|index| < 4 ==> Codes(s[p..]) == [])
  {
    hide Codes, GetBase64Index;
    p, index := from, [];
    while |index| < 4
      invariant from <= p < |s| && |index| <= 4 && (index != [] ==> from < p)
      invariant Sextets(index)
      invariant index + Codes(s[p..]) == Codes(s[from..])
    {
      if s[p] == 0 {
        CodesEnd(s, p);
        return;
      }
      p := SkipOthers(s, p);
      if s[p] == 0 {
        CodesEnd(s, p);
        return;
      }
      CodesFound(s, p);
      index := index + [GetBase64Index(s[p])];
      p := p + 1;
    }
  }

  /** What a decoder with room for `capacity` bytes gives back. */
  function Decoded(s: seq<byte>, capacity: nat): seq<byte> {
    if |Codes(s)| / 4 * 3 + 1 > capacity then [] else Ungroup(Codes(s))
  }

  lemma DecodedIs(s: seq<byte>, capacity: nat, groups: nat, left: nat)
    requires |Codes(s)| == 4 * groups + left && left < 4
    ensures Decoded(s, capacity) == if 3 * groups + 1 > capacity then [] else Ungroup(Codes(s))
  {
    hide Codes, Ungroup;
    DivModUnique(|Codes(s)|, groups, left, 4);
  }

  lemma {:induction false} UngroupLength(d: seq<int>)
    requires Sextets(d)
    ensures |Ungroup(d)| == |d| / 4 * 3 + (if |d| % 4 == 0 then 0 else |d| % 4 - 1)
  {
    if |d| >= 4 {
      UngroupLength(d[4..]);
    }
  }

  /** Into a buffer that can hold the data, decoding an encoder's text gives the data back exactly when there is a
      byte to spare, or the last group is not a full one. */
  lemma DecodedEncoding(data: seq<byte>, breaks: bool, after: seq<byte>, capacity: nat)
    requires 0 < |data| <= capacity
    ensures Decoded(Encode(data, breaks) + [0] + after, capacity) == data <==> capacity > |data| || |data| % 3 != 0
  {
    var s := Encode(data, breaks) + [0] + after;
    assert s == Encode(data, breaks) + ([0] + after);
    RoundTrip(data, breaks, [0] + after);
    UngroupLength(Codes(s));
    hide Ungroup, Codes, Encode;
    var q := |Codes(s)| / 4;
    if |Codes(s)| % 4 == 0 {
      DivModUnique(|data|, q, 0, 3);
    } else {
      LastRemainder(|data|, q, |Codes(s)| % 4 - 1);
    }
  }

  lemma LastRemainder(n: nat, q: nat, r: nat)
    requires n == 3 * q + r && r <= 2
    ensures n % 3 == r
  {
    DivModUnique(n, q, r, 3);
  }

  /** Where the decoding loop stands: `index` has just been fetched, `done` is what it has written. */
  ghost predicate Decoding(s: seq<byte>, p: nat, index: seq<int>, done: seq<byte>, groups: nat) {
    && p < |s| && |index| <= 4 && (|index| < 4 ==> Codes(s[p..]) == [])
    && Sextets(index)
    && |done| == 3 * groups
    && done + Ungroup(index + Codes(s[p..])) == Ungroup(Codes(s))
    && |Codes(s)| == 4 * groups + |index| + |Codes(s[p..])|
  }

  lemma DecodingStarts(s: seq<byte>, p: nat, index: seq<int>)
    requires p < |s| && |index| <= 4 && (|index| < 4 ==> Codes(s[p..]) == [])
    requires Sextets(index)
    requires index + Codes(s[p..]) == Codes(s[0..])
    ensures Decoding(s, p, index, [], 0)
  {
    hide Codes, Ungroup;
    assert s[0..] == s;
    Reassociate([], [], Ungroup(Codes(s)));
  }

  lemma DecodingGoesOn(s: seq<byte>, p: nat, index: seq<int>, done: seq<byte>, groups: nat, p': nat, index': seq<int>)
    requires Decoding(s, p, index, done, groups) && |index| == 4
    requires p' < |s| && |index'| <= 4 && (|index'| < 4 ==> Codes(s[p'..]) == [])
    requires Sextets(index')
    requires index' + Codes(s[p'..]) == Codes(s[p..])
    ensures |Undigits(index)| == 3 && |done| + 3 <= |Ungroup(Codes(s))|
    ensures Decoding(s, p', index', done + Undigits(index), groups + 1)
  {
    hide Codes, Undigits, Ungroup;
    UngroupStep(done, index, Codes(s[p..]));
  }

  lemma DecodingEnds(s: seq<byte>, p: nat, index: seq<int>, done: seq<byte>, groups: nat)
    requires Decoding(s, p, index, done, groups) && |index| < 4
    ensures |Codes(s)| == 4 * groups + |index| && done + Ungroup(index) == Ungroup(Codes(s))
  {
    hide Codes, Ungroup;
    assert index + [] == index;
  }

  /** The loop over the full groups; `index` is the last group, which is not. */
  method DecodeGroups(s: seq<byte>, out: array<byte>) returns (n: nat, index: seq<int>, ghost groups: nat)
    requires s != [] && s[|s| - 1] == 0
    requires |Ungroup(Codes(s))| <= out.Length
    modifies out
    ensures |index| < 4 && Sextets(index)
    ensures n == 3 * groups && |Codes(s)| == 4 * groups + |index| && n <= out.Length
    ensures out[..n] + Ungroup(index) == Ungroup(Codes(s))
  {
    hide Codes, Undigits, Ungroup, GetBase64Index, Decoding, Sextets;
    var p;
    p, index := Fetch4Code(s, 0);
    n, groups := 0, 0;
    ghost var done := [];
    DecodingStarts(s, p, index);
    while |index| == 4
      invariant p < |s| && |index| <= 4 && Sextets(index)
      invariant n == 3 * groups && n <= out.Length && out[..n] == done
      invariant Decoding(s, p, index, done, groups)
      decreases |s| - p, |index|
    {
      var group, from := index, p;
      p, index := Fetch4Code(s, p);
      DecodingGoesOn(s, from, group, done, groups, p, index);
      n := PutGroupOfThree(group, out, n, done);
      groups, done := groups + 1, done + Undigits(group);
    }
    DecodingEnds(s, p, index, done, groups);
  }

  /** Decodes a NUL-terminated text.  The buffer must hold the result; it must have one byte more than the
      full groups need, or the result is thrown away. */
  method Base64Decode(s: seq<byte>, out: array<byte>) returns (n: nat)
    requires s != [] && s[|s| - 1] == 0
    requires |Ungroup(Codes(s))| <= out.Length
    modifies out
    ensures n <= out.Length && out[..n] == Decoded(s, out.Length)
  {
    hide Codes, Undigits, Ungroup, Decoded;
    var index: seq<int>;
    ghost var groups: nat;
    n, index, groups := DecodeGroups(s, out);
    LastGroup(index);
    DecodedIs(s, out.Length, groups, |index|);
    if n + 1 > out.Length {
      assert out[..0] == [];
      return 0;
    }
    var last := Undigits(index);
    PutBytes(last, out, n);
    n := n + |last|;
  }

  /** The three bytes of a full group, behind those already written. */
  method PutGroupOfThree(index: seq<int>, out: array<byte>, at: nat, ghost done: seq<byte>) returns (n: nat)
    requires |index| == 4 && Sextets(index)
    requires |Undigits(index)| == 3 && at + 3 <= out.Length && out[..at] == done
    modifies out
    ensures n == at + 3 && out[..n] == done + Undigits(index)
  {
    hide Undigits;
    PutBytes(Undigits(index), out, at);
    n := at + 3;
  }

  lemma UngroupStep(done: seq<byte>, d: seq<int>, rest: seq<int>)
    requires |d| == 4 && Sextets(d) && Sextets(rest)
    ensures done + Ungroup(d + rest) == (done + Undigits(d)) + Ungroup(rest)
    ensures |Undigits(d)| == 3
  {
    assert (d + rest)[..4] == d && (d + rest)[4..] == rest;
  }

  /** Three bytes and a buffer for three: nothing comes back. */
  lemma FullGroupIsLost()
    ensures Decoded(Encode([1, 2, 3], false) + [0], 3) != [1, 2, 3]
  {
    hide Decoded, Encode;
    DecodedEncoding([1, 2, 3], false, [], 3);
    assert Encode([1, 2, 3], false) + [0] + [] == Encode([1, 2, 3], false) + [0];
  }
}
