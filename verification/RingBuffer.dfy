/** The ring buffer: a bounded byte queue in one array, written all or nothing. */
module RingBuffers {
  import opened Bytes

  /** An offset at most one turn ahead, brought back into the array. */
  function Wrap(x: nat, size: nat): nat {
    if x < size then x else x - size
  }

  lemma WrapIsMod(x: nat, size: nat)
    requires x < 2 * size
    ensures x % size == Wrap(x, size)
  {
    if x < size {
      DivModUnique(x, 0, x, size);
    } else {
      DivModUnique(x, 1, x - size, size);
    }
  }

  /** `n` bytes from place `first` on, across the end of the array. */
  ghost function Held(b: seq<byte>, first: nat, n: nat): (s: seq<byte>)
    requires n <= |b| && (first < |b| || first == 0)
    ensures |s| == n
  {
    if first + n <= |b| then b[first..first + n] else b[first..] + b[..first + n - |b|]
  }

  lemma HeldInOne(b: seq<byte>, first: nat, n: nat)
    requires n <= |b| && (first < |b| || first == 0) && first + n <= |b|
    ensures Held(b, first, n) == b[first..first + n]
  {
  }

  lemma HeldInTwo(b: seq<byte>, first: nat, n: nat)
    requires n <= |b| && (first < |b| || first == 0) && |b| <= first + n
    ensures Held(b, first, n) == b[first..] + b[..first + n - |b|]
  {
  }

  lemma Spliced(front: seq<byte>, piece: seq<byte>, back: seq<byte>, first: nat)
    requires first <= |front|
    ensures (front + piece + back)[first..|front| + |piece|] == front[first..] + piece
    ensures (front + piece + back)[..|front| + |piece|] == front + piece
    ensures (front + piece + back)[|front| + |piece|..] == back
  {
  }

  lemma SameBack(b: seq<byte>, b': seq<byte>, cut: nat, first: nat)
    requires cut <= first <= |b| && |b'| == |b| && b'[cut..] == b[cut..]
    ensures b'[first..] == b[first..]
  {
    assert b[first..] == b[cut..][first - cut..] && b'[first..] == b'[cut..][first - cut..];
  }

  lemma Behind(x: seq<byte>, y: seq<byte>, z: seq<byte>)
    ensures x + (y + z) == (x + y) + z
  {
  }

  lemma FrontCut(b: seq<byte>, first: nat, at: nat)
    requires first <= at <= |b|
    ensures b[..at][first..] == b[first..at]
  {
  }

  /** Bytes written behind those held. */
  lemma HeldMore(b: seq<byte>, b': seq<byte>, first: nat, n: nat, piece: seq<byte>, at: nat)
    requires n + |piece| <= |b| && (first < |b| || first == 0) && at == Wrap(first + n, |b|) && at + |piece| <= |b|
    requires b' == b[..at] + piece + b[at + |piece|..]
    ensures Held(b', first, n + |piece|) == Held(b, first, n) + piece
  {
    hide Held;
    if first + n < |b| {
      HeldInOne(b, first, n);
      HeldInOne(b', first, n + |piece|);
      Spliced(b[..at], piece, b[at + |piece|..], first);
      FrontCut(b, first, at);
    } else {
      HeldInTwo(b, first, n);
      HeldInTwo(b', first, n + |piece|);
      Spliced(b[..at], piece, b[at + |piece|..], 0);
      SameBack(b, b', at + |piece|, first);
      Behind(b[first..], b[..at], piece);
    }
  }

  lemma Overwritten(b: seq<byte>, b': seq<byte>, at: nat, piece: seq<byte>)
    requires |b'| == |b| && at + |piece| <= |b|
    requires forall i :: 0 <= i < |b| ==> b'[i] == if at <= i < at + |piece| then piece[i - at] else b[i]
    ensures b' == b[..at] + piece + b[at + |piece|..]
  {
  }

  /** Bytes taken from the front, up to the end of the array. */
  lemma HeldLess(b: seq<byte>, first: nat, n: nat, taken: nat)
    requires n <= |b| && first < |b| && 0 < taken <= n && first + taken <= |b|
    ensures b[first..first + taken] + Held(b, if first + taken == |b| then 0 else first + taken, n - taken)
            == Held(b, first, n)
  {
    if first + n > |b| {
      assert b[first..first + taken] + b[first + taken..] == b[first..];
      if first + taken < |b| {
        assert b[first..first + taken] + (b[first + taken..] + b[..first + n - |b|])
            == (b[first..first + taken] + b[first + taken..]) + b[..first + n - |b|];
      }
    }
  }

  class MemoryBuffer {
    const buf: array<byte>
    const autoClear: bool
    var first: nat
    var dataLen: nat

    ghost predicate Valid()
      reads this
    {
      dataLen <= buf.Length && (first < buf.Length || first == 0)
    }

    /** The queued bytes, oldest first, across the wrap. */
    ghost function Contents(): (s: seq<byte>)
      reads this, buf
      requires Valid()
      ensures |s| == dataLen
    {
      Held(buf[..], first, dataLen)
    }

    constructor (size: nat, clear: bool)
      ensures Valid() && Contents() == [] && buf.Length == size && autoClear == clear && fresh(buf)
    {
      buf := new byte[size];
      autoClear := clear;
      first, dataLen := 0, 0;
    }

    method Reset()
      requires Valid()
      modifies this
      ensures Valid() && Contents() == []
    {
      dataLen, first := 0, 0;
    }

    /** Copies a stretch that does not wrap behind the queued bytes. */
    method CopyIn(piece: seq<byte>, at: nat)
      requires Valid() && dataLen + |piece| <= buf.Length && at + |piece| <= buf.Length && 0 < |piece|
      requires at == Wrap(first + dataLen, buf.Length)
      modifies `dataLen, buf
      ensures Valid() && Contents() == old(Contents()) + piece
    {
      ghost var was := buf[..];
      forall i | 0 <= i < |piece| {
        buf[at + i] := piece[i];
      }
      Overwritten(was, buf[..], at, piece);
      HeldMore(was, buf[..], first, dataLen, piece, at);
      dataLen := dataLen + |piece|;
    }

    /** Queues all the bytes or none.  A full buffer is emptied first if it clears itself and the
        bytes would fit into it. */
    method Write(bytes: seq<byte>) returns (n: nat)
      requires Valid()
      modifies this, buf
      ensures Valid()
      ensures var clears := old(dataLen) + |bytes| > buf.Length && autoClear && |bytes| <= buf.Length;
              if old(dataLen) + |bytes| <= buf.Length then n == |bytes| && Contents() == old(Contents()) + bytes
              else if clears then n == |bytes| && Contents() == bytes
              else n == 0 && Contents() == old(Contents())
    {
      hide MemoryBuffer.Contents, Wrap;
      if |bytes| == 0 {
        NothingMore(Contents(), bytes);
        return 0;
      }
      if dataLen + |bytes| > buf.Length {
        if autoClear && |bytes| <= buf.Length {
          dataLen, first := 0, 0;
        } else {
          return 0;
        }
      }
      n := 0;
      ghost var start := Contents();
      NothingMore(start, bytes[..0]);
      while n < |bytes|
        invariant Valid() && n <= |bytes| && dataLen + (|bytes| - n) <= buf.Length
        invariant Contents() == start + bytes[..n]
      {
        WrapIsMod(first + dataLen, buf.Length);
        var at := (first + dataLen) % buf.Length;
        var copied := Min(buf.Length - at, |bytes| - n);
        CopyIn(bytes[n..n + copied], at);
        Further(start, bytes, n, copied);
        n := n + copied;
      }
      Further(start, bytes, n, 0);
    }

    /** Copies out a stretch that does not wrap. */
    method CopyOut(n: nat) returns (piece: seq<byte>)
      requires Valid() && 0 < n <= dataLen && first + n <= buf.Length
      modifies `first, `dataLen
      ensures Valid() && |piece| == n && piece + Contents() == old(Contents())
    {
      HeldLess(buf[..], first, dataLen, n);
      piece := buf[first..first + n];
      assert piece == buf[..][first..first + n];
      first := first + n;
      dataLen := dataLen - n;
      if first == buf.Length {
        first := 0;
      }
    }

    /** Takes as many bytes as asked for, or all there are. */
    method Read(size: int) returns (out: seq<byte>)
      requires Valid()
      modifies this
      ensures Valid()
      ensures |out| == if size <= 0 then 0 else Min(size, |old(Contents())|)
      ensures out + Contents() == old(Contents())
    {
      hide MemoryBuffer.Contents;
      out := [];
      assert [] + Contents() == Contents();
      if dataLen == 0 {
        return;
      }
      var max := Min(size, dataLen);
      while |out| < max
        invariant Valid() && (|out| <= max || out == [])
        invariant out + Contents() == old(Contents())
      {
        var piece := CopyOut(Min(buf.Length - first, max - |out|));
        assert (out + piece) + Contents() == out + (piece + Contents());
        out := out + piece;
      }
    }
  }

  lemma NothingMore(held: seq<byte>, nothing: seq<byte>)
    requires |nothing| == 0
    ensures held + nothing == held && [] + nothing == nothing
  {
  }

  lemma Further(start: seq<byte>, bytes: seq<byte>, n: nat, more: nat)
    requires n + more <= |bytes|
    ensures start + bytes[..n] + bytes[n..n + more] == start + bytes[..n + more]
    ensures n == |bytes| ==> start + bytes[..n] == start + bytes
    ensures [] + bytes == bytes
  {
    assert bytes[..n + more] == bytes[..n] + bytes[n..n + more];
  }
}
