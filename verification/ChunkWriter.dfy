/** The chunking writers: payload bytes with a one-byte continuation header before every
    chunk but the first. */
module ChunkWriters {
  import opened Bytes
  import opened ObjBuffers

  const ENC_ALIGN: nat := 1024
  const AMF_SAFE_TAIL: nat := 16

  /** The type-3 basic header of a continuation chunk: `0xC0 | channel`. */
  function Marker(channel: byte): (b: byte)
    ensures b / 64 == 3 && b % 64 == channel % 64
  {
    0xC0 + channel % 64
  }

  predicate Boundary(k: nat, size: nat)
    requires size >= 1
  {
    k > 0 && k % size == 0
  }

  /** The bytes emitted for payload `p`, one byte at a time. */
  function Chunked(p: seq<byte>, size: nat, channel: byte): seq<byte>
    requires size >= 1
  {
    if p == [] then [] else
    var n := |p| - 1;
    Chunked(p[..n], size, channel) + (if Boundary(n, size) then [Marker(channel)] else []) + [p[n]]
  }

  // ---------------------------------------------------------------- arithmetic

  /** Within a chunk the remainder grows with the offset. */
  lemma ModAdd(a: nat, k: nat, m: nat)
    requires m >= 1 && a % m + k < m
    ensures (a + k) % m == a % m + k
  {
    assert a == m * (a / m) + a % m;
    DivModUnique(a + k, a / m, a % m + k, m);
  }

  /** Whole chunks do not change remainders. */
  lemma ModShift(a: nat, k: nat, m: nat)
    requires m >= 1 && a % m == 0
    ensures (a + k) % m == k % m
  {
    assert a == m * (a / m);
    assert k == m * (k / m) + k % m;
    assert a + k == (a / m + k / m) * m + k % m;
    DivModUnique(a + k, a / m + k / m, k % m, m);
  }

  /** The quotient goes up by one exactly at the multiples. */
  lemma DivStep(n: nat, m: nat)
    requires m >= 1 && n >= 1
    ensures n / m == (n - 1) / m + (if n % m == 0 then 1 else 0)
  {
    var q, r := (n - 1) / m, (n - 1) % m;
    assert n - 1 == m * q + r;
    if r + 1 < m {
      DivModUnique(n, q, r + 1, m);
    } else {
      assert n == (q + 1) * m + 0 by {
        assert (q + 1) * m == q * m + m;
      }
      DivModUnique(n, q + 1, 0, m);
    }
  }

  // ---------------------------------------------------------------- closed form

  /** Where every emitted byte comes from: n payload bytes become n + (n-1)/size bytes, payload
      byte k lands k/size places later, and a marker precedes exactly the multiples of the size. */
  lemma {:induction false} ChunkedClosedForm(p: seq<byte>, size: nat, channel: byte)
    requires size >= 1
    ensures var c := Chunked(p, size, channel);
            && |c| == (if p == [] then 0 else |p| + (|p| - 1) / size)
            && (forall k :: 0 <= k < |p| ==> k / size >= 0 && k + k / size < |c| && c[k + k / size] == p[k])
            && (forall k :: 0 < k < |p| && k % size == 0 ==>
                  1 <= k / size && k + k / size - 1 < |c| && c[k + k / size - 1] == Marker(channel))
  {
    if p != [] {
      var n := |p| - 1;
      ChunkedClosedForm(p[..n], size, channel);
      if n > 0 {
        DivStep(n, size);
      } else {
        DivModUnique(0, 0, 0, size);
      }
      forall k | 0 < k < |p| && k % size == 0 ensures 1 <= k / size {
        DivStep(k, size);
      }
    }
  }

  /** Appending payload that stays inside the current chunk. */
  lemma {:induction false} ChunkedWithin(p: seq<byte>, q: seq<byte>, size: nat, channel: byte)
    requires size >= 1 && |p| % size + |q| <= size && q != []
    ensures Chunked(p + q, size, channel)
            == Chunked(p, size, channel) + (if Boundary(|p|, size) then [Marker(channel)] else []) + q
  {
    var k := |q| - 1;
    var pq := p + q;
    assert pq[..|pq| - 1] == p + q[..k];
    if k == 0 {
      assert p + q[..k] == p;
    } else {
      ChunkedWithin(p, q[..k], size, channel);
      ModAdd(|p|, k, size);
      assert q[..k] + [q[k]] == q;
    }
  }

  /** A whole number of chunks followed by more payload. */
  lemma {:induction false} ChunkedShift(a: seq<byte>, q: seq<byte>, size: nat, channel: byte)
    requires size >= 1 && Boundary(|a|, size) && q != []
    ensures Chunked(a + q, size, channel) == Chunked(a, size, channel) + [Marker(channel)] + Chunked(q, size, channel)
  {
    var k := |q| - 1;
    var aq := a + q;
    assert aq[..|aq| - 1] == a + q[..k];
    ModShift(|a|, k, size);
    if k == 0 {
      assert a + q[..k] == a;
    } else {
      ChunkedShift(a, q[..k], size, channel);
    }
  }

  /** The same bytes, chunk by chunk from the front. */
  function Chunks(p: seq<byte>, size: nat, channel: byte): seq<byte>
    requires size >= 1
  {
    if |p| <= size then p else p[..size] + [Marker(channel)] + Chunks(p[size..], size, channel)
  }

  lemma OneChunk(q: seq<byte>, size: nat, channel: byte)
    requires 0 < |q| <= size
    ensures Chunked(q, size, channel) == q
    ensures |q| == size ==> Boundary(|q|, size)
  {
    DivModUnique(0, 0, 0, size);
    ChunkedWithin([], q, size, channel);
    assert [] + q == q;
    if |q| == size {
      DivModUnique(size, 1, 0, size);
    }
  }

  lemma {:induction false} ChunkedIsChunks(p: seq<byte>, size: nat, channel: byte)
    requires size >= 1
    ensures Chunked(p, size, channel) == Chunks(p, size, channel)
  {
    if 0 < |p| <= size {
      OneChunk(p, size, channel);
    } else if p != [] {
      var a, q := p[..size], p[size..];
      OneChunk(a, size, channel);
      hide Chunked, Boundary, Marker;
      ChunkedShift(a, q, size, channel);
      assert a + q == p;
      ChunkedIsChunks(q, size, channel);
    }
  }

  // ---------------------------------------------------------------- the growing writer

  /** A byte queue whose writes are chunked.  `head` bytes at the front are left for a message header. */
  class AmfBuffer {
    const out: ObjBuffer
    const chunkSize: nat
    const channelId: byte
    var amfSize: nat
    ghost const head: nat
    ghost var payload: seq<byte>

    ghost predicate Valid()
      reads this, out, out.data
    {
      && out.Valid() && out.safeTail == AMF_SAFE_TAIL
      && chunkSize >= 1
      && head <= out.writePos
      && amfSize == |payload|
      && out.data[head..out.writePos] == Chunked(payload, chunkSize, channelId)
    }

    /** An empty writer with its read position moved past the header. */
    constructor (headSize: nat, size: nat, channel: byte)
      requires size >= 1 && headSize + AMF_SAFE_TAIL + ENC_ALIGN < 0x8000_0000
      ensures Valid() && fresh(out) && fresh(out.data) && payload == []
      ensures head == headSize && chunkSize == size && channelId == channel && out.writePos == headSize
    {
      var o := new ObjBuffer(AMF_SAFE_TAIL);
      o.Alloc(headSize, ENC_ALIGN);
      o.readPos, o.writePos := headSize, headSize;
      out, chunkSize, channelId, amfSize := o, size, channel, 0;
      head, payload := headSize, [];
    }

    /** Room left below the 32-bit limit for `n` more payload bytes and their markers. */
    ghost predicate HasRoom(n: nat)
      reads this, out
    {
      out.writePos + 2 * n + AMF_SAFE_TAIL + ENC_ALIGN < 0x8000_0000
    }

    method Put(bytes: seq<byte>)
      requires out.Valid() && out.safeTail == AMF_SAFE_TAIL && head <= out.writePos
      requires out.writePos + |bytes| + AMF_SAFE_TAIL + ENC_ALIGN < 0x8000_0000
      modifies out, out.data
      ensures out.Valid() && (out.data == old(out.data) || fresh(out.data))
      ensures out.writePos == old(out.writePos) + |bytes|
      ensures out.data[head..out.writePos] == old(out.data[head..out.writePos]) + bytes
    {
      out.Write(bytes, ENC_ALIGN);
      assert out.data[head..out.writePos] == out.data[..out.writePos][head..];
    }

    /** The rest of the current chunk, or part of it, with the marker that opens it. */
    method WriteChunk(piece: seq<byte>)
      requires Valid() && HasRoom(|piece|)
      requires piece != [] && amfSize % chunkSize + |piece| <= chunkSize
      modifies this, out, out.data
      ensures Valid() && (out.data == old(out.data) || fresh(out.data))
      ensures payload == old(payload) + piece
      ensures out.writePos <= old(out.writePos) + 1 + |piece|
    {
      hide Chunked, Boundary, Marker;
      if Boundary(amfSize, chunkSize) {
        Put([Marker(channelId)]);
      }
      Put(piece);
      ChunkedWithin(payload, piece, chunkSize, channelId);
      amfSize := amfSize + |piece|;
      payload := payload + piece;
    }

    method Write(bytes: seq<byte>)
      requires Valid() && HasRoom(|bytes|)
      modifies this, out, out.data
      ensures Valid() && (out.data == old(out.data) || fresh(out.data))
      ensures payload == old(payload) + bytes
      ensures out.writePos <= old(out.writePos) + 2 * |bytes|
    {
      hide Chunked;
      var total := 0;
      while total < |bytes|
        invariant 0 <= total <= |bytes|
        invariant Valid() && (out.data == old(out.data) || fresh(out.data))
        invariant payload == old(payload) + bytes[..total]
        invariant out.writePos <= old(out.writePos) + 2 * total
      {
        var copied := Min(|bytes| - total, chunkSize - amfSize % chunkSize);
        WriteChunk(bytes[total..total + copied]);
        assert bytes[..total + copied] == bytes[..total] + bytes[total..total + copied];
        total := total + copied;
      }
    }
  }

  // ---------------------------------------------------------------- the fixed-capacity writer

  function Prefix(s: seq<byte>, n: nat): seq<byte> {
    if |s| <= n then s else s[..n]
  }

  /** A chunked writer over memory of fixed size: bytes that do not fit are dropped. */
  class SharedMemoryWriter {
    const mem: array<byte>
    const chunkSize: nat
    const channelId: byte
    var dataLen: nat
    var amfSize: nat
    ghost const base: nat
    ghost var payload: seq<byte>

    ghost predicate Valid()
      reads this, mem
    {
      && chunkSize >= 1
      && base <= dataLen <= mem.Length
      && amfSize == |payload|
      && mem[base..dataLen] == Prefix(Chunked(payload, chunkSize, channelId), mem.Length - base)
    }

    constructor (memory: array<byte>, used: nat, size: nat, channel: byte)
      requires used <= memory.Length && size >= 1
      ensures Valid() && mem == memory && payload == [] && base == used && chunkSize == size && channelId == channel
    {
      mem, chunkSize, channelId := memory, size, channel;
      dataLen, amfSize := used, 0;
      base, payload := used, [];
    }

    /** Copies what fits; `full` is the stream an unbounded buffer would hold so far. */
    method Put(bytes: seq<byte>, ghost full: seq<byte>) returns (copied: nat)
      requires base <= dataLen <= mem.Length
      requires mem[base..dataLen] == Prefix(full, mem.Length - base)
      modifies this`dataLen, mem
      ensures base <= dataLen <= mem.Length
      ensures mem[base..dataLen] == Prefix(full + bytes, mem.Length - base)
      ensures dataLen == old(dataLen) + copied
      ensures mem[..base] == old(mem[..base])
    {
      copied := Min(mem.Length - dataLen, |bytes|);
      ghost var before := mem[base..dataLen];
      forall i | 0 <= i < copied {
        mem[dataLen + i] := bytes[i];
      }
      dataLen := dataLen + copied;
      assert mem[base..dataLen] == before + bytes[..copied];
    }

    /** The rest of the current chunk, or part of it, with the marker that opens it. */
    method WriteChunk(piece: seq<byte>) returns (written: nat)
      requires Valid()
      requires piece != [] && amfSize % chunkSize + |piece| <= chunkSize
      modifies this, mem
      ensures Valid() && payload == old(payload) + piece
      ensures dataLen == old(dataLen) + written && mem[..base] == old(mem[..base])
    {
      hide Chunked, Boundary, Marker;
      written := 0;
      ghost var full := Chunked(payload, chunkSize, channelId);
      if Boundary(amfSize, chunkSize) {
        written := Put([Marker(channelId)], full);
        full := full + [Marker(channelId)];
      }
      var w := Put(piece, full);
      written := written + w;
      ChunkedWithin(payload, piece, chunkSize, channelId);
      assert full + piece == Chunked(payload + piece, chunkSize, channelId);
      amfSize := amfSize + |piece|;
      payload := payload + piece;
    }

    method Write(bytes: seq<byte>) returns (written: nat)
      requires Valid()
      modifies this, mem
      ensures Valid() && payload == old(payload) + bytes
      ensures dataLen == old(dataLen) + written && mem[..base] == old(mem[..base])
    {
      hide Chunked, Prefix;
      var total := 0;
      written := 0;
      while total < |bytes|
        invariant 0 <= total <= |bytes|
        invariant Valid() && payload == old(payload) + bytes[..total]
        invariant dataLen == old(dataLen) + written && mem[..base] == old(mem[..base])
      {
        var copied := Min(|bytes| - total, chunkSize - amfSize % chunkSize);
        var w := WriteChunk(bytes[total..total + copied]);
        written := written + w;
        assert bytes[..total + copied] == bytes[..total] + bytes[total..total + copied];
        total := total + copied;
      }
    }
  }
}
