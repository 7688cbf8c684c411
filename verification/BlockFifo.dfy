/** The block-chained FIFO: bytes live in blocks of fixed size, a read position walks along the
    chain, and blocks well behind it are recycled, so that a bounded stretch of history stays. */
module BlockFifos {
  import opened Bytes

  /** A block: its memory, where reading goes on in it, and how much of it is filled. */
  datatype Block = Block(mem: seq<byte>, dataStart: nat, dataLen: nat)
  {
    ghost predicate Valid() {
      dataStart <= dataLen <= |mem|
    }

    ghost function Data(): seq<byte>
      requires Valid()
    {
      mem[..dataLen]
    }
  }

  ghost predicate AllValid(bs: seq<Block>) {
    forall i :: 0 <= i < |bs| ==> bs[i].Valid()
  }

  /** The bytes of a chain of blocks, in order. */
  ghost function Flat(bs: seq<Block>): seq<byte>
    requires AllValid(bs)
  {
    if bs == [] then [] else bs[0].Data() + Flat(bs[1..])
  }

  lemma {:induction false} FlatAppend(a: seq<Block>, b: seq<Block>)
    requires AllValid(a) && AllValid(b)
    ensures AllValid(a + b) && Flat(a + b) == Flat(a) + Flat(b)
  {
    if a == [] {
      assert a + b == b;
    } else {
      assert (a + b)[1..] == a[1..] + b;
      FlatAppend(a[1..], b);
    }
  }

  lemma FlatOne(b: Block)
    requires b.Valid()
    ensures AllValid([b]) && Flat([b]) == b.Data()
  {
    assert [b][1..] == [];
  }

  /** A block that holds `bytes`, chained on. */
  lemma FlatMore(bs: seq<Block>, b: Block, bytes: seq<byte>)
    requires AllValid(bs) && b.dataLen == |bytes| <= |b.mem| && b.dataStart == 0 && b.mem[..|bytes|] == bytes
    ensures AllValid(bs + [b]) && Flat(bs + [b]) == Flat(bs) + bytes
  {
    hide Flat;
    FlatOne(b);
    FlatAppend(bs, [b]);
  }

  lemma Around(bs: seq<Block>, c: nat)
    requires c < |bs|
    ensures bs[..c + 1] == bs[..c] + [bs[c]]
    ensures bs == bs[..c] + [bs[c]] + bs[c + 1..]
  {
  }

  /** A chain around one of its blocks. */
  lemma FlatAround(bs: seq<Block>, c: nat)
    requires AllValid(bs) && c < |bs|
    ensures AllValid(bs[..c]) && AllValid(bs[..c + 1]) && AllValid(bs[c + 1..])
    ensures Flat(bs[..c + 1]) == Flat(bs[..c]) + bs[c].Data()
    ensures Flat(bs) == Flat(bs[..c]) + bs[c].Data() + Flat(bs[c + 1..])
  {
    hide Flat;
    Around(bs, c);
    FlatOne(bs[c]);
    FlatAppend(bs[..c], [bs[c]]);
    FlatAppend(bs[..c] + [bs[c]], bs[c + 1..]);
  }

  /** Replacing a block by one with the same bytes changes no bytes. */
  lemma FlatUpdate(bs: seq<Block>, c: nat, b: Block)
    requires AllValid(bs) && c < |bs| && b.Valid() && b.Data() == bs[c].Data()
    ensures AllValid(bs[c := b]) && Flat(bs[c := b]) == Flat(bs)
    ensures Flat(bs[c := b][..c]) == Flat(bs[..c])
  {
    FlatAround(bs, c);
    var cs := bs[c := b];
    assert cs[..c] == bs[..c] && cs[c + 1..] == bs[c + 1..];
    FlatAround(cs, c);
  }

  /** Filling the last block appends bytes. */
  lemma FlatGrow(bs: seq<Block>, b: Block, extra: seq<byte>)
    requires AllValid(bs) && bs != [] && b.Valid() && b.Data() == bs[|bs| - 1].Data() + extra
    ensures AllValid(bs[|bs| - 1 := b]) && Flat(bs[|bs| - 1 := b]) == Flat(bs) + extra
  {
    var c := |bs| - 1;
    var cs := bs[c := b];
    FlatAround(bs, c);
    FlatAround(cs, c);
    assert cs[..c] == bs[..c] && cs[c + 1..] == [] && bs[c + 1..] == [];
  }

  /** Where reading goes on: in block `cur`, `position` bytes from the start of the chain. */
  ghost predicate Placed(bs: seq<Block>, cur: int, position: int)
    requires AllValid(bs)
  {
    && -1 <= cur < |bs|
    && (forall i :: 0 <= i < |bs| && i != cur ==> bs[i].dataStart == 0)
    && (if cur == -1 then position == 0 else position == |Flat(bs[..cur])| + bs[cur].dataStart)
  }

  /** The chain is what was written, but for the first `evicted` bytes. */
  ghost predicate Holds(bs: seq<Block>, w: seq<byte>, evicted: nat, total: int)
    requires AllValid(bs)
  {
    evicted <= |w| && Flat(bs) == w[evicted..] && total == |Flat(bs)|
  }

  lemma PlacedInReplaced(bs: seq<Block>, b: Block, cur: int, position: int)
    requires AllValid(bs) && bs != [] && b.Valid() && b.dataStart == bs[|bs| - 1].dataStart
    requires Placed(bs, cur, position)
    ensures AllValid(bs[|bs| - 1 := b]) && Placed(bs[|bs| - 1 := b], cur, position)
  {
    hide Flat;
    if cur >= 0 {
      assert bs[|bs| - 1 := b][..cur] == bs[..cur];
    }
  }

  lemma PlacedInLonger(bs: seq<Block>, b: Block, cur: int, position: int)
    requires AllValid(bs) && b.Valid() && b.dataStart == 0 && Placed(bs, cur, position)
    ensures AllValid(bs + [b]) && Placed(bs + [b], cur, position)
  {
    hide Flat;
    if cur >= 0 {
      assert (bs + [b])[..cur] == bs[..cur];
    }
  }

  lemma HoldsMore(bs: seq<Block>, longer: seq<Block>, w: seq<byte>, evicted: nat, total: int, bytes: seq<byte>)
    requires AllValid(bs) && AllValid(longer) && Holds(bs, w, evicted, total) && Flat(longer) == Flat(bs) + bytes
    ensures Holds(longer, w + bytes, evicted, total + |bytes|)
  {
    hide Flat;
    SuffixGrows(w, evicted, bytes);
  }

  class MemoryBuffer2 {
    const blockSize: nat
    const seekLength: nat
    const maxFreeBlocks: int
    const shareData: bool
    var totalSize: int
    var position: int
    var used: seq<Block>
    /** The block reading goes on in, by its place in `used`; -1 before the first read. */
    var cur: int
    var free: seq<Block>

    ghost var written: seq<byte>
    ghost var evicted: nat

    /** The bytes read so far. */
    ghost function Consumed(): int
      reads this
    {
      evicted + position
    }

    ghost predicate Chain()
      reads this
    {
      && blockSize >= 1
      && AllValid(used)
      && (forall i :: 0 <= i < |used| ==> |used[i].mem| == blockSize && used[i].dataLen >= 1)
      && (forall i :: 0 <= i < |used| - 1 ==> used[i].dataLen == blockSize)
      && (forall i :: 0 <= i < |free| ==> |free[i].mem| == blockSize)
    }

    ghost predicate Positioned()
      reads this
      requires AllValid(used)
    {
      Placed(used, cur, position)
    }

    ghost predicate Content()
      reads this
      requires AllValid(used)
    {
      Holds(used, written, evicted, totalSize)
    }

    ghost predicate Sound()
      reads this
    {
      Chain() && Positioned() && Content()
    }

    /** How much history there is: all of it up to the seek length, and not a block more. */
    ghost predicate History()
      reads this
    {
      Min(Consumed(), seekLength) <= position <= seekLength + blockSize
    }

    ghost predicate Valid()
      reads this
    {
      Sound() && History()
    }

    constructor (size: int, seek: nat, maxFree: int, share: bool)
      ensures Valid() && written == [] && Consumed() == 0
      ensures blockSize == (if size < 1 then 1024 else size) && seekLength == seek
    {
      blockSize := if size < 1 then 1024 else size;
      seekLength, maxFreeBlocks, shareData := seek, maxFree, share;
      totalSize, position, used, cur, free := 0, 0, [], -1, [];
      written, evicted := [], 0;
    }

    method AllocItem() returns (b: Block)
      requires blockSize >= 1
      ensures |b.mem| == blockSize && b.dataStart == 0 && b.dataLen == 0
    {
      b := Block(seq(blockSize, _ => 0), 0, 0);
    }

    /** How many recycled blocks there are after `k` more were given back: up to one more than the maximum. */
    ghost function FreeAfter(f: int, k: int): int {
      if shareData || f > maxFreeBlocks then f else Min(f + k, maxFreeBlocks + 1)
    }

    method GetFreeItem() returns (b: Block)
      requires Valid() && free != []
      modifies `free
      ensures Valid() && |b.mem| == blockSize && b.dataStart == 0 && b.dataLen == 0
      ensures free == old(free)[1..]
    {
      b := free[0].(dataStart := 0, dataLen := 0);
      free := free[1..];
    }

    method PutItemToFree(b: Block)
      requires Chain() && |b.mem| == blockSize
      modifies `free
      ensures Chain()
      ensures free == if !shareData && |old(free)| <= maxFreeBlocks then old(free) + [b] else old(free)
    {
      if !shareData && |free| <= maxFreeBlocks {
        free := free + [b];
      }
    }

    /** How many more bytes the last block takes. */
    ghost function Room(): nat
      requires Chain()
      reads this
    {
      if used == [] then 0 else blockSize - used[|used| - 1].dataLen
    }

    method FillTail(bytes: seq<byte>) returns (n: nat)
      requires Valid() && used != []
      modifies `used, `totalSize, `written
      ensures Valid() && n == Min(|bytes|, old(Room())) && written == old(written) + bytes[..n] && |used| == |old(used)|
      ensures used != [] && (n < |bytes| ==> used[|used| - 1].dataLen == blockSize)
    {
      var b := used[|used| - 1];
      n := Min(|bytes|, blockSize - b.dataLen);
      FilledMore(b, bytes[..n]);
      ReplaceLast(b.(mem := b.mem[..b.dataLen] + bytes[..n] + b.mem[b.dataLen + n..], dataLen := b.dataLen + n),
        bytes[..n]);
    }

    /** The last block, with `bytes` more in it. */
    method ReplaceLast(b: Block, ghost bytes: seq<byte>)
      requires Valid() && used != [] && |b.mem| == blockSize && b.Valid()
      requires b.dataStart == used[|used| - 1].dataStart && b.dataLen == used[|used| - 1].dataLen + |bytes|
      requires used[|used| - 1].Valid() && b.Data() == used[|used| - 1].Data() + bytes
      modifies `used, `totalSize, `written
      ensures Valid() && used != [] && used[|used| - 1] == b && written == old(written) + bytes && |used| == |old(used)|
    {
      hide Flat, Block.Data, Placed, Holds;
      var last := |used| - 1;
      FlatGrow(used, b, bytes);
      PlacedInReplaced(used, b, cur, position);
      HoldsMore(used, used[last := b], written, evicted, totalSize, bytes);
      totalSize := totalSize + (b.dataLen - used[last].dataLen);
      used := used[last := b];
      written := written + bytes;
    }

    method AddBlock(bytes: seq<byte>, fresh_: Block) returns (n: nat)
      requires Valid() && bytes != [] && |fresh_.mem| == blockSize && fresh_.dataStart == 0 && fresh_.dataLen == 0
      requires used != [] ==> used[|used| - 1].dataLen == blockSize
      modifies `used, `totalSize, `written
      ensures Valid() && n == Min(|bytes|, blockSize) && n >= 1 && written == old(written) + bytes[..n]
      ensures |used| == |old(used)| + 1 && (n < |bytes| ==> used[|used| - 1].dataLen == blockSize)
    {
      n := Min(|bytes|, blockSize);
      ChainOn(fresh_.(mem := bytes[..n] + fresh_.mem[n..], dataLen := n), bytes[..n]);
    }

    /** A block filled with `bytes` becomes the last one. */
    method ChainOn(b: Block, ghost bytes: seq<byte>)
      requires Valid() && bytes != [] && |b.mem| == blockSize
      requires b.dataStart == 0 && b.dataLen == |bytes| <= blockSize && b.mem[..|bytes|] == bytes
      requires used != [] ==> used[|used| - 1].dataLen == blockSize
      modifies `used, `totalSize, `written
      ensures Valid() && used == old(used) + [b] && written == old(written) + bytes
    {
      hide Flat, Block.Data, Placed, Holds;
      FlatMore(used, b, bytes);
      PlacedInLonger(used, b, cur, position);
      HoldsMore(used, used + [b], written, evicted, totalSize, bytes);
      used := used + [b];
      totalSize := totalSize + b.dataLen;
      written := written + bytes;
    }

    /** Appends bytes: the tail block is filled first, then recycled or new blocks are chained on.
        `blocks` is how many new blocks memory allows.  The write is short only when the tail, every
        recycled block and every new one are full. */
    method Write(bytes: seq<byte>, blocks: nat) returns (n: nat)
      requires Valid()
      modifies this
      ensures Valid() && n <= |bytes| && written == old(written) + bytes[..n]
      ensures n == Min(|bytes|, old(Room()) + (|old(free)| + blocks) * blockSize)
      ensures Consumed() == old(Consumed())
      ensures |free| <= |old(free)| && (free != [] ==> |used| - |old(used)| == |old(free)| - |free|)
    {
      hide Flat, Positioned, Content, History, AllValid, BytesOf;
      n := 0;
      NothingTaken(bytes, written);
      ghost var room, taken := Room(), 0;
      if |bytes| < 1 {
        AtLeast(room, 0, |free| + blocks, blockSize);
        return;
      }
      if used != [] {
        n := FillTail(bytes);
      }
      var left := blocks;
      OneMore(0, blockSize);
      while n < |bytes|
        invariant Valid() && n <= |bytes| && written == old(written) + bytes[..n]
        invariant Consumed() == old(Consumed())
        invariant n < |bytes| && used != [] ==> used[|used| - 1].dataLen == blockSize
        invariant |free| + left + taken == |old(free)| + blocks && taken == |used| - |old(used)|
        invariant 0 <= left <= blocks && (free != [] ==> left == blocks)
        invariant n == Min(|bytes|, room + BytesOf(taken, blockSize))
        decreases |free| + left
      {
        var b;
        if free != [] {
          b := GetFreeItem();
        } else if left > 0 {
          b := AllocItem();
          left := left - 1;
        } else {
          break;
        }
        var added := AddBlock(bytes[n..], b);
        TakenMore(old(written), bytes, n, added);
        n := n + added;
        OneMore(taken, blockSize);
        taken := taken + 1;
      }
      AtLeast(room, taken, |old(free)| + blocks, blockSize);
    }

    /** The next stretch of the current block, and what it is in the stream. */
    method CopyOut(want: nat) returns (out: seq<byte>)
      requires Sound() && cur >= 0 && want >= 1
      modifies `used, `position
      ensures Sound() && cur == old(cur) && |used| == |old(used)| && cur < |used|
      ensures |out| <= want && position == old(position) + |out| && old(Consumed()) + |out| <= |written|
      ensures old(Consumed()) >= 0 && out == written[old(Consumed())..old(Consumed()) + |out|]
      ensures used[cur].dataStart <= used[cur].dataLen && (|out| == want || used[cur].dataStart == used[cur].dataLen)
    {
      hide Flat;
      var b := used[cur];
      var n := Min(want, b.dataLen - b.dataStart);
      out := b.mem[b.dataStart..b.dataStart + n];
      FlatRead(used, cur, b.dataStart, n);
      assert position + n <= |Flat(used)|;
      SliceOfRest(written, evicted, position, n);
      var b' := b.(dataStart := b.dataStart + n);
      FlatUpdate(used, cur, b');
      used := used[cur := b'];
      position := position + n;
    }

    /** The current block is exhausted and there is more: go on to the next one. */
    method NextBlock()
      requires Sound() && cur >= 0
      requires used[cur].dataStart == used[cur].dataLen && totalSize - position >= 1
      modifies `used, `cur
      ensures Sound() && |used| == |old(used)| && cur == old(cur) + 1 < |used|
    {
      hide Flat;
      NotLast(used, cur);
      FlatAround(used, cur);
      var b := used[cur].(dataStart := 0);
      FlatUpdate(used, cur, b);
      ghost var was := used;
      used := used[cur := b];
      FlatAround(used, cur);
      assert used[..cur + 1] == was[..cur] + [b];
      cur := cur + 1;
    }

    /** Recycles the first block, which reading has left a seek length and a block behind. */
    method Evict()
      requires Sound() && cur >= 1 && position >= seekLength + blockSize
      modifies `used, `cur, `free, `position, `totalSize, `evicted
      ensures Sound() && 0 <= cur == old(cur) - 1 < |used| && |used| == |old(used)| - 1
      ensures Consumed() == old(Consumed()) && position >= seekLength && position < old(position)
      ensures |free| == FreeAfter(|old(free)|, |old(used)| - |used|)
      ensures totalSize - position == old(totalSize - position)
    {
      hide Flat;
      var b := used[0];
      FlatAround(used, 0);
      FlatHead(used, cur);
      assert used[..cur][1..] == used[1..][..cur - 1];
      evicted := evicted + b.dataLen;
      assert Flat(used[1..]) == written[evicted..];
      used := used[1..];
      cur := cur - 1;
      position := position - b.dataLen;
      totalSize := totalSize - b.dataLen;
      PutItemToFree(b);
    }

    /** The first read starts at the first block. */
    method StartReading()
      requires Valid() && used != []
      modifies `cur, `position
      ensures Valid() && 0 <= cur < |used| && Consumed() == old(Consumed()) &&
        totalSize - position == old(totalSize - position)
    {
      hide Flat;
      if cur == -1 {
        cur := 0;
        position := 0;
        NothingFlat(used);
      }
    }

    /** Recycles blocks from the front as long as more than a seek length and a block of history is left. */
    method TrimHistory()
      requires Sound() && 0 <= cur < |used| && Min(Consumed(), seekLength) <= position
      modifies `used, `cur, `free, `position, `totalSize, `evicted
      ensures Valid() && Consumed() == old(Consumed()) && totalSize - position == old(totalSize - position)
      ensures |used| <= |old(used)|
      ensures |free| == FreeAfter(|old(free)|, |old(used)| - |used|)
    {
      hide Flat, AllValid, Sound;
      while position >= seekLength + blockSize
        invariant Sound() && 0 <= cur < |used|
        invariant Consumed() == old(Consumed()) && totalSize - position == old(totalSize - position)
        invariant Min(Consumed(), seekLength) <= position
        invariant |used| <= |old(used)| && |free| == FreeAfter(|old(free)|, |old(used)| - |used|)
        decreases |used|
      {
        if cur == 0 {
          FirstBlockPosition();
          break;
        }
        Evict();
      }
    }

    /** On to the next block, one fewer to come; the first one goes if it is far enough behind. */
    method Advance()
      requires Sound() && cur >= 0 && Min(Consumed(), seekLength) <= position
      requires used[cur].dataStart == used[cur].dataLen && totalSize - position >= 1
      modifies `used, `cur, `free, `position, `totalSize, `evicted
      ensures Sound() && 0 <= cur < |used| && |used| - cur < old(|used| - cur) && |used| <= |old(used)|
      ensures |free| == FreeAfter(|old(free)|, |old(used)| - |used|)
      ensures Consumed() == old(Consumed()) && Min(Consumed(), seekLength) <= position
      ensures totalSize - position == old(totalSize - position)
    {
      hide Flat, AllValid;
      NextBlock();
      if position >= seekLength + blockSize {
        Evict();
      }
    }

    /** The loop of `Read`: block after block, until it has enough or there is no more. */
    method ReadBlocks(size: int) returns (out: seq<byte>)
      requires Sound() && 0 <= cur < |used| && size >= 1 && Min(Consumed(), seekLength) <= position
      modifies `used, `cur, `free, `position, `totalSize, `evicted
      ensures Sound() && 0 <= cur < |used| && Min(Consumed(), seekLength) <= position
      ensures |out| <= size && (|out| == size || totalSize - position <= 0) && |used| <= |old(used)|
      ensures |free| == FreeAfter(|old(free)|, |old(used)| - |used|)
      ensures Consumed() == old(Consumed()) + |out| <= |written|
      ensures old(Consumed()) >= 0 && out == written[old(Consumed())..old(Consumed()) + |out|]
    {
      hide Flat, AllValid, Sound;
      PositionInRange();
      out := [];
      ghost var c := Consumed();
      while |out| < size && totalSize - position > 0
        invariant Sound() && 0 <= cur < |used|
        invariant c + |out| <= |written| && |out| <= size
        invariant out == written[c..c + |out|]
        invariant Consumed() == c + |out|
        invariant Min(Consumed(), seekLength) <= position
        invariant |used| <= |old(used)| && |free| == FreeAfter(|old(free)|, |old(used)| - |used|)
        decreases |used| - cur
      {
        var piece := CopyOut(size - |out|);
        Joined(written, c, |out|, |piece|);
        out := out + piece;
        if used[cur].dataStart < used[cur].dataLen || totalSize - position < 1 {
          break;
        }
        Advance();
      }
    }

    /** Reads up to `size` bytes: exactly the next unread ones, as many as there are. */
    method Read(size: int) returns (out: seq<byte>)
      requires Valid()
      modifies this
      ensures Valid() && written == old(written)
      ensures |out| == if size < 1 then 0 else Min(size, |written| - old(Consumed()))
      ensures 0 <= old(Consumed()) <= old(Consumed()) + |out| <= |written|
      ensures out == written[old(Consumed())..old(Consumed()) + |out|]
      ensures Consumed() == old(Consumed()) + |out|
      ensures |used| <= |old(used)| && |free| == FreeAfter(|old(free)|, |old(used)| - |used|)
    {
      hide Flat, AllValid, Sound;
      PositionInRange();
      if size < 1 || totalSize - position < 1 {
        return [];
      }
      StartReading();
      out := ReadBlocks(size);
      PositionInRange();
      TrimHistory();
    }

    lemma PositionInRange()
      requires Sound()
      ensures 0 <= position <= totalSize && totalSize - position == |written| - Consumed()
      ensures totalSize >= 1 ==> used != []
    {
      if cur >= 0 {
        FlatAround(used, cur);
      }
    }

    lemma FirstBlockPosition()
      requires Sound() && cur == 0
      ensures position <= blockSize
    {
      NothingFlat(used);
    }
  }

  /** An exhausted block with bytes after it is not the last one. */
  lemma NotLast(bs: seq<Block>, c: nat)
    requires AllValid(bs) && c < |bs|
    requires AllValid(bs[..c]) && |Flat(bs[..c])| + bs[c].dataLen < |Flat(bs)|
    ensures c + 1 < |bs|
  {
    hide Flat;
    FlatAround(bs, c);
    NothingAfter(bs, c);
  }

  lemma NothingAfter(bs: seq<Block>, c: nat)
    requires AllValid(bs) && c < |bs|
    ensures c + 1 == |bs| ==> AllValid(bs[c + 1..]) && Flat(bs[c + 1..]) == []
  {
  }

  lemma FilledMore(b: Block, bytes: seq<byte>)
    requires b.Valid() && b.dataLen + |bytes| <= |b.mem|
    ensures var filled := b.(mem := b.mem[..b.dataLen] + bytes + b.mem[b.dataLen + |bytes|..],
              dataLen := b.dataLen + |bytes|);
            filled.Valid() && |filled.mem| == |b.mem| && filled.Data() == b.Data() + bytes
  {
  }

  lemma SuffixGrows(w: seq<byte>, from: nat, more: seq<byte>)
    requires from <= |w|
    ensures (w + more)[from..] == w[from..] + more
  {
  }

  /** What `k` blocks hold. */
  function BytesOf(k: nat, blockSize: nat): nat {
    k * blockSize
  }

  lemma OneMore(k: nat, m: nat)
    ensures BytesOf(k + 1, m) == BytesOf(k, m) + m && BytesOf(0, m) == 0
  {
  }

  lemma AtLeast(room: nat, k: nat, total: nat, m: nat)
    requires k <= total
    ensures room + BytesOf(k, m) <= room + BytesOf(total, m) == room + total * m
  {
    assert total * m == k * m + (total - k) * m;
  }

  lemma SliceOfRest(w: seq<byte>, from: nat, at: nat, n: nat)
    requires from + at + n <= |w|
    ensures w[from..][at..at + n] == w[from + at..from + at + n]
  {
  }

  lemma NothingTaken(bytes: seq<byte>, w: seq<byte>)
    ensures w + bytes[..0] == w
  {
  }

  lemma TakenMore(w: seq<byte>, bytes: seq<byte>, n: nat, more: nat)
    requires n + more <= |bytes|
    ensures (w + bytes[..n]) + bytes[n..][..more] == w + bytes[..n + more]
  {
  }

  lemma Joined(w: seq<byte>, from: int, a: nat, b: nat)
    requires 0 <= from && from + a + b <= |w|
    ensures w[from..from + a] + w[from + a..from + a + b] == w[from..from + a + b]
  {
  }

  /** Bytes of one block, found in the chain. */
  lemma FlatRead(bs: seq<Block>, c: nat, start: nat, n: nat)
    requires AllValid(bs) && c < |bs| && start + n <= bs[c].dataLen
    ensures AllValid(bs[..c])
    ensures var p := |Flat(bs[..c])| + start;
            p + n <= |Flat(bs)| && Flat(bs)[p..p + n] == bs[c].mem[start..start + n]
  {
    hide Flat;
    FlatAround(bs, c);
    assert bs[c].Data()[start..start + n] == bs[c].mem[start..start + n];
  }

  lemma NothingFlat(bs: seq<Block>)
    requires AllValid(bs)
    ensures Flat(bs[..0]) == []
  {
  }

  lemma FlatHead(bs: seq<Block>, c: nat)
    requires AllValid(bs) && 1 <= c < |bs|
    ensures AllValid(bs[..c]) && AllValid(bs[1..]) && AllValid(bs[..c][1..])
    ensures Flat(bs[..c]) == bs[0].Data() + Flat(bs[..c][1..])
    ensures Flat(bs) == bs[0].Data() + Flat(bs[1..])
  {
  }
}
