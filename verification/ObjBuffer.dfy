/** The growable byte queue under every connection. */
module ObjBuffers {
  import opened Bytes

  class ObjBuffer {
    var data: array<byte>
    var writePos: nat
    var readPos: nat
    var capacity: nat
    const safeTail: nat

    ghost predicate Valid()
      reads this
    {
      readPos <= writePos <= capacity <= data.Length
    }

    /** The bytes written and not yet read. */
    ghost function Unread(): (s: seq<byte>)
      reads this, data
      requires Valid()
      ensures |s| == writePos - readPos
    {
      data[readPos..writePos]
    }

    constructor (tail: nat)
      ensures Valid() && Unread() == [] && fresh(data) && safeTail == tail && writePos == 0
    {
      data := new byte[0];
      writePos, readPos, capacity := 0, 0, 0;
      safeTail := tail;
    }

    method DataLength() returns (n: nat)
      requires Valid()
      ensures n == |Unread()|
    {
      n := writePos - readPos;
    }

    /** Grows the storage; every byte up to `writePos` survives the move. */
    method Alloc(size: nat, align: nat)
      requires Valid() && writePos <= size
      requires 1 <= align && size + safeTail + align < 0x8000_0000
      modifies this
      ensures Valid() && fresh(data)
      ensures capacity == RoundUp(size + safeTail, align) - safeTail >= size && data.Length == capacity + safeTail
      ensures writePos == old(writePos) && readPos == old(readPos)
      ensures data[..writePos] == old(data[..writePos])
    {
      var rounded := RoundUp(size + safeTail, align);
      var grown := new byte[rounded];
      forall i | 0 <= i < writePos {
        grown[i] := data[i];
      }
      data := grown;
      capacity := rounded - safeTail;
    }

    /** Appends `bytes`, growing when they do not fit. */
    method Write(bytes: seq<byte>, align: nat)
      requires Valid()
      requires 1 <= align && writePos + |bytes| + safeTail + align < 0x8000_0000
      modifies this, data
      ensures Valid() && (data == old(data) || fresh(data))
      ensures Unread() == old(Unread()) + bytes
      ensures writePos == old(writePos) + |bytes| && readPos == old(readPos)
      ensures data[..writePos] == old(data[..writePos]) + bytes
      ensures writePos <= old(capacity) ==> data == old(data) && capacity == old(capacity)
    {
      var writePos1 := writePos + |bytes|;
      if writePos1 > capacity {
        Alloc(writePos1, align);
      }
      ghost var before := data[..writePos];
      forall i | 0 <= i < |bytes| {
        data[writePos + i] := bytes[i];
      }
      assert data[..writePos1] == before + bytes;
      assert before[readPos..] == old(Unread());
      assert data[readPos..writePos1] == data[..writePos1][readPos..];
      writePos := writePos1;
    }

    /** Hands out the next `n` unread bytes, or nothing. */
    method Read(n: nat) returns (ok: bool, bytes: seq<byte>)
      requires Valid()
      modifies this`readPos
      ensures Valid()
      ensures ok == (n <= |old(Unread())|)
      ensures ok ==> bytes + Unread() == old(Unread()) && |bytes| == n
      ensures !ok ==> bytes == [] && Unread() == old(Unread())
    {
      if writePos < readPos + n {
        return false, [];
      }
      bytes := data[readPos..readPos + n];
      readPos := readPos + n;
      assert bytes + Unread() == old(Unread());
      ok := true;
    }

    /** Looks at the next `n` unread bytes. */
    method Peek(n: nat) returns (bytes: seq<byte>)
      requires Valid() && n <= |Unread()|
      ensures bytes == Unread()[..n]
    {
      bytes := data[readPos..readPos + n];
    }

    method Skip(n: nat)
      requires Valid() && n <= |Unread()|
      modifies this`readPos
      ensures Valid() && Unread() == old(Unread())[n..]
    {
      readPos := readPos + n;
      assert Unread() == old(Unread())[n..];
    }

    /** Moves the unread bytes after the first `length` of them to the front. */
    method Pack(length: nat)
      requires Valid()
      modifies this, data
      ensures Valid() && data == old(data) && capacity == old(capacity)
      ensures readPos == 0 && writePos <= old(writePos)
      ensures Unread() == if length <= |old(Unread())| then old(Unread())[length..] else []
    {
      var skip := readPos + length;
      if writePos > skip {
        var moved := data[skip..writePos];
        writePos := writePos - skip;
        if skip != 0 {
          forall i | 0 <= i < |moved| {
            data[i] := moved[i];
          }
        }
        assert data[..writePos] == moved;
      } else {
        writePos := 0;
      }
      readPos := 0;
    }

    /** Packs once the read position has passed a third of the alignment; no byte is lost. */
    method PackIfFar(align: nat)
      requires Valid()
      modifies this, data
      ensures Valid() && data == old(data) && capacity == old(capacity)
      ensures Unread() == old(Unread()) && writePos <= old(writePos)
      ensures readPos == if old(readPos) > align / 3 then 0 else old(readPos)
    {
      if readPos > align / 3 {
        Pack(0);
      }
    }

    /** Puts a NUL after the written bytes without counting it. */
    method Terminate(align: nat)
      requires Valid()
      requires 1 <= align && writePos + 1 + safeTail + align < 0x8000_0000
      modifies this, data
      ensures Valid() && (data == old(data) || fresh(data))
      ensures Unread() == old(Unread()) && writePos == old(writePos) && readPos == old(readPos)
      ensures writePos < data.Length && data[writePos] == 0
    {
      if data.Length > 0 && writePos < capacity {
        data[writePos] := 0;
      } else {
        ghost var before, kept := data[..writePos], Unread();
        Write([0], align);
        OneLess(data[..], before, readPos, writePos);
        writePos := writePos - 1;
        assert Unread() == data[..][readPos..writePos] && kept == before[readPos..];
      }
    }

    method Drop()
      modifies this
      requires Valid()
      ensures Valid() && Unread() == [] && writePos == 0
      ensures data == old(data) && capacity == old(capacity)
    {
      writePos, readPos := 0, 0;
    }
  }

  lemma OneLess(all: seq<byte>, before: seq<byte>, from: nat, to: nat)
    requires from < to <= |all| && all[..to] == before + [0]
    ensures all[to - 1] == 0 && all[from..to - 1] == before[from..]
  {
    assert all[..to][to - 1] == 0 && all[..to][..to - 1] == before;
    assert all[..to - 1] == before && all[from..to - 1] == all[..to - 1][from..];
  }
}
