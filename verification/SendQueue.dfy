/** The per-connection send queue: buffers wait in order, the head may be partly written, and a
    cached counter says how many bytes are still to go. */
module SendQueues {
  import opened Bytes

  /** A buffer handed to the connection, and how much of it the socket has taken. */
  datatype IoBuffer = IoBuffer(data: seq<byte>, lenTrans: nat)
  {
    ghost predicate Valid() {
      lenTrans <= |data|
    }

    ghost function Unsent(): seq<byte>
      requires Valid()
    {
      data[lenTrans..]
    }
  }

  /** One call of the socket's send: it takes some bytes, would block, or fails. */
  datatype SendResult = Took(n: nat) | WouldBlock | Failed

  /** What the application does when told that a buffer is written: send more, perhaps close. */
  datatype Reaction = Reaction(sends: seq<seq<byte>>, close: bool)

  /** Between two looks at the socket's answers, the first have been used up. */
  ghost predicate Used<T>(before: seq<T>, after: seq<T>) {
    |after| <= |before| && after == before[|before| - |after|..]
  }

  /** The last answer used up is this one. */
  ghost predicate LastWas<T>(before: seq<T>, after: seq<T>, x: T) {
    Used(before, after) && |after| < |before| && before[|before| - |after| - 1] == x
  }

  /** The socket would block: it said so last, or has nothing more to say. */
  ghost predicate Blocked(before: seq<SendResult>, after: seq<SendResult>) {
    Used(before, after) && (after == [] || LastWas(before, after, WouldBlock))
  }

  /** One of the answers used up is this one. */
  ghost predicate Among<T>(before: seq<T>, after: seq<T>, x: T) {
    Used(before, after) && exists i :: 0 <= i < |before| - |after| && before[i] == x
  }

  ghost predicate AnyCloses(before: seq<Reaction>, after: seq<Reaction>) {
    Used(before, after) && exists i :: 0 <= i < |before| - |after| && before[i].close
  }

  /** Looks compose. */
  lemma UsedMore(a: seq<SendResult>, b: seq<SendResult>, c: seq<SendResult>)
    requires Used(a, b) && Used(b, c)
    ensures Used(a, c)
    ensures LastWas(b, c, Failed) ==> LastWas(a, c, Failed)
    ensures LastWas(b, c, WouldBlock) ==> LastWas(a, c, WouldBlock)
    ensures Blocked(b, c) ==> Blocked(a, c)
    ensures LastWas(a, c, Failed) ==> Among(a, c, Failed)
    ensures Among(b, c, Failed) || Among(a, b, Failed) ==> Among(a, c, Failed)
  {
    var k := |a| - |b|;
    assert forall i :: 0 <= i < |b| ==> b[i] == a[k + i];
    if LastWas(a, c, Failed) {
      assert a[|a| - |c| - 1] == Failed;
    }
    if Among(b, c, Failed) {
      var i :| 0 <= i < |b| - |c| && b[i] == Failed;
      assert a[k + i] == Failed;
    }
  }

  lemma ReactedMore(a: seq<Reaction>, b: seq<Reaction>, c: seq<Reaction>)
    requires Used(a, b) && Used(b, c)
    ensures Used(a, c) && (AnyCloses(b, c) || AnyCloses(a, b) ==> AnyCloses(a, c))
  {
    var k := |a| - |b|;
    assert forall i :: 0 <= i < |b| ==> b[i] == a[k + i];
    if AnyCloses(b, c) {
      var i :| 0 <= i < |b| - |c| && b[i].close;
      assert a[k + i].close;
    }
  }

  ghost predicate AllValid(q: seq<IoBuffer>) {
    forall i :: 0 <= i < |q| ==> q[i].Valid()
  }

  /** The unsent bytes of a queue, in order. */
  ghost function Pending(q: seq<IoBuffer>): seq<byte>
    requires AllValid(q)
  {
    if q == [] then [] else q[0].Unsent() + Pending(q[1..])
  }

  /** The buffers of a queue, whole. */
  ghost function Datas(q: seq<IoBuffer>): (ds: seq<seq<byte>>)
    ensures |ds| == |q|
  {
    if q == [] then [] else [q[0].data] + Datas(q[1..])
  }

  lemma {:induction false} DatasAppend(q: seq<IoBuffer>, b: IoBuffer)
    ensures Datas(q + [b]) == Datas(q) + [b.data]
  {
    if q == [] {
      assert [b][1..] == [];
    } else {
      assert (q + [b])[1..] == q[1..] + [b];
      DatasAppend(q[1..], b);
    }
  }

  lemma {:induction false} PendingAppend(q: seq<IoBuffer>, b: IoBuffer)
    requires AllValid(q) && b.Valid()
    ensures AllValid(q + [b]) && Pending(q + [b]) == Pending(q) + b.Unsent()
  {
    if q == [] {
      assert [b][1..] == [];
    } else {
      assert (q + [b])[1..] == q[1..] + [b];
      PendingAppend(q[1..], b);
    }
  }

  class Connection {
    const maxSends: int
    const maxWrittingBytes: int
    var closing: bool
    var socketOpen: bool
    var sendBufs: seq<IoBuffer>
    var writtingBytes: int

    /** The socket: what it will answer, whether the last refusal was a would-block, what it took. */
    var answers: seq<SendResult>
    var wouldBlock: bool
    var handed: seq<byte>
    /** The application: how it will react to completed buffers. */
    var reactions: seq<Reaction>
    /** The buffers the application has been told are written, in order. */
    var completed: seq<seq<byte>>

    ghost var buffers: seq<seq<byte>>
    ghost var accepted: seq<byte>
    ghost var largest: nat

    ghost predicate IsOpen()
      reads this
    {
      !closing && socketOpen
    }

    /** While the connection is open nothing is lost, repeated or reordered, and the counter is exact. */
    ghost predicate Conserves()
      reads this
    {
      && AllValid(sendBufs)
      && handed + Pending(sendBufs) == accepted
      && writtingBytes == |Pending(sendBufs)|
      && buffers == completed + Datas(sendBufs)
    }

    /** The counter never gets past the limit by more than one buffer. */
    ghost predicate Bounded()
      reads this
    {
      maxWrittingBytes != -1 ==> writtingBytes == 0 || writtingBytes < maxWrittingBytes + largest
    }

    /** What the socket has taken is always the front of what was accepted, also after an error. */
    ghost predicate Valid()
      reads this
    {
      (IsOpen() ==> Conserves() && wouldBlock) && Bounded() && handed <= accepted && completed <= buffers
    }

    constructor (sends: int, bytes: int, socket: seq<SendResult>, app: seq<Reaction>)
      ensures Valid() && IsOpen() && accepted == [] && handed == [] && sendBufs == [] && completed == []
    {
      maxSends, maxWrittingBytes := sends, bytes;
      closing, socketOpen, sendBufs, writtingBytes := false, true, [], 0;
      answers, wouldBlock, handed, reactions := socket, true, [], app;
      accepted, largest, completed, buffers := [], 0, [], [];
    }

    /** One call of send on a non-empty stretch of bytes. */
    method SocketSend(bytes: seq<byte>) returns (n: int)
      requires bytes != []
      modifies `answers, `wouldBlock, `handed
      ensures n <= |bytes| && handed == old(handed) + bytes[..if n > 0 then n else 0]
      ensures answers == if old(answers) == [] then [] else old(answers)[1..]
      ensures if old(answers) == [] || old(answers)[0] == WouldBlock then n == -1 && wouldBlock
              else if old(answers)[0] == Failed then n == -1 && !wouldBlock
              else n >= 1 && wouldBlock == old(wouldBlock)
    {
      if answers == [] {
        wouldBlock := true;
        assert bytes[..0] == [];
        return -1;
      }
      var a := answers[0];
      answers := answers[1..];
      match a {
        case Took(k) =>
          n := if k == 0 then 1 else Min(k, |bytes|);
          handed := handed + bytes[..n];
        case WouldBlock =>
          wouldBlock := true;
          n := -1;
        case Failed =>
          wouldBlock := false;
          n := -1;
      }
    }

    /** Sends until everything is taken or the socket refuses; an error is a refusal other than would-block. */
    method LoopSend(bytes: seq<byte>) returns (n: int, bError: bool)
      modifies `answers, `wouldBlock, `handed
      ensures n <= |bytes| && handed == old(handed) + bytes[..if n > 0 then n else 0]
      ensures Used(old(answers), answers) && (n == |bytes| ==> !bError && wouldBlock == old(wouldBlock))
      ensures n < |bytes| ==> bError == !wouldBlock
      ensures n < |bytes| ==> if bError then LastWas(old(answers), answers, Failed) else Blocked(old(answers), answers)
      ensures bytes == [] ==> n == 0 && answers == old(answers)
    {
      hide Used, LastWas, Blocked, Among;
      NothingUsed(answers);
      var i := 0;
      bError := false;
      while |bytes| - i > 0
        invariant 0 <= i <= |bytes| && !bError && wouldBlock == old(wouldBlock) && Used(old(answers), answers)
        invariant bytes == [] ==> answers == old(answers)
        invariant handed == old(handed) + bytes[..i]
      {
        ghost var before := answers;
        var took := SocketSend(bytes[i..]);
        OneUsed(before, answers);
        UsedMore(old(answers), before, answers);
        if took <= 0 {
          bError := !wouldBlock;
          n := if i == 0 then took else i;
          assert bytes[..0] == [] && bytes[i..][..0] == [];
          return;
        }
        assert bytes[..i + took] == bytes[..i] + bytes[i..][..took];
        i := i + took;
      }
      n := i;
    }

    /** Takes what the socket took of the head buffer off the counter. */
    method Account(n: nat, ghost rest: seq<byte>)
      requires writtingBytes == |rest| && n <= |rest|
      modifies `writtingBytes
      ensures writtingBytes == old(writtingBytes) - n
    {
      writtingBytes := writtingBytes - n;
      if writtingBytes < 0 {
        assert false;
      }
    }

    /** Writes a buffer that is alone in the queue, as far as the socket goes. */
    method WriteAlone() returns (bError: bool)
      requires |sendBufs| == 1 && sendBufs[0].lenTrans == 0 && Conserves() && Bounded() && wouldBlock
      modifies `answers, `wouldBlock, `handed, `writtingBytes, `sendBufs
      ensures Conserves() && Bounded() && |sendBufs| == 1 && old(handed) <= handed && Used(old(answers), answers)
      ensures bError == !wouldBlock && (bError ==> LastWas(old(answers), answers, Failed))
      ensures !bError ==> handed == old(handed) + old(sendBufs)[0].data || Blocked(old(answers), answers)
    {
      var b := sendBufs[0];
      assert sendBufs[1..] == [] && b.data[0..] == b.data;
      assert Pending(sendBufs) == b.data;
      var n;
      n, bError := LoopSend(b.data);
      if n > 0 {
        Account(n, b.data);
        sendBufs := [b.(lenTrans := n)];
        assert sendBufs[1..] == [];
        assert b.data == b.data[..n] + b.data[n..];
      } else {
        assert b.data[..0] == [];
        if !wouldBlock {
          bError := true;
        }
      }
    }

    /** The connection is open and within both of its limits. */
    ghost predicate Takes()
      reads this
    {
      && IsOpen() && |sendBufs| <= maxSends
      && (maxWrittingBytes == -1 || writtingBytes < maxWrittingBytes)
    }

    /** Queues a buffer, and writes it at once when nothing else waits. */
    method Send(data: seq<byte>) returns (ok: bool)
      requires Valid()
      modifies `closing, `sendBufs, `writtingBytes, `answers, `wouldBlock, `handed, `accepted, `largest, `buffers
      ensures Valid() && old(handed) <= handed && largest >= old(largest) && Used(old(answers), answers)
      ensures !old(IsOpen()) ==> !ok && !IsOpen()
      ensures !old(Takes()) ==> !ok && sendBufs == old(sendBufs) && accepted == old(accepted) && handed == old(handed)
      ensures buffers == if old(Takes()) then old(buffers) + [data] else old(buffers)
      ensures old(IsOpen()) && !old(Takes()) ==> (IsOpen() <==> |sendBufs| <= maxSends) && answers == old(answers)
      ensures old(Takes()) ==> accepted == old(accepted) + data && ok == IsOpen()
      ensures old(Takes()) && old(sendBufs) != [] ==>
                && ok && sendBufs == old(sendBufs) + [IoBuffer(data, 0)]
                && handed == old(handed) && answers == old(answers)
      ensures old(Takes()) && old(sendBufs) == [] && !ok ==> LastWas(old(answers), answers, Failed)
      ensures old(Takes()) && old(sendBufs) == [] && ok ==>
                |sendBufs| == 1 && (handed == accepted || Blocked(old(answers), answers))
    {
      hide Pending, AllValid, Datas, Blocked, LastWas, Used;
      NothingPending();
      NothingUsed(answers);
      if closing || !socketOpen {
        return false;
      }
      if |sendBufs| > maxSends {
        closing := true;
        return false;
      }
      if maxWrittingBytes != -1 && writtingBytes >= maxWrittingBytes {
        return false;
      }
      var b := IoBuffer(data, 0);
      assert b.Unsent() == data;
      assert handed + (Pending(sendBufs) + data) == (handed + Pending(sendBufs)) + data;
      PendingAppend(sendBufs, b);
      writtingBytes := writtingBytes + |data|;
      DatasAppend(sendBufs, b);
      assert completed + (Datas(sendBufs) + [data]) == (completed + Datas(sendBufs)) + [data];
      accepted, buffers := accepted + data, buffers + [data];
      if |data| > largest {
        largest := |data|;
      }
      var bEmpty := sendBufs == [];
      sendBufs := sendBufs + [b];
      if bEmpty {
        var bError := WriteAlone();
        if bError {
          closing := true;
          return false;
        }
      }
      ok := true;
    }

    /** The application learns that a buffer is written, and may send more from inside the callback. */
    method OnWriteCompleted(b: IoBuffer)
      requires ConservesWith(b) && b.lenTrans == |b.data| && Bounded() && IsOpen() && wouldBlock
      modifies `closing, `sendBufs, `writtingBytes, `answers, `wouldBlock, `handed, `accepted, `largest, `reactions,
        `completed, `buffers
      ensures completed == old(completed) + [b.data]
      ensures Valid() && old(handed) <= handed && largest >= old(largest)
      ensures |reactions| < |old(reactions)| || (reactions == old(reactions) == [] && sendBufs == old(sendBufs))
      ensures Used(old(answers), answers) && Used(old(reactions), reactions)
      ensures !IsOpen() ==>
                || Among(old(answers), answers, Failed) || AnyCloses(old(reactions), reactions) || |sendBufs| > maxSends
    {
      hide Takes, Among, LastWas, Blocked, AnyCloses, Pending, AllValid, Datas;
      NothingUsed(answers);
      NothingUnsent(b, sendBufs);
      assert (completed + [b.data]) + Datas(sendBufs) == completed + ([b.data] + Datas(sendBufs));
      completed := completed + [b.data];
      if reactions == [] {
        return;
      }
      var r := reactions[0];
      reactions := reactions[1..];
      for i := 0 to |r.sends|
        invariant Valid() && old(handed) <= handed && largest >= old(largest)
        invariant reactions == old(reactions)[1..] && Used(old(answers), answers)
        invariant completed == old(completed) + [b.data]
        invariant !IsOpen() ==> Among(old(answers), answers, Failed) || |sendBufs| > maxSends
      {
        ghost var before := answers;
        var ok := Send(r.sends[i]);
        UsedMore(old(answers), before, answers);
      }
      if r.close {
        FirstCloses(old(reactions), reactions);
      }
      if r.close {
        closing := true;
      }
    }

    /** The invariant with one buffer taken out of the queue to be written. */
    ghost predicate ConservesWith(b: IoBuffer)
      reads this
    {
      && AllValid(sendBufs) && b.Valid()
      && handed + (b.Unsent() + Pending(sendBufs)) == accepted
      && writtingBytes == |b.Unsent() + Pending(sendBufs)|
      && buffers == completed + ([b.data] + Datas(sendBufs))
    }

    method TakeHead() returns (b: IoBuffer)
      requires Conserves() && Bounded() && sendBufs != []
      modifies `sendBufs
      ensures ConservesWith(b) && [b] + sendBufs == old(sendBufs) && b.lenTrans <= |b.data| && Bounded()
    {
      b := sendBufs[0];
      sendBufs := sendBufs[1..];
    }

    method PutBack(b: IoBuffer)
      requires ConservesWith(b) && Bounded()
      modifies `sendBufs
      ensures Conserves() && Bounded() && sendBufs == [b] + old(sendBufs)
    {
      ghost var rest := sendBufs;
      sendBufs := [b] + sendBufs;
      assert sendBufs[1..] == rest;
    }

    /** Writes what the socket takes of a buffer that has bytes left. */
    method WriteSome(b: IoBuffer) returns (w: IoBuffer, n: int, bError: bool)
      requires ConservesWith(b) && Bounded() && b.lenTrans < |b.data| && wouldBlock
      modifies `answers, `wouldBlock, `handed, `writtingBytes
      ensures old(handed) <= handed && !bError ==> ConservesWith(w) && Bounded() && w.data == b.data
      ensures !bError ==> |handed| == |old(handed)| + if n > 0 then n else 0
      ensures (!bError && n <= 0 ==> w == b) && w.lenTrans <= |w.data|
      ensures writtingBytes <= old(writtingBytes) && (writtingBytes >= 0 || bError) && old(handed) <= handed
      ensures Bounded() && handed <= accepted && Used(old(answers), answers)
      ensures if bError then LastWas(old(answers), answers, Failed) else wouldBlock
      ensures !bError && w.lenTrans < |w.data| ==> Blocked(old(answers), answers)
    {
      hide Pending, AllValid, Datas, Used, LastWas, Blocked;
      w := b;
      ghost var before, u, rest := handed, b.Unsent(), Pending(sendBufs);
      assert accepted == before + (u + rest) && writtingBytes == |u + rest|;
      n, bError := LoopSend(b.data[b.lenTrans..]);
      if n <= 0 || bError {
        Regroup(before, u, rest, if n > 0 then n else 0);
        assert handed <= accepted;
        if !bError {
          assert u[..0] == [] && handed == before;
        }
        return;
      }
      Regroup(before, u, rest, n);
      Account(n, u + rest);
      w := b.(lenTrans := b.lenTrans + n);
      assert w.Unsent() == u[n..];
    }

    /** The first buffer has bytes to go. */
    ghost predicate HeadHasMore()
      reads this
    {
      sendBufs != [] && sendBufs[0].lenTrans < |sendBufs[0].data|
    }

    lemma AllIsWritten()
      requires Conserves() && sendBufs == []
      ensures handed == accepted && completed == buffers
    {
      NothingPending();
    }

    /** The socket is writable: write the queue down, buffer by buffer, until it would block. */
    method HandleEventWrite() returns (ret: int)
      requires Valid() && IsOpen()
      modifies this
      ensures Valid() && old(handed) <= handed && largest >= old(largest)
      ensures ret in {-1, 0, 1} && (ret == -1 ==> !socketOpen)
      ensures ret == 1 ==> |old(handed)| < |handed|
      ensures IsOpen() && sendBufs != [] ==> ret == 0
      ensures IsOpen() && sendBufs == [] && old(HeadHasMore()) ==> ret == 1
      ensures !IsOpen() ==>
                || Among(old(answers), answers, Failed) || AnyCloses(old(reactions), reactions) || |sendBufs| > maxSends
      ensures IsOpen() && sendBufs != [] ==> Blocked(old(answers), answers)
      ensures IsOpen() && sendBufs == [] ==> handed == accepted && completed == buffers
      ensures old(completed) <= completed
    {
      hide ConservesWith, Conserves, Used, LastWas, Blocked, Among, AnyCloses;
      NothingUsed(answers);
      NothingReacted(reactions);
      ret := 0;
      var active := false;
      if sendBufs == [] {
        AllIsWritten();
        return;
      }
      while true
        invariant Valid() && IsOpen() && ret >= 0 && (active ==> |old(handed)| < |handed|)
        invariant !active ==> ret == 0
        invariant active || sendBufs == old(sendBufs) || !old(HeadHasMore())
        invariant old(handed) <= handed && largest >= old(largest)
        invariant Used(old(answers), answers) && Used(old(reactions), reactions) && old(completed) <= completed
        decreases |reactions|, |sendBufs|
      {
        if sendBufs == [] {
          AllIsWritten();
          ret := if active then 1 else ret;
          return;
        }
        var b := TakeHead();
        if |b.data| - b.lenTrans != 0 {
          var n, bError;
          ghost var before := answers;
          b, n, bError := WriteSome(b);
          UsedMore(old(answers), before, answers);
          if bError {
            socketOpen := false;
            return -1;
          }
          if n > 0 {
            ret, active := n, true;
          }
          if |b.data| - b.lenTrans != 0 {
            PutBack(b);
            return 0;
          }
        }
        ghost var answered, reacted := answers, reactions;
        OnWriteCompleted(b);
        UsedMore(old(answers), answered, answers);
        ReactedMore(old(reactions), reacted, reactions);
        if closing || !socketOpen {
          ret := if active then 1 else ret;
          return;
        }
      }
    }
  }

  /** Bytes move from the front of what is unsent to the end of what is handed over. */
  lemma Regroup(handed: seq<byte>, u: seq<byte>, rest: seq<byte>, n: nat)
    requires n <= |u|
    ensures (handed + u[..n]) + (u[n..] + rest) == handed + (u + rest)
    ensures n == 0 ==> u[n..] == u
    ensures handed + u[..n] <= handed + (u + rest)
    ensures |u[n..] + rest| == |u + rest| - n
  {
  }

  lemma OneUsed(a: seq<SendResult>, b: seq<SendResult>)
    requires b == if a == [] then [] else a[1..]
    ensures Used(a, b) && (a == [] ==> Blocked(a, b)) && (a != [] ==> LastWas(a, b, a[0]))
    ensures a != [] && a[0] == WouldBlock ==> Blocked(a, b)
  {
  }

  lemma NothingUsed(a: seq<SendResult>)
    ensures Used(a, a) && (a == [] ==> Blocked(a, a))
  {
  }

  lemma NothingReacted(a: seq<Reaction>)
    ensures Used(a, a)
  {
  }

  lemma FirstCloses(before: seq<Reaction>, after: seq<Reaction>)
    requires before != [] && after == before[1..] && before[0].close
    ensures AnyCloses(before, after)
  {
    assert before[0].close;
  }

  lemma NothingPending()
    ensures AllValid([]) && Pending([]) == [] && Datas([]) == []
  {
  }

  lemma NothingUnsent(b: IoBuffer, q: seq<IoBuffer>)
    requires AllValid(q) && b.Valid() && |b.data| - b.lenTrans == 0
    ensures b.Unsent() + Pending(q) == Pending(q)
  {
    assert b.Unsent() == [];
  }
}
