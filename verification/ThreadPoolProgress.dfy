/** What each operation on the pool comes to: run without interruption, exactly; and between the steps of any other
    threads, that a task does reach a waiting thread and that thread does leave with it. */
module ThreadPoolProgress {
  import opened ThreadPool

  // ---------------------------------------------------------------- one thread at a time

  /** One move of thread `t`. */
  function Own(p: Pool, t: nat): (q: Pool)
    requires t in p.threads
    ensures t in q.threads
  {
    ThreadsStay(p, Move(t, Proceed), t);
    Do(p, Move(t, Proceed))
  }

  /** `n` of them, one after the other. */
  function Go(p: Pool, t: nat, n: nat): (q: Pool)
    requires t in p.threads
    ensures t in q.threads
    decreases n
  {
    if n == 0 then p else Go(Own(p, t), t, n - 1)
  }

  lemma {:induction false} GoOn(p: Pool, t: nat, m: nat, n: nat)
    requires t in p.threads
    ensures Go(p, t, m + n) == Go(Go(p, t, m), t, n)
    decreases m
  {
    hide Own;
    if m > 0 {
      GoOn(Own(p, t), t, m - 1, n);
    }
  }

  /** Between `p` and `q` the other threads have not moved, and the blocks outside `written` keep what a thread can
      see of them; the wait times only say how long a spin sleeps. */
  ghost predicate Leaves(p: Pool, q: Pool, t: nat, written: set<nat>)
    requires t in q.threads
  {
    && q.threads == p.threads[t := q.threads[t]]
    && (forall b :: b !in written ==> At(q, b).status == At(p, b).status && At(q, b).param == At(p, b).param)
  }

  lemma LeavesOn(p: Pool, r: Pool, q: Pool, t: nat, written: set<nat>)
    requires t in r.threads && t in q.threads && Leaves(p, r, t, written) && Leaves(r, q, t, written)
    ensures Leaves(p, q, t, written)
  {
    hide At;
  }

  /** A task with a free lock and a waiting thread: the last one parked gets it. */
  lemma RunTaskPops(p: Pool, t: nat)
    requires Inv(p) && t in p.threads && p.threads[t].Runner? && p.threads[t].rpc == RCheck && p.lock == Held(t)
    requires p.top >= 0
    ensures var q, b := Go(p, t, 7), p.stack[p.top];
            && q.threads[t] == p.threads[t].(rpc := RHanded, block := b)
            && q.lock == Unlocked && q.top == p.top - 1 && q.stack == p.stack
            && At(q, b) == Block(Running, 1, p.threads[t].task)
            && b in q.fate && q.fate[b] == ByRunner(t) && Leaves(p, q, t, {b})
  {
    TopInStack(p);
    hide Inv, Own, Go, Leaves, At;
    PopsAlone(p, t);
    var r := Go(p, t, 4);
    FillsAlone(r, t);
    GoOn(p, t, 4, 3);
    LeavesOn(p, r, Go(r, t, 3), t, {p.stack[p.top]});
  }

  lemma TopInStack(p: Pool)
    requires Inv(p)
    ensures -1 <= p.top < |p.stack|
  {
  }

  /** Up to the release of the lock. */
  lemma PopsAlone(p: Pool, t: nat)
    requires t in p.threads && p.threads[t].Runner? && p.threads[t].rpc == RCheck && p.lock == Held(t)
    requires 0 <= p.top < |p.stack|
    ensures var q, b := Go(p, t, 4), p.stack[p.top];
            && q.threads[t] == p.threads[t].(rpc := RSetParam, block := b)
            && q.lock == Unlocked && q.top == p.top - 1 && q.stack == p.stack
            && b in q.fate && q.fate[b] == ByRunner(t) && Leaves(p, q, t, {b})
  {
    hide Own, Go, At, Leaves;
    TakesTop(p, t);
    var r := Go(p, t, 2);
    WakesNext(r, t);
    GoOn(p, t, 2, 2);
    LeavesOn(p, r, Go(r, t, 2), t, {p.stack[p.top]});
  }

  lemma TakesTop(p: Pool, t: nat)
    requires t in p.threads && p.threads[t].Runner? && p.threads[t].rpc == RCheck && 0 <= p.top < |p.stack|
    ensures var q, b := Go(p, t, 2), p.stack[p.top];
            && q.threads[t] == p.threads[t].(rpc := RPre, block := b)
            && q.lock == p.lock && q.top == p.top - 1 && q.stack == p.stack
            && q.fate == p.fate[b := ByRunner(t)] && Leaves(p, q, t, {b})
  {
    var p1 := Own(p, t);
    var p2 := Own(p1, t);
    assert Go(p, t, 2) == Go(p1, t, 1) == Go(p2, t, 0);
  }

  lemma WakesNext(p: Pool, t: nat)
    requires t in p.threads && p.threads[t].Runner? && p.threads[t].rpc == RPre
    ensures var q := Go(p, t, 2);
            && q.threads[t] == p.threads[t].(rpc := RSetParam)
            && q.lock == Unlocked && q.top == p.top && q.stack == p.stack && q.fate == p.fate
            && Leaves(p, q, t, {p.threads[t].block})
  {
    hide Parked;
    var p1 := Own(p, t);
    var p2 := Own(p1, t);
    assert Go(p, t, 2) == Go(p1, t, 1) == Go(p2, t, 0);
  }

  /** One move that writes block `b`, and nothing else but the mover's progress. */
  ghost predicate Writes(p: Pool, q: Pool, t: nat, b: nat, block: Block)
    requires t in q.threads
  {
    && q.lock == p.lock && q.top == p.top && q.stack == p.stack && q.threads == p.threads[t := q.threads[t]]
    && At(q, b) == block && forall k :: k != b ==> At(q, k) == At(p, k)
  }

  lemma WritesLeave(p: Pool, p1: Pool, p2: Pool, p3: Pool, t: nat, b: nat)
    requires t in p1.threads && t in p2.threads && t in p3.threads
    requires Writes(p, p1, t, b, At(p1, b)) && Writes(p1, p2, t, b, At(p2, b)) && Writes(p2, p3, t, b, At(p3, b))
    ensures Leaves(p, p3, t, {b})
  {
    hide At;
  }

  lemma RunWrites(p: Pool, t: nat)
    requires t in p.threads && p.threads[t].Runner? && p.threads[t].rpc in {RSetParam, RSetWait, RSetStatus}
    ensures var q, th := Own(p, t), p.threads[t];
            && q.fate == p.fate && q.threads[t].Runner?
            && Writes(p, q, t, th.block,
                      if th.rpc == RSetParam then At(p, th.block).(param := th.task)
                      else if th.rpc == RSetWait then At(p, th.block).(waitTime := 1)
                      else At(p, th.block).(status := Running))
            && q.threads[t] == th.(rpc := if th.rpc == RSetParam then RSetWait
                                          else if th.rpc == RSetWait then RSetStatus else RHanded)
  {
    hide Parked;
  }

  lemma FillsAlone(p: Pool, t: nat)
    requires t in p.threads && p.threads[t].Runner? && p.threads[t].rpc == RSetParam
    ensures var q, b := Go(p, t, 3), p.threads[t].block;
            && q.threads[t] == p.threads[t].(rpc := RHanded)
            && q.lock == p.lock && q.top == p.top && q.stack == p.stack && q.fate == p.fate
            && At(q, b) == Block(Running, 1, p.threads[t].task) && Leaves(p, q, t, {b})
  {
    hide Own, At, Leaves;
    RunWrites(p, t);
    var p1 := Own(p, t);
    RunWrites(p1, t);
    var p2 := Own(p1, t);
    RunWrites(p2, t);
    var p3 := Own(p2, t);
    WritesLeave(p, p1, p2, p3, t, p.threads[t].block);
    assert Go(p, t, 3) == Go(p1, t, 2) == Go(p2, t, 1) == Go(p3, t, 0);
  }

  /** No waiting thread: its task is for a new one, and the pool is as it was. */
  lemma RunTaskFindsNone(p: Pool, t: nat)
    requires t in p.threads && p.threads[t].Runner? && p.threads[t].rpc == RCheck && p.lock == Held(t) && p.top < 0
    ensures Go(p, t, 2) == With(p, t, p.threads[t].(rpc := RNewThread)).(lock := Unlocked)
  {
    var p1 := Own(p, t);
    var p2 := Own(p1, t);
    assert Go(p, t, 2) == Go(p1, t, 1) == Go(p2, t, 0);
    assert p2.threads == p.threads[t := p2.threads[t]];
  }

  /** A thread that waits, with room: it is parked on top, suspended, and spins. */
  lemma WaitTaskParks(p: Pool, t: nat)
    requires Inv(p) && t in p.threads && p.threads[t].Waiter? && p.threads[t].wpc == WCheck && p.lock == Held(t)
    requires p.top < |p.stack| - 1
    ensures var q := Go(p, t, 7);
            && q.threads[t] == Waiter(WSpin, p.top + 1)
            && q.lock == Unlocked && q.top == p.top + 1 && q.stack == p.stack[p.top + 1 := t]
            && At(q, t) == Block(Suspend, WAIT_TIME, 0) && q.fate == p.fate && Leaves(p, q, t, {t})
  {
    TopInStack(p);
    hide Inv, Own, Go, Leaves, At;
    assert p.top < 0 ==> p.top == -1;
    PushesAlone(p, t);
    var r1 := Go(p, t, 2);
    SuspendsAlone(r1, t);
    var r2 := Go(r1, t, 3);
    ReleasesAlone(r2, t);
    var r3 := Go(r2, t, 2);
    GoOn(p, t, 5, 2);
    GoOn(p, t, 2, 3);
    LeavesOn(p, r1, r2, t, {t});
    LeavesOn(p, r2, r3, t, {t});
  }

  lemma PushesAlone(p: Pool, t: nat)
    requires t in p.threads && p.threads[t].Waiter? && p.threads[t].wpc == WCheck && -1 <= p.top < |p.stack| - 1
    ensures var q := Go(p, t, 2);
            && q.threads[t] == Waiter(WSetWait, p.top + 1)
            && q.lock == p.lock && q.top == p.top + 1 && q.stack == p.stack[p.top + 1 := t] && q.fate == p.fate
            && Leaves(p, q, t, {t})
  {
    var p1 := Own(p, t);
    var p2 := Own(p1, t);
    assert Go(p, t, 2) == Go(p1, t, 1) == Go(p2, t, 0);
  }

  lemma WaitWrites(p: Pool, t: nat)
    requires t in p.threads && p.threads[t].Waiter? && p.threads[t].wpc in {WSetWait, WSetStatus, WSetParam}
    ensures var q, th := Own(p, t), p.threads[t];
            && q.fate == p.fate && q.threads[t].Waiter?
            && Writes(p, q, t, t,
                      if th.wpc == WSetWait then At(p, t).(waitTime := WAIT_TIME)
                      else if th.wpc == WSetStatus then At(p, t).(status := Suspend)
                      else At(p, t).(param := 0))
            && q.threads[t] == th.(wpc := if th.wpc == WSetWait then WSetStatus
                                          else if th.wpc == WSetStatus then WSetParam else WPre)
  {
    hide Parked;
  }

  lemma SuspendsAlone(p: Pool, t: nat)
    requires t in p.threads && p.threads[t].Waiter? && p.threads[t].wpc == WSetWait
    ensures var q := Go(p, t, 3);
            && q.threads[t] == p.threads[t].(wpc := WPre)
            && q.lock == p.lock && q.top == p.top && q.stack == p.stack && q.fate == p.fate
            && At(q, t) == Block(Suspend, WAIT_TIME, 0) && Leaves(p, q, t, {t})
  {
    hide Own, At, Leaves;
    WaitWrites(p, t);
    var p1 := Own(p, t);
    WaitWrites(p1, t);
    var p2 := Own(p1, t);
    WaitWrites(p2, t);
    var p3 := Own(p2, t);
    WritesLeave(p, p1, p2, p3, t, t);
    assert Go(p, t, 3) == Go(p1, t, 2) == Go(p2, t, 1) == Go(p3, t, 0);
  }

  lemma ReleasesAlone(p: Pool, t: nat)
    requires t in p.threads && p.threads[t].Waiter? && p.threads[t].wpc == WPre && At(p, t).waitTime == WAIT_TIME
    ensures var q := Go(p, t, 2);
            && q.threads[t] == p.threads[t].(wpc := WSpin)
            && q.lock == Unlocked && q.top == p.top && q.stack == p.stack && q.fate == p.fate
            && At(q, t) == At(p, t) && Leaves(p, q, t, {t})
  {
    hide Own, At;
    WakesBelow(p, t);
    var p1 := Own(p, t);
    Unlocks(p1, t);
    var p2 := Own(p1, t);
    assert Go(p, t, 2) == Go(p1, t, 1) == Go(p2, t, 0);
  }

  lemma WakesBelow(p: Pool, t: nat)
    requires t in p.threads && p.threads[t].Waiter? && p.threads[t].wpc == WPre && At(p, t).waitTime == WAIT_TIME
    ensures var q := Own(p, t);
            && q.threads[t] == p.threads[t].(wpc := WUnlock)
            && q.lock == p.lock && q.top == p.top && q.stack == p.stack && q.fate == p.fate
            && At(q, t) == At(p, t) && Leaves(p, q, t, {t})
  {
    hide Parked;
  }

  lemma Unlocks(p: Pool, t: nat)
    requires t in p.threads && p.threads[t].Waiter? && p.threads[t].wpc == WUnlock
    ensures var q := Own(p, t);
            && q.threads[t] == p.threads[t].(wpc := WSpin)
            && q.lock == Unlocked && q.top == p.top && q.stack == p.stack && q.fate == p.fate
            && At(q, t) == At(p, t) && Leaves(p, q, t, {t})
  {
  }

  /** Without room it is turned away, and the pool is as it was. */
  lemma WaitTaskFindsFull(p: Pool, t: nat)
    requires t in p.threads && p.threads[t].Waiter? && p.threads[t].wpc == WCheck && p.lock == Held(t)
    requires p.top >= |p.stack| - 1
    ensures Go(p, t, 2) == With(p, t, p.threads[t].(wpc := WLeft(PoolFull))).(lock := Unlocked)
  {
    var p1 := Own(p, t);
    var p2 := Own(p1, t);
    assert Go(p, t, 2) == Go(p1, t, 1) == Go(p2, t, 0);
    assert p2.threads == p.threads[t := p2.threads[t]];
  }

  // ---------------------------------------------------------------- cancelling

  lemma CancelWritesOne(p: Pool, t: nat)
    requires t in p.threads && p.threads[t].Canceller? && p.threads[t].cpc in {CSetParam, CSetWait, CSetStatus}
    requires 0 <= p.threads[t].i < |p.stack|
    ensures var q, th := Own(p, t), p.threads[t];
            var b := p.stack[th.i];
            && q.fate == (if th.cpc == CSetParam then p.fate[b := ByCanceller(t)] else p.fate)
            && q.threads[t].Canceller?
            && Writes(p, q, t, b,
                      if th.cpc == CSetParam then At(p, b).(param := 0)
                      else if th.cpc == CSetWait then At(p, b).(waitTime := 1)
                      else At(p, b).(status := Exiting))
            && q.threads[t] == if th.cpc == CSetParam then th.(cpc := CSetWait)
                               else if th.cpc == CSetWait then th.(cpc := CSetStatus)
                               else th.(cpc := if th.i + 1 <= th.last then CSetParam else CReset, i := th.i + 1)
  {
  }

  /** One turn of the loop marks one block. */
  lemma MarksOne(p: Pool, t: nat)
    requires t in p.threads && p.threads[t].Canceller? && p.threads[t].cpc == CSetParam
    requires 0 <= p.threads[t].i <= p.threads[t].last == p.top < |p.stack|
    ensures var q, th := Go(p, t, 3), p.threads[t];
            && q.threads[t] == th.(cpc := if th.i + 1 <= th.last then CSetParam else CReset, i := th.i + 1)
            && q.fate == p.fate[p.stack[th.i] := ByCanceller(t)]
            && Writes(p, q, t, p.stack[th.i], Block(Exiting, 1, 0))
  {
    hide Own, At;
    CancelWritesOne(p, t);
    var p1 := Own(p, t);
    CancelWritesOne(p1, t);
    var p2 := Own(p1, t);
    CancelWritesOne(p2, t);
    var p3 := Own(p2, t);
    assert Go(p, t, 3) == Go(p1, t, 2) == Go(p2, t, 1) == Go(p3, t, 0);
  }

  /** Block `b` is parked at place `from` or above. */
  ghost predicate ParkedFrom(p: Pool, b: nat, from: nat) {
    exists k :: from <= k <= p.top && k < |p.stack| && p.stack[k] == b
  }

  ghost predicate Marked(p: Pool, q: Pool, t: nat, from: nat)
    requires t in q.threads
  {
    && q.stack == p.stack && q.threads == p.threads[t := q.threads[t]]
    && (forall b :: ParkedFrom(p, b, from) ==>
          At(q, b) == Block(Exiting, 1, 0) && b in q.fate && q.fate[b] == ByCanceller(t))
    && (forall b :: !ParkedFrom(p, b, from) ==> At(q, b) == At(p, b))
    && (forall b :: !ParkedFrom(p, b, from) && b in p.fate ==> b in q.fate && q.fate[b] == p.fate[b])
  }

  /** The loop marks every parked block, and no other. */
  lemma {:induction false} MarksAll(p: Pool, t: nat)
    requires t in p.threads && p.threads[t].Canceller? && p.threads[t].cpc == CSetParam
    requires 0 <= p.threads[t].i <= p.threads[t].last == p.top < |p.stack|
    ensures var i := p.threads[t].i;
            var q := Go(p, t, 3 * (p.top + 1 - i));
            && q.threads[t] == Canceller(CReset, p.top + 1, p.top) && q.lock == p.lock && q.top == p.top
            && Marked(p, q, t, i)
    decreases p.top - p.threads[t].i
  {
    hide Own, Go, At, Marked;
    var i, last := p.threads[t].i, p.top;
    MarksOne(p, t);
    var r := Go(p, t, 3);
    GoOn(p, t, 3, 3 * (last - i));
    if i < last {
      MarksAll(r, t);
      MarkedMore(p, r, Go(r, t, 3 * (last - i)), t, i);
    } else {
      GoNowhere(r, t);
      MarkedLast(p, r, t, i);
    }
  }

  lemma FromNext(p: Pool, b: nat, i: nat)
    requires i <= p.top < |p.stack|
    ensures ParkedFrom(p, b, i) <==> p.stack[i] == b || ParkedFrom(p, b, i + 1)
  {
  }

  /** After one turn, and then the rest. */
  lemma MarkedMore(p: Pool, r: Pool, q: Pool, t: nat, i: nat)
    requires i <= p.top < |p.stack| && t in r.threads && t in q.threads
    requires Writes(p, r, t, p.stack[i], Block(Exiting, 1, 0)) && r.fate == p.fate[p.stack[i] := ByCanceller(t)]
    requires Marked(r, q, t, i + 1)
    ensures Marked(p, q, t, i)
  {
    hide At;
    forall b ensures ParkedFrom(p, b, i) <==> p.stack[i] == b || ParkedFrom(r, b, i + 1) {
      FromNext(p, b, i);
      assert ParkedFrom(p, b, i + 1) <==> ParkedFrom(r, b, i + 1);
    }
    hide ParkedFrom;
  }

  lemma MarkedLast(p: Pool, r: Pool, t: nat, i: nat)
    requires i == p.top < |p.stack| && t in r.threads
    requires Writes(p, r, t, p.stack[i], Block(Exiting, 1, 0)) && r.fate == p.fate[p.stack[i] := ByCanceller(t)]
    ensures Marked(p, r, t, i)
  {
    hide At;
    forall b ensures ParkedFrom(p, b, i) <==> p.stack[i] == b {
      FromNext(p, b, i);
    }
    hide ParkedFrom;
  }

  lemma GoNowhere(p: Pool, t: nat)
    requires t in p.threads
    ensures Go(p, t, 0) == p
  {
  }

  /** Cancelling with the lock in hand: every thread parked then is told to leave, and the pool is empty. */
  lemma CancelAllMarks(p: Pool, t: nat)
    requires Inv(p) && t in p.threads && p.threads[t] == Canceller(CSetParam, 0, p.top) && p.lock == Held(t)
    ensures p.top >= 0
    ensures var q := Go(p, t, 3 * (p.top + 1) + 2);
            && q.threads[t] == Canceller(CDone, p.top + 1, p.top) && q.lock == Unlocked && q.top == -1
            && Marked(p, q, t, 0)
  {
    CancelStarts(p, t);
    TopInStack(p);
    hide Inv, Own, Go, Marked, At;
    MarksAll(p, t);
    var n: nat := 3 * (p.top + 1);
    GoOn(p, t, n, 2);
    ThenResets(p, Go(p, t, n), t);
  }

  lemma ThenResets(p: Pool, r: Pool, t: nat)
    requires t in r.threads && r.threads[t] == Canceller(CReset, p.top + 1, p.top) && Marked(p, r, t, 0)
    ensures var q := Go(r, t, 2);
            && q.threads[t] == Canceller(CDone, p.top + 1, p.top) && q.lock == Unlocked && q.top == -1
            && Marked(p, q, t, 0)
  {
    hide Own, Go, Marked, At;
    ResetsAlone(r, t);
    MarkedReset(p, r, Go(r, t, 2), t);
  }

  lemma CancelStarts(p: Pool, t: nat)
    requires Inv(p) && t in p.threads && p.threads[t] == Canceller(CSetParam, 0, p.top)
    ensures p.top >= 0
  {
    hide ParkedOk;
    assert ThreadOk(p, t);
  }

  lemma MarkedReset(p: Pool, r: Pool, q: Pool, t: nat)
    requires t in r.threads && Marked(p, r, t, 0)
    requires r.threads[t].Canceller?
    requires q == r.(top := -1, lock := Unlocked, threads := r.threads[t := r.threads[t].(cpc := CDone)])
    ensures Marked(p, q, t, 0)
  {
    hide ParkedFrom;
    assert forall b :: At(q, b) == At(r, b);
  }

  lemma ResetsAlone(p: Pool, t: nat)
    requires t in p.threads && p.threads[t].Canceller? && p.threads[t].cpc == CReset
    ensures var q := Go(p, t, 2);
            q == p.(top := -1, lock := Unlocked, threads := p.threads[t := p.threads[t].(cpc := CDone)])
  {
    var p1 := Own(p, t);
    var p2 := Own(p1, t);
    assert Go(p, t, 2) == Go(p1, t, 1) == Go(p2, t, 0);
    assert p2.threads == p.threads[t := p2.threads[t]];
  }

  // ---------------------------------------------------------------- entering

  /** The first move of each operation: the lock, where it is free and can be had; else what the code does instead. */
  lemma Enters(p: Pool, t: nat, choice: Choice)
    requires t in p.threads && Starting(p.threads[t])
    ensures var q := Do(p, Move(t, choice));
            match p.threads[t]
            case Waiter(_, _) =>
              if choice == LockFails then q == With(p, t, p.threads[t].(wpc := WLeft(LockFailed)))
              else if p.lock.Held? then q == p
              else q == With(p.(lock := Held(t)), t, p.threads[t].(wpc := WCheck))
            case Runner(_, _, _) =>
              if choice == PoolOnly then q == With(p, t, p.threads[t].(rpc := RFull))
              else if choice == LockFails then q == With(p, t, p.threads[t].(rpc := RNewThread))
              else if p.lock.Held? then q == p
              else q == With(p.(lock := Held(t)), t, p.threads[t].(rpc := RCheck))
            case Canceller(_, _, _) =>
              if choice == LockFails then q == With(p, t, p.threads[t].(cpc := CDone))
              else if p.lock.Held? then q == p
              else q == With(p.(lock := Held(t)), t, Canceller(if p.top >= 0 then CSetParam else CReset, 0, p.top))
  {
  }

  // ---------------------------------------------------------------- between the steps of other threads

  /** A run from any pool on. */
  ghost predicate Follows(p: Pool, actions: seq<Action>, q: Pool)
    decreases |actions|
  {
    if actions == [] then q == p
    else Enabled(p, actions[0]) && Follows(Do(p, actions[0]), actions[1..], q)
  }

  /** How often thread `t` moves in it. */
  function MovesOf(actions: seq<Action>, t: nat): nat {
    if actions == [] then 0
    else (if actions[0].Move? && actions[0].t == t then 1 else 0) + MovesOf(actions[1..], t)
  }

  /** Runner `t` has the lock and block `b` before it, or `b` in its hands. */
  ghost predicate Gets(p: Pool, t: nat, b: nat, task: int) {
    && t in p.threads && p.threads[t].Runner? && p.threads[t].task == task
    && b in p.threads && p.threads[b].Waiter?
    && match p.threads[t].rpc
       case RCheck => p.lock == Held(t) && 0 <= p.top < |p.stack| && p.stack[p.top] == b
       case RPop => p.lock == Held(t) && 0 <= p.top < |p.stack| && p.stack[p.top] == b
       case _ => Popped(p.threads[t]) && p.threads[t].block == b
  }

  /** The moves it still has to make. */
  function ToGo(pc: RunPc): nat {
    match pc
    case RCheck => 7
    case RPop => 6
    case RPre => 5
    case RUnlock => 4
    case RSetParam => 3
    case RSetWait => 2
    case RSetStatus => 1
    case _ => 0
  }

  /** Nobody moves the stack, or takes the lock, while another thread holds it. */
  lemma LockGuards(p: Pool, a: Action, t: nat)
    requires Inv(p) && Enabled(p, a) && t in p.threads && a.t != t
    ensures var q := Do(p, a);
            && t in q.threads && q.threads[t] == p.threads[t]
            && (p.lock == Held(t) ==> q.lock == p.lock && q.top == p.top && q.stack == p.stack)
  {
    hide At, Parked, WaiterOk, RunnerOk, CancellerOk, ParkedOk;
    if a.Move? {
      assert ThreadOk(p, a.t);
    }
  }

  lemma StaysWaiter(p: Pool, a: Action, b: nat)
    requires Inv(p) && Enabled(p, a) && b in p.threads && p.threads[b].Waiter?
    ensures b in Do(p, a).threads && Do(p, a).threads[b].Waiter?
  {
    if a.t != b {
      LockGuards(p, a, b);
    } else if a.Move? {
      hide WaitStep;
      WaiterMoves(p, b, a.choice);
    }
  }

  lemma WaiterMoves(p: Pool, t: nat, choice: Choice)
    requires t in p.threads && p.threads[t].Waiter?
    ensures var q := WaitStep(p, t, p.threads[t], choice); t in q.threads && q.threads[t].Waiter?
  {
    hide At, Parked, Put;
  }

  ghost predicate GetsNext(p: Pool, q: Pool, t: nat, b: nat, task: int)
    requires Gets(p, t, b, task)
  {
    && Gets(q, t, b, task)
    && ToGo(q.threads[t].rpc) == if ToGo(p.threads[t].rpc) > 0 then ToGo(p.threads[t].rpc) - 1 else 0
  }

  lemma LockedMoveGets(p: Pool, t: nat, choice: Choice, b: nat, task: int)
    requires Gets(p, t, b, task) && p.threads[t].rpc in {RCheck, RPop, RPre, RUnlock}
    ensures GetsNext(p, Do(p, Move(t, choice)), t, b, task)
  {
    hide At;
  }

  lemma FreeMoveGets(p: Pool, t: nat, choice: Choice, b: nat, task: int)
    requires Gets(p, t, b, task) && p.threads[t].rpc !in {RCheck, RPop, RPre, RUnlock}
    ensures GetsNext(p, Do(p, Move(t, choice)), t, b, task)
  {
    hide At;
  }

  /** Whatever the others do: a task that finds a thread parked keeps that thread, and hands over after seven moves of
      its own. */
  lemma {:induction false} TaskIsHandedOver(p: Pool, actions: seq<Action>, q: Pool, t: nat, b: nat, task: int)
    requires Inv(p) && Gets(p, t, b, task) && Follows(p, actions, q)
    ensures Inv(q) && Gets(q, t, b, task)
    ensures MovesOf(actions, t) >= ToGo(p.threads[t].rpc) ==> q.threads[t].rpc == RHanded
    decreases |actions|
  {
    hide Inv, Do, Gets, ToGo, Enabled;
    if actions == [] {
      GoneIsHanded(p, t, b, task);
    } else {
      var a := actions[0];
      DoKeepsInv(p, a);
      GetsOn(p, a, t, b, task);
      TaskIsHandedOver(Do(p, a), actions[1..], q, t, b, task);
    }
  }

  lemma GoneIsHanded(p: Pool, t: nat, b: nat, task: int)
    requires Gets(p, t, b, task)
    ensures t in p.threads && p.threads[t].Runner? && (ToGo(p.threads[t].rpc) == 0 ==> p.threads[t].rpc == RHanded)
  {
  }

  lemma GetsOn(p: Pool, a: Action, t: nat, b: nat, task: int)
    requires Inv(p) && Enabled(p, a) && Gets(p, t, b, task)
    ensures var q := Do(p, a);
            && Gets(q, t, b, task)
            && var n := ToGo(p.threads[t].rpc);
               ToGo(q.threads[t].rpc) == if a.Move? && a.t == t && n > 0 then n - 1 else n
  {
    if a.Move? && a.t == t {
      if p.threads[t].rpc in {RCheck, RPop, RPre, RUnlock} {
        LockedMoveGets(p, t, a.choice, b, task);
      } else {
        FreeMoveGets(p, t, a.choice, b, task);
      }
    } else {
      LockGuards(p, a, t);
      StaysWaiter(p, a, b);
    }
  }

  /** Waiter `b` has been handed a task, and spins, tests, reads, or has left with it. */
  ghost predicate Served(p: Pool, b: nat, t: nat, task: int) {
    && Gets(p, t, b, task) && p.threads[t].rpc == RHanded
    && b in p.threads && p.threads[b].Waiter?
    && (p.threads[b].wpc in {WSpin, WTest, WRead} || p.threads[b].wpc == WLeft(Resumed(task)))
  }

  function ToLeave(pc: WaitPc): nat {
    match pc
    case WSpin => 3
    case WTest => 2
    case WRead => 1
    case _ => 0
  }

  lemma HandedIsServed(p: Pool, b: nat, t: nat, task: int)
    requires Inv(p) && Gets(p, t, b, task) && p.threads[t].rpc == RHanded
    ensures Served(p, b, t, task)
  {
    hide ParkedOk;
    assert ThreadOk(p, t) && ThreadOk(p, b);
  }

  lemma ServedOn(p: Pool, a: Action, b: nat, t: nat, task: int)
    requires Inv(p) && Enabled(p, a) && Served(p, b, t, task)
    ensures var q := Do(p, a);
            && Served(q, b, t, task)
            && var n := ToLeave(p.threads[b].wpc);
               ToLeave(q.threads[b].wpc) == if a.Move? && a.t == b && n > 0 then n - 1 else n
  {
    DoKeepsInv(p, a);
    GetsOn(p, a, t, b, task);
    HandedIsServed(Do(p, a), b, t, task);
    if a.Move? && a.t == b {
      ServedMoves(p, b, t, task, a.choice);
    } else {
      LockGuards(p, a, b);
    }
  }

  lemma ServedMoves(p: Pool, b: nat, t: nat, task: int, choice: Choice)
    requires Inv(p) && Served(p, b, t, task)
    ensures var q := Do(p, Move(b, choice));
            && b in q.threads && q.threads[b].Waiter?
            && var n := ToLeave(p.threads[b].wpc);
               ToLeave(q.threads[b].wpc) == if n > 0 then n - 1 else 0
  {
    hide ParkedOk;
    assert ThreadOk(p, t) && ThreadOk(p, b);
  }

  /** And the thread it was handed to leaves with it after three moves of its own. */
  lemma {:induction false} WaiterLeavesWithTask(p: Pool, actions: seq<Action>, q: Pool, b: nat, t: nat, task: int)
    requires Inv(p) && Served(p, b, t, task) && Follows(p, actions, q)
    ensures Served(q, b, t, task)
    ensures MovesOf(actions, b) >= ToLeave(p.threads[b].wpc) ==> q.threads[b].wpc == WLeft(Resumed(task))
    decreases |actions|
  {
    hide Inv, Do, Enabled, Gets;
    if actions != [] {
      var a := actions[0];
      DoKeepsInv(p, a);
      ServedOn(p, a, b, t, task);
      WaiterLeavesWithTask(Do(p, a), actions[1..], q, b, t, task);
    }
  }

  /** From the check under the lock to the thread's return: enough moves of the one and then of the other, and the
      thread on top of the stack has left with what it was handed. */
  lemma TaskArrives(p: Pool, some: seq<Action>, r: Pool, more: seq<Action>, q: Pool, t: nat)
    requires Inv(p) && t in p.threads && p.threads[t].Runner? && p.threads[t].rpc == RCheck && p.lock == Held(t)
    requires p.top >= 0 && Follows(p, some, r) && Follows(r, more, q)
    requires MovesOf(some, t) >= 7 && MovesOf(more, p.stack[p.top]) >= 3
    ensures var b := p.stack[p.top];
            b in q.threads && q.threads[b].Waiter? && q.threads[b].wpc == WLeft(Resumed(p.threads[t].task))
  {
    TopInStack(p);
    assert ParkedOk(p, p.top);
    hide Inv, Do, Follows;
    var b, task := p.stack[p.top], p.threads[t].task;
    TaskIsHandedOver(p, some, r, t, b, task);
    HandedIsServed(r, b, t, task);
    WaiterLeavesWithTask(r, more, q, b, t, task);
  }

  /** Waiter `b` has been told to leave, or has left. */
  ghost predicate Told(p: Pool, b: nat) {
    && b in p.threads && p.threads[b].Waiter? && b in p.fate && p.fate[b].ByCanceller?
    && ((p.threads[b].wpc in {WSpin, WTest} && At(p, b).status == Exiting) || p.threads[b].wpc == WLeft(Cancelled))
  }

  /** Nobody takes it back. */
  lemma ToldOn(p: Pool, a: Action, b: nat)
    requires Inv(p) && Enabled(p, a) && Told(p, b)
    ensures var q := Do(p, a);
            && Told(q, b)
            && if a.Move? && a.t == b then p.threads[b].wpc == WSpin ==> q.threads[b].wpc == WTest
               else q.threads[b] == p.threads[b]
    ensures a.Move? && a.t == b && p.threads[b].wpc == WTest ==> Do(p, a).threads[b].wpc == WLeft(Cancelled)
  {
    hide Inv, ThreadOk;
    FateIsFinal(p, a, b);
    if a.t != b {
      LockGuards(p, a, b);
      if p.threads[b].wpc in {WSpin, WTest} {
        StaysExiting(p, a, b);
      }
    }
  }

  lemma StaysExiting(p: Pool, a: Action, b: nat)
    requires Inv(p) && Enabled(p, a) && Told(p, b) && a.t != b && p.threads[b].wpc in {WSpin, WTest}
    ensures At(Do(p, a), b).status == Exiting
  {
    hide ParkedOk, TakenOk, Parked;
    if a.Move? {
      assert ThreadOk(p, a.t);
    }
  }

  /** A cancelled thread leaves after two moves of its own, whatever the others do. */
  lemma {:induction false} CancelledLeaves(p: Pool, actions: seq<Action>, q: Pool, b: nat)
    requires Inv(p) && Told(p, b) && Follows(p, actions, q)
    ensures Told(q, b)
    ensures MovesOf(actions, b) >= 2 ==> q.threads[b].wpc == WLeft(Cancelled)
    ensures MovesOf(actions, b) >= 1 && p.threads[b].wpc != WSpin ==> q.threads[b].wpc == WLeft(Cancelled)
    ensures p.threads[b].wpc == WLeft(Cancelled) ==> q.threads[b].wpc == WLeft(Cancelled)
    decreases |actions|
  {
    hide Inv, Do, Enabled, At;
    if actions != [] {
      var a := actions[0];
      DoKeepsInv(p, a);
      ToldOn(p, a, b);
      LeftStays(p, a, b);
      CancelledLeaves(Do(p, a), actions[1..], q, b);
    }
  }

  lemma LeftStays(p: Pool, a: Action, b: nat)
    requires Inv(p) && Enabled(p, a) && Told(p, b)
    ensures b in Do(p, a).threads && (p.threads[b].wpc == WLeft(Cancelled) ==> Do(p, a).threads[b] == p.threads[b])
  {
    hide Inv;
    if a.t != b {
      LockGuards(p, a, b);
    }
  }
}
