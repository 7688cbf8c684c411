/** The thread pool's hand-off, as interleaved steps.

    A waiting thread parks a control block on a shared stack and spins on its status; a thread that
    has a task pops a block under the lock and fills it in outside the lock; a cancelling thread
    marks every parked block.  Each step below is one access to shared memory, so a run is any
    interleaving of the three operations by any number of threads.

    `fate` and a waiter's `at` are history: they record who took a block and where it was parked. */
module ThreadPool {

  datatype Status = Unset | Suspend | Running | Exiting

  datatype Block = Block(status: Status, waitTime: int, param: int)

  datatype Outcome = LockFailed | PoolFull | Cancelled | Resumed(param: int) | BadStatus

  datatype WaitPc =
    | WLock | WCheck | WPush | WSetWait | WSetStatus | WSetParam | WPre | WUnlock
    | WUnlockFull | WSpin | WTest | WRead | WLeft(outcome: Outcome)

  datatype RunPc =
    | RStart | RCheck | RPop | RPre | RUnlock | RSetParam | RSetWait | RSetStatus
    | RHanded | RUnlockEmpty | RNewThread | RFull

  datatype CancelPc = CLock | CSetParam | CSetWait | CSetStatus | CReset | CUnlock | CDone

  datatype Thread =
    | Waiter(wpc: WaitPc, at: nat)
    | Runner(rpc: RunPc, task: int, block: nat)
    | Canceller(cpc: CancelPc, i: int, last: int)

  datatype Fate = Untaken | ByRunner(runner: nat) | ByCanceller(canceller: nat)

  /** What a thread finds where the model does not say: nothing special, the pool-only limit, a lock that fails. */
  datatype Choice = Proceed | PoolOnly | LockFails

  datatype Lock = Unlocked | Held(owner: nat)

  const WAIT_TIME := 10

  /** Threads are numbered; a waiter's control block carries its thread's number. */
  datatype Pool = Pool(
    lock: Lock, stack: seq<nat>, top: int,
    blocks: map<nat, Block>, threads: map<nat, Thread>, fate: map<nat, Fate>)

  // ---------------------------------------------------------------- steps

  function With(p: Pool, t: nat, th: Thread): Pool {
    p.(threads := p.threads[t := th])
  }

  function Put(p: Pool, b: nat, block: Block): Pool {
    p.(blocks := p.blocks[b := block])
  }

  function At(p: Pool, b: nat): Block {
    if b in p.blocks then p.blocks[b] else Block(Unset, 0, 0)
  }

  /** The block parked at an index; any number will do outside the stack. */
  function Parked(p: Pool, i: int): nat {
    if 0 <= i < |p.stack| then p.stack[i] else 0
  }

  /** `ThPoolWaitTask`.  Taking the lock may fail. */
  function WaitStep(p: Pool, t: nat, th: Thread, choice: Choice): Pool
    requires th.Waiter?
  {
    match th.wpc
    case WLock =>
      if choice == LockFails then With(p, t, th.(wpc := WLeft(LockFailed)))
      else if p.lock == Unlocked then With(p.(lock := Held(t)), t, th.(wpc := WCheck)) else p
    case WCheck =>
      if p.top >= |p.stack| - 1 then With(p, t, th.(wpc := WUnlockFull)) else With(p, t, th.(wpc := WPush))
    case WUnlockFull => With(p.(lock := Unlocked), t, th.(wpc := WLeft(PoolFull)))
    case WPush =>
      var top := if p.top < 0 then 0 else p.top + 1;
      if top < |p.stack| then
        With(p.(top := top, stack := p.stack[top := t]), t, th.(wpc := WSetWait, at := top))
      else p
    case WSetWait => With(Put(p, t, At(p, t).(waitTime := WAIT_TIME)), t, th.(wpc := WSetStatus))
    case WSetStatus => With(Put(p, t, At(p, t).(status := Suspend)), t, th.(wpc := WSetParam))
    case WSetParam => With(Put(p, t, At(p, t).(param := 0)), t, th.(wpc := WPre))
    case WPre =>
      var b := Parked(p, p.top - 1);
      With(if p.top > 0 then Put(p, b, At(p, b).(waitTime := WAIT_TIME)) else p, t, th.(wpc := WUnlock))
    case WUnlock => With(p.(lock := Unlocked), t, th.(wpc := WSpin))
    case WSpin => if At(p, t).status == Suspend then p else With(p, t, th.(wpc := WTest))
    case WTest =>
      var status := At(p, t).status;
      With(p, t, th.(wpc := match status
                            case Exiting => WLeft(Cancelled)
                            case Running => WRead
                            case _ => WLeft(BadStatus)))
    case WRead => With(p, t, th.(wpc := WLeft(Resumed(At(p, t).param))))
    case WLeft(_) => p
  }

  /** `ThPoolRunTask`.  It may give up early, on the pool-only option or on the lock. */
  function RunStep(p: Pool, t: nat, th: Thread, choice: Choice): Pool
    requires th.Runner?
  {
    match th.rpc
    case RStart =>
      if choice == PoolOnly then With(p, t, th.(rpc := RFull))
      else if choice == LockFails then With(p, t, th.(rpc := RNewThread))
      else if p.lock == Unlocked then With(p.(lock := Held(t)), t, th.(rpc := RCheck)) else p
    case RCheck => With(p, t, th.(rpc := if p.top < 0 then RUnlockEmpty else RPop))
    case RUnlockEmpty => With(p.(lock := Unlocked), t, th.(rpc := RNewThread))
    case RPop =>
      var b := Parked(p, p.top);
      With(p.(top := p.top - 1, fate := p.fate[b := ByRunner(t)]), t, th.(rpc := RPre, block := b))
    case RPre =>
      var b := Parked(p, p.top);
      With(if p.top >= 0 then Put(p, b, At(p, b).(waitTime := WAIT_TIME)) else p, t, th.(rpc := RUnlock))
    case RUnlock => With(p.(lock := Unlocked), t, th.(rpc := RSetParam))
    case RSetParam => With(Put(p, th.block, At(p, th.block).(param := th.task)), t, th.(rpc := RSetWait))
    case RSetWait => With(Put(p, th.block, At(p, th.block).(waitTime := 1)), t, th.(rpc := RSetStatus))
    case RSetStatus => With(Put(p, th.block, At(p, th.block).(status := Running)), t, th.(rpc := RHanded))
    case _ => p
  }

  /** `ThPoolCancelAll`. */
  function CancelStep(p: Pool, t: nat, th: Thread, choice: Choice): Pool
    requires th.Canceller?
  {
    var b := Parked(p, th.i);
    match th.cpc
    case CLock =>
      if choice == LockFails then With(p, t, th.(cpc := CDone))
      else if p.lock == Unlocked then
        With(p.(lock := Held(t)), t, th.(cpc := if p.top >= 0 then CSetParam else CReset, i := 0, last := p.top))
      else p
    case CSetParam =>
      With(Put(p, b, At(p, b).(param := 0)).(fate := p.fate[b := ByCanceller(t)]), t, th.(cpc := CSetWait))
    case CSetWait => With(Put(p, b, At(p, b).(waitTime := 1)), t, th.(cpc := CSetStatus))
    case CSetStatus =>
      With(Put(p, b, At(p, b).(status := Exiting)), t,
           th.(cpc := if th.i + 1 <= th.last then CSetParam else CReset, i := th.i + 1))
    case CReset => With(p.(top := -1), t, th.(cpc := CUnlock))
    case CUnlock => With(p.(lock := Unlocked), t, th.(cpc := CDone))
    case CDone => p
  }

  predicate Starting(th: Thread) {
    match th
    case Waiter(pc, _) => pc == WLock
    case Runner(pc, _, _) => pc == RStart
    case Canceller(pc, _, _) => pc == CLock
  }

  datatype Action = Spawn(t: nat, th: Thread) | Move(t: nat, choice: Choice)

  predicate Enabled(p: Pool, a: Action) {
    match a
    case Spawn(t, th) => t !in p.threads && Starting(th)
    case Move(t, _) => t in p.threads
  }

  function Do(p: Pool, a: Action): Pool
    requires Enabled(p, a)
  {
    match a
    case Spawn(t, th) => With(p, t, th).(fate := p.fate[t := Untaken])
    case Move(t, choice) =>
      var th := p.threads[t];
      match th
      case Waiter(_, _) => WaitStep(p, t, th, choice)
      case Runner(_, _, _) => RunStep(p, t, th, choice)
      case Canceller(_, _, _) => CancelStep(p, t, th, choice)
  }

  // ---------------------------------------------------------------- the invariant

  predicate Critical(th: Thread) {
    match th
    case Waiter(pc, _) => pc in {WCheck, WPush, WSetWait, WSetStatus, WSetParam, WPre, WUnlock, WUnlockFull}
    case Runner(pc, _, _) => pc in {RCheck, RPop, RPre, RUnlock, RUnlockEmpty}
    case Canceller(pc, _, _) => pc in {CSetParam, CSetWait, CSetStatus, CReset, CUnlock}
  }

  predicate Popped(th: Thread) {
    th.Runner? && th.rpc in {RPre, RUnlock, RSetParam, RSetWait, RSetStatus, RHanded}
  }

  /** Pushed, and not resumed yet. */
  predicate IsParked(th: Thread) {
    th.Waiter? && th.wpc in {WSetWait, WSetStatus, WSetParam, WPre, WUnlock, WSpin}
  }

  predicate Spinning(p: Pool, b: nat) {
    b in p.threads && p.threads[b].Waiter? && p.threads[b].wpc == WSpin
  }

  predicate InStack(p: Pool, b: nat, at: nat) {
    at <= p.top && p.top < |p.stack| && p.stack[at] == b
  }

  /** What a taker's progress says about a block whose waiter has not left. */
  ghost predicate TakenOk(p: Pool, b: nat)
    requires b in p.fate
  {
    match p.fate[b]
    case Untaken => true
    case ByRunner(r) =>
      && r in p.threads && Popped(p.threads[r]) && p.threads[r].block == b
      && var th := p.threads[r];
         && (th.rpc in {RSetWait, RSetStatus, RHanded} ==> At(p, b).param == th.task)
         && At(p, b).status == if th.rpc == RHanded then Running else Suspend
    case ByCanceller(c) =>
      && c in p.threads && p.threads[c].Canceller?
      && var th := p.threads[c];
         At(p, b).status == if th.cpc in {CSetWait, CSetStatus} && Parked(p, th.i) == b then Suspend else Exiting
  }

  ghost predicate WaiterOk(p: Pool, t: nat, th: Thread)
    requires th.Waiter? && t in p.fate
  {
    match th.wpc
    case WLock => p.fate[t] == Untaken
    case WCheck => p.fate[t] == Untaken
    case WPush => p.fate[t] == Untaken && p.top < |p.stack| - 1
    case WUnlockFull => p.fate[t] == Untaken
    case WSetWait => p.fate[t] == Untaken && InStack(p, t, th.at) && th.at == p.top
    case WSetStatus => p.fate[t] == Untaken && InStack(p, t, th.at) && th.at == p.top
    case WSetParam => p.fate[t] == Untaken && InStack(p, t, th.at) && th.at == p.top && At(p, t).status == Suspend
    case WPre => p.fate[t] == Untaken && InStack(p, t, th.at) && th.at == p.top && At(p, t).status == Suspend
    case WUnlock => p.fate[t] == Untaken && InStack(p, t, th.at) && th.at == p.top && At(p, t).status == Suspend
    case WSpin =>
      && (p.fate[t] == Untaken ==> InStack(p, t, th.at) && At(p, t).status == Suspend)
      && TakenOk(p, t)
    case WTest => p.fate[t] != Untaken && TakenOk(p, t) && At(p, t).status in {Running, Exiting}
    case WRead => p.fate[t].ByRunner? && TakenOk(p, t) && At(p, t).status == Running
    case WLeft(outcome) =>
      match outcome
      case LockFailed => p.fate[t] == Untaken
      case PoolFull => p.fate[t] == Untaken
      case Cancelled => p.fate[t].ByCanceller?
      case Resumed(v) =>
        && p.fate[t].ByRunner? && var r := p.fate[t].runner;
           r in p.threads && Popped(p.threads[r]) && p.threads[r].rpc == RHanded
           && p.threads[r].block == t && p.threads[r].task == v
      case BadStatus => false
  }

  ghost predicate RunnerOk(p: Pool, t: nat, th: Thread)
    requires th.Runner?
  {
    && (th.rpc == RPop ==> p.top >= 0)
    && (Popped(th) ==> th.block in p.threads && th.block in p.fate && p.fate[th.block] == ByRunner(t))
    && (Popped(th) && th.rpc != RHanded ==> Spinning(p, th.block))
  }

  ghost predicate CancellerOk(p: Pool, t: nat, th: Thread)
    requires th.Canceller?
  {
    && (th.cpc in {CSetParam, CSetWait, CSetStatus} ==> 0 <= th.i <= th.last == p.top)
    && (th.cpc in {CSetWait, CSetStatus} ==>
          Spinning(p, Parked(p, th.i)) && Parked(p, th.i) in p.fate && p.fate[Parked(p, th.i)] == ByCanceller(t))
    && (th.cpc == CReset ==> th.i == p.top + 1)
  }

  /** A parked block belongs to a waiter at that place that has pushed it, and is untaken, unless the
      canceller holding the lock has been past it. */
  ghost predicate ParkedOk(p: Pool, i: nat)
    requires i < |p.stack|
  {
    var b := p.stack[i];
    && b in p.threads && b in p.fate && p.threads[b].Waiter? && p.threads[b].at == i
    && (if p.fate[b] == Untaken then IsParked(p.threads[b])
        else Passed(p, i, b))
    && (p.fate[b] == Untaken ==> !Passing(p, i))
  }

  /** The lock is held by a canceller that has started on the block at `i`. */
  ghost predicate Passing(p: Pool, i: nat) {
    && p.lock.Held? && p.lock.owner in p.threads && p.threads[p.lock.owner].Canceller?
    && var c := p.threads[p.lock.owner];
       i < c.i || (i == c.i && c.cpc in {CSetWait, CSetStatus})
  }

  ghost predicate Passed(p: Pool, i: nat, b: nat)
    requires b in p.fate
  {
    Passing(p, i) && p.fate[b] == ByCanceller(p.lock.owner) && p.threads[p.lock.owner].cpc != CUnlock
  }

  ghost predicate ThreadOk(p: Pool, t: nat)
    requires t in p.threads
  {
    && t in p.fate
    && (Critical(p.threads[t]) <==> p.lock == Held(t))
    && match p.threads[t]
       case Waiter(_, _) => WaiterOk(p, t, p.threads[t])
       case Runner(_, _, _) => RunnerOk(p, t, p.threads[t])
       case Canceller(_, _, _) => CancellerOk(p, t, p.threads[t])
  }

  ghost predicate Inv(p: Pool) {
    && |p.stack| >= 1
    && -1 <= p.top <= |p.stack| - 1
    && (p.lock.Held? ==> p.lock.owner in p.threads)
    && (forall t :: t in p.threads ==> ThreadOk(p, t))
    && (forall i: nat :: i <= p.top ==> ParkedOk(p, i))
  }

  ghost predicate Init(p: Pool) {
    && |p.stack| >= 1 && p.top == -1 && p.lock == Unlocked
    && p.threads == map[] && p.fate == map[] && p.blocks == map[]
  }

  lemma SpawnKeepsInv(p: Pool, t: nat, th: Thread)
    requires Inv(p) && t !in p.threads && Starting(th)
    ensures Inv(Do(p, Spawn(t, th)))
  {
    var q := Do(p, Spawn(t, th));
    forall i: nat | i <= q.top ensures ParkedOk(q, i) {
      assert ParkedOk(p, i);
    }
    forall k | k in q.threads ensures ThreadOk(q, k) {
      if k != t {
        assert ThreadOk(p, k);
      }
    }
  }

  /** Between `p` and `q` only the lock may have passed to or from `t`. */
  ghost predicate LockFrame(p: Pool, q: Pool, t: nat) {
    q.lock == p.lock || (p.lock == Unlocked && q.lock == Held(t)) || (p.lock == Held(t) && q.lock == Unlocked)
  }

  /** What a waiter's step can touch: its own block, except for another block's wait time; the lock; and,
      holding the lock, a new top of the stack. */
  ghost predicate WaitFrame(p: Pool, q: Pool, t: nat)
    requires t in p.threads && p.threads[t].Waiter? && t in q.threads
  {
    && q.fate == p.fate && q.threads == p.threads[t := q.threads[t]] && q.threads[t].Waiter?
    && (forall b :: b != t ==> At(q, b).status == At(p, b).status && At(q, b).param == At(p, b).param)
    && LockFrame(p, q, t)
    && ((q.stack == p.stack && q.top == p.top)
        || (p.lock == Held(t) && 0 <= q.top == p.top + 1 < |p.stack| && q.stack == p.stack[q.top := t]))
    && (q.top == p.top ==> q.threads[t].at == p.threads[t].at)
    && (q.top != p.top ==> p.threads[t].wpc == WPush && q.threads[t] == Waiter(WSetWait, q.top))
    && (IsParked(p.threads[t]) && !IsParked(q.threads[t]) ==> Spinning(p, t))
    && (Spinning(p, t) && !Spinning(q, t) ==> At(p, t).status != Suspend)
  }

  lemma WaitEntersIsFramed(p: Pool, t: nat, choice: Choice)
    requires Inv(p) && t in p.threads && p.threads[t].Waiter? && p.threads[t].wpc in {WLock, WCheck, WUnlockFull, WPush}
    ensures t in Do(p, Move(t, choice)).threads && WaitFrame(p, Do(p, Move(t, choice)), t)
  {
    hide TakenOk, ParkedOk, RunnerOk, CancellerOk, Parked;
    assert ThreadOk(p, t);
  }

  lemma WaitFillsIsFramed(p: Pool, t: nat, choice: Choice)
    requires Inv(p) && t in p.threads && p.threads[t].Waiter?
             && p.threads[t].wpc in {WSetWait, WSetStatus, WSetParam, WPre}
    ensures t in Do(p, Move(t, choice)).threads && WaitFrame(p, Do(p, Move(t, choice)), t)
  {
    hide TakenOk, ParkedOk, RunnerOk, CancellerOk, Parked;
    assert ThreadOk(p, t);
  }

  lemma WaitEndsIsFramed(p: Pool, t: nat, choice: Choice)
    requires Inv(p) && t in p.threads && p.threads[t].Waiter?
    requires p.threads[t].wpc in {WUnlock, WSpin, WTest, WRead} || p.threads[t].wpc.WLeft?
    ensures t in Do(p, Move(t, choice)).threads && WaitFrame(p, Do(p, Move(t, choice)), t)
  {
    hide TakenOk, ParkedOk, RunnerOk, CancellerOk, Parked;
    assert ThreadOk(p, t);
  }

  lemma WaitIsFramed(p: Pool, t: nat, choice: Choice)
    requires Inv(p) && t in p.threads && p.threads[t].Waiter?
    ensures t in Do(p, Move(t, choice)).threads && WaitFrame(p, Do(p, Move(t, choice)), t)
  {
    hide Do, ThreadOk, Inv, WaitFrame;
    if p.threads[t].wpc in {WLock, WCheck, WUnlockFull, WPush} {
      WaitEntersIsFramed(p, t, choice);
    } else if p.threads[t].wpc in {WSetWait, WSetStatus, WSetParam, WPre} {
      WaitFillsIsFramed(p, t, choice);
    } else {
      WaitEndsIsFramed(p, t, choice);
    }
  }

  lemma WaitOthersOk(p: Pool, q: Pool, t: nat, k: nat)
    requires Inv(p) && t in p.threads && p.threads[t].Waiter? && k in p.threads && k != t
    requires t in q.threads && WaitFrame(p, q, t)
    ensures ThreadOk(q, k)
  {
    hide At;
    assert ThreadOk(p, t) && ThreadOk(p, k);
    if Popped(p.threads[k]) && p.threads[k].rpc != RHanded && p.threads[k].block == t {
      assert TakenOk(p, t);
    }
  }

  lemma WaitEntersOk(p: Pool, t: nat, choice: Choice)
    requires Inv(p) && t in p.threads && p.threads[t].Waiter? && p.threads[t].wpc in {WLock, WCheck, WUnlockFull, WPush}
    ensures ThreadOk(Do(p, Move(t, choice)), t)
  {
    hide TakenOk, ParkedOk, RunnerOk, CancellerOk;
    assert ThreadOk(p, t);
  }

  lemma WaitFillsOk(p: Pool, t: nat, choice: Choice)
    requires Inv(p) && t in p.threads && p.threads[t].Waiter?
             && p.threads[t].wpc in {WSetWait, WSetStatus, WSetParam, WPre}
    ensures ThreadOk(Do(p, Move(t, choice)), t)
  {
    hide TakenOk, ParkedOk, RunnerOk, CancellerOk;
    assert ThreadOk(p, t);
  }

  lemma WaitEndsOk(p: Pool, t: nat, choice: Choice)
    requires Inv(p) && t in p.threads && p.threads[t].Waiter?
    requires p.threads[t].wpc in {WUnlock, WSpin, WTest, WRead} || p.threads[t].wpc.WLeft?
    ensures ThreadOk(Do(p, Move(t, choice)), t)
  {
    hide ParkedOk, RunnerOk, CancellerOk;
    assert ThreadOk(p, t);
  }

  lemma WaitOwnOk(p: Pool, t: nat, choice: Choice)
    requires Inv(p) && t in p.threads && p.threads[t].Waiter?
    ensures ThreadOk(Do(p, Move(t, choice)), t)
  {
    hide Do, ThreadOk, Inv;
    if p.threads[t].wpc in {WLock, WCheck, WUnlockFull, WPush} {
      WaitEntersOk(p, t, choice);
    } else if p.threads[t].wpc in {WSetWait, WSetStatus, WSetParam, WPre} {
      WaitFillsOk(p, t, choice);
    } else {
      WaitEndsOk(p, t, choice);
    }
  }

  /** The block at a place of the stack is still parked there properly. */
  lemma WaitParkedOk(p: Pool, q: Pool, t: nat, i: nat)
    requires Inv(p) && t in p.threads && p.threads[t].Waiter? && t in q.threads && WaitFrame(p, q, t)
    requires ThreadOk(q, t) && i <= q.top
    ensures ParkedOk(q, i)
  {
    hide At, TakenOk, RunnerOk, CancellerOk;
    assert ThreadOk(p, t);
    if i <= p.top {
      assert ParkedOk(p, i);
      assert Passing(q, i) == Passing(p, i);
    }
  }

  lemma WaitKeepsInv(p: Pool, t: nat, choice: Choice)
    requires Inv(p) && t in p.threads && p.threads[t].Waiter?
    ensures Inv(Do(p, Move(t, choice)))
  {
    hide Do, ThreadOk, ParkedOk;
    var q := Do(p, Move(t, choice));
    WaitIsFramed(p, t, choice);
    WaitOwnOk(p, t, choice);
    forall i: nat | i <= q.top ensures ParkedOk(q, i) {
      WaitParkedOk(p, q, t, i);
    }
    forall k | k in q.threads ensures ThreadOk(q, k) {
      if k != t {
        WaitOthersOk(p, q, t, k);
      }
    }
  }

  // ---------------------------------------------------------------- the runner's steps

  /** Steps that touch no more than the lock, the runner's own progress, and a wait time. */
  ghost predicate QuietFrame(p: Pool, q: Pool, t: nat)
    requires t in p.threads && t in q.threads
  {
    && q.fate == p.fate && q.stack == p.stack && q.top == p.top
    && q.threads == p.threads[t := q.threads[t]]
    && (forall b :: At(q, b).status == At(p, b).status && At(q, b).param == At(p, b).param)
    && LockFrame(p, q, t)
  }

  lemma RunQuietIsFramed(p: Pool, t: nat, choice: Choice)
    requires Inv(p) && t in p.threads && p.threads[t].Runner?
    requires p.threads[t].rpc !in {RPop, RSetParam, RSetStatus}
    ensures var q := Do(p, Move(t, choice));
            t in q.threads && QuietFrame(p, q, t) && q.threads[t].Runner? && ThreadOk(q, t)
            && q.threads[t] == p.threads[t].(rpc := q.threads[t].rpc)
            && (Popped(p.threads[t]) <==> Popped(q.threads[t]))
            && (q.threads[t].rpc == RHanded <==> p.threads[t].rpc == RHanded)
            && (q.threads[t].rpc in {RSetWait, RSetStatus, RHanded}
                <==> p.threads[t].rpc in {RSetWait, RSetStatus, RHanded})
  {
    hide TakenOk, ParkedOk, WaiterOk, CancellerOk, Parked;
    assert ThreadOk(p, t);
  }

  lemma RunQuietOthersOk(p: Pool, q: Pool, t: nat, k: nat)
    requires Inv(p) && t in p.threads && p.threads[t].Runner? && k in p.threads && k != t
    requires t in q.threads && QuietFrame(p, q, t) && q.threads[t].Runner?
    requires q.threads[t] == p.threads[t].(rpc := q.threads[t].rpc)
    requires Popped(p.threads[t]) <==> Popped(q.threads[t])
    requires q.threads[t].rpc == RHanded <==> p.threads[t].rpc == RHanded
    requires q.threads[t].rpc in {RSetWait, RSetStatus, RHanded}
             <==> p.threads[t].rpc in {RSetWait, RSetStatus, RHanded}
    ensures ThreadOk(q, k)
  {
    hide At, ParkedOk, Parked;
    ParkedSame(p, q);
    assert ThreadOk(p, t) && ThreadOk(p, k);
  }

  lemma QuietParkedOk(p: Pool, q: Pool, t: nat, i: nat)
    requires Inv(p) && t in p.threads && p.threads[t].Runner? && i <= p.top
    requires t in q.threads && QuietFrame(p, q, t) && q.threads[t].Runner?
    ensures ParkedOk(q, i)
  {
    hide At, TakenOk, WaiterOk, RunnerOk, CancellerOk;
    assert ThreadOk(p, t) && ParkedOk(p, i);
    assert Passing(q, i) == Passing(p, i);
  }

  /** The pop: the topmost block, which is parked, untaken and spinning, gets its fate. */
  lemma RunPopTakes(p: Pool, t: nat) returns (b: nat)
    requires Inv(p) && t in p.threads && p.threads[t].Runner? && p.threads[t].rpc == RPop
    ensures p.top >= 0 && b == p.stack[p.top] == Parked(p, p.top) && b != t
            && Spinning(p, b) && b in p.fate && p.fate[b] == Untaken
    ensures At(p, b).status == Suspend && p.lock == Held(t)
  {
    assert ThreadOk(p, t) && ParkedOk(p, p.top);
    b := p.stack[p.top];
    assert ThreadOk(p, b);
  }

  /** Popping moves the pointer and gives the block its fate: nothing else. */
  lemma PopParkedSame(p: Pool, t: nat, choice: Choice)
    requires t in p.threads && p.threads[t].Runner? && p.threads[t].rpc == RPop
    ensures var q := Do(p, Move(t, choice));
            && q.lock == p.lock && q.stack == p.stack && q.top == p.top - 1
            && q.fate == p.fate[Parked(p, p.top) := ByRunner(t)]
            && q.threads == p.threads[t := p.threads[t].(rpc := RPre, block := Parked(p, p.top))]
            && (forall i :: Parked(q, i) == Parked(p, i)) && (forall b :: At(q, b) == At(p, b))
  {
  }

  lemma RunPopOk(p: Pool, t: nat, choice: Choice, k: nat)
    requires Inv(p) && t in p.threads && p.threads[t].Runner? && p.threads[t].rpc == RPop && k in p.threads
    ensures ThreadOk(Do(p, Move(t, choice)), k)
  {
    hide ParkedOk, At, Parked;
    PopParkedSame(p, t, choice);
    var b := RunPopTakes(p, t);
    assert ThreadOk(p, t) && ThreadOk(p, k);
    if k != b && k != t && p.threads[k].Waiter? && k in p.fate && p.fate[k] == Untaken && Spinning(p, k) {
      assert p.threads[k].at != p.top;
    }
  }

  lemma RunPopParkedOk(p: Pool, t: nat, choice: Choice, i: nat)
    requires Inv(p) && t in p.threads && p.threads[t].Runner? && p.threads[t].rpc == RPop && i < p.top
    ensures ParkedOk(Do(p, Move(t, choice)), i)
  {
    hide TakenOk, WaiterOk, RunnerOk, CancellerOk;
    var b := RunPopTakes(p, t);
    assert ParkedOk(p, i) && ParkedOk(p, p.top);
  }

  /** Filling in a popped block: parameter first, status last.  The block's waiter is still spinning. */
  lemma RunFillTargetOk(p: Pool, t: nat, choice: Choice)
    requires Inv(p) && t in p.threads && p.threads[t].Runner? && p.threads[t].rpc in {RSetParam, RSetStatus}
    ensures var q, b := Do(p, Move(t, choice)), p.threads[t].block;
            b != t && b in p.threads && ThreadOk(q, b) && ThreadOk(q, t)
  {
    hide ParkedOk, CancellerOk;
    assert ThreadOk(p, t) && ThreadOk(p, p.threads[t].block);
  }

  lemma RunFills(p: Pool, t: nat, choice: Choice)
    requires t in p.threads && p.threads[t].Runner? && p.threads[t].rpc in {RSetParam, RSetStatus}
    ensures var q := Do(p, Move(t, choice));
            && q.lock == p.lock && q.stack == p.stack && q.top == p.top && q.fate == p.fate
            && (forall k :: k != p.threads[t].block ==> At(q, k) == At(p, k))
            && (forall i :: Parked(q, i) == Parked(p, i))
            && t in q.threads && q.threads == p.threads[t := q.threads[t]]
            && q.threads[t] == p.threads[t].(rpc := if p.threads[t].rpc == RSetParam then RSetWait else RHanded)
  {
  }

  lemma RunFillOthersOk(p: Pool, t: nat, choice: Choice, k: nat)
    requires Inv(p) && t in p.threads && p.threads[t].Runner? && p.threads[t].rpc in {RSetParam, RSetStatus}
    requires k in p.threads && k != t && k != p.threads[t].block
    ensures ThreadOk(Do(p, Move(t, choice)), k)
  {
    hide ParkedOk, Parked, At, Do;
    RunFills(p, t, choice);
    assert ThreadOk(p, t) && ThreadOk(p, k);
  }

  lemma ParkedSame(p: Pool, q: Pool)
    requires p.stack == q.stack
    ensures forall i :: Parked(q, i) == Parked(p, i)
  {
  }

  lemma RunFillOk(p: Pool, t: nat, choice: Choice, k: nat)
    requires Inv(p) && t in p.threads && p.threads[t].Runner? && p.threads[t].rpc in {RSetParam, RSetStatus}
             && k in p.threads
    ensures ThreadOk(Do(p, Move(t, choice)), k)
  {
    hide ThreadOk, Do, Inv;
    RunFillTargetOk(p, t, choice);
    if k != t && k != p.threads[t].block {
      RunFillOthersOk(p, t, choice, k);
    }
  }

  lemma RunFillParkedOk(p: Pool, t: nat, choice: Choice, i: nat)
    requires Inv(p) && t in p.threads && p.threads[t].Runner? && p.threads[t].rpc in {RSetParam, RSetStatus}
             && i <= p.top
    ensures ParkedOk(Do(p, Move(t, choice)), i)
  {
    hide TakenOk, WaiterOk, RunnerOk, CancellerOk;
    assert ThreadOk(p, t) && ParkedOk(p, i);
  }

  lemma RunKeepsInv(p: Pool, t: nat, choice: Choice)
    requires Inv(p) && t in p.threads && p.threads[t].Runner?
    ensures Inv(Do(p, Move(t, choice)))
  {
    hide ThreadOk, ParkedOk, At;
    var q := Do(p, Move(t, choice));
    var rpc := p.threads[t].rpc;
    if rpc !in {RPop, RSetParam, RSetStatus} {
      RunQuietIsFramed(p, t, choice);
    } else if rpc == RPop {
      var b := RunPopTakes(p, t);
    }
    forall i: nat | i <= q.top ensures ParkedOk(q, i) {
      if rpc == RPop {
        RunPopParkedOk(p, t, choice, i);
      } else if rpc in {RSetParam, RSetStatus} {
        RunFillParkedOk(p, t, choice, i);
      } else {
        QuietParkedOk(p, q, t, i);
      }
    }
    forall k | k in q.threads ensures ThreadOk(q, k) {
      if rpc == RPop {
        RunPopOk(p, t, choice, k);
      } else if rpc in {RSetParam, RSetStatus} {
        RunFillOk(p, t, choice, k);
      } else if k != t {
        RunQuietOthersOk(p, q, t, k);
      }
    }
  }

  // ---------------------------------------------------------------- the canceller's steps

  /** The block the canceller works on: parked, and untaken until its first write. */
  lemma CancelTarget(p: Pool, t: nat) returns (b: nat)
    requires Inv(p) && t in p.threads && p.threads[t].Canceller?
             && p.threads[t].cpc in {CSetParam, CSetWait, CSetStatus}
    ensures 0 <= p.threads[t].i <= p.top && b == p.stack[p.threads[t].i] == Parked(p, p.threads[t].i)
    ensures b != t && Spinning(p, b) && b in p.fate && p.lock == Held(t) && At(p, b).status == Suspend
    ensures p.fate[b] == if p.threads[t].cpc == CSetParam then Untaken else ByCanceller(t)
    ensures p.threads[b].at == p.threads[t].i
  {
    assert ThreadOk(p, t);
    assert ParkedOk(p, p.threads[t].i);
    b := p.stack[p.threads[t].i];
    assert ThreadOk(p, b);
  }

  lemma CancelWriteTargetOk(p: Pool, t: nat, choice: Choice)
    requires Inv(p) && t in p.threads && p.threads[t].Canceller?
             && p.threads[t].cpc in {CSetParam, CSetWait, CSetStatus}
    ensures var q, b := Do(p, Move(t, choice)), Parked(p, p.threads[t].i);
            b in p.threads && b != t && ThreadOk(q, b) && ThreadOk(q, t)
  {
    hide ParkedOk, RunnerOk;
    var b := CancelTarget(p, t);
    assert ThreadOk(p, t) && ThreadOk(p, b);
    var i := p.threads[t].i;
    if p.threads[t].cpc == CSetStatus && i < p.threads[t].last {
      assert Parked(p, i + 1) != b by {
        NextParkedDiffers(p, i);
      }
    }
  }

  lemma NextParkedDiffers(p: Pool, i: int)
    requires Inv(p) && 0 <= i < p.top
    ensures Parked(p, i + 1) != Parked(p, i)
  {
    assert ParkedOk(p, i) && ParkedOk(p, i + 1);
  }

  /** What one of the canceller's writes changes, and what it leaves. */
  lemma CancelWrites(p: Pool, t: nat, choice: Choice)
    requires t in p.threads && p.threads[t].Canceller? && p.threads[t].cpc in {CSetParam, CSetWait, CSetStatus}
    ensures var q, b := Do(p, Move(t, choice)), Parked(p, p.threads[t].i);
            && q.lock == p.lock && q.stack == p.stack && q.top == p.top
            && (forall k :: k != b ==> At(q, k) == At(p, k)) && (forall i :: Parked(q, i) == Parked(p, i))
            && q.fate == (if p.threads[t].cpc == CSetParam then p.fate[b := ByCanceller(t)] else p.fate)
            && t in q.threads && q.threads == p.threads[t := q.threads[t]]
            && q.threads[t].Canceller? && q.threads[t].last == p.threads[t].last
            && (q.threads[t].cpc in {CSetWait, CSetStatus} ==> q.threads[t].i == p.threads[t].i)
  {
  }

  lemma CancelWriteOthersOk(p: Pool, t: nat, choice: Choice, k: nat)
    requires Inv(p) && t in p.threads && p.threads[t].Canceller?
             && p.threads[t].cpc in {CSetParam, CSetWait, CSetStatus}
    requires k in p.threads && k != t && k != Parked(p, p.threads[t].i)
    ensures ThreadOk(Do(p, Move(t, choice)), k)
  {
    hide ParkedOk, Parked, At;
    var b := CancelTarget(p, t);
    CancelWrites(p, t, choice);
    assert ThreadOk(p, t) && ThreadOk(p, k);
  }

  lemma CancelWriteParkedOk(p: Pool, t: nat, choice: Choice, i: nat)
    requires Inv(p) && t in p.threads && p.threads[t].Canceller?
             && p.threads[t].cpc in {CSetParam, CSetWait, CSetStatus}
    requires i <= p.top
    ensures ParkedOk(Do(p, Move(t, choice)), i)
  {
    hide TakenOk, WaiterOk, RunnerOk;
    var b := CancelTarget(p, t);
    assert ThreadOk(p, t) && ParkedOk(p, i) && ParkedOk(p, p.threads[t].i);
  }

  /** Taking and releasing the lock. */
  lemma CancelLockIsFramed(p: Pool, t: nat, choice: Choice)
    requires Inv(p) && t in p.threads && p.threads[t].Canceller? && p.threads[t].cpc in {CLock, CUnlock, CDone}
    ensures var q := Do(p, Move(t, choice));
            t in q.threads && QuietFrame(p, q, t) && ThreadOk(q, t)
            && q.threads[t].Canceller? && q.threads[t].cpc !in {CSetWait, CSetStatus}
  {
    hide ParkedOk, WaiterOk, RunnerOk;
    assert ThreadOk(p, t);
  }

  lemma CancelLockOthersOk(p: Pool, q: Pool, t: nat, k: nat)
    requires Inv(p) && t in p.threads && p.threads[t].Canceller? && p.threads[t].cpc in {CLock, CUnlock, CDone}
    requires t in q.threads && QuietFrame(p, q, t) && q.threads[t].Canceller?
             && q.threads[t].cpc !in {CSetWait, CSetStatus}
    requires k in p.threads && k != t
    ensures ThreadOk(q, k)
  {
    hide At, ParkedOk, Parked;
    ParkedSame(p, q);
    assert ThreadOk(p, t) && ThreadOk(p, k);
  }

  /** Emptying the stack: every block on it has been cancelled. */
  lemma CancelResetOk(p: Pool, t: nat, choice: Choice, k: nat)
    requires Inv(p) && t in p.threads && p.threads[t].Canceller? && p.threads[t].cpc == CReset
    requires k in p.threads
    ensures ThreadOk(Do(p, Move(t, choice)), k)
  {
    hide Parked;
    assert ThreadOk(p, t) && ThreadOk(p, k);
    ParkedSame(p, Do(p, Move(t, choice)));
    if p.threads[k].Waiter? && p.fate[k] == Untaken && p.threads[k].at <= p.top {
      assert ParkedOk(p, p.threads[k].at);
    }
  }

  lemma CancelQuietOk(p: Pool, t: nat, choice: Choice, k: nat)
    requires Inv(p) && t in p.threads && p.threads[t].Canceller? && p.threads[t].cpc in {CLock, CReset, CUnlock, CDone}
    requires k in p.threads
    ensures ThreadOk(Do(p, Move(t, choice)), k)
  {
    hide Do, Inv, ThreadOk;
    if p.threads[t].cpc == CReset {
      CancelResetOk(p, t, choice, k);
    } else {
      CancelLockIsFramed(p, t, choice);
      if k != t {
        CancelLockOthersOk(p, Do(p, Move(t, choice)), t, k);
      }
    }
  }

  lemma CancelQuietParkedOk(p: Pool, t: nat, choice: Choice, i: nat)
    requires Inv(p) && t in p.threads && p.threads[t].Canceller? && p.threads[t].cpc in {CLock, CReset, CUnlock, CDone}
    requires i <= Do(p, Move(t, choice)).top
    ensures ParkedOk(Do(p, Move(t, choice)), i)
  {
    hide TakenOk, WaiterOk, RunnerOk;
    assert ThreadOk(p, t) && ParkedOk(p, i);
  }

  lemma CancelKeepsInv(p: Pool, t: nat, choice: Choice)
    requires Inv(p) && t in p.threads && p.threads[t].Canceller?
    ensures Inv(Do(p, Move(t, choice)))
  {
    hide ThreadOk, ParkedOk, At;
    var q := Do(p, Move(t, choice));
    var writing := p.threads[t].cpc in {CSetParam, CSetWait, CSetStatus};
    if writing {
      CancelWriteTargetOk(p, t, choice);
    }
    forall i: nat | i <= q.top ensures ParkedOk(q, i) {
      if writing {
        CancelWriteParkedOk(p, t, choice, i);
      } else {
        CancelQuietParkedOk(p, t, choice, i);
      }
    }
    forall k | k in q.threads ensures ThreadOk(q, k) {
      if !writing {
        CancelQuietOk(p, t, choice, k);
      } else if k != t && k != Parked(p, p.threads[t].i) {
        CancelWriteOthersOk(p, t, choice, k);
      }
    }
  }

  // ---------------------------------------------------------------- every run

  lemma DoKeepsInv(p: Pool, a: Action)
    requires Inv(p) && Enabled(p, a)
    ensures Inv(Do(p, a))
  {
    hide Inv, Do;
    match a {
      case Spawn(t, th) => SpawnKeepsInv(p, t, th);
      case Move(t, choice) =>
        match p.threads[t] {
          case Waiter(_, _) => WaitKeepsInv(p, t, choice);
          case Runner(_, _, _) => RunKeepsInv(p, t, choice);
          case Canceller(_, _, _) => CancelKeepsInv(p, t, choice);
        }
    }
  }

  /** `run` is the sequence of pools some interleaving passes through. */
  ghost predicate IsRun(run: seq<Pool>, actions: seq<Action>) {
    && |run| == |actions| + 1
    && Init(run[0])
    && forall i :: 0 <= i < |actions| ==> Enabled(run[i], actions[i]) && run[i + 1] == Do(run[i], actions[i])
  }

  lemma {:induction false} RunInv(run: seq<Pool>, actions: seq<Action>, n: nat)
    requires IsRun(run, actions) && n < |run|
    ensures Inv(run[n])
  {
    hide Do, Enabled;
    if n > 0 {
      RunInv(run, actions, n - 1);
      DoKeepsInv(run[n - 1], actions[n - 1]);
    }
  }

  /** The stack pointer stays within the pool, in every state of every run. */
  lemma PointerInRange(run: seq<Pool>, actions: seq<Action>, n: nat)
    requires IsRun(run, actions) && n < |run|
    ensures -1 <= run[n].top <= |run[n].stack| - 1
  {
    RunInv(run, actions, n);
  }

  /** A pop or a cancellation is for good, and so the only one in the whole run. */
  lemma FateIsFinal(p: Pool, a: Action, b: nat)
    requires Inv(p) && Enabled(p, a) && b in p.threads && b in p.fate && p.fate[b] != Untaken
    ensures b in Do(p, a).fate && Do(p, a).fate[b] == p.fate[b]
  {
    hide ThreadOk, ParkedOk;
    match a {
      case Spawn(t, th) =>
      case Move(t, choice) =>
        match p.threads[t] {
          case Waiter(_, _) =>
          case Runner(pc, _, _) => if pc == RPop { var x := RunPopTakes(p, t); }
          case Canceller(pc, _, _) => if pc == CSetParam { var x := CancelTarget(p, t); }
        }
    }
  }

  lemma {:induction false} TakenOnce(run: seq<Pool>, actions: seq<Action>, m: nat, n: nat, b: nat)
    requires IsRun(run, actions) && m <= n < |run|
    requires b in run[m].threads && b in run[m].fate && run[m].fate[b] != Untaken
    ensures b in run[n].threads && b in run[n].fate && run[n].fate[b] == run[m].fate[b]
    decreases n - m
  {
    hide Do, Enabled, Inv;
    if m < n {
      TakenOnce(run, actions, m, n - 1, b);
      RunInv(run, actions, n - 1);
      FateIsFinal(run[n - 1], actions[n - 1], b);
      ThreadsStay(run[n - 1], actions[n - 1], b);
    }
  }

  lemma ThreadsStay(p: Pool, a: Action, b: nat)
    requires Enabled(p, a) && b in p.threads
    ensures b in Do(p, a).threads
  {
    hide WaitStep, RunStep, CancelStep;
    if a.Move? {
      match p.threads[a.t] {
        case Waiter(_, _) => WaitersStay(p, a.t, a.choice, b);
        case Runner(_, _, _) => RunnersStay(p, a.t, a.choice, b);
        case Canceller(_, _, _) => CancellersStay(p, a.t, a.choice, b);
      }
    }
  }

  lemma WaitersStay(p: Pool, t: nat, choice: Choice, b: nat)
    requires t in p.threads && p.threads[t].Waiter? && b in p.threads
    ensures b in WaitStep(p, t, p.threads[t], choice).threads
  {
    hide At, Parked;
  }

  lemma RunnersStay(p: Pool, t: nat, choice: Choice, b: nat)
    requires t in p.threads && p.threads[t].Runner? && b in p.threads
    ensures b in RunStep(p, t, p.threads[t], choice).threads
  {
    hide At, Parked;
  }

  lemma CancellersStay(p: Pool, t: nat, choice: Choice, b: nat)
    requires t in p.threads && p.threads[t].Canceller? && b in p.threads
    ensures b in CancelStep(p, t, p.threads[t], choice).threads
  {
    hide At, Parked;
  }

  /** Two tasks never share a waiting thread: a block in two runners' hands is in one runner's. */
  lemma HandsAreDisjoint(run: seq<Pool>, actions: seq<Action>, n: nat, r: nat, s: nat)
    requires IsRun(run, actions) && n < |run|
    requires r in run[n].threads && s in run[n].threads && Popped(run[n].threads[r]) && Popped(run[n].threads[s])
    requires run[n].threads[r].block == run[n].threads[s].block
    ensures r == s
  {
    RunInv(run, actions, n);
    assert ThreadOk(run[n], r) && ThreadOk(run[n], s);
  }

  /** The hand-off: a thread that was resumed read the parameter of the one task that popped it; one
      that was cancelled was marked by a canceller and popped by nobody; no other way out of the
      spin exists. */
  lemma HandOff(run: seq<Pool>, actions: seq<Action>, n: nat, w: nat)
    requires IsRun(run, actions) && n < |run|
    requires w in run[n].threads && run[n].threads[w].Waiter? && run[n].threads[w].wpc.WLeft?
    ensures var p := run[n];
            match p.threads[w].wpc.outcome
            case Resumed(v) =>
              exists r :: r in p.threads && Popped(p.threads[r]) && p.threads[r].rpc == RHanded
                          && p.threads[r].block == w && p.threads[r].task == v
                          && forall s :: s in p.threads && Popped(p.threads[s]) && p.threads[s].block == w ==> s == r
            case Cancelled => forall s :: s in p.threads && Popped(p.threads[s]) ==> p.threads[s].block != w
            case BadStatus => false
            case _ => forall s :: s in p.threads && Popped(p.threads[s]) ==> p.threads[s].block != w
  {
    RunInv(run, actions, n);
    var p := run[n];
    assert ThreadOk(p, w);
    forall s | s in p.threads && Popped(p.threads[s]) && p.threads[s].block == w ensures p.fate[w] == ByRunner(s) {
      assert ThreadOk(p, s);
    }
  }

  /** The block an action writes, if it writes one. */
  function Written(p: Pool, a: Action): set<nat>
    requires Enabled(p, a)
  {
    if a.Spawn? then {} else
    match p.threads[a.t]
    case Waiter(pc, _) =>
      if pc in {WSetWait, WSetStatus, WSetParam} then {a.t}
      else if pc == WPre && p.top > 0 then {Parked(p, p.top - 1)} else {}
    case Runner(pc, _, b) =>
      if pc in {RSetParam, RSetWait, RSetStatus} then {b}
      else if pc == RPre && p.top >= 0 then {Parked(p, p.top)} else {}
    case Canceller(pc, i, _) =>
      if pc in {CSetParam, CSetWait, CSetStatus} then {Parked(p, i)} else {}
  }

  /** The other blocks keep every field. */
  lemma OnlyWrittenChange(p: Pool, a: Action, b: nat)
    requires Enabled(p, a) && b !in Written(p, a)
    ensures At(Do(p, a), b) == At(p, b)
  {
    hide Parked;
    if a.Move? {
      match p.threads[a.t] {
        case Waiter(_, _) => assert Do(p, a) == WaitStep(p, a.t, p.threads[a.t], a.choice);
        case Runner(_, _, _) => assert Do(p, a) == RunStep(p, a.t, p.threads[a.t], a.choice);
        case Canceller(_, _, _) => assert Do(p, a) == CancelStep(p, a.t, p.threads[a.t], a.choice);
      }
    }
  }

  /** No block is written once its waiter has left: its memory is the leaver's stack frame. */
  lemma NoWriteAfterLeaving(run: seq<Pool>, actions: seq<Action>, n: nat, b: nat)
    requires IsRun(run, actions) && n < |actions| && b in Written(run[n], actions[n])
    ensures b in run[n].threads && IsParked(run[n].threads[b])
  {
    RunInv(run, actions, n);
    WrittenIsParked(run[n], actions[n], b);
  }

  lemma WrittenIsParked(p: Pool, a: Action, b: nat)
    requires Inv(p) && Enabled(p, a) && b in Written(p, a)
    ensures b in p.threads && IsParked(p.threads[b])
  {
    hide TakenOk;
    var t := a.t;
    assert ThreadOk(p, t);
    if p.threads[t].Canceller? {
      var x := CancelTarget(p, t);
    } else if p.threads[t].Waiter? && p.threads[t].wpc == WPre {
      assert ParkedOk(p, p.top - 1);
    } else if p.threads[t].Runner? && p.threads[t].rpc == RPre {
      assert ParkedOk(p, p.top);
    }
  }
}
