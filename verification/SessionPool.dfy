/**
 * The pool of client sessions as a state machine: threads that accept, complete I/O and return
 * sessions take their steps in any order, each step one atomic access to what they share.
 */
module SessionPool {
  const MAX_CONNECTION: nat := 10000
  const TWO_64: nat := 0x1_0000_0000_0000_0000

  type Id = s: nat | s < MAX_CONNECTION

  // ----- the state -----

  /** What an I/O context is for. */
  datatype IoType = IoAccept | IoDisconnect | IoOther

  /**
   * A session: its reference count and flag; whether the reference taken when it was issued is still
   * held; and how many of its I/O contexts are on their way.
   */
  datatype Session = Session(refCount: int, connected: bool, issueRef: bool, accepts: nat, disconnects: nat,
                             others: nat)

  /** Where a thread stands; the session it works on; for a completion, whether it has been dealt with. */
  datatype Thread =
    | Idle
    // AcceptClientSessions
    | Entering
    | Testing
    | Popping
    | CountingIssue(s: Id)
    | AddingIssueRef(s: Id)
    | CreatingAccept(s: Id)
    | CallingAcceptEx(s: Id)
    | DeletingAccept(s: Id)
    | Leaving
    // completion of an I/O context
    | Handling(s: Id, io: IoType, completed: bool)
    | CreatingDisconnect(s: Id, io: IoType, completed: bool)
    | Posting(s: Id, io: IoType, completed: bool, next: IoType)
    // FlushSend of a session the thread holds no context of
    | Flushing(s: Id)
    | Sending(s: Id)
    | Disconnecting(s: Id)
    | CreatingFlushDisconnect(s: Id)
    | PostingFlushDisconnect(s: Id)
    // ReturnClientSession
    | Returning(s: Id)
    | Checking(s: Id)
    | Resetting(s: Id)
    | Pushing(s: Id)
    | CountingReturn(s: Id)

  datatype Pool = Pool(
    lockFlag: bool, free: seq<Id>, issueCount: nat, returnCount: nat, sessions: seq<Session>, threads: seq<Thread>)

  predicate Shaped(v: Pool) {
    |v.sessions| == MAX_CONNECTION && v.issueCount < TWO_64 && v.returnCount < TWO_64
  }

  /** The difference of the two counters in 64-bit arithmetic. */
  function Outstanding(v: Pool): nat {
    (v.issueCount - v.returnCount) % TWO_64
  }

  /** The state when the sessions have been prepared and no thread has started to use them. */
  predicate Init(v: Pool) {
    && v == Pool(false, v.free, 0, 0, v.sessions, v.threads)
    && |v.free| == MAX_CONNECTION && (forall i :: 0 <= i < MAX_CONNECTION ==> v.free[i] == i)
    && v.sessions == seq(MAX_CONNECTION, i => Session(0, false, false, 0, 0, 0))
    && forall t :: 0 <= t < |v.threads| ==> v.threads[t] == Idle
  }

  // ----- the steps -----

  /** What the scheduler and the operating system choose. */
  datatype Action =
    | StartAccept
    | Go
    | Succeed
    | Fail
    | Dequeue(session: Id, io: IoType)
    | Post
    | RequestDisconnect
    | Finish
    | Flush(session: Id)

  datatype Failure = EmptyList | AssertionFailed | OwnLockAwaited
  datatype Outcome = Blocked | Went(pool: Pool) | Broken(why: Failure)

  function Moved(v: Pool, t: nat, next: Thread): Pool
    requires Shaped(v) && t < |v.threads|
  {
    v.(threads := v.threads[t := next])
  }

  function Changed(v: Pool, s: Id, session: Session): Pool
    requires Shaped(v)
  {
    v.(sessions := v.sessions[s := session])
  }

  /** One step of thread `t`. */
  function Step(v: Pool, t: nat, a: Action): (o: Outcome)
    requires Shaped(v) && t < |v.threads|
    ensures o.Went? ==> Shaped(o.pool) && |o.pool.threads| == |v.threads|
  {
    match v.threads[t]
    case Idle => StepIdle(v, t, a)
    case Entering => if a.Go? then Lock(v, t, Testing) else Blocked
    case Returning(s) => if a.Go? then Lock(v, t, Checking(s)) else Blocked
    case Leaving => if a.Go? then Went(Moved(v, t, Idle).(lockFlag := false)) else Blocked
    case Handling(_, _, _) => StepHandling(v, t, a)
    case CreatingDisconnect(_, _, _) => StepHandling(v, t, a)
    case Posting(_, _, _, _) => StepHandling(v, t, a)
    case Flushing(_) => StepFlushing(v, t, a)
    case Sending(_) => StepFlushing(v, t, a)
    case Disconnecting(_) => StepFlushing(v, t, a)
    case CreatingFlushDisconnect(_) => StepFlushing(v, t, a)
    case PostingFlushDisconnect(_) => StepFlushing(v, t, a)
    case Checking(_) => StepReturning(v, t, a)
    case Resetting(_) => StepReturning(v, t, a)
    case Pushing(_) => StepReturning(v, t, a)
    case CountingReturn(_) => StepReturning(v, t, a)
    case _ => StepAccepting(v, t, a)
  }

  /** An exchange on the lock flag: whoever finds it clear is in, everyone else tries again. */
  function Lock(v: Pool, t: nat, next: Thread): (o: Outcome)
    requires Shaped(v) && t < |v.threads|
    ensures o.Went? ==> Shaped(o.pool) && |o.pool.threads| == |v.threads|
  {
    if v.lockFlag then Went(v) else Went(Moved(v, t, next).(lockFlag := true))
  }

  function OnTheirWay(x: Session, io: IoType): nat {
    match io
    case IoAccept => x.accepts
    case IoDisconnect => x.disconnects
    case IoOther => x.others
  }

  function Taken(x: Session, io: IoType): Session
    requires OnTheirWay(x, io) > 0
  {
    match io
    case IoAccept => x.(accepts := x.accepts - 1)
    case IoDisconnect => x.(disconnects := x.disconnects - 1)
    case IoOther => x.(others := x.others - 1)
  }

  /** An idle thread starts to accept, takes a finished I/O context, or flushes what it has queued for a session. */
  function StepIdle(v: Pool, t: nat, a: Action): (o: Outcome)
    requires Shaped(v) && t < |v.threads| && v.threads[t].Idle?
    ensures o.Went? ==> Shaped(o.pool) && |o.pool.threads| == |v.threads|
  {
    match a
    case StartAccept => Went(Moved(v, t, Entering))
    case Dequeue(s, io) =>
      var x := v.sessions[s];
      if OnTheirWay(x, io) == 0 then Blocked
      else Went(Moved(Changed(v, s, Taken(x, io)), t, Handling(s, io, false)))
    case Flush(s) => Went(Moved(v, t, if v.sessions[s].connected then Flushing(s) else Disconnecting(s)))
    case _ => Blocked
  }

  /** AcceptClientSessions and PostAccept, with the lock held. */
  function StepAccepting(v: Pool, t: nat, a: Action): (o: Outcome)
    requires Shaped(v) && t < |v.threads|
    ensures o.Went? ==> Shaped(o.pool) && |o.pool.threads| == |v.threads|
  {
    match v.threads[t]
    case Testing =>
      if !a.Go? then Blocked
      else Went(Moved(v, t, if Outstanding(v) < MAX_CONNECTION then Popping else Leaving))
    case Popping =>
      if !a.Go? then Blocked
      else if v.free == [] then Broken(EmptyList)
      else Went(Moved(v, t, CountingIssue(v.free[|v.free| - 1])).(free := v.free[..|v.free| - 1]))
    case CountingIssue(s) =>
      if !a.Go? then Blocked
      else Went(Moved(v, t, AddingIssueRef(s)).(issueCount := (v.issueCount + 1) % TWO_64))
    case AddingIssueRef(s) =>
      if !a.Go? then Blocked
      else
        var x := v.sessions[s];
        if x.refCount + 1 <= 0 then Broken(AssertionFailed)
        else Went(Moved(Changed(v, s, x.(refCount := x.refCount + 1, issueRef := true)), t, CreatingAccept(s)))
    case CreatingAccept(s) =>
      if !a.Go? then Blocked
      else
        var x := v.sessions[s];
        if x.refCount + 1 <= 0 then Broken(AssertionFailed)
        else Went(Moved(Changed(v, s, x.(refCount := x.refCount + 1)), t, CallingAcceptEx(s)))
    case CallingAcceptEx(s) =>
      if a.Succeed? then
        var x := v.sessions[s];
        Went(Moved(Changed(v, s, x.(accepts := x.accepts + 1)), t, Testing))
      else if a.Fail? then Went(Moved(v, t, DeletingAccept(s)))
      else Blocked
    case DeletingAccept(s) =>
      if !a.Go? then Blocked
      else
        var x := v.sessions[s];
        if x.refCount - 1 < 0 then Broken(AssertionFailed)
        else if x.refCount - 1 == 0 then Broken(OwnLockAwaited)
        else Went(Moved(Changed(v, s, x.(refCount := x.refCount - 1)), t, Leaving))
    case _ => Blocked
  }

  /**
   * A thread that handles the completion of an I/O context. It may disconnect the session and post more
   * I/O for it. A count that drops to zero before the context itself is deleted would go below zero then.
   */
  function StepHandling(v: Pool, t: nat, a: Action): (o: Outcome)
    requires Shaped(v) && t < |v.threads|
    ensures o.Went? ==> Shaped(o.pool) && |o.pool.threads| == |v.threads|
  {
    match v.threads[t]
    case Handling(s, io, completed) =>
      var x := v.sessions[s];
      (match a
       case Go =>
         if completed then Blocked
         else if io.IoAccept? then
           if x.connected then Broken(AssertionFailed)
           else Went(Moved(Changed(v, s, x.(connected := true)), t, Handling(s, io, true)))
         else if io.IoDisconnect? then
           if x.refCount - 1 <= 0 then Broken(AssertionFailed)
           else Went(Moved(Changed(v, s, x.(refCount := x.refCount - 1, issueRef := false)), t, Handling(s, io, true)))
         else Went(Moved(v, t, Handling(s, io, true)))
       case RequestDisconnect =>
         if !x.connected then Went(v)
         else Went(Moved(Changed(v, s, x.(connected := false)), t, CreatingDisconnect(s, io, completed)))
       case Post =>
         if x.refCount + 1 <= 0 then Broken(AssertionFailed)
         else Went(Moved(Changed(v, s, x.(refCount := x.refCount + 1)), t, Posting(s, io, completed, IoOther)))
       case Finish =>
         if !completed then Blocked
         else if x.refCount - 1 < 0 then Broken(AssertionFailed)
         else
           var next := if x.refCount - 1 == 0 then Returning(s) else Idle;
           Went(Moved(Changed(v, s, x.(refCount := x.refCount - 1)), t, next))
       case _ => Blocked)
    case CreatingDisconnect(s, io, completed) =>
      if !a.Go? then Blocked
      else
        var x := v.sessions[s];
        if x.refCount + 1 <= 0 then Broken(AssertionFailed)
        else Went(Moved(Changed(v, s, x.(refCount := x.refCount + 1)), t, Posting(s, io, completed, IoDisconnect)))
    case Posting(s, io, completed, next) =>
      var x := v.sessions[s];
      if a.Succeed? then
        var y := if next.IoDisconnect? then x.(disconnects := x.disconnects + 1) else x.(others := x.others + 1);
        Went(Moved(Changed(v, s, y), t, Handling(s, io, completed)))
      else if a.Fail? then
        if x.refCount - 1 <= 0 then Broken(AssertionFailed)
        else Went(Moved(Changed(v, s, x.(refCount := x.refCount - 1)), t, Handling(s, io, completed)))
      else Blocked
    case _ => Blocked
  }

  /**
   * FlushSend, after the session was seen to be connected or not. There may be nothing to send; otherwise a
   * context is created for the send, and deleted if the send fails. All this happens under the lock of the
   * send buffer, which resetting the session would take again.
   */
  function StepFlushing(v: Pool, t: nat, a: Action): (o: Outcome)
    requires Shaped(v) && t < |v.threads|
    ensures o.Went? ==> Shaped(o.pool) && |o.pool.threads| == |v.threads|
  {
    match v.threads[t]
    case Flushing(s) =>
      var x := v.sessions[s];
      if a.Finish? then Went(Moved(v, t, Idle))
      else if !a.Go? then Blocked
      else if x.refCount + 1 <= 0 then Broken(AssertionFailed)
      else Went(Moved(Changed(v, s, x.(refCount := x.refCount + 1)), t, Sending(s)))
    case Sending(s) =>
      var x := v.sessions[s];
      if a.Succeed? then Went(Moved(Changed(v, s, x.(others := x.others + 1)), t, Idle))
      else if !a.Fail? then Blocked
      else if x.refCount - 1 < 0 then Broken(AssertionFailed)
      else if x.refCount - 1 == 0 then Broken(OwnLockAwaited)
      else Went(Moved(Changed(v, s, x.(refCount := x.refCount - 1)), t, Disconnecting(s)))
    case Disconnecting(s) =>
      var x := v.sessions[s];
      if !a.Go? then Blocked
      else if !x.connected then Went(Moved(v, t, Idle))
      else Went(Moved(Changed(v, s, x.(connected := false)), t, CreatingFlushDisconnect(s)))
    case CreatingFlushDisconnect(s) =>
      var x := v.sessions[s];
      if !a.Go? then Blocked
      else if x.refCount + 1 <= 0 then Broken(AssertionFailed)
      else Went(Moved(Changed(v, s, x.(refCount := x.refCount + 1)), t, PostingFlushDisconnect(s)))
    case PostingFlushDisconnect(s) =>
      var x := v.sessions[s];
      if a.Succeed? then Went(Moved(Changed(v, s, x.(disconnects := x.disconnects + 1)), t, Idle))
      else if !a.Fail? then Blocked
      else if x.refCount - 1 < 0 then Broken(AssertionFailed)
      else if x.refCount - 1 == 0 then Broken(OwnLockAwaited)
      else Went(Moved(Changed(v, s, x.(refCount := x.refCount - 1)), t, Idle))
    case _ => Blocked
  }

  /** ReturnClientSession, with the lock held. */
  function StepReturning(v: Pool, t: nat, a: Action): (o: Outcome)
    requires Shaped(v) && t < |v.threads|
    ensures o.Went? ==> Shaped(o.pool) && |o.pool.threads| == |v.threads|
  {
    if !a.Go? then Blocked
    else
      match v.threads[t]
      case Checking(s) =>
        if v.sessions[s].connected || v.sessions[s].refCount != 0 then Broken(AssertionFailed)
        else Went(Moved(v, t, Resetting(s)))
      case Resetting(s) =>
        Went(Moved(Changed(v, s, v.sessions[s].(connected := false, refCount := 0)), t, Pushing(s)))
      case Pushing(s) => Went(Moved(v, t, CountingReturn(s)).(free := v.free + [s]))
      case CountingReturn(s) => Went(Moved(v, t, Leaving).(returnCount := (v.returnCount + 1) % TWO_64))
      case _ => Blocked
  }

  // ----- what threads hold -----

  /** What is counted over all threads. */
  datatype What =
    | Refs      // references through I/O contexts
    | Tokens    // an accept or a disconnect yet to be completed
    | Claims    // a session taken from the list or about to go back to it
    | Inside    // being between EnterLock and LeaveLock
    | Popped    // a session popped but not counted
    | Pushed    // a session pushed but not counted

  function AsNat(b: bool): nat {
    if b then 1 else 0
  }

  function About(p: Thread, s: nat): bool {
    !p.Idle? && !p.Entering? && !p.Testing? && !p.Popping? && !p.Leaving? && p.s == s
  }

  /** An accept or disconnect whose completion has not been dealt with. */
  function Pending(io: IoType, completed: bool): nat {
    AsNat(!completed && !io.IoOther?)
  }

  function Weight(p: Thread, s: nat, w: What): nat {
    match w
    case Refs =>
      if !About(p, s) then 0
      else if p.Posting? then 2
      else AsNat(p.CallingAcceptEx? || p.DeletingAccept? || p.Handling? || p.CreatingDisconnect?
                 || p.Sending? || p.PostingFlushDisconnect?)
    case Tokens =>
      if !About(p, s) then 0
      else if p.Handling? then Pending(p.io, p.completed)
      else if p.CreatingDisconnect? then 1 + Pending(p.io, p.completed)
      else if p.Posting? then AsNat(p.next.IoDisconnect?) + Pending(p.io, p.completed)
      else AsNat(p.CreatingAccept? || p.CallingAcceptEx? || p.DeletingAccept?
                 || p.CreatingFlushDisconnect? || p.PostingFlushDisconnect?)
    case Claims =>
      if !About(p, s) then 0
      else AsNat(p.CountingIssue? || p.AddingIssueRef? || p.Returning? || p.Checking? || p.Resetting? || p.Pushing?)
    case Inside => AsNat(IsInside(p))
    case Popped => AsNat(p.CountingIssue?)
    case Pushed => AsNat(p.CountingReturn?)
  }

  /** The thread is between EnterLock and LeaveLock. */
  predicate IsInside(p: Thread) {
    && !p.Idle? && !p.Entering? && !p.Returning? && !p.Handling? && !p.CreatingDisconnect? && !p.Posting?
    && !p.Flushing? && !p.Sending? && !p.Disconnecting? && !p.CreatingFlushDisconnect? && !p.PostingFlushDisconnect?
  }

  function Held(threads: seq<Thread>, s: nat, w: What): nat {
    if threads == [] then 0
    else Held(threads[..|threads| - 1], s, w) + Weight(threads[|threads| - 1], s, w)
  }

  /** When one thread moves, the sum changes by what that thread held and holds. */
  lemma {:induction false} HeldMoves(threads: seq<Thread>, t: nat, p: Thread, s: nat, w: What)
    requires t < |threads|
    ensures Held(threads[t := p], s, w) + Weight(threads[t], s, w) == Held(threads, s, w) + Weight(p, s, w)
  {
    var n := |threads| - 1;
    if t == n {
      assert threads[t := p][..n] == threads[..n];
    } else {
      assert threads[t := p][..n] == threads[..n][t := p];
      HeldMoves(threads[..n], t, p, s, w);
    }
  }

  lemma {:induction false} HeldAtLeast(threads: seq<Thread>, t: nat, s: nat, w: What)
    requires t < |threads|
    ensures Held(threads, s, w) >= Weight(threads[t], s, w)
  {
    if t < |threads| - 1 {
      HeldAtLeast(threads[..|threads| - 1], t, s, w);
    }
  }

  lemma {:induction false} HeldByNone(threads: seq<Thread>, s: nat, w: What)
    requires forall t :: 0 <= t < |threads| ==> Weight(threads[t], s, w) == 0
    ensures Held(threads, s, w) == 0
  {
    if threads != [] {
      HeldByNone(threads[..|threads| - 1], s, w);
    }
  }

  /** With one thread inside the lock, the others hold nothing that needs the lock. */
  lemma {:induction false} OnlyInside(threads: seq<Thread>, t: nat, u: nat)
    requires t < |threads| && u < |threads| && t != u
    requires IsInside(threads[t]) && Held(threads, 0, Inside) <= 1
    ensures !IsInside(threads[u])
  {
    if IsInside(threads[u]) {
      HeldMoves(threads, t, Idle, 0, Inside);
      HeldAtLeast(threads[t := Idle], u, 0, Inside);
    }
  }

  lemma Moves(threads: seq<Thread>, t: nat, p: Thread, s: nat)
    requires t < |threads|
    ensures forall w: What ::
              && Held(threads[t := p], s, w) + Weight(threads[t], s, w) == Held(threads, s, w) + Weight(p, s, w)
              && Held(threads, s, w) >= Weight(threads[t], s, w)
  {
    forall w: What
      ensures Held(threads[t := p], s, w) + Weight(threads[t], s, w) == Held(threads, s, w) + Weight(p, s, w)
      ensures Held(threads, s, w) >= Weight(threads[t], s, w)
    {
      HeldMoves(threads, t, p, s, w);
      HeldAtLeast(threads, t, s, w);
    }
  }

  // ----- the invariant -----

  /**
   * The reference count is the number of references; a session has at most one of an accept, a
   * connection and a disconnect, and only while the reference of its issue is held; and a session is
   * in exactly one place: in the list, in use, or on its way with one thread.
   */
  predicate SessionInv(v: Pool, s: Id)
    requires Shaped(v)
  {
    var x := v.sessions[s];
    && x.refCount == AsNat(x.issueRef) + x.accepts + x.disconnects + x.others + Held(v.threads, s, Refs)
    && x.accepts + x.disconnects + AsNat(x.connected) + Held(v.threads, s, Tokens) <= AsNat(x.issueRef)
    && multiset(v.free)[s] + AsNat(x.refCount > 0) + Held(v.threads, s, Claims) == 1
  }

  predicate LockInv(v: Pool) {
    && Held(v.threads, 0, Inside) == AsNat(v.lockFlag)
    && forall t :: 0 <= t < |v.threads| && v.threads[t].Popping? ==> Outstanding(v) < MAX_CONNECTION
  }

  /** Free sessions and outstanding ones make up the pool, but for one just popped or pushed. */
  predicate Conserved(v: Pool) {
    |v.free| + Outstanding(v) + Held(v.threads, 0, Popped) == MAX_CONNECTION + Held(v.threads, 0, Pushed)
  }

  ghost predicate Inv(v: Pool) {
    Shaped(v) && LockInv(v) && Conserved(v) && forall s: Id :: SessionInv(v, s)
  }

  lemma {:induction false} Counted(free: seq<Id>, n: nat, s: Id)
    requires n <= |free| && forall i :: 0 <= i < n ==> free[i] == i
    ensures multiset(free[..n])[s] == AsNat(s < n)
  {
    if n > 0 {
      Counted(free, n - 1, s);
      assert free[..n] == free[..n - 1] + [free[n - 1]];
    }
  }

  lemma InitInv(v: Pool)
    requires Init(v)
    ensures Inv(v)
  {
    HeldByNone(v.threads, 0, Inside);
    HeldByNone(v.threads, 0, Popped);
    HeldByNone(v.threads, 0, Pushed);
    forall s: Id
      ensures SessionInv(v, s)
    {
      HeldByNone(v.threads, s, Refs);
      HeldByNone(v.threads, s, Tokens);
      HeldByNone(v.threads, s, Claims);
      Counted(v.free, MAX_CONNECTION, s);
      assert v.free[..MAX_CONNECTION] == v.free;
    }
  }

  /** A step on session `s` leaves the other sessions as they were. */
  lemma OthersKeep(v: Pool, w: Pool, t: nat, p: Thread, s: Id)
    requires Inv(v) && Shaped(w) && t < |v.threads| && w.threads == v.threads[t := p]
    requires forall k: Id :: k != s ==>
               && w.sessions[k] == v.sessions[k]
               && multiset(w.free)[k] == multiset(v.free)[k]
               && !About(v.threads[t], k)
               && !About(p, k)
    requires SessionInv(w, s)
    ensures forall k: Id :: SessionInv(w, k)
  {
    forall k: Id
      ensures SessionInv(w, k)
    {
      assert SessionInv(v, k);
      Moves(v.threads, t, p, k);
    }
  }

  /** A step that leaves the counters alone, or is taken inside the lock, keeps what the lock protects. */
  lemma LockKept(v: Pool, w: Pool, t: nat, p: Thread)
    requires Inv(v) && t < |v.threads| && w.threads == v.threads[t := p]
    requires AsNat(w.lockFlag) + AsNat(IsInside(v.threads[t])) == AsNat(v.lockFlag) + AsNat(IsInside(p))
    requires Outstanding(w) == Outstanding(v) || IsInside(v.threads[t])
    requires p.Popping? ==> Outstanding(w) < MAX_CONNECTION
    ensures LockInv(w)
  {
    Moves(v.threads, t, p, 0);
    forall u | 0 <= u < |w.threads| && w.threads[u].Popping?
      ensures Outstanding(w) < MAX_CONNECTION
    {
      if u != t && Outstanding(w) != Outstanding(v) {
        OnlyInside(v.threads, t, u);
      }
    }
  }

  /** What the step does to the list and the counters balances. */
  lemma ConservedKept(v: Pool, w: Pool, t: nat, p: Thread)
    requires Inv(v) && t < |v.threads| && w.threads == v.threads[t := p]
    requires |w.free| + Outstanding(w) + AsNat(p.CountingIssue?) + AsNat(v.threads[t].CountingReturn?)
          == |v.free| + Outstanding(v) + AsNat(v.threads[t].CountingIssue?) + AsNat(p.CountingReturn?)
    ensures Conserved(w)
  {
    Moves(v.threads, t, p, 0);
  }

  /** A thread inside the lock is the only one; nothing is popped or pushed by others meanwhile. */
  lemma {:induction false} AloneInside(threads: seq<Thread>, t: nat, w: What)
    requires t < |threads| && IsInside(threads[t]) && Held(threads, 0, Inside) <= 1
    requires w == Popped || w == Pushed
    ensures Held(threads, 0, w) == Weight(threads[t], 0, w)
  {
    var others := threads[t := Idle];
    forall u | 0 <= u < |others|
      ensures Weight(others[u], 0, w) == 0
    {
      if u != t {
        OnlyInside(threads, t, u);
      }
    }
    HeldByNone(others, 0, w);
    HeldMoves(threads, t, Idle, 0, w);
  }

  /** A step of thread `t` on session `s` that balances in everything that is counted. */
  lemma StepKeeps(v: Pool, w: Pool, t: nat, p: Thread, s: Id)
    requires Inv(v) && Shaped(w) && t < |v.threads| && w.threads == v.threads[t := p]
    requires forall k: Id :: k != s ==>
               && w.sessions[k] == v.sessions[k]
               && multiset(w.free)[k] == multiset(v.free)[k]
               && !About(v.threads[t], k)
               && !About(p, k)
    requires
      var x, y, was := w.sessions[s], v.sessions[s], v.threads[t];
      && x.refCount - y.refCount
         == AsNat(x.issueRef) - AsNat(y.issueRef) + x.accepts - y.accepts + x.disconnects - y.disconnects
            + x.others - y.others + Weight(p, s, Refs) - Weight(was, s, Refs)
      && x.accepts + x.disconnects + AsNat(x.connected) + Weight(p, s, Tokens) - AsNat(x.issueRef)
         <= y.accepts + y.disconnects + AsNat(y.connected) + Weight(was, s, Tokens) - AsNat(y.issueRef)
      && multiset(w.free)[s] + AsNat(x.refCount > 0) + Weight(p, s, Claims)
         == multiset(v.free)[s] + AsNat(y.refCount > 0) + Weight(was, s, Claims)
    requires AsNat(w.lockFlag) + AsNat(IsInside(v.threads[t])) == AsNat(v.lockFlag) + AsNat(IsInside(p))
    requires Outstanding(w) == Outstanding(v) || IsInside(v.threads[t])
    requires p.Popping? ==> Outstanding(w) < MAX_CONNECTION
    requires |w.free| + Outstanding(w) + AsNat(p.CountingIssue?) + AsNat(v.threads[t].CountingReturn?)
          == |v.free| + Outstanding(v) + AsNat(v.threads[t].CountingIssue?) + AsNat(p.CountingReturn?)
    ensures Inv(w)
  {
    hide Outstanding, Weight, About, LockInv, Conserved;
    Moves(v.threads, t, p, s);
    assert SessionInv(v, s);
    OthersKeep(v, w, t, p, s);
    LockKept(v, w, t, p);
    ConservedKept(v, w, t, p);
  }

  // ----- every step keeps the invariant and none breaks -----

  ghost predicate Fine(v: Pool, o: Outcome) {
    !o.Broken? && (o.Went? ==> Inv(o.pool) && |o.pool.threads| == |v.threads|)
  }

  lemma EnterFine(v: Pool, t: nat)
    requires Inv(v) && t < |v.threads| && v.threads[t].Entering?
    ensures Fine(v, Lock(v, t, Testing))
  {
    hide SessionInv, LockInv, Conserved, Held;
    if !v.lockFlag {
      StepKeeps(v, Moved(v, t, Testing).(lockFlag := true), t, Testing, 0);
    }
  }

  lemma EnterToReturnFine(v: Pool, t: nat)
    requires Inv(v) && t < |v.threads| && v.threads[t].Returning?
    ensures Fine(v, Lock(v, t, Checking(v.threads[t].s)))
  {
    hide SessionInv, LockInv, Conserved, Held;
    var s := v.threads[t].s;
    if !v.lockFlag {
      StepKeeps(v, Moved(v, t, Checking(s)).(lockFlag := true), t, Checking(s), s);
    }
  }

  lemma LeaveFine(v: Pool, t: nat)
    requires Inv(v) && t < |v.threads| && v.threads[t].Leaving?
    ensures Inv(Moved(v, t, Idle).(lockFlag := false))
  {
    hide SessionInv, Conserved;
    HeldAtLeast(v.threads, t, 0, Inside);
    StepKeeps(v, Moved(v, t, Idle).(lockFlag := false), t, Idle, 0);
  }

  /** A step that changes one session and one thread, not the lock, the list or the counters. */
  lemma SessionStepFine(v: Pool, t: nat, p: Thread, s: Id, x: Session)
    requires Inv(v) && t < |v.threads|
    requires forall k: Id :: k != s ==> !About(v.threads[t], k) && !About(p, k)
    requires IsInside(v.threads[t]) == IsInside(p)
    requires !v.threads[t].CountingIssue? && !v.threads[t].CountingReturn? && !p.CountingIssue? && !p.CountingReturn?
    requires p.Popping? ==> Outstanding(v) < MAX_CONNECTION
    requires
      var y := v.sessions[s];
      && x.refCount - y.refCount
         == AsNat(x.issueRef) - AsNat(y.issueRef) + x.accepts - y.accepts + x.disconnects - y.disconnects
            + x.others - y.others + Weight(p, s, Refs) - Weight(v.threads[t], s, Refs)
      && x.accepts + x.disconnects + AsNat(x.connected) + Weight(p, s, Tokens) - AsNat(x.issueRef)
         <= y.accepts + y.disconnects + AsNat(y.connected) + Weight(v.threads[t], s, Tokens) - AsNat(y.issueRef)
      && AsNat(x.refCount > 0) + Weight(p, s, Claims) == AsNat(y.refCount > 0) + Weight(v.threads[t], s, Claims)
    ensures Inv(Moved(Changed(v, s, x), t, p))
  {
    hide SessionInv, LockInv, Conserved, Weight, About, Held;
    StepKeeps(v, Moved(Changed(v, s, x), t, p), t, p, s);
  }

  /** A step that changes one thread only. */
  lemma ThreadStepFine(v: Pool, t: nat, p: Thread, s: Id)
    requires Inv(v) && t < |v.threads|
    requires forall k: Id :: k != s ==> !About(v.threads[t], k) && !About(p, k)
    requires IsInside(v.threads[t]) == IsInside(p)
    requires !v.threads[t].CountingIssue? && !v.threads[t].CountingReturn? && !p.CountingIssue? && !p.CountingReturn?
    requires p.Popping? ==> Outstanding(v) < MAX_CONNECTION
    requires Weight(p, s, Refs) == Weight(v.threads[t], s, Refs)
    requires Weight(p, s, Tokens) <= Weight(v.threads[t], s, Tokens)
    requires Weight(p, s, Claims) == Weight(v.threads[t], s, Claims)
    ensures Inv(Moved(v, t, p))
  {
    hide SessionInv, LockInv, Conserved, Weight, About, Held;
    SessionStepFine(v, t, p, s, v.sessions[s]);
    assert Changed(v, s, v.sessions[s]) == v;
  }

  lemma IdleFine(v: Pool, t: nat, a: Action)
    requires Inv(v) && t < |v.threads| && v.threads[t].Idle?
    ensures Fine(v, StepIdle(v, t, a))
  {
    hide SessionInv, LockInv, Conserved, Held, Outstanding;
    match a
    case StartAccept => ThreadStepFine(v, t, Entering, 0);
    case Dequeue(s, io) =>
      var x := v.sessions[s];
      if OnTheirWay(x, io) > 0 {
        SessionStepFine(v, t, Handling(s, io, false), s, Taken(x, io));
      }
    case Flush(s) => ThreadStepFine(v, t, if v.sessions[s].connected then Flushing(s) else Disconnecting(s), s);
    case _ =>
  }

  /** Whoever has passed the test finds a session in the list. */
  lemma NeverPopsEmpty(v: Pool, t: nat)
    requires Inv(v) && t < |v.threads| && v.threads[t].Popping?
    ensures |v.free| > 0
  {
    AloneInside(v.threads, t, Popped);
    AloneInside(v.threads, t, Pushed);
  }

  lemma PopFine(v: Pool, t: nat)
    requires Inv(v) && t < |v.threads| && v.threads[t].Popping?
    ensures Fine(v, StepAccepting(v, t, Go))
  {
    hide LockInv, Conserved, Held;
    NeverPopsEmpty(v, t);
    var s := v.free[|v.free| - 1];
    var p := CountingIssue(s);
    var w := Moved(v, t, p).(free := v.free[..|v.free| - 1]);
    assert v.free == w.free + [s];
    assert SessionInv(v, s);
    StepKeeps(v, w, t, p, s);
  }

  /** Counting an issue or a return moves the difference by one, also when a counter wraps around. */
  lemma CountersWrap(issued: nat, returned: nat)
    requires issued < TWO_64 && returned < TWO_64
    ensures
      var d := (issued - returned) % TWO_64;
      && (d + 1 < TWO_64 ==> ((issued + 1) % TWO_64 - returned) % TWO_64 == d + 1)
      && (d > 0 ==> (issued - (returned + 1) % TWO_64) % TWO_64 == d - 1)
  {
    Difference(issued, returned);
    Difference((issued + 1) % TWO_64, returned);
    Difference(issued, (returned + 1) % TWO_64);
  }

  lemma Difference(a: nat, b: nat)
    requires a < TWO_64 && b < TWO_64
    ensures (a - b) % TWO_64 == if a >= b then a - b else a - b + TWO_64
  {
  }

  /** Inside the lock the difference stays within the pool, give or take what is being counted. */
  lemma OutstandingInside(v: Pool, t: nat)
    requires Inv(v) && t < |v.threads| && IsInside(v.threads[t])
    ensures Outstanding(v) + |v.free| + AsNat(v.threads[t].CountingIssue?)
         == MAX_CONNECTION + AsNat(v.threads[t].CountingReturn?)
  {
    AloneInside(v.threads, t, Popped);
    AloneInside(v.threads, t, Pushed);
  }

  lemma CountIssueFine(v: Pool, t: nat)
    requires Inv(v) && t < |v.threads| && v.threads[t].CountingIssue?
    ensures Fine(v, StepAccepting(v, t, Go))
  {
    hide SessionInv, LockInv, Conserved, Held;
    var s := v.threads[t].s;
    var p := AddingIssueRef(s);
    OutstandingInside(v, t);
    CountersWrap(v.issueCount, v.returnCount);
    StepKeeps(v, Moved(v, t, p).(issueCount := (v.issueCount + 1) % TWO_64), t, p, s);
  }

  /** What a thread holds is counted in the session it works on. */
  lemma HoldsWhatItHas(v: Pool, t: nat, s: Id)
    requires Inv(v) && t < |v.threads|
    ensures
      var x := v.sessions[s];
      && x.refCount >= AsNat(x.issueRef) + Weight(v.threads[t], s, Refs)
      && x.accepts + x.disconnects + AsNat(x.connected) + Weight(v.threads[t], s, Tokens) <= AsNat(x.issueRef)
      && multiset(v.free)[s] + AsNat(x.refCount > 0) + Weight(v.threads[t], s, Claims) <= 1
  {
    assert SessionInv(v, s);
    HeldAtLeast(v.threads, t, s, Refs);
    HeldAtLeast(v.threads, t, s, Tokens);
    HeldAtLeast(v.threads, t, s, Claims);
  }

  lemma AddIssueRefFine(v: Pool, t: nat)
    requires Inv(v) && t < |v.threads| && v.threads[t].AddingIssueRef?
    ensures Fine(v, StepAccepting(v, t, Go))
  {
    hide SessionInv, LockInv, Conserved, Held, Outstanding;
    var s := v.threads[t].s;
    var x := v.sessions[s];
    HoldsWhatItHas(v, t, s);
    SessionStepFine(v, t, CreatingAccept(s), s, x.(refCount := x.refCount + 1, issueRef := true));
  }

  lemma CreateAcceptFine(v: Pool, t: nat)
    requires Inv(v) && t < |v.threads| && v.threads[t].CreatingAccept?
    ensures Fine(v, StepAccepting(v, t, Go))
  {
    hide SessionInv, LockInv, Conserved, Held, Outstanding;
    var s := v.threads[t].s;
    var x := v.sessions[s];
    HoldsWhatItHas(v, t, s);
    SessionStepFine(v, t, CallingAcceptEx(s), s, x.(refCount := x.refCount + 1));
  }

  lemma AcceptExFine(v: Pool, t: nat, a: Action)
    requires Inv(v) && t < |v.threads| && v.threads[t].CallingAcceptEx?
    ensures Fine(v, StepAccepting(v, t, a))
  {
    hide SessionInv, LockInv, Conserved, Held, Outstanding;
    var s := v.threads[t].s;
    var x := v.sessions[s];
    HoldsWhatItHas(v, t, s);
    if a.Succeed? {
      SessionStepFine(v, t, Testing, s, x.(accepts := x.accepts + 1));
    } else if a.Fail? {
      ThreadStepFine(v, t, DeletingAccept(s), s);
    }
  }

  /** Deleting the context of a failed accept leaves the reference of the issue, so nothing is released. */
  lemma DeleteAcceptFine(v: Pool, t: nat)
    requires Inv(v) && t < |v.threads| && v.threads[t].DeletingAccept?
    ensures v.sessions[v.threads[t].s].refCount >= 2
    ensures Fine(v, StepAccepting(v, t, Go))
  {
    hide SessionInv, LockInv, Conserved, Held, Outstanding;
    var s := v.threads[t].s;
    var x := v.sessions[s];
    HoldsWhatItHas(v, t, s);
    SessionStepFine(v, t, Leaving, s, x.(refCount := x.refCount - 1));
  }

  lemma TestFine(v: Pool, t: nat)
    requires Inv(v) && t < |v.threads| && v.threads[t].Testing?
    ensures Fine(v, StepAccepting(v, t, Go))
  {
    hide SessionInv, LockInv, Conserved, Held, Outstanding;
    ThreadStepFine(v, t, if Outstanding(v) < MAX_CONNECTION then Popping else Leaving, 0);
  }

  lemma CompletionFine(v: Pool, t: nat)
    requires Inv(v) && t < |v.threads| && v.threads[t].Handling?
    ensures Fine(v, StepHandling(v, t, Go))
  {
    hide SessionInv, LockInv, Conserved, Held, Outstanding;
    var s, io := v.threads[t].s, v.threads[t].io;
    var x := v.sessions[s];
    HoldsWhatItHas(v, t, s);
    if v.threads[t].completed {
    } else if io.IoAccept? {
      SessionStepFine(v, t, Handling(s, io, true), s, x.(connected := true));
    } else if io.IoDisconnect? {
      SessionStepFine(v, t, Handling(s, io, true), s, x.(refCount := x.refCount - 1, issueRef := false));
    } else {
      ThreadStepFine(v, t, Handling(s, io, true), s);
    }
  }

  lemma RequestDisconnectFine(v: Pool, t: nat)
    requires Inv(v) && t < |v.threads| && v.threads[t].Handling?
    ensures Fine(v, StepHandling(v, t, RequestDisconnect))
  {
    hide SessionInv, LockInv, Conserved, Held, Outstanding;
    var s := v.threads[t].s;
    var x := v.sessions[s];
    if x.connected {
      SessionStepFine(v, t, CreatingDisconnect(s, v.threads[t].io, v.threads[t].completed), s, x.(connected := false));
    }
  }

  lemma PostFine(v: Pool, t: nat)
    requires Inv(v) && t < |v.threads| && v.threads[t].Handling?
    ensures Fine(v, StepHandling(v, t, Post))
  {
    hide SessionInv, LockInv, Conserved, Held, Outstanding;
    var s := v.threads[t].s;
    var x := v.sessions[s];
    HoldsWhatItHas(v, t, s);
    SessionStepFine(v, t, Posting(s, v.threads[t].io, v.threads[t].completed, IoOther), s,
                    x.(refCount := x.refCount + 1));
  }

  /** The last reference gone, the session is this thread's alone to return. */
  lemma FinishFine(v: Pool, t: nat)
    requires Inv(v) && t < |v.threads| && v.threads[t].Handling?
    ensures Fine(v, StepHandling(v, t, Finish))
  {
    hide SessionInv, LockInv, Conserved, Held, Outstanding;
    var s := v.threads[t].s;
    var x := v.sessions[s];
    HoldsWhatItHas(v, t, s);
    if v.threads[t].completed {
      if x.refCount - 1 == 0 {
        SessionStepFine(v, t, Returning(s), s, x.(refCount := x.refCount - 1));
      } else {
        SessionStepFine(v, t, Idle, s, x.(refCount := x.refCount - 1));
      }
    }
  }

  lemma CreateDisconnectFine(v: Pool, t: nat)
    requires Inv(v) && t < |v.threads| && v.threads[t].CreatingDisconnect?
    ensures Fine(v, StepHandling(v, t, Go))
  {
    hide SessionInv, LockInv, Conserved, Held, Outstanding;
    var s := v.threads[t].s;
    var x := v.sessions[s];
    HoldsWhatItHas(v, t, s);
    SessionStepFine(v, t, Posting(s, v.threads[t].io, v.threads[t].completed, IoDisconnect), s,
      x.(refCount := x.refCount + 1));
  }

  lemma PostedFine(v: Pool, t: nat, a: Action)
    requires Inv(v) && t < |v.threads| && v.threads[t].Posting?
    ensures Fine(v, StepHandling(v, t, a))
  {
    hide SessionInv, LockInv, Conserved, Held, Outstanding;
    var s := v.threads[t].s;
    var back := Handling(s, v.threads[t].io, v.threads[t].completed);
    var x := v.sessions[s];
    HoldsWhatItHas(v, t, s);
    if a.Succeed? {
      if v.threads[t].next.IoDisconnect? {
        SessionStepFine(v, t, back, s, x.(disconnects := x.disconnects + 1));
      } else {
        SessionStepFine(v, t, back, s, x.(others := x.others + 1));
      }
    } else if a.Fail? {
      SessionStepFine(v, t, back, s, x.(refCount := x.refCount - 1));
    }
  }

  /** A session on its way back is in nobody else's hands, so it goes back to the list once. */
  lemma PushFine(v: Pool, t: nat)
    requires Inv(v) && t < |v.threads| && v.threads[t].Pushing?
    ensures Fine(v, StepReturning(v, t, Go))
  {
    hide SessionInv, LockInv, Conserved, Held;
    var s := v.threads[t].s;
    var p := CountingReturn(s);
    StepKeeps(v, Moved(v, t, p).(free := v.free + [s]), t, p, s);
  }

  lemma CountReturnFine(v: Pool, t: nat)
    requires Inv(v) && t < |v.threads| && v.threads[t].CountingReturn?
    ensures Fine(v, StepReturning(v, t, Go))
  {
    hide SessionInv, LockInv, Conserved, Held;
    var s := v.threads[t].s;
    OutstandingInside(v, t);
    FreeAtMostAll(v);
    CountersWrap(v.issueCount, v.returnCount);
    StepKeeps(v, Moved(v, t, Leaving).(returnCount := (v.returnCount + 1) % TWO_64), t, Leaving, s);
  }

  lemma CheckAndResetFine(v: Pool, t: nat)
    requires Inv(v) && t < |v.threads| && (v.threads[t].Checking? || v.threads[t].Resetting?)
    ensures Fine(v, StepReturning(v, t, Go))
  {
    hide SessionInv, LockInv, Conserved, Held, Outstanding;
    var s := v.threads[t].s;
    ClaimedIsIdle(v, t, s);
    if v.threads[t].Checking? {
      ThreadStepFine(v, t, Resetting(s), s);
    } else {
      SessionStepFine(v, t, Pushing(s), s, v.sessions[s].(connected := false, refCount := 0));
    }
  }

  /** A session that a thread has taken out of use has no references left. */
  lemma ClaimedIsIdle(v: Pool, t: nat, s: Id)
    requires Inv(v) && t < |v.threads| && Weight(v.threads[t], s, Claims) == 1
    ensures v.sessions[s].refCount == 0 && !v.sessions[s].connected && !v.sessions[s].issueRef
  {
    HoldsWhatItHas(v, t, s);
  }

  /** The list holds no session twice, so it is no longer than the pool is large. */
  lemma FreeAtMostAll(v: Pool)
    requires Inv(v)
    ensures |v.free| <= MAX_CONNECTION
  {
    FreeDistinct(v);
    DistinctFit(v.free, MAX_CONNECTION);
  }

  lemma FreeDistinct(v: Pool)
    requires Inv(v)
    ensures forall i, j :: 0 <= i < j < |v.free| ==> v.free[i] != v.free[j]
  {
    forall i, j | 0 <= i < j < |v.free|
      ensures v.free[i] != v.free[j]
    {
      assert SessionInv(v, v.free[i]);
      if v.free[i] == v.free[j] {
        TwiceCounted(v.free, i, j);
        assert false;
      }
    }
  }

  lemma TwiceCounted(q: seq<Id>, i: nat, j: nat)
    requires i < j < |q| && q[i] == q[j]
    ensures multiset(q)[q[i]] >= 2
  {
    assert q == q[..j] + q[j..];
    assert q[i] in q[..j] && q[j] in q[j..];
  }

  lemma {:induction false} DistinctFit(q: seq<Id>, n: nat)
    requires forall i, j :: 0 <= i < j < |q| ==> q[i] != q[j]
    requires forall i :: 0 <= i < |q| ==> q[i] < n
    ensures |q| <= n
    decreases n
  {
    if q != [] {
      assert q[0] < n;
      if i :| 0 <= i < |q| && q[i] == n - 1 {
        DistinctFit(q[..i] + q[i + 1..], n - 1);
      } else {
        DistinctFit(q, n - 1);
      }
    }
  }

  // ----- flushing a session without a reference -----

  /**
   * The two accesses of FlushSend that rely on others for the session to be in use: the context is created
   * while some reference is left, and it is not the last one if it is deleted again.
   */
  predicate IsOrderly(v: Pool, t: nat, a: Action)
    requires Shaped(v) && t < |v.threads|
  {
    var p := v.threads[t];
    && (p.Flushing? && a.Go? ==> v.sessions[p.s].refCount > 0)
    && (p.Sending? && a.Fail? ==> v.sessions[p.s].refCount > 1)
  }

  /** To create the context is fine if and only if the session is still referenced. */
  lemma CreateSendFine(v: Pool, t: nat)
    requires Inv(v) && t < |v.threads| && v.threads[t].Flushing?
    ensures Fine(v, StepFlushing(v, t, Go)) <==> v.sessions[v.threads[t].s].refCount > 0
  {
    hide LockInv, Conserved, Held, Outstanding;
    var s := v.threads[t].s;
    var x := v.sessions[s];
    assert SessionInv(v, s);
    if x.refCount > 0 {
      hide SessionInv;
      SessionStepFine(v, t, Sending(s), s, x.(refCount := x.refCount + 1));
    } else {
      var w := Moved(Changed(v, s, x.(refCount := x.refCount + 1)), t, Sending(s));
      HeldMoves(v.threads, t, Sending(s), s, Claims);
      assert !SessionInv(w, s);
    }
  }

  lemma SendFine(v: Pool, t: nat, a: Action)
    requires Inv(v) && t < |v.threads| && v.threads[t].Sending?
    ensures Fine(v, StepFlushing(v, t, a)) <==> (a.Fail? ==> v.sessions[v.threads[t].s].refCount > 1)
  {
    hide SessionInv, LockInv, Conserved, Held, Outstanding;
    var s := v.threads[t].s;
    var x := v.sessions[s];
    HoldsWhatItHas(v, t, s);
    if a.Succeed? {
      SessionStepFine(v, t, Idle, s, x.(others := x.others + 1));
    } else if a.Fail? && x.refCount > 1 {
      SessionStepFine(v, t, Disconnecting(s), s, x.(refCount := x.refCount - 1));
    }
  }

  /** To disconnect a session takes no reference of one's own: it is the connection that keeps it in use. */
  lemma FlushDisconnectFine(v: Pool, t: nat, a: Action)
    requires Inv(v) && t < |v.threads|
    requires v.threads[t].Disconnecting? || v.threads[t].CreatingFlushDisconnect? ||
             v.threads[t].PostingFlushDisconnect?
    ensures Fine(v, StepFlushing(v, t, a))
  {
    hide SessionInv, LockInv, Conserved, Held, Outstanding;
    var s := v.threads[t].s;
    var x := v.sessions[s];
    HoldsWhatItHas(v, t, s);
    if v.threads[t].Disconnecting? {
      if x.connected {
        SessionStepFine(v, t, CreatingFlushDisconnect(s), s, x.(connected := false));
      } else {
        ThreadStepFine(v, t, Idle, s);
      }
    } else if v.threads[t].CreatingFlushDisconnect? {
      SessionStepFine(v, t, PostingFlushDisconnect(s), s, x.(refCount := x.refCount + 1));
    } else if a.Succeed? {
      SessionStepFine(v, t, Idle, s, x.(disconnects := x.disconnects + 1));
    } else if a.Fail? {
      SessionStepFine(v, t, Idle, s, x.(refCount := x.refCount - 1));
    }
  }

  lemma FlushingFine(v: Pool, t: nat, a: Action)
    requires Inv(v) && t < |v.threads| && v.threads[t].Flushing?
    ensures Fine(v, StepFlushing(v, t, a)) <==> (a.Go? ==> v.sessions[v.threads[t].s].refCount > 0)
  {
    hide SessionInv, LockInv, Conserved, Held, Outstanding;
    if a.Go? {
      CreateSendFine(v, t);
    } else if a.Finish? {
      ThreadStepFine(v, t, Idle, v.threads[t].s);
    }
  }

  // ----- whole runs -----

  /** A step keeps the invariant, and does not break, if and only if it is orderly. */
  lemma StepFine(v: Pool, t: nat, a: Action)
    requires Inv(v) && t < |v.threads|
    ensures Fine(v, Step(v, t, a)) <==> IsOrderly(v, t, a)
  {
    hide Inv;
    match v.threads[t]
    case Idle => IdleFine(v, t, a);
    case Entering => EnterFine(v, t);
    case Returning(_) => EnterToReturnFine(v, t);
    case Leaving => LeaveFine(v, t);
    case Testing => TestFine(v, t);
    case Popping => PopFine(v, t);
    case CountingIssue(_) => CountIssueFine(v, t);
    case AddingIssueRef(_) => AddIssueRefFine(v, t);
    case CreatingAccept(_) => CreateAcceptFine(v, t);
    case CallingAcceptEx(_) => AcceptExFine(v, t, a);
    case DeletingAccept(_) => DeleteAcceptFine(v, t);
    case Handling(_, _, _) =>
      match a {
        case Go => CompletionFine(v, t);
        case RequestDisconnect => RequestDisconnectFine(v, t);
        case Post => PostFine(v, t);
        case Finish => FinishFine(v, t);
        case _ =>
      }
    case CreatingDisconnect(_, _, _) => CreateDisconnectFine(v, t);
    case Posting(_, _, _, _) => PostedFine(v, t, a);
    case Flushing(_) => FlushingFine(v, t, a);
    case Sending(_) => SendFine(v, t, a);
    case Disconnecting(_) => FlushDisconnectFine(v, t, a);
    case CreatingFlushDisconnect(_) => FlushDisconnectFine(v, t, a);
    case PostingFlushDisconnect(_) => FlushDisconnectFine(v, t, a);
    case Checking(_) => CheckAndResetFine(v, t);
    case Resetting(_) => CheckAndResetFine(v, t);
    case Pushing(_) => PushFine(v, t);
    case CountingReturn(_) => CountReturnFine(v, t);
  }

  /** A step that is not orderly breaks at once, or breaks if the send that it prepares fails. */
  lemma DisorderBreaks(v: Pool, t: nat, a: Action)
    requires Inv(v) && t < |v.threads| && !IsOrderly(v, t, a)
    ensures
      var o := Step(v, t, a);
      o.Broken? || (o.Went? && Step(o.pool, t, Fail) == Broken(OwnLockAwaited))
  {
    hide LockInv, Conserved;
    assert SessionInv(v, v.threads[t].s);
  }

  /** Any order of steps; a thread that cannot take the step chosen for it stays where it is. */
  function Run(v: Pool, steps: seq<(nat, Action)>): Outcome
    requires Shaped(v)
    decreases |steps|
  {
    if steps == [] then Went(v)
    else
      var (t, a) := steps[0];
      if t >= |v.threads| then Run(v, steps[1..])
      else
        match Step(v, t, a)
        case Blocked => Run(v, steps[1..])
        case Broken(why) => Broken(why)
        case Went(w) => Run(w, steps[1..])
  }

  /** Every step of the run is orderly when its turn comes. */
  predicate IsOrderlyRun(v: Pool, steps: seq<(nat, Action)>)
    requires Shaped(v)
    decreases |steps|
  {
    steps == [] ||
    var (t, a) := steps[0];
    if t >= |v.threads| then IsOrderlyRun(v, steps[1..])
    else
      && IsOrderly(v, t, a)
      && match Step(v, t, a)
         case Blocked => IsOrderlyRun(v, steps[1..])
         case Broken(_) => true
         case Went(w) => IsOrderlyRun(w, steps[1..])
  }

  /**
   * What holds of the pool at every moment: no session is free twice, or free and in use; a session that
   * is not free is referenced or in the hands of exactly one thread; one thread at most is inside the lock;
   * and with the lock free, free and outstanding sessions make up the pool.
   */
  ghost predicate Safe(v: Pool) {
    && Shaped(v)
    && (!v.lockFlag ==> |v.free| + Outstanding(v) == MAX_CONNECTION)
    && (forall i, j :: 0 <= i < j < |v.free| ==> v.free[i] != v.free[j])
    && (forall i :: 0 <= i < |v.free| ==> Unused(v, v.free[i]))
    && (forall s: Id :: s !in v.free ==>
          v.sessions[s].refCount > 0 || exists t :: 0 <= t < |v.threads| && Weight(v.threads[t], s, Claims) == 1)
    && (forall t, u :: 0 <= t < u < |v.threads| ==> !(IsInside(v.threads[t]) && IsInside(v.threads[u])))
    && (forall t :: 0 <= t < |v.threads| && IsInside(v.threads[t]) ==> v.lockFlag)
  }

  /** Not referenced, not connected, without I/O on its way, and in no thread's hands. */
  ghost predicate Unused(v: Pool, s: Id)
    requires Shaped(v)
  {
    var x := v.sessions[s];
    && x == Session(0, false, false, 0, 0, 0)
    && forall t :: 0 <= t < |v.threads| ==>
         Weight(v.threads[t], s, Refs) == Weight(v.threads[t], s, Tokens) == Weight(v.threads[t], s, Claims) == 0
  }

  lemma FreeIsUnused(v: Pool, s: Id)
    requires Inv(v) && s in v.free
    ensures Unused(v, s)
  {
    assert SessionInv(v, s);
    assert multiset(v.free)[s] > 0;
    forall t | 0 <= t < |v.threads|
      ensures Weight(v.threads[t], s, Refs) == Weight(v.threads[t], s, Tokens) == Weight(v.threads[t], s, Claims) == 0
    {
      HeldAtLeast(v.threads, t, s, Refs);
      HeldAtLeast(v.threads, t, s, Tokens);
      HeldAtLeast(v.threads, t, s, Claims);
    }
  }

  lemma {:induction false} ClaimIsHeld(threads: seq<Thread>, s: Id)
    requires Held(threads, s, Claims) == 1
    ensures exists t :: 0 <= t < |threads| && Weight(threads[t], s, Claims) == 1
  {
    if Weight(threads[|threads| - 1], s, Claims) != 1 {
      ClaimIsHeld(threads[..|threads| - 1], s);
      var t :| 0 <= t < |threads| - 1 && Weight(threads[..|threads| - 1][t], s, Claims) == 1;
      assert threads[t] == threads[..|threads| - 1][t];
    }
  }

  lemma InvIsSafe(v: Pool)
    requires Inv(v)
    ensures Safe(v)
  {
    hide Weight;
    forall i | 0 <= i < |v.free|
      ensures Unused(v, v.free[i])
    {
      FreeIsUnused(v, v.free[i]);
    }
    FreeDistinct(v);
    forall s: Id | s !in v.free && v.sessions[s].refCount <= 0
      ensures exists t :: 0 <= t < |v.threads| && Weight(v.threads[t], s, Claims) == 1
    {
      assert SessionInv(v, s);
      ClaimIsHeld(v.threads, s);
    }
    LockedOutMeansNone(v);
    forall t, u | 0 <= t < u < |v.threads|
      ensures !(IsInside(v.threads[t]) && IsInside(v.threads[u]))
    {
      if IsInside(v.threads[t]) {
        OnlyInside(v.threads, t, u);
      }
    }
  }

  /** With the lock free nothing is popped or pushed without being counted. */
  lemma LockedOutMeansNone(v: Pool)
    requires Inv(v)
    ensures forall t :: 0 <= t < |v.threads| && IsInside(v.threads[t]) ==> v.lockFlag
    ensures !v.lockFlag ==> |v.free| + Outstanding(v) == MAX_CONNECTION
  {
    forall t | 0 <= t < |v.threads| && IsInside(v.threads[t])
      ensures v.lockFlag
    {
      HeldAtLeast(v.threads, t, 0, Inside);
    }
    if !v.lockFlag {
      HeldByNone(v.threads, 0, Popped);
      HeldByNone(v.threads, 0, Pushed);
    }
  }

  lemma {:induction false} RunKeeps(v: Pool, steps: seq<(nat, Action)>)
    requires Inv(v) && IsOrderlyRun(v, steps)
    ensures Run(v, steps).Went? && Inv(Run(v, steps).pool)
    decreases |steps|
  {
    hide SessionInv, LockInv, Conserved, Step, IsOrderly;
    if steps != [] {
      var (t, a) := steps[0];
      if t >= |v.threads| {
        RunKeeps(v, steps[1..]);
      } else {
        StepFine(v, t, a);
        match Step(v, t, a)
        case Blocked => RunKeeps(v, steps[1..]);
        case Went(w) => RunKeeps(w, steps[1..]);
      }
    }
  }

  /**
   * From the prepared pool no orderly run ever pops from an empty list, fails an assertion or waits for a
   * lock it holds itself, however many threads there are, and the pool is safe at every moment.
   */
  lemma EveryRunIsSafe(v: Pool, steps: seq<(nat, Action)>)
    requires Init(v) && IsOrderlyRun(v, steps)
    ensures Inv(v)
    ensures Run(v, steps).Went? && Safe(Run(v, steps).pool)
  {
    InitInv(v);
    RunKeeps(v, steps);
    InvIsSafe(Run(v, steps).pool);
  }
}
