/**
 * Which sessions can still come back to the list: all but those that are lost, about to be lost, or
 * stranded. From any state in which a session is none of these, its threads can work on until it is back.
 */
module ReturningSessions {
  import opened SessionPool
  import opened LostSessions
  import opened StrandedSessions

  /** Some thread is about to delete the context of an accept that was refused. */
  predicate Refused(v: Pool, s: Id) {
    exists t | 0 <= t < |v.threads| :: v.threads[t] == DeletingAccept(s)
  }

  predicate Gone(v: Pool, s: Id)
    requires Shaped(v)
  {
    Lost(v, s) || Stranded(v, s) || Refused(v, s)
  }

  predicate WithoutFlush(steps: seq<(nat, Action)>, s: Id) {
    forall i | 0 <= i < |steps| :: steps[i].1 != Flush(s)
  }

  // ----- gone for good -----

  lemma GoneIsNotFree(v: Pool, s: Id)
    requires Inv(v) && Gone(v, s)
    ensures s !in v.free
  {
    if Lost(v, s) {
      LostIsNotFree(v, s);
    } else if Stranded(v, s) {
      StrandedMeans(v, s);
    } else {
      var t: nat :| t < |v.threads| && v.threads[t] == DeletingAccept(s);
      assert SessionInv(v, s);
      HeldAtLeast(v.threads, t, s, Refs);
      assert s in v.free ==> multiset(v.free)[s] > 0;
    }
  }

  lemma GoneAfter(v: Pool, t: nat, a: Action, s: Id)
    requires Inv(v) && t < |v.threads| && Gone(v, s) && a != Flush(s)
    ensures Step(v, t, a).Went? ==> Gone(Step(v, t, a).pool, s)
  {
    hide SessionInv, LockInv, Conserved, Lost, Stranded, StaysLost, StepHandling, StepFlushing, StepReturning, StepIdle;
    var o := Step(v, t, a);
    OneMoves(v, t, a);
    if o.Went? {
      if Lost(v, s) {
        LostInStep(v, t, a, s);
        LostAfter(v, t, s, o.pool);
      } else if Stranded(v, s) {
        StrandedAfter(v, t, a, s);
      } else {
        var u: nat :| u < |v.threads| && v.threads[u] == DeletingAccept(s);
        if u == t {
          FailedAcceptLoses(v, t);
        } else {
          assert o.pool.threads[u] == DeletingAccept(s);
        }
      }
    }
  }

  /** In no orderly run without a flush of it does such a session come back. */
  lemma {:induction false} GoneForever(v: Pool, steps: seq<(nat, Action)>, s: Id)
    requires Inv(v) && Gone(v, s) && IsOrderlyRun(v, steps) && WithoutFlush(steps, s)
    ensures Run(v, steps).Went? && Inv(Run(v, steps).pool)
    ensures Gone(Run(v, steps).pool, s) && s !in Run(v, steps).pool.free
    decreases |steps|
  {
    hide Inv, Gone, Step, IsOrderly;
    if steps == [] {
      GoneIsNotFree(v, s);
    } else {
      var (t, a) := steps[0];
      assert steps[0].1 != Flush(s);
      assert WithoutFlush(steps[1..], s);
      InvIsShaped(v);
      if t >= |v.threads| {
        GoneForever(v, steps[1..], s);
      } else {
        StepFine(v, t, a);
        match Step(v, t, a)
        case Blocked => GoneForever(v, steps[1..], s);
        case Went(w) =>
          GoneAfter(v, t, a, s);
          GoneForever(w, steps[1..], s);
      }
    }
  }

  lemma InvIsShaped(v: Pool)
    requires Inv(v)
    ensures Shaped(v)
  {
  }

  /** A flush takes a stranded session up again. */
  lemma FlushTakesUp(v: Pool, t: nat, s: Id)
    requires Inv(v) && t < |v.threads| && Stranded(v, s) && v.threads[t].Idle?
    ensures Step(v, t, Flush(s)).Went? && Inv(Step(v, t, Flush(s)).pool) && !Gone(Step(v, t, Flush(s)).pool, s)
  {
    StepFine(v, t, Flush(s));
    var w := Step(v, t, Flush(s)).pool;
    assert w.threads[t] == Flushing(s) && w.sessions[s].connected;
    assert SessionInv(w, s);
    if Refused(w, s) {
      var u: nat :| u < |w.threads| && w.threads[u] == DeletingAccept(s);
      HeldAtLeast(w.threads, u, s, Tokens);
    }
  }

  // ----- the work that is left until a session is back -----

  /** How far a thread is from being idle, counting what it will leave for others to do with the session. */
  function Toil(p: Thread, s: Id): nat {
    match p
    case Idle => 0
    case Leaving => 1
    case DeletingAccept(_) => 2
    case CallingAcceptEx(r) => if r == s then 30 else 3
    case CreatingAccept(r) => if r == s then 31 else 4
    case AddingIssueRef(r) => if r == s then 32 else 5
    case CountingIssue(r) => if r == s then 33 else 6
    case Popping => 7
    case Testing => 8
    case Entering => 9
    case Handling(_, io, completed) => HandlingToil(io, completed)
    case Posting(_, io, completed, next) => HandlingToil(io, completed) + if next.IoDisconnect? then 10 else 1
    case CreatingDisconnect(_, io, completed) => HandlingToil(io, completed) + 11
    case Flushing(_) => 11
    case Sending(_) => 10
    case Disconnecting(_) => 12
    case CreatingFlushDisconnect(_) => 11
    case PostingFlushDisconnect(_) => 10
    case Returning(_) => 6
    case Checking(_) => 5
    case Resetting(_) => 4
    case Pushing(_) => 3
    case CountingReturn(_) => 2
  }

  function HandlingToil(io: IoType, completed: bool): nat {
    if completed then 7 else if io.IoAccept? then 20 else 8
  }

  /** What is to be done with the session besides. */
  function Ahead(x: Session): nat {
    21 * x.accepts + 9 * x.disconnects + 9 * x.others + if x.connected then 12 else 0
  }

  function Toils(threads: seq<Thread>, s: Id): nat {
    if threads == [] then 0 else Toils(threads[..|threads| - 1], s) + Toil(threads[|threads| - 1], s)
  }

  function Left(v: Pool, s: Id): nat
    requires Shaped(v)
  {
    Toils(v.threads, s) + Ahead(v.sessions[s])
  }

  lemma {:induction false} ToilsMove(threads: seq<Thread>, t: nat, p: Thread, s: Id)
    requires t < |threads|
    ensures Toils(threads[t := p], s) + Toil(threads[t], s) == Toils(threads, s) + Toil(p, s)
  {
    hide Toil;
    var n := |threads| - 1;
    if t == n {
      assert threads[t := p][..n] == threads[..n];
    } else {
      assert threads[t := p][..n] == threads[..n][t := p];
      ToilsMove(threads[..n], t, p, s);
    }
  }

  // ----- how to go on -----

  /** What a thread that is not idle may do to bring the session nearer to its return. */
  function Onward(v: Pool, t: nat, s: Id): Action
    requires Shaped(v) && t < |v.threads|
  {
    match v.threads[t]
    case CallingAcceptEx(r) => if r == s then Succeed else Fail
    case Handling(r, _, completed) =>
      if !completed then Go else if r == s && v.sessions[s].connected then RequestDisconnect else Finish
    case Posting(_, _, _, next) => if next.IoDisconnect? then Succeed else Fail
    case Flushing(r) => if r == s && v.sessions[s].connected then Go else Finish
    case Sending(_) => Succeed
    case PostingFlushDisconnect(_) => Succeed
    case _ => Go
  }

  /** The thread is not idle and does not wait for the lock. */
  predicate CanGoOn(v: Pool, t: nat)
    requires t < |v.threads|
  {
    var p := v.threads[t];
    !p.Idle? && (v.lockFlag ==> !p.Entering? && !p.Returning?)
  }

  /** The step is taken, and leaves less to do. */
  predicate Nearer(v: Pool, t: nat, s: Id, o: Outcome)
    requires Shaped(v) && t < |v.threads|
  {
    && o.Went? && Shaped(o.pool) && t < |o.pool.threads|
    && Toil(o.pool.threads[t], s) + Ahead(o.pool.sessions[s]) < Toil(v.threads[t], s) + Ahead(v.sessions[s])
  }

  lemma OnwardIsOrderly(v: Pool, t: nat, s: Id)
    requires Inv(v) && t < |v.threads|
    ensures IsOrderly(v, t, Onward(v, t, s)) && Onward(v, t, s) != Flush(s)
  {
    hide LockInv, Conserved;
    assert SessionInv(v, s);
  }

  predicate IsAccepting(p: Thread) {
    || p.Testing? || p.Popping? || p.CountingIssue? || p.AddingIssueRef? || p.CreatingAccept?
    || p.CallingAcceptEx? || p.DeletingAccept?
  }

  lemma NearerAccepting(v: Pool, t: nat, s: Id)
    requires Shaped(v) && t < |v.threads| && IsAccepting(v.threads[t]) && s !in v.free
    requires !StepAccepting(v, t, Onward(v, t, s)).Broken?
    ensures Nearer(v, t, s, StepAccepting(v, t, Onward(v, t, s)))
  {
    hide Outstanding;
  }

  lemma NearerHandling(v: Pool, t: nat, s: Id)
    requires Shaped(v) && t < |v.threads|
    requires v.threads[t].Handling? || v.threads[t].CreatingDisconnect? || v.threads[t].Posting?
    requires !StepHandling(v, t, Onward(v, t, s)).Broken?
    ensures Nearer(v, t, s, StepHandling(v, t, Onward(v, t, s)))
  {
  }

  predicate IsFlushing(p: Thread) {
    p.Flushing? || p.Sending? || p.Disconnecting? || p.CreatingFlushDisconnect? || p.PostingFlushDisconnect?
  }

  lemma NearerFlushing(v: Pool, t: nat, s: Id)
    requires Shaped(v) && t < |v.threads| && IsFlushing(v.threads[t])
    requires !StepFlushing(v, t, Onward(v, t, s)).Broken?
    ensures Nearer(v, t, s, StepFlushing(v, t, Onward(v, t, s)))
  {
  }

  lemma NearerReturning(v: Pool, t: nat, s: Id)
    requires Shaped(v) && t < |v.threads|
    requires v.threads[t].Checking? || v.threads[t].Resetting? || v.threads[t].Pushing? || v.threads[t].CountingReturn?
    requires !StepReturning(v, t, Onward(v, t, s)).Broken?
    ensures Nearer(v, t, s, StepReturning(v, t, Onward(v, t, s)))
  {
  }

  lemma OnwardIsNearer(v: Pool, t: nat, s: Id)
    requires Shaped(v) && t < |v.threads| && CanGoOn(v, t) && s !in v.free
    requires !Step(v, t, Onward(v, t, s)).Broken?
    ensures Nearer(v, t, s, Step(v, t, Onward(v, t, s)))
  {
    hide StepAccepting, StepHandling, StepFlushing, StepReturning;
    var p := v.threads[t];
    if IsAccepting(p) {
      NearerAccepting(v, t, s);
    } else if p.Handling? || p.CreatingDisconnect? || p.Posting? {
      NearerHandling(v, t, s);
    } else if IsFlushing(p) {
      NearerFlushing(v, t, s);
    } else if p.Checking? || p.Resetting? || p.Pushing? || p.CountingReturn? {
      NearerReturning(v, t, s);
    }
  }

  lemma OnwardKeeps(v: Pool, t: nat, s: Id)
    requires Shaped(v) && t < |v.threads|
    ensures !LosesForGood(v, t, Onward(v, t, s), s)
  {
  }

  /** Some thread can go on, unless all are idle. */
  lemma SomeoneGoesOn(v: Pool) returns (t: nat)
    requires Inv(v) && exists u | 0 <= u < |v.threads| :: !v.threads[u].Idle?
    ensures t < |v.threads| && CanGoOn(v, t)
  {
    if v.lockFlag {
      if forall u | 0 <= u < |v.threads| :: !IsInside(v.threads[u]) {
        HeldByNone(v.threads, 0, Inside);
        assert false;
      }
      t :| t < |v.threads| && IsInside(v.threads[t]);
    } else {
      t :| t < |v.threads| && !v.threads[t].Idle?;
    }
  }

  /** When all are idle, a session that is neither free nor gone has I/O on its way. */
  lemma IdleHasWork(v: Pool, s: Id) returns (io: IoType)
    requires Inv(v) && !Gone(v, s) && s !in v.free && forall u | 0 <= u < |v.threads| :: v.threads[u].Idle?
    ensures OnTheirWay(v.sessions[s], io) > 0
  {
    assert SessionInv(v, s);
    HeldByNone(v.threads, s, Refs);
    HeldByNone(v.threads, s, Tokens);
    HeldByNone(v.threads, s, Claims);
    var x := v.sessions[s];
    io := if x.accepts > 0 then IoAccept else if x.disconnects > 0 then IoDisconnect else IoOther;
  }

  /** From a state in which a session is neither free nor gone, a step that is orderly brings it nearer. */
  lemma NextStep(v: Pool, s: Id) returns (t: nat, a: Action)
    requires Inv(v) && |v.threads| > 0 && !Gone(v, s) && s !in v.free
    ensures t < |v.threads| && IsOrderly(v, t, a) && a != Flush(s) && Nearer(v, t, s, Step(v, t, a))
    ensures !LosesForGood(v, t, a, s)
  {
    if exists u | 0 <= u < |v.threads| :: !v.threads[u].Idle? {
      hide Inv, Step, Gone, Nearer, IsOrderly, LosesForGood;
      t := SomeoneGoesOn(v);
      a := Onward(v, t, s);
      InvIsShaped(v);
      OnwardIsOrderly(v, t, s);
      StepFine(v, t, a);
      OnwardIsNearer(v, t, s);
      OnwardKeeps(v, t, s);
    } else {
      hide SessionInv, LockInv, Conserved, Gone;
      var io := IdleHasWork(v, s);
      t, a := 0, Dequeue(s, io);
    }
  }

  /** It takes a refused AcceptEx to be about to delete the context. */
  lemma RefusedByFailing(v: Pool, t: nat, a: Action, s: Id)
    requires Shaped(v) && t < |v.threads| && !Refused(v, s)
    requires Step(v, t, a).Went? && Refused(Step(v, t, a).pool, s)
    ensures v.threads[t] == CallingAcceptEx(s) && a == Fail
  {
    hide Outstanding;
    OneMoves(v, t, a);
  }

  /** The steps in which the operating system refuses an accept or a disconnect, or a connected session is left. */
  predicate LosesForGood(v: Pool, t: nat, a: Action, s: Id)
    requires Shaped(v) && t < |v.threads|
  {
    var p := v.threads[t];
    || (p == CallingAcceptEx(s) && a.Fail?)
    || (p.Posting? && p.s == s && p.next.IoDisconnect? && a.Fail?)
    || (p == PostingFlushDisconnect(s) && a.Fail?)
    || Strands(v, t, a, s)
  }

  /** A step makes it impossible for a session to come back if and only if it is one of these. */
  lemma StepLosesForGood(v: Pool, t: nat, a: Action, s: Id)
    requires Inv(v) && t < |v.threads| && !Gone(v, s)
    ensures Step(v, t, a).Went? && Gone(Step(v, t, a).pool, s) <==> LosesForGood(v, t, a, s)
  {
    InvIsShaped(v);
    hide Inv, Step, Lost, Stranded, Strands;
    OneMoves(v, t, a);
    StepLoses(v, t, a, s);
    StepStrands(v, t, a, s);
    if Step(v, t, a).Went? && Refused(Step(v, t, a).pool, s) {
      RefusedByFailing(v, t, a, s);
    }
    if v.threads[t] == CallingAcceptEx(s) && a.Fail? {
      FailingRefuses(v, t, s);
    }
  }

  lemma FailingRefuses(v: Pool, t: nat, s: Id)
    requires Shaped(v) && t < |v.threads| && v.threads[t] == CallingAcceptEx(s)
    ensures Step(v, t, Fail).Went? && Refused(Step(v, t, Fail).pool, s)
  {
    assert Step(v, t, Fail).pool.threads[t] == DeletingAccept(s);
  }

  lemma NearerLeft(v: Pool, t: nat, s: Id, w: Pool)
    requires Shaped(v) && t < |v.threads| && Nearer(v, t, s, Went(w))
    requires |w.threads| == |v.threads| && w.threads == v.threads[t := w.threads[t]]
    ensures Left(w, s) < Left(v, s)
  {
    hide Toil, Ahead;
    ToilsMove(v.threads, t, w.threads[t], s);
  }

  lemma NextKeeps(v: Pool, t: nat, a: Action, s: Id)
    requires Inv(v) && t < |v.threads| && !Gone(v, s) && IsOrderly(v, t, a) && Nearer(v, t, s, Step(v, t, a))
    requires !LosesForGood(v, t, a, s)
    ensures Step(v, t, a).Went?
    ensures Inv(Step(v, t, a).pool) && |Step(v, t, a).pool.threads| == |v.threads|
    ensures !Gone(Step(v, t, a).pool, s) && Left(Step(v, t, a).pool, s) < Left(v, s)
  {
    InvIsShaped(v);
    hide Inv, Step, Gone, LosesForGood, IsOrderly, Left;
    var w := Step(v, t, a).pool;
    OneMoves(v, t, a);
    NearerLeft(v, t, s, w);
    StepFine(v, t, a);
    StepLosesForGood(v, t, a, s);
  }

  // ----- the sessions that come back -----

  ghost predicate ComesBack(v: Pool, steps: seq<(nat, Action)>, s: Id)
    requires Shaped(v)
  {
    && IsOrderlyRun(v, steps)
    && WithoutFlush(steps, s)
    && Run(v, steps).Went?
    && s in Run(v, steps).pool.free
  }

  lemma {:induction false} CanComeBack(v: Pool, s: Id) returns (steps: seq<(nat, Action)>)
    requires Inv(v) && |v.threads| > 0 && !Gone(v, s)
    ensures ComesBack(v, steps, s)
    decreases Left(v, s)
  {
    hide Inv, Gone, Left, Step, IsOrderly, LosesForGood, Nearer;
    InvIsShaped(v);
    if s in v.free {
      steps := [];
    } else {
      var t, a := NextStep(v, s);
      NextKeeps(v, t, a, s);
      var others := CanComeBack(Step(v, t, a).pool, s);
      steps := [(t, a)] + others;
      assert steps[1..] == others;
    }
  }

  /**
   * A session can come back to the list, in an orderly run that does not flush it, if and only if it is neither
   * lost, nor about to be lost, nor stranded.
   */
  lemma ComesBackUnlessGone(v: Pool, s: Id)
    requires Inv(v) && |v.threads| > 0
    ensures (exists steps :: ComesBack(v, steps, s)) <==> !Gone(v, s)
  {
    hide Inv, Gone, Run;
    InvIsShaped(v);
    if !Gone(v, s) {
      var steps := CanComeBack(v, s);
    } else {
      forall steps | ComesBack(v, steps, s)
        ensures false
      {
        GoneForever(v, steps, s);
      }
    }
  }
}
