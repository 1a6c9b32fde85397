/**
 * Sessions that stay connected for good because no I/O of theirs is under way whose end would be noticed.
 * It happens when the first receive after an accept is refused: the code reports it and goes on.
 */
module StrandedSessions {
  import opened SessionPool
  import opened LostSessions
  import opened FlushRaces

  /** The thread has the session in its hands. One that is about to count a return has already put it back. */
  predicate Uses(p: Thread, s: Id) {
    About(p, s) && !p.CountingReturn?
  }

  predicate OthersUse(v: Pool, t: nat, s: Id) {
    exists u | 0 <= u < |v.threads| && u != t :: Uses(v.threads[u], s)
  }

  /** Connected, but held by nothing except the reference of its issue. */
  predicate Stranded(v: Pool, s: Id)
    requires Shaped(v)
  {
    var x := v.sessions[s];
    x.connected && x.refCount == 1 && forall u | 0 <= u < |v.threads| :: !Uses(v.threads[u], s)
  }

  /** So no I/O of the session is on its way, and its issue reference is held. */
  lemma StrandedMeans(v: Pool, s: Id)
    requires Inv(v) && Stranded(v, s)
    ensures v.sessions[s] == Session(1, true, true, 0, 0, 0) && s !in v.free
  {
    assert SessionInv(v, s);
    assert s in v.free ==> multiset(v.free)[s] > 0;
  }

  // ----- which steps strand a session -----

  /**
   * A thread leaves the connected session with no reference but that of its issue: after it has handled the
   * last I/O of the session, or after a flush that found nothing to send.
   */
  predicate Leaves(v: Pool, t: nat, a: Action, s: Id)
    requires Shaped(v) && t < |v.threads|
  {
    var p, x := v.threads[t], v.sessions[s];
    && x.connected && a.Finish?
    && ((p.Handling? && p.s == s && p.completed && x.refCount == 2) || (p == Flushing(s) && x.refCount == 1))
  }

  /** The last thread that has the session in its hands leaves it so. */
  predicate Strands(v: Pool, t: nat, a: Action, s: Id)
    requires Shaped(v) && t < |v.threads|
  {
    Leaves(v, t, a, s) && !OthersUse(v, t, s)
  }

  /** What one thread and the session must be for the session to be stranded. */
  predicate LetGo(p: Thread, x: Session, s: Id) {
    x.connected && x.refCount == 1 && !Uses(p, s)
  }

  lemma StrandedApart(v: Pool, t: nat, s: Id)
    requires Shaped(v) && t < |v.threads|
    ensures Stranded(v, s) <==> LetGo(v.threads[t], v.sessions[s], s) && !OthersUse(v, t, s)
  {
  }

  /** The thread lets go of the session in this step. */
  predicate LetsGo(v: Pool, t: nat, s: Id, o: Outcome)
    requires Shaped(v) && t < |v.threads|
  {
    o.Went? && Shaped(o.pool) && t < |o.pool.threads| && LetGo(o.pool.threads[t], o.pool.sessions[s], s)
  }

  lemma AcceptingLetsGo(v: Pool, t: nat, a: Action, s: Id)
    requires Inv(v) && t < |v.threads| && !LetGo(v.threads[t], v.sessions[s], s)
    ensures !LetsGo(v, t, s, StepAccepting(v, t, a))
  {
    hide LockInv, Conserved, Outstanding;
    assert SessionInv(v, s);
    HeldAtLeast(v.threads, t, s, Tokens);
  }

  lemma HandlingLetsGo(v: Pool, t: nat, a: Action, s: Id)
    requires Inv(v) && t < |v.threads| && !LetGo(v.threads[t], v.sessions[s], s)
    ensures LetsGo(v, t, s, StepHandling(v, t, a)) <==> v.threads[t].Handling? && Leaves(v, t, a, s)
  {
    hide SessionInv, LockInv, Conserved;
  }

  lemma FlushingLetsGo(v: Pool, t: nat, a: Action, s: Id)
    requires Inv(v) && t < |v.threads| && !LetGo(v.threads[t], v.sessions[s], s)
    ensures LetsGo(v, t, s, StepFlushing(v, t, a)) <==> v.threads[t].Flushing? && Leaves(v, t, a, s)
  {
    hide LockInv, Conserved;
    assert SessionInv(v, s);
    HeldAtLeast(v.threads, t, s, Tokens);
    HeldAtLeast(v.threads, t, s, Refs);
  }

  lemma ReturningLetsGo(v: Pool, t: nat, a: Action, s: Id)
    requires Inv(v) && t < |v.threads| && !LetGo(v.threads[t], v.sessions[s], s)
    ensures !LetsGo(v, t, s, StepReturning(v, t, a))
  {
    hide LockInv, Conserved, Outstanding;
    assert SessionInv(v, s);
    HeldAtLeast(v.threads, t, s, Claims);
  }

  lemma IdleLetsGo(v: Pool, t: nat, a: Action, s: Id)
    requires Inv(v) && t < |v.threads| && !LetGo(v.threads[t], v.sessions[s], s) && v.threads[t].Idle?
    ensures !LetsGo(v, t, s, StepIdle(v, t, a))
  {
    hide SessionInv, LockInv, Conserved;
  }

  lemma StepLetsGo(v: Pool, t: nat, a: Action, s: Id)
    requires Inv(v) && t < |v.threads| && !LetGo(v.threads[t], v.sessions[s], s)
    ensures LetsGo(v, t, s, Step(v, t, a)) <==> Leaves(v, t, a, s)
  {
    hide Inv, StepAccepting, StepHandling, StepFlushing, StepReturning, StepIdle;
    match v.threads[t] {
      case Idle =>
        IdleLetsGo(v, t, a, s);
      case _ =>
        AcceptingLetsGo(v, t, a, s);
        HandlingLetsGo(v, t, a, s);
        FlushingLetsGo(v, t, a, s);
        ReturningLetsGo(v, t, a, s);
    }
  }

  /** A step strands a session if and only if in it the last thread to have it in its hands leaves it connected. */
  lemma StepStrands(v: Pool, t: nat, a: Action, s: Id)
    requires Inv(v) && t < |v.threads| && !Stranded(v, s)
    ensures Step(v, t, a).Went? && Stranded(Step(v, t, a).pool, s) <==> Strands(v, t, a, s)
  {
    hide SessionInv, LockInv, Conserved, Step, Uses;
    OneMoves(v, t, a);
    StrandedApart(v, t, s);
    var o := Step(v, t, a);
    if o.Went? {
      StrandedApart(o.pool, t, s);
      assert forall u | 0 <= u < |v.threads| && u != t :: o.pool.threads[u] == v.threads[u];
    }
    if !OthersUse(v, t, s) {
      StepLetsGo(v, t, a, s);
    }
  }

  // ----- for good -----

  /** A stranded session stays as it is, and nobody takes it up. */
  predicate StaysPut(v: Pool, t: nat, s: Id, o: Outcome)
    requires Shaped(v) && t < |v.threads|
  {
    o.Went? ==>
      && Shaped(o.pool)
      && t < |o.pool.threads|
      && o.pool.sessions[s] == v.sessions[s]
      && !Uses(o.pool.threads[t], s)
  }

  lemma StrandedWhileAccepting(v: Pool, t: nat, a: Action, s: Id)
    requires Inv(v) && t < |v.threads| && Stranded(v, s)
    ensures StaysPut(v, t, s, StepAccepting(v, t, a))
  {
    StrandedMeans(v, s);
    hide SessionInv, LockInv, Conserved, Outstanding;
  }

  lemma StrandedWhileWorking(v: Pool, t: nat, a: Action, s: Id)
    requires Inv(v) && t < |v.threads| && Stranded(v, s)
    ensures StaysPut(v, t, s, StepHandling(v, t, a))
    ensures StaysPut(v, t, s, StepFlushing(v, t, a))
    ensures StaysPut(v, t, s, StepReturning(v, t, a))
  {
    hide SessionInv, LockInv, Conserved;
  }

  lemma StrandedInStep(v: Pool, t: nat, a: Action, s: Id)
    requires Inv(v) && t < |v.threads| && Stranded(v, s)
    requires !(v.threads[t].Idle? && a == Flush(s))
    ensures StaysPut(v, t, s, Step(v, t, a))
  {
    StrandedMeans(v, s);
    StrandedWhileAccepting(v, t, a, s);
    StrandedWhileWorking(v, t, a, s);
    hide Inv, SessionInv, LockInv, Conserved, StepAccepting, StepHandling, StepFlushing, StepReturning;
  }

  /** Without a flush of the session nothing releases it: it stays stranded, and out of the list. */
  lemma StrandedAfter(v: Pool, t: nat, a: Action, s: Id)
    requires Inv(v) && t < |v.threads| && Stranded(v, s)
    requires !(v.threads[t].Idle? && a == Flush(s))
    ensures Step(v, t, a).Went? ==> Stranded(Step(v, t, a).pool, s)
  {
    hide SessionInv, LockInv, Conserved, Step, Uses;
    OneMoves(v, t, a);
    StrandedInStep(v, t, a, s);
  }

  // ----- a session that is stranded -----

  lemma {:induction false} RunKeepsThreads(v: Pool, steps: seq<(nat, Action)>)
    requires Shaped(v)
    ensures Run(v, steps).Went? ==> |Run(v, steps).pool.threads| == |v.threads|
    decreases |steps|
  {
    hide Step;
    if steps != [] {
      var (t, a) := steps[0];
      if t >= |v.threads| || Step(v, t, a).Blocked? {
        RunKeepsThreads(v, steps[1..]);
      } else if Step(v, t, a).Went? {
        RunKeepsThreads(Step(v, t, a).pool, steps[1..]);
      }
    }
  }

  lemma ReachedThreads(v: Pool, w: Pool)
    requires Shaped(v) && Reaches(v, w)
    ensures |w.threads| == |v.threads|
  {
    var steps :| Run(v, steps) == Went(w);
    RunKeepsThreads(v, steps);
  }

  /** From the prepared pool, with three threads: an accept completes, and the first receive is refused. */
  lemma FirstReceiveStrands(v: Pool) returns (w: Pool)
    requires Init(v) && |v.threads| == 3
    ensures Reaches(v, w) && Shaped(w) && Stranded(w, S)
  {
    hide Reaches, Step;
    w := Accepting(v);
    w := Refused(v, w);
    w := FirstReceiveRefused(v, w);
    ReachedThreads(v, w);
  }

  lemma FirstReceiveRefused(v: Pool, before: Pool) returns (w: Pool)
    requires Shaped(v) && Reaches(v, before)
    requires Stands(before, false, Idle, Idle, Idle, Session(2, false, true, 1, 0, 0))
    ensures Reaches(v, w) && Stands(w, false, Idle, Idle, Idle, Session(1, true, true, 0, 0, 0))
  {
    hide Reaches;
    w := Next(v, before, 1, Dequeue(S, IoAccept));
    w := Next(v, w, 1, Go);
    w := Next(v, w, 1, Post);
    w := Next(v, w, 1, Fail);
    w := Next(v, w, 1, Finish);
  }
}
