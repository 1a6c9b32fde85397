/** Sessions that stay issued for good though not connected: nothing is under way that would release them. */
module LostSessions {
  import opened SessionPool

  /** Not connected, the reference of its issue held, and nothing under way that would release it. */
  predicate Lost(v: Pool, s: Id)
    requires Shaped(v)
  {
    var x := v.sessions[s];
    x.issueRef && x.accepts == 0 && x.disconnects == 0 && !x.connected && Held(v.threads, s, Tokens) == 0
  }

  /** What a step may do to a lost session: no accept, connection or disconnect comes about. */
  ghost predicate StaysLost(v: Pool, t: nat, s: Id, o: Outcome)
    requires Shaped(v) && t < |v.threads|
  {
    o.Went? ==>
      && Shaped(o.pool)
      && |o.pool.threads| == |v.threads|
      && o.pool.threads == v.threads[t := o.pool.threads[t]]
      && Weight(o.pool.threads[t], s, Tokens) == 0
      && var x := o.pool.sessions[s]; x.issueRef && x.accepts == 0 && x.disconnects == 0 && !x.connected
  }

  lemma LostWhileIdle(v: Pool, t: nat, a: Action, s: Id)
    requires Inv(v) && t < |v.threads| && Lost(v, s) && v.threads[t].Idle?
    ensures StaysLost(v, t, s, StepIdle(v, t, a))
  {
  }

  lemma LostWhileAccepting(v: Pool, t: nat, a: Action, s: Id)
    requires Inv(v) && t < |v.threads| && Lost(v, s)
    ensures StaysLost(v, t, s, StepAccepting(v, t, a))
  {
    hide Outstanding, LockInv, Conserved, SessionInv;
    HoldsWhatItHas(v, t, s);
    HeldAtLeast(v.threads, t, s, Tokens);
  }

  lemma LostWhileHandling(v: Pool, t: nat, a: Action, s: Id)
    requires Inv(v) && t < |v.threads| && Lost(v, s)
    ensures StaysLost(v, t, s, StepHandling(v, t, a))
  {
    hide Outstanding, LockInv, Conserved, SessionInv;
    HoldsWhatItHas(v, t, s);
    HeldAtLeast(v.threads, t, s, Tokens);
  }

  lemma LostWhileFlushing(v: Pool, t: nat, a: Action, s: Id)
    requires Inv(v) && t < |v.threads| && Lost(v, s)
    ensures StaysLost(v, t, s, StepFlushing(v, t, a))
  {
    hide Outstanding, LockInv, Conserved, SessionInv;
    HeldAtLeast(v.threads, t, s, Tokens);
  }

  lemma LostWhileReturning(v: Pool, t: nat, a: Action, s: Id)
    requires Inv(v) && t < |v.threads| && Lost(v, s)
    ensures StaysLost(v, t, s, StepReturning(v, t, a))
  {
  }

  lemma LostInStep(v: Pool, t: nat, a: Action, s: Id)
    requires Inv(v) && t < |v.threads| && Lost(v, s)
    ensures StaysLost(v, t, s, Step(v, t, a))
  {
    hide Outstanding, LockInv, Conserved, SessionInv, StepAccepting, StepHandling, StepFlushing, StepReturning;
    hide StepIdle;
    HeldAtLeast(v.threads, t, s, Tokens);
    match v.threads[t] {
      case Idle =>
        LostWhileIdle(v, t, a, s);
      case _ =>
        LostWhileAccepting(v, t, a, s);
        LostWhileHandling(v, t, a, s);
        LostWhileFlushing(v, t, a, s);
        LostWhileReturning(v, t, a, s);
    }
  }

  /** A lost session never comes back to the list in any orderly run, whatever the threads do. */
  lemma {:induction false} LostForever(v: Pool, steps: seq<(nat, Action)>, s: Id)
    requires Inv(v) && Lost(v, s) && IsOrderlyRun(v, steps)
    ensures Run(v, steps).Went? && Inv(Run(v, steps).pool)
    ensures Lost(Run(v, steps).pool, s) && s !in Run(v, steps).pool.free
    decreases |steps|
  {
    hide SessionInv, LockInv, Conserved, Step, StaysLost, IsOrderly;
    if steps == [] {
      LostIsNotFree(v, s);
    } else {
      var (t, a) := steps[0];
      if t >= |v.threads| {
        LostForever(v, steps[1..], s);
      } else {
        StepFine(v, t, a);
        match Step(v, t, a)
        case Blocked => LostForever(v, steps[1..], s);
        case Went(w) =>
          LostInStep(v, t, a, s);
          LostAfter(v, t, s, w);
          LostForever(w, steps[1..], s);
      }
    }
  }

  lemma LostAfter(v: Pool, t: nat, s: Id, w: Pool)
    requires Shaped(v) && t < |v.threads| && Lost(v, s) && StaysLost(v, t, s, Went(w))
    ensures Lost(w, s)
  {
    HeldAtLeast(v.threads, t, s, Tokens);
    HeldMoves(v.threads, t, w.threads[t], s, Tokens);
  }

  lemma LostIsNotFree(v: Pool, s: Id)
    requires Inv(v) && Lost(v, s)
    ensures s !in v.free
  {
    assert SessionInv(v, s);
    assert s in v.free ==> multiset(v.free)[s] > 0;
  }

  // ----- which steps lose a session -----

  /** The steps in which the operating system refuses an accept or a disconnect of the session. */
  predicate Refuses(p: Thread, a: Action, s: Id) {
    || (p == DeletingAccept(s) && a.Go?)
    || (p.Posting? && p.s == s && p.next.IoDisconnect? && a.Fail?)
    || (p == PostingFlushDisconnect(s) && a.Fail?)
  }

  /** What losing a session takes: the thread has its last token and gives it up, and nothing else is under way. */
  ghost predicate Loses(v: Pool, t: nat, s: Id, o: Outcome)
    requires Shaped(v) && t < |v.threads|
  {
    && o.Went?
    && Shaped(o.pool)
    && |o.pool.threads| == |v.threads|
    && o.pool.threads == v.threads[t := o.pool.threads[t]]
    && Weight(o.pool.threads[t], s, Tokens) == 0
    && Held(v.threads, s, Tokens) == Weight(v.threads[t], s, Tokens)
    && var x := o.pool.sessions[s]; x.issueRef && x.accepts == 0 && x.disconnects == 0 && !x.connected
  }

  lemma LosesMeans(v: Pool, t: nat, s: Id, o: Outcome)
    requires Inv(v) && t < |v.threads|
    requires o.Went? ==>
               && Shaped(o.pool)
               && |o.pool.threads| == |v.threads|
               && o.pool.threads == v.threads[t := o.pool.threads[t]]
    ensures o.Went? && Lost(o.pool, s) <==> Loses(v, t, s, o)
  {
    if o.Went? {
      HeldMoves(v.threads, t, o.pool.threads[t], s, Tokens);
      HeldAtLeast(v.threads, t, s, Tokens);
      HeldAtLeast(o.pool.threads, t, s, Tokens);
    }
  }

  /** Only thread `t` moves. */
  lemma OneMoves(v: Pool, t: nat, a: Action)
    requires Shaped(v) && t < |v.threads|
    ensures var o := Step(v, t, a); o.Went? ==>
              && Shaped(o.pool)
              && |o.pool.threads| == |v.threads|
              && o.pool.threads == v.threads[t := o.pool.threads[t]]
  {
    hide Outstanding;
  }

  lemma LosesWhileAccepting(v: Pool, t: nat, a: Action, s: Id)
    requires Inv(v) && t < |v.threads| && !Lost(v, s)
    ensures Loses(v, t, s, StepAccepting(v, t, a)) <==> v.threads[t] == DeletingAccept(s) && a.Go?
  {
    hide LockInv, Conserved;
    assert SessionInv(v, s);
    HeldAtLeast(v.threads, t, s, Tokens);
    HeldAtLeast(v.threads, t, s, Refs);
  }

  lemma LosesWhileHandling(v: Pool, t: nat, a: Action, s: Id)
    requires Inv(v) && t < |v.threads| && !Lost(v, s)
    ensures Loses(v, t, s, StepHandling(v, t, a))
       <==> v.threads[t].Posting? && v.threads[t].s == s && v.threads[t].next.IoDisconnect? && a.Fail?
  {
    hide LockInv, Conserved;
    assert SessionInv(v, s);
    HeldAtLeast(v.threads, t, s, Tokens);
    HeldAtLeast(v.threads, t, s, Refs);
  }

  lemma LosesWhileFlushing(v: Pool, t: nat, a: Action, s: Id)
    requires Inv(v) && t < |v.threads| && !Lost(v, s)
    ensures Loses(v, t, s, StepFlushing(v, t, a)) <==> v.threads[t] == PostingFlushDisconnect(s) && a.Fail?
  {
    hide LockInv, Conserved;
    assert SessionInv(v, s);
    HeldAtLeast(v.threads, t, s, Tokens);
    HeldAtLeast(v.threads, t, s, Refs);
  }

  lemma LosesWhileReturning(v: Pool, t: nat, a: Action, s: Id)
    requires Inv(v) && t < |v.threads| && !Lost(v, s)
    ensures !Loses(v, t, s, StepReturning(v, t, a))
  {
    hide LockInv, Conserved;
    assert SessionInv(v, s);
    HeldAtLeast(v.threads, t, s, Tokens);
    HeldAtLeast(v.threads, t, s, Claims);
  }

  lemma LosesWhileIdle(v: Pool, t: nat, a: Action, s: Id)
    requires Inv(v) && t < |v.threads| && !Lost(v, s) && v.threads[t].Idle?
    ensures !Loses(v, t, s, StepIdle(v, t, a))
  {
    hide LockInv, Conserved;
  }

  /**
   * A step loses a session if and only if it is one in which an accept of it, or a disconnect of it, is
   * refused.
   */
  lemma StepLoses(v: Pool, t: nat, a: Action, s: Id)
    requires Inv(v) && t < |v.threads| && !Lost(v, s)
    ensures Step(v, t, a).Went? && Lost(Step(v, t, a).pool, s) <==> Refuses(v.threads[t], a, s)
  {
    OneMoves(v, t, a);
    LosesMeans(v, t, s, Step(v, t, a));
    hide Inv, Lost, Loses, StepAccepting, StepHandling, StepFlushing, StepReturning, StepIdle;
    match v.threads[t] {
      case Idle =>
        LosesWhileIdle(v, t, a, s);
      case _ =>
        LosesWhileAccepting(v, t, a, s);
        LosesWhileHandling(v, t, a, s);
        LosesWhileFlushing(v, t, a, s);
        LosesWhileReturning(v, t, a, s);
    }
  }

  /** A thread that can be refused holds a token, so the session was not lost before. */
  lemma RefusedWasNotLost(v: Pool, t: nat, a: Action, s: Id)
    requires Inv(v) && t < |v.threads| && Refuses(v.threads[t], a, s)
    ensures !Lost(v, s)
  {
    HeldAtLeast(v.threads, t, s, Tokens);
  }

  /** A failed AcceptEx loses the session it was called for. */
  lemma FailedAcceptLoses(v: Pool, t: nat)
    requires Inv(v) && t < |v.threads| && v.threads[t].DeletingAccept?
    ensures Step(v, t, Go).Went? && Lost(Step(v, t, Go).pool, v.threads[t].s)
  {
    hide Inv, Lost, Step;
    RefusedWasNotLost(v, t, Go, v.threads[t].s);
    StepLoses(v, t, Go, v.threads[t].s);
  }

  /** A failed DisconnectEx loses the session it was called for. */
  lemma FailedDisconnectLoses(v: Pool, t: nat)
    requires Inv(v) && t < |v.threads|
    requires (v.threads[t].Posting? && v.threads[t].next.IoDisconnect?) || v.threads[t].PostingFlushDisconnect?
    ensures Step(v, t, Fail).Went? && Lost(Step(v, t, Fail).pool, v.threads[t].s)
  {
    hide Inv, Lost, Step;
    RefusedWasNotLost(v, t, Fail, v.threads[t].s);
    StepLoses(v, t, Fail, v.threads[t].s);
  }
}
