/**
 * What happens without order: a thread that flushes a session holds no reference of it, so the session can
 * be returned between its test and its next access. Two runs from the prepared pool that end badly. Here as
 * in the source, the thread flushes what it has queued when it handled something received.
 */
module FlushRaces {
  import opened SessionPool

  const S: Id := 9999
  const OTHER: Id := 9998

  ghost predicate Reaches(v: Pool, w: Pool)
    requires Shaped(v)
  {
    exists steps :: Run(v, steps) == Went(w)
  }

  ghost predicate Breaks(v: Pool, why: Failure)
    requires Shaped(v)
  {
    exists steps :: Run(v, steps) == Broken(why)
  }

  lemma {:induction false} RunOneMore(v: Pool, steps: seq<(nat, Action)>, w: Pool, t: nat, a: Action)
    requires Shaped(v) && Run(v, steps) == Went(w) && Shaped(w) && t < |w.threads| && !Step(w, t, a).Blocked?
    ensures Run(v, steps + [(t, a)]) == Step(w, t, a)
    decreases |steps|
  {
    hide Step;
    var more := steps + [(t, a)];
    if steps == [] {
      assert more[0] == (t, a) && more[1..] == [];
    } else {
      assert more[0] == steps[0] && more[1..] == steps[1..] + [(t, a)];
      var (u, b) := steps[0];
      if u >= |v.threads| || Step(v, u, b).Blocked? {
        RunOneMore(v, steps[1..], w, t, a);
      } else {
        RunOneMore(Step(v, u, b).pool, steps[1..], w, t, a);
      }
    }
  }

  lemma ReachesItself(v: Pool)
    requires Shaped(v)
    ensures Reaches(v, v)
  {
    assert Run(v, []) == Went(v);
  }

  lemma Next(v: Pool, w: Pool, t: nat, a: Action) returns (u: Pool)
    requires Shaped(v) && Reaches(v, w) && Shaped(w) && t < |w.threads| && Step(w, t, a).Went?
    ensures Reaches(v, u) && Shaped(u) && Went(u) == Step(w, t, a)
  {
    hide Step;
    var steps :| Run(v, steps) == Went(w);
    RunOneMore(v, steps, w, t, a);
    u := Step(w, t, a).pool;
  }

  lemma Last(v: Pool, w: Pool, t: nat, a: Action)
    requires Shaped(v) && Reaches(v, w) && Shaped(w) && t < |w.threads| && Step(w, t, a).Broken?
    ensures Breaks(v, Step(w, t, a).why)
  {
    hide Step;
    var steps :| Run(v, steps) == Went(w);
    RunOneMore(v, steps, w, t, a);
  }

  /** Three threads and the session as given; the lock is clear unless said otherwise. */
  predicate Stands(w: Pool, locked: bool, p: Thread, q: Thread, r: Thread, x: Session) {
    && Shaped(w)
    && w.lockFlag == locked
    && |w.threads| >= 3
    && w.threads[0] == p
    && w.threads[1] == q
    && w.threads[2] == r
    && w.sessions[S] == x
  }

  /** An accept is started for the last session of the list. */
  lemma Accepting(v: Pool) returns (w: Pool)
    requires Init(v) && |v.threads| >= 3
    ensures Reaches(v, w) && Stands(w, true, Testing, Idle, Idle, Session(2, false, true, 1, 0, 0))
    ensures w.issueCount == 1 && w.returnCount == 0 && w.free == v.free[..S]
    ensures w.sessions[OTHER] == Session(0, false, false, 0, 0, 0)
  {
    hide Reaches;
    ReachesItself(v);
    w := Next(v, v, 0, StartAccept);
    w := Next(v, w, 0, Go);
    w := Next(v, w, 0, Go);
    w := Next(v, w, 0, Go);
    w := Next(v, w, 0, Go);
    w := Next(v, w, 0, Go);
    w := Next(v, w, 0, Go);
    w := Next(v, w, 0, Succeed);
  }

  /** The next accept is refused, so the accepting thread leaves. */
  lemma Refused(v: Pool, before: Pool) returns (w: Pool)
    requires Shaped(v) && Reaches(v, before)
    requires Stands(before, true, Testing, Idle, Idle, Session(2, false, true, 1, 0, 0))
    requires before.issueCount == 1 && before.returnCount == 0
    requires |before.free| == S && before.free[OTHER] == OTHER
    requires before.sessions[OTHER] == Session(0, false, false, 0, 0, 0)
    ensures Reaches(v, w) && Stands(w, false, Idle, Idle, Idle, Session(2, false, true, 1, 0, 0))
  {
    hide Reaches;
    w := Next(v, before, 0, Go);
    w := Next(v, w, 0, Go);
    w := Next(v, w, 0, Go);
    w := Next(v, w, 0, Go);
    w := Next(v, w, 0, Go);
    w := Next(v, w, 0, Fail);
    w := Next(v, w, 0, Go);
    w := Next(v, w, 0, Go);
  }

  /** The session is connected, its first receive is posted, and thread 1 takes that and posts the next. */
  lemma Receiving(v: Pool, before: Pool) returns (w: Pool)
    requires Shaped(v) && Reaches(v, before)
    requires Stands(before, false, Idle, Idle, Idle, Session(2, false, true, 1, 0, 0))
    ensures Reaches(v, w) && Stands(w, false, Idle, Idle, Idle, Session(2, true, true, 0, 0, 1))
  {
    hide Reaches;
    w := Next(v, before, 1, Dequeue(S, IoAccept));
    w := Next(v, w, 1, Go);
    w := Next(v, w, 1, Post);
    w := Next(v, w, 1, Succeed);
    w := Next(v, w, 1, Finish);
    w := Next(v, w, 1, Dequeue(S, IoOther));
    w := Next(v, w, 1, Go);
    w := Next(v, w, 1, Post);
    w := Next(v, w, 1, Succeed);
    w := Next(v, w, 1, Finish);
  }

  /** Thread 2 takes what was received, queues an answer, and posts one more receive. */
  lemma Answering(v: Pool, before: Pool) returns (w: Pool)
    requires Shaped(v) && Reaches(v, before)
    requires Stands(before, false, Idle, Idle, Idle, Session(2, true, true, 0, 0, 1))
    ensures Reaches(v, w) && Stands(w, false, Idle, Idle, Idle, Session(2, true, true, 0, 0, 1))
  {
    hide Reaches;
    w := Next(v, before, 2, Dequeue(S, IoOther));
    w := Next(v, w, 2, Go);
    w := Next(v, w, 2, Post);
    w := Next(v, w, 2, Succeed);
    w := Next(v, w, 2, Finish);
  }

  /** Then it starts to flush what it has queued, and finds the session connected. */
  lemma StartsToFlush(v: Pool, before: Pool) returns (w: Pool)
    requires Shaped(v) && Reaches(v, before)
    requires Stands(before, false, Idle, Idle, Idle, Session(2, true, true, 0, 0, 1))
    ensures Reaches(v, w) && Stands(w, false, Idle, Idle, Flushing(S), Session(2, true, true, 0, 0, 1))
  {
    hide Reaches;
    w := Next(v, before, 2, Flush(S));
  }

  /** Meanwhile thread 1 takes that receive, cannot post another, and disconnects the session. */
  lemma Disconnected(v: Pool, before: Pool) returns (w: Pool)
    requires Shaped(v) && Reaches(v, before)
    requires Stands(before, false, Idle, Idle, Flushing(S), Session(2, true, true, 0, 0, 1))
    ensures Reaches(v, w)
    ensures Stands(w, false, Idle, Handling(S, IoDisconnect, true), Flushing(S), Session(1, false, false, 0, 0, 0))
  {
    hide Reaches;
    w := Next(v, before, 1, Dequeue(S, IoOther));
    w := Next(v, w, 1, Go);
    w := Next(v, w, 1, Post);
    w := Next(v, w, 1, Fail);
    w := Next(v, w, 1, RequestDisconnect);
    w := Next(v, w, 1, Go);
    w := Next(v, w, 1, Succeed);
    w := Next(v, w, 1, Finish);
    w := Next(v, w, 1, Dequeue(S, IoDisconnect));
    w := Next(v, w, 1, Go);
  }

  lemma Raced(v: Pool) returns (w: Pool)
    requires Init(v) && |v.threads| >= 3
    ensures Reaches(v, w)
    ensures Stands(w, false, Idle, Handling(S, IoDisconnect, true), Flushing(S), Session(1, false, false, 0, 0, 0))
  {
    hide Reaches;
    w := Accepting(v);
    w := Refused(v, w);
    w := Receiving(v, w);
    w := Answering(v, w);
    w := StartsToFlush(v, w);
    w := Disconnected(v, w);
  }

  /**
   * With three threads, a context created for a session that is being returned makes the assertion of the
   * return fail; and a send that fails when its context is the last reference waits for the lock of the
   * send buffer, which the thread holds.
   */
  lemma FlushCanBreak(v: Pool)
    requires Init(v) && |v.threads| >= 3
    ensures Breaks(v, AssertionFailed)
    ensures Breaks(v, OwnLockAwaited)
  {
    hide Reaches, Breaks;
    var raced := Raced(v);
    var w := Next(v, raced, 1, Finish);
    w := Next(v, w, 2, Go);
    w := Next(v, w, 1, Go);
    Last(v, w, 1, Go);
    w := Next(v, raced, 2, Go);
    w := Next(v, w, 1, Finish);
    Last(v, w, 2, Fail);
  }

  /** As they must, these runs have a step that is not orderly. */
  lemma BreakingIsDisorderly(v: Pool, steps: seq<(nat, Action)>)
    requires Init(v) && Run(v, steps).Broken?
    ensures !IsOrderlyRun(v, steps)
  {
    if IsOrderlyRun(v, steps) {
      EveryRunIsSafe(v, steps);
    }
  }
}
