/**
 * The session manager and its sessions as one thread sees them. If another thread is inside the lock, this
 * one waits until it has left, and then finds the manager as that thread has left it.
 */
module ClientSessions {
  import Pool = SessionPool

  class FastSpinlock {
    var lockFlag: int
    /** Whether it is this thread that holds the lock. */
    ghost var mine: bool

    constructor ()
      ensures lockFlag == 0 && !mine && fresh(this)
    {
      lockFlag := 0;
      mine := false;
    }

    method Exchange(value: int) returns (was: int)
      modifies this`lockFlag
      ensures lockFlag == value && was == old(lockFlag)
    {
      was := lockFlag;
      lockFlag := value;
    }

    /**
     * Exchanges until the flag was clear. A thread that holds the lock must not ask for it again; another
     * holder may leave at any time, and has left after `patience` tries.
     */
    method EnterLock(patience: nat)
      requires !mine
      modifies this
      ensures lockFlag != 0 && mine
    {
      var left := patience;
      var was := Exchange(1);
      while was != 0
        invariant lockFlag != 0 && !mine
        decreases left + if was != 0 then 1 else 0
      {
        var leaves: bool := *;
        if left == 0 || leaves {
          lockFlag := 0;
        } else {
          left := left - 1;
        }
        was := Exchange(1);
      }
      mine := true;
    }

    method LeaveLock()
      requires mine
      modifies this
      ensures lockFlag == 0 && !mine
    {
      var _ := Exchange(0);
      mine := false;
    }
  }

  class ClientSession {
    var connected: bool
    var refCount: int

    constructor ()
      ensures !connected && refCount == 0 && fresh(this)
    {
      connected := false;
      refCount := 0;
    }

    method SessionReset()
      modifies this
      ensures !connected && refCount == 0
    {
      connected := false;
      refCount := 0;
    }

    method AddRef()
      requires refCount >= 0
      modifies this`refCount
      ensures refCount == old(refCount) + 1
    {
      refCount := refCount + 1;
      assert refCount > 0;
    }

    /**
     * Dropping the last reference returns the session to its manager. Only then is the lock needed, so only
     * then must this thread not be inside it.
     */
    method ReleaseRef(manager: ClientSessionManager, others: Listing, patience: nat)
      requires refCount >= 1
      requires refCount == 1 ==> manager.MayEnter(others) && manager.MayReturn(this, others) && !connected
      modifies this`refCount
      modifies if refCount == 1 then {this, manager, manager.lock} else {}
      ensures old(refCount) > 1 ==> refCount == old(refCount) - 1
      ensures old(refCount) == 1 ==>
                && manager.Valid()
                && refCount == 0
                && manager.State().HasBack(this, old(manager.Found(others)))
    {
      refCount := refCount - 1;
      if refCount == 0 {
        manager.ReturnClientSession(this, others, patience);
      }
    }

    /**
     * Creates an I/O context, which takes a reference, and starts an accept. If that fails, the context is
     * deleted; the reference of the issue keeps the session from being returned under the lock.
     */
    method PostAccept(manager: ClientSessionManager) returns (ok: bool)
      requires refCount >= 1
      modifies this`refCount
      ensures refCount == old(refCount) + (if ok then 1 else 0)
    {
      AddRef();
      ok := *;
      if !ok {
        ReleaseRef(manager, manager.State(), 0);
      }
    }
  }

  /** What the lock protects: the list of free sessions and the two counters. */
  datatype Listing = Listing(free: seq<ClientSession>, issueCount: nat, returnCount: nat)
  {
    function Outstanding(): nat {
      (issueCount - returnCount) % Pool.TWO_64
    }

    /** The session is the last of the list, and its return is counted with 64 bits; nothing else has changed. */
    predicate HasBack(client: ClientSession, before: Listing) {
      && free == before.free + [client]
      && issueCount == before.issueCount
      && returnCount == if before.returnCount == 18446744073709551615 then 0 else before.returnCount + 1
    }

    /** The list holds distinct sessions without references, and with those outstanding they are all. */
    ghost predicate Valid()
      reads free
    {
      && (forall i, j :: 0 <= i < j < |free| ==> free[i] != free[j])
      && (forall i :: 0 <= i < |free| ==> free[i].refCount == 0 && !free[i].connected)
      && issueCount < Pool.TWO_64
      && returnCount < Pool.TWO_64
      && |free| + Outstanding() == Pool.MAX_CONNECTION
    }
  }

  class ClientSessionManager {
    const lock: FastSpinlock
    var free: seq<ClientSession>
    var issueCount: nat
    var returnCount: nat

    function State(): Listing
      reads this
    {
      Listing(free, issueCount, returnCount)
    }

    ghost predicate Valid()
      reads this, lock, free
    {
      lock.lockFlag == 0 && !lock.mine && State().Valid()
    }

    /** What this thread finds inside the lock, if another holder leaves `others` behind. */
    function Found(others: Listing): Listing
      reads this, lock
    {
      if lock.lockFlag == 0 then State() else others
    }

    /** This thread is not inside the lock, and whoever may be leaves things in order. */
    ghost predicate MayEnter(others: Listing)
      reads this, lock, Found(others).free
    {
      !lock.mine && Found(others).Valid()
    }

    /** A session outside the list may come back if one is outstanding. */
    ghost predicate MayReturn(client: ClientSession, others: Listing)
      reads this, lock
    {
      client !in Found(others).free && Found(others).Outstanding() > 0
    }

    constructor ()
      ensures State() == Listing([], 0, 0) && lock.lockFlag == 0 && !lock.mine
      ensures fresh(this) && fresh(lock)
    {
      lock := new FastSpinlock();
      free := [];
      issueCount, returnCount := 0, 0;
    }

    method PrepareClientSessions()
      requires State() == Listing([], 0, 0) && lock.lockFlag == 0 && !lock.mine
      modifies this`free
      ensures Valid() && |free| == Pool.MAX_CONNECTION && forall c <- free :: fresh(c)
    {
      var i := 0;
      while i < Pool.MAX_CONNECTION
        invariant 0 <= i <= Pool.MAX_CONNECTION && |free| == i
        invariant forall c <- free :: fresh(c)
        invariant forall j, k :: 0 <= j < k < |free| ==> free[j] != free[k]
        invariant forall k :: 0 <= k < |free| ==> free[k].refCount == 0 && !free[k].connected
      {
        var client := new ClientSession();
        free := free + [client];
        i := i + 1;
      }
    }

    /** Enters the lock; what another thread did inside it meanwhile is there to see. */
    method Enter(others: Listing, patience: nat)
      requires !lock.mine
      modifies this, lock
      ensures lock.lockFlag != 0 && lock.mine && State() == old(Found(others))
    {
      if lock.lockFlag != 0 {
        free, issueCount, returnCount := others.free, others.issueCount, others.returnCount;
      }
      lock.EnterLock(patience);
    }

    method ReturnClientSession(client: ClientSession, others: Listing, patience: nat)
      requires MayEnter(others) && MayReturn(client, others) && !client.connected && client.refCount == 0
      modifies this, lock, client
      ensures Valid() && client.refCount == 0
      ensures State().HasBack(client, old(Found(others)))
    {
      Enter(others, patience);
      assert !client.connected && client.refCount == 0;
      PutBack(client);
      lock.LeaveLock();
    }

    /** Resets the session, puts it at the end of the list and counts it. */
    method PutBack(client: ClientSession)
      requires State().Valid() && client !in free && State().Outstanding() > 0
      modifies this, client
      ensures State().Valid() && client.refCount == 0
      ensures State().HasBack(client, old(State()))
    {
      client.SessionReset();
      free := free + [client];
      Pool.CountersWrap(issueCount, returnCount);
      returnCount := (returnCount + 1) % Pool.TWO_64;
    }

    /** Takes the last session off the list, counts it and starts its accept. */
    method IssueOne() returns (posted: bool)
      requires State().Valid() && State().Outstanding() < Pool.MAX_CONNECTION
      modifies this`free, this`issueCount, if free == [] then {} else {free[|free| - 1]}
      ensures |old(free)| > 0 && free == old(free)[..|old(free)| - 1]
      ensures State().Valid() && issueCount == (old(issueCount) + 1) % Pool.TWO_64
      ensures old(free)[|old(free)| - 1].refCount == if posted then 2 else 1
    {
      var client := free[|free| - 1];
      free := free[..|free| - 1];
      Pool.CountersWrap(issueCount, returnCount);
      issueCount := (issueCount + 1) % Pool.TWO_64;
      client.AddRef();
      posted := client.PostAccept(this);
    }

    /**
     * Issues free sessions, from the end of the list, until none is left or an accept cannot be started.
     * Every session issued holds the reference of its issue and, but for the last one of a failed call,
     * that of its pending accept.
     */
    method AcceptClientSessions(others: Listing, patience: nat) returns (ok: bool)
      requires MayEnter(others)
      modifies this, lock, Found(others).free
      ensures Valid()
      ensures
        var found := old(Found(others));
        && Issued(found) && returnCount == found.returnCount
        && (ok ==> free == [] && forall c <- found.free :: c.refCount == 2)
        && (!ok ==>
              && |free| < |found.free|
              && found.free[|free|].refCount == 1
              && forall i :: |free| < i < |found.free| ==> found.free[i].refCount == 2)
    {
      Enter(others, patience);
      ok := IssueFree();
      lock.LeaveLock();
    }

    method IssueFree() returns (ok: bool)
      requires State().Valid()
      modifies this, free
      ensures State().Valid() && Issued(old(State())) && returnCount == old(returnCount)
      ensures ok ==> free == [] && forall c <- old(free) :: c.refCount == 2
      ensures !ok ==>
                && |free| < |old(free)|
                && old(free)[|free|].refCount == 1
                && forall i :: |free| < i < |old(free)| ==> old(free)[i].refCount == 2
    {
      hide Listing.Outstanding, Wrapped;
      Unwrapped(issueCount);
      while State().Outstanding() < Pool.MAX_CONNECTION
        invariant State().Valid() && Issued(old(State())) && returnCount == old(returnCount)
        invariant forall i :: |free| <= i < |old(free)| ==> old(free)[i].refCount == 2
        decreases |free|
      {
        ghost var before := free;
        var posted := IssueOne();
        OneMoreIssued(old(issueCount), |old(free)|, |before|);
        assert old(free)[|free|] == before[|free|];
        if !posted {
          return false;
        }
      }
      return true;
    }

    /** What is left of the list is a beginning of `found`, and the rest has been counted as issued. */
    ghost predicate Issued(found: Listing)
      reads this
    {
      && |free| <= |found.free| && free == found.free[..|free|]
      && issueCount == Wrapped(found.issueCount + |found.free| - |free|)
    }
  }

  /** What a 64-bit counter shows of a count. */
  function Wrapped(n: nat): nat {
    n % Pool.TWO_64
  }

  lemma Unwrapped(n: nat)
    ensures n < Pool.TWO_64 ==> Wrapped(n) == n
  {
  }

  lemma OneMoreIssued(start: nat, all: nat, left: nat)
    requires 0 < left <= all
    ensures (Wrapped(start + all - left) + 1) % Pool.TWO_64 == Wrapped(start + all - (left - 1))
  {
  }
}
