/** What keeps the threads of SharedList going: finds do not keep each other out, and nobody is ever stuck. */
module SharedProgress {
  import opened ListMemory
  import opened Wrappers
  import opened SharedList
  import L = RwLock
  import P = LockProgress
  import Lin = Linearizability

  /** The thread is not in an insert or a toggle. */
  predicate OnlyReads(l: Local) {
    (l.Pending? || l.Walking? || l.Linking? || l.Finished?) ==> l.op.Find?
  }

  /** Finds run side by side: a find that tests the lock is let in unless another thread is in an insert or a toggle. */
  lemma FindsShare(n: nat, run: seq<Action>, s: Shared, u: nat)
    requires Lin.Reaches(n, run, s) && u < |s.locals| == |s.lock.phases|
    requires s.lock.phases[u].Testing?
    requires forall t | 0 <= t < |s.locals| :: OnlyReads(s.locals[t])
    ensures Enabled(s, Lock(L.Test(u)))
    ensures Apply(s, Lock(L.Test(u))).lock.phases[u].Granted?
    ensures Apply(s, Lock(L.Test(u))).lock.readers == s.lock.readers + 1
  {
    Lin.ReachableInv(n, run, s);
    forall t | 0 <= t < |s.lock.phases|
      ensures L.HoldWeight(L.Write)(s.lock.phases[t]) == 0
    {
      Lin.InvAt(s, t);
    }
    L.TotalZero(s.lock.phases, L.HoldWeight(L.Write));
    Lin.InvAt(s, u);
  }

  /** An insert or toggle that tests the lock is let in exactly when no thread has the lock. */
  lemma WritersAlone(n: nat, run: seq<Action>, s: Shared, u: nat)
    requires Lin.Reaches(n, run, s) && u < |s.locals| == |s.lock.phases|
    requires s.lock.phases[u].Testing? && !OnlyReads(s.locals[u])
    ensures Enabled(s, Lock(L.Test(u)))
    ensures Apply(s, Lock(L.Test(u))).lock.phases[u].Granted? <==>
            forall t | 0 <= t < |s.lock.phases| :: !L.Holds(s.lock.phases[t], L.Read) && !L.Holds(s.lock.phases[t], L.Write)
  {
    Lin.ReachableInv(n, run, s);
    Lin.InvAt(s, u);
    NobodyHolds(s.lock);
  }

  lemma NobodyHolds(s: L.State)
    requires L.CountsExact(s)
    ensures s.readers == 0 && s.writers == 0 <==>
            forall t | 0 <= t < |s.phases| :: !L.Holds(s.phases[t], L.Read) && !L.Holds(s.phases[t], L.Write)
  {
    if forall t | 0 <= t < |s.phases| :: !L.Holds(s.phases[t], L.Read) && !L.Holds(s.phases[t], L.Write) {
      L.TotalZero(s.phases, L.HoldWeight(L.Write));
      L.TotalZero(s.phases, L.HoldWeight(L.Read));
    } else {
      var t :| 0 <= t < |s.phases| && (L.Holds(s.phases[t], L.Read) || L.Holds(s.phases[t], L.Write));
      L.TotalAtLeast(s.phases, L.HoldWeight(L.Read), t);
      L.TotalAtLeast(s.phases, L.HoldWeight(L.Write), t);
    }
  }

  /** A step that is neither a new call nor an unprompted wake-up. */
  predicate Progress(a: Action) {
    !a.Invoke? && (a.Lock? ==> P.Progress(a.step))
  }

  lemma FreshBlock(mem: Memory) returns (block: nat)
    ensures block != NULL && block !in mem
  {
    block := Above(mem.Keys);
  }

  /** An address above all of these. */
  lemma Above(s: set<nat>) returns (block: nat)
    ensures block > 0 && forall x | x in s :: x < block
    decreases s
  {
    if s == {} {
      block := 1;
    } else {
      var x :| x in s;
      var rest := Above(s - {x});
      assert forall y | y in s :: y == x || y in s - {x};
      block := if x < rest then rest else x + 1;
    }
  }

  /** The next step of a thread that holds the lock, or has just given it back. */
  lemma OwnStep(s: Shared, t: nat) returns (a: Action)
    requires Lin.Inv(s) && t < |s.locals|
    requires s.lock.phases[t].Inside? || (s.lock.phases[t].Outside? && !s.locals[t].Idle?)
    ensures Enabled(s, a) && Progress(a)
  {
    Lin.InvAt(s, t);
    var l := s.locals[t];
    if l.Finished? {
      a := if s.lock.phases[t].Inside? then Leave(t) else Return(t);
    } else if l.Pending? {
      a := Begin(t);
    } else if l.Linking? {
      a := Link(t);
    } else {
      var block := FreshBlock(s.mem);
      a := if l.op.Insert? && Stopped(s.mem, l.cur, l.op.index) && !Hit(s.mem, l) then Allocate(t, block) else Walk(t);
    }
  }

  /** The thread is at a step of its own, outside the lock's code. */
  predicate AtOwnStep(s: Shared, t: nat)
    requires t < |s.locals| == |s.lock.phases|
  {
    s.lock.phases[t].Inside? || (s.lock.phases[t].Outside? && !s.locals[t].Idle?)
  }

  lemma LockStep(s: Shared)
    requires Lin.Inv(s) && !P.AllOutside(s.lock)
    requires forall u | 0 <= u < |s.locals| :: !AtOwnStep(s, u)
    ensures exists a :: Enabled(s, a) && Progress(a)
  {
    P.SomeoneCanStep(s.lock);
    var step :| L.Enabled(s.lock, step) && P.Progress(step);
    assert !AtOwnStep(s, step.t);
    assert Enabled(s, Lock(step)) && Progress(Lock(step));
  }

  /** No deadlock: in every reachable state in which some call is in progress, some thread can take a step, and without help from a
      new call or an unprompted wake-up. */
  lemma NeverStuck(n: nat, run: seq<Action>, s: Shared, t: nat)
    requires Lin.Reaches(n, run, s)
    requires t < |s.locals| && !s.locals[t].Idle?
    ensures exists a :: Enabled(s, a) && Progress(a)
  {
    Lin.ReachableInv(n, run, s);
    if u: nat :| u < |s.locals| && AtOwnStep(s, u) {
      var a := OwnStep(s, u);
    } else {
      assert !AtOwnStep(s, t);
      assert !s.lock.phases[t].Outside?;
      LockStep(s);
    }
  }
}
