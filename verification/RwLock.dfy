/** The reader/writer lock of queue/rdwr.c as a step-level monitor.

    Every thread runs one atomic step at a time. A step is what one thread does between two points
    at which another thread can get in: take the mutex, evaluate a `while` condition, fall asleep
    (which releases the mutex in the same step), raise or lower a counter, signal, release the mutex.

    The condition variable follows IEEE Std 1003.1-2017, System Interfaces, pthread_cond_signal and
    pthread_cond_wait: a signal wakes at least one sleeper if there is one, a broadcast wakes all of
    them, and a sleeper may also wake up for no reason. */
module RwLock {
  import opened Wrappers

  datatype Kind = Read | Write

  datatype Phase =
    | Outside              // no call in progress and the lock not held
    | Entering(kind: Kind) // has called rlock or wlock and wants the mutex
    | Testing(kind: Kind)  // has the mutex and is about to evaluate the `while` condition
    | Asleep(kind: Kind)   // inside pthread_cond_wait
    | Woken(kind: Kind)    // has left the wait queue and wants the mutex back
    | Granted(kind: Kind)  // has raised its counter and still has the mutex
    | Inside(kind: Kind)   // rlock or wlock has returned: the protected section
    | Leaving(kind: Kind)  // has called runlock or wunlock and wants the mutex
    | Dropping(kind: Kind) // has the mutex and is about to test its counter against zero
    | Notifying(kind: Kind) // has cleared its counter and is about to signal or broadcast
    | Closing              // is about to release the mutex and return

  datatype State = State(readers: nat, writers: nat, mutex: Option<nat>, phases: seq<Phase>)

  datatype Action =
    | Call(t: nat, kind: Kind)         // a thread calls rlock or wlock
    | TakeMutex(t: nat)
    | Test(t: nat)                     // one evaluation of the `while` condition
    | Release(t: nat)                  // unlock the mutex and return
    | Exit(t: nat)                     // the section ends: the thread calls runlock or wunlock
    | Drop(t: nat)                     // runlock or wunlock up to its notification
    | Notify(t: nat, woken: set<nat>)  // signal or broadcast, with the sleepers it wakes
    | Spurious(t: nat)                 // a sleeper wakes up unprompted

  function Init(n: nat): State {
    State(0, 0, None, seq(n, _ => Outside))
  }

  predicate WantsMutex(p: Phase) {
    p.Entering? || p.Woken? || p.Leaving?
  }

  predicate HasMutex(p: Phase) {
    p.Testing? || p.Granted? || p.Dropping? || p.Notifying? || p.Closing?
  }

  /** The thread has been counted in by its lock call and not yet counted out. */
  predicate Holds(p: Phase, k: Kind) {
    (p.Granted? || p.Inside? || p.Leaving? || p.Dropping?) && p.kind == k
  }

  function Sleepers(phases: seq<Phase>): set<nat> {
    set t | 0 <= t < |phases| && phases[t].Asleep?
  }

  function Wake(phases: seq<Phase>, woken: set<nat>): seq<Phase> {
    seq(|phases|, t requires 0 <= t < |phases| =>
      if t in woken && phases[t].Asleep? then Woken(phases[t].kind) else phases[t])
  }

  /** The `while` condition of rlock, and that of wlock. */
  predicate MustWait(s: State, k: Kind) {
    s.writers != 0 || (k == Write && s.readers != 0)
  }

  /** What pthread_cond_signal, called by a reader, or pthread_cond_broadcast, called by a writer, may wake. */
  predicate MayWake(phases: seq<Phase>, k: Kind, woken: set<nat>) {
    var sleepers := Sleepers(phases);
    && woken <= sleepers
    && (k == Read && sleepers != {} ==> woken != {})
    && (k == Write ==> woken == sleepers)
  }

  predicate Enabled(s: State, a: Action) {
    && a.t < |s.phases|
    && var p := s.phases[a.t];
       match a
       case Call(_, _) => p.Outside?
       case TakeMutex(_) => WantsMutex(p) && s.mutex.None?
       case Test(_) => p.Testing?
       case Release(_) => p.Granted? || p.Closing?
       case Exit(_) => p.Inside?
       case Drop(_) => p.Dropping?
       case Notify(_, woken) => p.Notifying? && MayWake(s.phases, p.kind, woken)
       case Spurious(_) => p.Asleep?
  }

  function Move(s: State, t: nat, p: Phase): State
    requires t < |s.phases|
  {
    s.(phases := s.phases[t := p])
  }

  function Apply(s: State, a: Action): (s': State)
    requires Enabled(s, a)
  {
    var p := s.phases[a.t];
    match a
    case Call(t, k) => Move(s, t, Entering(k))
    case TakeMutex(t) =>
      Move(s, t, if p.Leaving? then Dropping(p.kind) else Testing(p.kind)).(mutex := Some(t))
    case Test(t) =>
      if MustWait(s, p.kind) then
        Move(s, t, Asleep(p.kind)).(mutex := None)
      else if p.kind == Read then
        Move(s, t, Granted(Read)).(readers := s.readers + 1)
      else
        Move(s, t, Granted(Write)).(writers := s.writers + 1)
    case Release(t) =>
      Move(s, t, if p.Granted? then Inside(p.kind) else Outside).(mutex := None)
    case Exit(t) => Move(s, t, Leaving(p.kind))
    case Drop(t) =>
      if p.kind == Read then
        if s.readers == 0 then Move(s, t, Closing)  // runlock returns -1
        else if s.readers == 1 then Move(s, t, Notifying(Read)).(readers := 0)
        else Move(s, t, Closing).(readers := s.readers - 1)
      else
        if s.writers == 0 then Move(s, t, Closing)  // wunlock returns -1
        else Move(s, t, Notifying(Write)).(writers := 0)
    case Notify(t, woken) => Move(s.(phases := Wake(s.phases, woken)), t, Closing)
    case Spurious(t) => Move(s, t, Woken(p.kind))
  }

  // ---------- Runs ----------

  predicate CanRun(s: State, run: seq<Action>)
    decreases |run|
  {
    run == [] || (Enabled(s, run[0]) && CanRun(Apply(s, run[0]), run[1..]))
  }

  function After(s: State, run: seq<Action>): State
    requires CanRun(s, run)
    decreases |run|
  {
    if run == [] then s else After(Apply(s, run[0]), run[1..])
  }

  // ---------- Sums over the threads ----------

  function Total(phases: seq<Phase>, weight: Phase -> nat): nat {
    if phases == [] then 0
    else Total(phases[..|phases| - 1], weight) + weight(phases[|phases| - 1])
  }

  lemma {:induction false} TotalUpdate(phases: seq<Phase>, weight: Phase -> nat, t: nat, p: Phase)
    requires t < |phases|
    ensures Total(phases[t := p], weight) == Total(phases, weight) - weight(phases[t]) + weight(p)
  {
    var n := |phases| - 1;
    if t == n {
      assert phases[t := p][..n] == phases[..n];
    } else {
      assert phases[t := p][..n] == phases[..n][t := p];
      TotalUpdate(phases[..n], weight, t, p);
    }
  }

  lemma {:induction false} TotalAtLeast(phases: seq<Phase>, weight: Phase -> nat, t: nat)
    requires t < |phases|
    ensures weight(phases[t]) <= Total(phases, weight)
  {
    var n := |phases| - 1;
    if t < n {
      TotalAtLeast(phases[..n], weight, t);
    }
  }

  lemma {:induction false} TotalZero(phases: seq<Phase>, weight: Phase -> nat)
    requires forall t | 0 <= t < |phases| :: weight(phases[t]) == 0
    ensures Total(phases, weight) == 0
  {
    if phases != [] {
      TotalZero(phases[..|phases| - 1], weight);
    }
  }

  /** A wake-up changes a sum by at most what each sleeper gains. */
  lemma {:induction false} TotalWake(phases: seq<Phase>, weight: Phase -> nat, woken: set<nat>, gain: nat)
    requires forall k :: weight(Asleep(k)) <= weight(Woken(k)) <= weight(Asleep(k)) + gain
    ensures Total(phases, weight) <= Total(Wake(phases, woken), weight) <= Total(phases, weight) + gain * |phases|
  {
    if phases != [] {
      var n := |phases| - 1;
      TotalWake(phases[..n], weight, woken, gain);
      assert Wake(phases, woken)[..n] == Wake(phases[..n], woken);
      assert gain * |phases| == gain * n + gain;
    }
  }

  function HoldWeight(k: Kind): Phase -> nat {
    (p: Phase) => if Holds(p, k) then 1 else 0
  }

  /** How many threads hold the lock for reading, or for writing. */
  function Holders(s: State, k: Kind): nat {
    Total(s.phases, HoldWeight(k))
  }

  // ---------- The invariant ----------

  ghost predicate MutexExact(s: State) {
    && (s.mutex.Some? ==> s.mutex.value < |s.phases| && HasMutex(s.phases[s.mutex.value]))
    && forall t | 0 <= t < |s.phases| && HasMutex(s.phases[t]) :: s.mutex == Some(t)
  }

  ghost predicate CountsExact(s: State) {
    && s.readers == Holders(s, Read)
    && s.writers == Holders(s, Write)
    && s.writers <= 1
    && (s.readers == 0 || s.writers == 0)
  }

  /** A thread that will still evaluate the `while` condition, or wake those who will. */
  predicate WillRetest(p: Phase) {
    p.Woken? || p.Testing? || p.Notifying?
  }

  ghost predicate SleepJustified(s: State) {
    // a reader sleeps only while a writer writes, or until that writer's broadcast
    && (forall t | 0 <= t < |s.phases| && s.phases[t] == Asleep(Read) ::
          s.writers > 0 || exists u | 0 <= u < |s.phases| :: s.phases[u] == Notifying(Write))
    // nobody sleeps on a free lock unless someone is on the way to test it
    && (forall t | 0 <= t < |s.phases| && s.phases[t].Asleep? ::
          s.readers > 0 || s.writers > 0 || exists u | 0 <= u < |s.phases| :: WillRetest(s.phases[u]))
    && (forall t | 0 <= t < |s.phases| && s.phases[t].Notifying? :: s.readers == 0 && s.writers == 0)
  }

  ghost predicate Inv(s: State) {
    MutexExact(s) && CountsExact(s) && SleepJustified(s)
  }

  lemma InitInv(n: nat)
    ensures Inv(Init(n))
  {
    TotalZero(Init(n).phases, HoldWeight(Read));
    TotalZero(Init(n).phases, HoldWeight(Write));
  }

  /** Both counters move by exactly the change in one thread's standing. */
  lemma HoldersAfter(s: State, a: Action, k: Kind)
    requires Enabled(s, a)
    ensures var p, q := s.phases[a.t], Apply(s, a).phases[a.t];
            Holders(Apply(s, a), k) == Holders(s, k) - HoldWeight(k)(p) + HoldWeight(k)(q)
  {
    var w := HoldWeight(k);
    var s' := Apply(s, a);
    if a.Notify? {
      TotalWake(s.phases, w, a.woken, 0);
      TotalUpdate(Wake(s.phases, a.woken), w, a.t, Closing);
    } else {
      TotalUpdate(s.phases, w, a.t, s'.phases[a.t]);
    }
  }

  lemma StepKeepsMutex(s: State, a: Action)
    requires Inv(s) && Enabled(s, a)
    ensures MutexExact(Apply(s, a))
  {
    var s' := Apply(s, a);
    assert HasMutex(s.phases[a.t]) ==> s.mutex == Some(a.t);
    forall u | 0 <= u < |s'.phases| && u != a.t && HasMutex(s'.phases[u])
      ensures HasMutex(s.phases[u])
    {
    }
  }

  lemma StepKeepsCounts(s: State, a: Action)
    requires Inv(s) && Enabled(s, a)
    ensures CountsExact(Apply(s, a))
  {
    HoldersAfter(s, a, Read);
    HoldersAfter(s, a, Write);
    TotalAtLeast(s.phases, HoldWeight(Read), a.t);
    TotalAtLeast(s.phases, HoldWeight(Write), a.t);
  }

  lemma StepKeepsSleep(s: State, a: Action)
    requires Inv(s) && Enabled(s, a)
    ensures SleepJustified(Apply(s, a))
  {
    var s' := Apply(s, a);
    forall t | 0 <= t < |s'.phases| && s'.phases[t] == Asleep(Read)
      ensures s'.writers > 0 || exists u | 0 <= u < |s'.phases| :: s'.phases[u] == Notifying(Write)
    {
      if s.phases[t] == Asleep(Read) && s.writers == 0 {
        var u :| 0 <= u < |s.phases| && s.phases[u] == Notifying(Write);
        assert s.mutex == Some(u);
        assert u != a.t ==> s'.phases[u] == s.phases[u];
      } else if s.phases[t] == Asleep(Read) && s'.writers == 0 {
        assert s'.phases[a.t] == Notifying(Write);
      }
    }
    forall t | 0 <= t < |s'.phases| && s'.phases[t].Asleep?
      ensures s'.readers > 0 || s'.writers > 0 || exists u | 0 <= u < |s'.phases| :: WillRetest(s'.phases[u])
    {
      StepKeepsRetest(s, a, t);
    }
  }

  lemma StepKeepsRetest(s: State, a: Action, t: nat)
    requires Inv(s) && Enabled(s, a)
    requires t < |s.phases| && Apply(s, a).phases[t].Asleep?
    ensures var s' := Apply(s, a);
            s'.readers > 0 || s'.writers > 0 || exists u | 0 <= u < |s'.phases| :: WillRetest(s'.phases[u])
  {
    var s' := Apply(s, a);
    if s'.readers == 0 && s'.writers == 0 {
      if a.Notify? {
        assert t in Sleepers(s.phases);
        var u :| u in a.woken;
        assert WillRetest(s'.phases[u]);
      } else if a.Drop? {
        StepKeepsCounts(s, a);
        TotalAtLeast(s.phases, HoldWeight(s.phases[a.t].kind), a.t);
        assert WillRetest(s'.phases[a.t]);
      } else {
        assert s.phases[t].Asleep?;
        var u :| 0 <= u < |s.phases| && WillRetest(s.phases[u]);
        assert WillRetest(s'.phases[u]);
      }
    }
  }

  lemma StepKeepsInv(s: State, a: Action)
    requires Inv(s) && Enabled(s, a)
    ensures Inv(Apply(s, a))
  {
    StepKeepsMutex(s, a);
    StepKeepsCounts(s, a);
    StepKeepsSleep(s, a);
  }

  lemma {:induction false} RunKeepsInv(s: State, run: seq<Action>)
    requires Inv(s) && CanRun(s, run)
    ensures Inv(After(s, run)) && |After(s, run).phases| == |s.phases|
    decreases |run|
  {
    if run != [] {
      StepKeepsInv(s, run[0]);
      RunKeepsInv(Apply(s, run[0]), run[1..]);
    }
  }

  // ---------- What every run keeps ----------

  /** The state reached by a run that starts from a freshly initialised lock with n threads. */
  ghost predicate Reaches(n: nat, run: seq<Action>, s: State) {
    CanRun(Init(n), run) && s == After(Init(n), run)
  }

  lemma ReachableInv(n: nat, run: seq<Action>, s: State)
    requires Reaches(n, run, s)
    ensures Inv(s) && |s.phases| == n
  {
    InitInv(n);
    RunKeepsInv(Init(n), run);
  }

  /** Two writers, or a reader and a writer, never hold the lock together. */
  lemma TwoHolders(s: State, t: nat, u: nat, j: Kind, k: Kind)
    requires CountsExact(s)
    requires t < |s.phases| && u < |s.phases| && t != u
    requires Holds(s.phases[t], j) && Holds(s.phases[u], k)
    ensures j == k == Read
  {
    TotalAtLeast(s.phases, HoldWeight(j), t);
    TotalAtLeast(s.phases, HoldWeight(k), u);
    if j == Write {
      // with t out of the way the sum must still see u
      var rest := s.phases[t := Outside];
      TotalUpdate(s.phases, HoldWeight(j), t, Outside);
      TotalAtLeast(rest, HoldWeight(k), u);
    }
  }

  /** The counters are exact, writers exclude everybody, readers exclude writers. */
  lemma MutualExclusion(n: nat, run: seq<Action>, s: State)
    requires Reaches(n, run, s)
    ensures s.readers == Holders(s, Read) && s.writers == Holders(s, Write)
    ensures s.writers <= 1 && (s.readers == 0 || s.writers == 0)
    ensures forall t, u, j, k | 0 <= t < |s.phases| && 0 <= u < |s.phases| && t != u
                               && Holds(s.phases[t], j) && Holds(s.phases[u], k) :: j == k == Read
    ensures forall t, u | 0 <= t < |s.phases| && 0 <= u < |s.phases| && HasMutex(s.phases[t]) && HasMutex(s.phases[u]) :: t == u
  {
    ReachableInv(n, run, s);
    forall t: nat, u: nat, j, k | t < |s.phases| && u < |s.phases| && t != u && Holds(s.phases[t], j) && Holds(s.phases[u], k)
      ensures j == k == Read
    {
      TwoHolders(s, t, u, j, k);
    }
  }

  /** A reader sleeps only while a writer holds the lock; the only exception is the writer that is,
      at this very moment, inside wunlock with the mutex and about to wake everybody. */
  lemma ReadersSleepOnWriters(n: nat, run: seq<Action>, s: State, t: nat)
    requires Reaches(n, run, s)
    requires t < |s.phases| && s.phases[t] == Asleep(Read)
    ensures s.writers == 1 || exists u | 0 <= u < |s.phases| :: s.mutex == Some(u) && s.phases[u] == Notifying(Write)
  {
    ReachableInv(n, run, s);
    if s.writers == 0 {
      var u :| 0 <= u < |s.phases| && s.phases[u] == Notifying(Write);
      assert s.mutex == Some(u);
    }
  }

  /** No wake-up is lost: whenever the mutex and the lock are both free and somebody sleeps, another
      thread has already been woken and will test the condition again. */
  lemma NoLostWakeup(n: nat, run: seq<Action>, s: State, t: nat)
    requires Reaches(n, run, s)
    requires s.mutex == None && s.readers == 0 && s.writers == 0
    requires t < |s.phases| && s.phases[t].Asleep?
    ensures exists u | 0 <= u < |s.phases| :: u != t && s.phases[u].Woken?
  {
    ReachableInv(n, run, s);
    var u :| 0 <= u < |s.phases| && WillRetest(s.phases[u]);
    assert s.phases[u].Woken?;
  }

  /** Why one signal is enough when the last reader leaves: everybody asleep at that moment is a writer,
      so whoever it wakes either takes the lock, and will broadcast, or finds it taken. */
  lemma LastReaderSignalsOnlyWriters(n: nat, run: seq<Action>, s: State, u: nat, t: nat)
    requires Reaches(n, run, s)
    requires u < |s.phases| && s.phases[u] == Notifying(Read)
    requires t < |s.phases| && s.phases[t].Asleep?
    ensures s.phases[t].kind == Write
  {
    ReachableInv(n, run, s);
    assert s.mutex == Some(u);
  }

  /** The -1 branches of runlock and wunlock are never taken by a thread that took the lock. */
  lemma UnlockNeverRefused(n: nat, run: seq<Action>, s: State, t: nat)
    requires Reaches(n, run, s)
    requires t < |s.phases| && s.phases[t].Dropping?
    ensures var k := s.phases[t].kind; if k == Read then s.readers > 0 else s.writers > 0
  {
    ReachableInv(n, run, s);
    TotalAtLeast(s.phases, HoldWeight(s.phases[t].kind), t);
  }
}
