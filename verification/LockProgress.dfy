/** Progress of the reader/writer lock: nobody is stranded, whatever the schedule. */
module LockProgress {
  import opened RwLock
  import opened Wrappers

  /** A step that is neither a new call nor an unprompted wake-up: the lock must not rely on those. */
  predicate Progress(a: Action) {
    !a.Call? && !a.Spurious?
  }

  predicate AllOutside(s: State) {
    forall t | 0 <= t < |s.phases| :: s.phases[t].Outside?
  }

  /** The step a thread can take when it is not asleep and not waiting for the mutex. */
  function OwnStep(s: State, t: nat): (a: Action)
    requires t < |s.phases|
    requires HasMutex(s.phases[t]) || s.phases[t].Inside?
    ensures Enabled(s, a) && Progress(a)
  {
    match s.phases[t]
    case Testing(_) => Test(t)
    case Inside(_) => Exit(t)
    case Dropping(_) => Drop(t)
    case Notifying(_) => Notify(t, Sleepers(s.phases))
    case _ => Release(t)
  }

  /** No deadlock: while any thread is inside a call or holds the lock, some thread can take a step,
      and without help from a new call or an unprompted wake-up. */
  lemma NoDeadlock(n: nat, run: seq<Action>, s: State)
    requires Reaches(n, run, s)
    requires !AllOutside(s)
    ensures exists a :: Enabled(s, a) && Progress(a)
  {
    ReachableInv(n, run, s);
    SomeoneCanStep(s);
  }

  lemma SomeoneCanStep(s: State)
    requires Inv(s) && !AllOutside(s)
    ensures exists a :: Enabled(s, a) && Progress(a)
  {
    var t :| 0 <= t < |s.phases| && !s.phases[t].Outside?;
    if s.mutex.Some? {
      var a := OwnStep(s, s.mutex.value);
      assert Enabled(s, a) && Progress(a);
    } else if u :| 0 <= u < |s.phases| && s.phases[u].Inside? {
      var a := OwnStep(s, u);
      assert Enabled(s, a) && Progress(a);
    } else if u :| 0 <= u < |s.phases| && WantsMutex(s.phases[u]) {
      var a := TakeMutex(u);
      assert Enabled(s, a) && Progress(a);
    } else {
      // everybody left is asleep, so nobody holds the lock and someone must have been woken
      TotalZero(s.phases, HoldWeight(Read));
      TotalZero(s.phases, HoldWeight(Write));
      assert false;
    }
  }

  /** An upper bound on how many more steps a thread takes before it is outside again. A notifying thread also
      pays, out of d, for the two extra steps of every thread it wakes. */
  function StepsLeft(d: nat): Phase -> nat {
    (p: Phase) =>
      match p
      case Outside => 0
      case Closing => 1
      case Notifying(_) => d
      case Dropping(_) => d + 1
      case Leaving(_) => d + 2
      case Inside(_) => d + 3
      case Granted(_) => d + 4
      case Asleep(_) => d + 5
      case Testing(_) => d + 6
      case Woken(_) => d + 7
      case Entering(_) => d + 7
  }

  function Rank(s: State): nat {
    Total(s.phases, StepsLeft(2 * |s.phases| + 2))
  }

  lemma OwnPhaseFalls(s: State, a: Action, d: nat)
    requires Enabled(s, a) && Progress(a) && !a.Notify? && d >= 2
    ensures var q := Apply(s, a).phases[a.t];
            Apply(s, a).phases == s.phases[a.t := q] && StepsLeft(d)(q) < StepsLeft(d)(s.phases[a.t])
  {
  }

  lemma NotifyFalls(phases: seq<Phase>, t: nat, woken: set<nat>, d: nat)
    requires t < |phases| && phases[t].Notifying? && d == 2 * |phases| + 2
    ensures Total(Wake(phases, woken)[t := Closing], StepsLeft(d)) < Total(phases, StepsLeft(d))
  {
    var awake := Wake(phases, woken);
    TotalWake(phases, StepsLeft(d), woken, 2);
    TotalUpdate(awake, StepsLeft(d), t, Closing);
    assert awake[t] == phases[t];
  }

  /** Every progress step brings the rank down, even the broadcast that wakes everybody. */
  lemma StepLowersRank(s: State, a: Action)
    requires Enabled(s, a) && Progress(a)
    ensures Rank(Apply(s, a)) < Rank(s)
  {
    var d := 2 * |s.phases| + 2;
    if a.Notify? {
      NotifyFalls(s.phases, a.t, a.woken, d);
    } else {
      OwnPhaseFalls(s, a, d);
      TotalUpdate(s.phases, StepsLeft(d), a.t, Apply(s, a).phases[a.t]);
    }
  }

  lemma {:induction false} RunWithinRank(s: State, run: seq<Action>)
    requires Inv(s) && CanRun(s, run)
    requires forall i | 0 <= i < |run| :: Progress(run[i])
    ensures |run| + Rank(After(s, run)) <= Rank(s)
    decreases |run|
  {
    if run != [] {
      StepLowersRank(s, run[0]);
      StepKeepsInv(s, run[0]);
      RunWithinRank(Apply(s, run[0]), run[1..]);
    }
  }

  /** Every call completes under every schedule: from any reachable state, a run of progress steps is at most
      Rank(s) long, and a run that cannot be continued leaves every thread outside the lock. No fairness and no
      unprompted wake-up is assumed. */
  lemma EveryCallCompletes(n: nat, run: seq<Action>, s: State, rest: seq<Action>)
    requires Reaches(n, run, s)
    requires CanRun(s, rest) && forall i | 0 <= i < |rest| :: Progress(rest[i])
    ensures |rest| <= Rank(s)
    ensures AllOutside(After(s, rest)) || exists a :: Enabled(After(s, rest), a) && Progress(a)
  {
    ReachableInv(n, run, s);
    RunWithinRank(s, rest);
    RunKeepsInv(s, rest);
    if !AllOutside(After(s, rest)) {
      SomeoneCanStep(After(s, rest));
    }
  }
}
