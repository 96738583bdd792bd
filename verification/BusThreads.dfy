/** Several threads, of one or several processes, each switching bits of the three ports with nbuslock around it.

    The semaphore is shared by all processes, nbuslocked by the threads of one. A thread that finds nbuslocked set takes
    the bus to be its own. */
module BusThreads {
  import B = Bus

  type Bit = b: nat | b < 8

  /** Ports A, B and C. */
  const PORTS := 3

  type Port = p: nat | p < PORTS

  datatype Command = Command(port: Port, bit: Bit, on: bool)

  /** What the ports hold. */
  type Ports = v: seq<bv8> | |v| == PORTS witness [0, 0, 0]

  /** A command carried out at one go. */
  function Carried(v: Ports, c: Command): Ports {
    v[c.port := B.SetBit(v[c.port], c.bit, c.on)]
  }

  datatype Phase =
    | Outside
    | Asking(c: Command)             // in nbuslock, about to test nbuslocked
    | Wanting(c: Command)            // found it clear and waits for the semaphore
    | Holding(c: Command)            // has the semaphore, about to set nbuslocked
    | Locked(c: Command)             // nbuslock has returned
    | Fetched(c: Command, seen: bv8) // has read the port
    | Written                        // has written it, about to test nbuslocked in nbusunlock
    | Dropping                       // has given the semaphore back, about to clear nbuslocked

  /** `flagged` are the processes whose nbuslocked is set; `log` records the commands in the order of their writes. */
  datatype State = State(free: bool, flagged: set<nat>, ports: Ports, phases: seq<Phase>, log: seq<Command>)

  datatype Action = Call(t: nat, c: Command) | Step(t: nat)

  function Init(n: nat, v: Ports): State {
    State(true, {}, v, seq(n, _ => Outside), [])
  }

  /** What the ports should hold: the commands carried out one after the other. */
  function Sequential(v: Ports, log: seq<Command>): Ports {
    if log == [] then v else Carried(Sequential(v, log[..|log| - 1]), log[|log| - 1])
  }

  /** procs[t] is the process of thread t. The accesses of a read-modify-write find nbuslocked set; where a second thread of
      the process has cleared it meanwhile, the source locks for each access alone, which is left out. */
  predicate Enabled(procs: seq<nat>, s: State, a: Action) {
    && a.t < |procs| == |s.phases|
    && var p := s.phases[a.t];
       match a
       case Call(_, _) => p.Outside?
       case Step(t) =>
         && !p.Outside?
         && (p.Wanting? ==> s.free)
         && (p.Locked? || p.Fetched? ==> procs[t] in s.flagged)
  }

  function Apply(procs: seq<nat>, s: State, a: Action): State
    requires Enabled(procs, s, a)
  {
    var t := a.t;
    if a.Call? then Move(s, t, Asking(a.c))
    else
      match s.phases[t]
      case Asking(c) => Move(s, t, if procs[t] in s.flagged then Locked(c) else Wanting(c))
      case Wanting(c) => Move(s, t, Holding(c)).(free := false)
      case Holding(c) => Move(s, t, Locked(c)).(flagged := s.flagged + {procs[t]})
      case Locked(c) => Move(s, t, Fetched(c, s.ports[c.port]))
      case Fetched(c, seen) => Move(s, t, Written).(ports := s.ports[c.port := B.SetBit(seen, c.bit, c.on)], log := s.log + [c])
      case Written => if procs[t] in s.flagged then Move(s, t, Dropping).(free := true) else Move(s, t, Outside)
      case Dropping => Move(s, t, Outside).(flagged := s.flagged - {procs[t]})
      case Outside => s
  }

  function Move(s: State, t: nat, p: Phase): State
    requires t < |s.phases|
  {
    s.(phases := s.phases[t := p])
  }

  predicate CanRun(procs: seq<nat>, s: State, run: seq<Action>)
    decreases |run|
  {
    run == [] || (Enabled(procs, s, run[0]) && CanRun(procs, Apply(procs, s, run[0]), run[1..]))
  }

  function After(procs: seq<nat>, s: State, run: seq<Action>): State
    requires CanRun(procs, s, run)
    decreases |run|
  {
    if run == [] then s else After(procs, Apply(procs, s, run[0]), run[1..])
  }

  ghost predicate Reaches(procs: seq<nat>, v: Ports, run: seq<Action>, s: State) {
    CanRun(procs, Init(|procs|, v), run) && s == After(procs, Init(|procs|, v), run)
  }

  // ---------- One thread a process ----------

  predicate OneEach(procs: seq<nat>) {
    forall t, u | 0 <= t < u < |procs| :: procs[t] != procs[u]
  }

  predicate Owns(p: Phase) {
    p.Holding? || p.Locked? || p.Fetched? || p.Written?
  }

  /** The semaphore has at most one owner, and none while it is free. */
  ghost predicate Exclusive(s: State) {
    && (forall t, u | 0 <= t < u < |s.phases| :: !(Owns(s.phases[t]) && Owns(s.phases[u])))
    && (s.free ==> forall t | 0 <= t < |s.phases| :: !Owns(s.phases[t]))
  }

  predicate Flags(p: Phase) {
    p.Locked? || p.Fetched? || p.Written? || p.Dropping?
  }

  ghost predicate FlagsExact(procs: seq<nat>, s: State) {
    |procs| == |s.phases| && forall t | 0 <= t < |procs| :: procs[t] in s.flagged <==> Flags(s.phases[t])
  }

  ghost predicate PortsExact(v: Ports, s: State) {
    && (forall t | 0 <= t < |s.phases| && s.phases[t].Fetched? :: s.phases[t].seen == s.ports[s.phases[t].c.port])
    && s.ports == Sequential(v, s.log)
  }

  ghost predicate Inv(procs: seq<nat>, v: Ports, s: State) {
    Exclusive(s) && FlagsExact(procs, s) && PortsExact(v, s)
  }

  lemma StepKeepsExclusive(procs: seq<nat>, s: State, a: Action)
    requires Exclusive(s) && FlagsExact(procs, s) && Enabled(procs, s, a)
    ensures Exclusive(Apply(procs, s, a))
  {
    assert a.Step? && s.phases[a.t].Asking? ==> procs[a.t] !in s.flagged;
  }

  lemma StepKeepsFlags(procs: seq<nat>, s: State, a: Action)
    requires OneEach(procs) && FlagsExact(procs, s) && Enabled(procs, s, a)
    ensures FlagsExact(procs, Apply(procs, s, a))
  {
  }

  lemma SequentialGrows(v: Ports, log: seq<Command>, c: Command)
    ensures Sequential(v, log + [c]) == Carried(Sequential(v, log), c)
  {
    assert (log + [c])[..|log|] == log;
  }

  /** What a step other than a write leaves alone. */
  lemma OnlyWritesCount(procs: seq<nat>, s: State, a: Action)
    requires Enabled(procs, s, a) && !(a.Step? && s.phases[a.t].Fetched?)
    ensures var s' := Apply(procs, s, a);
            && s'.ports == s.ports && s'.log == s.log
            && forall u | 0 <= u < |s.phases| && s'.phases[u].Fetched? ::
                 s'.phases[u] == s.phases[u] || s'.phases[u].seen == s.ports[s'.phases[u].c.port]
  {
  }

  lemma StepKeepsPorts(procs: seq<nat>, v: Ports, s: State, a: Action)
    requires Exclusive(s) && PortsExact(v, s) && Enabled(procs, s, a)
    ensures PortsExact(v, Apply(procs, s, a))
  {
    if a.Step? && s.phases[a.t].Fetched? {
      SequentialGrows(v, s.log, s.phases[a.t].c);
      assert forall u | 0 <= u < |s.phases| && u != a.t :: !Owns(s.phases[u]);
    } else {
      OnlyWritesCount(procs, s, a);
    }
  }

  lemma StepKeepsInv(procs: seq<nat>, v: Ports, s: State, a: Action)
    requires OneEach(procs) && Inv(procs, v, s) && Enabled(procs, s, a)
    ensures Inv(procs, v, Apply(procs, s, a))
  {
    StepKeepsExclusive(procs, s, a);
    StepKeepsFlags(procs, s, a);
    StepKeepsPorts(procs, v, s, a);
  }

  lemma {:induction false} RunKeepsInv(procs: seq<nat>, v: Ports, s: State, run: seq<Action>)
    requires OneEach(procs) && Inv(procs, v, s) && CanRun(procs, s, run)
    ensures Inv(procs, v, After(procs, s, run))
    decreases |run|
  {
    if run != [] {
      StepKeepsInv(procs, v, s, run[0]);
      RunKeepsInv(procs, v, Apply(procs, s, run[0]), run[1..]);
    }
  }

  /** With one thread a process no access ever finds nbuslocked clear, so nothing is left out. */
  lemma AccessesInsideLock(procs: seq<nat>, v: Ports, run: seq<Action>, s: State, t: nat)
    requires OneEach(procs) && Reaches(procs, v, run, s)
    requires t < |procs| == |s.phases| && (s.phases[t].Locked? || s.phases[t].Fetched?)
    ensures Enabled(procs, s, Step(t))
  {
    RunKeepsInv(procs, v, Init(|procs|, v), run);
  }

  // ---------- Two threads of one process ----------

  ghost predicate Leads(procs: seq<nat>, s: State, s': State) {
    exists run :: CanRun(procs, s, run) && After(procs, s, run) == s'
  }

  lemma {:induction false} RunExtends(procs: seq<nat>, s: State, run: seq<Action>, a: Action)
    requires CanRun(procs, s, run) && Enabled(procs, After(procs, s, run), a)
    ensures CanRun(procs, s, run + [a]) && After(procs, s, run + [a]) == Apply(procs, After(procs, s, run), a)
    decreases |run|
  {
    if run == [] {
      assert run + [a] == [a];
    } else {
      assert (run + [a])[1..] == run[1..] + [a];
      RunExtends(procs, Apply(procs, s, run[0]), run[1..], a);
    }
  }

  lemma LeadsOn(procs: seq<nat>, s: State, s': State, a: Action) returns (s'': State)
    requires Leads(procs, s, s') && Enabled(procs, s', a)
    ensures s'' == Apply(procs, s', a) && Leads(procs, s, s'')
  {
    var run :| CanRun(procs, s, run) && After(procs, s, run) == s';
    RunExtends(procs, s, run, a);
    s'' := Apply(procs, s', a);
  }

  /** The first thread takes the lock and reads. */
  lemma FirstFetches(procs: seq<nat>, v: Ports, t: nat, c: Command) returns (s: State)
    requires t < |procs|
    ensures Leads(procs, Init(|procs|, v), s)
    ensures s == State(false, {procs[t]}, v, Init(|procs|, v).phases[t := Fetched(c, v[c.port])], [])
  {
    var s0 := Init(|procs|, v);
    assert CanRun(procs, s0, []) && After(procs, s0, []) == s0;
    s := LeadsOn(procs, s0, s0, Call(t, c));
    s := LeadsOn(procs, s0, s, Step(t));
    s := LeadsOn(procs, s0, s, Step(t));
    s := LeadsOn(procs, s0, s, Step(t));
    s := LeadsOn(procs, s0, s, Step(t));
    assert s.phases == s0.phases[t := Fetched(c, v[c.port])];
  }

  /** The second one finds nbuslocked set, reads and writes. */
  lemma SecondWrites(procs: seq<nat>, v: Ports, t: nat, u: nat, c: Command, d: Command) returns (s: State)
    requires t < |procs| && u < |procs| && t != u && procs[t] == procs[u]
    ensures Leads(procs, Init(|procs|, v), s)
    ensures s == State(false, {procs[t]}, Carried(v, d),
                       Init(|procs|, v).phases[t := Fetched(c, v[c.port])][u := Written], [d])
  {
    var s0 := Init(|procs|, v);
    s := FirstFetches(procs, v, t, c);
    s := LeadsOn(procs, s0, s, Call(u, d));
    s := LeadsOn(procs, s0, s, Step(u));
    s := LeadsOn(procs, s0, s, Step(u));
    s := LeadsOn(procs, s0, s, Step(u));
    assert s.log == [d];
    assert s.phases == s0.phases[t := Fetched(c, v[c.port])][u := Written];
  }

  /** Then the first one writes what it has made of its old value: the second one's command, if it was to change a bit of the
      same port, is lost. */
  lemma UpdateLost(procs: seq<nat>, v: Ports, t: nat, u: nat, c: Command, d: Command) returns (s: State)
    requires t < |procs| && u < |procs| && t != u && procs[t] == procs[u]
    requires c.port == d.port && c.bit != d.bit && d.on != B.BitOf(v[d.port], d.bit)
    ensures Leads(procs, Init(|procs|, v), s)
    ensures s.log == [d, c] && B.BitOf(s.ports[d.port], d.bit) != d.on && s.ports != Sequential(v, s.log)
  {
    s := SecondWrites(procs, v, t, u, c, d);
    s := LeadsOn(procs, Init(|procs|, v), s, Step(t));
    assert s.log == [d, c];
    LostBit(v, c, d);
    assert s.ports[d.port] == B.SetBit(v[c.port], c.bit, c.on);
  }

  lemma LostBit(v: Ports, c: Command, d: Command)
    requires c.port == d.port && c.bit != d.bit && d.on != B.BitOf(v[d.port], d.bit)
    ensures B.BitOf(B.SetBit(v[c.port], c.bit, c.on), d.bit) != d.on
    ensures B.BitOf(Sequential(v, [d, c])[d.port], d.bit) == d.on
  {
    assert [d, c] == [d] + [c] && [d] == [] + [d];
    SequentialGrows(v, [d], c);
    SequentialGrows(v, [], d);
    B.SetBitExact(v[c.port], c.bit, c.on, d.bit);
    B.SetBitExact(v[d.port], d.bit, d.on, d.bit);
    B.SetBitExact(Carried(v, d)[c.port], c.bit, c.on, d.bit);
  }

  // ---------- The theorem ----------

  /** nbuslock protects the read-modify-writes of the ports under every schedule, whatever they held, if and only if no process has
      two threads that use it. */
  lemma UpdatesSafeIff(procs: seq<nat>, v: Ports)
    ensures (forall run, s | Reaches(procs, v, run, s) :: s.ports == Sequential(v, s.log)) <==> OneEach(procs)
  {
    if OneEach(procs) {
      forall run, s | Reaches(procs, v, run, s)
        ensures s.ports == Sequential(v, s.log)
      {
        RunKeepsInv(procs, v, Init(|procs|, v), run);
      }
    } else {
      var t, u :| 0 <= t < u < |procs| && procs[t] == procs[u];
      var s := UpdateLost(procs, v, t, u, Command(0, 0, true), Command(0, 1, !B.BitOf(v[0], 1)));
      var run :| CanRun(procs, Init(|procs|, v), run) && After(procs, Init(|procs|, v), run) == s;
      assert Reaches(procs, v, run, s);
    }
  }
}
