/** Linearizability of the shared list: every run of any number of threads gives the results of one sequential map. */
module Linearizability {
  import opened ListMemory
  import opened Wrappers
  import L = RwLock
  import opened SharedList
  import OutputList

  // ---------- The invariant ----------

  /** The thread is between its lock call and the first node. */
  predicate Requesting(p: L.Phase, k: L.Kind) {
    (p.Entering? || p.Testing? || p.Asleep? || p.Woken? || p.Granted? || p.Inside?) && p.kind == k
  }

  /** The thread is between its result and the return of its unlock. */
  predicate Releasing(p: L.Phase, k: L.Kind) {
    ((p.Inside? || p.Leaving? || p.Dropping? || p.Notifying?) && p.kind == k) || p.Closing? || p.Outside?
  }

  /** prev and cur point into the list at position i, and everything before i is smaller than the index. */
  ghost predicate CursorAt(mem: Memory, path: seq<nat>, i: nat, index: int, prev: nat, cur: nat)
    requires Allocated(mem, path)
  {
    && Passed(Items(mem, path), i, index)
    && cur == At(path, i)
    && prev == At(path, if i == 0 then 0 else i - 1)
  }

  ghost predicate LocalOk(mem: Memory, path: seq<nat>, p: L.Phase, l: Local)
    requires Allocated(mem, path)
  {
    match l
    case Idle => p.Outside?
    case Pending(op) => Requesting(p, Mode(op))
    case Walking(op, prev, cur) => p == L.Inside(Mode(op)) && exists i: nat :: CursorAt(mem, path, i, op.index, prev, cur)
    case Linking(op, prev, cur, block) =>
      && p == L.Inside(L.Write) && op.Insert?
      && block != NULL && block !in path && block in mem && mem[block] == Node(Item(op.index, op.data), cur)
      && exists i: nat :: CursorAt(mem, path, i, op.index, prev, cur)
                     && (i < |path| ==> op.index < mem[path[i]].item.index)
    case Finished(op, _) => Releasing(p, Mode(op))
    case Faulted => false
  }

  function LastOf(log: seq<Entry>, t: nat): Option<Entry> {
    if log == [] then None
    else if log[|log| - 1].t == t then Some(log[|log| - 1])
    else LastOf(log[..|log| - 1], t)
  }

  /** The call that has no result yet, if there is one. */
  function InProgress(l: Local): seq<Op> {
    if l.Pending? || l.Walking? || l.Linking? then [l.op] else []
  }

  /** What the thread has called is what the log has of it, plus the call still in progress. */
  ghost predicate HistoryOk(log: seq<Entry>, called: seq<Op>, t: nat, l: Local) {
    && called == OpsOf(log, t) + InProgress(l)
    && (l.Finished? ==> LastOf(log, t) == Some(Entry(t, l.op, l.result)))
  }

  ghost predicate LocalsOk(s: Shared)
    requires Aligned(s) && Allocated(s.mem, s.path)
  {
    forall t | 0 <= t < |s.locals| :: LocalOk(s.mem, s.path, s.lock.phases[t], s.locals[t])
  }

  ghost predicate HistoriesOk(s: Shared)
    requires Aligned(s)
  {
    forall t | 0 <= t < |s.locals| :: HistoryOk(s.log, s.called[t], t, s.locals[t])
  }

  ghost predicate Inv(s: Shared) {
    && Aligned(s)
    && L.Inv(s.lock)
    && Chain(s.mem, s.first, s.path)
    && LocalsOk(s)
    && HistoriesOk(s)
    && Legal(s.log)
    && Replay(s.log) == Contents(s.mem, s.path)
  }

  lemma InvAt(s: Shared, t: nat)
    requires Inv(s) && t < |s.locals|
    ensures LocalOk(s.mem, s.path, s.lock.phases[t], s.locals[t])
    ensures HistoryOk(s.log, s.called[t], t, s.locals[t])
  {
  }

  // ---------- Runs ----------

  predicate CanRun(s: Shared, run: seq<Action>)
    decreases |run|
  {
    run == [] || (Enabled(s, run[0]) && CanRun(Apply(s, run[0]), run[1..]))
  }

  function After(s: Shared, run: seq<Action>): Shared
    requires CanRun(s, run)
    decreases |run|
  {
    if run == [] then s else After(Apply(s, run[0]), run[1..])
  }

  ghost predicate Reaches(n: nat, run: seq<Action>, s: Shared) {
    CanRun(Init(n), run) && s == After(Init(n), run)
  }

  lemma InitInv(n: nat)
    ensures Inv(Init(n))
  {
    L.InitInv(n);
  }

  // ---------- A thread that may write is alone in the list ----------

  lemma Alone(s: Shared, t: nat, u: nat)
    requires Inv(s) && t < |s.locals| && u < |s.locals| && t != u
    requires s.lock.phases[t] == L.Inside(L.Write)
    ensures !s.locals[u].Walking? && !s.locals[u].Linking?
  {
    InvAt(s, u);
    if s.locals[u].Walking? || s.locals[u].Linking? {
      L.TwoHolders(s.lock, t, u, L.Write, Mode(s.locals[u].op));
    }
  }

  /** A step that leaves the lock alone and changes only its own thread's local state keeps the others in order, if it
      leaves the list alone or is the writer's. */
  lemma OthersKept(s: Shared, s': Shared, t: nat)
    requires Inv(s) && Aligned(s') && Allocated(s'.mem, s'.path)
    requires t < |s.locals| && s'.lock == s.lock && |s'.locals| == |s.locals|
    requires forall u | 0 <= u < |s.locals| && u != t :: s'.locals[u] == s.locals[u]
    requires (s'.mem == s.mem && s'.path == s.path) || s.lock.phases[t] == L.Inside(L.Write)
    requires LocalOk(s'.mem, s'.path, s'.lock.phases[t], s'.locals[t])
    ensures LocalsOk(s')
  {
    forall u | 0 <= u < |s.locals| && u != t
      ensures LocalOk(s'.mem, s'.path, s'.lock.phases[u], s'.locals[u])
    {
      InvAt(s, u);
      if s.lock.phases[t] == L.Inside(L.Write) {
        Alone(s, t, u);
      }
    }
  }

  // ---------- Completing an operation ----------

  /** Appending an entry with the right result keeps the log legal and applies the operation to its map. */
  lemma LogGrows(log: seq<Entry>, e: Entry)
    requires Legal(log) && e.result == SpecResult(Replay(log), e.op)
    ensures Legal(log + [e]) && Replay(log + [e]) == SpecMap(Replay(log), e.op)
  {
    var log' := log + [e];
    assert log'[..|log|] == log;
    forall i | 0 <= i < |log'|
      ensures log'[i].result == SpecResult(Replay(log'[..i]), log'[i].op)
    {
      assert log'[..i] == log[..i];
    }
  }

  lemma HistoryGrows(s: Shared, t: nat, op: Op, result: Result, log': seq<Entry>, locals': seq<Local>)
    requires Aligned(s) && HistoriesOk(s) && t < |s.locals|
    requires (s.locals[t].Walking? || s.locals[t].Linking?) && s.locals[t].op == op
    requires log' == s.log + [Entry(t, op, result)] && locals' == s.locals[t := Finished(op, result)]
    ensures forall u | 0 <= u < |s.locals| :: HistoryOk(log', s.called[u], u, locals'[u])
  {
    assert log'[..|s.log|] == s.log;
    forall u | 0 <= u < |s.locals|
      ensures HistoryOk(log', s.called[u], u, locals'[u])
    {
      assert HistoryOk(s.log, s.called[u], u, s.locals[u]);
    }
  }

  /** The last step of an operation: the list has become what the operation makes of it. */
  lemma Completed(s: Shared, t: nat, op: Op, result: Result, s': Shared)
    requires Inv(s) && t < |s.locals|
    requires (s.locals[t].Walking? || s.locals[t].Linking?) && s.locals[t].op == op
    requires s.lock.phases[t] == L.Inside(Mode(op))
    requires s' == s.(mem := s'.mem, first := s'.first, path := s'.path,
                      locals := s.locals[t := Finished(op, result)], log := s.log + [Entry(t, op, result)])
    requires Chain(s'.mem, s'.first, s'.path)
    requires (s'.mem == s.mem && s'.path == s.path) || Mode(op) == L.Write
    requires result == SpecResult(Contents(s.mem, s.path), op)
    requires Contents(s'.mem, s'.path) == SpecMap(Contents(s.mem, s.path), op)
    ensures Inv(s')
  {
    LogGrows(s.log, Entry(t, op, result));
    HistoryGrows(s, t, op, result, s'.log, s'.locals);
    OthersKept(s, s', t);
  }

  // ---------- Each kind of step ----------

  lemma HitCompletes(s: Shared, t: nat, i: nat)
    requires Inv(s) && t < |s.locals| && s.locals[t].Walking? && Hit(s.mem, s.locals[t])
    requires var l := s.locals[t]; CursorAt(s.mem, s.path, i, l.op.index, l.prev, l.cur)
    ensures Inv(WalkStep(s, t))
  {
    var l := s.locals[t];
    InvAt(s, t);
    FoundAt(Items(s.mem, s.path), i);
    var d := s.mem[l.cur].item.data;
    match l.op
    case Insert(_, data) =>
      StoreNode(s.mem, s.first, s.path, i, data);
      Completed(s, t, l.op, Inserted, WalkStep(s, t));
    case Find(_) =>
      Completed(s, t, l.op, Found(Some(d)), WalkStep(s, t));
    case Toggle(_) =>
      var d' := d.(onoff := OutputList.Flip(d.onoff));
      StoreNode(s.mem, s.first, s.path, i, d');
      Completed(s, t, l.op, Toggled(Some(d'.onoff)), WalkStep(s, t));
  }

  /** The cursor never leaves the list, so no thread ever reads memory that is not allocated. */
  lemma CursorInside(s: Shared, t: nat) returns (i: nat)
    requires Inv(s) && t < |s.locals| && s.locals[t].Walking?
    ensures var l := s.locals[t];
            && CursorAt(s.mem, s.path, i, l.op.index, l.prev, l.cur)
            && (l.cur != NULL ==> i < |s.path| && l.cur in s.mem && Items(s.mem, s.path)[i] == s.mem[l.cur].item)
            && (l.cur == NULL ==> i == |s.path|)
    ensures s.lock.phases[t] == L.Inside(Mode(s.locals[t].op))
  {
    var l := s.locals[t];
    InvAt(s, t);
    i :| CursorAt(s.mem, s.path, i, l.op.index, l.prev, l.cur);
  }

  lemma WalkKeepsInv(s: Shared, t: nat)
    requires Inv(s) && Enabled(s, Walk(t))
    ensures Inv(WalkStep(s, t))
  {
    var l := s.locals[t];
    var i := CursorInside(s, t);
    if Hit(s.mem, l) {
      HitCompletes(s, t, i);
    } else if Stopped(s.mem, l.cur, l.op.index) {
      EarlyExit(Items(s.mem, s.path), i, l.op.index);
      Completed(s, t, l.op, if l.op.Find? then Found(None) else Toggled(None), WalkStep(s, t));
    } else {
      AdvanceKeepsInv(s, t, i);
    }
  }

  lemma CursorAdvances(mem: Memory, first: nat, path: seq<nat>, i: nat, index: int, prev: nat, cur: nat)
    requires Chain(mem, first, path) && i < |path| && CursorAt(mem, path, i, index, prev, cur)
    requires mem[cur].item.index < index
    ensures CursorAt(mem, path, i + 1, index, cur, mem[cur].next)
  {
    assert mem[path[i]].next == At(path, i + 1);
  }

  lemma AdvanceKeepsInv(s: Shared, t: nat, i: nat)
    requires Inv(s) && t < |s.locals| && s.locals[t].Walking? && i < |s.path|
    requires var l := s.locals[t];
             && CursorAt(s.mem, s.path, i, l.op.index, l.prev, l.cur)
             && s.mem[l.cur].item.index < l.op.index
             && s.lock.phases[t] == L.Inside(Mode(l.op))
    ensures var l := s.locals[t]; Inv(SetLocal(s, t, Walking(l.op, l.cur, s.mem[l.cur].next)))
  {
    var l := s.locals[t];
    var s' := SetLocal(s, t, Walking(l.op, l.cur, s.mem[l.cur].next));
    CursorAdvances(s.mem, s.first, s.path, i, l.op.index, l.prev, l.cur);
    OthersKept(s, s', t);
    OwnHistoryKept(s, s', t);
  }

  /** A step inside an operation adds nothing to the log. */
  lemma OwnHistoryKept(s: Shared, s': Shared, t: nat)
    requires Aligned(s) && HistoriesOk(s) && Aligned(s') && t < |s.locals|
    requires s'.log == s.log && s'.called == s.called && s'.locals == s.locals[t := s'.locals[t]]
    requires s.locals[t].Pending? || s.locals[t].Walking?
    requires (s'.locals[t].Walking? || s'.locals[t].Linking?) && s'.locals[t].op == s.locals[t].op
    ensures HistoriesOk(s')
  {
    assert HistoryOk(s.log, s.called[t], t, s.locals[t]);
    forall u | 0 <= u < |s'.locals|
      ensures HistoryOk(s'.log, s'.called[u], u, s'.locals[u])
    {
      assert HistoryOk(s.log, s.called[u], u, s.locals[u]);
    }
  }

  /** The new node is filled in and not part of the list yet, which is as it was. */
  lemma AllocatedLocal(s: Shared, t: nat, block: nat, i: nat)
    requires Chain(s.mem, s.first, s.path) && Enabled(s, Allocate(t, block))
    requires var l := s.locals[t];
             CursorAt(s.mem, s.path, i, l.op.index, l.prev, l.cur) && s.lock.phases[t] == L.Inside(Mode(l.op))
    ensures var s' := Apply(s, Allocate(t, block));
            && Chain(s'.mem, s.first, s.path) && Contents(s'.mem, s.path) == Contents(s.mem, s.path)
            && LocalOk(s'.mem, s'.path, s.lock.phases[t], s'.locals[t])
  {
    var l := s.locals[t];
    var s' := Apply(s, Allocate(t, block));
    CreateNode(s.mem, s.first, s.path, block, Item(l.op.index, l.op.data), l.cur);
    assert CursorAt(s'.mem, s'.path, i, l.op.index, l.prev, l.cur);
  }

  lemma AllocateKeepsInv(s: Shared, t: nat, block: nat)
    requires Inv(s) && Enabled(s, Allocate(t, block))
    ensures Inv(Apply(s, Allocate(t, block)))
  {
    var l := s.locals[t];
    var s' := Apply(s, Allocate(t, block));
    var i := CursorInside(s, t);
    AllocatedLocal(s, t, block, i);
    OthersKept(s, s', t);
    OwnHistoryKept(s, s', t);
  }

  lemma PositionOf(path: seq<nat>, i: nat)
    requires 0 < i <= |path|
    requires forall j, k | 0 <= j < k < |path| :: path[j] != path[k]
    ensures PositionAfter(path, path[i - 1]) == i
  {
    var j := PositionAfter(path, path[i - 1]);
    assert path[j - 1] == path[i - 1];
  }

  /** What LinkStep does to the list, told by the position of the cursor. */
  lemma LinkStepAt(s: Shared, t: nat, i: nat)
    requires Chain(s.mem, s.first, s.path) && t < |s.locals| && s.locals[t].Linking?
    requires var l := s.locals[t]; CursorAt(s.mem, s.path, i, l.op.index, l.prev, l.cur)
    ensures var l := s.locals[t];
            LinkStep(s, t) == Finish(
              s.(mem := if i == 0 then s.mem else Relinked(s.mem, s.path[i - 1], l.block),
                 first := if i == 0 then l.block else s.first,
                 path := Insertion(s.path, i, l.block)),
              t, l.op, Inserted)
  {
    Acyclic(s.mem, s.path);
    var l := s.locals[t];
    if i == 0 {
      assert Insertion(s.path, 0, l.block) == [l.block] + s.path;
    } else {
      PositionOf(s.path, i);
      assert l.cur != s.first && l.prev == s.path[i - 1];
    }
  }

  lemma LinkKeepsInv(s: Shared, t: nat)
    requires Inv(s) && Enabled(s, Link(t))
    ensures Inv(LinkStep(s, t))
  {
    var l := s.locals[t];
    InvAt(s, t);
    var i: nat :| CursorAt(s.mem, s.path, i, l.op.index, l.prev, l.cur)
             && (i < |s.path| ==> l.op.index < s.mem[s.path[i]].item.index);
    LinkStepAt(s, t, i);
    LinkNode(s.mem, s.first, s.path, i, l.block);
    Completed(s, t, l.op, Inserted, LinkStep(s, t));
  }

  lemma BeginKeepsInv(s: Shared, t: nat)
    requires Inv(s) && Enabled(s, Begin(t))
    ensures Inv(Apply(s, Begin(t)))
  {
    var s' := Apply(s, Begin(t));
    InvAt(s, t);
    assert CursorAt(s.mem, s.path, 0, s.locals[t].op.index, s.first, s.first);
    OthersKept(s, s', t);
    OwnHistoryKept(s, s', t);
  }

  /** How a step of the lock other than a call moves one thread. */
  lemma PhaseMoves(lock: L.State, step: L.Action, u: nat)
    requires L.Enabled(lock, step) && !step.Call? && u < |lock.phases|
    ensures var p, q := lock.phases[u], L.Apply(lock, step).phases[u];
            && (p.Outside? ==> q.Outside?)
            && (step.Exit? && u == step.t ==> p.Inside? && q == L.Leaving(p.kind))
            && (!(step.Exit? && u == step.t) ==>
                  && (p.Inside? ==> q == p)
                  && forall k :: (Requesting(p, k) ==> Requesting(q, k)) && (Releasing(p, k) ==> Releasing(q, k)))
  {
  }

  lemma LockStepKeepsLocals(s: Shared, step: L.Action)
    requires Aligned(s) && Allocated(s.mem, s.path) && LocalsOk(s)
    requires L.Enabled(s.lock, step) && !step.Call?
    requires step.Exit? ==> s.locals[step.t].Finished?
    ensures LocalsOk(s.(lock := L.Apply(s.lock, step)))
  {
    var lock' := L.Apply(s.lock, step);
    forall u | 0 <= u < |s.locals|
      ensures LocalOk(s.mem, s.path, lock'.phases[u], s.locals[u])
    {
      PhaseMoves(s.lock, step, u);
      assert LocalOk(s.mem, s.path, s.lock.phases[u], s.locals[u]);
    }
  }

  /** Steps that move the lock leave the list, the log and everybody's position alone. */
  lemma LockStepKeepsInv(s: Shared, a: Action)
    requires Inv(s) && Enabled(s, a) && (a.Lock? || a.Leave?)
    ensures Inv(Apply(s, a))
  {
    var step := if a.Lock? then a.step else L.Exit(a.t);
    L.StepKeepsInv(s.lock, step);
    LockStepKeepsLocals(s, step);
  }

  lemma InvokeKeepsLocals(s: Shared, t: nat, op: Op)
    requires Inv(s) && Enabled(s, Invoke(t, op))
    ensures LocalsOk(Apply(s, Invoke(t, op)))
  {
    var s' := Apply(s, Invoke(t, op));
    forall u | 0 <= u < |s'.locals|
      ensures LocalOk(s'.mem, s'.path, s'.lock.phases[u], s'.locals[u])
    {
      InvAt(s, u);
    }
  }

  lemma InvokeKeepsHistories(s: Shared, t: nat, op: Op)
    requires Aligned(s) && HistoriesOk(s) && Enabled(s, Invoke(t, op))
    ensures HistoriesOk(Apply(s, Invoke(t, op)))
  {
    var s' := Apply(s, Invoke(t, op));
    forall u | 0 <= u < |s'.locals|
      ensures HistoryOk(s'.log, s'.called[u], u, s'.locals[u])
    {
      assert HistoryOk(s.log, s.called[u], u, s.locals[u]);
    }
  }

  lemma InvokeKeepsInv(s: Shared, t: nat, op: Op)
    requires Inv(s) && Enabled(s, Invoke(t, op))
    ensures Inv(Apply(s, Invoke(t, op)))
  {
    L.StepKeepsInv(s.lock, L.Call(t, Mode(op)));
    InvokeKeepsLocals(s, t, op);
    InvokeKeepsHistories(s, t, op);
  }

  lemma ReturnKeepsInv(s: Shared, t: nat)
    requires Inv(s) && Enabled(s, Return(t))
    ensures Inv(Apply(s, Return(t)))
  {
    var s' := Apply(s, Return(t));
    forall u | 0 <= u < |s'.locals|
      ensures HistoryOk(s'.log, s'.called[u], u, s'.locals[u])
    {
      InvAt(s, u);
    }
    OthersKept(s, s', t);
  }

  lemma StepKeepsAll(s: Shared, a: Action)
    requires Inv(s) && Enabled(s, a)
    ensures Inv(Apply(s, a))
  {
    match a
    case Invoke(t, op) => InvokeKeepsInv(s, t, op);
    case Lock(_) => LockStepKeepsInv(s, a);
    case Begin(t) => BeginKeepsInv(s, t);
    case Walk(t) => WalkKeepsInv(s, t);
    case Allocate(t, block) => AllocateKeepsInv(s, t, block);
    case Link(t) => LinkKeepsInv(s, t);
    case Leave(_) => LockStepKeepsInv(s, a);
    case Return(t) => ReturnKeepsInv(s, t);
  }

  lemma {:induction false} RunKeepsAll(s: Shared, run: seq<Action>)
    requires Inv(s) && CanRun(s, run)
    ensures Inv(After(s, run))
    decreases |run|
  {
    if run != [] {
      StepKeepsAll(s, run[0]);
      RunKeepsAll(Apply(s, run[0]), run[1..]);
    }
  }

  lemma ReachableInv(n: nat, run: seq<Action>, s: Shared)
    requires Reaches(n, run, s)
    ensures Inv(s)
  {
    InitInv(n);
    RunKeepsAll(Init(n), run);
  }

  // ---------- The theorems ----------

  /** In every reachable state the list is well formed and stands for the map that the completed operations build when
      they run one after the other in log order, each with exactly the result it returned; no thread has ever read
      memory that is not allocated. */
  lemma Linearizable(n: nat, run: seq<Action>, s: Shared)
    requires Reaches(n, run, s)
    ensures Chain(s.mem, s.first, s.path) && Contents(s.mem, s.path) == Replay(s.log)
    ensures Legal(s.log)
    ensures forall t | 0 <= t < |s.locals| :: !s.locals[t].Faulted?
  {
    ReachableInv(n, run, s);
    forall t | 0 <= t < |s.locals|
      ensures !s.locals[t].Faulted?
    {
      InvAt(s, t);
    }
  }

  /** Each call takes effect exactly once, in the order its thread made them: what a thread has called is what the log has
      of it, plus the call in progress if it has no result yet; and a result about to be returned is the one logged. */
  lemma EachCallOnce(n: nat, run: seq<Action>, s: Shared, t: nat)
    requires Reaches(n, run, s) && t < |s.locals|
    ensures Aligned(s)
    ensures var l := s.locals[t];
            s.called[t] == OpsOf(s.log, t) + InProgress(l)
    ensures var l := s.locals[t];
            l.Finished? ==> LastOf(s.log, t) == Some(Entry(t, l.op, l.result))
  {
    ReachableInv(n, run, s);
    InvAt(s, t);
  }

  /** An operation takes effect between its call and its return: the log grows only by the step that gives the acting
      thread, which is inside the protected section, its result. */
  lemma TakesEffectInside(s: Shared, a: Action)
    requires Inv(s) && Enabled(s, a)
    ensures var s', t := Apply(s, a), Actor(a);
            s'.log == s.log || (InProgress(s.locals[t]) != [] && GivesResult(s, t, s'))
  {
    InvAt(s, Actor(a));
    if a.Walk? {
      WalkEffect(s, a.t);
    } else if a.Link? {
      LinkEffect(s, a.t);
    }
  }

  lemma WalkEffect(s: Shared, t: nat)
    requires Aligned(s) && t < |s.locals| && s.locals[t].Walking?
    requires s.lock.phases[t] == L.Inside(Mode(s.locals[t].op))
    ensures WalkStep(s, t).log == s.log || GivesResult(s, t, WalkStep(s, t))
  {
    var s' := WalkStep(s, t);
    if s'.log != s.log {
      assert s'.log == s.log + [Entry(t, s.locals[t].op, s'.locals[t].result)];
    }
  }

  lemma LinkEffect(s: Shared, t: nat)
    requires Aligned(s) && t < |s.locals| && s.locals[t].Linking?
    requires s.lock.phases[t] == L.Inside(Mode(s.locals[t].op))
    ensures LinkStep(s, t).log == s.log || GivesResult(s, t, LinkStep(s, t))
  {
    var s' := LinkStep(s, t);
    if s'.log != s.log {
      assert s'.log == s.log + [Entry(t, s.locals[t].op, s'.locals[t].result)];
    }
  }

  ghost predicate GivesResult(s: Shared, t: nat, s': Shared)
    requires Aligned(s) && t < |s.locals| && InProgress(s.locals[t]) != []
  {
    var op := s.locals[t].op;
    && s.lock.phases[t] == L.Inside(Mode(op))
    && exists result :: s'.log == s.log + [Entry(t, op, result)] && s'.locals == s.locals[t := Finished(op, result)]
  }

  lemma {:induction false} LogOnlyGrows(s: Shared, run: seq<Action>)
    requires CanRun(s, run)
    ensures s.log <= After(s, run).log
    decreases |run|
  {
    if run != [] {
      LogOnlyGrows(Apply(s, run[0]), run[1..]);
    }
  }

  lemma {:induction false} RunsCompose(s: Shared, first: seq<Action>, second: seq<Action>)
    requires CanRun(s, first) && CanRun(After(s, first), second)
    ensures CanRun(s, first + second) && After(s, first + second) == After(After(s, first), second)
    decreases |first|
  {
    if first == [] {
      assert first + second == second;
    } else {
      assert (first + second)[1..] == first[1..] + second;
      RunsCompose(Apply(s, first[0]), first[1..], second);
    }
  }

  /** Real-time order: everything that has returned to an idle thread by some moment comes, in the log of any later
      moment, before everything called after it. */
  lemma RealTimeOrder(n: nat, first: seq<Action>, second: seq<Action>, s1: Shared, s2: Shared)
    requires Reaches(n, first, s1)
    requires CanRun(s1, second) && s2 == After(s1, second)
    ensures Reaches(n, first + second, s2)
    ensures s1.log <= s2.log
    ensures Aligned(s1)
    ensures forall t | 0 <= t < |s1.locals| && s1.locals[t].Idle? :: OpsOf(s2.log[..|s1.log|], t) == s1.called[t]
  {
    RunsCompose(Init(n), first, second);
    LogOnlyGrows(s1, second);
    assert s2.log[..|s1.log|] == s1.log;
    ReachableInv(n, first, s1);
    forall t | 0 <= t < |s1.locals| && s1.locals[t].Idle?
      ensures OpsOf(s2.log[..|s1.log|], t) == s1.called[t]
    {
      EachCallOnce(n, first, s1, t);
    }
  }
}
