/** Any number of threads share the list of queue/ollist_threads_rw.c under the lock of queue/rdwr.c.

    The lock moves by the steps of RwLock and a traversal by one node per step, so that readers walk side by
    side and a writer may be stopped anywhere, even between filling in a new node and linking it. The theorem is
    linearizability: the results are those of one sequential map. */
module SharedList {
  import opened ListMemory
  import opened Wrappers
  import L = RwLock
  import OutputList

  datatype Op =
    | Insert(index: int, data: Output)
    | Find(index: int)
    | Toggle(index: int)

  /** What a call returns. A missed toggle returns an uninitialised variable: None claims nothing about it. */
  datatype Result =
    | Inserted
    | Found(record: Option<Output>)
    | Toggled(onoff: Option<int>)

  /** Which of the two locks the operation takes. */
  function Mode(op: Op): L.Kind {
    if op.Find? then L.Read else L.Write
  }

  // ---------- The sequential map ----------

  function SpecMap(m: map<int, Output>, op: Op): map<int, Output> {
    match op
    case Insert(k, d) => m[k := d]
    case Find(_) => m
    case Toggle(k) => if k in m then m[k := m[k].(onoff := OutputList.Flip(m[k].onoff))] else m
  }

  function SpecResult(m: map<int, Output>, op: Op): Result {
    match op
    case Insert(_, _) => Inserted
    case Find(k) => Found(if k in m then Some(m[k]) else None)
    case Toggle(k) => Toggled(if k in m then Some(OutputList.Flip(m[k].onoff)) else None)
  }

  datatype Entry = Entry(t: nat, op: Op, result: Result)

  function Replay(log: seq<Entry>): map<int, Output> {
    if log == [] then map[] else SpecMap(Replay(log[..|log| - 1]), log[|log| - 1].op)
  }

  /** Every result in the log is the one the sequential map gives when the operations run in log order. */
  ghost predicate Legal(log: seq<Entry>) {
    forall i | 0 <= i < |log| :: log[i].result == SpecResult(Replay(log[..i]), log[i].op)
  }

  /** The operations of one thread, in log order. */
  function OpsOf(log: seq<Entry>, t: nat): seq<Op> {
    if log == [] then []
    else
      var last := log[|log| - 1];
      OpsOf(log[..|log| - 1], t) + if last.t == t then [last.op] else []
  }

  // ---------- The concurrent system ----------

  datatype Local =
    | Idle
    | Pending(op: Op)                                        // has called the lock, loop not begun
    | Walking(op: Op, prev: nat, cur: nat)                   // at the head of the loop
    | Linking(op: Op, prev: nat, cur: nat, block: nat)       // the new node is filled in, not yet linked
    | Finished(op: Op, result: Result)                       // has the result; gives the lock back and returns
    | Faulted                                                // has read memory that is not allocated

  /** `path`, `log` and `called` only record history: the nodes in list order, the completed operations, and what
      each thread has called so far. No step depends on them. */
  datatype Shared = Shared(
    lock: L.State, mem: Memory, first: nat, locals: seq<Local>,
    path: seq<nat>, log: seq<Entry>, called: seq<seq<Op>>)

  datatype Action =
    | Invoke(t: nat, op: Op)
    | Lock(step: L.Action)           // any step of the lock except its calls
    | Begin(t: nat)                  // cur = prev = first
    | Walk(t: nat)                   // one turn of the loop
    | Allocate(t: nat, block: nat)   // the index is not there: malloc and fill in the node
    | Link(t: nat)                   // make it reachable
    | Leave(t: nat)                  // call the unlock
    | Return(t: nat)

  function Init(n: nat): Shared {
    Shared(L.Init(n), map[], NULL, seq(n, _ => Idle), [], [], seq(n, _ => []))
  }

  predicate Aligned(s: Shared) {
    |s.locals| == |s.lock.phases| == |s.called|
  }

  function Actor(a: Action): nat {
    if a.Lock? then a.step.t else a.t
  }

  /** The traversal has reached its end: NULL, the index itself or a larger one. */
  predicate Stopped(mem: Memory, cur: nat, index: int) {
    cur != NULL ==> cur in mem && index <= mem[cur].item.index
  }

  predicate Enabled(s: Shared, a: Action) {
    && Aligned(s)
    && Actor(a) < |s.locals|
    && var p, l := s.lock.phases[Actor(a)], s.locals[Actor(a)];
       match a
       case Invoke(_, _) => l.Idle? && p.Outside?
       case Lock(step) => !step.Call? && !step.Exit? && L.Enabled(s.lock, step)
       case Begin(_) => l.Pending? && p.Inside?
       case Walk(_) => l.Walking? && (l.op.Insert? && Stopped(s.mem, l.cur, l.op.index) ==> Hit(s.mem, l))
       case Allocate(_, block) =>
         && l.Walking? && l.op.Insert? && Stopped(s.mem, l.cur, l.op.index) && !Hit(s.mem, l)
         && block != NULL && block !in s.mem
       case Link(_) => l.Linking?
       case Leave(_) => l.Finished? && p.Inside?
       case Return(_) => l.Finished? && p.Outside?
  }

  predicate Hit(mem: Memory, l: Local)
    requires l.Walking?
  {
    l.cur != NULL && l.cur in mem && mem[l.cur].item.index == l.op.index
  }

  function SetLocal(s: Shared, t: nat, l: Local): Shared
    requires t < |s.locals|
  {
    s.(locals := s.locals[t := l])
  }

  function Finish(s: Shared, t: nat, op: Op, result: Result): Shared
    requires t < |s.locals|
  {
    SetLocal(s, t, Finished(op, result)).(log := s.log + [Entry(t, op, result)])
  }

  /** One turn of the loop that all three operations share. */
  function WalkStep(s: Shared, t: nat): Shared
    requires t < |s.locals| && s.locals[t].Walking?
  {
    var l := s.locals[t];
    if l.cur != NULL && l.cur !in s.mem then SetLocal(s, t, Faulted)
    else if Hit(s.mem, l) then
      var d := s.mem[l.cur].item.data;
      match l.op
      case Insert(_, data) => Finish(s.(mem := Stored(s.mem, l.cur, data)), t, l.op, Inserted)
      case Find(_) => Finish(s, t, l.op, Found(Some(d)))
      case Toggle(_) =>
        var d' := d.(onoff := OutputList.Flip(d.onoff));
        Finish(s.(mem := Stored(s.mem, l.cur, d')), t, l.op, Toggled(Some(d'.onoff)))
    else if Stopped(s.mem, l.cur, l.op.index) then
      Finish(s, t, l.op, if l.op.Find? then Found(None) else Toggled(None))
    else SetLocal(s, t, Walking(l.op, l.cur, s.mem[l.cur].next))
  }

  function LinkStep(s: Shared, t: nat): Shared
    requires t < |s.locals| && s.locals[t].Linking?
  {
    var l := s.locals[t];
    if l.cur == s.first then
      Finish(s.(first := l.block, path := [l.block] + s.path), t, l.op, Inserted)
    else if l.prev !in s.mem then SetLocal(s, t, Faulted)
    else
      var i := PositionAfter(s.path, l.prev);
      Finish(s.(mem := Relinked(s.mem, l.prev, l.block), path := Insertion(s.path, i, l.block)), t, l.op, Inserted)
  }

  /** The position just behind the node at this address. */
  function PositionAfter(path: seq<nat>, a: nat): (i: nat)
    ensures i <= |path| && (a in path ==> i > 0 && path[i - 1] == a)
  {
    if path == [] || path[0] == a then (if path == [] then 0 else 1)
    else PositionAfter(path[1..], a) + 1
  }

  function Apply(s: Shared, a: Action): Shared
    requires Enabled(s, a)
  {
    var t := Actor(a);
    match a
    case Invoke(_, op) =>
      SetLocal(s, t, Pending(op)).(lock := L.Apply(s.lock, L.Call(t, Mode(op))), called := s.called[t := s.called[t] + [op]])
    case Lock(step) => s.(lock := L.Apply(s.lock, step))
    case Begin(_) => SetLocal(s, t, Walking(s.locals[t].op, s.first, s.first))
    case Walk(_) => WalkStep(s, t)
    case Allocate(_, block) =>
      var l := s.locals[t];
      SetLocal(s, t, Linking(l.op, l.prev, l.cur, block)).(
        mem := Created(s.mem, block, Item(l.op.index, l.op.data), l.cur))
    case Link(_) => LinkStep(s, t)
    case Leave(_) => s.(lock := L.Apply(s.lock, L.Exit(t)))
    case Return(_) => SetLocal(s, t, Idle)
  }
}
