/** The client table of server/thread_server.c: slots, routing, accept, logoff and the liveness check. */
module ClientTable {
  import opened Wrappers

  const MAX_THREADS := 7

  /** One entry of pthreads_list; the slot is live while its socket is positive. `stamped` says that time_stamp is set:
      a status has been recorded in this slot before. */
  datatype Slot = Slot(sock: int, dest: int, name: string, dirty: int, stamped: bool, windows: bool)

  datatype Table = Table(slots: seq<Slot>, noThreads: int, highestSock: int)

  predicate Live(s: Slot) {
    s.sock > 0
  }

  const EMPTY := Slot(-1, -1, "", 0, false, false)

  function Init(): Table {
    Table(seq(MAX_THREADS, _ => EMPTY), 0, 0)
  }

  function LiveCount(slots: seq<Slot>): nat {
    if slots == [] then 0
    else LiveCount(slots[..|slots| - 1]) + if Live(slots[|slots| - 1]) then 1 else 0
  }

  /** The first slot from position i on that is registered for this destination, or the length if there is none. */
  function FirstWith(slots: seq<Slot>, dest: int, i: nat): nat
    requires i <= |slots|
    decreases |slots| - i
  {
    if i == |slots| || slots[i].dest == dest then i else FirstWith(slots, dest, i + 1)
  }

  // ---------- What each operation makes of the table ----------

  function Closed(s: Slot): Slot {
    s.(sock := -1, dest := -1)
  }

  /** new_sock_thread, after a successful accept. A client whose address is unknown gets no destination of its own:
      the slot keeps the one it had. Nothing else of an earlier client is reset: not its name, its flag or its stamp. */
  function Accepted(t: Table, sock: int, dest: Option<nat>, windows: bool): Table
    requires 0 <= t.noThreads < |t.slots|
  {
    var s := t.slots[t.noThreads].(sock := sock, windows := windows);
    var s' := if dest.Some? then s.(dest := dest.value) else s;
    Table(t.slots[t.noThreads := s'], t.noThreads + 1, if sock > t.highestSock then sock else t.highestSock)
  }

  predicate LogsOff(s: Slot, name: string) {
    s.name == name && Live(s)
  }

  function LogoffSlots(slots: seq<Slot>, name: string): seq<Slot> {
    seq(|slots|, i requires 0 <= i < |slots| => if LogsOff(slots[i], name) then Closed(slots[i]) else slots[i])
  }

  function Matches(slots: seq<Slot>, name: string): nat {
    if slots == [] then 0
    else Matches(slots[..|slots| - 1], name) + if LogsOff(slots[|slots| - 1], name) then 1 else 0
  }

  /** logoff_client: every live slot of that name. */
  function LoggedOff(t: Table, name: string): Table {
    t.(slots := LogoffSlots(t.slots, name), noThreads := t.noThreads - Matches(t.slots, name))
  }

  /** One turn of the loop of timer_thread, at slot i. */
  function Visited(t: Table, i: nat): Table
    requires i < |t.slots|
  {
    if !Live(t.slots[i]) then t
    else
      var t' := t.(slots := t.slots[i := t.slots[i].(dirty := t.slots[i].dirty + 1)]);
      if t'.slots[i].dirty > 1 then LoggedOff(t', t'.slots[i].name) else t'
  }

  function Cleared(s: Slot): Slot {
    s.(dirty := 0, stamped := true)
  }

  /** UPDATE_STATUS, from slot i on: slots of the name in `text`, live or not. At a slot that was stamped before, the source
      appends a note on the time connected to the very buffer it goes on comparing names with. */
  function Answered(slots: seq<Slot>, text: string, notes: seq<string>, i: nat): (r: seq<Slot>)
    requires i <= |slots| == |notes|
    ensures |r| == |slots|
    ensures forall j | 0 <= j < |slots| :: r[j] == slots[j] || r[j] == Cleared(slots[j])
    ensures forall j | 0 <= j < i :: r[j] == slots[j]
    decreases |slots| - i
  {
    if i == |slots| then slots
    else if slots[i].name == text then
      Answered(slots[i := Cleared(slots[i])], if slots[i].stamped then text + notes[i] else text, notes, i + 1)
    else Answered(slots, text, notes, i + 1)
  }

  /** SET_CLIENT_NAME. */
  function Named(t: Table, i: nat, name: string): Table
    requires i < |t.slots|
  {
    t.(slots := t.slots[i := t.slots[i].(name := name)])
  }

  function Dropped(t: Table, i: nat): Table
    requires i < |t.slots|
  {
    t.(slots := t.slots[i := Closed(t.slots[i]).(name := "")], noThreads := t.noThreads - 1)
  }

  /** DISCONNECT, sent from slot `from` to a destination. */
  function Disconnected(t: Table, from: nat, dest: int): Table {
    var i := FirstWith(t.slots, dest, 0);
    if i < t.noThreads && from > 0 && i < |t.slots| && Live(t.slots[i]) then Dropped(t, i) else t
  }

  /** DISCONNECT_ALL closes the polled slots but leaves no_threads as it is. */
  function AllDisconnectedSlots(slots: seq<Slot>, noThreads: int): seq<Slot> {
    seq(|slots|, i requires 0 <= i < |slots| =>
      if i < noThreads && Live(slots[i]) then Closed(slots[i]).(name := "") else slots[i])
  }

  // ---------- The invariant ----------

  /** highest_sock bounds every socket. */
  predicate Bounded(t: Table) {
    forall i | 0 <= i < |t.slots| :: t.slots[i].sock <= t.highestSock
  }

  /** A slot without a connection is registered for no destination. */
  predicate DeadUnrouted(t: Table) {
    forall i | 0 <= i < |t.slots| :: !Live(t.slots[i]) ==> t.slots[i].dest == -1
  }

  predicate Sound(t: Table) {
    && |t.slots| == MAX_THREADS
    && Bounded(t) && t.highestSock >= 0
    && DeadUnrouted(t)
    && LiveCount(t.slots) <= t.noThreads <= MAX_THREADS
  }

  // ---------- The server's own table ----------

  class Server {
    const list: array<Slot>
    var noThreads: int
    var highestSock: int

    ghost function Model(): Table
      reads this, list
    {
      Table(list[..], noThreads, highestSock)
    }

    ghost predicate Valid()
      reads this, list
    {
      Sound(Model())
    }

    /** main, up to the creation of the threads. */
    constructor ()
      ensures Valid() && fresh(list) && Model() == Init()
      ensures list.Length == 7 && noThreads == 0 && highestSock == 0
      ensures forall i | 0 <= i < 7 :: list[i].sock == -1 && list[i].dest == -1 && list[i].dirty == 0 && !list[i].stamped
    {
      list := new Slot[MAX_THREADS](_ => EMPTY);
      noThreads, highestSock := 0, 0;
      new;
      InitSound();
      assert list[..] == Init().slots;
    }

    /** get_dest. The loop reads the entry behind the table before it tests the index; `beyond` is whatever it
        finds there, and the result does not depend on it. */
    method GetDest(dest: int, beyond: int) returns (i: nat)
      requires Valid()
      ensures i == FirstWith(list[..], dest, 0)
    {
      i := 0;
      while dest != (if i < MAX_THREADS then list[i].dest else beyond) && i < MAX_THREADS && list[i].sock <= highestSock
        invariant i <= MAX_THREADS
        invariant FirstWith(list[..], dest, i) == FirstWith(list[..], dest, 0)
        decreases MAX_THREADS - i
      {
        i := i + 1;
      }
    }

    /** new_sock_thread, one accepted connection. The source does not test whether there is a slot left. */
    method Accept(sock: int, dest: Option<nat>, windows: bool)
      requires Valid() && sock > 0 && noThreads < MAX_THREADS
      modifies this, list
      ensures Valid() && Model() == Accepted(old(Model()), sock, dest, windows)
      ensures var n := old(noThreads);
              && noThreads == n + 1
              && list[n].sock == sock && list[n].windows == windows
              && list[n].dest == (if dest.Some? then dest.value else old(list[n].dest))
              && list[n].name == old(list[n].name) && list[n].dirty == old(list[n].dirty)
              && forall i | 0 <= i < list.Length && i != n :: list[i] == old(list[i])
    {
      AcceptKeepsSound(Model(), sock, dest, windows);
      var s := list[noThreads].(sock := sock, windows := windows);
      if sock > highestSock {
        highestSock := sock;
      }
      if dest.Some? {
        s := s.(dest := dest.value);
      }
      list[noThreads] := s;
      noThreads := noThreads + 1;
    }

    /** logoff_client. */
    method Logoff(name: string)
      requires Valid()
      modifies this, list
      ensures Valid() && Model() == LoggedOff(old(Model()), name)
    {
      LogoffKeepsSound(Model(), name);
      ghost var slots := list[..];
      for i := 0 to MAX_THREADS
        invariant forall k | 0 <= k < i :: list[k] == if LogsOff(slots[k], name) then Closed(slots[k]) else slots[k]
        invariant forall k | i <= k < MAX_THREADS :: list[k] == slots[k]
        invariant noThreads == old(noThreads) - Matches(slots[..i], name)
        invariant highestSock == old(highestSock)
      {
        assert slots[..i + 1][..i] == slots[..i];
        if list[i].name == name && list[i].sock > 0 {
          list[i] := list[i].(sock := -1, dest := -1);
          noThreads := noThreads - 1;
        }
      }
      assert slots[..MAX_THREADS] == slots;
      assert list[..] == LogoffSlots(slots, name);
    }

    /** One turn of the loop of timer_thread: count the visit, log the client off if it did not answer since the
        last one. */
    method Visit(i: nat)
      requires Valid() && i < noThreads
      modifies this, list
      ensures Valid() && Model() == Visited(old(Model()), i)
    {
      if list[i].sock > 0 {
        ghost var t := Model();
        DirtyKeepsSound(t, i, list[i].dirty + 1);
        list[i] := list[i].(dirty := list[i].dirty + 1);
        assert list[..] == t.slots[i := t.slots[i].(dirty := t.slots[i].dirty + 1)];
        if list[i].dirty > 1 {
          Logoff(list[i].name);
        }
      }
    }

    /** The UPDATE_STATUS branch of listen_thread; `notes` are the texts it makes of the clock, slot by slot. */
    method UpdateStatus(name: string, notes: seq<string>)
      requires Valid() && |notes| == MAX_THREADS
      modifies list
      ensures Valid() && Model() == old(Model()).(slots := Answered(old(list[..]), name, notes, 0))
    {
      AnswerKeepsSound(Model(), name, notes);
      ghost var slots := list[..];
      var text := name;
      for i := 0 to MAX_THREADS
        invariant Answered(list[..], text, notes, i) == Answered(slots, name, notes, 0)
      {
        if list[i].name == text {
          var stampedBefore := list[i].stamped;
          ghost var before := list[..];
          list[i] := list[i].(dirty := 0, stamped := true);
          assert list[..] == before[i := Cleared(before[i])];
          if stampedBefore {
            text := text + notes[i];
          }
        }
      }
    }

    /** The SET_CLIENT_NAME branch. */
    method SetName(i: nat, name: string)
      requires Valid() && i < MAX_THREADS
      modifies list
      ensures Valid() && Model() == Named(old(Model()), i, name)
    {
      NameKeepsSound(Model(), i, name);
      ghost var slots := list[..];
      list[i] := list[i].(name := name);
      assert list[..] == slots[i := slots[i].(name := name)];
    }

    /** The table's part of the DISCONNECT branch: the slot is closed and its name cleared. */
    method Close(i: nat)
      requires Valid() && i < MAX_THREADS && Live(list[i])
      modifies this, list
      ensures Valid() && Model() == Dropped(old(Model()), i)
    {
      DropKeepsSound(Model(), i);
      ghost var slots := list[..];
      list[i] := list[i].(sock := -1, dest := -1, name := "");
      noThreads := noThreads - 1;
      assert list[..] == slots[i := Closed(slots[i]).(name := "")];
    }
  }

  // ---------- Every operation keeps the table sound ----------

  lemma InitSound()
    ensures Sound(Init())
  {
    AllDead(Init().slots);
  }

  lemma {:induction false} AllDead(slots: seq<Slot>)
    requires forall i | 0 <= i < |slots| :: !Live(slots[i])
    ensures LiveCount(slots) == 0
  {
    if slots != [] {
      AllDead(slots[..|slots| - 1]);
    }
  }

  lemma {:induction false} LiveCountUpdate(slots: seq<Slot>, i: nat, s: Slot)
    requires i < |slots|
    ensures LiveCount(slots[i := s])
            == LiveCount(slots) - (if Live(slots[i]) then 1 else 0) + (if Live(s) then 1 else 0)
  {
    var n := |slots| - 1;
    if i == n {
      assert slots[i := s][..n] == slots[..n];
    } else {
      assert slots[i := s][..n] == slots[..n][i := s];
      LiveCountUpdate(slots[..n], i, s);
    }
  }

  lemma {:induction false} LiveCountLogoff(slots: seq<Slot>, name: string)
    ensures LiveCount(LogoffSlots(slots, name)) == LiveCount(slots) - Matches(slots, name)
  {
    if slots != [] {
      var n := |slots| - 1;
      LiveCountLogoff(slots[..n], name);
      assert LogoffSlots(slots, name)[..n] == LogoffSlots(slots[..n], name);
    }
  }

  /** Slots that stay or go never raise the number of live ones. */
  lemma {:induction false} LiveCountSame(a: seq<Slot>, b: seq<Slot>)
    requires |a| == |b| && forall i | 0 <= i < |a| :: Live(a[i]) ==> Live(b[i])
    ensures LiveCount(a) <= LiveCount(b)
  {
    if a != [] {
      LiveCountSame(a[..|a| - 1], b[..|b| - 1]);
    }
  }

  lemma AcceptKeepsSound(t: Table, sock: int, dest: Option<nat>, windows: bool)
    requires Sound(t) && sock > 0 && t.noThreads < MAX_THREADS
    ensures Sound(Accepted(t, sock, dest, windows))
  {
    LiveCountUpdate(t.slots, t.noThreads, Accepted(t, sock, dest, windows).slots[t.noThreads]);
  }

  lemma LogoffKeepsSound(t: Table, name: string)
    requires Sound(t)
    ensures Sound(LoggedOff(t, name))
  {
    LiveCountLogoff(t.slots, name);
  }

  lemma DirtyKeepsSound(t: Table, i: nat, dirty: int)
    requires Sound(t) && i < |t.slots|
    ensures Sound(t.(slots := t.slots[i := t.slots[i].(dirty := dirty)]))
  {
    LiveCountUpdate(t.slots, i, t.slots[i].(dirty := dirty));
  }

  lemma VisitKeepsSound(t: Table, i: nat)
    requires Sound(t) && i < |t.slots|
    ensures Sound(Visited(t, i))
  {
    DirtyKeepsSound(t, i, t.slots[i].dirty + 1);
    var t' := t.(slots := t.slots[i := t.slots[i].(dirty := t.slots[i].dirty + 1)]);
    LogoffKeepsSound(t', t'.slots[i].name);
  }

  lemma AnswerKeepsSound(t: Table, name: string, notes: seq<string>)
    requires Sound(t) && |notes| == |t.slots|
    ensures Sound(t.(slots := Answered(t.slots, name, notes, 0)))
  {
    LiveCountSame(Answered(t.slots, name, notes, 0), t.slots);
  }

  lemma NameKeepsSound(t: Table, i: nat, name: string)
    requires Sound(t) && i < |t.slots|
    ensures Sound(Named(t, i, name))
  {
    LiveCountUpdate(t.slots, i, t.slots[i].(name := name));
  }

  lemma DropKeepsSound(t: Table, i: nat)
    requires Sound(t) && i < |t.slots| && Live(t.slots[i])
    ensures Sound(Dropped(t, i))
  {
    LiveCountUpdate(t.slots, i, Closed(t.slots[i]).(name := ""));
  }

  lemma DisconnectKeepsSound(t: Table, from: nat, dest: int)
    requires Sound(t)
    ensures Sound(Disconnected(t, from, dest))
  {
    var i := FirstWith(t.slots, dest, 0);
    if i < |t.slots| && Live(t.slots[i]) {
      DropKeepsSound(t, i);
    }
  }

  lemma DisconnectAllKeepsSound(t: Table)
    requires Sound(t)
    ensures Sound(t.(slots := AllDisconnectedSlots(t.slots, t.noThreads)))
  {
    LiveCountSame(AllDisconnectedSlots(t.slots, t.noThreads), t.slots);
  }
}
