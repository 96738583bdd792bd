/** What every run of the server keeps in its client table: routing, compactness and the heartbeat. */
module TableRuns {
  import opened Wrappers
  import opened ClientTable

  datatype Event =
    | Connect(sock: int, dest: Option<nat>, windows: bool) // new_sock_thread accepted a connection
    | TimerVisit(i: nat)                                   // timer_thread reached slot i
    | Status(name: string, notes: seq<string>)             // UPDATE_STATUS arrived
    | Name(i: nat, name: string)                           // SET_CLIENT_NAME arrived on slot i
    | LogoffClient(name: string)                           // logoff_client called by another thread
    | Disconnect(from: nat, target: int)
    | DisconnectAll

  predicate Enabled(t: Table, e: Event) {
    match e
    case Connect(sock, _, _) => sock > 0 && 0 <= t.noThreads < |t.slots|
    case TimerVisit(i) => i < t.noThreads && i < |t.slots|
    case Name(i, _) => i < |t.slots|
    case Status(_, notes) => |notes| == |t.slots| && AllNoted(notes)
    case _ => true
  }

  function Apply(t: Table, e: Event): Table
    requires Enabled(t, e)
  {
    match e
    case Connect(sock, dest, windows) => Accepted(t, sock, dest, windows)
    case TimerVisit(i) => Visited(t, i)
    case Status(name, notes) => t.(slots := Answered(t.slots, name, notes, 0))
    case Name(i, name) => Named(t, i, name)
    case LogoffClient(name) => LoggedOff(t, name)
    case Disconnect(from, dest) => Disconnected(t, from, dest)
    case DisconnectAll => t.(slots := AllDisconnectedSlots(t.slots, t.noThreads))
  }

  predicate CanRun(t: Table, run: seq<Event>)
    decreases |run|
  {
    run == [] || (Enabled(t, run[0]) && CanRun(Apply(t, run[0]), run[1..]))
  }

  function After(t: Table, run: seq<Event>): Table
    requires CanRun(t, run)
    decreases |run|
  {
    if run == [] then t else After(Apply(t, run[0]), run[1..])
  }

  lemma StepKeepsSound(t: Table, e: Event)
    requires Sound(t) && Enabled(t, e)
    ensures Sound(Apply(t, e))
  {
    match e
    case Connect(sock, dest, windows) => AcceptKeepsSound(t, sock, dest, windows);
    case TimerVisit(i) => VisitKeepsSound(t, i);
    case Status(name, notes) => AnswerKeepsSound(t, name, notes);
    case Name(i, name) => NameKeepsSound(t, i, name);
    case LogoffClient(name) => LogoffKeepsSound(t, name);
    case Disconnect(from, dest) => DisconnectKeepsSound(t, from, dest);
    case DisconnectAll => DisconnectAllKeepsSound(t);
  }

  lemma {:induction false} RunKeepsSound(t: Table, run: seq<Event>)
    requires Sound(t) && CanRun(t, run)
    ensures Sound(After(t, run))
    decreases |run|
  {
    if run != [] {
      StepKeepsSound(t, run[0]);
      RunKeepsSound(Apply(t, run[0]), run[1..]);
    }
  }

  // ---------- Routing ----------

  /** Slot i is the first live one registered for this destination. */
  ghost predicate FirstLive(t: Table, dest: int, i: nat) {
    && i < |t.slots| && Live(t.slots[i]) && t.slots[i].dest == dest
    && forall j | 0 <= j < i :: !(Live(t.slots[j]) && t.slots[j].dest == dest)
  }

  lemma {:induction false} FirstWithMeaning(slots: seq<Slot>, dest: int, i: nat)
    requires i <= |slots|
    ensures var r := FirstWith(slots, dest, i);
            && i <= r <= |slots|
            && (r < |slots| ==> slots[r].dest == dest)
            && forall j | i <= j < r :: slots[j].dest != dest
    decreases |slots| - i
  {
    if i < |slots| && slots[i].dest != dest {
      FirstWithMeaning(slots, dest, i + 1);
    }
  }

  /** Routing soundness: in every reachable state get_dest finds the first live slot registered for a destination, and
      reports MAX_THREADS exactly when there is none; every socket is bounded by highest_sock, and no_threads is never
      below the number of live slots. */
  lemma RoutingSound(run: seq<Event>, t: Table, dest: nat)
    requires CanRun(Init(), run) && t == After(Init(), run)
    ensures |t.slots| == MAX_THREADS
    ensures var i := FirstWith(t.slots, dest, 0);
            if i < MAX_THREADS then FirstLive(t, dest, i)
            else forall j | 0 <= j < MAX_THREADS :: !(Live(t.slots[j]) && t.slots[j].dest == dest)
    ensures forall j | 0 <= j < MAX_THREADS :: t.slots[j].sock <= t.highestSock
    ensures LiveCount(t.slots) <= t.noThreads
  {
    InitSound();
    RunKeepsSound(Init(), run);
    FirstWithMeaning(t.slots, dest, 0);
  }

  /** listen_thread relays a message for a destination only to a slot below no_threads. */
  predicate Routable(t: Table, dest: int) {
    FirstWith(t.slots, dest, 0) < t.noThreads
  }

  /** The live slots are exactly the first no_threads ones. */
  predicate Compact(t: Table) {
    forall i | 0 <= i < |t.slots| :: Live(t.slots[i]) <==> i < t.noThreads
  }

  /** In a compact table every destination with a live client can be reached. */
  lemma CompactReachesAll(t: Table, i: nat)
    requires Sound(t) && Compact(t) && i < |t.slots| && Live(t.slots[i])
    ensures Routable(t, t.slots[i].dest)
  {
    FirstWithMeaning(t.slots, t.slots[i].dest, 0);
  }

  /** A connecting client is registered: the slot at no_threads has its socket and its destination, and no other slot changes. A
      client from an unknown address gets the destination that was there before. */
  lemma ConnectRegisters(t: Table, sock: int, dest: Option<nat>, windows: bool)
    requires Sound(t) && sock > 0 && t.noThreads < |t.slots|
    ensures var t', n := Apply(t, Connect(sock, dest, windows)), t.noThreads;
            && |t'.slots| == |t.slots| && t'.noThreads == n + 1
            && Live(t'.slots[n]) && t'.slots[n].sock == sock && t'.slots[n].windows == windows
            && (dest.Some? ==> t'.slots[n].dest == dest.value) && (dest.None? ==> t'.slots[n].dest == t.slots[n].dest)
            && forall i | 0 <= i < |t.slots| && i != n :: t'.slots[i] == t.slots[i]
  {
  }

  /** So in a table without gaps, where nobody else has the destination, it is found under its destination and can be reached. */
  lemma ConnectedIsFound(t: Table, sock: int, d: nat, windows: bool)
    requires Sound(t) && Compact(t) && sock > 0 && t.noThreads < |t.slots|
    requires forall i | 0 <= i < |t.slots| && Live(t.slots[i]) :: t.slots[i].dest != d
    ensures var t' := Apply(t, Connect(sock, Some(d), windows));
            FirstWith(t'.slots, d, 0) == t.noThreads && FirstLive(t', d, t.noThreads) && Routable(t', d) && Compact(t')
  {
    var t' := Apply(t, Connect(sock, Some(d), windows));
    FirstWithMeaning(t'.slots, d, 0);
    assert t'.slots[t.noThreads].dest == d;
  }

  /** A new connection overwrites a live client exactly when the slot at no_threads is live, which a compact table excludes. */
  lemma AcceptKeepsCompact(t: Table, sock: int, dest: Option<nat>, windows: bool)
    requires Sound(t) && Compact(t) && sock > 0 && t.noThreads < MAX_THREADS
    ensures !Live(t.slots[t.noThreads]) && Compact(Accepted(t, sock, dest, windows))
  {
  }

  lemma {:induction false} MatchesOne(slots: seq<Slot>, i: nat)
    requires i < |slots| && Live(slots[i])
    requires forall j | 0 <= j < |slots| && j != i && Live(slots[j]) :: slots[j].name != slots[i].name
    ensures Matches(slots, slots[i].name) == 1
  {
    var n := |slots| - 1;
    if i == n {
      MatchesNone(slots[..n], slots[i].name);
    } else {
      MatchesOne(slots[..n], i);
    }
  }

  lemma {:induction false} MatchesNone(slots: seq<Slot>, name: string)
    requires forall j | 0 <= j < |slots| && Live(slots[j]) :: slots[j].name != name
    ensures Matches(slots, name) == 0
  {
    if slots != [] {
      MatchesNone(slots[..|slots| - 1], name);
    }
  }

  /** If the slots of a name are the last ones in use, they are counted off one by one. */
  lemma {:induction false} MatchesTail(slots: seq<Slot>, name: string, c: nat, n: nat)
    requires c <= n <= |slots|
    requires forall i | 0 <= i < |slots| :: LogsOff(slots[i], name) <==> c <= i < n
    ensures Matches(slots, name) == n - c
  {
    if slots != [] {
      var last := |slots| - 1;
      assert forall i | 0 <= i < last :: slots[..last][i] == slots[i];
      if n == |slots| {
        if c < n {
          MatchesTail(slots[..last], name, c, n - 1);
        } else {
          MatchesTail(slots[..last], name, last, last);
        }
      } else {
        MatchesTail(slots[..last], name, c, n);
      }
    }
  }

  /** The live slots of a name are the last ones in use: whatever comes behind one of them bears the name too. */
  predicate AtTheEnd(t: Table, name: string) {
    forall i, j | 0 <= i < j < |t.slots| && Live(t.slots[i]) && Live(t.slots[j]) :: t.slots[i].name == name ==> t.slots[j].name == name
  }

  function FirstNamed(slots: seq<Slot>, name: string, n: nat): (c: nat)
    requires n <= |slots|
    ensures c <= n && (forall i | 0 <= i < c :: slots[i].name != name) && (c < n ==> slots[c].name == name)
  {
    if n == 0 then 0
    else
      var c := FirstNamed(slots, name, n - 1);
      if c < n - 1 then c else if slots[n - 1].name == name then n - 1 else n
  }

  /** Logging a name off decrements no_threads without closing the gaps: the table stays compact exactly when the live slots of
      that name, however many share it, were the last ones in use. */
  lemma LogoffKeepsCompactIffLast(t: Table, name: string)
    requires Sound(t) && Compact(t)
    ensures Compact(LoggedOff(t, name)) <==> AtTheEnd(t, name)
  {
    var t' := LoggedOff(t, name);
    if AtTheEnd(t, name) {
      var c := FirstNamed(t.slots, name, t.noThreads);
      MatchesTail(t.slots, name, c, t.noThreads);
    }
    if Compact(t') {
      forall i, j | 0 <= i < j < |t.slots| && Live(t.slots[i]) && Live(t.slots[j]) && t.slots[i].name == name
        ensures t.slots[j].name == name
      {
        assert !Live(t'.slots[i]);
        assert Live(t'.slots[j]) ==> j < t'.noThreads;
      }
    }
  }

  /** Otherwise the client in the last slot can no longer be reached, and the next connection takes its slot. */
  lemma LogoffStrandsLast(t: Table, i: nat)
    requires Sound(t) && Compact(t) && i < t.noThreads - 1
    requires forall j | 0 <= j < |t.slots| && j != i && Live(t.slots[j]) :: t.slots[j].name != t.slots[i].name
    requires forall j | 0 <= j < t.noThreads - 1 :: t.slots[j].dest != t.slots[t.noThreads - 1].dest
    ensures var t', last := LoggedOff(t, t.slots[i].name), t.noThreads - 1;
            && Live(t'.slots[last]) && t'.slots[last].dest == t.slots[last].dest
            && (t.slots[last].dest != -1 ==> !Routable(t', t.slots[last].dest))
            && t'.noThreads == last
  {
    MatchesOne(t.slots, i);
    FirstWithMeaning(LoggedOff(t, t.slots[i].name).slots, t.slots[t.noThreads - 1].dest, 0);
  }

  // ---------- What no_threads counts ----------

  /** How much no_threads is ahead of the live slots. */
  function Surplus(t: Table): int {
    t.noThreads - LiveCount(t.slots)
  }

  /** Only two events change that: a connection that lands on a live slot, and DISCONNECT_ALL, which clears slots and counts nobody
      off. */
  lemma SurplusMoves(t: Table, e: Event)
    requires Sound(t) && Enabled(t, e)
    ensures !e.DisconnectAll? ==>
              Surplus(Apply(t, e)) == Surplus(t) + if e.Connect? && Live(t.slots[t.noThreads]) then 1 else 0
    ensures e.DisconnectAll? ==>
              Apply(t, e).noThreads == t.noThreads && forall i | 0 <= i < t.noThreads :: !Live(Apply(t, e).slots[i])
  {
    match e
    case Connect(sock, dest, windows) => LiveCountUpdate(t.slots, t.noThreads, Apply(t, e).slots[t.noThreads]);
    case TimerVisit(i) =>
      LiveCountUpdate(t.slots, i, t.slots[i].(dirty := t.slots[i].dirty + 1));
      LiveCountLogoff(t.slots[i := t.slots[i].(dirty := t.slots[i].dirty + 1)], t.slots[i].name);
    case Status(name, notes) =>
      LiveCountSame(Apply(t, e).slots, t.slots);
      LiveCountSame(t.slots, Apply(t, e).slots);
    case Name(i, name) => LiveCountUpdate(t.slots, i, t.slots[i].(name := name));
    case LogoffClient(name) => LiveCountLogoff(t.slots, name);
    case Disconnect(from, dest) =>
      var i := FirstWith(t.slots, dest, 0);
      if i < |t.slots| {
        LiveCountUpdate(t.slots, i, Closed(t.slots[i]).(name := ""));
      }
    case DisconnectAll =>
  }

  /** Every connection of the run lands on a dead slot, and nobody disconnects everybody. */
  predicate Tidy(t: Table, run: seq<Event>)
    requires CanRun(t, run)
    decreases |run|
  {
    run == [] ||
    (&& !run[0].DisconnectAll? && (run[0].Connect? ==> !Live(t.slots[t.noThreads]))
     && Tidy(Apply(t, run[0]), run[1..]))
  }

  /** In such runs from the start no_threads is exactly the number of live slots. */
  lemma CountsExactly(run: seq<Event>)
    requires CanRun(Init(), run) && Tidy(Init(), run)
    ensures After(Init(), run).noThreads == LiveCount(After(Init(), run).slots)
  {
    InitSound();
    AllDead(Init().slots);
    SurplusStays(Init(), run);
  }

  lemma {:induction false} SurplusStays(t: Table, run: seq<Event>)
    requires Sound(t) && CanRun(t, run) && Tidy(t, run)
    ensures Surplus(After(t, run)) == Surplus(t)
    decreases |run|
  {
    if run != [] {
      SurplusMoves(t, run[0]);
      StepKeepsSound(t, run[0]);
      SurplusStays(Apply(t, run[0]), run[1..]);
    }
  }

  /** DISCONNECT closes the first live slot of its destination below no_threads, clears its name, counts it off, and changes no
      other slot; if there is none, or slot 0 asks, it changes nothing. */
  lemma DisconnectExact(t: Table, from: nat, dest: nat)
    requires Sound(t)
    ensures var t' := Apply(t, Disconnect(from, dest));
            && (forall i: nat | from > 0 && FirstLive(t, dest, i) && i < t.noThreads ::
                  t' == t.(slots := t.slots[i := t.slots[i].(sock := -1, dest := -1, name := "")], noThreads := t.noThreads - 1))
            && ((from == 0 || forall i: nat | i < t.noThreads :: !FirstLive(t, dest, i)) ==> t' == t)
  {
    FirstWithMeaning(t.slots, dest, 0);
    forall i: nat | FirstLive(t, dest, i)
      ensures FirstWith(t.slots, dest, 0) == i
    {
    }
    var i := FirstWith(t.slots, dest, 0);
    if i < t.noThreads {
      assert FirstLive(t, dest, i);
    }
  }

  /** Logging off a name closes exactly the live slots that bear it, and keeps their names, flags and stamps. */
  lemma LogoffExact(t: Table, name: string, i: nat)
    requires i < |t.slots|
    ensures Apply(t, LogoffClient(name)).slots[i] ==
            if t.slots[i].name == name && t.slots[i].sock > 0 then t.slots[i].(sock := -1, dest := -1) else t.slots[i]
  {
  }

  /** DISCONNECT_ALL clears every live slot below no_threads and no other. */
  lemma DisconnectAllExact(t: Table, i: nat)
    requires Sound(t) && i < |t.slots|
    ensures Apply(t, DisconnectAll).slots[i] ==
            if i < t.noThreads && t.slots[i].sock > 0 then t.slots[i].(sock := -1, dest := -1, name := "") else t.slots[i]
  {
  }

  // ---------- What an answer reaches ----------

  predicate AllNoted(notes: seq<string>) {
    forall k | 0 <= k < |notes| :: notes[k] != ""
  }

  lemma LongerPrefix(a: string, b: string, s: string)
    ensures a + b <= s ==> a <= s
  {
    if a + b <= s {
      assert a == (a + b)[..|a|];
    }
  }

  /** A slot whose name does not begin with the text is left alone. */
  lemma {:induction false} AnswerMisses(slots: seq<Slot>, text: string, notes: seq<string>, i: nat, j: nat)
    requires i <= |slots| == |notes| && j < |slots|
    requires !(text <= slots[j].name)
    ensures Answered(slots, text, notes, i)[j] == slots[j]
    decreases |slots| - i
  {
    if i < |slots| {
      if slots[i].name == text {
        var text' := if slots[i].stamped then text + notes[i] else text;
        LongerPrefix(text, notes[i], slots[j].name);
        AnswerMisses(slots[i := Cleared(slots[i])], text', notes, i + 1, j);
      } else {
        AnswerMisses(slots, text, notes, i + 1, j);
      }
    }
  }

  /** An answer clears a slot of its name exactly when no slot before it bears the name and was stamped: from there on the
      source compares names with the text it has appended the time to. */
  lemma {:induction false} AnswerClearsIff(slots: seq<Slot>, name: string, notes: seq<string>, i: nat, j: nat)
    requires i <= j < |slots| == |notes| && AllNoted(notes) && slots[j].name == name
    ensures Answered(slots, name, notes, i)[j] ==
            if exists k | i <= k < j :: slots[k].name == name && slots[k].stamped then slots[j]
            else slots[j].(dirty := 0, stamped := true)
    decreases |slots| - i
  {
    if slots[i].name == name {
      var slots' := slots[i := Cleared(slots[i])];
      if slots[i].stamped {
        assert |name + notes[i]| > |name|;
        if i < j {
          AnswerMisses(slots', name + notes[i], notes, i + 1, j);
        }
      } else if i < j {
        AnswerClearsIff(slots', name, notes, i + 1, j);
        assert forall k | i < k < j :: slots'[k] == slots[k];
      }
    } else {
      AnswerClearsIff(slots, name, notes, i + 1, j);
    }
  }

  // ---------- The heartbeat ----------

  /** How a client looks to the timer: visits since its last answer, or logged off. */
  datatype Pulse = Alive(missed: int) | Gone

  predicate Answers(e: Event, name: string) {
    e.Status? && e.name == name
  }

  function Beat(p: Pulse, e: Event, i: nat, name: string): Pulse {
    if p.Gone? then Gone
    else if e == TimerVisit(i) then if p.missed + 1 > 1 then Gone else Alive(p.missed + 1)
    else if Answers(e, name) then Alive(0)
    else p
  }

  function PulseAfter(missed: int, run: seq<Event>, i: nat, name: string): Pulse {
    if run == [] then Alive(missed)
    else Beat(PulseAfter(missed, run[..|run| - 1], i, name), run[|run| - 1], i, name)
  }

  function PulseOf(s: Slot): Pulse {
    if Live(s) then Alive(s.dirty) else Gone
  }

  /** Slot i is the only one that bears this name, a real one. */
  predicate SoleBearer(t: Table, i: nat, name: string) {
    && i < |t.slots| && t.slots[i].name == name && name != ""
    && forall j | 0 <= j < |t.slots| && j != i :: t.slots[j].name != name
  }

  /** The event neither reuses, renames or disconnects slot i, nor gives its name to another, nor is it a status under a
      name that the slot's name begins with. */
  predicate Spares(t: Table, e: Event, i: nat, name: string) {
    match e
    case Connect(_, _, _) => t.noThreads != i
    case Name(j, n) => j != i && n != name
    case LogoffClient(n) => n != name
    case Disconnect(from, dest) => FirstWith(t.slots, dest, 0) != i
    case DisconnectAll => false
    case Status(n, _) => n == name || !(n <= name)
    case TimerVisit(_) => true
  }

  predicate SparesAll(t: Table, run: seq<Event>, i: nat, name: string)
    requires CanRun(t, run)
    decreases |run|
  {
    run == [] || (Spares(t, run[0], i, name) && SparesAll(Apply(t, run[0]), run[1..], i, name))
  }

  lemma BeatOfStatus(t: Table, e: Event, i: nat, name: string)
    requires Enabled(t, e) && e.Status? && SoleBearer(t, i, name) && Spares(t, e, i, name)
    ensures SoleBearer(Apply(t, e), i, name)
    ensures PulseOf(Apply(t, e).slots[i]) == Beat(PulseOf(t.slots[i]), e, i, name)
  {
    if e.name == name {
      AnswerClearsIff(t.slots, name, e.notes, 0, i);
    } else {
      AnswerMisses(t.slots, e.name, e.notes, 0, i);
    }
  }

  lemma BeatExact(t: Table, e: Event, i: nat, name: string)
    requires Enabled(t, e) && SoleBearer(t, i, name) && Spares(t, e, i, name)
    ensures SoleBearer(Apply(t, e), i, name)
    ensures PulseOf(Apply(t, e).slots[i]) == Beat(PulseOf(t.slots[i]), e, i, name)
  {
    match e
    case Status(_, _) => BeatOfStatus(t, e, i, name);
    case TimerVisit(j) => BeatOfVisit(t, j, i, name);
    case _ =>
  }

  lemma BeatOfVisit(t: Table, j: nat, i: nat, name: string)
    requires Enabled(t, TimerVisit(j)) && SoleBearer(t, i, name)
    ensures SoleBearer(Apply(t, TimerVisit(j)), i, name)
    ensures PulseOf(Apply(t, TimerVisit(j)).slots[i]) == Beat(PulseOf(t.slots[i]), TimerVisit(j), i, name)
  {
  }

  function PulseFrom(p: Pulse, run: seq<Event>, i: nat, name: string): Pulse
    decreases |run|
  {
    if run == [] then p else PulseFrom(Beat(p, run[0], i, name), run[1..], i, name)
  }

  lemma {:induction false} PulseFromEnd(p: Pulse, run: seq<Event>, i: nat, name: string)
    requires run != []
    ensures PulseFrom(p, run, i, name)
            == Beat(PulseFrom(p, run[..|run| - 1], i, name), run[|run| - 1], i, name)
    decreases |run|
  {
    if |run| > 1 {
      PulseFromEnd(Beat(p, run[0], i, name), run[1..], i, name);
      assert run[1..][..|run| - 2] == run[..|run| - 1][1..];
    }
  }

  lemma {:induction false} PulsesAgree(missed: int, run: seq<Event>, i: nat, name: string)
    ensures PulseFrom(Alive(missed), run, i, name) == PulseAfter(missed, run, i, name)
    decreases |run|
  {
    if run != [] {
      PulsesAgree(missed, run[..|run| - 1], i, name);
      PulseFromEnd(Alive(missed), run, i, name);
    }
  }

  lemma {:induction false} RunBeats(t: Table, run: seq<Event>, i: nat, name: string)
    requires CanRun(t, run) && SoleBearer(t, i, name) && SparesAll(t, run, i, name)
    ensures i < |After(t, run).slots|
    ensures PulseOf(After(t, run).slots[i]) == PulseFrom(PulseOf(t.slots[i]), run, i, name)
    decreases |run|
  {
    if run != [] {
      BeatExact(t, run[0], i, name);
      RunBeats(Apply(t, run[0]), run[1..], i, name);
    }
  }

  /** Heartbeat exactness: over any interleaving of visits, answers and other events that leave the slot alone, the dirty
      flag of a live slot is its old value plus the visits since, or just the visits since the last answer; and the
      client is gone exactly when that number would have passed 1. */
  lemma HeartbeatExact(t: Table, run: seq<Event>, i: nat, name: string)
    requires CanRun(t, run) && SoleBearer(t, i, name) && SparesAll(t, run, i, name) && Live(t.slots[i])
    ensures i < |After(t, run).slots|
    ensures PulseOf(After(t, run).slots[i]) == PulseAfter(t.slots[i].dirty, run, i, name)
  {
    RunBeats(t, run, i, name);
    PulsesAgree(t.slots[i].dirty, run, i, name);
  }

  ghost predicate Unanswered(run: seq<Event>, a: int, b: int, i: nat, name: string)
    requires 0 <= a < |run| && b <= |run|
  {
    run[a] == TimerVisit(i) && forall c | a < c < b :: !Answers(run[c], name)
  }

  /** Two visits with no answer in between. */
  ghost predicate MissedTwice(run: seq<Event>, i: nat, name: string) {
    exists a, b | 0 <= a < b < |run| :: Unanswered(run, a, b, i, name) && run[b] == TimerVisit(i)
  }

  ghost predicate MissedNow(run: seq<Event>, i: nat, name: string) {
    exists a | 0 <= a < |run| :: Unanswered(run, a, |run|, i, name)
  }

  lemma {:induction false} GoneIffMissedTwice(run: seq<Event>, i: nat, name: string)
    ensures PulseAfter(0, run, i, name) ==
            if MissedTwice(run, i, name) then Gone else Alive(if MissedNow(run, i, name) then 1 else 0)
    decreases |run|
  {
    if run != [] {
      var n := |run| - 1;
      var before := run[..n];
      GoneIffMissedTwice(before, i, name);
      assert forall a, b | 0 <= a < b <= n :: Unanswered(before, a, b, i, name) == Unanswered(run, a, b, i, name);
      if a :| 0 <= a < n && Unanswered(before, a, n, i, name) {
        assert Unanswered(run, a, n, i, name);
      }
      assert run[n] == TimerVisit(i) ==> Unanswered(run, n, |run|, i, name);
      assert forall a | 0 <= a < n :: Unanswered(run, a, |run|, i, name) ==> Unanswered(run, a, n, i, name);
      assert forall a | 0 <= a < n :: Unanswered(run, a, n, i, name) && !Answers(run[n], name) ==> Unanswered(run, a, |run|, i, name);
      assert MissedTwice(before, i, name) ==> MissedTwice(run, i, name);
    }
  }

  /** A client that starts with a clear flag stays exactly as long as it answers between any two visits. */
  lemma LoggedOffIffSilent(t: Table, run: seq<Event>, i: nat, name: string)
    requires CanRun(t, run) && SoleBearer(t, i, name) && SparesAll(t, run, i, name)
    requires Live(t.slots[i]) && t.slots[i].dirty == 0
    ensures i < |After(t, run).slots|
    ensures Live(After(t, run).slots[i]) <==> !MissedTwice(run, i, name)
  {
    HeartbeatExact(t, run, i, name);
    GoneIffMissedTwice(run, i, name);
  }

  /** A new client inherits the flag of its slot: it survives its first visit exactly when the flag was clear. A client
      that was logged off for silence leaves the flag at 2 or more. */
  lemma NewClientSurvivesIffClear(t: Table, sock: int, dest: Option<nat>, windows: bool)
    requires Sound(t) && sock > 0 && t.noThreads < MAX_THREADS && t.slots[t.noThreads].dirty >= 0
    ensures var i := t.noThreads;
            Live(Visited(Accepted(t, sock, dest, windows), i).slots[i]) <==> t.slots[i].dirty == 0
  {
  }

  lemma SilenceLeavesFlag(t: Table, i: nat)
    requires Sound(t) && i < MAX_THREADS && Live(t.slots[i]) && !Live(Visited(t, i).slots[i])
    ensures Visited(t, i).slots[i].dirty >= 2
  {
  }

  lemma SilentLogoff(t: Table, i: nat)
    requires Sound(t) && i < |t.slots| && Live(t.slots[i]) && !Live(Visited(t, i).slots[i])
    requires forall j | 0 <= j < |t.slots| && j != i && Live(t.slots[j]) :: t.slots[j].name != t.slots[i].name
    ensures Visited(t, i).noThreads == t.noThreads - 1 && Visited(t, i).slots[i].dirty >= 2
    ensures forall j | 0 <= j < |t.slots| && j != i :: Visited(t, i).slots[j] == t.slots[j]
  {
    MatchesOne(t.slots[i := t.slots[i].(dirty := t.slots[i].dirty + 1)], i);
  }

  /** A slot whose flag is set loses its client at the next visit. */
  lemma DirtyDies(t: Table, i: nat)
    requires i < |t.slots| && t.slots[i].dirty >= 1
    ensures |Visited(t, i).slots| == |t.slots| && !Live(Visited(t, i).slots[i])
  {
  }

  /** So whoever connects after a client in the last slot was logged off for silence is logged off at the first visit, unless its
      own answer comes first. */
  lemma SilenceDoomsNext(t: Table, i: nat, sock: int, dest: Option<nat>, windows: bool)
    requires Sound(t) && Compact(t) && i == t.noThreads - 1 && !Live(Visited(t, i).slots[i]) && sock > 0
    requires forall j | 0 <= j < |t.slots| && j != i && Live(t.slots[j]) :: t.slots[j].name != t.slots[i].name
    ensures var run := [TimerVisit(i), Connect(sock, dest, windows), TimerVisit(i)];
            && CanRun(t, run) && i < |After(t, run).slots| && !Live(After(t, run).slots[i])
    ensures Visited(t, i).noThreads == i < |Visited(t, i).slots| && Live(Accepted(Visited(t, i), sock, dest, windows).slots[i])
  {
    SilentLogoff(t, i);
    var t2 := Accepted(Visited(t, i), sock, dest, windows);
    DirtyDies(t2, i);
    RunOfThree(t, TimerVisit(i), Connect(sock, dest, windows), TimerVisit(i));
  }

  // ---------- A client that comes back ----------

  /** Slot k, dead and stamped, stands before slot i and bears the same name; nobody else does. */
  predicate Shadowed(t: Table, i: nat, k: nat, name: string) {
    && k < i < |t.slots| && t.slots[i].name == name == t.slots[k].name && name != ""
    && !Live(t.slots[k]) && t.slots[k].stamped
    && forall j | 0 <= j < |t.slots| && j != i && j != k :: t.slots[j].name != name
  }

  predicate SparesBoth(t: Table, e: Event, i: nat, k: nat, name: string) {
    Spares(t, e, i, name) && Spares(t, e, k, name)
  }

  predicate SparesBothAll(t: Table, run: seq<Event>, i: nat, k: nat, name: string)
    requires CanRun(t, run)
    decreases |run|
  {
    run == [] || (SparesBoth(t, run[0], i, k, name) && SparesBothAll(Apply(t, run[0]), run[1..], i, k, name))
  }

  function Visits(run: seq<Event>, i: nat): nat
    decreases |run|
  {
    if run == [] then 0 else Visits(run[1..], i) + if run[0] == TimerVisit(i) then 1 else 0
  }

  lemma ShadowStep(t: Table, e: Event, i: nat, k: nat, name: string)
    requires Enabled(t, e) && Shadowed(t, i, k, name) && SparesBoth(t, e, i, k, name)
    ensures Shadowed(Apply(t, e), i, k, name)
    ensures PulseOf(Apply(t, e).slots[i]) ==
            if e == TimerVisit(i) then Beat(PulseOf(t.slots[i]), e, i, name) else PulseOf(t.slots[i])
  {
    if e.Status? {
      if e.name == name {
        AnswerClearsIff(t.slots, name, e.notes, 0, i);
        assert t.slots[k].name == name && t.slots[k].stamped;
      } else {
        AnswerMisses(t.slots, e.name, e.notes, 0, i);
      }
    }
  }

  /** The answers of a shadowed client are never heard: it is logged off at the second visit, however often it answers. */
  lemma {:induction false} ShadowedNeverHeard(t: Table, run: seq<Event>, i: nat, k: nat, name: string)
    requires CanRun(t, run) && Shadowed(t, i, k, name) && SparesBothAll(t, run, i, k, name)
    requires Live(t.slots[i]) && 0 <= t.slots[i].dirty <= 1
    ensures i < |After(t, run).slots|
    ensures var missed := t.slots[i].dirty + Visits(run, i);
            PulseOf(After(t, run).slots[i]) == if missed >= 2 then Gone else Alive(missed)
    decreases |run|
  {
    if run != [] {
      ShadowStep(t, run[0], i, k, name);
      if run[0] == TimerVisit(i) && t.slots[i].dirty == 1 {
        ShadowedStaysGone(Apply(t, run[0]), run[1..], i, k, name);
      } else {
        ShadowedNeverHeard(Apply(t, run[0]), run[1..], i, k, name);
      }
    }
  }

  lemma {:induction false} ShadowedStaysGone(t: Table, run: seq<Event>, i: nat, k: nat, name: string)
    requires CanRun(t, run) && Shadowed(t, i, k, name) && SparesBothAll(t, run, i, k, name)
    requires !Live(t.slots[i])
    ensures i < |After(t, run).slots| && PulseOf(After(t, run).slots[i]) == Gone
    decreases |run|
  {
    if run != [] {
      ShadowStep(t, run[0], i, k, name);
      ShadowedStaysGone(Apply(t, run[0]), run[1..], i, k, name);
    }
  }

  lemma RunOfThree(t: Table, a: Event, b: Event, c: Event)
    requires Enabled(t, a) && Enabled(Apply(t, a), b) && Enabled(Apply(Apply(t, a), b), c)
    ensures CanRun(t, [a, b, c]) && After(t, [a, b, c]) == Apply(Apply(Apply(t, a), b), c)
  {
    assert [a, b, c][1..] == [b, c] && [b, c][1..] == [c] && [c][1..] == [];
    var t1, t2, t3 := Apply(t, a), Apply(Apply(t, a), b), Apply(Apply(Apply(t, a), b), c);
    assert CanRun(t3, []) && After(t3, []) == t3;
    assert CanRun(t2, [c]) && After(t2, [c]) == t3;
    assert CanRun(t1, [b, c]) && After(t1, [b, c]) == t3;
  }

  /** How that comes about: of a compact table, a client that had answered before is logged off from any slot but the last
      in use, connects again and says its name. It now has the slot of another client, whose connection is lost, and is
      shadowed by its old one. */
  lemma ReturningClientIsShadowed(t: Table, i: nat, name: string, sock: int, dest: Option<nat>, windows: bool)
    requires Sound(t) && Compact(t) && SoleBearer(t, i, name) && i < t.noThreads - 1 && t.slots[i].stamped && sock > 0
    ensures var last := t.noThreads - 1;
            var run := [LogoffClient(name), Connect(sock, dest, windows), Name(last, name)];
            && CanRun(t, run)
            && Live(LoggedOff(t, name).slots[last])
            && Shadowed(After(t, run), last, i, name) && Live(After(t, run).slots[last])
  {
    MatchesOne(t.slots, i);
    var last := t.noThreads - 1;
    var run := [LogoffClient(name), Connect(sock, dest, windows), Name(last, name)];
    var t1 := Apply(t, run[0]);
    var t2 := Apply(t1, run[1]);
    var t3 := Apply(t2, run[2]);
    RunOfThree(t, run[0], run[1], run[2]);
  }
}
