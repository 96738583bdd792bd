/** End-to-end correctness of the relay: what client B dispatches is what the other clients sent to it.

    Here one turn of a server's thread writes its whole frame, and the table does not change. LiveRelay shows that the
    byte-by-byte writes of the source, with a changing table, come to this as long as no two threads write to one client
    at the same time. */
module EndToEnd {
  import opened Bytes
  import opened Wrappers
  import opened ClientTable
  import opened Relay
  import Framing
  import R = TableRuns

  // ---------- Where a message is meant to go ----------

  /** Message m of slot a is meant for slot b, in numbers: its command is one of the 75 and none of those the server keeps to
      itself, a is a connected slot but the first, and b is below no_threads and the first slot with the destination. */
  ghost predicate Meant(t: Table, listed: bool, a: nat, m: Message, b: nat)
    requires a < |t.slots|
  {
    && 1 <= m.cmd <= 75 && m.cmd !in {54, 55, 62, 72, 73, 74} && !(m.cmd == 59 && listed)
    && a > 0 && t.slots[a].sock > 0
    && b < |t.slots| && b < t.noThreads && t.slots[b].dest == m.dest
    && forall j | 0 <= j < b :: t.slots[j].dest != m.dest
  }

  /** The test of listen_thread comes to that. */
  lemma RouteMeans(t: Table, listed: bool, a: nat, m: Message, b: nat)
    requires a < |t.slots| && b < |t.slots|
    ensures Route(t, listed, a, m) == Some(b) <==> Meant(t, listed, a, m, b)
  {
    R.FirstWithMeaning(t.slots, m.dest, 0);
    var r := FirstWith(t.slots, m.dest, 0);
    if t.slots[b].dest == m.dest && r != b {
      assert r < b && t.slots[r].dest == m.dest;
    }
  }

  /** One turn, exactly. Take a sound table, a live slot above 0, and a message waiting there whole, with a command in 1 to 75 but
      those that the server handles itself. The turn takes the message and sends its frame to the first live slot of its
      destination, and nothing elsewhere, if that slot exists and lies below no_threads; otherwise it sends nothing. */
  lemma DeliveryExact(t: Table, listed: bool, s: Sockets, from: nat, m: Message, rest: seq<byte>)
    requires Sound(t) && Fits(t, s) && 0 < from < |t.slots| && t.slots[from].sock > 0
    requires 1 <= m.cmd <= 75 && m.cmd !in {54, 55, 62, 72, 73, 74} && !(m.cmd == 59 && listed)
    requires |m.body| < 256 && s.ins[from] == Framing.Frame(Framing.Payload([m.cmd, m.dest], m.body)) + rest
    ensures var s' := Listen(t, listed, s, from);
            && s'.ins == s.ins[from := rest]
            && (forall b: nat | R.FirstLive(t, m.dest, b) && b < t.noThreads ::
                  s'.outs == s.outs[b := s.outs[b] + Framing.Frame(Framing.Payload([m.cmd], m.body))])
            && ((forall b: nat | b < t.noThreads :: !R.FirstLive(t, m.dest, b)) ==> s'.outs == s.outs)
  {
    Framing.FrameRoundTrip(ToServer(m), rest);
    R.FirstWithMeaning(t.slots, m.dest, 0);
    var i := FirstWith(t.slots, m.dest, 0);
    forall b: nat | R.FirstLive(t, m.dest, b)
      ensures b == i
    {
    }
    if i < t.noThreads {
      assert R.FirstLive(t, m.dest, i);
    }
  }

  /** In a table without gaps it is delivered if and only if some live client has the destination. */
  lemma CompactDelivery(t: Table, listed: bool, s: Sockets, from: nat, m: Message, rest: seq<byte>)
    requires Sound(t) && R.Compact(t) && Fits(t, s) && 0 < from < |t.slots| && t.slots[from].sock > 0
    requires 1 <= m.cmd <= 75 && m.cmd !in {54, 55, 62, 72, 73, 74} && !(m.cmd == 59 && listed)
    requires |m.body| < 256 && s.ins[from] == Framing.Frame(Framing.Payload([m.cmd, m.dest], m.body)) + rest
    ensures var s' := Listen(t, listed, s, from);
            (exists b: nat :: R.FirstLive(t, m.dest, b)
                              && s'.outs == s.outs[b := s.outs[b] + Framing.Frame(Framing.Payload([m.cmd], m.body))])
            <==> exists k | 0 <= k < |t.slots| :: t.slots[k].sock > 0 && t.slots[k].dest == m.dest
  {
    DeliveryExact(t, listed, s, from, m, rest);
    R.FirstWithMeaning(t.slots, m.dest, 0);
    var i := FirstWith(t.slots, m.dest, 0);
    if k :| 0 <= k < |t.slots| && t.slots[k].sock > 0 && t.slots[k].dest == m.dest {
      assert i <= k;
      assert R.FirstLive(t, m.dest, i) && i < t.noThreads;
    }
  }

  /** So a client that has just connected, the only one for its destination, gets exactly what is sent to that destination. */
  lemma ConnectedIsServed(
      t: Table, sock: int, d: byte, windows: bool, listed: bool, s: Sockets, from: nat, m: Message, rest: seq<byte>)
    requires Sound(t) && R.Compact(t) && sock > 0 && t.noThreads < |t.slots| && |t.slots| == |s.ins| == |s.outs|
    requires forall i | 0 <= i < |t.slots| && Live(t.slots[i]) :: t.slots[i].dest != d
    requires 0 < from < t.noThreads && m.dest == d
    requires 1 <= m.cmd <= 75 && m.cmd !in {54, 55, 62, 72, 73, 74} && !(m.cmd == 59 && listed)
    requires |m.body| < 256 && s.ins[from] == Framing.Frame(Framing.Payload([m.cmd, m.dest], m.body)) + rest
    ensures var t' := R.Apply(t, R.Connect(sock, Some(d), windows));
            && Fits(t', s)
            && Listen(t', listed, s, from).outs ==
               s.outs[t.noThreads := s.outs[t.noThreads] + Framing.Frame(Framing.Payload([m.cmd], m.body))]
  {
    var t' := R.Apply(t, R.Connect(sock, Some(d), windows));
    R.StepKeepsSound(t, R.Connect(sock, Some(d), windows));
    R.ConnectRegisters(t, sock, Some(d), windows);
    R.ConnectedIsFound(t, sock, d, windows);
    DeliveryExact(t', listed, s, from, m, rest);
  }

  /** A message the server keeps to itself, or from slot 0, is passed on to nobody. */
  lemma KeptIsNotPassedOn(t: Table, listed: bool, s: Sockets, from: nat)
    requires Fits(t, s) && from < |t.slots|
    requires match Framing.ReadFrame(s.ins[from], 2)
             case Got(p, _) =>
               from == 0 || p.head[0] == 0 || p.head[0] > 75 || p.head[0] in {54, 55, 62, 72, 73, 74} || (p.head[0] == 59 && listed)
             case _ => true
    ensures Listen(t, listed, s, from).outs == s.outs
  {
  }

  // ---------- Messages on their way ----------

  /** Every message of every client is short enough for the buffers, and none asks the server to disconnect anybody:
      those change the table. */
  ghost predicate Relayed(sent: seq<seq<Message>>) {
    forall a, k | 0 <= a < |sent| && 0 <= k < |sent[a]| ::
      |sent[a][k].body| + 2 <= TEMPX && sent[a][k].cmd != DISCONNECT && sent[a][k].cmd != DISCONNECT_ALL
  }

  /** On every socket the frames of the messages still to come are waiting, and nothing else. */
  ghost predicate Waiting(s: Sockets, sent: seq<seq<Message>>) {
    |s.ins| == |sent| && forall a | 0 <= a < |sent| :: s.ins[a] == Framing.Stream(AllToServer(sent[a]))
  }

  /** What is left when the schedule is through. */
  function Left(t: Table, sent: seq<seq<Message>>, schedule: seq<Turn>): (r: seq<seq<Message>>)
    requires |sent| == |t.slots| && AreTurns(t, schedule)
    ensures |r| == |sent|
    decreases |schedule|
  {
    if schedule == [] then sent
    else
      match schedule[0]
      case Timer(_, _) => Left(t, sent, schedule[1..])
      case Thread(k) =>
        if sent[k] == [] || !Readable(t, k) then Left(t, sent, schedule[1..])
        else Left(t, sent[k := sent[k][1..]], schedule[1..])
  }

  lemma ListenTakesFirst(t: Table, listed: bool, s: Sockets, from: nat, sent: seq<seq<Message>>)
    requires Fits(t, s) && Waiting(s, sent) && Relayed(sent) && from < |t.slots| && sent[from] != [] && Readable(t, from)
    ensures var m := sent[from][0];
            var s' := Listen(t, listed, s, from);
            && Waiting(s', sent[from := sent[from][1..]]) && Relayed(sent[from := sent[from][1..]])
            && forall b | 0 <= b < |t.slots| ::
                 s'.outs[b] == if Route(t, listed, from, m) == Some(b) then s.outs[b] + Framing.Frame(ToClient(m)) else s.outs[b]
  {
    var m, rest := sent[from][0], AllToServer(sent[from][1..]);
    assert AllToServer(sent[from]) == [ToServer(m)] + rest;
    assert s.ins[from] == Framing.Frame(ToServer(m)) + Framing.Stream(rest);
    Framing.FrameRoundTrip(ToServer(m), Framing.Stream(rest));
  }

  lemma ListenBlocks(t: Table, listed: bool, s: Sockets, from: nat, sent: seq<seq<Message>>)
    requires Fits(t, s) && Waiting(s, sent) && from < |t.slots| && (sent[from] == [] || !Readable(t, from))
    ensures Listen(t, listed, s, from) == s
  {
  }

  /** The bytes of some payloads, on the wire after others. */
  lemma OnTheWire(p: seq<Framing.Payload>, ps: seq<Framing.Payload>, out: seq<byte>)
    requires |p| <= 1
    ensures out + Framing.Stream(p + ps) == (out + if p == [] then [] else Framing.Frame(p[0])) + Framing.Stream(ps)
  {
    if p == [] {
      assert p + ps == ps && out + [] == out;
    } else {
      assert (p + ps)[0] == p[0] && (p + ps)[1..] == ps;
    }
  }

  lemma DeliveriesStep(t: Table, listed: bool, b: nat, e: Event, events: seq<Event>)
    requires IsEvent(t, e) && AreEvents(t, events)
    ensures AreEvents(t, [e] + events)
    ensures Deliveries(t, listed, b, [e] + events) == Delivered(t, listed, b, e) + Deliveries(t, listed, b, events)
  {
    assert ([e] + events)[1..] == events;
  }

  lemma {:induction false} TakenAreEvents(t: Table, sent: seq<seq<Message>>, schedule: seq<Turn>)
    requires |sent| == |t.slots| && Relayed(sent) && AreTurns(t, schedule)
    ensures AreEvents(t, Taken(t, sent, schedule))
    decreases |schedule|
  {
    if schedule != [] {
      match schedule[0]
      case Timer(_, _) => TakenAreEvents(t, sent, schedule[1..]);
      case Thread(k) =>
        if sent[k] == [] || !Readable(t, k) {
          TakenAreEvents(t, sent, schedule[1..]);
        } else {
          TakenAreEvents(t, sent[k := sent[k][1..]], schedule[1..]);
        }
    }
  }

  /** The server's half: under every schedule, each client is sent the frames of exactly the messages routed to it and the
      timer's questions, in the order of the turns. */
  lemma {:induction false} ServeRelays(
      t: Table, listed: bool, s: Sockets, sent: seq<seq<Message>>, schedule: seq<Turn>, b: nat)
    requires Fits(t, s) && Waiting(s, sent) && Relayed(sent) && b < |t.slots| && AreTurns(t, schedule)
    ensures var s' := Serve(t, listed, s, schedule);
            && Waiting(s', Left(t, sent, schedule))
            && AreEvents(t, Taken(t, sent, schedule))
            && s'.outs[b] == s.outs[b] + Framing.Stream(Deliveries(t, listed, b, Taken(t, sent, schedule)))
    decreases |schedule|
  {
    TakenAreEvents(t, sent, schedule);
    if schedule == [] {
      assert s.outs[b] + [] == s.outs[b];
    } else {
      var turn, later := schedule[0], schedule[1..];
      var s1 := TakeTurn(t, listed, s, turn);
      if turn.Thread? && (sent[turn.from] == [] || !Readable(t, turn.from)) {
        ListenBlocks(t, listed, s, turn.from, sent);
        ServeRelays(t, listed, s, sent, later, b);
      } else {
        var sent' := if turn.Thread? then sent[turn.from := sent[turn.from][1..]] else sent;
        var e := if turn.Thread? then Sent(turn.from, sent[turn.from][0]) else Asked(turn.to, turn.text);
        if turn.Thread? {
          ListenTakesFirst(t, listed, s, turn.from, sent);
        }
        ServeRelays(t, listed, s1, sent', later, b);
        assert Taken(t, sent, schedule) == [e] + Taken(t, sent', later);
        DeliveriesStep(t, listed, b, e, Taken(t, sent', later));
        OnTheWire(Delivered(t, listed, b, e), Deliveries(t, listed, b, Taken(t, sent', later)), s.outs[b]);
        assert s1.outs[b] == s.outs[b] + if Delivered(t, listed, b, e) == [] then []
                                         else Framing.Frame(Delivered(t, listed, b, e)[0]);
      }
    }
  }

  // ---------- The receiving client's half ----------

  /** Payloads a client can take in: short, a command, and not a request to close. */
  ghost predicate Acceptable(ps: seq<Framing.Payload>) {
    forall k | 0 <= k < |ps| ::
      |ps[k].head| == 1 && |ps[k].body| + 2 <= TEMPX && ps[k].head[0] != DISCONNECT && ps[k].head[0] > 0
  }

  lemma {:induction false} DeliveriesAcceptable(t: Table, listed: bool, b: nat, events: seq<Event>)
    requires AreEvents(t, events)
    ensures Acceptable(Deliveries(t, listed, b, events))
  {
    if events != [] {
      DeliveriesAcceptable(t, listed, b, events[1..]);
    }
  }

  /** Queue and dispatcher hand on every command and body unchanged and in order, up to the first that ends the task. */
  lemma {:induction false} DispatchExact(ps: seq<Framing.Payload>)
    requires Acceptable(ps)
    ensures Dispatched(Queued(ps)) == UpToEnd(Commands(ps))
  {
    if ps != [] {
      var c := Command(ps[0].head[0], ps[0].body);
      DispatchExact(ps[1..]);
      RecordRoundTrip(c);
      if c.cmd == SEND_STATUS {
        assert Commands(ps) == Commands(ps[1..]);
      } else {
        var records := Queued(ps[1..]);
        assert ([Record(c)] + records)[0] == Record(c) && ([Record(c)] + records)[1..] == records;
        assert FromRecord(Record(c)) == [c] && Record(c)[0] == c.cmd;
        assert ([c] + Commands(ps[1..]))[1..] == Commands(ps[1..]);
      }
    }
  }

  /** No command that ends the task stands before the last one. */
  ghost predicate EndsLast(cs: seq<Command>) {
    forall k | 0 <= k < |cs| - 1 :: cs[k].cmd !in {50, 51, 60, 61}
  }

  /** What is dispatched of a list of commands: a prefix without an ending command but the last, and all of it exactly when no
      ending command stands before the last. */
  lemma {:induction false} UpToEndExact(cs: seq<Command>)
    ensures UpToEnd(cs) <= cs && EndsLast(UpToEnd(cs))
    ensures UpToEnd(cs) == cs <==> EndsLast(cs)
    ensures UpToEnd(cs) != cs ==> UpToEnd(cs) != [] && UpToEnd(cs)[|UpToEnd(cs)| - 1].cmd in {50, 51, 60, 61}
  {
    if cs != [] && !EndsTask(cs[0].cmd) {
      UpToEndExact(cs[1..]);
      assert cs == [cs[0]] + cs[1..];
      assert EndsLast(cs) ==> EndsLast(cs[1..]) by {
        assert forall k | 0 <= k < |cs| - 2 :: cs[1..][k] == cs[k + 1];
      }
      assert EndsLast(cs[1..]) ==> EndsLast(cs) by {
        assert forall k | 1 <= k < |cs| - 1 :: cs[k] == cs[1..][k - 1];
      }
    }
  }

  // ---------- Sender by sender ----------

  /** The messages of one sender among those taken. */
  function From(events: seq<Event>, a: nat): seq<Message> {
    if events == [] then []
    else if events[0].Sent? && events[0].from == a then [events[0].m] + From(events[1..], a)
    else From(events[1..], a)
  }

  lemma FromStep(e: Event, events: seq<Event>, a: nat)
    ensures From([e] + events, a) == (if e.Sent? && e.from == a then [e.m] else []) + From(events, a)
  {
    assert ([e] + events)[1..] == events;
  }

  /** Nothing is lost, duplicated or reordered on the way into the server: what has been taken from a sender,
      followed by what is still waiting, is what it sent. */
  lemma {:induction false} TakenInOrder(t: Table, sent: seq<seq<Message>>, schedule: seq<Turn>, a: nat)
    requires |sent| == |t.slots| && AreTurns(t, schedule) && a < |sent|
    ensures From(Taken(t, sent, schedule), a) + Left(t, sent, schedule)[a] == sent[a]
    decreases |schedule|
  {
    if schedule != [] {
      var turn, later := schedule[0], schedule[1..];
      if turn.Timer? {
        TakenInOrder(t, sent, later, a);
        FromStep(Asked(turn.to, turn.text), Taken(t, sent, later), a);
      } else if sent[turn.from] == [] || !Readable(t, turn.from) {
        TakenInOrder(t, sent, later, a);
      } else {
        var k := turn.from;
        var sent' := sent[k := sent[k][1..]];
        TakenInOrder(t, sent', later, a);
        FromStep(Sent(k, sent[k][0]), Taken(t, sent', later), a);
        assert sent[k] == [sent[k][0]] + sent'[k];
      }
    }
  }

  /** How many turns of a schedule are a slot's. */
  function TurnsOf(schedule: seq<Turn>, a: nat): nat {
    if schedule == [] then 0 else TurnsOf(schedule[1..], a) + if schedule[0] == Thread(a) then 1 else 0
  }

  /** Every turn of a connected client's thread takes its next message: what is left are the messages beyond its turns, and of a
      client that is gone all of them. */
  lemma {:induction false} LeftExact(t: Table, sent: seq<seq<Message>>, schedule: seq<Turn>, a: nat)
    requires |sent| == |t.slots| && AreTurns(t, schedule) && a < |sent|
    ensures var turns := TurnsOf(schedule, a);
            Left(t, sent, schedule)[a] ==
            if t.slots[a].sock < 0 then sent[a] else if turns <= |sent[a]| then sent[a][turns..] else []
    decreases |schedule|
  {
    if schedule != [] {
      var turn, later := schedule[0], schedule[1..];
      if turn.Thread? && sent[turn.from] != [] && Readable(t, turn.from) {
        LeftExact(t, sent[turn.from := sent[turn.from][1..]], later, a);
      } else {
        LeftExact(t, sent, later, a);
      }
    }
  }

  datatype Arrival = Arrival(from: nat, c: Command)

  /** The commands that reach slot b, each with its sender. */
  ghost function Arrivals(t: Table, listed: bool, b: nat, events: seq<Event>): seq<Arrival>
    requires AreEvents(t, events)
  {
    if events == [] then []
    else
      var e, rest := events[0], Arrivals(t, listed, b, events[1..]);
      if e.Sent? && Meant(t, listed, e.from, e.m, b) && e.m.cmd != 58
      then [Arrival(e.from, Command(e.m.cmd, e.m.body))] + rest
      else rest
  }

  function Untagged(arrivals: seq<Arrival>): seq<Command> {
    if arrivals == [] then [] else [arrivals[0].c] + Untagged(arrivals[1..])
  }

  function Of(arrivals: seq<Arrival>, a: nat): seq<Command> {
    if arrivals == [] then []
    else if arrivals[0].from == a then [arrivals[0].c] + Of(arrivals[1..], a)
    else Of(arrivals[1..], a)
  }

  /** The commands in a sender's messages that are relayable and addressed to slot b. */
  ghost function Addressed(t: Table, listed: bool, a: nat, b: nat, ms: seq<Message>): seq<Command>
    requires a < |t.slots|
  {
    if ms == [] then []
    else
      var rest := Addressed(t, listed, a, b, ms[1..]);
      if Meant(t, listed, a, ms[0], b) && ms[0].cmd != 58
      then [Command(ms[0].cmd, ms[0].body)] + rest
      else rest
  }

  lemma {:induction false} ArrivalsAreCommands(t: Table, listed: bool, b: nat, events: seq<Event>)
    requires AreEvents(t, events) && b < |t.slots|
    ensures Acceptable(Deliveries(t, listed, b, events))
    ensures Untagged(Arrivals(t, listed, b, events)) == Commands(Deliveries(t, listed, b, events))
  {
    DeliveriesAcceptable(t, listed, b, events);
    if events != [] {
      ArrivalsAreCommands(t, listed, b, events[1..]);
      if events[0].Sent? {
        RouteMeans(t, listed, events[0].from, events[0].m, b);
      }
      var p, ps := Delivered(t, listed, b, events[0]), Deliveries(t, listed, b, events[1..]);
      if p == [] {
        assert p + ps == ps;
      } else {
        assert (p + ps)[0] == p[0] && (p + ps)[1..] == ps;
      }
    }
  }

  lemma {:induction false} ArrivalsBySender(t: Table, listed: bool, a: nat, b: nat, events: seq<Event>)
    requires a < |t.slots| && AreEvents(t, events)
    ensures Of(Arrivals(t, listed, b, events), a) == Addressed(t, listed, a, b, From(events, a))
  {
    if events != [] {
      ArrivalsBySender(t, listed, a, b, events[1..]);
      if events[0].Sent? && events[0].from == a {
        assert From(events, a)[1..] == From(events[1..], a);
      }
    }
  }

  // ---------- The theorem ----------

  /** What client b makes of the bytes it was sent, if the server's threads took these events: it reads whole frames to the last
      byte, and dispatches the arrivals up to the first that ends its task, so all of them exactly when no such command
      stands before the last; the arrivals from each sender are exactly its relayable messages addressed to b, among those
      taken so far, in order and unchanged. */
  ghost predicate RightAtClient(
      t: Table, listed: bool, out: seq<byte>, sent: seq<seq<Message>>, left: seq<seq<Message>>, events: seq<Event>, b: nat)
    requires |sent| == |left| == |t.slots| && AreEvents(t, events)
  {
    var arrivals := Arrivals(t, listed, b, events);
    var (ps, rest) := Framing.ReadAll(out, 1);
    && rest == [] && Acceptable(ps)
    && Dispatched(Queued(ps)) == UpToEnd(Untagged(arrivals))
    && (Dispatched(Queued(ps)) == Untagged(arrivals) <==> EndsLast(Untagged(arrivals)))
    && forall a | 0 <= a < |t.slots| ::
         && Of(arrivals, a) == Addressed(t, listed, a, b, From(events, a))
         && From(events, a) + left[a] == sent[a]
  }

  /** End to end: for any messages of any clients, waiting as frames on their sockets, and any schedule of the server's threads,
      each writing its frame in one go, every client gets what is meant for it. */
  lemma EndToEnd(t: Table, listed: bool, s: Sockets, sent: seq<seq<Message>>, schedule: seq<Turn>, b: nat)
    requires Fits(t, s) && Waiting(s, sent) && Relayed(sent) && AreTurns(t, schedule)
    requires b < |t.slots| && s.outs[b] == []
    ensures AreEvents(t, Taken(t, sent, schedule))
    ensures RightAtClient(t, listed, Serve(t, listed, s, schedule).outs[b], sent, Left(t, sent, schedule),
                          Taken(t, sent, schedule), b)
  {
    var events := Taken(t, sent, schedule);
    ServeRelays(t, listed, s, sent, schedule, b);
    var ps := Deliveries(t, listed, b, events);
    assert Serve(t, listed, s, schedule).outs[b] == Framing.Stream(ps);
    ArrivalsAreCommands(t, listed, b, events);
    Framing.StreamRoundTrip(ps, 1);
    DispatchExact(ps);
    UpToEndExact(Commands(ps));
    forall a | 0 <= a < |t.slots|
      ensures Of(Arrivals(t, listed, b, events), a) == Addressed(t, listed, a, b, From(events, a))
      ensures From(events, a) + Left(t, sent, schedule)[a] == sent[a]
    {
      ArrivalsBySender(t, listed, a, b, events);
      TakenInOrder(t, sent, schedule, a);
    }
  }
}
