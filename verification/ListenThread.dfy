/** listen_thread of the server as it is coded: one turn reads a frame from a client's socket, changes the table and sends.

    Relay describes the same turn for the messages that are passed on; here every command is dispatched. */
module ListenThread {
  import opened Bytes
  import opened Wrappers
  import opened ClientTable
  import opened Relay
  import C = Endpoints
  import Framing
  import R = TableRuns

  function Text(s: seq<byte>): string {
    seq(|s|, i requires 0 <= i < |s| => s[i] as char)
  }

  /** The C string in a body: the buffer was cleared before. */
  function NameIn(body: seq<byte>): string {
    Text(C.ServerSees(body))
  }

  // ---------- What a message does ----------

  /** The table after a message from slot `from`. */
  function TableAfter(t: Table, from: nat, m: Message, notes: seq<string>): Table
    requires from < |t.slots| == |notes|
  {
    if m.cmd == SET_CLIENT_NAME then Named(t, from, NameIn(m.body))
    else if m.cmd == UPDATE_STATUS then t.(slots := Answered(t.slots, NameIn(m.body), notes, 0))
    else if m.cmd == DISCONNECT_ALL then t.(slots := AllDisconnectedSlots(t.slots, t.noThreads))
    else if m.cmd == DISCONNECT then Disconnected(t, from, m.dest)
    else t
  }

  /** The payload sent to slot b for it, if any. */
  function SentTo(t: Table, listed: bool, from: nat, m: Message, b: nat): Option<Framing.Payload>
    requires from < |t.slots| && b < |t.slots|
  {
    if m.cmd == DISCONNECT_ALL then
      if b < t.noThreads && Live(t.slots[b]) then Some(Framing.Payload([DISCONNECT], m.body)) else None
    else if m.cmd == DISCONNECT then
      if FirstWith(t.slots, m.dest, 0) == b < t.noThreads && from > 0 && Live(t.slots[b]) then Some(ToClient(m)) else None
    else if Route(t, listed, from, m) == Some(b) then Some(ToClient(m)) else None
  }

  /** The payload the timer sends to slot b when it visits slot i: a question, unless the client has missed one already. */
  function AskedBy(t: Table, i: nat, text: seq<byte>, b: nat): Option<Framing.Payload>
    requires i < |t.slots|
  {
    if b == i && Live(t.slots[i]) && t.slots[i].dirty < 1 && !t.slots[i].windows then Some(StatusRequest(text)) else None
  }

  function Wire(p: Option<Framing.Payload>): seq<byte> {
    if p.Some? then Framing.Frame(p.value) else []
  }

  /** What a message does to the table, by the number of its command: it is one of the events that every run of the table is made
      of, or nothing. */
  lemma TurnIsEvent(t: Table, from: nat, m: Message, notes: seq<string>)
    requires from < |t.slots| == |notes| && R.AllNoted(notes)
    ensures m.cmd == 72 ==> TableAfter(t, from, m, notes) == R.Apply(t, R.Name(from, NameIn(m.body)))
    ensures m.cmd == 62 ==> TableAfter(t, from, m, notes) == R.Apply(t, R.Status(NameIn(m.body), notes))
    ensures m.cmd == 55 ==> TableAfter(t, from, m, notes) == R.Apply(t, R.DisconnectAll)
    ensures m.cmd == 54 ==> TableAfter(t, from, m, notes) == R.Apply(t, R.Disconnect(from, m.dest))
    ensures m.cmd !in {54, 55, 62, 72} ==> TableAfter(t, from, m, notes) == t
  {
  }

  /** The name in a body without a zero is the body, character by character; otherwise it ends before the first zero. */
  lemma NameInExact(body: seq<byte>, n: nat)
    requires n <= |body| && (n < |body| ==> body[n] == 0) && forall i | 0 <= i < n :: body[i] != 0
    ensures |NameIn(body)| == n && forall i | 0 <= i < n :: NameIn(body)[i] as int == body[i]
  {
    C.StrLenIs(body + [0], n);
  }

  /** In a sound table: an ordinary command of a live slot above 0 goes to slot b exactly if b is the first live slot of its
      destination and below no_threads, and goes there with the same command and body. */
  lemma PassedOnExact(t: Table, listed: bool, from: nat, m: Message, b: nat)
    requires Sound(t) && 0 < from < |t.slots| && b < |t.slots| && t.slots[from].sock > 0
    requires 1 <= m.cmd <= 75 && m.cmd !in {54, 55, 62, 72, 73, 74} && !(m.cmd == 59 && listed)
    ensures SentTo(t, listed, from, m, b) ==
            if R.FirstLive(t, m.dest, b) && b < t.noThreads then Some(Framing.Payload([m.cmd], m.body)) else None
  {
    R.FirstWithMeaning(t.slots, m.dest, 0);
  }

  /** A disconnect goes to the slot it closes, and a disconnect of all to every slot it closes; what the server keeps to itself goes
      nowhere. */
  lemma DisconnectsTold(t: Table, listed: bool, from: nat, m: Message, notes: seq<string>, b: nat)
    requires Sound(t) && from < |t.slots| == |notes| && b < |t.slots|
    requires m.cmd in {54, 55, 62, 72, 73, 74}
    ensures SentTo(t, listed, from, m, b) ==
            if Live(t.slots[b]) && !Live(TableAfter(t, from, m, notes).slots[b]) then Some(Framing.Payload([54], m.body)) else None
  {
    R.FirstWithMeaning(t.slots, m.dest, 0);
  }

  /** The timer asks exactly the client it visits, if it is connected, stays so, and is not the Windows client; the question is
      command 58. */
  lemma AskedIffKept(t: Table, i: nat, text: seq<byte>, b: nat)
    requires i < |t.slots| && b < |t.slots|
    ensures AskedBy(t, i, text, b) ==
            if b == i && Live(Visited(t, i).slots[i]) && !t.slots[i].windows then Some(Framing.Payload([58], text)) else None
  {
  }

  lemma {:induction false} SameDestinations(a: seq<Slot>, b: seq<Slot>, dest: int, i: nat)
    requires i <= |a| == |b| && forall j | 0 <= j < |a| :: a[j].dest == b[j].dest
    ensures FirstWith(a, dest, i) == FirstWith(b, dest, i)
    decreases |a| - i
  {
    if i < |a| {
      SameDestinations(a, b, dest, i + 1);
    }
  }

  /** No message but a disconnect changes where any other message goes. */
  lemma RoutesStay(t: Table, listed: bool, from: nat, m: Message, notes: seq<string>, sender: nat, next: Message)
    requires from < |t.slots| == |notes| && sender < |t.slots|
    requires m.cmd != DISCONNECT && m.cmd != DISCONNECT_ALL
    ensures Route(TableAfter(t, from, m, notes), listed, sender, next) == Route(t, listed, sender, next)
  {
    SameDestinations(TableAfter(t, from, m, notes).slots, t.slots, next.dest, 0);
  }

  /** Only a client with a connection is ever sent anything. */
  lemma SentOnlyToLive(t: Table, listed: bool, from: nat, m: Message, b: nat)
    requires Sound(t) && from < |t.slots| && b < |t.slots|
    ensures SentTo(t, listed, from, m, b).Some? ==> Live(t.slots[b])
  {
    R.FirstWithMeaning(t.slots, m.dest, 0);
  }

  /** The bytes DISCONNECT_ALL has sent to slot b when it has come to slot n. */
  function Told(slots: seq<Slot>, n: int, body: seq<byte>, b: nat): seq<byte>
    requires b < |slots|
  {
    if b < n && Live(slots[b]) then Framing.Frame(Framing.Payload([DISCONNECT], body)) else []
  }

  lemma ToldStep(slots: seq<Slot>, i: nat, body: seq<byte>)
    requires i < |slots|
    ensures Told(slots, i, body, i) == []
    ensures Told(slots, i + 1, body, i) == if Live(slots[i]) then Framing.Frame(Framing.Payload([DISCONNECT], body)) else []
    ensures forall b | 0 <= b < |slots| && b != i :: Told(slots, i + 1, body, b) == Told(slots, i, body, b)
  {
  }

  // ---------- Which slot a thread serves ----------

  /** The last slot with this socket, or slot 0 if there is none. */
  function IndexOf(slots: seq<Slot>, sock: int): (i: nat)
    ensures slots != [] ==> i < |slots|
  {
    if slots == [] then 0
    else if slots[|slots| - 1].sock == sock then |slots| - 1
    else IndexOf(slots[..|slots| - 1], sock)
  }

  lemma {:induction false} IndexOfMeaning(slots: seq<Slot>, sock: int)
    ensures var i := IndexOf(slots, sock);
            if exists j | 0 <= j < |slots| :: slots[j].sock == sock
            then i < |slots| && slots[i].sock == sock && forall j | i < j < |slots| :: slots[j].sock != sock
            else i == 0
  {
    if slots != [] {
      var n := |slots| - 1;
      IndexOfMeaning(slots[..n], sock);
      assert forall j | 0 <= j < n :: slots[..n][j] == slots[j];
    }
  }

  /** While its client is connected a thread serves the client's own slot. Once the client is logged off the thread lives on
      and reads from slot 0, whoever is there. */
  lemma ThreadServes(t: Table, i: nat)
    requires i < |t.slots| && Live(t.slots[i])
    requires forall j | 0 <= j < |t.slots| && j != i :: t.slots[j].sock != t.slots[i].sock
    ensures IndexOf(t.slots, t.slots[i].sock) == i
    ensures IndexOf(LoggedOff(t, t.slots[i].name).slots, t.slots[i].sock) == 0
  {
    IndexOfMeaning(t.slots, t.slots[i].sock);
    IndexOfMeaning(LoggedOff(t, t.slots[i].name).slots, t.slots[i].sock);
  }

  // ---------- The thread ----------

  class Hub {
    const table: Server
    const clients: seq<C.Socket>

    ghost predicate Valid()
      reads table, table.list
    {
      table.Valid() && Distinct()
    }

    ghost predicate Distinct() {
      |clients| == MAX_THREADS && forall i, j | 0 <= i < j < MAX_THREADS :: clients[i] != clients[j]
    }

    constructor (clients: seq<C.Socket>)
      requires |clients| == MAX_THREADS && forall i, j | 0 <= i < j < MAX_THREADS :: clients[i] != clients[j]
      ensures Valid() && table.Model() == Init() && this.clients == clients
    {
      table := new Server();
      this.clients := clients;
    }

    method SlotOf(sock: int) returns (index: nat)
      requires Valid()
      ensures index == IndexOf(table.list[..], sock) < MAX_THREADS
    {
      index := 0;
      ghost var slots := table.list[..];
      for i := 0 to MAX_THREADS
        invariant index == IndexOf(slots[..i], sock) < MAX_THREADS
      {
        assert slots[..i + 1][..i] == slots[..i];
        if sock == table.list[i].sock {
          index := i;
        }
      }
      assert slots[..MAX_THREADS] == slots;
    }

    /** One turn of the loop. `listed` says that win_cl_index is positive; `beyond` and `notes` are as in GetDest and
        UpdateStatus. The source reads the frame into tempx without asking whether it fits. */
    method ListenOnce(sock: int, listed: bool, beyond: int, notes: seq<string>) returns (ended: bool)
      requires Valid() && |notes| == MAX_THREADS
      requires match Incoming(table.Model(), IndexOf(table.list[..], sock), clients[IndexOf(table.list[..], sock)].input)
               case Got(p, _) => |p.body| + 2 <= TEMPX
               case _ => true
      modifies table, table.list, clients
      ensures Valid()
      ensures var from := IndexOf(old(table.list[..]), sock);
              && (forall b | 0 <= b < MAX_THREADS && b != from :: clients[b].input == old(clients[b].input))
              && match Incoming(old(table.Model()), from, old(clients[from].input))
                 case Starved => table.Model() == old(table.Model()) && !ended && clients[from].input == old(clients[from].input)
                                 && forall b | 0 <= b < MAX_THREADS :: clients[b].output == old(clients[b].output)
                 case BadPreamble(rest) => table.Model() == old(table.Model()) && !ended && clients[from].input == rest
                                           && forall b | 0 <= b < MAX_THREADS :: clients[b].output == old(clients[b].output)
                 case Got(p, rest) =>
                   var m := Message(p.head[0], p.head[1], p.body);
                   && clients[from].input == rest && (ended <==> m.cmd == DISCONNECT_ALL)
                   && table.Model() == TableAfter(old(table.Model()), from, m, notes)
                   && forall b | 0 <= b < MAX_THREADS ::
                        clients[b].output == old(clients[b].output) + Wire(SentTo(old(table.Model()), listed, from, m, b))
    {
      ended := false;
      var index := SlotOf(sock);
      if table.list[index].sock < 0 {
        return;
      }
      var r := clients[index].GetFrame(2);
      match r
      case Starved =>
      case BadPreamble(_) =>
      case Got(p, _) =>
        ended := Dispatch(index, Message(p.head[0], p.head[1], p.body), listed, beyond, notes);
    }

    /** One turn of the loop of timer_thread, at slot i; `text` is what its buffer holds. The Windows client is asked by
        send_msgb. */
    method AskOnce(i: nat, text: seq<byte>)
      requires Valid() && i < table.noThreads
      modifies table, table.list, clients
      ensures Valid() && table.Model() == Visited(old(table.Model()), i)
      ensures forall b | 0 <= b < MAX_THREADS :: clients[b].input == old(clients[b].input)
      ensures forall b | 0 <= b < MAX_THREADS ::
                clients[b].output == old(clients[b].output) + Wire(AskedBy(old(table.Model()), i, text, b))
    {
      var asks := table.list[i].sock > 0 && table.list[i].dirty < 1;
      var windows := table.list[i].windows;
      table.Visit(i);
      if asks && !windows {
        clients[i].SendMsg([SEND_STATUS], text);
      }
    }

    /** The branches over the command. */
    method Dispatch(index: nat, m: Message, listed: bool, beyond: int, notes: seq<string>) returns (ended: bool)
      requires Valid() && |notes| == MAX_THREADS && index < MAX_THREADS
      modifies table, table.list, clients
      ensures Valid() && table.Model() == TableAfter(old(table.Model()), index, m, notes)
      ensures ended <==> m.cmd == DISCONNECT_ALL
      ensures forall b | 0 <= b < MAX_THREADS :: clients[b].input == old(clients[b].input)
      ensures forall b | 0 <= b < MAX_THREADS ::
                clients[b].output == old(clients[b].output) + Wire(SentTo(old(table.Model()), listed, index, m, b))
    {
      ended := false;
      if 0 < m.cmd <= NO_CMDS {
        if m.cmd == SET_CLIENT_NAME {
          table.SetName(index, NameIn(m.body));
        } else if m.cmd == SEND_CLIENT_LIST && listed {
          // the list goes to the Windows client
        } else if m.cmd == UPDATE_STATUS {
          table.UpdateStatus(NameIn(m.body), notes);
        } else if m.cmd == SEND_IOT_VALUES {
        } else if m.cmd == DISCONNECT_ALL {
          DisconnectAll(m.body);
          ended := true;
        } else if m.cmd == DISCONNECT {
          Disconnect(index, m, listed, beyond);
        } else if m.cmd == SEND_IOT_CMD {
        } else {
          PassOn(index, m, listed, beyond);
        }
      }
    }

    method Disconnect(index: nat, m: Message, ghost listed: bool, beyond: int)
      requires Valid() && index < MAX_THREADS && m.cmd == DISCONNECT
      modifies table, table.list, clients
      ensures Valid() && table.Model() == Disconnected(old(table.Model()), index, m.dest)
      ensures forall b | 0 <= b < MAX_THREADS :: clients[b].input == old(clients[b].input)
      ensures forall b | 0 <= b < MAX_THREADS ::
                clients[b].output == old(clients[b].output) + Wire(SentTo(old(table.Model()), listed, index, m, b))
    {
      var i := table.GetDest(m.dest, beyond);
      if i < table.noThreads && index > 0 && table.list[i].sock > 0 {
        clients[i].SendMsg([m.cmd], m.body);
        table.Close(i);
      }
    }

    method PassOn(index: nat, m: Message, ghost listed: bool, beyond: int)
      requires Valid() && index < MAX_THREADS && Relayable(m.cmd, listed)
      modifies clients
      ensures Valid()
      ensures forall b | 0 <= b < MAX_THREADS :: clients[b].input == old(clients[b].input)
      ensures forall b | 0 <= b < MAX_THREADS ::
                clients[b].output == old(clients[b].output) + Wire(SentTo(table.Model(), listed, index, m, b))
    {
      var i := table.GetDest(m.dest, beyond);
      if i < table.noThreads && table.list[index].sock > 0 && index > 0 {
        clients[i].SendMsg([m.cmd], m.body);
      }
    }

    /** One client is told to disconnect, and its slot cleared. */
    method TellOff(i: nat, body: seq<byte>)
      requires Distinct() && i < MAX_THREADS == table.list.Length
      modifies table.list, clients
      ensures table.list[..] == old(table.list[..])[i := Closed(old(table.list[i])).(name := "")]
      ensures forall b | 0 <= b < MAX_THREADS :: clients[b].input == old(clients[b].input)
      ensures forall b | 0 <= b < MAX_THREADS ::
                clients[b].output == if b == i then old(clients[b].output) + Framing.Frame(Framing.Payload([DISCONNECT], body))
                                     else old(clients[b].output)
    {
      clients[i].SendMsg([DISCONNECT], body);
      table.list[i] := table.list[i].(sock := -1, dest := -1, name := "");
    }

    method DisconnectAll(body: seq<byte>)
      requires Valid()
      modifies table.list, clients
      ensures Valid()
      ensures table.Model() == old(table.Model()).(slots := AllDisconnectedSlots(old(table.list[..]), table.noThreads))
      ensures forall b | 0 <= b < MAX_THREADS :: clients[b].input == old(clients[b].input)
      ensures forall b | 0 <= b < MAX_THREADS ::
                clients[b].output == old(clients[b].output) + Told(old(table.list[..]), table.noThreads, body, b)
    {
      DisconnectAllKeepsSound(table.Model());
      ghost var slots := table.list[..];
      var i := 0;
      while i < table.noThreads
        invariant 0 <= i <= table.noThreads
        invariant table.list[..] == AllDisconnectedSlots(slots, i)
        invariant forall b | 0 <= b < MAX_THREADS :: clients[b].input == old(clients[b].input)
        invariant forall b | 0 <= b < MAX_THREADS ::
                    clients[b].output == old(clients[b].output) + Told(slots, i, body, b)
      {
        assert table.list[..][i] == slots[i];
        ToldStep(slots, i, body);
        if table.list[i].sock > 0 {
          TellOff(i, body);
        }
        assert table.list[..] == AllDisconnectedSlots(slots, i + 1);
        i := i + 1;
      }
    }
  }
}
