/** The relayed message, from the frame a client sends to the command another client dispatches.

    A message crosses four representations: the frame to the server (with a destination), the frame to the client
    (without one), the record in the queue between two threads of the client, and the dispatched command. The
    client table is fixed here; what changes it is TableRuns' subject. */
module Relay {
  import opened Bytes
  import opened Wrappers
  import opened ClientTable
  import Framing

  const NO_CMDS: byte := 75

  const SHUTDOWN_IOBOX: byte := 50
  const REBOOT_IOBOX: byte := 51
  const DISCONNECT: byte := 54
  const DISCONNECT_ALL: byte := 55
  const SEND_STATUS: byte := 58
  const SEND_CLIENT_LIST: byte := 59
  const SHELL_AND_RENAME: byte := 60
  const EXIT_TO_SHELL: byte := 61
  const UPDATE_STATUS: byte := 62
  const SET_CLIENT_NAME: byte := 72
  const SEND_IOT_VALUES: byte := 73
  const SEND_IOT_CMD: byte := 74

  /** Buffer sizes of the source: tempx of both listen threads, and mtext of a queue record. */
  const TEMPX := 50
  const MTEXT := 300

  datatype Message = Message(cmd: byte, dest: byte, body: seq<byte>)

  datatype Command = Command(cmd: byte, body: seq<byte>)

  function ToServer(m: Message): Framing.Payload {
    Framing.Payload([m.cmd, m.dest], m.body)
  }

  function ToClient(m: Message): Framing.Payload {
    Framing.Payload([m.cmd], m.body)
  }

  function AllToServer(ms: seq<Message>): seq<Framing.Payload> {
    if ms == [] then [] else [ToServer(ms[0])] + AllToServer(ms[1..])
  }

  /** What timer_thread asks a client. */
  function StatusRequest(text: seq<byte>): Framing.Payload {
    Framing.Payload([SEND_STATUS], text)
  }

  // ---------- The server ----------

  /** listen_thread passes these on; the rest it handles itself. `listed` says that win_cl_index is positive. */
  predicate Relayable(cmd: byte, listed: bool) {
    && 0 < cmd <= NO_CMDS
    && cmd !in {SET_CLIENT_NAME, UPDATE_STATUS, SEND_IOT_VALUES, DISCONNECT_ALL, DISCONNECT, SEND_IOT_CMD}
    && !(cmd == SEND_CLIENT_LIST && listed)
  }

  /** The slot a message from slot `from` goes to. */
  function Route(t: Table, listed: bool, from: nat, m: Message): Option<nat>
    requires from < |t.slots|
  {
    var i := FirstWith(t.slots, m.dest, 0);
    if Relayable(m.cmd, listed) && i < t.noThreads && Live(t.slots[from]) && from > 0 then Some(i) else None
  }

  /** The bytes waiting on each client's socket, and those sent to each client. */
  datatype Sockets = Sockets(ins: seq<seq<byte>>, outs: seq<seq<byte>>)

  predicate Fits(t: Table, s: Sockets) {
    |t.slots| == |s.ins| == |s.outs| && t.noThreads <= |t.slots|
  }

  /** get_msg reads nothing from a slot whose connection is gone. */
  predicate Readable(t: Table, from: nat)
    requires from < |t.slots|
  {
    t.slots[from].sock >= 0
  }

  /** What a turn of listen_thread for this slot gets to read. */
  function Incoming(t: Table, from: nat, input: seq<byte>): Framing.Read
    requires from < |t.slots|
  {
    if Readable(t, from) then Framing.ReadFrame(input, 2) else Framing.Starved
  }

  /** One turn of the loop of listen_thread for the client in slot `from`. It blocks until a whole frame has come. A wrong
      preamble makes it drop eight bytes and try again. */
  function Listen(t: Table, listed: bool, s: Sockets, from: nat): (s': Sockets)
    requires Fits(t, s) && from < |t.slots|
    ensures Fits(t, s')
  {
    match Incoming(t, from, s.ins[from])
    case Starved => s
    case BadPreamble(rest) => s.(ins := s.ins[from := rest])
    case Got(p, rest) =>
      var m := Message(p.head[0], p.head[1], p.body);
      var s' := s.(ins := s.ins[from := rest]);
      match Route(t, listed, from, m)
      case None => s'
      case Some(i) => s'.(outs := s.outs[i := s.outs[i] + Framing.Frame(ToClient(m))])
  }

  /** A turn of one of the server's threads: a client's listen thread, or the timer asking a client for its status. */
  datatype Turn = Thread(from: nat) | Timer(to: nat, text: seq<byte>)

  predicate IsTurn(t: Table, turn: Turn) {
    match turn
    case Thread(from) => from < |t.slots|
    case Timer(to, text) => to < t.noThreads && to < |t.slots| && Live(t.slots[to]) && |text| + 2 <= TEMPX
  }

  predicate AreTurns(t: Table, schedule: seq<Turn>) {
    forall k | 0 <= k < |schedule| :: IsTurn(t, schedule[k])
  }

  function TakeTurn(t: Table, listed: bool, s: Sockets, turn: Turn): (s': Sockets)
    requires Fits(t, s) && IsTurn(t, turn)
    ensures Fits(t, s')
  {
    match turn
    case Thread(from) => Listen(t, listed, s, from)
    case Timer(to, text) => s.(outs := s.outs[to := s.outs[to] + Framing.Frame(StatusRequest(text))])
  }

  function Serve(t: Table, listed: bool, s: Sockets, schedule: seq<Turn>): (s': Sockets)
    requires Fits(t, s) && AreTurns(t, schedule)
    ensures Fits(t, s')
    decreases |schedule|
  {
    if schedule == [] then s else Serve(t, listed, TakeTurn(t, listed, s, schedule[0]), schedule[1..])
  }

  // ---------- The receiving client ----------

  function Zeros(n: nat): seq<byte> {
    seq(n, _ => 0)
  }

  /** mtext with command, length and text filled in. */
  function Packed(cmd: byte, length: (byte, byte), text: seq<byte>): seq<byte>
    requires |text| + 3 <= MTEXT
  {
    [cmd, length.0, length.1] + text + Zeros(MTEXT - 3 - |text|)
  }

  /** listen_thread of the client: the record it puts into the queue, with the rest of mtext zero. */
  function Record(c: Command): seq<byte>
    requires |c.body| + 3 <= MTEXT
  {
    Packed(c.cmd, Framing.RecordLength(|c.body|), c.body)
  }

  /** get_host_cmd_task: what it takes out of a record. */
  function Unpack(record: seq<byte>): Option<Command>
    requires |record| == MTEXT
  {
    var n := Framing.Length(record[1], record[2]);
    if 3 + n <= MTEXT then Some(Command(record[0], record[3..3 + n])) else None
  }

  lemma RecordRoundTrip(c: Command)
    requires |c.body| + 3 <= MTEXT
    ensures |Record(c)| == MTEXT && Unpack(Record(c)) == Some(c)
    ensures var n := |c.body|;
            Record(c)[..3 + n] == [c.cmd, n % 256, n / 16 % 256] + c.body && forall i | 3 + n <= i < 300 :: Record(c)[i] == 0
  {
    var (low, high) := Framing.RecordLength(|c.body|);
    assert Framing.Length(low, high) == |c.body| by {
      Framing.RecordLengthExact(|c.body|);
    }
    assert Record(c)[3..3 + |c.body|] == c.body;
  }

  /** The records a client puts into its queue for the frames it reads: a status request is answered at once, and a
      disconnect ends the thread. */
  function Queued(ps: seq<Framing.Payload>): (records: seq<seq<byte>>)
    requires forall k | 0 <= k < |ps| :: |ps[k].head| == 1 && |ps[k].body| + 3 <= MTEXT
    ensures forall k | 0 <= k < |records| :: |records[k]| == MTEXT
  {
    if ps == [] || ps[0].head[0] == DISCONNECT then []
    else if ps[0].head[0] == SEND_STATUS then Queued(ps[1..])
    else [Record(Command(ps[0].head[0], ps[0].body))] + Queued(ps[1..])
  }

  /** After these commands get_host_cmd_task returns. */
  predicate EndsTask(cmd: byte) {
    cmd in {SHUTDOWN_IOBOX, REBOOT_IOBOX, SHELL_AND_RENAME, EXIT_TO_SHELL}
  }

  /** What one record is dispatched as: command 0 is ignored. */
  function FromRecord(record: seq<byte>): seq<Command>
    requires |record| == MTEXT
  {
    match Unpack(record)
    case None => []
    case Some(c) => if c.cmd > 0 then [c] else []
  }

  /** The commands dispatched from a queue: nothing behind a command that ends the task is taken. */
  function Dispatched(records: seq<seq<byte>>): seq<Command>
    requires forall k | 0 <= k < |records| :: |records[k]| == MTEXT
  {
    if records == [] then []
    else FromRecord(records[0]) + if EndsTask(records[0][0]) then [] else Dispatched(records[1..])
  }

  // ---------- What should arrive ----------

  datatype Event = Sent(from: nat, m: Message) | Asked(to: nat, text: seq<byte>)

  predicate IsEvent(t: Table, e: Event) {
    match e
    case Sent(from, m) => from < |t.slots| && |m.body| + 2 <= TEMPX
    case Asked(to, text) => |text| + 2 <= TEMPX
  }

  predicate AreEvents(t: Table, events: seq<Event>) {
    forall k | 0 <= k < |events| :: IsEvent(t, events[k])
  }

  /** The messages in the order the server takes them, at each turn the next one of the client whose turn it is, and the
      timer's questions. */
  function Taken(t: Table, sent: seq<seq<Message>>, schedule: seq<Turn>): seq<Event>
    requires |sent| == |t.slots| && AreTurns(t, schedule)
    decreases |schedule|
  {
    if schedule == [] then []
    else
      match schedule[0]
      case Timer(to, text) => [Asked(to, text)] + Taken(t, sent, schedule[1..])
      case Thread(k) =>
        if sent[k] == [] || !Readable(t, k) then Taken(t, sent, schedule[1..])
        else [Sent(k, sent[k][0])] + Taken(t, sent[k := sent[k][1..]], schedule[1..])
  }

  /** The payload an event puts on the wire to slot b, if any. */
  function Delivered(t: Table, listed: bool, b: nat, e: Event): seq<Framing.Payload>
    requires IsEvent(t, e)
  {
    match e
    case Sent(from, m) => if Route(t, listed, from, m) == Some(b) then [ToClient(m)] else []
    case Asked(to, text) => if to == b then [StatusRequest(text)] else []
  }

  function Deliveries(t: Table, listed: bool, b: nat, events: seq<Event>): seq<Framing.Payload>
    requires AreEvents(t, events)
  {
    if events == [] then [] else Delivered(t, listed, b, events[0]) + Deliveries(t, listed, b, events[1..])
  }

  /** The commands that payloads stand for: all but status requests. */
  function Commands(ps: seq<Framing.Payload>): seq<Command>
    requires forall k | 0 <= k < |ps| :: |ps[k].head| == 1
  {
    if ps == [] then []
    else (if ps[0].head[0] == SEND_STATUS then [] else [Command(ps[0].head[0], ps[0].body)]) + Commands(ps[1..])
  }

  /** Up to and including the first command that ends the task. */
  function UpToEnd(cs: seq<Command>): seq<Command> {
    if cs == [] then []
    else if EndsTask(cs[0].cmd) then [cs[0]]
    else [cs[0]] + UpToEnd(cs[1..])
  }
}
