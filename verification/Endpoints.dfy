/** The two ends of a link as the source codes them: send_msg and get_msg byte by byte, the client's listen loop over its
    buffer, and its answer to a status request. */
module Endpoints {
  import opened Bytes
  import opened Wrappers
  import opened Relay
  import Framing

  /** A connected socket: bytes that have arrived, and bytes sent. */
  class Socket {
    var input: seq<byte>
    var output: seq<byte>

    constructor ()
      ensures input == [] && output == []
    {
      input, output := [], [];
    }

    /** send_msg of both sides: `head` is command and destination on the way to the server, the command alone on the way
        back. */
    method SendMsg(head: seq<byte>, msg: seq<byte>)
      modifies this`output
      ensures output == old(output) + Framing.Frame(Framing.Payload(head, msg))
    {
      ghost var before := output;
      output := output + Framing.PREAMBLE;
      output := output + [|msg| % 16];
      output := output + [|msg| / 16 % 16];
      output := output + head;
      ghost var start := output;
      for i := 0 to |msg|
        invariant output == start + msg[..i]
      {
        output := output + [msg[i]];
        assert msg[..i + 1] == msg[..i] + [msg[i]];
      }
      assert msg[..|msg|] == msg;
      assert start == before + (Framing.PREAMBLE + [|msg| % 16, |msg| / 16 % 16] + head);
    }

    /** get_msg and the read of head and body. A thread that would block has taken nothing yet. */
    method GetFrame(head: nat) returns (r: Framing.Read)
      modifies this`input
      ensures r == Framing.ReadFrame(old(input), head)
      ensures input == match r case Got(_, rest) => rest case BadPreamble(rest) => rest case Starved => old(input)
    {
      if |input| < 10 {
        return Framing.Starved;
      }
      var preamble := input[..8];
      if preamble != Framing.PREAMBLE {
        input := input[8..];
        return Framing.BadPreamble(input);
      }
      var n := Framing.Length(input[8], input[9]);
      if |input| < 10 + head + n {
        return Framing.Starved;
      }
      var p := Framing.Payload(input[10..10 + head], input[10 + head..10 + head + n]);
      input := input[10 + head + n..];
      r := Framing.Got(p, input);
    }
  }

  // ---------- C strings ----------

  function StrLen(buffer: seq<byte>): (n: nat)
    ensures n <= |buffer| && (n < |buffer| ==> buffer[n] == 0)
    ensures forall i | 0 <= i < n :: buffer[i] != 0
  {
    if buffer == [] || buffer[0] == 0 then 0 else StrLen(buffer[1..]) + 1
  }

  function CString(buffer: seq<byte>): seq<byte> {
    buffer[..StrLen(buffer)]
  }

  predicate NoZero(s: seq<byte>) {
    forall i | 0 <= i < |s| :: s[i] != 0
  }

  function Padded(s: seq<byte>, n: nat): seq<byte>
    requires |s| <= n
  {
    s + Zeros(n - |s|)
  }

  // ---------- The client's listen thread ----------

  /** What the buffer holds after a frame was read into it; the rest of it is as old as it was. */
  function Received(buffer: seq<byte>, p: Framing.Payload): seq<byte>
    requires |p.head| + |p.body| <= |buffer|
  {
    p.head + p.body + buffer[|p.head| + |p.body|..]
  }

  /** The answer of the Linux client to a status request: as many bytes of its name, zero padded, as the string in the
      buffer it received the request in is long. */
  function LinuxReply(name: seq<byte>, buffer: seq<byte>): seq<byte>
    requires |name| <= TEMPX && |buffer| == TEMPX
  {
    Padded(name, TEMPX)[..StrLen(buffer)]
  }

  /** Frames that fit the buffer of the client's thread. */
  ghost predicate Digestible(ps: seq<Framing.Payload>) {
    forall k | 0 <= k < |ps| :: |ps[k].head| == 1 && |ps[k].body| < TEMPX
  }

  /** What one frame adds to the queue. */
  function RecordsOf(p: Framing.Payload): seq<seq<byte>>
    requires |p.head| == 1 && |p.body| < TEMPX
  {
    if p.head[0] == DISCONNECT || p.head[0] == SEND_STATUS then [] else [Record(Command(p.head[0], p.body))]
  }

  lemma QueuedStep(p: Framing.Payload, later: seq<Framing.Payload>)
    requires Digestible([p] + later)
    ensures |p.head| == 1 && |p.body| < TEMPX && Digestible(later)
    ensures Queued([p] + later) == RecordsOf(p) + if p.head[0] == DISCONNECT then [] else Queued(later)
  {
    var ps := [p] + later;
    assert ps[0] == p && ps[1..] == later;
    assert forall k | 0 <= k < |later| :: later[k] == ps[k + 1];
  }

  lemma Regroup<T>(a: seq<T>, b: seq<T>, c: seq<T>)
    ensures a + (b + c) == (a + b) + c
  {
  }

  /** The frames that are there, taken one off. */
  lemma ReadAllStep(input: seq<byte>)
    ensures match Framing.ReadFrame(input, 1)
            case Got(p, rest) => Framing.ReadAll(input, 1).0 == [p] + Framing.ReadAll(rest, 1).0 && |rest| < |input|
            case _ => Framing.ReadAll(input, 1).0 == []
  {
  }

  function Frames(input: seq<byte>): seq<Framing.Payload> {
    Framing.ReadAll(input, 1).0
  }

  class Client {
    const socket: Socket
    const tempx: array<byte>
    const name: seq<byte>
    var queue: seq<seq<byte>>
    var closed: bool

    predicate Valid() {
      tempx.Length == TEMPX && |name| <= TEMPX
    }

    constructor (name: seq<byte>)
      requires |name| <= TEMPX
      ensures Valid() && this.name == name && queue == [] && !closed && fresh(socket) && fresh(tempx) && tempx.Length == 50
    {
      this.name := name;
      socket := new Socket();
      tempx := new byte[TEMPX];
      queue, closed := [], false;
    }

    /** One turn of listen_thread. The source reads the frame into tempx without asking whether it fits. */
    method ListenOnce() returns (blocked: bool)
      requires Valid() && !closed
      requires match Framing.ReadFrame(socket.input, 1) case Got(p, _) => |p.body| < TEMPX case _ => true
      modifies this, socket, tempx
      ensures blocked <==> Framing.ReadFrame(old(socket.input), 1).Starved?
      ensures blocked ==> !closed
      ensures match Framing.ReadFrame(old(socket.input), 1)
              case Starved => socket.input == old(socket.input) && queue == old(queue) && socket.output == old(socket.output)
              case BadPreamble(rest) => closed && socket.input == rest && queue == old(queue) && socket.output == old(socket.output)
              case Got(p, rest) =>
                && socket.input == rest
                && (closed <==> p.head[0] == 54)
                && queue == old(queue) + (if p.head[0] in {54, 58} then [] else [Record(Command(p.head[0], p.body))])
                && socket.output == old(socket.output) +
                     (if p.head[0] == 58 then
                        Framing.Frame(Framing.Payload([62, 5], LinuxReply(name, Received(old(tempx[..]), p))))
                      else [])
    {
      blocked := false;
      var r := socket.GetFrame(1);
      match r
      case Starved =>
        blocked := true;
      case BadPreamble(_) =>
        closed := true;  // exit(1)
      case Got(p, _) =>
        Receive(p);
        var cmd := tempx[0];
        if cmd == DISCONNECT {
          closed := true;
        } else if cmd == SEND_STATUS {
          var tempx2 := Padded(name, TEMPX);
          var length := StrLen(tempx[..]);
          socket.SendMsg([UPDATE_STATUS, 5], tempx2[..length]);
        } else {
          Enqueue(cmd, |p.body|, p.body);
        }
    }

    /** The loop of listen_thread, until it would block or ends: what it has put into the queue is what Relay says of the frames
        that were there. */
    method Listen()
      requires Valid() && !closed && Digestible(Frames(socket.input))
      modifies this, socket, tempx
      ensures queue == old(queue) + Queued(Frames(old(socket.input)))
    {
      var blocked := false;
      ghost var before, all := queue, Queued(Frames(socket.input));
      while !closed && !blocked
        invariant Valid() && (!closed ==> Digestible(Frames(socket.input)))
        invariant blocked ==> !closed && Frames(socket.input) == []
        invariant before + all == queue + if closed then [] else Queued(Frames(socket.input))
        decreases !closed, |socket.input|, !blocked
      {
        ghost var start, r := queue, Framing.ReadFrame(socket.input, 1);
        ReadAllStep(socket.input);
        if r.Got? {
          QueuedStep(r.p, Frames(r.rest));
          Regroup(start, RecordsOf(r.p), if r.p.head[0] == DISCONNECT then [] else Queued(Frames(r.rest)));
        }
        blocked := ListenOnce();
      }
      assert queue + [] == queue;
    }

    /** recv into tempx. */
    method Receive(p: Framing.Payload)
      requires Valid() && |p.head| == 1 && |p.body| < TEMPX
      modifies tempx
      ensures tempx[..] == Received(old(tempx[..]), p)
    {
      tempx[0] := p.head[0];
      forall i | 0 <= i < |p.body| {
        tempx[i + 1] := p.body[i];
      }
    }

    /** memmove of the body to the front of tempx. */
    method MoveDown(n: nat)
      requires Valid() && n < TEMPX
      modifies tempx
      ensures tempx[..n] == old(tempx[1..n + 1])
    {
      forall i | 0 <= i < n {
        tempx[i] := tempx[i + 1];
      }
    }

    /** The record made from it. */
    method Enqueue(cmd: byte, n: nat, ghost body: seq<byte>)
      requires Valid() && n == |body| < TEMPX && tempx[1..n + 1] == body
      modifies this`queue, tempx
      ensures queue == old(queue) + [Record(Command(cmd, body))]
    {
      MoveDown(n);
      assert tempx[..n] == body;
      queue := queue + [Packed(cmd, Framing.RecordLength(n), tempx[..n])];
    }
  }

  // ---------- The task that takes the records ----------

  const SERIAL_BUFF_SIZE := 255

  /** A record whose length field stays inside the task's buffer, with the zero that is put behind it. */
  predicate Takeable(record: seq<byte>) {
    |record| == MTEXT && Framing.Length(record[1], record[2]) + 2 <= SERIAL_BUFF_SIZE
  }

  /** get_host_cmd_task, as far as the switch over the command. */
  class HostTask {
    const tempx: array<byte>
    var dispatched: seq<Command>
    var ended: bool

    predicate Valid() {
      tempx.Length == SERIAL_BUFF_SIZE
    }

    constructor ()
      ensures Valid() && dispatched == [] && !ended && fresh(tempx) && tempx.Length == 255
    {
      tempx := new byte[SERIAL_BUFF_SIZE];
      dispatched, ended := [], false;
    }

    /** One turn of its loop. */
    method TakeOne(record: seq<byte>)
      requires Valid() && Takeable(record)
      modifies this, tempx
      ensures dispatched == old(dispatched) + FromRecord(record)
      ensures ended <==> old(ended) || record[0] in {50, 51, 60, 61}
      ensures var n := Framing.Length(record[1], record[2]);
              dispatched == old(dispatched) + if record[0] == 0 then [] else [Command(record[0], record[3..3 + n])]
    {
      var cmd := record[0];
      var n := Framing.Length(record[1], record[2]);
      forall i | 0 <= i < SERIAL_BUFF_SIZE {
        tempx[i] := if i < n then record[3 + i] else 0;
      }
      assert tempx[..n] == record[3..3 + n];
      if cmd > 0 {
        dispatched := dispatched + [Command(cmd, tempx[..n])];
      }
      ended := ended || EndsTask(cmd);
    }

    /** Its loop over the records that are there, until it returns. */
    method TakeAll(queue: seq<seq<byte>>)
      requires Valid() && AllTakeable(queue) && !ended
      modifies this, tempx
      ensures dispatched == old(dispatched) + Dispatched(queue)
      ensures ended <==> HoldsEnd(queue)
    {
      var i := 0;
      while i < |queue| && !ended
        invariant i <= |queue|
        invariant ended || HoldsEnd(queue[i..]) <==> HoldsEnd(queue)
        invariant dispatched + (if ended then [] else Dispatched(queue[i..])) == old(dispatched) + Dispatched(queue)
      {
        QueueStep(queue, i);
        Regroup(dispatched, FromRecord(queue[i]), if EndsTask(queue[i][0]) then [] else Dispatched(queue[i + 1..]));
        TakeOne(queue[i]);
        i := i + 1;
      }
      assert dispatched + [] == dispatched;
    }
  }

  /** Some record holds a command that ends the task. */
  predicate HoldsEnd(queue: seq<seq<byte>>)
    requires AllTakeable(queue)
  {
    queue != [] && (queue[0][0] in {50, 51, 60, 61} || HoldsEnd(queue[1..]))
  }

  lemma QueueStep(queue: seq<seq<byte>>, i: nat)
    requires AllTakeable(queue) && i < |queue|
    ensures Takeable(queue[i]) && AllTakeable(queue[i..]) && AllTakeable(queue[i + 1..])
    ensures HoldsEnd(queue[i..]) <==> EndsTask(queue[i][0]) || HoldsEnd(queue[i + 1..])
    ensures Dispatched(queue[i..]) == FromRecord(queue[i]) + if EndsTask(queue[i][0]) then [] else Dispatched(queue[i + 1..])
  {
    assert queue[i..][1..] == queue[i + 1..];
  }

  predicate AllTakeable(queue: seq<seq<byte>>) {
    forall k | 0 <= k < |queue| :: |queue[k]| == MTEXT && Takeable(queue[k])
  }

  // ---------- Does the answer identify the client? ----------

  /** The server compares the name it has with the C string it received, into a buffer it had cleared. */
  function ServerSees(body: seq<byte>): seq<byte> {
    CString(body + [0])
  }

  lemma StrLenIs(buffer: seq<byte>, n: nat)
    requires n <= |buffer| && (n < |buffer| ==> buffer[n] == 0)
    requires forall i | 0 <= i < n :: buffer[i] != 0
    ensures StrLen(buffer) == n
  {
  }

  /** The Linux client takes the length of its answer from the buffer of the request, not from its name. The answer
      identifies it exactly when the name is no longer than the string that happens to be in that buffer. */
  lemma LinuxReplyIdentifiesIff(name: seq<byte>, buffer: seq<byte>)
    requires NoZero(name) && |name| < TEMPX && |buffer| == TEMPX
    ensures ServerSees(LinuxReply(name, buffer)) == name <==> |name| <= StrLen(buffer)
  {
    var length := StrLen(buffer);
    var body := LinuxReply(name, buffer);
    if |name| <= length {
      StrLenIs(body + [0], |name|);
      assert (body + [0])[..|name|] == name;
    } else {
      StrLenIs(body + [0], length);
      assert |ServerSees(body)| == length;
    }
  }

  /** So a name is safe if it fits in the command byte and the text of the request, whatever the buffer held before. */
  lemma ShortNamesAreSafe(name: seq<byte>, buffer: seq<byte>, p: Framing.Payload)
    requires NoZero(name) && |buffer| == TEMPX
    requires p.head == [58] && NoZero(p.body) && |p.body| + 1 < TEMPX && |name| <= |p.body| + 1
    ensures ServerSees(LinuxReply(name, Received(buffer, p))) == name
  {
    var b := Received(buffer, p);
    assert b[0] == 58;
    assert forall i | 0 <= i < |p.body| :: b[i + 1] == p.body[i];
    assert NoZero(b[..|p.body| + 1]) by {
      forall i | 0 <= i < |p.body| + 1
        ensures b[i] != 0
      {
        assert i > 0 ==> b[i] == p.body[i - 1];
      }
    }
    LinuxReplyIdentifiesIff(name, b);
  }

  const ESP_TEMPX := 100

  /** The frame with which the ESP client answers a status request. */
  function EspReply(name: seq<byte>): Framing.Payload {
    Framing.Payload([UPDATE_STATUS, 5], name)
  }

  /** The other client, esp-idf/tcp_client.c. */
  class EspClient {
    const socket: Socket
    const tempx: array<byte>
    const name: seq<byte>
    var closed: bool

    predicate Valid() {
      tempx.Length == ESP_TEMPX && NoZero(name) && |name| < ESP_TEMPX
    }

    constructor (name: seq<byte>)
      requires NoZero(name) && |name| < ESP_TEMPX
      ensures Valid() && this.name == name && !closed && fresh(socket) && fresh(tempx) && tempx.Length == 100
    {
      this.name := name;
      socket := new Socket();
      tempx := new byte[ESP_TEMPX];
      closed := false;
    }

    /** One turn of read_sock_task. It takes the length of its answer from the buffer into which it has copied its name. */
    method ReadOnce()
      requires Valid() && !closed
      requires match Framing.ReadFrame(socket.input, 1) case Got(p, _) => |p.body| < ESP_TEMPX case _ => true
      modifies this, socket, tempx
      ensures match Framing.ReadFrame(old(socket.input), 1)
              case Starved => !closed && socket.input == old(socket.input) && socket.output == old(socket.output)
              case BadPreamble(rest) => closed && socket.input == rest && socket.output == old(socket.output)
              case Got(p, rest) =>
                && !closed && socket.input == rest
                && socket.output == old(socket.output) + if p.head[0] == 58 then Framing.Frame(EspReply(name)) else []
    {
      var r := socket.GetFrame(1);
      match r
      case Starved =>
      case BadPreamble(_) =>
        closed := true;  // vTaskDelete
      case Got(p, _) =>
        forall i | 0 <= i < |p.body| {
          tempx[i] := p.body[i];
        }
        tempx[|p.body|] := 0;
        if p.head[0] == SEND_STATUS {
          forall i | 0 <= i <= |name| {
            tempx[i] := if i < |name| then name[i] else 0;
          }
          assert forall i | 0 <= i < |name| :: tempx[..][i] == name[i];
          StrLenIs(tempx[..], |name|);
          var length := StrLen(tempx[..]);
          assert tempx[..length] == name;
          socket.SendMsg([UPDATE_STATUS, 5], tempx[..length]);
        }
    }
  }

  /** So its answer, read back by the server, always bears its name. */
  lemma EspReplyIdentifies(name: seq<byte>, rest: seq<byte>)
    requires NoZero(name) && |name| < ESP_TEMPX
    ensures var r := Framing.ReadFrame(Framing.Frame(EspReply(name)) + rest, 2);
            r == Framing.Got(Framing.Payload([62, 5], name), rest) && ServerSees(r.p.body) == name
  {
    Framing.FrameRoundTrip(EspReply(name), rest);
    StrLenIs(name + [0], |name|);
  }
}
