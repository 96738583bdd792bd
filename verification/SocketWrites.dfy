/** Threads writing frames to shared sockets, as send_msg of server/thread_server.c does it: the preamble in one send, then one
    byte a send, with no lock around them (the one in send_tcp is commented out). */
module SocketWrites {
  import opened Bytes
  import opened Wrappers
  import Framing

  /** What a thread is doing: nothing, or writing a frame of which it has sent this many bytes. */
  datatype Writer = Quiet | Sending(to: nat, p: Framing.Payload, done: nat)

  /** The bytes on each socket, the threads, and as history the payloads whose frames were begun on each socket. */
  datatype Wires = Wires(outs: seq<seq<byte>>, writers: seq<Writer>, logs: seq<seq<Framing.Payload>>)

  function Length(p: Framing.Payload): nat {
    10 + |p.head| + |p.body|
  }

  predicate Fit(x: Wires) {
    && |x.outs| == |x.logs|
    && forall w | 0 <= w < |x.writers| && x.writers[w].Sending? ::
         x.writers[w].to < |x.outs| && x.writers[w].done < Length(x.writers[w].p)
  }

  predicate PartWay(w: Writer, b: nat) {
    w.Sending? && w.done > 0 && w.to == b
  }

  /** Nobody is in the middle of a frame on this socket. */
  ghost predicate Still(x: Wires, b: nat) {
    forall w | 0 <= w < |x.writers| :: !PartWay(x.writers[w], b)
  }

  function Begin(x: Wires, w: nat, to: nat, p: Framing.Payload): Wires
    requires w < |x.writers|
  {
    x.(writers := x.writers[w := Sending(to, p, 0)])
  }

  /** One send of send_msg. */
  function Push(x: Wires, w: nat): Wires
    requires Fit(x) && w < |x.writers| && x.writers[w].Sending?
  {
    var Sending(to, p, done) := x.writers[w];
    var next := if done == 0 then 8 else done + 1;
    Wires(x.outs[to := x.outs[to] + Framing.Frame(p)[done..next]],
          x.writers[w := if next == Length(p) then Quiet else Sending(to, p, next)],
          if done == 0 then x.logs[to := x.logs[to] + [p]] else x.logs)
  }

  /** No other thread is in the middle of a frame on the socket this one writes to. */
  ghost predicate Clear(x: Wires, w: nat)
    requires w < |x.writers| && x.writers[w].Sending?
  {
    forall v | 0 <= v < |x.writers| && v != w :: !PartWay(x.writers[v], x.writers[w].to)
  }

  // ---------- When a socket carries whole frames ----------

  /** What is on the socket, and what the thread in the middle of a frame will still add, are the frames begun. */
  ghost predicate WholeAt(x: Wires, b: nat)
    requires Fit(x) && b < |x.outs|
  {
    && (Still(x, b) ==> x.outs[b] == Framing.Stream(x.logs[b]))
    && forall w | 0 <= w < |x.writers| && PartWay(x.writers[w], b) ::
         && x.outs[b] + Framing.Frame(x.writers[w].p)[x.writers[w].done..] == Framing.Stream(x.logs[b])
         && forall v | 0 <= v < |x.writers| && v != w :: !PartWay(x.writers[v], b)
  }

  ghost predicate Whole(x: Wires) {
    Fit(x) && forall b | 0 <= b < |x.outs| :: WholeAt(x, b)
  }

  lemma BeginKeepsWhole(x: Wires, w: nat, to: nat, p: Framing.Payload)
    requires Whole(x) && w < |x.writers| && x.writers[w].Quiet? && to < |x.outs|
    ensures Whole(Begin(x, w, to, p))
  {
    var x' := Begin(x, w, to, p);
    forall b | 0 <= b < |x'.outs|
      ensures WholeAt(x', b)
    {
      assert WholeAt(x, b);
      assert Still(x', b) ==> Still(x, b) by {
        assert !PartWay(x.writers[w], b);
        assert forall v | 0 <= v < |x.writers| && v != w :: x'.writers[v] == x.writers[v];
      }
    }
  }

  lemma PushKeepsOthers(x: Wires, w: nat, b: nat)
    requires Whole(x) && w < |x.writers| && x.writers[w].Sending? && b < |x.outs| && b != x.writers[w].to
    ensures WholeAt(Push(x, w), b)
  {
    var x' := Push(x, w);
    assert WholeAt(x, b);
    assert !PartWay(x.writers[w], b) && !PartWay(x'.writers[w], b);
    assert forall v | 0 <= v < |x.writers| && v != w :: x'.writers[v] == x.writers[v];
    assert Still(x', b) ==> Still(x, b);
  }

  /** What the socket carries after one send, with what this thread will still add. */
  lemma PushAdds(x: Wires, w: nat)
    requires Whole(x) && w < |x.writers| && x.writers[w].Sending? && Clear(x, w)
    ensures var Sending(to, p, done) := x.writers[w];
            var next := if done == 0 then 8 else done + 1;
            && |Framing.Frame(p)| == Length(p) && next <= Length(p)
            && Push(x, w).outs[to] + Framing.Frame(p)[next..] == Framing.Stream(Push(x, w).logs[to])
  {
    var Sending(to, p, done) := x.writers[w];
    var next := if done == 0 then 8 else done + 1;
    var frame := Framing.Frame(p);
    assert WholeAt(x, to);
    assert frame[done..next] + frame[next..] == frame[done..];
    Regroup(x.outs[to], frame[done..next], frame[next..]);
    if done == 0 {
      assert Still(x, to);
      Framing.StreamAppend(x.logs[to], p);
      assert frame[0..] == frame;
    } else {
      assert PartWay(x.writers[w], to);
    }
  }

  lemma Regroup(a: seq<byte>, b: seq<byte>, c: seq<byte>)
    ensures (a + b) + c == a + (b + c)
  {
  }

  /** A send on a socket where no other thread is in the middle of a frame keeps every socket whole. */
  lemma PushKeepsWhole(x: Wires, w: nat)
    requires Whole(x) && w < |x.writers| && x.writers[w].Sending? && Clear(x, w)
    ensures Whole(Push(x, w))
  {
    var x' := Push(x, w);
    var Sending(to, p, done) := x.writers[w];
    PushAdds(x, w);
    assert forall v | 0 <= v < |x.writers| && v != w :: x'.writers[v] == x.writers[v];
    assert WholeAt(x', to) by {
      if x'.writers[w].Quiet? {
        assert Framing.Frame(p)[Length(p)..] == [];
        assert x'.outs[to] + [] == x'.outs[to];
      } else {
        assert PartWay(x'.writers[w], to);
      }
    }
    forall b | 0 <= b < |x'.outs|
      ensures WholeAt(x', b)
    {
      if b != to {
        PushKeepsOthers(x, w, b);
      }
    }
  }

  // ---------- Runs of threads with given sockets ----------

  datatype Action = Start(w: nat, to: nat, p: Framing.Payload) | Send(w: nat)

  /** may[w] are the sockets that thread w ever writes to. */
  predicate Enabled(may: seq<set<nat>>, x: Wires, a: Action) {
    && Fit(x) && a.w < |may| == |x.writers|
    && match a
       case Start(w, to, _) => x.writers[w].Quiet? && to in may[w] && to < |x.outs|
       case Send(w) => x.writers[w].Sending?
  }

  function Apply(may: seq<set<nat>>, x: Wires, a: Action): Wires
    requires Enabled(may, x, a)
  {
    match a
    case Start(w, to, p) => Begin(x, w, to, p)
    case Send(w) => Push(x, w)
  }

  /** The state after a run, if every action was possible when its turn came. */
  function After(may: seq<set<nat>>, x: Wires, run: seq<Action>): Option<Wires> {
    if run == [] then Some(x)
    else
      var a := run[|run| - 1];
      match After(may, x, run[..|run| - 1])
      case Some(y) => if Enabled(may, y, a) then Some(Apply(may, y, a)) else None
      case None => None
  }

  function Init(threads: nat, sockets: nat): Wires {
    Wires(seq(sockets, _ => []), seq(threads, _ => Quiet), seq(sockets, _ => []))
  }

  ghost predicate Reaches(may: seq<set<nat>>, sockets: nat, run: seq<Action>, x: Wires) {
    After(may, Init(|may|, sockets), run) == Some(x)
  }

  ghost predicate OneWriterEach(may: seq<set<nat>>, sockets: nat) {
    forall v, w, b | 0 <= v < w < |may| && b in may[v] && b in may[w] :: b >= sockets
  }

  /** Each thread is at one of its own sockets. */
  ghost predicate AtOwn(may: seq<set<nat>>, x: Wires) {
    |may| == |x.writers| && forall w | 0 <= w < |may| && x.writers[w].Sending? :: x.writers[w].to in may[w]
  }

  lemma {:induction false} RunKeepsWhole(may: seq<set<nat>>, x: Wires, run: seq<Action>, x': Wires)
    requires OneWriterEach(may, |x.outs|) && Whole(x) && AtOwn(may, x) && After(may, x, run) == Some(x')
    ensures Whole(x') && AtOwn(may, x') && |x'.outs| == |x.outs|
  {
    if run != [] {
      var n := |run| - 1;
      var y := After(may, x, run[..n]).value;
      RunKeepsWhole(may, x, run[..n], y);
      match run[n]
      case Start(w, to, p) => BeginKeepsWhole(y, w, to, p);
      case Send(w) =>
        assert Clear(y, w);
        PushKeepsWhole(y, w);
    }
  }

  // ---------- A torn frame ----------

  ghost predicate Leads(may: seq<set<nat>>, x: Wires, x': Wires) {
    exists run :: After(may, x, run) == Some(x')
  }

  lemma LeadsOn(may: seq<set<nat>>, x: Wires, x': Wires, a: Action) returns (x'': Wires)
    requires Leads(may, x, x') && Enabled(may, x', a)
    ensures x'' == Apply(may, x', a) && Leads(may, x, x'')
  {
    var run :| After(may, x, run) == Some(x');
    assert (run + [a])[..|run|] == run;
    x'' := Apply(may, x', a);
    assert After(may, x, run + [a]) == Some(x'');
  }

  /** The frame of a bare command. */
  function Bare(cmd: byte): Framing.Payload {
    Framing.Payload([cmd], [])
  }

  lemma BareFrame(cmd: byte)
    ensures Framing.Frame(Bare(cmd)) == Framing.PREAMBLE + [0, 0, cmd]
    ensures Framing.Frame(Bare(cmd))[0..8] == Framing.PREAMBLE
    ensures var f := Framing.Frame(Bare(cmd)); f[8..9] == [0] && f[9..10] == [0] && f[10..11] == [cmd]
  {
    assert Framing.Frame(Bare(cmd)) == Framing.PREAMBLE + [0, 0, cmd];
  }

  /** Sending the rest of a bare command behind its preamble. */
  lemma Finish(may: seq<set<nat>>, x0: Wires, x: Wires, w: nat, b: nat, cmd: byte) returns (x': Wires)
    requires Leads(may, x0, x) && Fit(x) && w < |may| == |x.writers| && x.writers[w] == Sending(b, Bare(cmd), 8)
    ensures Leads(may, x0, x') && x' == Wires(x.outs[b := x.outs[b] + [0, 0, cmd]], x.writers[w := Quiet], x.logs)
  {
    BareFrame(cmd);
    x' := LeadsOn(may, x0, x, Send(w));
    x' := LeadsOn(may, x0, x', Send(w));
    x' := LeadsOn(may, x0, x', Send(w));
    assert x.outs[b] + [0] + [0] + [cmd] == x.outs[b] + [0, 0, cmd];
    assert x'.writers == x.writers[w := Quiet];
  }

  function TornBytes(c: byte, d: byte): seq<byte> {
    Framing.PREAMBLE + Framing.PREAMBLE + [0, 0, c] + [0, 0, d]
  }

  /** A thread begins: its preamble is out. */
  lemma Preamble(may: seq<set<nat>>, x0: Wires, x: Wires, w: nat, b: nat, cmd: byte) returns (x': Wires)
    requires Leads(may, x0, x) && Fit(x) && w < |may| == |x.writers| && x.writers[w].Quiet? && b in may[w] && b < |x.outs|
    ensures Leads(may, x0, x') && Fit(x')
    ensures x' == Wires(x.outs[b := x.outs[b] + Framing.PREAMBLE], x.writers[w := Sending(b, Bare(cmd), 8)],
                        x.logs[b := x.logs[b] + [Bare(cmd)]])
  {
    BareFrame(cmd);
    x' := LeadsOn(may, x0, x, Start(w, b, Bare(cmd)));
    x' := LeadsOn(may, x0, x', Send(w));
    assert x'.writers == x.writers[w := Sending(b, Bare(cmd), 8)];
  }

  /** So their frames are mixed. */
  lemma FrameTorn(may: seq<set<nat>>, sockets: nat, v: nat, w: nat, b: nat, c: byte, d: byte) returns (x: Wires)
    requires v < |may| && w < |may| && v != w && b in may[v] && b in may[w] && b < sockets
    ensures Leads(may, Init(|may|, sockets), x)
    ensures |x.outs| == |x.logs| == sockets && Still(x, b)
    ensures x.outs[b] == TornBytes(c, d) && x.logs[b] == [Bare(c), Bare(d)]
  {
    var x0 := Init(|may|, sockets);
    assert After(may, x0, []) == Some(x0);
    x := Preamble(may, x0, x0, v, b, c);
    x := Preamble(may, x0, x, w, b, d);
    assert x.logs[b] == [] + [Bare(c)] + [Bare(d)] == [Bare(c), Bare(d)];
    assert x.outs[b] == [] + Framing.PREAMBLE + Framing.PREAMBLE == Framing.PREAMBLE + Framing.PREAMBLE;
    x := Finish(may, x0, x, v, b, c);
    x := Finish(may, x0, x, w, b, d);
    assert forall u | 0 <= u < |may| :: x.writers[u] == Quiet;
  }

  /** Its reader finds a preamble and takes the next two bytes for a length of 4088: it waits for ever, and neither command
      arrives. */
  lemma TornIsLost(c: byte, d: byte)
    ensures TornBytes(c, d) != Framing.Stream([Bare(c), Bare(d)])
    ensures Framing.ReadAll(TornBytes(c, d), 1).0 == []
  {
    var torn, stream := TornBytes(c, d), Framing.Stream([Bare(c), Bare(d)]);
    BareFrame(c);
    assert stream == Framing.Frame(Bare(c)) + Framing.Stream([Bare(c), Bare(d)][1..]);
    assert |torn| == 22 && torn[..8] == Framing.PREAMBLE;
    assert torn[8] == Framing.PREAMBLE[0] && torn[9] == Framing.PREAMBLE[1] && stream[8] == 0;
    TornLength(torn[8], torn[9]);
    assert Framing.ReadFrame(torn, 1).Starved?;
  }

  lemma TornLength(low: byte, high: byte)
    requires low == 0xF8 && high == 0xF0
    ensures Framing.Length(low, high) == 4088
  {
    var h, l, nibble := high as int, low as int, low as int / 16;
    Framing.OrNibble(h, l);
    Framing.OrNibble(nibble, nibble);
    assert nibble == 15 && h == 16 * nibble && Framing.BitOr(nibble, 0) == nibble;
  }

  /** Sockets carry whole frames under every schedule, at every moment when nobody is in the middle of one, if and only if no two
      threads ever write to the same socket. */
  lemma StreamsWholeIff(may: seq<set<nat>>, sockets: nat)
    ensures (forall run, x, b: nat | Reaches(may, sockets, run, x) && b < |x.outs| && b < |x.logs| && Still(x, b) ::
               x.outs[b] == Framing.Stream(x.logs[b]))
            <==> OneWriterEach(may, sockets)
  {
    if OneWriterEach(may, sockets) {
      forall run, x, b: nat | Reaches(may, sockets, run, x) && b < |x.outs| && b < |x.logs| && Still(x, b)
        ensures x.outs[b] == Framing.Stream(x.logs[b])
      {
        RunKeepsWhole(may, Init(|may|, sockets), run, x);
        assert WholeAt(x, b);
      }
    } else {
      var v, w, b :| 0 <= v < w < |may| && b in may[v] && b in may[w] && b < sockets;
      var x := FrameTorn(may, sockets, v, w, b, 1, 2);
      TornIsLost(1, 2);
      var run :| After(may, Init(|may|, sockets), run) == Some(x);
      assert Reaches(may, sockets, run, x);
    }
  }
}
