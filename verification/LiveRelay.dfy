/** The server's threads as they really run: the listen threads and the timer write to the clients' sockets byte by byte, and the
    table changes under them. As long as no two of them write to one client at the same time, and nobody is logged off,
    this comes to what EndToEnd says of whole turns. */
module LiveRelay {
  import opened Bytes
  import opened Wrappers
  import opened ClientTable
  import opened Relay
  import opened ListenThread
  import E = EndToEnd
  import R = TableRuns
  import W = SocketWrites
  import Framing

  /** The writers are the listen threads of the slots and, last, the timer. `held` are the bytes of the frame that a thread has
      taken from its socket and not begun to pass on; `order` is history: the turns, each at the moment it takes effect,
      which for a turn that passes something on is its first send. */
  datatype World = World(t: Table, listed: bool, ins: seq<seq<byte>>, wires: W.Wires, held: seq<seq<byte>>, order: seq<Turn>)

  datatype Step =
    | Take(from: nat, notes: seq<string>) // a listen thread reads, and begins to pass on
    | Visit(i: nat, text: seq<byte>)      // the timer visits a slot
    | Send(w: nat)                        // one send of send_msg

  predicate Shaped(x: World) {
    && |x.ins| == |x.held| == |x.wires.outs| == |x.t.slots| && |x.wires.writers| == |x.t.slots| + 1
    && x.t.noThreads <= |x.t.slots| && W.Fit(x.wires)
  }

  function TimerOf(x: World): nat {
    |x.t.slots|
  }

  /** Disconnects, which change where messages go, are not part of these runs. */
  predicate NoDisconnect(r: Framing.Read)
    requires r.Got? ==> |r.p.head| == 2
  {
    r.Got? ==> r.p.head[0] != DISCONNECT && r.p.head[0] != DISCONNECT_ALL
  }

  predicate Enabled(x: World, step: Step) {
    && Shaped(x)
    && match step
       case Take(from, notes) =>
         from < |x.ins| && x.wires.writers[from].Quiet? && |notes| == |x.t.slots|
         && NoDisconnect(Incoming(x.t, from, x.ins[from]))
       case Visit(i, text) =>
         i < x.t.noThreads && i < |x.ins| && x.wires.writers[TimerOf(x)].Quiet? && |text| + 2 <= TEMPX
       case Send(w) => w < |x.wires.writers| && x.wires.writers[w].Sending?
  }

  function AfterTake(x: World, from: nat, notes: seq<string>): World
    requires Enabled(x, Take(from, notes))
  {
    match Incoming(x.t, from, x.ins[from])
    case Starved => x.(order := x.order + [Thread(from)])
    case BadPreamble(rest) => x.(ins := x.ins[from := rest], order := x.order + [Thread(from)])
    case Got(p, rest) =>
      var m := Message(p.head[0], p.head[1], p.body);
      var x' := x.(t := TableAfter(x.t, from, m, notes), ins := x.ins[from := rest]);
      match Route(x.t, x.listed, from, m)
      case None => x'.(order := x.order + [Thread(from)])
      case Some(to) =>
        x'.(wires := W.Begin(x.wires, from, to, ToClient(m)),
            held := x.held[from := x.ins[from][..|x.ins[from]| - |rest|]])
  }

  function Apply(x: World, step: Step): World
    requires Enabled(x, step)
  {
    match step
    case Take(from, notes) => AfterTake(x, from, notes)
    case Visit(i, text) =>
      var x' := x.(t := Visited(x.t, i));
      if AskedBy(x.t, i, text, i).Some? then x'.(wires := W.Begin(x.wires, TimerOf(x), i, StatusRequest(text))) else x'
    case Send(w) =>
      var x' := x.(wires := W.Push(x.wires, w));
      if x.wires.writers[w].done > 0 then x'
      else if w < |x.held| then x'.(held := x.held[w := []], order := x.order + [Thread(w)])
      else x'.(order := x.order + [Timer(x.wires.writers[w].to, x.wires.writers[w].p.body)])
  }

  /** The step tears no frame and logs nobody off. */
  ghost predicate Orderly(x: World, step: Step)
    requires Enabled(x, step)
  {
    match step
    case Take(_, _) => true
    case Visit(i, _) => !Live(x.t.slots[i]) || x.t.slots[i].dirty < 1
    case Send(w) => W.Clear(x.wires, w)
  }

  ghost predicate OrderlyRun(x: World, run: seq<Step>)
    decreases |run|
  {
    run == [] || (Enabled(x, run[0]) && Orderly(x, run[0]) && OrderlyRun(Apply(x, run[0]), run[1..]))
  }

  ghost function After(x: World, run: seq<Step>): World
    requires OrderlyRun(x, run)
    decreases |run|
  {
    if run == [] then x else After(Apply(x, run[0]), run[1..])
  }

  function Start(t: Table, listed: bool, s: Sockets): World {
    var n := |t.slots|;
    World(t, listed, s.ins, W.Init(n + 1, n), seq(n, _ => []), [])
  }

  // ---------- The same routes ----------

  predicate SameRoutes(t: Table, u: Table) {
    && |t.slots| == |u.slots| && t.noThreads == u.noThreads
    && forall j | 0 <= j < |t.slots| :: t.slots[j].dest == u.slots[j].dest && t.slots[j].sock == u.slots[j].sock
  }

  lemma RouteSame(t: Table, u: Table, listed: bool, from: nat, m: Message)
    requires SameRoutes(t, u) && from < |t.slots|
    ensures Route(t, listed, from, m) == Route(u, listed, from, m)
    ensures Readable(t, from) == Readable(u, from)
  {
    SameDestinations(t.slots, u.slots, m.dest, 0);
  }

  // ---------- What the threads have done so far, as whole turns ----------

  ghost predicate Behaves(u: Table, s0: Sockets, x: World) {
    Shaped(x) && SameRoutes(x.t, u) && Fits(u, s0) && AreTurns(u, x.order) && W.Whole(x.wires)
  }

  /** The state EndToEnd would be in after the turns so far. */
  ghost function Atomic(u: Table, s0: Sockets, x: World): (s: Sockets)
    requires Behaves(u, s0, x)
    ensures Fits(u, s)
  {
    Serve(u, x.listed, s0, x.order)
  }

  /** It has sent the frames begun, and still has before it what was taken and not begun. */
  ghost predicate Simulates(s: Sockets, x: World)
    requires Shaped(x) && |s.ins| == |s.outs| == |x.t.slots|
  {
    && (forall b | 0 <= b < |s.outs| :: s.outs[b] == Framing.Stream(x.wires.logs[b]))
    && (forall a | 0 <= a < |s.ins| :: s.ins[a] == x.held[a] + x.ins[a])
  }

  predicate Unbegun(w: W.Writer) {
    w.Sending? && w.done == 0
  }

  /** The thread of slot a has taken a frame and is about to pass its message on; otherwise it holds nothing. */
  ghost predicate HeldOk(u: Table, x: World, a: nat)
    requires Shaped(x) && |u.slots| == |x.t.slots| && a < |x.ins|
  {
    var w := x.wires.writers[a];
    if Unbegun(w) then
      var r := Incoming(u, a, x.held[a] + x.ins[a]);
      && r.Got? && r.rest == x.ins[a]
      && var m := Message(r.p.head[0], r.p.head[1], r.p.body);
         Route(u, x.listed, a, m) == Some(w.to) && w.p == ToClient(m)
    else x.held[a] == []
  }

  ghost predicate TimerOk(u: Table, x: World)
    requires Shaped(x)
  {
    var w := x.wires.writers[TimerOf(x)];
    Unbegun(w) ==> w.p == StatusRequest(w.p.body) && IsTurn(u, Timer(w.to, w.p.body))
  }

  ghost predicate Inv(u: Table, s0: Sockets, x: World) {
    && Behaves(u, s0, x)
    && Simulates(Atomic(u, s0, x), x)
    && (forall a | 0 <= a < |x.ins| :: HeldOk(u, x, a))
    && TimerOk(u, x)
  }

  lemma {:induction false} ServeAppend(t: Table, listed: bool, s: Sockets, order: seq<Turn>, turn: Turn)
    requires Fits(t, s) && AreTurns(t, order) && IsTurn(t, turn)
    ensures AreTurns(t, order + [turn])
    ensures Serve(t, listed, s, order + [turn]) == TakeTurn(t, listed, Serve(t, listed, s, order), turn)
    decreases |order|
  {
    if order == [] {
      assert order + [turn] == [turn];
      assert Serve(t, listed, s, [turn]) == Serve(t, listed, TakeTurn(t, listed, s, turn), [turn][1..]);
    } else {
      assert (order + [turn])[1..] == order[1..] + [turn];
      ServeAppend(t, listed, TakeTurn(t, listed, s, order[0]), order[1..], turn);
    }
  }

  lemma StartInv(t: Table, listed: bool, s: Sockets)
    requires Fits(t, s) && forall b | 0 <= b < |s.outs| :: s.outs[b] == []
    ensures Inv(t, s, Start(t, listed, s))
  {
    var x := Start(t, listed, s);
    assert forall b | 0 <= b < |x.wires.outs| :: W.WholeAt(x.wires, b);
    forall a | 0 <= a < |s.ins|
      ensures s.ins[a] == x.held[a] + x.ins[a]
    {
      assert [] + s.ins[a] == s.ins[a];
    }
  }

  // ---------- Every step keeps it so ----------

  lemma TakenFrame(t: Table, from: nat, input: seq<byte>)
    requires from < |t.slots|
    ensures match Incoming(t, from, input)
            case Got(_, rest) => |rest| <= |input| && input[..|input| - |rest|] + rest == input
            case _ => true
  {
  }

  /** The message of a frame that has come in. */
  function MessageOf(r: Framing.Read): Message
    requires r.Got? && |r.p.head| == 2
  {
    Message(r.p.head[0], r.p.head[1], r.p.body)
  }

  ghost predicate PassesOn(x: World, from: nat)
    requires Shaped(x) && from < |x.ins|
  {
    var r := Incoming(x.t, from, x.ins[from]);
    r.Got? && Route(x.t, x.listed, from, MessageOf(r)).Some?
  }

  lemma OthersHeld(u: Table, x: World, x': World, from: nat)
    requires Shaped(x) && Shaped(x') && |u.slots| == |x.t.slots| == |x'.t.slots| && x.listed == x'.listed
    requires forall a | 0 <= a < |x.ins| :: HeldOk(u, x, a)
    requires forall a | 0 <= a < |x.ins| && a != from ::
               x'.wires.writers[a] == x.wires.writers[a] && x'.held[a] == x.held[a] && x'.ins[a] == x.ins[a]
    requires from < |x.ins| ==> HeldOk(u, x', from)
    ensures forall a | 0 <= a < |x'.ins| :: HeldOk(u, x', a)
  {
    forall a | 0 <= a < |x'.ins| && a != from
      ensures HeldOk(u, x', a)
    {
      assert HeldOk(u, x, a);
    }
  }

  lemma TakeKeepsRoutes(x: World, u: Table, from: nat, notes: seq<string>)
    requires Enabled(x, Take(from, notes)) && SameRoutes(x.t, u)
    ensures SameRoutes(AfterTake(x, from, notes).t, u) && Shaped(AfterTake(x, from, notes))
  {
  }

  lemma PassingHolds(u: Table, x: World, from: nat, notes: seq<string>)
    requires Enabled(x, Take(from, notes)) && PassesOn(x, from) && SameRoutes(x.t, u) && x.held[from] == []
    ensures var x' := AfterTake(x, from, notes);
            && Shaped(x') && |x'.t.slots| == |x.t.slots| && HeldOk(u, x', from)
            && x'.held[from] + x'.ins[from] == x.held[from] + x.ins[from]
  {
    var r := Incoming(x.t, from, x.ins[from]);
    TakeKeepsRoutes(x, u, from, notes);
    TakenFrame(x.t, from, x.ins[from]);
    RouteSame(x.t, u, x.listed, from, MessageOf(r));
    assert x.held[from] + x.ins[from] == x.ins[from];
  }

  lemma PassingKeepsInv(u: Table, s0: Sockets, x: World, from: nat, notes: seq<string>)
    requires Inv(u, s0, x) && Enabled(x, Take(from, notes)) && PassesOn(x, from)
    ensures Inv(u, s0, AfterTake(x, from, notes))
  {
    var x' := AfterTake(x, from, notes);
    var r := Incoming(x.t, from, x.ins[from]);
    assert HeldOk(u, x, from);
    TakeKeepsRoutes(x, u, from, notes);
    PassingHolds(u, x, from, notes);
    W.BeginKeepsWhole(x.wires, from, Route(x.t, x.listed, from, MessageOf(r)).value, ToClient(MessageOf(r)));
    assert Simulates(Atomic(u, s0, x), x');
    OthersHeld(u, x, x', from);
  }

  lemma SilentKeepsInv(u: Table, s0: Sockets, x: World, from: nat, notes: seq<string>)
    requires Inv(u, s0, x) && Enabled(x, Take(from, notes)) && !PassesOn(x, from)
    ensures Inv(u, s0, AfterTake(x, from, notes))
  {
    var x' := AfterTake(x, from, notes);
    var r := Incoming(x.t, from, x.ins[from]);
    TakeKeepsRoutes(x, u, from, notes);
    RouteSame(x.t, u, x.listed, from, if r.Got? then MessageOf(r) else Message(0, 0, []));
    assert HeldOk(u, x, from);
    ServeAppend(u, x.listed, s0, x.order, Thread(from));
    SilentTurn(u, Atomic(u, s0, x), x, x', from);
    OthersHeld(u, x, x', from);
  }

  lemma SilentTurn(u: Table, s: Sockets, x: World, x': World, from: nat)
    requires Shaped(x) && Shaped(x') && Fits(u, s) && |u.slots| == |x.t.slots| == |x'.t.slots| && from < |x.ins|
    requires Simulates(s, x) && x.held[from] == [] && x'.held == x.held && x'.wires == x.wires
    requires var r := Incoming(u, from, x.ins[from]);
             && (r.Got? ==> Route(u, x.listed, from, Message(r.p.head[0], r.p.head[1], r.p.body)).None?)
             && x'.ins == if r.Starved? then x.ins else x.ins[from := r.rest]
    ensures Simulates(Listen(u, x.listed, s, from), x')
  {
    assert x.held[from] + x.ins[from] == x.ins[from];
    var s' := Listen(u, x.listed, s, from);
    forall a | 0 <= a < |s'.ins|
      ensures s'.ins[a] == x'.held[a] + x'.ins[a]
    {
      assert s.ins[a] == x.held[a] + x.ins[a];
    }
  }

  lemma VisitKeepsInv(u: Table, s0: Sockets, x: World, i: nat, text: seq<byte>)
    requires Inv(u, s0, x) && Enabled(x, Visit(i, text)) && Orderly(x, Visit(i, text))
    ensures Inv(u, s0, Apply(x, Visit(i, text)))
  {
    var x' := Apply(x, Visit(i, text));
    if AskedBy(x.t, i, text, i).Some? {
      W.BeginKeepsWhole(x.wires, TimerOf(x), i, StatusRequest(text));
    }
    assert Simulates(Atomic(u, s0, x), x');
    OthersHeld(u, x, x', TimerOf(x));
  }

  /** The turn that takes effect with the first send of a frame. */
  function TurnOf(x: World, w: nat): Turn
    requires Shaped(x) && w < |x.wires.writers| && x.wires.writers[w].Sending?
  {
    if w < |x.held| then Thread(w) else Timer(x.wires.writers[w].to, x.wires.writers[w].p.body)
  }

  lemma FirstSend(u: Table, s: Sockets, x: World, w: nat)
    requires Shaped(x) && Fits(u, s) && |u.slots| == |x.t.slots| && Simulates(s, x)
    requires w < |x.wires.writers| && Unbegun(x.wires.writers[w])
    requires if w < |x.ins| then HeldOk(u, x, w) else TimerOk(u, x)
    ensures IsTurn(u, TurnOf(x, w)) && Shaped(Apply(x, Send(w)))
    ensures Simulates(TakeTurn(u, x.listed, s, TurnOf(x, w)), Apply(x, Send(w)))
  {
    var x' := Apply(x, Send(w));
    var to, p := x.wires.writers[w].to, x.wires.writers[w].p;
    var s' := TakeTurn(u, x.listed, s, TurnOf(x, w));
    Framing.StreamAppend(x.wires.logs[to], p);
    assert s'.outs == s.outs[to := s.outs[to] + Framing.Frame(p)];
    forall a | 0 <= a < |s'.ins|
      ensures s'.ins[a] == x'.held[a] + x'.ins[a]
    {
      assert s.ins[a] == x.held[a] + x.ins[a];
      assert a == w ==> [] + x.ins[a] == x.ins[a];
    }
  }

  lemma SendKeepsInv(u: Table, s0: Sockets, x: World, w: nat)
    requires Inv(u, s0, x) && Enabled(x, Send(w)) && Orderly(x, Send(w))
    ensures Inv(u, s0, Apply(x, Send(w)))
  {
    var x' := Apply(x, Send(w));
    W.PushKeepsWhole(x.wires, w);
    if w < |x.ins| {
      assert HeldOk(u, x, w);
    }
    if x.wires.writers[w].done == 0 {
      FirstSend(u, Atomic(u, s0, x), x, w);
      ServeAppend(u, x.listed, s0, x.order, TurnOf(x, w));
    } else {
      assert Simulates(Atomic(u, s0, x), x');
    }
    OthersHeld(u, x, x', w);
  }

  lemma StepKeepsInv(u: Table, s0: Sockets, x: World, step: Step)
    requires Inv(u, s0, x) && Enabled(x, step) && Orderly(x, step)
    ensures Inv(u, s0, Apply(x, step)) && Apply(x, step).listed == x.listed
  {
    match step
    case Take(from, notes) =>
      if PassesOn(x, from) {
        PassingKeepsInv(u, s0, x, from, notes);
      } else {
        SilentKeepsInv(u, s0, x, from, notes);
      }
    case Visit(i, text) => VisitKeepsInv(u, s0, x, i, text);
    case Send(w) => SendKeepsInv(u, s0, x, w);
  }

  /** The threads relay as whole turns would with the table they started from: a step on either side of the first send of a frame
      changes nothing in what those turns have done. */
  lemma {:induction false} TurnsRelay(u: Table, s0: Sockets, x: World, run: seq<Step>)
    requires Inv(u, s0, x) && OrderlyRun(x, run)
    ensures Inv(u, s0, After(x, run)) && After(x, run).listed == x.listed
    decreases |run|
  {
    if run != [] {
      StepKeepsInv(u, s0, x, run[0]);
      TurnsRelay(u, s0, Apply(x, run[0]), run[1..]);
    }
  }

  /** End to end, byte by byte and with a changing table: at any moment of an orderly run when nobody is in the middle of a frame
      to client b, the bytes b was sent are right for b. */
  lemma EndToEndWhileChanging(t: Table, listed: bool, s: Sockets, sent: seq<seq<Message>>, run: seq<Step>, b: nat)
    requires Fits(t, s) && E.Waiting(s, sent) && E.Relayed(sent)
    requires forall k | 0 <= k < |s.outs| :: s.outs[k] == []
    requires OrderlyRun(Start(t, listed, s), run)
    requires b < |t.slots| && W.Still(After(Start(t, listed, s), run).wires, b)
    ensures var x := After(Start(t, listed, s), run);
            && AreTurns(t, x.order) && AreEvents(t, Taken(t, sent, x.order)) && b < |x.wires.outs|
            && E.RightAtClient(t, listed, x.wires.outs[b], sent, E.Left(t, sent, x.order), Taken(t, sent, x.order), b)
  {
    var x := After(Start(t, listed, s), run);
    StartInv(t, listed, s);
    TurnsRelay(t, s, Start(t, listed, s), run);
    assert W.WholeAt(x.wires, b);
    assert Atomic(t, s, x).outs[b] == Framing.Stream(x.wires.logs[b]);
    E.EndToEnd(t, listed, s, sent, x.order, b);
  }

  // ---------- What single steps come to ----------

  /** The timer's visit makes it start asking exactly a client that it does not log off, with command 58. */
  lemma VisitAsks(x: World, i: nat, text: seq<byte>)
    requires Enabled(x, Visit(i, text))
    ensures var x' := Apply(x, Visit(i, text));
            && x'.t == Visited(x.t, i) && x'.ins == x.ins && |x'.wires.writers| == |x.wires.writers|
            && x'.wires.writers[TimerOf(x)] ==
               if Live(Visited(x.t, i).slots[i]) && !x.t.slots[i].windows then W.Sending(i, Framing.Payload([58], text), 0)
               else W.Quiet
  {
    AskedIffKept(x.t, i, text, i);
  }

  /** A thread that reads an ordinary command of a sound table's live slot starts passing it on exactly if the first live slot of its
      destination lies below no_threads, and passes it on there. */
  lemma TakeStarts(x: World, from: nat, notes: seq<string>, m: Message, rest: seq<byte>)
    requires Enabled(x, Take(from, notes)) && Sound(x.t) && from > 0 && x.t.slots[from].sock > 0
    requires 1 <= m.cmd <= 75 && m.cmd !in {54, 55, 62, 72, 73, 74} && !(m.cmd == 59 && x.listed)
    requires |m.body| < 256 && x.ins[from] == Framing.Frame(Framing.Payload([m.cmd, m.dest], m.body)) + rest
    ensures var x' := AfterTake(x, from, notes);
            && x'.ins == x.ins[from := rest] && |x'.wires.writers| == |x.wires.writers|
            && (forall b: nat | R.FirstLive(x.t, m.dest, b) && b < x.t.noThreads ::
                  x'.wires.writers[from] == W.Sending(b, Framing.Payload([m.cmd], m.body), 0))
            && ((forall b: nat | b < x.t.noThreads :: !R.FirstLive(x.t, m.dest, b)) ==> x'.wires.writers[from] == W.Quiet)
  {
    Framing.FrameRoundTrip(ToServer(m), rest);
    R.FirstWithMeaning(x.t.slots, m.dest, 0);
    var i := FirstWith(x.t.slots, m.dest, 0);
    forall b: nat | R.FirstLive(x.t, m.dest, b)
      ensures b == i
    {
    }
    if i < x.t.noThreads {
      assert R.FirstLive(x.t, m.dest, i);
    }
  }

  // ---------- Such runs exist ----------

  /** Everything that can be read has been read, and every frame has been written to its end. */
  ghost predicate Done(x: World) {
    && Shaped(x)
    && (forall w | 0 <= w < |x.wires.writers| :: x.wires.writers[w].Quiet?)
    && forall a | 0 <= a < |x.ins| && Readable(x.t, a) :: x.ins[a] == []
  }

  ghost predicate CanBeDone(x: World) {
    exists run :: OrderlyRun(x, run) && Done(After(x, run))
  }

  lemma OneStepCloser(x: World, step: Step)
    requires Enabled(x, step) && Orderly(x, step) && CanBeDone(Apply(x, step))
    ensures CanBeDone(x)
  {
    var run :| OrderlyRun(Apply(x, step), run) && Done(After(Apply(x, step), run));
    var all := [step] + run;
    assert all[1..] == run;
    assert OrderlyRun(x, all) && After(x, all) == After(Apply(x, step), run);
  }

  ghost predicate StillToRead(x: World, sent: seq<seq<Message>>)
    requires Shaped(x)
  {
    |sent| == |x.ins| && forall a | 0 <= a < |sent| :: x.ins[a] == Framing.Stream(AllToServer(sent[a]))
  }

  /** Slots below k have nothing left to read, and only the thread of slot k may be writing. */
  ghost predicate UpTo(x: World, sent: seq<seq<Message>>, k: nat)
    requires Shaped(x) && |sent| == |x.ins|
  {
    && (forall a | 0 <= a < |sent| && a < k && Readable(x.t, a) :: sent[a] == [])
    && forall w | 0 <= w < |x.wires.writers| && (w != k || k == |sent|) :: x.wires.writers[w].Quiet?
  }

  lemma TakesNext(x: World, sent: seq<seq<Message>>, k: nat, notes: seq<string>)
    requires Shaped(x) && StillToRead(x, sent) && E.Relayed(sent) && UpTo(x, sent, k)
    requires k < |sent| && sent[k] != [] && Readable(x.t, k) && x.wires.writers[k].Quiet? && |notes| == |x.t.slots|
    ensures Enabled(x, Take(k, notes))
    ensures var x', sent' := AfterTake(x, k, notes), sent[k := sent[k][1..]];
            Shaped(x') && |x'.ins| == |x.ins| && StillToRead(x', sent') && E.Relayed(sent') && UpTo(x', sent', k)
  {
    var m, rest := sent[k][0], AllToServer(sent[k][1..]);
    assert AllToServer(sent[k]) == [ToServer(m)] + rest;
    assert x.ins[k] == Framing.Frame(ToServer(m)) + Framing.Stream(rest);
    Framing.FrameRoundTrip(ToServer(m), Framing.Stream(rest));
    TakeKeepsRoutes(x, x.t, k, notes);
    assert AllToServer(sent[k][1..]) == rest;
  }

  lemma SendsOn(x: World, sent: seq<seq<Message>>, k: nat)
    requires Shaped(x) && StillToRead(x, sent) && UpTo(x, sent, k) && k < |sent| && x.wires.writers[k].Sending?
    ensures Enabled(x, Send(k)) && Orderly(x, Send(k))
    ensures var x' := Apply(x, Send(k));
            && Shaped(x') && |x'.ins| == |x.ins| && StillToRead(x', sent) && UpTo(x', sent, k)
            && BytesLeft(x', k) < BytesLeft(x, k)
  {
  }

  /** How much of its frame the thread of slot k has still to write. */
  function BytesLeft(x: World, k: nat): nat
    requires Shaped(x)
  {
    if k < |x.ins| && x.wires.writers[k].Sending? then W.Length(x.wires.writers[k].p) - x.wires.writers[k].done else 0
  }

  lemma {:induction false} Drains(x: World, sent: seq<seq<Message>>, k: nat)
    requires Shaped(x) && StillToRead(x, sent) && E.Relayed(sent) && k <= |sent| && UpTo(x, sent, k)
    ensures CanBeDone(x)
    decreases |sent| - k, if k < |sent| then |sent[k]| else 0, BytesLeft(x, k)
  {
    if k == |sent| {
      assert OrderlyRun(x, []) && After(x, []) == x;
      assert Done(x);
    } else if x.wires.writers[k].Sending? {
      SendsOn(x, sent, k);
      Drains(Apply(x, Send(k)), sent, k);
      OneStepCloser(x, Send(k));
    } else if sent[k] == [] || !Readable(x.t, k) {
      Drains(x, sent, k + 1);
    } else {
      var notes := seq(|x.t.slots|, _ => "");
      TakesNext(x, sent, k, notes);
      Drains(Apply(x, Take(k, notes)), sent[k := sent[k][1..]], k);
      OneStepCloser(x, Take(k, notes));
    }
  }

  /** Whatever the clients have sent, some orderly run reads all of it from every connected slot and writes every frame to its
      end: the end-to-end theorem is about runs that exist. */
  lemma SomeRunDeliversAll(t: Table, listed: bool, s: Sockets, sent: seq<seq<Message>>)
    requires Fits(t, s) && E.Waiting(s, sent) && E.Relayed(sent)
    requires forall k | 0 <= k < |s.outs| :: s.outs[k] == []
    ensures CanBeDone(Start(t, listed, s))
  {
    Drains(Start(t, listed, s), sent, 0);
  }
}
