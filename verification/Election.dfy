/** What every run of the ESP-NOW pairing keeps, and what the election decides. */
module Election {
  import opened EspNow

  // ---------- The invariant ----------

  /** How many unicast frames the configured count stands for: the counter is decremented before it is tested. */
  function Planned(count: nat): nat {
    if count == 0 then 65536 else count
  }

  /** How many more callbacks until "Send done". */
  function Left(d: Device): nat {
    if d.count == 0 && !d.done then 65536 else d.count
  }

  /** Sends to an address whose callback is still to come or was lost. */
  function Outstanding(d: Device, m: Mac): nat {
    d.pending[m] + d.lost[m]
  }

  /** A frame in the air tells the truth about its sender d; e is the other device. */
  ghost predicate FrameOk(f: Frame, d: Device, e: Device) {
    && f.content.magic == d.magic
    && f.content.state <= 1
    && (f.content.state == 1 ==> d.state == 1)
    && (f.content.kind == Broadcast <==> f.dest == BROADCAST)
    && (f.content.kind == Unicast ==> d.unicast && f.dest == e.mac)
  }

  ghost predicate AirOk(src: nat, d: Device, e: Device, air: set<Frame>) {
    forall f | f in air && f.src == src :: FrameOk(f, d, e)
  }

  ghost predicate KnowledgeOk(src: nat, d: Device, e: Device, air: set<Frame>) {
    && d.state <= 1
    && (d.state == 1 <==> d.heard != {})
    && (forall f | f in d.heard :: f in air && f.src == Other(src) && f.content.kind == Broadcast)
    && (d.state == 1 ==> e.mac in d.peers)
  }

  ghost predicate BufferOk(d: Device, e: Device) {
    && d.mac != BROADCAST && e.mac != BROADCAST
    && (d.dest == BROADCAST || d.dest == e.mac)
    && d.buffer.magic == d.magic
    && d.buffer.state <= d.state
    && (d.buffer.kind == Broadcast <==> d.dest == BROADCAST)
  }

  ghost predicate RoleOk(d: Device, e: Device) {
    && (d.unicast ==> !d.broadcast && d.magic >= e.magic && d.state == 1 && e.state == 1)
    && (!d.started ==> d.broadcast && !d.unicast && d.dest == BROADCAST && d.pending == multiset{} && d.lost == multiset{})
  }

  /** Broadcasting is over exactly when the device has gone unicast itself or has received a unicast frame. */
  ghost predicate PhaseOk(src: nat, d: Device, air: set<Frame>) {
    && (d.broadcast <==> !d.unicast && d.told == {})
    && forall f | f in d.told :: f in air && f.src == Other(src) && f.content.kind == Unicast
  }

  ghost predicate SendsOk(d: Device, e: Device, count: nat) {
    && (forall m | m != BROADCAST && m != e.mac :: d.pending[m] == 0)
    && Outstanding(d, BROADCAST) <= 1
    && Outstanding(d, e.mac) <= 1
    && d.count < 65536
    && d.sentUnicast + Left(d) == Planned(count) + Outstanding(d, e.mac)
    && (!d.unicast ==> d.sentUnicast == 0 && Outstanding(d, e.mac) == 0 && !d.done)
    && (d.done ==> !d.running && d.count == 0 && Outstanding(d, e.mac) == 0)
  }

  ghost predicate DeviceOk(src: nat, d: Device, e: Device, air: set<Frame>, count: nat) {
    && AirOk(src, d, e, air)
    && KnowledgeOk(src, d, e, air)
    && BufferOk(d, e)
    && RoleOk(d, e)
    && PhaseOk(src, d, air)
    && SendsOk(d, e, count)
  }

  ghost predicate Inv(s: System, count: nat) {
    && |s.dev| == 2
    && DeviceOk(0, s.dev[0], s.dev[1], s.air, count)
    && DeviceOk(1, s.dev[1], s.dev[0], s.air, count)
  }

  lemma InitInv(macs: (Mac, Mac), magics: (nat, nat), count: nat)
    requires Addresses(macs) && count < 65536
    ensures Inv(Init(macs, magics, count), count)
  {
  }

  // ---------- One event at one device ----------

  lemma SendOk(src: nat, d: Device, e: Device, air: set<Frame>, ok: bool)
    requires src < 2 && AirOk(src, d, e, air) && KnowledgeOk(src, d, e, air) && BufferOk(d, e)
    requires d.dest == BROADCAST || d.unicast || !ok
    ensures var r := Send(src, d, air, ok);
            AirOk(src, r.d, e, r.air) && KnowledgeOk(src, r.d, e, r.air) && BufferOk(r.d, e)
            && (PhaseOk(src, d, air) ==> PhaseOk(src, r.d, r.air))
  {
  }

  lemma BroadcastCallbackOk(src: nat, d: Device, e: Device, air: set<Frame>, count: nat, ok: bool)
    requires src < 2 && DeviceOk(src, d, e, air, count) && d.running && d.started && BROADCAST in d.pending
    ensures var r := OnCallback(src, d, air, BROADCAST, ok); DeviceOk(src, r.d, e, r.air, count)
  {
    SendOk(src, Prepare(d.(pending := d.pending - multiset{BROADCAST}, dest := BROADCAST)), e, air, ok);
  }

  lemma UnicastCallbackOk(src: nat, d: Device, e: Device, air: set<Frame>, count: nat, ok: bool)
    requires src < 2 && DeviceOk(src, d, e, air, count) && d.running && d.started && e.mac in d.pending
    ensures var r := OnCallback(src, d, air, e.mac, ok); DeviceOk(src, r.d, e, r.air, count)
  {
    var d0 := d.(pending := d.pending - multiset{e.mac});
    assert d.unicast;
    SendOk(src, Prepare(d0.(count := Decrement(d.count), dest := e.mac)), e, air, ok);
    UnicastCallbackCounts(src, d, e, air, count, ok);
  }

  lemma CallbackOk(src: nat, d: Device, e: Device, air: set<Frame>, count: nat, mac: Mac, ok: bool)
    requires src < 2 && DeviceOk(src, d, e, air, count) && d.running && d.started && mac in d.pending
    ensures var r := OnCallback(src, d, air, mac, ok); DeviceOk(src, r.d, e, r.air, count)
  {
    if mac == BROADCAST {
      BroadcastCallbackOk(src, d, e, air, count, ok);
    } else {
      assert mac == e.mac;
      UnicastCallbackOk(src, d, e, air, count, ok);
    }
  }

  /** One unicast callback uses up one unit of the count, and the next send takes its place. */
  lemma UnicastCallbackCounts(src: nat, d: Device, e: Device, air: set<Frame>, count: nat, ok: bool)
    requires DeviceOk(src, d, e, air, count) && d.running && d.started && e.mac in d.pending
    ensures SendsOk(OnCallback(src, d, air, e.mac, ok).d, e, count)
  {
    var d' := OnCallback(src, d, air, e.mac, ok).d;
    assert Outstanding(d', BROADCAST) == Outstanding(d, BROADCAST);
    assert Outstanding(d, e.mac) == 1 && d.pending[e.mac] == 1;
  }

  lemma HeardOk(src: nat, d: Device, e: Device, air: set<Frame>, count: nat, f: Frame)
    requires src < 2 && DeviceOk(src, d, e, air, count) && d.started
    requires f in air && f.src == Other(src) && f.content.kind == Broadcast
    ensures DeviceOk(src, Heard(d, f, e.mac), e, air, count)
  {
    assert f in Heard(d, f, e.mac).heard;
  }

  lemma TakeOverOk(src: nat, d: Device, e: Device, air: set<Frame>, count: nat, ok: bool)
    requires src < 2 && DeviceOk(src, d, e, air, count) && d.started
    requires !d.unicast && d.state == 1 && e.state == 1 && d.magic >= e.magic
    ensures var r := TakeOver(src, d, air, e.mac, ok); DeviceOk(src, r.d, e, r.air, count)
  {
  }

  lemma ReceiveOk(src: nat, d: Device, e: Device, air: set<Frame>, count: nat, f: Frame, room: bool, ok: bool)
    requires src < 2 && DeviceOk(src, d, e, air, count) && d.running && d.started
    requires f in air && f.src == Other(src) && FrameOk(f, e, d)
    ensures var r := OnReceive(src, d, air, f, e.mac, room, ok); DeviceOk(src, r.d, e, r.air, count)
  {
    if f.content.kind == Broadcast {
      HeardOk(src, d, e, air, count, f);
      var d1 := Heard(d, f, e.mac);
      if f.content.state == 1 && !d1.unicast && d1.magic >= f.content.magic {
        TakeOverOk(src, d1, e, air, count, ok);
      }
    }
  }

  lemma StartOk(src: nat, d: Device, e: Device, air: set<Frame>, count: nat, ok: bool)
    requires src < 2 && DeviceOk(src, d, e, air, count) && d.running && !d.started && !d.unicast
    ensures var r := Send(src, d.(started := true), air, ok); DeviceOk(src, r.d, e, r.air, count)
  {
    SendOk(src, d.(started := true), e, air, ok);
  }

  lemma LoseOk(src: nat, d: Device, e: Device, air: set<Frame>, count: nat, mac: Mac)
    requires DeviceOk(src, d, e, air, count) && mac in d.pending
    ensures DeviceOk(src, d.(pending := d.pending - multiset{mac}, lost := d.lost + multiset{mac}), e, air, count)
  {
  }

  /** What a device may rely on about the other one's step: it keeps its identity, and state 1 and unicast are for good. */
  ghost predicate Forward(d: Device, d': Device) {
    && d'.mac == d.mac && d'.magic == d.magic
    && (d.state == 1 ==> d'.state == 1)
    && (d.unicast ==> d'.unicast)
    && (!d.broadcast ==> !d'.broadcast && d'.sentBroadcast == d.sentBroadcast)
    && (!d.running ==> !d'.running)
  }

  ghost predicate AirGrows(air: set<Frame>, air': set<Frame>, src: nat) {
    air <= air' && forall f | f in air' && f !in air :: f.src == src
  }

  lemma SendForward(src: nat, d: Device, air: set<Frame>, ok: bool)
    requires d.broadcast || d.dest != BROADCAST
    ensures var r := Send(src, d, air, ok); Forward(d, r.d) && AirGrows(air, r.air, src)
  {
  }

  lemma CallbackForward(src: nat, d: Device, air: set<Frame>, mac: Mac, ok: bool)
    ensures var r := OnCallback(src, d, air, mac, ok); Forward(d, r.d) && AirGrows(air, r.air, src)
  {
    var d0 := d.(pending := d.pending - multiset{mac});
    if !IsBroadcast(mac) {
      SendForward(src, Prepare(d0.(count := Decrement(d.count), dest := mac)), air, ok);
    } else if d.broadcast {
      SendForward(src, Prepare(d0.(dest := mac)), air, ok);
    }
  }

  lemma TakeOverForward(src: nat, d: Device, air: set<Frame>, to: Mac, ok: bool)
    requires to != BROADCAST
    ensures var r := TakeOver(src, d, air, to, ok); Forward(d, r.d) && AirGrows(air, r.air, src)
  {
    SendForward(src, Prepare(d.(dest := to)), air, ok);
  }

  lemma ReceiveForward(src: nat, d: Device, air: set<Frame>, f: Frame, from: Mac, room: bool, ok: bool)
    requires from != BROADCAST
    ensures var r := OnReceive(src, d, air, f, from, room, ok); Forward(d, r.d) && AirGrows(air, r.air, src)
  {
    if f.content.kind == Broadcast && (from in d.peers || room) {
      var d1 := Heard(d, f, from);
      if f.content.state == 1 && !d1.unicast && d1.magic >= f.content.magic {
        TakeOverForward(src, d1, air, from, ok);
        ForwardTrans(d, d1, TakeOver(src, d1, air, from, ok).d);
      }
    }
  }

  lemma ForwardTrans(a: Device, b: Device, c: Device)
    requires Forward(a, b) && Forward(b, c)
    ensures Forward(a, c)
  {
  }

  lemma ReactForward(s: System, a: Action, count: nat)
    requires Inv(s, count) && Enabled(s, a)
    ensures var r := React(s, a); Forward(s.dev[a.i], r.d) && AirGrows(s.air, r.air, a.i)
  {
    var d := s.dev[a.i];
    match a
    case Start(i, ok) => SendForward(i, d.(started := true), s.air, ok);
    case Callback(i, mac, ok) => CallbackForward(i, d, s.air, mac, ok);
    case LoseCallback(_, _) =>
    case Receive(i, f, room, ok) => ReceiveForward(i, d, s.air, f, s.dev[Other(i)].mac, room, ok);
  }

  lemma BystanderOk(src: nat, d: Device, e: Device, air: set<Frame>, e': Device, air': set<Frame>, count: nat)
    requires src < 2 && DeviceOk(src, d, e, air, count) && Forward(e, e')
    requires AirGrows(air, air', Other(src))
    ensures DeviceOk(src, d, e', air', count)
  {
  }

  lemma ReactOk(s: System, a: Action, count: nat)
    requires Inv(s, count) && Enabled(s, a)
    ensures var r := React(s, a); DeviceOk(a.i, r.d, s.dev[Other(a.i)], r.air, count)
  {
    var d, e := s.dev[a.i], s.dev[Other(a.i)];
    match a
    case Start(i, ok) => StartOk(i, d, e, s.air, count, ok);
    case Callback(i, mac, ok) => CallbackOk(i, d, e, s.air, count, mac, ok);
    case LoseCallback(i, mac) => LoseOk(i, d, e, s.air, count, mac);
    case Receive(i, f, room, ok) => ReceiveOk(i, d, e, s.air, count, f, room, ok);
  }

  lemma Assembled(s: System, i: nat, d: Device, air: set<Frame>, count: nat)
    requires Inv(s, count) && i < 2 && DeviceOk(i, d, s.dev[Other(i)], air, count)
    requires Forward(s.dev[i], d) && AirGrows(s.air, air, i)
    ensures Inv(System(s.dev[i := d], air), count)
  {
    BystanderOk(Other(i), s.dev[Other(i)], s.dev[i], s.air, d, air, count);
    if i == 0 {
      assert s.dev[i := d][1] == s.dev[1];
    } else {
      assert s.dev[i := d][0] == s.dev[0];
    }
  }

  lemma StepKeepsInv(s: System, a: Action, count: nat)
    requires Inv(s, count) && Enabled(s, a)
    ensures Inv(Apply(s, a), count)
  {
    ReactOk(s, a, count);
    ReactForward(s, a, count);
    Assembled(s, a.i, React(s, a).d, React(s, a).air, count);
  }

  lemma {:induction false} RunKeepsInv(s: System, run: seq<Action>, count: nat)
    requires Inv(s, count) && CanRun(s, run)
    ensures Inv(After(s, run), count)
    decreases |run|
  {
    if run != [] {
      StepKeepsInv(s, run[0], count);
      RunKeepsInv(Apply(s, run[0]), run[1..], count);
    }
  }

  lemma ReachableInv(macs: (Mac, Mac), magics: (nat, nat), count: nat, run: seq<Action>, s: System)
    requires Reaches(macs, magics, count, run, s) && count < 65536
    ensures Inv(s, count)
    ensures s.dev[0].magic == magics.0 && s.dev[1].magic == magics.1
  {
    InitInv(macs, magics, count);
    RunKeepsInv(Init(macs, magics, count), run, count);
    RunForward(Init(macs, magics, count), run, count);
  }

  lemma {:induction false} RunForward(s: System, run: seq<Action>, count: nat)
    requires Inv(s, count) && CanRun(s, run)
    ensures var s' := After(s, run); |s'.dev| == 2 && Forward(s.dev[0], s'.dev[0]) && Forward(s.dev[1], s'.dev[1])
    decreases |run|
  {
    if run != [] {
      StepKeepsInv(s, run[0], count);
      ReactForward(s, run[0], count);
      RunForward(Apply(s, run[0]), run[1..], count);
    }
  }

  // ---------- The theorems ----------

  /** Election safety: a device in unicast mode has a magic number no smaller than the other's, so with distinct
      magic numbers only the device with the larger one ever gets there, and never both. */
  lemma ElectionSafety(macs: (Mac, Mac), magics: (nat, nat), count: nat, run: seq<Action>, s: System)
    requires Reaches(macs, magics, count, run, s) && count < 65536
    ensures |s.dev| == 2
    ensures s.dev[0].unicast ==> magics.0 >= magics.1
    ensures s.dev[1].unicast ==> magics.1 >= magics.0
    ensures magics.0 != magics.1 ==> !(s.dev[0].unicast && s.dev[1].unicast)
  {
    ReachableInv(macs, magics, count, run, s);
  }

  /** Mutual knowledge: when a device is in unicast mode, the other has received a genuine broadcast frame of it,
      and each has the other in its peer list. */
  lemma MutualKnowledge(macs: (Mac, Mac), magics: (nat, nat), count: nat, run: seq<Action>, s: System, i: nat)
    requires Reaches(macs, magics, count, run, s) && count < 65536
    requires i < 2 && |s.dev| == 2 && s.dev[i].unicast
    ensures var d, e := s.dev[i], s.dev[Other(i)];
            && (exists f :: f in e.heard && f.src == i && f.content.kind == Broadcast && f.content.magic == d.magic)
            && (exists f :: f in d.heard && f.src == Other(i))
            && e.mac in d.peers && d.mac in e.peers
  {
    ReachableInv(macs, magics, count, run, s);
    var d, e := s.dev[i], s.dev[Other(i)];
    assert DeviceOk(i, d, e, s.air, count) && DeviceOk(Other(i), e, d, s.air, count);
    var f :| f in e.heard;
    var g :| g in d.heard;
    assert FrameOk(f, d, e);
  }

  /** Unicast conservation: frames the radio accepted plus callbacks still to come before the end equal the planned number,
      plus one if a send is outstanding, be its callback on the way or lost. At most one is outstanding, so the planned
      number is never exceeded; and a task that ended with "Send done" has sent exactly that many. */
  lemma UnicastConservation(macs: (Mac, Mac), magics: (nat, nat), count: nat, run: seq<Action>, s: System, i: nat)
    requires Reaches(macs, magics, count, run, s) && count < 65536
    requires i < 2 && |s.dev| == 2
    ensures var d, peer := s.dev[i], s.dev[Other(i)].mac;
            && d.sentUnicast + Left(d) == Planned(count) + Outstanding(d, peer)
            && Outstanding(d, peer) <= 1
            && d.sentUnicast <= Planned(count)
            && (d.done ==> d.sentUnicast == Planned(count) && !d.running)
  {
    ReachableInv(macs, magics, count, run, s);
    assert DeviceOk(i, s.dev[i], s.dev[Other(i)], s.air, count);
  }

  lemma CallbackCounts(s: System, a: Action, count: nat)
    requires Inv(s, count) && Enabled(s, a) && a.Callback? && a.mac != BROADCAST
    ensures var d, d' := s.dev[a.i], Apply(s, a).dev[a.i];
            && Left(d') == Left(d) - 1
            && (d'.done <==> Left(d') == 0)
            && (a.ok && !d'.done ==> d'.running && d'.pending[a.mac] == 1)
  {
    var d, e := s.dev[a.i], s.dev[Other(a.i)];
    assert DeviceOk(a.i, d, e, s.air, count);
    assert a.mac == e.mac;
    UnicastCallbackCounts(a.i, d, e, s.air, count, a.ok);
  }

  /** Each unicast callback that is handled brings the end of the task one nearer, whatever else happens. */
  lemma UnicastCallbackProgress(macs: (Mac, Mac), magics: (nat, nat), count: nat, run: seq<Action>, s: System, a: Action)
    requires Reaches(macs, magics, count, run, s) && count < 65536
    requires Enabled(s, a) && a.Callback? && a.mac != BROADCAST
    ensures var d, d' := s.dev[a.i], Apply(s, a).dev[a.i];
            && Left(d') == Left(d) - 1
            && (d'.done <==> Left(d') == 0)
            && (a.ok && !d'.done ==> d'.running && d'.pending[a.mac] == 1)
  {
    ReachableInv(macs, magics, count, run, s);
    CallbackCounts(s, a, count);
  }

  /** When broadcasting ends: in every reachable state a device has left broadcast mode if and only if it has gone unicast itself or
      has received a unicast frame of the other. */
  lemma BroadcastEndsIff(macs: (Mac, Mac), magics: (nat, nat), count: nat, run: seq<Action>, s: System, i: nat)
    requires Reaches(macs, magics, count, run, s) && count < 65536 && i < 2 && |s.dev| == 2
    ensures !s.dev[i].broadcast <==>
            s.dev[i].unicast || exists f :: f in s.dev[i].told && f.src == Other(i) && f.content.kind == Unicast
  {
    ReachableInv(macs, magics, count, run, s);
    assert DeviceOk(i, s.dev[i], s.dev[Other(i)], s.air, count);
    if f :| f in s.dev[i].told {
    }
  }

  /** A unicast frame that is received ends the receiver's broadcasting for good: whatever follows, it hands no further broadcast frame
      to the radio. */
  lemma UnicastSilencesReceiver(
      macs: (Mac, Mac), magics: (nat, nat), count: nat, run: seq<Action>, s: System, a: Action, rest: seq<Action>)
    requires Reaches(macs, magics, count, run, s) && count < 65536
    requires Enabled(s, a) && a.Receive? && a.f.content.kind == Unicast && CanRun(Apply(s, a), rest)
    ensures a.f in Apply(s, a).dev[a.i].told && !Apply(s, a).dev[a.i].broadcast
    ensures |After(Apply(s, a), rest).dev| == 2
    ensures var d, d' := s.dev[a.i], After(Apply(s, a), rest).dev[a.i];
            !d'.broadcast && d'.sentBroadcast == d.sentBroadcast
  {
    ReachableInv(macs, magics, count, run, s);
    StepKeepsInv(s, a, count);
    RunForward(Apply(s, a), rest, count);
  }

  // ---------- What each event comes to ----------

  /** A broadcast frame that is received: if there is no room for a new peer the task ends. Otherwise the sender is a peer, the frame
      counts as heard, the state is 1, and the device goes unicast exactly if it was so before or the frame says that the sender has
      heard it, its own magic number is not the smaller one, and the send succeeds; a send that fails ends the task. */
  lemma BroadcastReceived(macs: (Mac, Mac), magics: (nat, nat), count: nat, run: seq<Action>, s: System, a: Action)
    requires Reaches(macs, magics, count, run, s) && count < 65536
    requires Enabled(s, a) && a.Receive? && a.f.content.kind == Broadcast
    ensures var d, d', peer := s.dev[a.i], Apply(s, a).dev[a.i], s.dev[Other(a.i)].mac;
            var tries := !d.unicast && a.f.content.state == 1 && d.magic >= a.f.content.magic;
            if peer !in d.peers && !a.room then d' == d.(running := false) && Apply(s, a).air == s.air
            else
              && peer in d'.peers && a.f in d'.heard && d'.state == 1
              && (d'.unicast <==> d.unicast || (tries && a.ok)) && (d'.running <==> !tries || a.ok)
              && d'.sentUnicast == d.sentUnicast + (if tries && a.ok then 1 else 0) && d'.sentBroadcast == d.sentBroadcast
              && (tries && a.ok ==> Frame(a.i, peer, Content(Unicast, 1, d.magic)) in Apply(s, a).air)
  {
    ReachableInv(macs, magics, count, run, s);
    var d, e := s.dev[a.i], s.dev[Other(a.i)];
    assert DeviceOk(a.i, d, e, s.air, count) && DeviceOk(Other(a.i), e, d, s.air, count);
    HearingExact(a.i, d, e, s.air, count, a.f, a.room, a.ok);
  }

  lemma HearingExact(src: nat, d: Device, e: Device, air: set<Frame>, count: nat, f: Frame, room: bool, ok: bool)
    requires src < 2 && DeviceOk(src, d, e, air, count) && d.running && d.started
    requires f in air && f.src == Other(src) && f.content.kind == Broadcast
    ensures var r := OnReceive(src, d, air, f, e.mac, room, ok);
            var tries := !d.unicast && f.content.state == 1 && d.magic >= f.content.magic;
            if e.mac !in d.peers && !room then r == Outcome(d.(running := false), air)
            else
              && e.mac in r.d.peers && f in r.d.heard && r.d.state == 1
              && (r.d.unicast <==> d.unicast || (tries && ok)) && (r.d.running <==> !tries || ok)
              && r.d.sentUnicast == d.sentUnicast + (if tries && ok then 1 else 0) && r.d.sentBroadcast == d.sentBroadcast
              && (tries && ok ==> Frame(src, e.mac, Content(Unicast, 1, d.magic)) in r.air)
  {
  }

  /** The first send of the task. */
  lemma FirstSend(macs: (Mac, Mac), magics: (nat, nat), count: nat, run: seq<Action>, s: System, a: Action)
    requires Reaches(macs, magics, count, run, s) && count < 65536
    requires Enabled(s, a) && a.Start?
    ensures var d, d' := s.dev[a.i], Apply(s, a).dev[a.i];
            && d'.started && (d'.running <==> a.ok) && d'.broadcast && d'.sentUnicast == d.sentUnicast
            && d'.sentBroadcast == d.sentBroadcast + (if a.ok then 1 else 0)
            && (a.ok ==> d'.pending[BROADCAST] == 1)
  {
    ReachableInv(macs, magics, count, run, s);
    assert DeviceOk(a.i, s.dev[a.i], s.dev[Other(a.i)], s.air, count);
  }

  /** The callback of a broadcast send: while the device is in broadcast mode it sends the next one, which says whether it has heard
      the other device by now; a send that fails ends the task. Out of broadcast mode nothing is sent. */
  lemma BroadcastCallback(macs: (Mac, Mac), magics: (nat, nat), count: nat, run: seq<Action>, s: System, a: Action)
    requires Reaches(macs, magics, count, run, s) && count < 65536
    requires Enabled(s, a) && a.Callback? && a.mac == BROADCAST
    ensures var d, d' := s.dev[a.i], Apply(s, a).dev[a.i];
            && d'.sentBroadcast == d.sentBroadcast + (if d.broadcast && a.ok then 1 else 0) && d'.sentUnicast == d.sentUnicast
            && (d'.running <==> !d.broadcast || a.ok)
            && (d.broadcast && a.ok ==>
                  && d'.pending[BROADCAST] == 1
                  && Frame(a.i, BROADCAST, Content(Broadcast, if d.heard == {} then 0 else 1, d.magic)) in Apply(s, a).air)
  {
    ReachableInv(macs, magics, count, run, s);
    assert DeviceOk(a.i, s.dev[a.i], s.dev[Other(a.i)], s.air, count);
  }

  /** The callback of a unicast send: unless it was the last, the next frame goes to the same device; a send that fails ends the
      task. */
  lemma UnicastCallback(macs: (Mac, Mac), magics: (nat, nat), count: nat, run: seq<Action>, s: System, a: Action)
    requires Reaches(macs, magics, count, run, s) && count < 65536
    requires Enabled(s, a) && a.Callback? && a.mac != BROADCAST
    ensures var d, d', peer := s.dev[a.i], Apply(s, a).dev[a.i], s.dev[Other(a.i)].mac;
            var last := d.sentUnicast == if count == 0 then 65536 else count;
            && a.mac == peer && (d'.done <==> last) && (d'.running <==> !last && a.ok)
            && d'.sentUnicast == d.sentUnicast + (if !last && a.ok then 1 else 0) && d'.sentBroadcast == d.sentBroadcast
            && (!last && a.ok ==> Frame(a.i, peer, Content(Unicast, 1, d.magic)) in Apply(s, a).air)
  {
    ReachableInv(macs, magics, count, run, s);
    CallbackCounts(s, a, count);
    assert DeviceOk(a.i, s.dev[a.i], s.dev[Other(a.i)], s.air, count);
  }

  /** The phases only move forward: unicast mode excludes broadcast mode, broadcast mode once left is never entered again,
      no further broadcast frame reaches the radio, and at most one broadcast send is ever outstanding. */
  lemma PhasesOnlyForward(
      macs: (Mac, Mac), magics: (nat, nat), count: nat, run: seq<Action>, s: System, rest: seq<Action>, i: nat)
    requires Reaches(macs, magics, count, run, s) && count < 65536
    requires CanRun(s, rest) && i < 2 && |s.dev| == 2
    ensures |After(s, rest).dev| == 2
    ensures var d, d' := s.dev[i], After(s, rest).dev[i];
            && !(d.unicast && d.broadcast)
            && (d.unicast ==> d'.unicast)
            && (!d.broadcast ==> !d'.broadcast && d'.sentBroadcast == d.sentBroadcast)
            && Outstanding(d, BROADCAST) <= 1
  {
    ReachableInv(macs, magics, count, run, s);
    assert DeviceOk(i, s.dev[i], s.dev[Other(i)], s.air, count);
    RunForward(s, rest, count);
  }
}
