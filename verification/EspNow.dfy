/** The ESP-NOW pairing and election of esp-idf/espnow/espnow_example_main.c: two devices, one radio.

    Each device runs the event loop of example_espnow_task. The radio is as bad as it can be: every frame ever handed to
    it stays in `air`, from where it may be delivered any number of times, in any order, or never. A frame that was
    damaged is rejected by the checksum and has no effect, so it needs no step here. Send callbacks may get lost,
    sends may fail, and there may be no room for a peer entry. */
module EspNow {
  type Mac = nat

  /** s_example_broadcast_mac: the one address the program takes for broadcast. */
  const BROADCAST: Mac := 0x983baeabcb38

  datatype Kind = Broadcast | Unicast

  /** The fields of example_espnow_data_t that the event loop looks at. */
  datatype Content = Content(kind: Kind, state: nat, magic: nat)

  datatype Frame = Frame(src: nat, dest: Mac, content: Content)

  /** example_espnow_send_param_t, the peer list, and what has happened so far: the addresses of sends whose callback is
      still to come, of callbacks that were lost, how many frames the radio accepted, which broadcasts were heard and
      which unicasts received (`told`), and whether the task ended through "Send done". */
  datatype Device = Device(
    mac: Mac, running: bool, started: bool,
    unicast: bool, broadcast: bool, state: nat, magic: nat, count: nat, dest: Mac, buffer: Content, peers: set<Mac>,
    pending: multiset<Mac>, lost: multiset<Mac>, sentBroadcast: nat, sentUnicast: nat, heard: set<Frame>,
    told: set<Frame>, done: bool)

  datatype System = System(dev: seq<Device>, air: set<Frame>)

  datatype Action =
    | Start(i: nat, ok: bool)                            // the first send of the task
    | Callback(i: nat, mac: Mac, ok: bool)               // EXAMPLE_ESPNOW_SEND_CB
    | LoseCallback(i: nat, mac: Mac)                     // the event queue was full
    | Receive(i: nat, f: Frame, room: bool, ok: bool) // EXAMPLE_ESPNOW_RECV_CB

  predicate IsBroadcast(m: Mac) {
    m == BROADCAST
  }

  /** uint16_t count--. */
  function Decrement(count: nat): nat {
    if count == 0 then 65535 else count - 1
  }

  /** example_espnow_data_prepare, as far as the event loop depends on it. */
  function Prepare(d: Device): Device {
    d.(buffer := Content(if IsBroadcast(d.dest) then Broadcast else Unicast, d.state, d.magic))
  }

  /** example_espnow_init for a device with this address, magic number and configured count. */
  function Fresh(mac: Mac, magic: nat, count: nat): Device {
    Prepare(Device(
      mac, true, false, false, true, 0, magic, count, BROADCAST, Content(Broadcast, 0, magic), {BROADCAST},
      multiset{}, multiset{}, 0, 0, {}, {}, false))
  }

  function Init(macs: (Mac, Mac), magics: (nat, nat), count: nat): System {
    System([Fresh(macs.0, magics.0, count), Fresh(macs.1, magics.1, count)], {})
  }

  function Stop(d: Device): Device {
    d.(running := false)
  }

  /** What one event makes of a device and of the air. */
  datatype Outcome = Outcome(d: Device, air: set<Frame>)

  /** esp_now_send with the device's buffer; on failure the task shuts down. */
  function Send(src: nat, d: Device, air: set<Frame>, ok: bool): Outcome {
    if !ok then Outcome(Stop(d), air)
    else if IsBroadcast(d.dest) then
      Outcome(d.(pending := d.pending + multiset{d.dest}, sentBroadcast := d.sentBroadcast + 1),
              air + {Frame(src, d.dest, d.buffer)})
    else
      Outcome(d.(pending := d.pending + multiset{d.dest}, sentUnicast := d.sentUnicast + 1),
              air + {Frame(src, d.dest, d.buffer)})
  }

  /** The callback case of the event loop. */
  function OnCallback(src: nat, d: Device, air: set<Frame>, mac: Mac, ok: bool): Outcome {
    var d0 := d.(pending := d.pending - multiset{mac});
    if IsBroadcast(mac) then
      if !d.broadcast then Outcome(d0, air) else Send(src, Prepare(d0.(dest := mac)), air, ok)
    else
      var d1 := d0.(count := Decrement(d.count));
      if d1.count == 0 then Outcome(Stop(d1).(done := true), air)
      else Send(src, Prepare(d1.(dest := mac)), air, ok)
  }

  /** A broadcast was received: the sender is a peer and the local state is at least 1. */
  function Heard(d: Device, f: Frame, from: Mac): Device {
    d.(peers := d.peers + {from}, state := if d.state == 0 then 1 else d.state, heard := d.heard + {f})
  }

  /** "Start sending unicast data". */
  function TakeOver(src: nat, d: Device, air: set<Frame>, to: Mac, ok: bool): Outcome {
    var r := Send(src, Prepare(d.(dest := to)), air, ok);
    if ok then r.(d := r.d.(broadcast := false, unicast := true)) else r
  }

  /** The receive case of the event loop; `from` is the sender's address. */
  function OnReceive(src: nat, d: Device, air: set<Frame>, f: Frame, from: Mac, room: bool, ok: bool): Outcome {
    if f.content.kind == Unicast then Outcome(d.(broadcast := false, told := d.told + {f}), air)
    else if from !in d.peers && !room then Outcome(Stop(d), air)
    else
      var d1 := Heard(d, f, from);
      if f.content.state == 1 && !d1.unicast && d1.magic >= f.content.magic then
        TakeOver(src, d1, air, from, ok)
      else Outcome(d1, air)
  }

  function Other(i: nat): nat {
    if i == 0 then 1 else 0
  }

  predicate Enabled(s: System, a: Action) {
    && |s.dev| == 2 && a.i < 2
    && var d := s.dev[a.i];
       && d.running
       && match a
          case Start(_, _) => !d.started
          case Callback(_, mac, _) => d.started && mac in d.pending
          case LoseCallback(_, mac) => d.started && mac in d.pending
          case Receive(i, f, _, _) => d.started && f in s.air && f.src == Other(i) && (f.dest == BROADCAST || f.dest == d.mac)
  }

  function React(s: System, a: Action): Outcome
    requires Enabled(s, a)
  {
    var d := s.dev[a.i];
    match a
    case Start(i, ok) => Send(i, d.(started := true), s.air, ok)
    case Callback(i, mac, ok) => OnCallback(i, d, s.air, mac, ok)
    case LoseCallback(_, mac) =>
      Outcome(d.(pending := d.pending - multiset{mac}, lost := d.lost + multiset{mac}), s.air)
    case Receive(i, f, room, ok) => OnReceive(i, d, s.air, f, s.dev[Other(i)].mac, room, ok)
  }

  function Apply(s: System, a: Action): System
    requires Enabled(s, a)
  {
    var r := React(s, a);
    System(s.dev[a.i := r.d], r.air)
  }

  predicate CanRun(s: System, run: seq<Action>)
    decreases |run|
  {
    run == [] || (Enabled(s, run[0]) && CanRun(Apply(s, run[0]), run[1..]))
  }

  function After(s: System, run: seq<Action>): System
    requires CanRun(s, run)
    decreases |run|
  {
    if run == [] then s else After(Apply(s, run[0]), run[1..])
  }

  /** Two devices whose addresses differ from each other and from the broadcast address. */
  predicate Addresses(macs: (Mac, Mac)) {
    macs.0 != macs.1 && macs.0 != BROADCAST && macs.1 != BROADCAST
  }

  ghost predicate Reaches(macs: (Mac, Mac), magics: (nat, nat), count: nat, run: seq<Action>, s: System) {
    Addresses(macs) && CanRun(Init(macs, magics, count), run) && s == After(Init(macs, magics, count), run)
  }
}
