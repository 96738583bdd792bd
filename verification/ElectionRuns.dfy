/** Runs of the ESP-NOW pairing that exist: the election can be completed, and with equal magic numbers both devices win. */
module ElectionRuns {
  import opened EspNow
  import opened Election

  // ---------- Runs that exist ----------

  /** Some run leads from one state to the other. */
  ghost predicate Leads(s: System, s': System) {
    exists run :: CanRun(s, run) && After(s, run) == s'
  }

  lemma {:induction false} RunExtends(s: System, run: seq<Action>, a: Action)
    requires CanRun(s, run) && Enabled(After(s, run), a)
    ensures CanRun(s, run + [a]) && After(s, run + [a]) == Apply(After(s, run), a)
    decreases |run|
  {
    if run == [] {
      assert run + [a] == [a];
    } else {
      assert (run + [a])[1..] == run[1..] + [a];
      RunExtends(Apply(s, run[0]), run[1..], a);
    }
  }

  lemma LeadsOn(s: System, s': System, a: Action)
    requires Leads(s, s') && Enabled(s', a)
    ensures Leads(s, Apply(s', a))
  {
    var run :| CanRun(s, run) && After(s, run) == s';
    RunExtends(s, run, a);
  }

  /** A device in unicast mode waiting for the callback of its send. */
  ghost predicate Sending(s: System, i: nat) {
    && |s.dev| == 2 && i < 2
    && var d := s.dev[i];
       d.running && d.started && d.unicast && d.pending[s.dev[Other(i)].mac] == 1
  }

  /** One handled callback and accepted send. */
  lemma NextUnicast(s: System, i: nat, count: nat)
    requires Inv(s, count) && Sending(s, i)
    ensures var a := Callback(i, s.dev[Other(i)].mac, true);
            && Enabled(s, a) && Inv(Apply(s, a), count)
            && Left(Apply(s, a).dev[i]) == Left(s.dev[i]) - 1
            && (Apply(s, a).dev[i].done <==> Left(Apply(s, a).dev[i]) == 0)
            && (!Apply(s, a).dev[i].done ==> Sending(Apply(s, a), i))
  {
    var a := Callback(i, s.dev[Other(i)].mac, true);
    StepKeepsInv(s, a, count);
    CallbackCounts(s, a, count);
    ReactForward(s, a, count);
  }

  /** From any sound state in which a device has a unicast send outstanding, its remaining callbacks, all of them handled
      and every send accepted, bring it to "Send done". */
  lemma {:induction false} CanFinish(s0: System, s: System, i: nat, count: nat) returns (s': System)
    requires Leads(s0, s) && Inv(s, count) && Sending(s, i)
    ensures Leads(s0, s') && Inv(s', count) && s'.dev[i].done
    decreases Left(s.dev[i])
  {
    var a := Callback(i, s.dev[Other(i)].mac, true);
    NextUnicast(s, i, count);
    LeadsOn(s0, s, a);
    s' := Apply(s, a);
    if !s'.dev[i].done {
      s' := CanFinish(s0, s', i, count);
    }
  }

  /** The broadcast frame a device sends before, or after, it has heard the other one. */
  function Beacon(src: nat, state: nat, magic: nat): Frame {
    Frame(src, BROADCAST, Content(Broadcast, state, magic))
  }

  function Started(mac: Mac, magic: nat, count: nat): Device {
    Fresh(mac, magic, count).(started := true, pending := multiset{BROADCAST}, sentBroadcast := 1)
  }

  /** The device has heard the other one's first broadcast. */
  function Paired(i: nat, macs: (Mac, Mac), magics: (nat, nat), count: nat): Device {
    if i == 0 then Heard(Started(macs.0, magics.0, count), Beacon(1, 0, magics.1), macs.1)
    else Heard(Started(macs.1, magics.1, count), Beacon(0, 0, magics.0), macs.0)
  }

  /** The device has sent its next broadcast, which says so. */
  function Answered(i: nat, macs: (Mac, Mac), magics: (nat, nat), count: nat): Device {
    Prepare(Paired(i, macs, magics, count)).(sentBroadcast := 2)
  }

  function Greeted(macs: (Mac, Mac), magics: (nat, nat), count: nat): System {
    System([Answered(0, macs, magics, count), Answered(1, macs, magics, count)],
           {Beacon(0, 0, magics.0), Beacon(1, 0, magics.1)} + {Beacon(0, 1, magics.0)} + {Beacon(1, 1, magics.1)})
  }

  lemma AfterStart(i: nat, mac: Mac, magic: nat, count: nat, air: set<Frame>)
    ensures Send(i, Fresh(mac, magic, count).(started := true), air, true)
            == Outcome(Started(mac, magic, count), air + {Beacon(i, 0, magic)})
  {
    assert multiset{} + multiset{BROADCAST} == multiset{BROADCAST};
  }

  lemma AfterAnswer(i: nat, macs: (Mac, Mac), magics: (nat, nat), count: nat, air: set<Frame>)
    requires i < 2
    ensures OnCallback(i, Paired(i, macs, magics, count), air, BROADCAST, true)
            == Outcome(Answered(i, macs, magics, count), air + {Beacon(i, 1, if i == 0 then magics.0 else magics.1)})
  {
    assert multiset{BROADCAST} - multiset{BROADCAST} + multiset{BROADCAST} == multiset{BROADCAST};
  }

  lemma BothStart(macs: (Mac, Mac), magics: (nat, nat), count: nat)
    requires Addresses(macs)
    ensures Leads(Init(macs, magics, count),
                  System([Started(macs.0, magics.0, count), Started(macs.1, magics.1, count)],
                         {Beacon(0, 0, magics.0), Beacon(1, 0, magics.1)}))
  {
    var s0 := Init(macs, magics, count);
    assert CanRun(s0, []) && After(s0, []) == s0;
    AfterStart(0, macs.0, magics.0, count, {});
    LeadsOn(s0, s0, Start(0, true));
    var s1 := Apply(s0, Start(0, true));
    AfterStart(1, macs.1, magics.1, count, s1.air);
    LeadsOn(s0, s1, Start(1, true));
    var s2 := Apply(s1, Start(1, true));
    assert s2.dev == [Started(macs.0, magics.0, count), Started(macs.1, magics.1, count)];
    assert s2.air == {Beacon(0, 0, magics.0), Beacon(1, 0, magics.1)};
  }

  lemma BothHear(s0: System, macs: (Mac, Mac), magics: (nat, nat), count: nat)
    requires Addresses(macs)
    requires Leads(s0, System([Started(macs.0, magics.0, count), Started(macs.1, magics.1, count)],
                              {Beacon(0, 0, magics.0), Beacon(1, 0, magics.1)}))
    ensures Leads(s0, System([Paired(0, macs, magics, count), Paired(1, macs, magics, count)],
                             {Beacon(0, 0, magics.0), Beacon(1, 0, magics.1)}))
  {
    var f0, f1 := Beacon(0, 0, magics.0), Beacon(1, 0, magics.1);
    var s2 := System([Started(macs.0, magics.0, count), Started(macs.1, magics.1, count)], {f0, f1});
    LeadsOn(s0, s2, Receive(0, f1, true, true));
    var s3 := Apply(s2, Receive(0, f1, true, true));
    LeadsOn(s0, s3, Receive(1, f0, true, true));
    var s4 := Apply(s3, Receive(1, f0, true, true));
    assert s4.dev == [Paired(0, macs, magics, count), Paired(1, macs, magics, count)];
  }

  /** Both devices start, hear each other and answer: each has a frame with state 1 in the air. */
  lemma Handshake(macs: (Mac, Mac), magics: (nat, nat), count: nat)
    requires Addresses(macs)
    ensures Leads(Init(macs, magics, count), Greeted(macs, magics, count))
  {
    var s0 := Init(macs, magics, count);
    BothStart(macs, magics, count);
    BothHear(s0, macs, magics, count);
    var s4 := System([Paired(0, macs, magics, count), Paired(1, macs, magics, count)],
                     {Beacon(0, 0, magics.0), Beacon(1, 0, magics.1)});
    AfterAnswer(0, macs, magics, count, s4.air);
    LeadsOn(s0, s4, Callback(0, BROADCAST, true));
    var s5 := Apply(s4, Callback(0, BROADCAST, true));
    AfterAnswer(1, macs, magics, count, s5.air);
    LeadsOn(s0, s5, Callback(1, BROADCAST, true));
    assert Apply(s5, Callback(1, BROADCAST, true)).dev == Greeted(macs, magics, count).dev;
  }

  /** The device whose magic number is not the smaller one hears the answer and takes over. */
  lemma CanTakeOver(s0: System, s: System, macs: (Mac, Mac), magics: (nat, nat), count: nat, i: nat)
    requires Addresses(macs) && i < 2 && Leads(s0, s) && |s.dev| == 2
    requires s.dev[i] == Answered(i, macs, magics, count)
    requires s.dev[Other(i)].mac == if i == 0 then macs.1 else macs.0
    requires (i == 0 ==> magics.0 >= magics.1) && (i == 1 ==> magics.1 >= magics.0)
    requires Beacon(Other(i), 1, if i == 0 then magics.1 else magics.0) in s.air
    ensures var s' := HearsAnswer(s, i, magics);
            Leads(s0, s') && |s'.dev| == 2 && s'.dev[i].unicast && Sending(s', i)
            && s'.dev[Other(i)] == s.dev[Other(i)] && s.air <= s'.air
  {
    LeadsOn(s0, s, Receive(i, Beacon(Other(i), 1, if i == 0 then magics.1 else magics.0), true, true));
  }

  /** The state after device i received the other one's answer. */
  function HearsAnswer(s: System, i: nat, magics: (nat, nat)): System
    requires Enabled(s, Receive(i, Beacon(Other(i), 1, if i == 0 then magics.1 else magics.0), true, true))
  {
    Apply(s, Receive(i, Beacon(Other(i), 1, if i == 0 then magics.1 else magics.0), true, true))
  }

  /** The election can always be completed: some run brings the device with the larger magic number to "Send done". */
  lemma ElectionCanComplete(macs: (Mac, Mac), magics: (nat, nat), count: nat, i: nat)
    requires Addresses(macs) && count < 65536 && i < 2
    requires (i == 0 ==> magics.0 >= magics.1) && (i == 1 ==> magics.1 >= magics.0)
    ensures exists run, s ::
              Reaches(macs, magics, count, run, s) && |s.dev| == 2
              && s.dev[i].done && s.dev[i].sentUnicast == Planned(count)
  {
    var s0, s := Init(macs, magics, count), Greeted(macs, magics, count);
    Handshake(macs, magics, count);
    CanTakeOver(s0, s, macs, magics, count, i);
    var s1 := HearsAnswer(s, i, magics);
    var run1 :| CanRun(s0, run1) && After(s0, run1) == s1;
    ReachableInv(macs, magics, count, run1, s1);
    var s2 := CanFinish(s0, s1, i, count);
    var run2 :| CanRun(s0, run2) && After(s0, run2) == s2;
    assert Reaches(macs, magics, count, run2, s2);
    UnicastConservation(macs, magics, count, run2, s2, i);
  }

  /** The other device, still answering, receives the first unicast frame of device i and broadcasts no more. */
  lemma UnicastArrives(s0: System, s: System, i: nat, f: Frame)
    requires Leads(s0, s) && |s.dev| == 2 && i < 2 && f in s.air && f.content.kind == Unicast
    requires s.dev[Other(i)].running && s.dev[Other(i)].started && f.src == i && f.dest == s.dev[Other(i)].mac
    ensures var a := Receive(Other(i), f, true, true);
            && Enabled(s, a) && Leads(s0, Apply(s, a)) && |Apply(s, a).dev| == 2
            && Apply(s, a).dev[i] == s.dev[i] && !Apply(s, a).dev[Other(i)].broadcast
            && Apply(s, a).dev[Other(i)].unicast == s.dev[Other(i)].unicast && Apply(s, a).dev[Other(i)].running
  {
    LeadsOn(s0, s, Receive(Other(i), f, true, true));
  }

  /** And some run silences the other one. */
  lemma LoserFallsSilent(macs: (Mac, Mac), magics: (nat, nat), count: nat, i: nat)
    requires Addresses(macs) && i < 2
    requires (i == 0 ==> magics.0 >= magics.1) && (i == 1 ==> magics.1 >= magics.0)
    ensures exists run, s ::
              Reaches(macs, magics, count, run, s) && |s.dev| == 2
              && s.dev[i].unicast && !s.dev[Other(i)].unicast && !s.dev[Other(i)].broadcast && s.dev[Other(i)].running
  {
    var s0, s := Init(macs, magics, count), Greeted(macs, magics, count);
    Handshake(macs, magics, count);
    CanTakeOver(s0, s, macs, magics, count, i);
    var s1 := HearsAnswer(s, i, magics);
    var f := Frame(i, s.dev[Other(i)].mac, Content(Unicast, 1, s.dev[i].magic));
    assert f in s1.air;
    UnicastArrives(s0, s1, i, f);
    var s2 := Apply(s1, Receive(Other(i), f, true, true));
    var run :| CanRun(s0, run) && After(s0, run) == s2;
    assert Reaches(macs, magics, count, run, s2);
  }

  /** Distinct magic numbers are exactly what election safety needs: both devices can end up sending unicast frames
      if and only if their magic numbers are equal. */
  lemma BothCanWinIffEqual(macs: (Mac, Mac), magics: (nat, nat), count: nat)
    requires Addresses(macs) && count < 65536
    ensures (exists run, s :: Reaches(macs, magics, count, run, s) && |s.dev| == 2 && s.dev[0].unicast && s.dev[1].unicast)
            <==> magics.0 == magics.1
  {
    if magics.0 == magics.1 {
      var s0, s := Init(macs, magics, count), Greeted(macs, magics, count);
      Handshake(macs, magics, count);
      CanTakeOver(s0, s, macs, magics, count, 0);
      var s1 := HearsAnswer(s, 0, magics);
      CanTakeOver(s0, s1, macs, magics, count, 1);
      var s2 := HearsAnswer(s1, 1, magics);
      var run :| CanRun(s0, run) && After(s0, run) == s2;
      assert Reaches(macs, magics, count, run, s2);
    } else {
      forall run, s | Reaches(macs, magics, count, run, s)
        ensures !(|s.dev| == 2 && s.dev[0].unicast && s.dev[1].unicast)
      {
        ElectionSafety(macs, magics, count, run, s);
      }
    }
  }
}
