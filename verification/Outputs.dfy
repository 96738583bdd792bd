/** set_output and change_output of tasks.c: the list says what each output should be, the ports what it is.

    As built for a client with its card (USE_CARDS defined, SERVER_146 not). */
module Outputs {
  import opened ListMemory
  import opened Wrappers
  import B = Bus
  import L = OutputList

  /** real_banks as get_host_cmd_task fills it: bank and bit of the first twenty outputs. The other twenty entries are
      never filled, so they are all zero. */
  const REAL_BANKS: seq<(nat, nat)> := [
    (0, 0), (0, 1), (0, 2), (0, 3), (0, 4), (0, 5), (0, 6), (0, 7),
    (1, 0), (1, 1), (1, 2), (1, 3), (1, 4), (1, 5), (1, 6), (1, 7),
    (2, 0), (2, 1), (2, 2), (2, 3),
    (0, 0), (0, 0), (0, 0), (0, 0), (0, 0), (0, 0), (0, 0), (0, 0), (0, 0), (0, 0),
    (0, 0), (0, 0), (0, 0), (0, 0), (0, 0), (0, 0), (0, 0), (0, 0), (0, 0), (0, 0)]

  predicate IsIndex(index: int) {
    0 <= index < |REAL_BANKS|
  }

  /** The addresses of ports A, B and C. */
  function PortOf(index: int): bv32
    requires IsIndex(index)
  {
    var bank := REAL_BANKS[index].0;
    if bank == 0 then 0x10300 else if bank == 1 then 0x10301 else 0x10302
  }

  function BitIndex(index: int): (b: nat)
    requires IsIndex(index)
    ensures b < 8
  {
    REAL_BANKS[index].1
  }

  /** The state of the physical output. */
  predicate IsOn(regs: B.Registers, index: int)
    requires IsIndex(index)
  {
    B.BitOf(B.Reg(regs, PortOf(index)), BitIndex(index))
  }

  lemma BanksInOrder(index: int)
    requires 0 <= index < 20
    ensures REAL_BANKS[index] == (index / 8, index % 8)
  {
  }

  /** Where the first twenty outputs are: eight a port, in order. */
  lemma FirstTwentyAt(index: int)
    requires 0 <= index < 20
    ensures IsIndex(index) && BitIndex(index) == index % 8
    ensures PortOf(index) == if index < 8 then 0x10300 else if index < 16 then 0x10301 else 0x10302
  {
    BanksInOrder(index);
  }

  /** Two outputs drive the same bit. */
  predicate SharesBit(i: int, j: int)
    requires IsIndex(i) && IsIndex(j)
  {
    PortOf(i) == PortOf(j) && BitIndex(i) == BitIndex(j)
  }

  /** Outputs 20 to 39 all drive the bit of output 0; apart from these every output has its own. */
  lemma SharesBitIff(i: int, j: int)
    requires IsIndex(i) && IsIndex(j)
    ensures SharesBit(i, j) <==> i == j || ((i == 0 || i >= 20) && (j == 0 || j >= 20))
  {
    assert forall k | 0 <= k < 20 :: REAL_BANKS[k] == (k / 8, k % 8);
    assert forall k | 20 <= k < 40 :: REAL_BANKS[k] == (0, 0);
  }

  /** Whether one of the first twenty outputs is on, in numbers: a binary digit of one of the three bytes. */
  lemma OnIsADigit(regs: B.Registers, index: int)
    requires 0 <= index < 20
    ensures var adr: bv32 := if index < 8 then 0x10300 else if index < 16 then 0x10301 else 0x10302;
            IsOn(regs, index) <==> B.Reg(regs, adr) as int / B.Pow2(index % 8) % 2 == 1
  {
    FirstTwentyAt(index);
    B.BitIsDigit(B.Reg(regs, PortOf(index)), BitIndex(index));
  }

  // ---------- change_output ----------

  function Driven(regs: B.Registers, index: int, onoff: int): B.Registers
    requires IsIndex(index)
  {
    B.Write(regs, PortOf(index), B.SetBit(B.Reg(regs, PortOf(index)), BitIndex(index), onoff == 1))
  }

  /** One command sets its own bit and leaves every other bit, of every register, as it is. */
  lemma DriveExact(regs: B.Registers, index: int, onoff: int, j: int)
    requires IsIndex(index) && IsIndex(j)
    ensures IsOn(Driven(regs, index, onoff), j) <==> if SharesBit(index, j) then onoff == 1 else IsOn(regs, j)
  {
    var was := B.Reg(regs, PortOf(index));
    B.RegAfter(regs, PortOf(index), B.SetBit(was, BitIndex(index), onoff == 1), PortOf(j));
    B.SetBitExact(was, BitIndex(index), onoff == 1, BitIndex(j));
  }

  /** Ports A, B and C are the bytes at 0x10300, 0x10301 and 0x10302; the first twenty outputs are their binary digits, eight a
      port. */
  ghost predicate InItsPlace(before: B.Registers, after: B.Registers, index: int, digit: nat) {
    && (0 <= index < 8 ==> B.OneDigitWritten(before, after, 0x10300, index, digit))
    && (8 <= index < 16 ==> B.OneDigitWritten(before, after, 0x10301, index - 8, digit))
    && (16 <= index < 20 ==> B.OneDigitWritten(before, after, 0x10302, index - 16, digit))
  }

  lemma DrivenAt(regs: B.Registers, index: int, onoff: int, adr: bv32, bit: nat)
    requires IsIndex(index) && PortOf(index) == adr && BitIndex(index) == bit < 8
    ensures B.OneDigitWritten(regs, Driven(regs, index, onoff), adr, bit, if onoff == 1 then 1 else 0)
  {
    B.WriteBit(regs, adr, bit, onoff == 1);
  }

  lemma DrivenDigits(regs: B.Registers, index: int, onoff: int)
    requires IsIndex(index)
    ensures InItsPlace(regs, Driven(regs, index, onoff), index, if onoff == 1 then 1 else 0)
  {
    if index < 8 {
      FirstTwentyAt(index);
      DrivenAt(regs, index, onoff, 0x10300, index);
    } else if index < 16 {
      FirstTwentyAt(index);
      DrivenAt(regs, index, onoff, 0x10301, index - 8);
    } else if index < 20 {
      FirstTwentyAt(index);
      DrivenAt(regs, index, onoff, 0x10302, index - 16);
    }
  }

  datatype Drive = Drive(index: int, onoff: int)

  function DrivenAll(regs: B.Registers, commands: seq<Drive>): B.Registers
    requires forall k | 0 <= k < |commands| :: IsIndex(commands[k].index)
  {
    if commands == [] then regs
    else
      var n := |commands| - 1;
      Driven(DrivenAll(regs, commands[..n]), commands[n].index, commands[n].onoff)
  }

  /** Port refinement: after any sequence of change_output calls an output is on exactly when the last command for its bit
      said 1, and as it was if there was none. */
  lemma {:induction false} LastCommandWins(regs: B.Registers, commands: seq<Drive>, j: int, k: int)
    requires forall i | 0 <= i < |commands| :: IsIndex(commands[i].index)
    requires IsIndex(j) && -1 <= k < |commands|
    requires k >= 0 ==> SharesBit(commands[k].index, j)
    requires forall i | k < i < |commands| :: !SharesBit(commands[i].index, j)
    ensures IsOn(DrivenAll(regs, commands), j) <==> if k >= 0 then commands[k].onoff == 1 else IsOn(regs, j)
  {
    if commands != [] {
      var n := |commands| - 1;
      DriveExact(DrivenAll(regs, commands[..n]), commands[n].index, commands[n].onoff, j);
      if k < n {
        LastCommandWins(regs, commands[..n], j, k);
      }
    }
  }

  // ---------- set_output ----------

  /** Every record's port is one that real_banks has an entry for. */
  predicate Wired(m: map<int, Output>) {
    forall k | k in m :: IsIndex(m[k].port)
  }

  datatype Board = Board(records: map<int, Output>, regs: B.Registers)

  /** The record after set_output, and whether the port is driven and the record inserted under its port. */
  function Updated(d: Output, onoff: int): (Output, bool) {
    match d.kind
    case 0 => (d.(onoff := onoff), true)
    case 1 =>
      if d.reset == 0 then (d.(reset := 1, onoff := L.Flip(d.onoff)), true)
      else if d.reset == 1 then (d.(reset := 0), false)
      else (d, false)
    case 2 => if d.reset == 0 then (d.(reset := 1, timeLeft := d.timeDelay, onoff := 1), true) else (d, false)
    case 3 => if d.reset == 0 then (d.(reset := 1, timeLeft := d.timeDelay, onoff := 1), true) else (d, false)
    case 4 =>
      if d.reset == 0 then (d.(reset := 1, onoff := 0), true)
      else if d.reset == 1 then (d.(reset := 3), false)
      else (d, false)
    case _ => (d, false)
  }

  /** set_output on the record that ollist_find_data found at an index. The record is changed in place, and where the port is
      driven it is also inserted under its port number. */
  function SetOutputOf(b: Board, key: int, onoff: int): (b': Board)
    requires key in b.records && IsIndex(b.records[key].port)
    ensures b.records.Keys <= b'.records.Keys && (Wired(b.records) ==> Wired(b'.records))
  {
    var (d, driven) := Updated(b.records[key], onoff);
    if driven then Board(b.records[key := d][d.port := d], Driven(b.regs, d.port, d.onoff))
    else b.(records := b.records[key := d])
  }

  class Controller {
    const bus: B.Nbus
    const oll: L.OutputList

    ghost predicate Valid()
      reads oll
    {
      oll.Valid()
    }

    ghost function Model(): Board
      requires Valid()
      reads oll, bus
    {
      Board(oll.Map(), bus.regs)
    }

    constructor ()
      ensures Valid() && Model() == Board(map[], map[]) && !bus.locked && fresh(bus) && fresh(oll)
    {
      bus := new B.Nbus();
      oll := new L.OutputList();
    }

    /** change_output. */
    method ChangeOutput(index: int, onoff: int)
      requires IsIndex(index)
      modifies bus
      ensures bus.regs == Driven(old(bus.regs), index, onoff) && !bus.locked
      ensures InItsPlace(old(bus.regs), bus.regs, index, if onoff == 1 then 1 else 0)
    {
      var (bank, bit) := REAL_BANKS[index];
      BitIndexOf(index);
      DrivenDigits(bus.regs, index, onoff);
      if bank == 0 {
        bus.OutPort(0x10300, onoff, bit);
      } else if bank == 1 {
        bus.OutPort(0x10301, onoff, bit);
      } else if bank == 2 {
        bus.OutPort(0x10302, onoff, bit);
      }
    }

    /** set_output; `block` is the address malloc returns if the insertion has to make a node. */
    method SetOutput(key: int, onoff: int, block: nat)
      requires Valid() && key in oll.Map() && IsIndex(oll.Map()[key].port)
      requires block != NULL && block !in oll.mem
      modifies oll, bus
      ensures Valid() && Model() == SetOutputOf(old(Model()), key, onoff)
    {
      var found := oll.Find(key);
      var otp := found.value;
      match otp.kind {
        case 0 =>
          otp := otp.(onoff := onoff);
          Commit(key, otp, block);
        case 1 =>
          if otp.reset == 0 {
            otp := otp.(reset := 1, onoff := L.Flip(otp.onoff));
            Commit(key, otp, block);
          } else if otp.reset == 1 {
            oll.Overwrite(key, otp.(reset := 0));
          }
        case 2 =>
          Delayed(key, otp, block);
        case 3 =>
          Delayed(key, otp, block);
        case 4 =>
          if otp.reset == 0 {
            otp := otp.(reset := 1, onoff := 0);
            Commit(key, otp, block);
          } else if otp.reset == 1 {
            oll.Overwrite(key, otp.(reset := 3));
          }
        case _ =>
      }
      assert Model().records == SetOutputOf(old(Model()), key, onoff).records;
    }

    /** The types 2 and 3 of set_output. */
    method Delayed(key: int, otp: Output, block: nat)
      requires Valid() && key in oll.Map() && oll.Map()[key] == otp && IsIndex(otp.port)
      requires block != NULL && block !in oll.mem
      modifies oll, bus
      ensures Valid()
      ensures var d := otp.(reset := 1, timeLeft := otp.timeDelay, onoff := 1);
              Model() == if otp.reset == 0 then Board(old(oll.Map())[key := d][d.port := d], Driven(old(bus.regs), d.port, 1))
                         else old(Model())
    {
      if otp.reset == 0 {
        Commit(key, otp.(reset := 1, timeLeft := otp.timeDelay, onoff := 1), block);
      }
    }

    /** The fields are written through the pointer into the list, the port is driven, and the record is inserted. */
    method Commit(key: int, otp: Output, block: nat)
      requires Valid() && key in oll.Map() && IsIndex(otp.port)
      requires block != NULL && block !in oll.mem
      modifies oll, bus
      ensures Valid()
      ensures Model() == Board(old(oll.Map())[key := otp][otp.port := otp], Driven(old(bus.regs), otp.port, otp.onoff))
    {
      oll.Overwrite(key, otp);
      ChangeOutput(otp.port, otp.onoff);
      oll.Insert(otp.port, otp, block);
    }
  }

  lemma BitIndexOf(index: int)
    requires IsIndex(index)
    ensures REAL_BANKS[index].0 <= 2 && REAL_BANKS[index].1 == BitIndex(index)
  {
  }

  // ---------- Coherence ----------

  /** Every record says 1 exactly when the bit of its port is set. */
  predicate Coherent(b: Board)
    requires Wired(b.records)
  {
    forall k | k in b.records :: b.records[k].onoff == 1 <==> IsOn(b.regs, b.records[k].port)
  }

  /** What one call leaves: the record at the key, its copy under its port, everything else, and every bit. */
  lemma CallEffect(b: Board, key: int, onoff: int, j: int)
    requires Wired(b.records) && key in b.records
    ensures var (d, driven) := Updated(b.records[key], onoff);
            var b' := SetOutputOf(b, key, onoff);
            && d.port == b.records[key].port
            && (j in b'.records <==> j in b.records || (driven && j == d.port))
            && (j in b'.records ==> b'.records[j] == if j == key || (driven && j == d.port) then d else b.records[j])
            && (!driven ==> d.onoff == b.records[key].onoff)
            && (IsIndex(j) ==> IsOn(b'.regs, j) == if driven && SharesBit(d.port, j) then d.onoff == 1 else IsOn(b.regs, j))
  {
    var (d, driven) := Updated(b.records[key], onoff);
    if driven && IsIndex(j) {
      DriveExact(b.regs, d.port, d.onoff, j);
    }
  }

  /** One call keeps coherence exactly when it drives nothing or every other record on the bit, but the one its copy replaces,
      already has the new state. */
  lemma SharedBitCoherentIff(b: Board, key: int, onoff: int)
    requires Wired(b.records) && Coherent(b) && key in b.records
    ensures var (d, driven) := Updated(b.records[key], onoff);
            Coherent(SetOutputOf(b, key, onoff)) <==>
            forall j | driven && j in b.records && j != key && j != d.port && SharesBit(d.port, b.records[j].port) ::
              b.records[j].onoff == 1 <==> d.onoff == 1
  {
    var b' := SetOutputOf(b, key, onoff);
    forall j | j in b'.records
      ensures Told(b, key, onoff, j) <==> (b'.records[j].onoff == 1 <==> IsOn(b'.regs, b'.records[j].port))
    {
      TellsTruthIff(b, key, onoff, j);
    }
    if Coherent(b') {
      forall j | j in b.records
        ensures Told(b, key, onoff, j)
      {
        assert j in b'.records;
      }
    }
  }

  /** Record j needs no change after the call, or has the new state. */
  predicate Told(b: Board, key: int, onoff: int, j: int)
    requires Wired(b.records) && key in b.records
  {
    var (d, driven) := Updated(b.records[key], onoff);
    driven && j in b.records && j != key && j != d.port && SharesBit(d.port, b.records[j].port) ==>
      (b.records[j].onoff == 1 <==> d.onoff == 1)
  }

  lemma TellsTruthIff(b: Board, key: int, onoff: int, j: int)
    requires Wired(b.records) && Coherent(b) && key in b.records && j in SetOutputOf(b, key, onoff).records
    ensures var b' := SetOutputOf(b, key, onoff);
            Told(b, key, onoff, j) <==> (b'.records[j].onoff == 1 <==> IsOn(b'.regs, b'.records[j].port))
  {
    CallEffect(b, key, onoff, j);
    CallEffect(b, key, onoff, SetOutputOf(b, key, onoff).records[j].port);
  }

  // ---------- Which lists are always coherent ----------

  datatype Call = Call(key: int, onoff: int)

  predicate CanCall(b: Board, calls: seq<Call>)
    requires Wired(b.records)
    decreases |calls|
  {
    calls == [] || (calls[0].key in b.records && CanCall(SetOutputOf(b, calls[0].key, calls[0].onoff), calls[1..]))
  }

  /** The board after a sequence of set_output calls on outputs that are in the list by then. */
  function SetAll(b: Board, calls: seq<Call>): (b': Board)
    requires Wired(b.records) && CanCall(b, calls)
    ensures Wired(b'.records)
    decreases |calls|
  {
    if calls == [] then b else SetAll(SetOutputOf(b, calls[0].key, calls[0].onoff), calls[1..])
  }

  ghost predicate AlwaysCoherent(b: Board)
    requires Wired(b.records)
  {
    forall calls | CanCall(b, calls) :: Coherent(SetAll(b, calls))
  }

  /** Calls can drive this output to either state, for ever. */
  predicate Mobile(d: Output) {
    d.kind == 0 || (d.kind == 1 && 0 <= d.reset <= 1)
  }

  predicate Drivable(d: Output) {
    Mobile(d) || (2 <= d.kind <= 4 && d.reset == 0)
  }

  /** Some call, or two, drives it to the state it is not in. */
  predicate CanFlip(d: Output) {
    Mobile(d) || (Drivable(d) && (d.kind == 4 <==> d.onoff == 1))
  }

  /** When output k flips, record j on its bit goes along: the copy of k replaces it, and no copy of j is left elsewhere. */
  predicate Yields(m: map<int, Output>, k: int, j: int)
    requires k in m && j in m
  {
    j == m[k].port && (Drivable(m[j]) ==> m[j].port == j || m[j].port == k)
  }

  /** An output that can flip is under its own port if it can flip again, and every other record on its bit yields. */
  ghost predicate SteadyAt(m: map<int, Output>, k: int)
    requires Wired(m) && k in m
  {
    CanFlip(m[k]) ==>
      && (Mobile(m[k]) ==> m[k].port == k)
      && forall j | j in m && j != k && SharesBit(m[k].port, m[j].port) :: Yields(m, k, j)
  }

  ghost predicate Steady(m: map<int, Output>)
    requires Wired(m)
  {
    forall k | k in m :: SteadyAt(m, k)
  }

  lemma StaysSteadyAt(b: Board, key: int, onoff: int, k: int)
    requires Wired(b.records) && Steady(b.records) && key in b.records
    requires k in SetOutputOf(b, key, onoff).records
    ensures SteadyAt(SetOutputOf(b, key, onoff).records, k)
  {
    var m, m' := b.records, SetOutputOf(b, key, onoff).records;
    var (d, driven) := Updated(m[key], onoff);
    CallEffect(b, key, onoff, k);
    assert SteadyAt(m, key);
    if k in m {
      assert SteadyAt(m, k);
    }
    if CanFlip(m'[k]) {
      forall j | j in m' && j != k && SharesBit(m'[k].port, m'[j].port)
        ensures Yields(m', k, j)
      {
        CallEffect(b, key, onoff, j);
        if j in m {
          assert SteadyAt(m, j);
        }
      }
    }
  }

  lemma SetOutputKeepsCoherent(b: Board, key: int, onoff: int)
    requires Wired(b.records) && Coherent(b) && Steady(b.records) && key in b.records
    ensures var b' := SetOutputOf(b, key, onoff); Coherent(b') && Steady(b'.records)
  {
    var b' := SetOutputOf(b, key, onoff);
    forall k | k in b'.records
      ensures SteadyAt(b'.records, k)
    {
      StaysSteadyAt(b, key, onoff, k);
    }
    assert SteadyAt(b.records, key);
    SharedBitCoherentIff(b, key, onoff);
  }

  lemma {:induction false} SteadyStaysCoherent(b: Board, calls: seq<Call>)
    requires Wired(b.records) && Coherent(b) && Steady(b.records) && CanCall(b, calls)
    ensures Coherent(SetAll(b, calls))
    decreases |calls|
  {
    if calls != [] {
      SetOutputKeepsCoherent(b, calls[0].key, calls[0].onoff);
      SteadyStaysCoherent(SetOutputOf(b, calls[0].key, calls[0].onoff), calls[1..]);
    }
  }

  lemma AlwaysNow(b: Board)
    requires Wired(b.records) && AlwaysCoherent(b)
    ensures Coherent(b)
  {
    assert CanCall(b, []) && SetAll(b, []) == b;
  }

  lemma AlwaysLater(b: Board, key: int, onoff: int)
    requires Wired(b.records) && AlwaysCoherent(b) && key in b.records
    ensures AlwaysCoherent(SetOutputOf(b, key, onoff))
  {
    var b' := SetOutputOf(b, key, onoff);
    forall calls | CanCall(b', calls)
      ensures Coherent(SetAll(b', calls))
    {
      var all := [Call(key, onoff)] + calls;
      assert all[1..] == calls;
      assert CanCall(b, all) && SetAll(b, all) == SetAll(b', calls);
    }
  }

  /** Calls that flip an output: one, or two for a type 1 output whose button is still down. */
  lemma Flipped(b: Board, k: int) returns (b': Board, d: Output)
    requires Wired(b.records) && AlwaysCoherent(b) && k in b.records && CanFlip(b.records[k])
    ensures Wired(b'.records) && AlwaysCoherent(b')
    ensures b'.records == b.records[k := d][d.port := d] && d.port == b.records[k].port
    ensures (d.onoff == 1 <==> b.records[k].onoff != 1) && (Mobile(b.records[k]) ==> Mobile(d))
  {
    var was := b.records[k];
    if was.kind == 1 && was.reset == 1 {
      AlwaysLater(b, k, 0);
      var b1 := SetOutputOf(b, k, 0);
      AlwaysLater(b1, k, 0);
      b', d := SetOutputOf(b1, k, 0), Updated(b1.records[k], 0).0;
    } else {
      var v := if was.onoff == 1 then 0 else 1;
      AlwaysLater(b, k, v);
      b', d := SetOutputOf(b, k, v), Updated(was, v).0;
    }
  }

  /** An output that can flip leaves behind any record on its bit that its copy does not replace. */
  lemma LeftBehind(b: Board, k: int, j: int)
    requires Wired(b.records) && AlwaysCoherent(b) && k in b.records && CanFlip(b.records[k])
    requires j in b.records && SharesBit(b.records[k].port, b.records[j].port)
    ensures j == k || j == b.records[k].port
  {
    AlwaysNow(b);
    var b', d := Flipped(b, k);
    assert b'.records[k] == d && (j != k && j != d.port ==> b'.records[j] == b.records[j]);
    AlwaysNow(b');
  }

  lemma AlwaysIsSteadyAt(b: Board, k: int)
    requires Wired(b.records) && AlwaysCoherent(b) && k in b.records
    ensures SteadyAt(b.records, k)
  {
    var m := b.records;
    if CanFlip(m[k]) {
      if Mobile(m[k]) && m[k].port != k {
        var b', d := Flipped(b, k);
        LeftBehind(b', d.port, k);
      }
      forall j | j in m && j != k && SharesBit(m[k].port, m[j].port)
        ensures Yields(m, k, j)
      {
        LeftBehind(b, k, j);
        if Drivable(m[j]) {
          if CanFlip(m[j]) {
            LeftBehind(b, j, k);
          } else if m[j].port != j && m[j].port != k {
            AlwaysLater(b, j, 0);
            LeftBehind(SetOutputOf(b, j, 0), k, m[j].port);
          }
        }
      }
    }
  }

  /** Output coherence, exactly: a board is coherent after every sequence of set_output calls, on outputs of any type with any
      values, if and only if it is coherent now and steady. */
  lemma OutputsStayCoherent(b: Board)
    requires Wired(b.records)
    ensures AlwaysCoherent(b) <==> Coherent(b) && Steady(b.records)
  {
    if AlwaysCoherent(b) {
      AlwaysNow(b);
      forall k | k in b.records
        ensures SteadyAt(b.records, k)
      {
        AlwaysIsSteadyAt(b, k);
      }
    } else if Coherent(b) && Steady(b.records) {
      var calls :| CanCall(b, calls) && !Coherent(SetAll(b, calls));
      SteadyStaysCoherent(b, calls);
    }
  }

  // ---------- What that means for particular lists ----------

  /** Every output is listed under its own port number. */
  predicate Listed(m: map<int, Output>) {
    forall k | k in m :: m[k].port == k
  }

  /** Where every output is under its own port, steady means that no output that can flip shares its bit with another. */
  lemma ListedSteadyIff(m: map<int, Output>)
    requires Wired(m) && Listed(m)
    ensures Steady(m) <==> forall k, j | k in m && j in m && j != k && CanFlip(m[k]) :: !SharesBit(k, j)
  {
    if Steady(m) {
      forall k, j | k in m && j in m && j != k && CanFlip(m[k])
        ensures !SharesBit(k, j)
      {
        assert SteadyAt(m, k);
        assert SharesBit(k, j) ==> Yields(m, k, j);
      }
    }
  }

  /** Ordinary switches and toggles are steady exactly when each is under its own port and at most one of output 0 and the
      outputs from 20 on is listed. */
  lemma MobileSteadyIff(m: map<int, Output>)
    requires Wired(m) && forall k | k in m :: Mobile(m[k])
    ensures Steady(m) <==>
            Listed(m) && forall k, j | k in m && j in m && j != k :: !((k == 0 || k >= 20) && (j == 0 || j >= 20))
  {
    forall k | k in m && Steady(m)
      ensures m[k].port == k
    {
      assert SteadyAt(m, k);
    }
    if Listed(m) {
      ListedSteadyIff(m);
      forall k, j | k in m && j in m
        ensures SharesBit(k, j) <==> k == j || ((k == 0 || k >= 20) && (j == 0 || j >= 20))
      {
        SharesBitIff(k, j);
      }
    }
  }

  /** Twenty outputs of any type, each under its own port, are steady. */
  lemma FirstTwentySteady(m: map<int, Output>)
    requires Wired(m) && Listed(m) && forall k | k in m :: k < 20
    ensures Steady(m)
  {
    ListedSteadyIff(m);
    forall k, j | k in m && j in m && j != k
      ensures !SharesBit(k, j)
    {
      SharesBitIff(k, j);
    }
  }

  /** But the file that the list is loaded from may hold any port in any record: two records with port 7, at 3 and at 7, are
      coherent and steady no more after two calls. */
  lemma StrayPortFails(d: Output, e: Output)
    requires d.kind == e.kind == 0 && d.port == e.port == 7 && d.onoff == e.onoff == 0
    ensures var b := Board(map[3 := d, 7 := e], map[]);
            var calls := [Call(3, 1), Call(7, 0)];
            && Wired(b.records) && Coherent(b) && CanCall(b, calls)
            && !Coherent(SetAll(b, calls)) && !Steady(b.records)
  {
    var b := Board(map[3 := d, 7 := e], map[]);
    var calls := [Call(3, 1), Call(7, 0)];
    var b1 := SetOutputOf(b, 3, 1);
    var b2 := SetOutputOf(b1, 7, 0);
    assert calls[1..] == [Call(7, 0)] && calls[1..][1..] == [];
    assert CanCall(b2, []) && CanCall(b1, calls[1..]) && SetAll(b1, calls[1..]) == b2;
    CallEffect(b1, 7, 0, 7);
    CallEffect(b1, 7, 0, 3);
    assert !SteadyAt(b.records, 3);
  }

  // ---------- What a number of calls comes to ----------

  /** The record after set_output calls with these values. */
  function Pressed(d: Output, values: seq<int>): Output {
    if values == [] then d
    else var n := |values| - 1; Updated(Pressed(d, values[..n]), values[n]).0
  }

  function Toggled(onoff: int, k: nat): int {
    if k == 0 then onoff else L.Flip(Toggled(onoff, k - 1))
  }

  lemma {:induction false} ToggledParity(onoff: int, k: nat)
    ensures Toggled(onoff, k) == if k == 0 then onoff else ((if onoff == 1 then 1 else 0) + k) % 2
  {
    if k > 0 {
      ToggledParity(onoff, k - 1);
    }
  }

  /** A type 1 output called k times from reset 0 has toggled ceil(k / 2) times, whatever values the calls carry: each toggle
      makes a 1 a 0 and anything else a 1. */
  lemma {:induction false} ToggleEverySecondCall(d: Output, values: seq<int>)
    requires d.kind == 1 && d.reset == 0
    ensures var k := |values|;
            Pressed(d, values) == d.(onoff := Toggled(d.onoff, (k + 1) / 2), reset := k % 2)
    ensures 0 <= d.onoff <= 1 ==> Pressed(d, values).onoff == (d.onoff + (|values| + 1) / 2) % 2
    ensures values != [] ==> Pressed(d, values).onoff == ((if d.onoff == 1 then 1 else 0) + (|values| + 1) / 2) % 2
  {
    if values != [] {
      ToggleEverySecondCall(d, values[..|values| - 1]);
    }
    ToggledParity(d.onoff, (|values| + 1) / 2);
  }

  /** What any number of calls comes to for the other types, from reset 0: type 0 follows the last value; types 2 and 3 switch
      on and load their timer at the first call and are deaf from then on; type 4 switches off and is deaf from the
      second call on; there are no other types. */
  lemma {:induction false} CallsComeTo(d: Output, values: seq<int>)
    requires d.kind != 1 && d.reset == 0 && values != []
    ensures Pressed(d, values) ==
            if d.kind == 0 then d.(onoff := values[|values| - 1])
            else if d.kind == 2 || d.kind == 3 then d.(reset := 1, timeLeft := d.timeDelay, onoff := 1)
            else if d.kind == 4 then d.(reset := if |values| == 1 then 1 else 3, onoff := 0)
            else d
  {
    if |values| > 1 {
      CallsComeTo(d, values[..|values| - 1]);
    } else {
      assert Pressed(d, values[..0]) == d;
    }
  }

  lemma {:induction false} PressedFront(d: Output, v: int, values: seq<int>)
    ensures Pressed(d, [v] + values) == Pressed(Updated(d, v).0, values)
    decreases |values|
  {
    var all := [v] + values;
    if values == [] {
      assert all[..0] == [];
    } else {
      PressedFront(d, v, values[..|values| - 1]);
      assert all[..|values|] == [v] + values[..|values| - 1];
    }
  }

  /** The values of the calls on one output, in order. */
  function ValuesFor(calls: seq<Call>, key: int): seq<int> {
    if calls == [] then []
    else (if calls[0].key == key then [calls[0].onoff] else []) + ValuesFor(calls[1..], key)
  }

  /** Among any other calls on the board, an output's record is what its own calls have made of it, as long as no other record
      has that output for its port. */
  lemma {:induction false} RecordIsPressed(b: Board, calls: seq<Call>, key: int)
    requires Wired(b.records) && CanCall(b, calls) && key in b.records
    requires forall j | j in b.records && j != key :: b.records[j].port != key
    ensures var m := SetAll(b, calls).records;
            key in m && m[key] == Pressed(b.records[key], ValuesFor(calls, key))
    decreases |calls|
  {
    if calls != [] {
      var b' := SetOutputOf(b, calls[0].key, calls[0].onoff);
      forall j | j in b'.records && j != key
        ensures b'.records[j].port != key
      {
        CallEffect(b, calls[0].key, calls[0].onoff, j);
      }
      CallEffect(b, calls[0].key, calls[0].onoff, key);
      RecordIsPressed(b', calls[1..], key);
      if calls[0].key == key {
        PressedFront(b.records[key], calls[0].onoff, ValuesFor(calls[1..], key));
      } else {
        assert [] + ValuesFor(calls[1..], key) == ValuesFor(calls[1..], key);
      }
    }
  }
}
