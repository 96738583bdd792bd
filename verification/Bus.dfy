/** The register window of client/nbus.c and the output ports of client/ioports.c.

    The two 16-bit accesses nbus_poke16 and nbus_peek16 are register writes and reads here, with the locking that the
    source wraps around them. Behind them sits a window: MW_ADR and MW_CONF latch an address and a mode, and in the
    8-bit mode MW_DAT1 reads and writes the byte at that address. Sixteen-bit values are bv32 values here. */
module Bus {
  const MW_ADR: bv8 := 0x70
  const MW_CONF: bv8 := 0x72
  const MW_DAT1: bv8 := 0x74

  /** An address behind the window. */
  datatype Address = Address(bits: bv32)

  type Registers = map<Address, bv8>

  /** A register nobody has written yet reads as zero. */
  function Reg(regs: Registers, adr: bv32): bv8 {
    if Address(adr) in regs then regs[Address(adr)] else 0
  }

  function Write(regs: Registers, adr: bv32, v: bv8): Registers {
    regs[Address(adr) := v]
  }

  lemma RegAfter(regs: Registers, written: bv32, v: bv8, read: bv32)
    ensures Reg(Write(regs, written, v), read) == if read == written then v else Reg(regs, read)
  {
  }

  // ---------- The split address ----------

  /** What goes into MW_ADR: adr >> 11, cut to 16 bits. */
  function High(adr: bv32): bv32 {
    (adr >> 11) & 0xffff
  }

  /** What goes into MW_CONF: the low 11 bits and the 8-bit mode. */
  function Conf(adr: bv32): bv32 {
    (adr & 0x7ff) | (0x18 << 11)
  }

  predicate ByteMode(conf: bv32) {
    conf >> 11 == 0x18
  }

  /** The address the window stands at. */
  function Window(high: bv32, conf: bv32): bv32 {
    (high << 11) | (conf & 0x7ff)
  }

  /** The two parts recombine to the lower 27 bits of the address, so to the address itself exactly below 2^27. */
  lemma WindowRecombines(adr: bv32)
    ensures ByteMode(Conf(adr))
    ensures Window(High(adr), Conf(adr)) == adr & 0x07ff_ffff
    ensures Window(High(adr), Conf(adr)) == adr <==> adr < 0x0800_0000
  {
    MaskExact(adr);
  }

  /** The split in numbers: bits 11 to 26 of the address, and its lower 11 bits with the mode 0x18 above them. */
  lemma SplitExact(adr: bv32)
    ensures High(adr) == adr / 0x800 % 0x1_0000 && Conf(adr) == adr % 0x800 + 0xC000
  {
  }

  lemma MaskExact(adr: bv32)
    ensures adr & 0x07ff_ffff == adr <==> adr < 0x0800_0000
  {
  }

  // ---------- The bus as one process uses it ----------

  /** What happens on the bus: the semaphore taken and given back, and the accesses. */
  datatype Event = Lock | Unlock | Poke(adr: bv8, dat: bv32) | Peek(adr: bv8)

  /** Accesses inside one critical section: nobody else gets the bus in between. */
  predicate Uninterrupted(events: seq<Event>) {
    forall i | 0 <= i < |events| :: !events[i].Lock? && !events[i].Unlock?
  }

  /** The events of setting up the window for an address. */
  function Aim(adr: bv32): seq<Event> {
    [Poke(MW_ADR, High(adr)), Poke(MW_CONF, Conf(adr))]
  }

  /** The accesses of one read-modify-write. */
  function ReadModifyWrite(adr: bv32, dat: bv8): seq<Event> {
    Aim(adr) + [Peek(MW_DAT1)] + (Aim(adr) + [Poke(MW_DAT1, dat as bv32)])
  }

  lemma ReadModifyWriteUninterrupted(adr: bv32, dat: bv8)
    ensures Uninterrupted(ReadModifyWrite(adr, dat))
  {
  }

  lemma Regroup(a: seq<Event>, b: seq<Event>, c: seq<Event>)
    ensures (a + b) + c == a + (b + c)
  {
  }

  function Locked(inside: bool, events: seq<Event>): seq<Event> {
    if inside then events else [Lock] + events + [Unlock]
  }

  class Nbus {
    var locked: bool     // nbuslocked
    var high: bv32       // MW_ADR
    var conf: bv32       // MW_CONF
    var regs: Registers
    ghost var trace: seq<Event>

    constructor ()
      ensures !locked && regs == map[] && trace == []
    {
      locked, high, conf, regs, trace := false, 0, 0, map[], [];
    }

    /** nbuslock: nothing happens if this process already has the bus. */
    method TakeLock()
      modifies `locked, `trace
      ensures locked && trace == old(trace) + if old(locked) then [] else [Lock]
    {
      if locked {
        return;
      }
      trace := trace + [Lock];
      locked := true;
    }

    /** nbusunlock. */
    method GiveLock()
      modifies `locked, `trace
      ensures !locked && trace == old(trace) + if old(locked) then [Unlock] else []
    {
      if locked {
        trace := trace + [Unlock];
        locked := false;
      }
    }

    /** nbus_poke16. */
    method Poke16(adr: bv8, dat: bv32)
      modifies this
      ensures locked == old(locked)
      ensures trace == old(trace) + Locked(old(locked), [Poke(adr, dat)])
      ensures high == if adr == MW_ADR then dat else old(high)
      ensures conf == if adr == MW_CONF then dat else old(conf)
      ensures regs == if adr == MW_DAT1 && ByteMode(old(conf)) then Write(old(regs), Window(old(high), old(conf)), (dat & 0xff) as bv8)
                      else old(regs)
    {
      var didLock := !locked;
      if didLock {
        TakeLock();
      }
      trace := trace + [Poke(adr, dat)];
      if adr == MW_ADR {
        high := dat;
      } else if adr == MW_CONF {
        conf := dat;
      } else if adr == MW_DAT1 && ByteMode(conf) {
        regs := Write(regs, Window(high, conf), (dat & 0xff) as bv8);
      }
      if didLock {
        GiveLock();
      }
    }

    /** nbus_peek16. What registers other than the window's data in 8-bit mode hold is not part of this model. */
    method Peek16(adr: bv8) returns (dat: bv32)
      modifies `locked, `trace
      ensures locked == old(locked)
      ensures trace == old(trace) + Locked(old(locked), [Peek(adr)])
      ensures adr == MW_DAT1 && ByteMode(conf) ==> dat == Reg(regs, Window(high, conf)) as bv32
    {
      var didLock := !locked;
      if didLock {
        TakeLock();
      }
      trace := trace + [Peek(adr)];
      dat := if adr == MW_DAT1 && ByteMode(conf) then Reg(regs, Window(high, conf)) as bv32 else 0;
      if didLock {
        GiveLock();
      }
    }

    /** winpoke8. */
    method WinPoke8(adr: bv32, dat: bv8)
      modifies this
      ensures locked == old(locked)
      ensures regs == Write(old(regs), adr & 0x07ff_ffff, dat)
      ensures trace == old(trace) + Locked(old(locked), Aim(adr) + [Poke(MW_DAT1, dat as bv32)])
    {
      WindowRecombines(adr);
      var didLock := !locked;
      if didLock {
        TakeLock();
      }
      Poke16(MW_ADR, High(adr));
      Poke16(MW_CONF, Conf(adr));
      Poke16(MW_DAT1, dat as bv32);
      if didLock {
        GiveLock();
      }
    }

    /** winpeek8. It gives the lock back before it reads: on its own it is two critical sections, not one. */
    method WinPeek8(adr: bv32) returns (dat: bv8)
      modifies this
      ensures locked == old(locked) && regs == old(regs)
      ensures dat == Reg(regs, adr & 0x07ff_ffff)
      ensures trace == old(trace) + Locked(old(locked), Aim(adr)) + Locked(old(locked), [Peek(MW_DAT1)])
      ensures old(locked) ==> trace == old(trace) + (Aim(adr) + [Peek(MW_DAT1)])
    {
      WindowRecombines(adr);
      var didLock := !locked;
      if didLock {
        TakeLock();
      }
      Poke16(MW_ADR, High(adr));
      Poke16(MW_CONF, Conf(adr));
      if didLock {
        GiveLock();
      }
      var r := Peek16(MW_DAT1);
      dat := (r & 0xff) as bv8;
    }

    /** The read-modify-write of a byte, inside the lock. */
    method Modify(adr: bv32, onoff: int, bit: nat) returns (ghost dat: bv8)
      requires bit < 8 && adr < 0x0800_0000 && locked
      modifies this
      ensures locked && dat == SetBit(Reg(old(regs), adr), bit, onoff == 1)
      ensures regs == Write(old(regs), adr, dat)
      ensures trace == old(trace) + ReadModifyWrite(adr, dat)
    {
      MaskExact(adr);
      var val := WinPeek8(adr);
      var changed := Changed(val, onoff, bit);
      WinPoke8(adr, changed);
      Regroup(old(trace), Aim(adr) + [Peek(MW_DAT1)], Aim(adr) + [Poke(MW_DAT1, changed as bv32)]);
      dat := changed;
    }

    /** OutPortA, OutPortB and OutPortC, told apart by the address of the port. */
    method OutPort(adr: bv32, onoff: int, bit: nat)
      requires bit < 8 && adr < 0x0800_0000
      modifies this
      ensures !locked
      ensures OneDigitWritten(old(regs), regs, adr, bit, if onoff == 1 then 1 else 0)
      ensures regs == Write(old(regs), adr, SetBit(Reg(old(regs), adr), bit, onoff == 1))
      ensures var events := ReadModifyWrite(adr, SetBit(Reg(old(regs), adr), bit, onoff == 1));
              trace == old(trace) + (if old(locked) then [] else [Lock]) + events + [Unlock] && Uninterrupted(events)
    {
      WriteBit(regs, adr, bit, onoff == 1);
      TakeLock();
      ghost var dat := Modify(adr, onoff, bit);
      ReadModifyWriteUninterrupted(adr, dat);
      GiveLock();
    }
  }

  // ---------- Bits ----------

  /** 1 << bit, as a byte. */
  function Mask(bit: nat): bv8
    requires bit < 8
  {
    match bit
    case 0 => 0x01
    case 1 => 0x02
    case 2 => 0x04
    case 3 => 0x08
    case 4 => 0x10
    case 5 => 0x20
    case 6 => 0x40
    case _ => 0x80
  }

  lemma MasksDisjoint(i: nat, j: nat)
    requires i < 8 && j < 8
    ensures Mask(i) != 0 && (i != j ==> Mask(i) & Mask(j) == 0)
  {
  }

  predicate BitOf(v: bv8, bit: nat)
    requires bit < 8
  {
    v & Mask(bit) != 0
  }

  function SetBit(v: bv8, bit: nat, on: bool): bv8
    requires bit < 8
  {
    if on then v | Mask(bit) else v & !Mask(bit)
  }

  /** The two branches of the ports' functions. */
  method Changed(val: bv8, onoff: int, bit: nat) returns (dat: bv8)
    requires bit < 8
    ensures dat == SetBit(val, bit, onoff == 1)
  {
    if onoff == 1 {
      dat := val | Mask(bit);
    } else {
      dat := val & !Mask(bit);
    }
  }

  /** Writing one bit leaves the other seven as they are. */
  lemma SetBitExact(v: bv8, i: nat, on: bool, j: nat)
    requires i < 8 && j < 8
    ensures BitOf(SetBit(v, i, on), j) <==> if i == j then on else BitOf(v, j)
  {
    MasksDisjoint(i, j);
    MaskedWrite(v, Mask(i), on, Mask(j));
  }

  lemma MaskedWrite(v: bv8, m: bv8, on: bool, n: bv8)
    requires m != 0 && (m == n || m & n == 0)
    ensures (if on then v | m else v & !m) & n != 0 <==> if m == n then on else v & n != 0
  {
    if m == n {
      SameBit(v, m);
    } else {
      OtherBit(v, m, n);
    }
  }

  lemma SameBit(v: bv8, m: bv8)
    requires m != 0
    ensures (v | m) & m != 0 && (v & !m) & m == 0
  {
  }

  lemma OtherBit(v: bv8, m: bv8, n: bv8)
    requires m & n == 0
    ensures (v | m) & n == v & n && (v & !m) & n == v & n
  {
  }

  // ---------- Bits as binary digits ----------

  function Pow2(n: nat): (p: nat)
    ensures p > 0
  {
    if n == 0 then 1 else 2 * Pow2(n - 1)
  }

  /** The binary digit of a byte's value at position i. */
  function Digit(v: bv8, i: nat): nat {
    v as int / Pow2(i) % 2
  }

  lemma BitByShift(v: bv8, i: nat)
    requires i < 8
    ensures BitOf(v, i) <==> (v >> i) % 2 == 1
  {
  }

  lemma Halved(v: bv8)
    ensures (v >> 1) as int == v as int / 2
  {
  }

  lemma ShiftOnce(v: bv8, i: nat)
    requires 0 < i < 8
    ensures v >> i == (v >> (i - 1)) >> 1
  {
  }

  lemma Multiples(d: nat, a: nat, b: nat)
    requires a <= b
    ensures d * a <= d * b
  {
  }

  lemma QuotientIs(x: nat, d: nat, q: nat, r: nat)
    requires d > 0 && x == d * q + r && r < d
    ensures x / d == q
  {
    var k := x / d;
    assert d * k + x % d == x;
    if k < q {
      Multiples(d, k + 1, q);
    } else if k > q {
      Multiples(d, q + 1, k);
    }
  }

  lemma DivideTwice(x: nat, p: nat)
    requires p > 0
    ensures x / p / 2 == x / (2 * p)
  {
    var q, r := x / p, x % p;
    var half, odd := q / 2, q % 2;
    assert p * q == p * (2 * half + odd);
    assert x == (2 * p) * half + (p * odd + r);
    QuotientIs(x, 2 * p, half, p * odd + r);
  }

  lemma {:induction false} ShiftDivides(v: bv8, i: nat)
    requires i < 8
    ensures (v >> i) as int == v as int / Pow2(i)
  {
    if i > 0 {
      ShiftDivides(v, i - 1);
      ShiftOnce(v, i);
      Halved(v >> (i - 1));
      DivideTwice(v as int, Pow2(i - 1));
    }
  }

  lemma Parity(v: bv8)
    ensures v as int % 2 == (v % 2) as int
  {
  }

  /** A bit is the binary digit of the byte's value. */
  lemma BitIsDigit(v: bv8, i: nat)
    requires i < 8
    ensures Digit(v, i) == if BitOf(v, i) then 1 else 0
  {
    BitByShift(v, i);
    ShiftDivides(v, i);
    Parity(v >> i);
  }

  /** In numbers: the digit written is 1 or 0 as asked, and the other seven are as they were. */
  lemma SetBitDigits(v: bv8, i: nat, on: bool, j: nat)
    requires i < 8 && j < 8
    ensures SetBit(v, i, on) as int / Pow2(j) % 2 ==
            if i != j then v as int / Pow2(j) % 2 else if on then 1 else 0
  {
    SetBitExact(v, i, on, j);
    BitIsDigit(SetBit(v, i, on), j);
    BitIsDigit(v, j);
  }

  /** What a write of one bit at an address has to come to, in numbers: the byte there has this digit and its other seven digits,
      and no other byte has changed. */
  ghost predicate OneDigitWritten(before: Registers, after: Registers, adr: bv32, bit: nat, digit: nat) {
    && Reg(after, adr) as int / Pow2(bit) % 2 == digit
    && (forall j: nat | j < 8 && j != bit :: Reg(after, adr) as int / Pow2(j) % 2 == Reg(before, adr) as int / Pow2(j) % 2)
    && (forall other | other != adr :: Reg(after, other) == Reg(before, other))
  }

  lemma WriteBit(before: Registers, adr: bv32, bit: nat, on: bool)
    requires bit < 8
    ensures OneDigitWritten(before, Write(before, adr, SetBit(Reg(before, adr), bit, on)), adr, bit, if on then 1 else 0)
  {
    var v := Reg(before, adr);
    var after := Write(before, adr, SetBit(v, bit, on));
    RegAfter(before, adr, SetBit(v, bit, on), adr);
    SetBitDigits(v, bit, on, bit);
    forall j: nat | j < 8 && j != bit
      ensures Reg(after, adr) as int / Pow2(j) % 2 == v as int / Pow2(j) % 2
    {
      SetBitDigits(v, bit, on, j);
    }
    forall other | other != adr
      ensures Reg(after, other) == Reg(before, other)
    {
      RegAfter(before, adr, SetBit(v, bit, on), other);
    }
  }
}
