/** The bytes of an ESP-NOW frame: example_espnow_data_prepare and example_espnow_data_parse of
    esp-idf/espnow/espnow_example_main.c, on the packed little-endian layout of example_espnow_data_t.

    The checksum esp_crc16_le is not part of this model: it is any function from bytes to 16 bits. */
module EspFrame {
  import opened Bytes

  type Checksum = seq<byte> -> u16

  /** sizeof(example_espnow_data_t): type, state, seq_num, crc, magic; the payload follows. */
  const HEADER := 10

  datatype Fields = Fields(kind: byte, state: byte, number: u16, magic: u32)

  function Le16(n: u16): seq<byte> {
    [n % 256, n / 256]
  }

  function Le32(n: u32): seq<byte> {
    Le16(n % 0x1_0000) + Le16(n / 0x1_0000)
  }

  function Join(low: byte, high: byte): u16 {
    (low as int) + 256 * (high as int)
  }

  function FromLe16(s: seq<byte>): u16
    requires |s| == 2
  {
    Join(s[0], s[1])
  }

  function FromLe32(s: seq<byte>): u32
    requires |s| == 4
  {
    (FromLe16(s[..2]) as int) + 0x1_0000 * (FromLe16(s[2..]) as int)
  }

  function Header(f: Fields, crc: u16): (h: seq<byte>)
    ensures |h| == HEADER
  {
    [f.kind, f.state] + Le16(f.number) + Le16(crc) + Le32(f.magic)
  }

  /** A finished frame: the checksum is taken over the whole frame with its own field zero. */
  function Sealed(f: Fields, payload: seq<byte>, checksum: Checksum): seq<byte> {
    Header(f, checksum(Header(f, 0) + payload)) + payload
  }

  /** The bytes with the checksum field cleared, as the parser leaves them. */
  function Cleared(data: seq<byte>): seq<byte>
    requires |data| >= HEADER
  {
    data[4 := 0][5 := 0]
  }

  datatype Parsed = Rejected | Accepted(f: Fields)

  function FieldsOf(data: seq<byte>): Fields
    requires |data| >= HEADER
  {
    Fields(data[0], data[1], FromLe16(data[2..4]), FromLe32(data[6..10]))
  }

  function ParseOf(data: seq<byte>, checksum: Checksum): Parsed {
    if |data| < HEADER || FromLe16(data[4..6]) != checksum(Cleared(data)) then Rejected
    else Accepted(FieldsOf(data))
  }

  // ---------- Round trips ----------

  lemma Le32RoundTrip(n: u32)
    ensures |Le32(n)| == 4 && FromLe32(Le32(n)) == n
  {
    assert Le32(n)[..2] == Le16(n % 0x1_0000);
    assert Le32(n)[2..] == Le16(n / 0x1_0000);
  }

  lemma HeaderRoundTrip(f: Fields, crc: u16, rest: seq<byte>)
    ensures var data := Header(f, crc) + rest;
            FieldsOf(data) == f && FromLe16(data[4..6]) == crc && Cleared(data) == Header(f, 0) + rest
  {
    var data := Header(f, crc) + rest;
    Le32RoundTrip(f.magic);
    assert data[2..4] == Le16(f.number);
    assert data[4..6] == Le16(crc);
    assert data[6..10] == Le32(f.magic);
  }

  /** Parsing a prepared frame gives back its type, state, sequence number and magic number, for every payload and
      every checksum function. */
  lemma FrameRoundTrip(f: Fields, payload: seq<byte>, checksum: Checksum)
    ensures ParseOf(Sealed(f, payload, checksum), checksum) == Accepted(f)
  {
    HeaderRoundTrip(f, checksum(Header(f, 0) + payload), payload);
  }

  /** The bytes of a frame in numbers: little-endian fields at fixed places, the checksum over the whole frame with its own field
      zero, the payload behind. */
  lemma SealedBytes(f: Fields, payload: seq<byte>, checksum: Checksum)
    ensures var s := Sealed(f, payload, checksum);
            && |s| == 10 + |payload| && s[0] == f.kind && s[1] == f.state
            && s[2] as int + 256 * s[3] as int == f.number
            && s[4] as int + 256 * s[5] as int == checksum(s[4 := 0][5 := 0])
            && s[6] as int + 256 * s[7] as int + 0x1_0000 * (s[8] as int + 256 * s[9] as int) == f.magic
            && s[10..] == payload
  {
    var crc := checksum(Header(f, 0) + payload);
    HeaderRoundTrip(f, crc, payload);
    MagicBytes(f, crc);
  }

  lemma MagicBytes(f: Fields, crc: u16)
    ensures var h := Header(f, crc);
            h[6] as int + 256 * h[7] as int + 0x1_0000 * (h[8] as int + 256 * h[9] as int) == f.magic
  {
    var low, high := f.magic % 0x1_0000, f.magic / 0x1_0000;
    assert low % 256 + 256 * (low / 256) == low;
    assert high % 256 + 256 * (high / 256) == high;
    assert f.magic == low + 0x1_0000 * high;
  }

  lemma Le16Join(low: byte, high: byte)
    ensures Le16(Join(low, high)) == [low, high]
  {
  }

  lemma Words(low: int, high: int)
    requires 0 <= low < 0x1_0000
    ensures (low + 0x1_0000 * high) % 0x1_0000 == low && (low + 0x1_0000 * high) / 0x1_0000 == high
  {
  }

  lemma Le32Join(a: byte, b: byte, c: byte, d: byte)
    ensures Le32(FromLe32([a, b, c, d])) == [a, b, c, d]
  {
    assert [a, b, c, d][..2] == [a, b] && [a, b, c, d][2..] == [c, d];
    Words(Join(a, b), Join(c, d));
    Le16Join(a, b);
    Le16Join(c, d);
  }

  lemma HeaderOf(data: seq<byte>)
    requires |data| >= HEADER
    ensures Header(FieldsOf(data), FromLe16(data[4..6])) == data[..HEADER]
  {
    assert data[2..4] == [data[2], data[3]] && data[4..6] == [data[4], data[5]];
    assert data[6..10] == [data[6], data[7], data[8], data[9]];
    Le16Join(data[2], data[3]);
    Le16Join(data[4], data[5]);
    Le32Join(data[6], data[7], data[8], data[9]);
  }

  /** Only prepared frames are accepted: whatever passes the parser is what preparing its fields and payload gives. */
  lemma AcceptedIsSealed(data: seq<byte>, checksum: Checksum)
    requires ParseOf(data, checksum).Accepted?
    ensures data == Sealed(FieldsOf(data), data[HEADER..], checksum)
  {
    var crc := FromLe16(data[4..6]);
    HeaderOf(data);
    assert data == Header(FieldsOf(data), crc) + data[HEADER..];
    HeaderRoundTrip(FieldsOf(data), crc, data[HEADER..]);
  }

  // ---------- The sender ----------

  /** The byte the source writes at payload position i when its static counter is j. */
  function Pattern(len: nat, j: nat): seq<byte> {
    seq(len, i requires 0 <= i < len => (i + 32 + j) % 256)
  }

  lemma PatternBytes(len: nat, j: nat, i: nat)
    requires i < len
    ensures |Pattern(len, j)| == len && Pattern(len, j)[i] == (i + 32 + j) % 256
  {
  }

  /** if(--j < 2) j = 30 */
  function NextShift(j: nat): nat {
    if j <= 2 then 30 else j - 1
  }

  function ShiftAfter(k: nat): nat {
    if k == 0 then 0 else NextShift(ShiftAfter(k - 1))
  }

  /** The counter behind the payload runs down from 30 to 2 and round again, 29 frames a round. */
  lemma {:induction false} ShiftCycles(k: nat)
    requires k > 0
    ensures ShiftAfter(k) == 30 - (k - 1) % 29
  {
    if k > 1 {
      ShiftCycles(k - 1);
      NextIn29(k - 2);
    }
  }

  lemma NextIn29(n: nat)
    ensures (n + 1) % 29 == if n % 29 == 28 then 0 else n % 29 + 1
  {
    var q, r := n / 29, n % 29;
    assert n + 1 == 29 * q + (r + 1);
  }

  /** The static state of the sender: a sequence number for each frame type, and the payload counter. */
  class Sender {
    var broadcastNumber: u16
    var unicastNumber: u16
    var shift: nat

    constructor ()
      ensures broadcastNumber == 0 && unicastNumber == 0 && shift == 0
    {
      broadcastNumber, unicastNumber, shift := 0, 0, 0;
    }

    /** example_espnow_data_prepare. The payload loop counts to len, not to len minus the header, so it writes
        HEADER bytes more than the frame has: the buffer has to be that much longer than the len bytes that
        example_espnow_init allocates. */
    method Prepare(buffer: array<byte>, len: nat, toAll: bool, state: byte, magic: u32, checksum: Checksum)
      requires HEADER <= len && len + HEADER <= buffer.Length
      modifies this, buffer
      ensures broadcastNumber == if toAll then NextNumber(old(broadcastNumber)) else old(broadcastNumber)
      ensures unicastNumber == if toAll then old(unicastNumber) else NextNumber(old(unicastNumber))
      ensures shift == NextShift(old(shift))
      ensures var f := Fields(if toAll then 0 else 1, state, if toAll then old(broadcastNumber) else old(unicastNumber), magic);
              var pattern := Pattern(len, old(shift));
              buffer[..] == Sealed(f, pattern[..len - HEADER], checksum) + pattern[len - HEADER..] + old(buffer[HEADER + len..])
    {
      var number;
      if toAll {
        number := broadcastNumber;
        broadcastNumber := NextNumber(number);
      } else {
        number := unicastNumber;
        unicastNumber := NextNumber(number);
      }
      ghost var f := Fields(if toAll then 0 else 1, state, number, magic);
      ghost var pattern := Pattern(len, shift);
      WriteHeader(buffer, if toAll then 0 else 1, state, number, magic);
      FillPayload(buffer, len, shift);
      shift := if shift <= 2 then 30 else shift - 1;
      assert buffer[..] == Header(f, 0) + pattern[..len - HEADER] + (pattern[len - HEADER..] + old(buffer[HEADER + len..]));
      Seal(buffer, len, f, pattern[..len - HEADER], pattern[len - HEADER..] + old(buffer[HEADER + len..]), checksum);
    }
  }

  /** The last step of preparing: the checksum over the frame goes into the frame. */
  method Seal(buffer: array<byte>, len: nat, ghost f: Fields, ghost payload: seq<byte>, ghost rest: seq<byte>, checksum: Checksum)
    requires len == HEADER + |payload| && buffer[..] == Header(f, 0) + payload + rest
    modifies buffer
    ensures buffer[..] == Sealed(f, payload, checksum) + rest
  {
    assert buffer[..len] == Header(f, 0) + payload;
    var crc := checksum(buffer[..len]);
    buffer[4], buffer[5] := crc % 256, crc / 256;
    assert buffer[..] == Header(f, crc) + payload + rest;
  }

  /** s_example_espnow_seq[type]++ on an unsigned 16-bit counter. */
  function NextNumber(n: u16): u16 {
    (n + 1) % 0x1_0000
  }

  method WriteHeader(buffer: array<byte>, kind: byte, state: byte, number: u16, magic: u32)
    requires HEADER <= buffer.Length
    modifies buffer
    ensures buffer[..HEADER] == Header(Fields(kind, state, number, magic), 0)
    ensures buffer[HEADER..] == old(buffer[HEADER..])
  {
    buffer[0], buffer[1] := kind, state;
    buffer[2], buffer[3] := number % 256, number / 256;
    buffer[4], buffer[5] := 0, 0;
    var low, high := magic % 0x1_0000, magic / 0x1_0000;
    buffer[6], buffer[7], buffer[8], buffer[9] := low % 256, low / 256, high % 256, high / 256;
  }

  method FillPayload(buffer: array<byte>, len: nat, shift: nat)
    requires len + HEADER <= buffer.Length
    modifies buffer
    ensures buffer[..] == old(buffer[..HEADER]) + Pattern(len, shift) + old(buffer[HEADER + len..])
  {
    for i := 0 to len
      invariant forall k | HEADER <= k < HEADER + i :: buffer[k] == (k - HEADER + 32 + shift) % 256
      invariant forall k | 0 <= k < HEADER || HEADER + len <= k < buffer.Length :: buffer[k] == old(buffer[k])
    {
      buffer[HEADER + i] := (i + 32 + shift) % 256;
    }
  }

  /** example_espnow_data_parse: it clears the checksum field of the data it is given, whatever the verdict. */
  method Parse(data: array<byte>, len: nat, checksum: Checksum) returns (r: Parsed)
    requires len <= data.Length
    modifies data
    ensures r == ParseOf(old(data[..len]), checksum)
    ensures data[..] == if len < HEADER then old(data[..]) else Cleared(old(data[..]))
  {
    if len < HEADER {
      return Rejected;
    }
    ghost var before := data[..len];
    var low, high := Join(data[6], data[7]) as int, Join(data[8], data[9]) as int;
    var f := Fields(data[0], data[1], Join(data[2], data[3]), low + 0x1_0000 * high);
    assert f == FieldsOf(before);
    var crc := Join(data[4], data[5]);
    data[4] := 0;
    data[5] := 0;
    assert data[..len] == Cleared(before);
    r := if checksum(data[..len]) == crc then Accepted(f) else Rejected;
  }

  /** Parsing is not repeatable: the same buffer is accepted a second time exactly when its checksum happens to be zero. */
  lemma SecondParse(data: seq<byte>, checksum: Checksum)
    requires |data| >= HEADER
    ensures ParseOf(Cleared(data), checksum).Accepted? <==> checksum(Cleared(data)) == 0
  {
    assert Cleared(Cleared(data)) == Cleared(data);
  }

  // ---------- Sequence numbers over a run ----------

  /** How many of the first frames of a run are broadcasts, or unicasts. */
  function Earlier(kinds: seq<bool>, toAll: bool): nat {
    if kinds == [] then 0
    else Earlier(kinds[..|kinds| - 1], toAll) + if kinds[|kinds| - 1] == toAll then 1 else 0
  }

  /** The counter of one frame type after a run, moved as Prepare moves it. */
  function CounterAfter(kinds: seq<bool>, toAll: bool): u16 {
    if kinds == [] then 0
    else
      var c := CounterAfter(kinds[..|kinds| - 1], toAll);
      if kinds[|kinds| - 1] == toAll then NextNumber(c) else c
  }

  /** The n-th frame of each type, counted from 0, carries n modulo 65536, however the types alternate. */
  lemma {:induction false} NumbersCountFrames(kinds: seq<bool>, toAll: bool)
    ensures CounterAfter(kinds, toAll) == Earlier(kinds, toAll) % 0x1_0000
  {
    if kinds != [] {
      NumbersCountFrames(kinds[..|kinds| - 1], toAll);
    }
  }

  /** One frame, and the number it carries. */
  method PrepareNumbered(sender: Sender, buffer: array<byte>, len: nat, toAll: bool, state: byte, magic: u32, checksum: Checksum)
    returns (carried: u16)
    requires HEADER <= len && len + HEADER <= buffer.Length
    modifies sender, buffer
    ensures carried == if toAll then old(sender.broadcastNumber) else old(sender.unicastNumber)
    ensures sender.broadcastNumber == if toAll then NextNumber(old(sender.broadcastNumber)) else old(sender.broadcastNumber)
    ensures sender.unicastNumber == if toAll then old(sender.unicastNumber) else NextNumber(old(sender.unicastNumber))
  {
    sender.Prepare(buffer, len, toAll, state, magic, checksum);
    carried := Join(buffer[2], buffer[3]);
    assert buffer[2] == buffer[..][2] && buffer[3] == buffer[..][3];
  }

  /** The frames a new sender prepares one after the other, and the number each of them carries. */
  method PrepareAll(sender: Sender, buffer: array<byte>, len: nat, kinds: seq<bool>, state: byte, magic: u32, checksum: Checksum)
    returns (numbers: seq<u16>)
    requires HEADER <= len && len + HEADER <= buffer.Length
    requires sender.broadcastNumber == 0 && sender.unicastNumber == 0
    modifies sender, buffer
    ensures |numbers| == |kinds|
    ensures forall i | 0 <= i < |kinds| :: numbers[i] == Earlier(kinds[..i], kinds[i]) % 0x1_0000
  {
    numbers := [];
    for i := 0 to |kinds|
      invariant |numbers| == i
      invariant sender.broadcastNumber == CounterAfter(kinds[..i], true)
      invariant sender.unicastNumber == CounterAfter(kinds[..i], false)
      invariant forall k | 0 <= k < i :: numbers[k] == Earlier(kinds[..k], kinds[k]) % 0x1_0000
    {
      NumbersCountFrames(kinds[..i], kinds[i]);
      assert kinds[..i + 1][..i] == kinds[..i];
      var carried := PrepareNumbered(sender, buffer, len, kinds[i], state, magic, checksum);
      numbers := numbers + [carried];
    }
  }
}
