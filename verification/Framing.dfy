/** The framing of the TCP links: preamble, two length bytes, a short head, the body.

    The head is command and destination from a client to the server (client/thread_client.c, esp-idf/tcp_client.c), and
    the command alone from the server to a client (server/thread_server.c). The queue between the threads of a client
    uses another length encoding and no preamble. */
module Framing {
  import opened Bytes
  import opened Wrappers

  const PREAMBLE: seq<byte> := [0xF8, 0xF0, 0xF0, 0xF0, 0xF0, 0xF0, 0xF0, 0x00]

  // ---------- The two length encodings ----------

  /** Bitwise or, on natural numbers. */
  function BitOr(x: nat, y: nat): nat
    decreases x + y
  {
    if x == 0 then y else if y == 0 then x
    else 2 * BitOr(x / 2, y / 2) + if x % 2 == 1 || y % 2 == 1 then 1 else 0
  }

  /** The length bytes of a frame: n & 0x0F and (n & 0xF0) >> 4. */
  function WireLength(n: nat): (byte, byte) {
    (n % 16, n / 16 % 16)
  }

  /** The length bytes of a queue record: the low byte of n, and the low byte of n >> 4. They overlap in four bits. */
  function RecordLength(n: nat): (byte, byte) {
    (n % 256, n / 16 % 256)
  }

  /** How every reader puts the two together: (high << 4) | low. */
  function Length(low: byte, high: byte): nat {
    BitOr(16 * (high as int), low as int)
  }

  /** The lowest k bits of a number. */
  function LowBits(x: nat, k: nat): nat {
    if k == 0 then 0 else 2 * LowBits(x / 2, k - 1) + x % 2
  }

  /** Or-ing a number with some of its own low bits changes nothing. */
  lemma {:induction false} OrOwnBits(x: nat, k: nat)
    ensures BitOr(x, LowBits(x, k)) == x
    decreases k
  {
    if k > 0 {
      OrOwnBits(x / 2, k - 1);
      var low := LowBits(x, k);
      assert low / 2 == LowBits(x / 2, k - 1) && low % 2 == x % 2;
      if x > 0 && low > 0 {
        assert BitOr(x, low) == 2 * BitOr(x / 2, low / 2) + x % 2;
      }
    }
  }

  /** Doubling a modulus lets the lowest bit through. */
  lemma Halving16(x: nat)
    ensures x % 16 == 2 * (x / 2 % 8) + x % 2
  {
    var q, r := x / 16, x % 16;
    assert x / 2 == 8 * q + r / 2;
    assert x / 2 % 8 == r / 2;
  }

  lemma Halving8(x: nat)
    ensures x % 8 == 2 * (x / 2 % 4) + x % 2
  {
    var q, r := x / 8, x % 8;
    assert x / 2 == 4 * q + r / 2;
    assert x / 2 % 4 == r / 2;
  }

  lemma LowNibble(x: nat)
    ensures LowBits(x, 4) == x % 16
  {
    Halving16(x);
    Halving8(x / 2);
    assert LowBits(x / 2 / 2 / 2, 1) == x / 2 / 2 / 2 % 2;
    assert LowBits(x / 2 / 2, 2) == x / 2 / 2 % 4;
    assert LowBits(x / 2, 3) == x / 2 % 8;
  }

  /** One more zero bit at the bottom. */
  lemma OrShift(h: nat, low: nat)
    ensures BitOr(2 * h, low) == 2 * BitOr(h, low / 2) + low % 2
  {
  }

  lemma Halving4(x: nat)
    ensures x / 2 / 2 == x / 4 && x % 4 == 2 * (x / 2 % 2) + x % 2
  {
  }

  lemma OrShiftTwice(h: nat, low: nat)
    ensures BitOr(4 * h, low) == 4 * BitOr(h, low / 4) + low % 4
  {
    var twice, half := 2 * h, low / 2;
    Halving4(low);
    OrShift(twice, low);
    OrShift(h, half);
  }

  lemma QuarterTwice(x: nat)
    ensures x / 4 / 4 == x / 16 && x % 16 == 4 * (x / 4 % 4) + x % 4
  {
    var q, r := x / 16, x % 16;
    assert x / 4 == 4 * q + r / 4;
  }

  /** Four zero bits at the bottom leave room for the low nibble. */
  lemma OrNibble(h: nat, low: nat)
    ensures BitOr(16 * h, low) == 16 * BitOr(h, low / 16) + low % 16
  {
    var fourfold, quarter := 4 * h, low / 4;
    OrShiftTwice(fourfold, low);
    OrShiftTwice(h, quarter);
    QuarterTwice(low);
  }

  /** A number that splits into its own low nibble and a multiple of 16 is put together again. */
  lemma LengthOf(low: byte, high: byte, n: nat)
    requires BitOr(high, low as int / 16) == high as int && low as int % 16 == n % 16
    ensures Length(low, high) == 16 * (high as int) + n % 16
  {
    OrNibble(high, low);
  }

  lemma SplitAt256(n: nat)
    ensures 16 * (n / 16 % 16) + n % 16 == n % 256
    ensures n % 16 / 16 == 0 && n % 16 % 16 == n % 16
  {
    var q, r := n / 256, n % 256;
    assert n / 16 == 16 * q + r / 16;
    assert n / 16 % 16 == r / 16;
  }

  /** A frame carries the length modulo 256. */
  lemma WireLengthDecodes(n: nat)
    ensures var (low, high) := WireLength(n); Length(low, high) == n % 256
  {
    var (low, high) := WireLength(n);
    SplitAt256(n);
    assert BitOr(high, 0) == high as int;
    LengthOf(low, high, n);
  }

  lemma NibblesOf(m: nat)
    ensures m % 256 / 16 == m / 16 % 16 && m % 256 % 16 == m % 16
  {
    var q, r := m / 256, m % 256;
    assert m / 16 == 16 * q + r / 16;
  }

  lemma SplitAt4096(n: nat)
    ensures 16 * (n / 16 % 256) + n % 16 == n % 4096
  {
    var q, r := n / 4096, n % 4096;
    assert n / 16 == 256 * q + r / 16;
    assert n / 16 % 256 == r / 16;
  }

  /** A queue record carries the length modulo 4096: the overlapping bits agree, so or-ing them does no harm. */
  lemma RecordLengthDecodes(n: nat)
    ensures var (low, high) := RecordLength(n); Length(low, high) == n % 4096
  {
    var (low, high) := RecordLength(n);
    NibblesOf(n);
    NibblesOf(n / 16);
    SplitAt4096(n);
    LowNibble(high);
    OrOwnBits(high, 4);
    LengthOf(low, high, n);
  }

  lemma ModExact(n: nat)
    ensures n % 256 == n <==> n < 256
    ensures n % 4096 == n <==> n < 4096
  {
  }

  /** The length field of a frame is exact exactly for lengths below 256. */
  lemma WireLengthExact(n: nat)
    ensures Length(WireLength(n).0, WireLength(n).1) == n <==> n < 256
  {
    var decoded := Length(WireLength(n).0, WireLength(n).1);
    assert decoded == n % 256 by {
      WireLengthDecodes(n);
    }
    ModExact(n);
  }

  /** That of a queue record is exact exactly below 4096. */
  lemma RecordLengthExact(n: nat)
    ensures Length(RecordLength(n).0, RecordLength(n).1) == n <==> n < 4096
  {
    var decoded := Length(RecordLength(n).0, RecordLength(n).1);
    assert decoded == n % 4096 by {
      RecordLengthDecodes(n);
    }
    ModExact(n);
  }

  // ---------- Frames and streams ----------

  datatype Payload = Payload(head: seq<byte>, body: seq<byte>)

  function Frame(p: Payload): seq<byte> {
    var (low, high) := WireLength(|p.body|);
    PREAMBLE + [low, high] + p.head + p.body
  }

  function Stream(ps: seq<Payload>): seq<byte> {
    if ps == [] then [] else Frame(ps[0]) + Stream(ps[1..])
  }

  /** One frame taken off a stream: what a reader that expects `head` bytes before the body makes of it. Starved: the
      stream does not hold a whole frame yet. */
  datatype Read =
    | Got(p: Payload, rest: seq<byte>)
    | BadPreamble(rest: seq<byte>)
    | Starved

  /** get_msg followed by the read of the body. */
  function ReadFrame(stream: seq<byte>, head: nat): Read {
    if |stream| < 10 then Starved
    else if stream[..8] != PREAMBLE then BadPreamble(stream[8..])
    else
      var n := Length(stream[8], stream[9]);
      if |stream| < 10 + head + n then Starved
      else Got(Payload(stream[10..10 + head], stream[10 + head..10 + head + n]), stream[10 + head + n..])
  }

  /** All whole frames at the front of a stream, and what is left behind them. */
  function ReadAll(stream: seq<byte>, head: nat): (seq<Payload>, seq<byte>)
    decreases |stream|
  {
    match ReadFrame(stream, head)
    case Got(p, rest) => var (ps, left) := ReadAll(rest, head); ([p] + ps, left)
    case _ => ([], stream)
  }

  /** The bytes of a frame in numbers. */
  lemma FrameBytes(p: Payload)
    ensures var n := |p.body|;
            Frame(p) == [0xF8, 0xF0, 0xF0, 0xF0, 0xF0, 0xF0, 0xF0, 0x00, n % 16, n / 16 % 16] + p.head + p.body
  {
  }

  /** Where the parts of a frame lie. */
  lemma FrameParts(p: Payload, rest: seq<byte>)
    ensures var stream, h, n := Frame(p) + rest, |p.head|, |p.body|;
            && |stream| == 10 + h + n + |rest|
            && stream[..8] == PREAMBLE
            && stream[8] == WireLength(n).0 && stream[9] == WireLength(n).1
            && stream[10..10 + h] == p.head
            && stream[10 + h..10 + h + n] == p.body
            && stream[10 + h + n..] == rest
  {
  }

  lemma LengthField(p: Payload, rest: seq<byte>)
    ensures var stream := Frame(p) + rest;
            |stream| >= 10 && Length(stream[8], stream[9]) == |p.body| % 256
  {
    FrameParts(p, rest);
    WireLengthDecodes(|p.body|);
  }

  /** One frame round trip, whatever follows on the stream; it holds exactly for bodies under 256 bytes. */
  lemma FrameRoundTrip(p: Payload, rest: seq<byte>)
    ensures ReadFrame(Frame(p) + rest, |p.head|) == Got(p, rest) <==> |p.body| < 256
  {
    FrameParts(p, rest);
    LengthField(p, rest);
    ModExact(|p.body|);
  }

  /** Stream round trip: for any list of messages with bodies under 256 bytes, reading the concatenated frames gives
      back exactly that list and consumes every byte. */
  lemma {:induction false} StreamRoundTrip(ps: seq<Payload>, head: nat)
    requires forall p | p in ps :: |p.head| == head && |p.body| < 256
    ensures ReadAll(Stream(ps), head) == (ps, [])
  {
    if ps != [] {
      FrameRoundTrip(ps[0], Stream(ps[1..]));
      StreamRoundTrip(ps[1..], head);
      assert [ps[0]] + ps[1..] == ps;
    }
  }

  lemma {:induction false} StreamAppend(ps: seq<Payload>, p: Payload)
    ensures Stream(ps + [p]) == Stream(ps) + Frame(p)
  {
    if ps == [] {
      assert ps + [p] == [p];
      assert Stream([p]) == Frame(p) + Stream([p][1..]) == Frame(p);
    } else {
      assert (ps + [p])[1..] == ps[1..] + [p];
      StreamAppend(ps[1..], p);
    }
  }
}
