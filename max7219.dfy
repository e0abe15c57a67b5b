/**
 * The serial protocol of a daisy chain of MAX7219/MAX7221 LED drivers, as the
 * bit-banged driver in main/matrix/LedMatrix.cpp speaks it.
 *
 * A command is a 16-bit word: the register address (opcode) in the high byte and
 * the register data in the low byte, shifted in MSB first.  In a chain of n
 * devices one transfer shifts 16*n bits through every device; when CS rises,
 * each device latches the 16 bits that are then in its own shift register.
 * Addressing one device therefore means sending the no-op opcode to all others.
 *
 * The receiver model shifts a bit in only on a rising CLK edge while CS is low,
 * as a MAX7221 does; a MAX7219 shifts on every rising edge whatever LOAD is
 * doing.  The driver clocks only between CS low and CS high (TransferShape,
 * BitsEventsAvoidCS), so for its traces the two parts agree.
 */
module Max7219 {

  // Register addresses of the MAX7219/MAX7221.
  const OP_NOOP: bv8 := 0
  const OP_DIGIT0: bv8 := 1
  const OP_DIGIT7: bv8 := 8
  const OP_DECODEMODE: bv8 := 9
  const OP_INTENSITY: bv8 := 10
  const OP_SCANLIMIT: bv8 := 11
  const OP_SHUTDOWN: bv8 := 12
  const OP_DISPLAYTEST: bv8 := 15

  /** One register write addressed to device `dev` of the chain. */
  datatype Command = Command(dev: nat, opcode: bv8, data: bv8)

  /** A write of one GPIO line; any nonzero level written counts as high. */
  datatype PinEvent = PinWrite(pin: int, high: bool)

  /** The three GPIO numbers the chain hangs on. */
  datatype Wiring = Wiring(din: int, clk: int, cs: int)

  predicate Distinct(w: Wiring) {
    w.din != w.clk && w.din != w.cs && w.clk != w.cs
  }

  /** The byte with only bit k (0 = least significant) set. */
  function Mask(k: nat): bv8
    requires k < 8
  {
    if k == 0 then 0x01 else if k == 1 then 0x02 else if k == 2 then 0x04 else if k == 3 then 0x08
    else if k == 4 then 0x10 else if k == 5 then 0x20 else if k == 6 then 0x40 else 0x80
  }

  /** Bit k (0 = least significant) of a byte. */
  function Bit(x: bv8, k: nat): bool
    requires k < 8
  {
    x & Mask(k) != 0
  }

  /** A byte with bit j set and the other bits kept. */
  function SetBit(b: bv8, j: nat): bv8
    requires j < 8
  {
    b | Mask(j)
  }

  /** A byte with bit j cleared and the other bits kept. */
  function ClearBit(b: bv8, j: nat): bv8
    requires j < 8
  {
    b & !Mask(j)
  }

  /** Setting bit j of a byte changes bit j only. */
  lemma SetBitMask(b: bv8, j: nat, k: nat)
    requires j < 8 && k < 8
    ensures Bit(SetBit(b, j), k) == (k == j || Bit(b, k))
  {
    if k == 0 {} else if k == 1 {} else if k == 2 {} else if k == 3 {}
    else if k == 4 {} else if k == 5 {} else if k == 6 {} else {}
  }

  /** Clearing bit j of a byte changes bit j only. */
  lemma ClearBitMask(b: bv8, j: nat, k: nat)
    requires j < 8 && k < 8
    ensures Bit(ClearBit(b, j), k) == (k != j && Bit(b, k))
  {
    if j == 0 {} else if j == 1 {} else if j == 2 {} else if j == 3 {}
    else if j == 4 {} else if j == 5 {} else if j == 6 {} else {}
  }

  /** A right shift by k brings bit k down to bit 0. */
  lemma ShiftRightBit(x: bv8, k: nat)
    requires k < 8
    ensures ((x >> k) & 0x01 != 0) == Bit(x, k)
  {
    if k == 0 {} else if k == 1 {} else if k == 2 {} else if k == 3 {}
    else if k == 4 {} else if k == 5 {} else if k == 6 {} else {}
  }

  /** The mask of LED column c, as the driver computes it, is bit 7 - c. */
  lemma ColumnMask(c: nat)
    requires c < 8
    ensures (0x80 as bv8) >> c == Mask(7 - c)
  {
    if c == 0 {} else if c == 1 {} else if c == 2 {} else if c == 3 {}
    else if c == 4 {} else if c == 5 {} else if c == 6 {} else {}
  }

  /** A left shift by one moves every bit up one place. */
  lemma ShiftLeftBits(x: bv8)
    ensures ByteBits(x << 1)[..7] == ByteBits(x)[1..]
  {
  }

  /** The bits of a byte in the order they go onto the wire: most significant first. */
  function ByteBits(x: bv8): (bs: seq<bool>)
    ensures |bs| == 8
  {
    [Bit(x, 7), Bit(x, 6), Bit(x, 5), Bit(x, 4), Bit(x, 3), Bit(x, 2), Bit(x, 1), Bit(x, 0)]
  }

  /** The byte a shift register holds after receiving eight bits, most significant first. */
  function ByteOf(bs: seq<bool>): bv8
    requires |bs| == 8
  {
    (if bs[0] then 0x80 else 0) | (if bs[1] then 0x40 else 0) |
    (if bs[2] then 0x20 else 0) | (if bs[3] then 0x10 else 0) |
    (if bs[4] then 0x08 else 0) | (if bs[5] then 0x04 else 0) |
    (if bs[6] then 0x02 else 0) | (if bs[7] then 0x01 else 0)
  }

  lemma ByteOfByteBits(x: bv8)
    ensures ByteOf(ByteBits(x)) == x
  {
  }

  /**
   * The transfer buffer for one command in a chain of n devices: all zero (no-op)
   * except the data byte at 2*dev and the opcode byte at 2*dev+1.
   */
  function Frame(n: nat, c: Command): (f: seq<bv8>)
    ensures |f| == 2 * n
  {
    seq(2 * n, i => if i == 2 * c.dev then c.data else if i == 2 * c.dev + 1 then c.opcode else OP_NOOP)
  }

  /** The addressed device's pair holds (data, opcode); every other byte is a no-op. */
  lemma FrameContents(n: nat, c: Command)
    ensures c.dev < n ==> Frame(n, c)[2 * c.dev] == c.data && Frame(n, c)[2 * c.dev + 1] == c.opcode
    ensures forall i :: 0 <= i < 2 * n && i / 2 != c.dev ==> Frame(n, c)[i] == OP_NOOP
  {
  }

  /** The bits of a buffer in shifting order: the highest index first, each byte MSB first. */
  function FrameBits(f: seq<bv8>): (bs: seq<bool>)
    ensures |bs| == 8 * |f|
  {
    if |f| == 0 then [] else FrameBits(f[1..]) + ByteBits(f[0])
  }

  /** One clock cycle: CLK low, DIN set to the bit, CLK high. */
  function ClockBit(w: Wiring, b: bool): seq<PinEvent> {
    [PinWrite(w.clk, false), PinWrite(w.din, b), PinWrite(w.clk, true)]
  }

  function BitsEvents(w: Wiring, bs: seq<bool>): (evs: seq<PinEvent>)
    ensures |evs| == 3 * |bs|
  {
    if |bs| == 0 then [] else BitsEvents(w, bs[..|bs| - 1]) + ClockBit(w, bs[|bs| - 1])
  }

  /**
   * The pin writes of clocking out byte x from bit j on, the way the driver does
   * it: DIN takes the top bit (x & 0x80), then x is shifted left.
   */
  function ByteEvents(w: Wiring, x: bv8, j: nat): seq<PinEvent>
    decreases 8 - j
  {
    if j >= 8 then [] else ClockBit(w, x & 0x80 != 0) + ByteEvents(w, x << 1, j + 1)
  }

  /** The pin writes of clocking out bytes f[|f|-1], f[|f|-2], ..., f[i] in that order. */
  function ShiftOut(w: Wiring, f: seq<bv8>, i: nat): seq<PinEvent>
    requires i <= |f|
    decreases |f| - i
  {
    if i == |f| then [] else ShiftOut(w, f, i + 1) + ByteEvents(w, f[i], 0)
  }

  /**
   * Step k of the transfer of buffer f, for k <= |f| + 1: step 0 pulls CS low
   * (selecting the chain), step m in 1..|f| clocks out byte f[|f| - m], and step
   * |f| + 1 raises CS, which latches the shifted words.
   */
  function TransferStep(w: Wiring, f: seq<bv8>, k: nat): seq<PinEvent> {
    if k == 0 then [PinWrite(w.cs, false)]
    else if k <= |f| then ByteEvents(w, f[|f| - k], 0)
    else [PinWrite(w.cs, true)]
  }

  /** The pin writes of the first i of the |f| + 2 steps of the transfer of buffer f. */
  function TransferHead(w: Wiring, f: seq<bv8>, i: nat): seq<PinEvent>
    requires i <= |f| + 2
  {
    if i == 0 then [] else TransferHead(w, f, i - 1) + TransferStep(w, f, i - 1)
  }

  /** The pin writes of one whole transfer of buffer f. */
  function TransferEvents(w: Wiring, f: seq<bv8>): seq<PinEvent> {
    TransferHead(w, f, |f| + 2)
  }

  /** Until the latch, a transfer is CS low followed by its bytes from f[|f|-1] on. */
  lemma {:induction false} TransferHeadShiftOut(w: Wiring, f: seq<bv8>, i: nat)
    requires 1 <= i <= |f| + 1
    ensures TransferHead(w, f, i) == [PinWrite(w.cs, false)] + ShiftOut(w, f, |f| + 1 - i)
  {
    assert TransferHead(w, f, i) == TransferHead(w, f, i - 1) + TransferStep(w, f, i - 1);
    if i == 1 {
      assert TransferHead(w, f, 0) == [] && ShiftOut(w, f, |f|) == [];
    } else {
      TransferHeadShiftOut(w, f, i - 1);
      var j := |f| + 1 - i;
      assert TransferStep(w, f, i - 1) == ByteEvents(w, f[j], 0);
      assert ShiftOut(w, f, j) == ShiftOut(w, f, j + 1) + ByteEvents(w, f[j], 0);
      AppendAssoc([PinWrite(w.cs, false)], ShiftOut(w, f, j + 1), ByteEvents(w, f[j], 0));
    }
  }

  /** A transfer is CS low, every bit of the buffer clocked out, CS high. */
  lemma TransferPhases(w: Wiring, f: seq<bv8>)
    ensures TransferEvents(w, f) == [PinWrite(w.cs, false)] + ShiftOut(w, f, 0) + [PinWrite(w.cs, true)]
  {
    TransferHeadShiftOut(w, f, |f| + 1);
    assert TransferStep(w, f, |f| + 1) == [PinWrite(w.cs, true)];
  }

  /** Clocking out the rest of a byte from bit j on is clocking out its remaining bits. */
  lemma {:induction false} ByteEventsBits(w: Wiring, x: bv8, j: nat)
    requires j <= 8
    ensures ByteEvents(w, x, j) == BitsEvents(w, ByteBits(x)[..8 - j])
    decreases 8 - j
  {
    if j < 8 {
      ByteEventsBits(w, x << 1, j + 1);
      var bs := ByteBits(x)[..8 - j];
      ShiftPrefix(x, j);
      TopBit(x);
      BitsEventsFirst(w, bs);
    } else {
      assert ByteBits(x)[..0] == [];
    }
  }

  /** After a left shift, the bits still to go are the old ones less the first. */
  lemma ShiftPrefix(x: bv8, j: nat)
    requires j < 8
    ensures ByteBits(x << 1)[..7 - j] == ByteBits(x)[..8 - j][1..]
  {
    ShiftLeftBits(x);
    assert ByteBits(x << 1)[..7 - j] == ByteBits(x << 1)[..7][..7 - j];
  }

  /** The byte's top bit goes out first. */
  lemma TopBit(x: bv8)
    ensures (x & 0x80 != 0) == ByteBits(x)[0]
  {
  }

  /** Clocking out a nonempty bit sequence starts with clocking its first bit. */
  lemma BitsEventsFirst(w: Wiring, bs: seq<bool>)
    requires |bs| > 0
    ensures BitsEvents(w, bs) == ClockBit(w, bs[0]) + BitsEvents(w, bs[1..])
  {
    assert bs == [bs[0]] + bs[1..];
    BitsEventsAppend(w, [bs[0]], bs[1..]);
    assert [bs[0]][..0] == [];
  }

  /** The driver's byte loop clocks out exactly the bits FrameBits lists. */
  lemma {:induction false} ShiftOutBits(w: Wiring, f: seq<bv8>, i: nat)
    requires i <= |f|
    ensures ShiftOut(w, f, i) == BitsEvents(w, FrameBits(f[i..]))
    decreases |f| - i
  {
    if i == |f| {
      assert f[i..] == [];
      assert ShiftOut(w, f, i) == [] && FrameBits(f[i..]) == [];
    } else {
      var first := f[i];
      assert f[i..][1..] == f[i + 1..];
      calc {
        ShiftOut(w, f, i);
        ShiftOut(w, f, i + 1) + ByteEvents(w, first, 0);
        { ByteEventsBits(w, first, 0); assert ByteBits(first)[..8] == ByteBits(first); }
        ShiftOut(w, f, i + 1) + BitsEvents(w, ByteBits(first));
        { ShiftOutBits(w, f, i + 1); }
        BitsEvents(w, FrameBits(f[i + 1..])) + BitsEvents(w, ByteBits(first));
        { BitsEventsAppend(w, FrameBits(f[i + 1..]), ByteBits(first)); }
        BitsEvents(w, FrameBits(f[i + 1..]) + ByteBits(first));
        BitsEvents(w, FrameBits(f[i..]));
      }
    }
  }


  /** The pin writes of a sequence of commands, one full-chain transfer each. */
  function Transmit(w: Wiring, n: nat, cmds: seq<Command>): seq<PinEvent> {
    if |cmds| == 0 then []
    else Transmit(w, n, cmds[..|cmds| - 1]) + TransferEvents(w, Frame(n, cmds[|cmds| - 1]))
  }

  /** A single command is sent as a single transfer. */
  lemma TransmitOne(w: Wiring, n: nat, c: Command)
    ensures Transmit(w, n, [c]) == TransferEvents(w, Frame(n, c))
  {
    assert [c][..0] == [];
  }

  /** Sending one more command appends its transfer. */
  lemma TransmitSnoc(w: Wiring, n: nat, cmds: seq<Command>, c: Command)
    ensures Transmit(w, n, cmds + [c]) == Transmit(w, n, cmds) + TransferEvents(w, Frame(n, c))
  {
    assert (cmds + [c])[..|cmds|] == cmds;
  }

  lemma {:induction false} BitsEventsAppend(w: Wiring, a: seq<bool>, b: seq<bool>)
    ensures BitsEvents(w, a + b) == BitsEvents(w, a) + BitsEvents(w, b)
    decreases |b|
  {
    if |b| == 0 {
      assert a + b == a;
    } else {
      assert (a + b)[..|a + b| - 1] == a + b[..|b| - 1];
      assert (a + b)[|a + b| - 1] == b[|b| - 1];
      BitsEventsAppend(w, a, b[..|b| - 1]);
    }
  }

  lemma {:induction false} TransmitAppend(w: Wiring, n: nat, a: seq<Command>, b: seq<Command>)
    ensures Transmit(w, n, a + b) == Transmit(w, n, a) + Transmit(w, n, b)
    decreases |b|
  {
    if |b| == 0 {
      assert a + b == a;
    } else {
      assert (a + b)[..|a + b| - 1] == a + b[..|b| - 1];
      assert (a + b)[|a + b| - 1] == b[|b| - 1];
      TransmitAppend(w, n, a, b[..|b| - 1]);
    }
  }

  /** Where the bits of f[i] sit in the shifted stream. */
  lemma {:induction false} FrameBitsAt(f: seq<bv8>, i: nat)
    requires i < |f|
    ensures FrameBits(f)[8 * (|f| - 1 - i) .. 8 * (|f| - i)] == ByteBits(f[i])
    decreases |f|
  {
    var rest := FrameBits(f[1..]);
    assert FrameBits(f) == rest + ByteBits(f[0]);
    if i > 0 {
      FrameBitsAt(f[1..], i - 1);
      assert f[1..][i - 1] == f[i];
      assert FrameBits(f)[8 * (|f| - 1 - i) .. 8 * (|f| - i)] == rest[8 * (|f| - 1 - i) .. 8 * (|f| - i)];
    } else {
      assert FrameBits(f)[8 * (|f| - 1) .. 8 * |f|] == ByteBits(f[0]);
    }
  }

  // ---------------------------------------------------------------------------
  // The receiving side: what a chain of shift registers makes of a pin trace.
  // ---------------------------------------------------------------------------

  /** The levels of the three lines as the chain sees them. */
  datatype Lines = Lines(din: bool, clk: bool, selected: bool)

  function Step(w: Wiring, st: Lines, e: PinEvent): Lines {
    if e.pin == w.din then st.(din := e.high)
    else if e.pin == w.clk then st.(clk := e.high)
    else if e.pin == w.cs then st.(selected := !e.high)
    else st
  }

  /** True when the event is a rising edge of CLK while CS is low: a bit is shifted in. */
  predicate Samples(w: Wiring, st: Lines, e: PinEvent) {
    e.pin == w.clk && e.pin != w.din && e.high && !st.clk && st.selected
  }

  /** The bits the chain shifts in from a trace of pin writes. */
  function Sampled(w: Wiring, st: Lines, evs: seq<PinEvent>): seq<bool>
    decreases |evs|
  {
    if |evs| == 0 then []
    else (if Samples(w, st, evs[0]) then [st.din] else []) + Sampled(w, Step(w, st, evs[0]), evs[1..])
  }

  /** The line levels after a trace. */
  function Run(w: Wiring, st: Lines, evs: seq<PinEvent>): Lines
    decreases |evs|
  {
    if |evs| == 0 then st else Run(w, Step(w, st, evs[0]), evs[1..])
  }

  lemma {:induction false} SampledAppend(w: Wiring, st: Lines, a: seq<PinEvent>, b: seq<PinEvent>)
    ensures Sampled(w, st, a + b) == Sampled(w, st, a) + Sampled(w, Run(w, st, a), b)
    ensures Run(w, st, a + b) == Run(w, Run(w, st, a), b)
    decreases |a|
  {
    if |a| == 0 {
      assert a + b == b;
    } else {
      assert (a + b)[0] == a[0];
      assert (a + b)[1..] == a[1..] + b;
      SampledAppend(w, Step(w, st, a[0]), a[1..], b);
    }
  }

  /** While CS is low, clocking out a bit sequence shifts exactly those bits in. */
  lemma {:induction false} SampledBits(w: Wiring, st: Lines, bs: seq<bool>)
    requires Distinct(w) && st.selected
    ensures Sampled(w, st, BitsEvents(w, bs)) == bs
    ensures Run(w, st, BitsEvents(w, bs)).selected
    decreases |bs|
  {
    if |bs| == 0 {
      assert BitsEvents(w, bs) == [];
    } else {
      var init := bs[..|bs| - 1];
      var b := bs[|bs| - 1];
      assert BitsEvents(w, bs) == BitsEvents(w, init) + ClockBit(w, b);
      SampledBits(w, st, init);
      SampledAppend(w, st, BitsEvents(w, init), ClockBit(w, b));
      ClockBitSamples(w, Run(w, st, BitsEvents(w, init)), b);
      assert init + [b] == bs;
    }
  }

  /** While CS is low, one clock cycle shifts in exactly the bit put on DIN. */
  lemma ClockBitSamples(w: Wiring, st: Lines, b: bool)
    requires Distinct(w) && st.selected
    ensures Sampled(w, st, ClockBit(w, b)) == [b]
    ensures Run(w, st, ClockBit(w, b)).selected
  {
    var evs := ClockBit(w, b);
    var s1 := Step(w, st, evs[0]);
    var s2 := Step(w, s1, evs[1]);
    var s3 := Step(w, s2, evs[2]);
    assert s1 == st.(clk := false);
    assert s2 == s1.(din := b);
    assert s3 == s2.(clk := true);
    assert evs[1..][1..][1..] == [];
    assert Sampled(w, s2, evs[1..][1..]) == [b] + Sampled(w, s3, []);
    assert Sampled(w, s1, evs[1..]) == Sampled(w, s2, evs[1..][1..]);
    assert Sampled(w, st, evs) == Sampled(w, s1, evs[1..]);
    assert Run(w, st, evs) == Run(w, s1, evs[1..]) == Run(w, s2, evs[1..][1..]) == Run(w, s3, []);
  }

  /** What a transfer of buffer f shifts into the chain, whatever the lines were before. */
  lemma TransferShiftsFrameBits(w: Wiring, st: Lines, f: seq<bv8>)
    requires Distinct(w)
    ensures Sampled(w, st, TransferEvents(w, f)) == FrameBits(f)
  {
    TransferPhases(w, f);
    ShiftOutBits(w, f, 0);
    assert f[0..] == f;
    WindowSamples(w, st, FrameBits(f));
  }

  /** Bits clocked out between CS low and CS high are shifted in, and nothing else is. */
  lemma WindowSamples(w: Wiring, st: Lines, bs: seq<bool>)
    requires Distinct(w)
    ensures Sampled(w, st, [PinWrite(w.cs, false)] + BitsEvents(w, bs) + [PinWrite(w.cs, true)]) == bs
  {
    var body := BitsEvents(w, bs);
    var csLow := [PinWrite(w.cs, false)];
    var csHigh := [PinWrite(w.cs, true)];
    assert csLow[1..] == [] && csHigh[1..] == [];
    var s1 := Step(w, st, csLow[0]);
    assert Sampled(w, st, csLow) == [] + Sampled(w, s1, []) == [];
    assert Run(w, st, csLow) == Run(w, s1, []) == s1;
    SampledBits(w, s1, bs);
    SampledAppend(w, st, csLow, body);
    SampledAppend(w, st, csLow + body, csHigh);
    var s2 := Run(w, st, csLow + body);
    assert Sampled(w, s2, csHigh) == [] + Sampled(w, Step(w, s2, csHigh[0]), []) == [];
  }

  /**
   * The (opcode, data) pair device k latches after 16*n bits were shifted into a
   * chain of n devices: device 0, nearest the controller, holds the last word.
   */
  function Latched(bits: seq<bool>, n: nat, k: nat): (bv8, bv8)
    requires |bits| == 16 * n && k < n
  {
    var start := 16 * (n - 1 - k);
    (ByteOf(bits[start .. start + 8]), ByteOf(bits[start + 8 .. start + 16]))
  }

  /**
   * The addressing guarantee of the protocol: after one transfer of Frame(n, c),
   * device c.dev latches (c.opcode, c.data) and every other device of the chain
   * latches the no-op word (0, 0).
   */
  lemma ChainLatchesCommand(w: Wiring, st: Lines, n: nat, c: Command, k: nat)
    requires Distinct(w) && c.dev < n && k < n
    ensures |Sampled(w, st, TransferEvents(w, Frame(n, c)))| == 16 * n
    ensures Latched(Sampled(w, st, TransferEvents(w, Frame(n, c))), n, k)
            == if k == c.dev then (c.opcode, c.data) else (OP_NOOP, OP_NOOP)
  {
    var f := Frame(n, c);
    TransferShiftsFrameBits(w, st, f);
    LatchedWord(f, n, k);
    assert f[2 * k + 1] == if k == c.dev then c.opcode else OP_NOOP;
    assert f[2 * k] == if k == c.dev then c.data else OP_NOOP;
  }

  /** Device k of the chain latches bytes 2k+1 (opcode) and 2k (data) of the buffer shifted out. */
  lemma LatchedWord(f: seq<bv8>, n: nat, k: nat)
    requires |f| == 2 * n && k < n
    ensures Latched(FrameBits(f), n, k) == (f[2 * k + 1], f[2 * k])
  {
    var bits := FrameBits(f);
    var start := 16 * (n - 1 - k);
    FrameBitsAt(f, 2 * k + 1);
    FrameBitsAt(f, 2 * k);
    assert 8 * (|f| - 1 - (2 * k + 1)) == start && 8 * (|f| - (2 * k + 1)) == start + 8;
    assert 8 * (|f| - 1 - 2 * k) == start + 8 && 8 * (|f| - 2 * k) == start + 16;
    ByteOfByteBits(f[2 * k + 1]);
    ByteOfByteBits(f[2 * k]);
  }


  /**
   * The shape of one transfer on the wire: 2 + 24*|f| writes, CS low first and
   * high last and untouched in between, and 8*|f| clock cycles (each a CLK low,
   * DIN, CLK high triple).
   */
  lemma TransferShape(w: Wiring, f: seq<bv8>)
    requires Distinct(w)
    ensures var t := TransferEvents(w, f);
      && |t| == 2 + 24 * |f|
      && t[0] == PinWrite(w.cs, false) && t[|t| - 1] == PinWrite(w.cs, true)
      && (forall k :: 0 < k < |t| - 1 ==> t[k].pin != w.cs)
      && (forall j :: 0 <= j < 8 * |f| ==> t[3 * j + 1] == PinWrite(w.clk, false) && t[3 * j + 3] == PinWrite(w.clk, true))
  {
    TransferPhases(w, f);
    ShiftOutBits(w, f, 0);
    assert f[0..] == f;
    ClockedShape(w, FrameBits(f));
  }

  /** A bit sequence clocked out between CS low and CS high. */
  lemma ClockedShape(w: Wiring, bs: seq<bool>)
    requires Distinct(w)
    ensures var t := [PinWrite(w.cs, false)] + BitsEvents(w, bs) + [PinWrite(w.cs, true)];
      && |t| == 2 + 3 * |bs|
      && t[0] == PinWrite(w.cs, false) && t[|t| - 1] == PinWrite(w.cs, true)
      && (forall k :: 0 < k < |t| - 1 ==> t[k].pin != w.cs)
      && (forall j :: 0 <= j < |bs| ==> t[3 * j + 1] == PinWrite(w.clk, false) && t[3 * j + 3] == PinWrite(w.clk, true))
  {
    var evs := BitsEvents(w, bs);
    var t := [PinWrite(w.cs, false)] + evs + [PinWrite(w.cs, true)];
    BitsEventsAvoidCS(w, bs);
    forall k | 0 < k < |t| - 1
      ensures t[k].pin != w.cs
    {
      assert t[k] == evs[k - 1];
    }
    forall j | 0 <= j < |bs|
      ensures t[3 * j + 1] == PinWrite(w.clk, false) && t[3 * j + 3] == PinWrite(w.clk, true)
    {
      BitsEventsAt(w, bs, j);
      assert t[3 * j + 1] == evs[3 * j] == evs[3 * j .. 3 * j + 3][0];
      assert t[3 * j + 3] == evs[3 * j + 2] == evs[3 * j .. 3 * j + 3][2];
    }
  }

  /** Clocking bits out never writes the CS pin. */
  lemma {:induction false} BitsEventsAvoidCS(w: Wiring, bs: seq<bool>)
    requires Distinct(w)
    ensures forall m :: 0 <= m < |BitsEvents(w, bs)| ==> BitsEvents(w, bs)[m].pin != w.cs
  {
    if |bs| > 0 {
      var init := bs[..|bs| - 1];
      BitsEventsAvoidCS(w, init);
      var a: seq<PinEvent>, c: seq<PinEvent> := BitsEvents(w, init), ClockBit(w, bs[|bs| - 1]);
      assert BitsEvents(w, bs) == a + c;
      forall m | 0 <= m < |a + c|
        ensures (a + c)[m].pin != w.cs
      {
        if m >= |a| {
          assert (a + c)[m] == c[m - |a|];
        }
      }
    }
  }

  lemma {:induction false} BitsEventsAt(w: Wiring, bs: seq<bool>, j: nat)
    requires j < |bs|
    ensures BitsEvents(w, bs)[3 * j .. 3 * j + 3] == ClockBit(w, bs[j])
    decreases |bs|
  {
    var init := bs[..|bs| - 1];
    assert BitsEvents(w, bs) == BitsEvents(w, init) + ClockBit(w, bs[|bs| - 1]);
    if j < |bs| - 1 {
      BitsEventsAt(w, init, j);
      assert BitsEvents(w, bs)[3 * j .. 3 * j + 3] == BitsEvents(w, init)[3 * j .. 3 * j + 3];
    }
  }

  // Regrouping lemmas for traces assembled from consecutive appends.

  lemma ChainThree<T>(t0: seq<T>, t1: seq<T>, t2: seq<T>, t3: seq<T>, a: seq<T>, b: seq<T>, c: seq<T>)
    requires t1 == t0 + a && t2 == t1 + b && t3 == t2 + c
    ensures t3 == t0 + (a + b + c)
  {
  }

  lemma ChainFive<T>(t0: seq<T>, t1: seq<T>, t2: seq<T>, t3: seq<T>, t4: seq<T>, t5: seq<T>,
                     a: seq<T>, b: seq<T>, c: seq<T>, d: seq<T>, e: seq<T>)
    requires t1 == t0 + a && t2 == t1 + b && t3 == t2 + c && t4 == t3 + d && t5 == t4 + e
    ensures t5 == t0 + (a + b + c + d + e)
  {
  }

  lemma AppendAssoc<T>(a: seq<T>, b: seq<T>, c: seq<T>)
    ensures a + b + c == a + (b + c)
  {
  }
}
