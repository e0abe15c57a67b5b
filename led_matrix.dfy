/**
 * The bit-banged MAX7219 chain driver of main/matrix/LedMatrix.{h,cpp}.
 *
 * The driver keeps a software mirror `status` of every row register (8 bytes for
 * each of at most 8 devices) and a transfer buffer `spiData` (2 bytes for each
 * device).  The GPIO writes it makes are recorded in the ghost `trace`; their
 * meaning on the wire is given by module Max7219.  Out-of-range arguments are
 * ignored without any pin being written.
 */
module LedMatrixDriver {
  import opened Max7219

  /** Largest chain the driver supports. */
  const MAX_DEVICES := 8

  /** The chain length the constructor settles on: anything outside 1..8 becomes 8. */
  function ClampDevices(numDevices: int): (n: int)
    ensures 1 <= n <= MAX_DEVICES
    ensures 1 <= numDevices <= MAX_DEVICES ==> n == numDevices
    ensures !(1 <= numDevices <= MAX_DEVICES) ==> n == MAX_DEVICES
  {
    if numDevices <= 0 || numDevices > MAX_DEVICES then MAX_DEVICES else numDevices
  }

  predicate ValidRow(n: int, dev: int, row: int) {
    0 <= dev < n && 0 <= row < 8
  }

  /** The mirror after setRow(dev, row, value) on a chain of n devices. */
  function AfterSetRow(s: seq<bv8>, n: int, dev: int, row: int, value: bv8): (r: seq<bv8>)
    requires |s| == 64 && n <= MAX_DEVICES
    ensures |r| == 64
    ensures ValidRow(n, dev, row) ==> r[dev * 8 + row] == value
    ensures forall k :: 0 <= k < 64 && (!ValidRow(n, dev, row) || k != dev * 8 + row) ==> r[k] == s[k]
  {
    if ValidRow(n, dev, row) then s[dev * 8 + row := value] else s
  }

  /** A row byte with LED `column` (bit 0x80 >> column) switched on or off. */
  function WithLed(b: bv8, column: int, on: bool): bv8
    requires 0 <= column < 8
  {
    if on then SetBit(b, 7 - column) else ClearBit(b, 7 - column)
  }

  /** Only the LED's own bit changes, and it becomes `on`. */
  lemma WithLedBit(b: bv8, column: int, on: bool, k: nat)
    requires 0 <= column < 8 && k < 8
    ensures Bit(WithLed(b, column, on), k) == if k == 7 - column then on else Bit(b, k)
  {
    if on {
      SetBitMask(b, 7 - column, k);
    } else {
      ClearBitMask(b, 7 - column, k);
    }
  }

  /** Writes of the digit registers 1..|rows| of device dev with the given bytes, in order. */
  function RowSweep(dev: nat, rows: seq<bv8>): (cmds: seq<Command>)
    requires |rows| <= 8
  {
    seq(|rows|, i requires 0 <= i < |rows| => Command(dev, (i + 1) as bv8, rows[i]))
  }

  /** A sweep over one more row ends with that row's command. */
  lemma RowSweepSnoc(dev: nat, rows: seq<bv8>, i: nat)
    requires i < |rows| <= 8
    ensures RowSweep(dev, rows[..i + 1]) == RowSweep(dev, rows[..i]) + [Command(dev, (i + 1) as bv8, rows[i])]
  {
    assert rows[..i + 1][..i] == rows[..i];
  }

  /** The pin events of sending rows[0..i) to device dev as digit registers 1..i, row by row. */
  function Sweep(w: Wiring, n: nat, dev: nat, rows: seq<bv8>, i: nat): seq<PinEvent>
    requires i <= |rows| <= 8
  {
    if i == 0 then [] else Sweep(w, n, dev, rows, i - 1) + TransferEvents(w, Frame(n, Command(dev, i as bv8, rows[i - 1])))
  }

  /** Sending the rows one transfer at a time is transmitting their sweep. */
  lemma {:induction false} SweepTransmit(w: Wiring, n: nat, dev: nat, rows: seq<bv8>, i: nat)
    requires i <= |rows| <= 8
    ensures Sweep(w, n, dev, rows, i) == Transmit(w, n, RowSweep(dev, rows[..i]))
  {
    if i > 0 {
      SweepTransmit(w, n, dev, rows, i - 1);
      RowSweepSnoc(dev, rows, i - 1);
      TransmitSnoc(w, n, RowSweep(dev, rows[..i - 1]), Command(dev, i as bv8, rows[i - 1]));
    }
  }

  lemma SweepAll(w: Wiring, n: nat, dev: nat, rows: seq<bv8>)
    requires |rows| <= 8
    ensures Sweep(w, n, dev, rows, |rows|) == Transmit(w, n, RowSweep(dev, rows))
  {
    SweepTransmit(w, n, dev, rows, |rows|);
    assert rows[..|rows|] == rows;
  }

  /** s with the first i of the rows written over s[offset..], one entry after the other. */
  function Overlay(s: seq<bv8>, offset: nat, rows: seq<bv8>, i: nat): (r: seq<bv8>)
    requires i <= |rows| && offset + |rows| <= |s|
    ensures |r| == |s|
  {
    if i == 0 then s else Overlay(s, offset, rows, i - 1)[offset + i - 1 := rows[i - 1]]
  }

  lemma {:induction false} OverlayAt(s: seq<bv8>, offset: nat, rows: seq<bv8>, i: nat, k: int)
    requires i <= |rows| && offset + |rows| <= |s| && 0 <= k < |s|
    ensures Overlay(s, offset, rows, i)[k] == if offset <= k < offset + i then rows[k - offset] else s[k]
  {
    if i > 0 {
      OverlayAt(s, offset, rows, i - 1, k);
    }
  }

  /** The pin events of initialising devices 0..i-1, device by device. */
  function InitEvents(w: Wiring, n: nat, i: nat): seq<PinEvent>
  {
    if i == 0 then [] else InitEvents(w, n, i - 1) + Transmit(w, n, DeviceInit(i - 1))
  }

  lemma {:induction false} InitEventsTransmit(w: Wiring, n: nat, i: nat)
    ensures InitEvents(w, n, i) == Transmit(w, n, InitCommands(i))
  {
    if i > 0 {
      InitEventsTransmit(w, n, i - 1);
      TransmitAppend(w, n, InitCommands(i - 1), DeviceInit(i - 1));
    }
  }

  /** The pin events of DeviceInit(i), transfer by transfer. */
  function DeviceEvents(w: Wiring, n: nat, i: nat): seq<PinEvent> {
    TransferEvents(w, Frame(n, Command(i, OP_DISPLAYTEST, 0))) + TransferEvents(w, Frame(n, Command(i, OP_SCANLIMIT, 7)))
    + TransferEvents(w, Frame(n, Command(i, OP_DECODEMODE, 0))) + Transmit(w, n, RowSweep(i, ZeroRows(8)))
    + TransferEvents(w, Frame(n, Command(i, OP_SHUTDOWN, 0)))
  }

  lemma DeviceInitSplit(w: Wiring, n: nat, i: nat)
    ensures Transmit(w, n, DeviceInit(i)) == DeviceEvents(w, n, i)
  {
    var c1, c2, c3 := [Command(i, OP_DISPLAYTEST, 0)], [Command(i, OP_SCANLIMIT, 7)], [Command(i, OP_DECODEMODE, 0)];
    var sweep, c5 := RowSweep(i, ZeroRows(8)), [Command(i, OP_SHUTDOWN, 0)];
    assert DeviceInit(i) == c1 + c2 + c3 + sweep + c5;
    TransmitAppend(w, n, c1, c2);
    TransmitAppend(w, n, c1 + c2, c3);
    TransmitAppend(w, n, c1 + c2 + c3, sweep);
    TransmitAppend(w, n, c1 + c2 + c3 + sweep, c5);
    TransmitOne(w, n, c1[0]);
    TransmitOne(w, n, c2[0]);
    TransmitOne(w, n, c3[0]);
    TransmitOne(w, n, c5[0]);
  }

  /** The new rows of a device after setColumn(dev, col, value), row r taking bit 7-r of value. */
  function ColumnRows(old_rows: seq<bv8>, col: int, value: bv8): (rows: seq<bv8>)
    requires |old_rows| == 8 && 0 <= col < 8
    ensures |rows| == 8
  {
    seq(8, r requires 0 <= r < 8 => WithLed(old_rows[r], col, Bit(value, 7 - r)))
  }

  /** In row r, the LED of column col shows bit 7-r of value and every other LED is kept. */
  lemma ColumnRowsBit(old_rows: seq<bv8>, col: int, value: bv8, r: nat, k: nat)
    requires |old_rows| == 8 && 0 <= col < 8 && r < 8 && k < 8
    ensures Bit(ColumnRows(old_rows, col, value)[r], k) == if k == 7 - col then Bit(value, 7 - r) else Bit(old_rows[r], k)
  {
    WithLedBit(old_rows[r], col, Bit(value, 7 - r), k);
  }

  /** Row r of ColumnRows, with the bit taken the way setColumn computes it. */
  lemma ColumnRowsAt(old_rows: seq<bv8>, col: int, value: bv8, r: int)
    requires |old_rows| == 8 && 0 <= col < 8 && 0 <= r < 8
    ensures ColumnRows(old_rows, col, value)[r] == WithLed(old_rows[r], col, (value >> (7 - r)) & 0x01 != 0)
  {
    ShiftRightBit(value, 7 - r);
  }

  /** k blank rows. */
  function ZeroRows(k: nat): (rows: seq<bv8>)
    ensures |rows| == k && forall i :: 0 <= i < k ==> rows[i] == 0
  {
    seq(k, _ => 0)
  }

  /** What the constructor sends to device i. */
  function DeviceInit(i: nat): (cmds: seq<Command>)
  {
    [Command(i, OP_DISPLAYTEST, 0), Command(i, OP_SCANLIMIT, 7), Command(i, OP_DECODEMODE, 0)]
    + RowSweep(i, ZeroRows(8)) + [Command(i, OP_SHUTDOWN, 0)]
  }

  /** What the constructor sends to devices 0..n-1, device by device. */
  function InitCommands(n: nat): (cmds: seq<Command>)
  {
    if n == 0 then [] else InitCommands(n - 1) + DeviceInit(n - 1)
  }

  class LedMatrix {
    /** GPIO number of the chain's DIN line. */
    const pinDIN: int
    /** GPIO number of the chain's CLK line. */
    const pinCLK: int
    /** GPIO number of the chain's LOAD line; low while a transfer is shifted in. */
    const pinCS: int
    /** Transfer buffer: one (data, opcode) byte pair per device; 16 bytes cover the largest chain. */
    const spiData: array<bv8>
    /** Mirror of the digit registers: row byte dev * 8 + row for each of up to 8 devices. */
    const status: array<bv8>
    /** Length of the chain, fixed by the constructor. */
    const maxDevices: int
    /** Every GPIO write made so far, in order. */
    ghost var trace: seq<PinEvent>

    ghost predicate Valid() {
      && spiData.Length == 16 && status.Length == 64 && spiData != status
      && 1 <= maxDevices <= MAX_DEVICES
    }

    function Wires(): Wiring {
      Wiring(pinDIN, pinCLK, pinCS)
    }

    /** The chip select is driven high once the pins are configured (initPins). */
    constructor (dataPin: int, clkPin: int, csPin: int, numDevices: int := 1)
      ensures Valid() && fresh(spiData) && fresh(status)
      ensures pinDIN == dataPin && pinCLK == clkPin && pinCS == csPin
      ensures maxDevices == ClampDevices(numDevices)
      ensures forall k :: 0 <= k < 64 ==> status[k] == 0
      ensures trace == [PinWrite(csPin, true)] + Transmit(Wires(), maxDevices, InitCommands(maxDevices))
    {
      pinDIN, pinCLK, pinCS := dataPin, clkPin, csPin;
      maxDevices := ClampDevices(numDevices);
      spiData := new bv8[16](_ => 0);
      status := new bv8[64](_ => 0);
      trace := [];
      new;
      SetPin(pinCS, 1);
      InitDevices();
    }

    /** The loop of the constructor: every device of the chain is initialised in turn. */
    method InitDevices()
      requires Valid() && forall k :: 0 <= k < 64 ==> status[k] == 0
      modifies this`trace, spiData, status
      ensures Valid() && forall k :: 0 <= k < 64 ==> status[k] == 0
      ensures trace == old(trace) + Transmit(Wires(), maxDevices, InitCommands(maxDevices))
    {
      var i := 0;
      while i < maxDevices
        invariant 0 <= i <= maxDevices
        invariant Valid()
        invariant forall k :: 0 <= k < 64 ==> status[k] == 0
        invariant trace == old(trace) + InitEvents(Wires(), maxDevices, i)
      {
        InitDevice(i);
        AppendAssoc(old(trace), InitEvents(Wires(), maxDevices, i), Transmit(Wires(), maxDevices, DeviceInit(i)));
        i := i + 1;
      }
      InitEventsTransmit(Wires(), maxDevices, maxDevices);
    }

    /** One pass of the constructor's loop: device i leaves test mode, scans all 8 digits, decodes nothing, is blanked and shut down. */
    method InitDevice(i: int)
      requires Valid() && 0 <= i < maxDevices
      modifies this`trace, spiData, status
      ensures Valid()
      ensures forall k :: 0 <= k < 64 ==> status[k] == if i * 8 <= k < i * 8 + 8 then 0 else old(status[k])
      ensures trace == old(trace) + Transmit(Wires(), maxDevices, DeviceInit(i))
    {
      ghost var t0 := trace;
      SpiTransfer(i, OP_DISPLAYTEST, 0);
      ghost var t1 := trace;
      SetScanLimit(i, 7);
      ghost var t2 := trace;
      SpiTransfer(i, OP_DECODEMODE, 0);
      ghost var t3 := trace;
      ClearDisplay(i);
      ghost var t4 := trace;
      Shutdown(i, true);
      ghost var w, n := Wires(), maxDevices;
      assert 7 as bv8 == 7;
      ChainFive(t0, t1, t2, t3, t4, trace,
                TransferEvents(w, Frame(n, Command(i, OP_DISPLAYTEST, 0))), TransferEvents(w, Frame(n, Command(i, OP_SCANLIMIT, 7))),
                TransferEvents(w, Frame(n, Command(i, OP_DECODEMODE, 0))), Transmit(w, n, RowSweep(i, ZeroRows(8))),
                TransferEvents(w, Frame(n, Command(i, OP_SHUTDOWN, 0))));
      DeviceInitSplit(w, n, i);
    }

    /** GPIO write; any nonzero level drives the pin high. */
    method SetPin(pin: int, value: int)
      modifies this`trace
      ensures trace == old(trace) + [PinWrite(pin, value != 0)]
    {
      trace := trace + [PinWrite(pin, value != 0)];
    }

    /**
     * Sends one command to device dev: zero-fills the chain's 2*maxDevices bytes,
     * puts (data, opcode) at 2*dev, 2*dev+1, and shifts the buffer out from the
     * highest byte down, each byte MSB first, with CS held low around it.
     */
    method SpiTransfer(dev: int, opcode: bv8, data: bv8)
      requires Valid() && 0 <= dev < maxDevices
      modifies this`trace, spiData
      ensures Valid()
      ensures spiData[..2 * maxDevices] == Frame(maxDevices, Command(dev, opcode, data))
      ensures spiData[2 * maxDevices..] == old(spiData[2 * maxDevices..])
      ensures trace == old(trace) + TransferEvents(Wires(), Frame(maxDevices, Command(dev, opcode, data)))
    {
      var offset := dev * 2;
      var maxBytes := maxDevices * 2;
      for i := 0 to maxBytes
        invariant forall k :: 0 <= k < i ==> spiData[k] == 0
        invariant forall k :: maxBytes <= k < spiData.Length ==> spiData[k] == old(spiData[k])
        invariant trace == old(trace)
      {
        spiData[i] := 0;
      }
      spiData[offset + 1] := opcode;
      spiData[offset] := data;
      ghost var f := Frame(maxDevices, Command(dev, opcode, data));
      assert spiData[..maxBytes] == f;
      assert spiData[maxBytes..] == old(spiData[maxBytes..]);
      ghost var t0 := trace;
      SetPin(pinCS, 0);
      ghost var t1 := trace;
      ShiftOutBuffer(maxBytes);
      ghost var t2 := trace;
      SetPin(pinCS, 1);
      ChainThree(t0, t1, t2, trace, [PinWrite(pinCS, false)], ShiftOut(Wires(), f, 0), [PinWrite(pinCS, true)]);
      TransferPhases(Wires(), f);
    }

    /** Shifts spiData[count-1] down to spiData[0] out on DIN (the byte loop of spiTransfer). */
    method ShiftOutBuffer(count: int)
      requires 0 <= count <= spiData.Length
      modifies this`trace
      ensures trace == old(trace) + ShiftOut(Wires(), spiData[..count], 0)
    {
      ghost var f := spiData[..count];
      var i := count;
      while i > 0
        invariant 0 <= i <= count
        invariant trace == old(trace) + ShiftOut(Wires(), f, i)
      {
        ShiftOutByte(spiData[i - 1]);
        assert ShiftOut(Wires(), f, i - 1) == ShiftOut(Wires(), f, i) + ByteEvents(Wires(), f[i - 1], 0);
        AppendAssoc(old(trace), ShiftOut(Wires(), f, i), ByteEvents(Wires(), f[i - 1], 0));
        i := i - 1;
      }
    }

    /** Clocks one byte out on DIN, most significant bit first (the inner loop of spiTransfer). */
    method ShiftOutByte(x: bv8)
      modifies this`trace
      ensures trace == old(trace) + ByteEvents(Wires(), x, 0)
    {
      var byteData := x;
      var j := 0;
      while j < 8
        invariant 0 <= j <= 8
        invariant old(trace) + ByteEvents(Wires(), x, 0) == trace + ByteEvents(Wires(), byteData, j)
      {
        ghost var t := trace;
        SetPin(pinCLK, 0);
        assert ((byteData & 0x80) as int != 0) == (byteData & 0x80 != 0);
        SetPin(pinDIN, (byteData & 0x80) as int);
        SetPin(pinCLK, 1);
        assert trace == t + ClockBit(Wires(), byteData & 0x80 != 0);
        AppendAssoc(t, ClockBit(Wires(), byteData & 0x80 != 0), ByteEvents(Wires(), byteData << 1, j + 1));
        byteData := byteData << 1;
        j := j + 1;
      }
    }

    /** The chain length the driver was configured with. */
    method GetDeviceCount() returns (count: int)
      requires Valid()
      ensures count == maxDevices && 1 <= count <= MAX_DEVICES
    {
      count := maxDevices;
    }

    /** Shutdown register: state true powers the device down, false is normal operation. */
    method Shutdown(dev: int, state: bool)
      requires Valid()
      modifies this`trace, spiData
      ensures Valid()
      ensures 0 <= dev < maxDevices ==> trace == old(trace) + TransferEvents(Wires(), Frame(maxDevices, Command(dev, OP_SHUTDOWN, if state then 0 else 1)))
      ensures !(0 <= dev < maxDevices) ==> trace == old(trace)
    {
      if dev < 0 || dev >= maxDevices {
        return;
      }
      SpiTransfer(dev, OP_SHUTDOWN, if !state then 1 else 0);
    }

    /** Scan-limit register; only register values 0..7 are sent. */
    method SetScanLimit(dev: int, limit: int)
      requires Valid()
      modifies this`trace, spiData
      ensures Valid()
      ensures 0 <= dev < maxDevices && 0 <= limit < 8 ==> trace == old(trace) + TransferEvents(Wires(), Frame(maxDevices, Command(dev, OP_SCANLIMIT, limit as bv8)))
      ensures !(0 <= dev < maxDevices && 0 <= limit < 8) ==> trace == old(trace)
    {
      if dev < 0 || dev >= maxDevices {
        return;
      }
      if limit >= 0 && limit < 8 {
        SpiTransfer(dev, OP_SCANLIMIT, limit as bv8);
      }
    }

    /** Intensity register; only brightness values 0..15 are sent. */
    method SetIntensity(dev: int, intensity: int)
      requires Valid()
      modifies this`trace, spiData
      ensures Valid()
      ensures 0 <= dev < maxDevices && 0 <= intensity < 16 ==> trace == old(trace) + TransferEvents(Wires(), Frame(maxDevices, Command(dev, OP_INTENSITY, intensity as bv8)))
      ensures !(0 <= dev < maxDevices && 0 <= intensity < 16) ==> trace == old(trace)
    {
      if dev < 0 || dev >= maxDevices {
        return;
      }
      if intensity >= 0 && intensity < 16 {
        SpiTransfer(dev, OP_INTENSITY, intensity as bv8);
      }
    }

    /** Switches every LED of device dev off: zeroes its 8 mirror rows and sends them. */
    method ClearDisplay(dev: int)
      requires Valid()
      modifies this`trace, spiData, status
      ensures Valid()
      ensures forall k :: 0 <= k < 64 ==>
        status[k] == if 0 <= dev < maxDevices && dev * 8 <= k < dev * 8 + 8 then 0 else old(status[k])
      ensures 0 <= dev < maxDevices ==> trace == old(trace) + Transmit(Wires(), maxDevices, RowSweep(dev, ZeroRows(8)))
      ensures !(0 <= dev < maxDevices) ==> trace == old(trace)
    {
      if dev < 0 || dev >= maxDevices {
        return;
      }
      var offset := dev * 8;
      for i := 0 to 8
        invariant Valid()
        invariant status[..] == Overlay(old(status[..]), offset, ZeroRows(8), i)
        invariant trace == old(trace) + Sweep(Wires(), maxDevices, dev, ZeroRows(8), i)
      {
        status[offset + i] := 0;
        var v := status[offset + i];
        SpiTransfer(dev, (i + 1) as bv8, v);
        AppendAssoc(old(trace), Sweep(Wires(), maxDevices, dev, ZeroRows(8), i),
                    TransferEvents(Wires(), Frame(maxDevices, Command(dev, (i + 1) as bv8, v))));
      }
      forall k | 0 <= k < 64
        ensures status[k] == if offset <= k < offset + 8 then 0 else old(status[k])
      {
        OverlayAt(old(status[..]), offset, ZeroRows(8), 8, k);
      }
      SweepAll(Wires(), maxDevices, dev, ZeroRows(8));
    }

    /** Switches the LED at (row, column) of device dev on or off and sends that row. */
    method SetLed(dev: int, row: int, column: int, state: bool)
      requires Valid()
      modifies this`trace, spiData, status
      ensures Valid()
      ensures if ValidRow(maxDevices, dev, row) && 0 <= column < 8 then
          && status[..] == old(status[..])[dev * 8 + row := WithLed(old(status[dev * 8 + row]), column, state)]
          && trace == old(trace) + TransferEvents(Wires(), Frame(maxDevices, Command(dev, (row + 1) as bv8, status[dev * 8 + row])))
        else
          status[..] == old(status[..]) && trace == old(trace)
    {
      if dev < 0 || dev >= maxDevices {
        return;
      }
      if row < 0 || row > 7 || column < 0 || column > 7 {
        return;
      }
      var offset := dev * 8;
      var val: bv8 := 0x80 >> column;
      ColumnMask(column);
      if state {
        status[offset + row] := status[offset + row] | val;
      } else {
        val := !val;
        status[offset + row] := status[offset + row] & val;
      }
      SpiTransfer(dev, (row + 1) as bv8, status[offset + row]);
    }

    /** Sets the 8 LEDs of a row of device dev from the bits of value and sends it. */
    method SetRow(dev: int, row: int, value: bv8)
      requires Valid()
      modifies this`trace, spiData, status
      ensures Valid()
      ensures status[..] == AfterSetRow(old(status[..]), maxDevices, dev, row, value)
      ensures ValidRow(maxDevices, dev, row) ==>
        trace == old(trace) + TransferEvents(Wires(), Frame(maxDevices, Command(dev, (row + 1) as bv8, value)))
      ensures !ValidRow(maxDevices, dev, row) ==> trace == old(trace)
    {
      if dev < 0 || dev >= maxDevices {
        return;
      }
      if row < 0 || row > 7 {
        return;
      }
      var offset := dev * 8;
      status[offset + row] := value;
      SpiTransfer(dev, (row + 1) as bv8, status[offset + row]);
    }

    /** One pass of the loop of setColumn: the LED of row `row` takes bit 7-row of value. */
    method ColumnStep(dev: int, col: int, value: bv8, row: int, ghost s0: seq<bv8>, ghost target: seq<bv8>)
      requires Valid() && 0 <= dev < maxDevices && 0 <= col < 8 && 0 <= row < 8
      requires |s0| == 64 && target == ColumnRows(s0[dev * 8 .. dev * 8 + 8], col, value)
      requires status[..] == Overlay(s0, dev * 8, target, row)
      modifies this`trace, spiData, status
      ensures Valid()
      ensures status[..] == Overlay(s0, dev * 8, target, row + 1)
      ensures trace == old(trace) + TransferEvents(Wires(), Frame(maxDevices, Command(dev, (row + 1) as bv8, target[row])))
    {
      var val: bv8 := value >> (7 - row);
      val := val & 0x01;
      ghost var p := dev * 8 + row;
      ghost var before := status[..];
      OverlayAt(s0, dev * 8, target, row, p);
      ColumnRowsAt(s0[dev * 8 .. dev * 8 + 8], col, value, row);
      assert before[p] == s0[p];
      SetLed(dev, row, col, val != 0);
      assert status[..] == before[p := target[row]];
    }

    /** Sets the 8 LEDs of column col of device dev: row r takes bit 7-r of value. */
    method SetColumn(dev: int, col: int, value: bv8)
      requires Valid()
      modifies this`trace, spiData, status
      ensures Valid()
      ensures if 0 <= dev < maxDevices && 0 <= col < 8 then
          && (forall k :: 0 <= k < 64 ==>
                status[k] == if dev * 8 <= k < dev * 8 + 8 then ColumnRows(old(status[dev * 8 .. dev * 8 + 8]), col, value)[k - dev * 8]
                             else old(status[k]))
          && trace == old(trace) + Transmit(Wires(), maxDevices, RowSweep(dev, ColumnRows(old(status[dev * 8 .. dev * 8 + 8]), col, value)))
        else
          status[..] == old(status[..]) && trace == old(trace)
    {
      if dev < 0 || dev >= maxDevices {
        return;
      }
      if col < 0 || col > 7 {
        return;
      }
      var offset := dev * 8;
      ghost var s0 := status[..];
      ghost var target := ColumnRows(s0[offset .. offset + 8], col, value);
      for row := 0 to 8
        invariant Valid()
        invariant status[..] == Overlay(s0, offset, target, row)
        invariant trace == old(trace) + Sweep(Wires(), maxDevices, dev, target, row)
      {
        ColumnStep(dev, col, value, row, s0, target);
        AppendAssoc(old(trace), Sweep(Wires(), maxDevices, dev, target, row),
                    TransferEvents(Wires(), Frame(maxDevices, Command(dev, (row + 1) as bv8, target[row]))));
      }
      forall k | 0 <= k < 64
        ensures status[k] == if offset <= k < offset + 8 then target[k - offset] else s0[k]
      {
        OverlayAt(s0, offset, target, 8, k);
      }
      SweepAll(Wires(), maxDevices, dev, target);
    }
  }
}
