# iot_led_matrix display core in Dafny

This project models the display path of the iot_led_matrix firmware (an ESP32 clock and
spectrum display on a chain of eight MAX7219 8x8 LED matrices) and proves properties of it.

- **Max7219** (`max7219.dfy`): the serial protocol of the MAX7219 daisy chain. It covers:
  - the register addresses;
  - the 2n-byte transfer buffer for one command (`Frame`);
  - the GPIO writes of one transfer (CS low, 16n clock cycles MSB first from the highest buffer index, CS high);
  - a receiver model of the chain, in which DIN is sampled on each rising CLK edge while CS is low and each device latches its 16 bits when CS rises.
  
  The main result is `ChainLatchesCommand`: after one transfer, the addressed device latches `(opcode, data)` and every other device latches the no-op word.
- **LedMatrixDriver** (`led_matrix.dfy`): the driver class `LedMatrix`. It has:
  - the pins and `maxDevices`;
  - the transfer buffer `spiData[16]`;
  - the row mirror `status[64]`;
  - a ghost `trace` of every GPIO write, where any nonzero level counts as high.
  
  Every public operation is a method. Each method's postcondition states the new mirror and the exact pin writes it appends.
- **LedCanvas** (`led_canvas.dfy`): `LEDCanvas::display`, which sends a 1-bit bitmap to the chain row by row.
  - The calls it makes are the list `Calls`. `Apply` gives their effect on the mirror and `Sent` gives the commands put on the wire.
  - Lemmas give the call order and the target of each call. They also show that the cell-to-device map fills the whole chain when the 8x8 blocks of the bitmap are exactly as many as the devices, and that a second display of the same bitmap leaves the mirror as the first one left it.
- **Interval** (`interval_call.dfy`): the `IntervalCall` rate limiter. The clock reading is an argument and must never go backwards. A ghost record of firing times proves they are spaced more than the interval apart.
- **App** (`app.dfy`): the application logic of `main.cpp` that drives the display:
  - the button state machine of `check_button`, with its wrapping `uint8_t` counters and the `uint32_t` gain capped at 100;
  - the debounce decision of each button;
  - the bars and falling peaks of `show_music`;
  - the display set-up of `app_main`: 8 devices on GPIO 8/6/7 and a 32x16 canvas.

Where the header comments and the code disagree, the model follows the code.
- The scan limit is documented as 1..8 but sent as register value 0..7.
- The canvas header declares a raw `LedMatrix*` while the implementation takes a `shared_ptr`. The model holds one reference to a `LedMatrix`.

`spiTransfer` zero-fills the whole 2n-byte frame before it writes the addressed pair, so every other device receives the no-op.

Some behaviours of the code as written, each proved as a lemma (none is claimed as a bug):
- DOWN at a gain below 5 wraps round and lands on the cap of 100 (`GainDownWraps`).
- The 256th SW press repeats kSecond (`SwWrapRepeats`).
- The 256th SET press jumps from kDay straight to kNone (`SetWrapSkips`).
- SET landing on kNone forces kSecond but leaves the SW counter as it was, so the next SW press can go from kSecond to kMon (`SwAfterSetNoneSkips`).

## Model

| member | source | states |
|---|---|---|
| Max7219.Frame | main/matrix/LedMatrix.cpp:34-40 | the buffer for one command has 2n bytes, two per device in the chain |
| Max7219.FrameContents | main/matrix/LedMatrix.cpp:37-40 | in that buffer the addressed device's pair holds data at 2*dev and opcode at 2*dev+1, and every other byte is the no-op 0 |
| Max7219.ByteBits | main/matrix/LedMatrix.cpp:46-52 | a byte goes onto the wire as 8 bits, most significant first |
| Max7219.ByteOfByteBits | main/matrix/LedMatrix.cpp:46-52 | a shift register that receives a byte's 8 bits MSB first holds that byte |
| Max7219.FrameBits | main/matrix/LedMatrix.cpp:45-53 | the bits of a buffer in shifting order: 8 per byte, from the highest index down |
| Max7219.FrameBitsAt | main/matrix/LedMatrix.cpp:45-46 | the bits of byte i sit at positions 8(len-1-i) .. 8(len-i) of the stream of a len-byte buffer |
| Max7219.BitsEvents | main/matrix/LedMatrix.cpp:47-52 | clocking out k bits is 3k pin writes |
| Max7219.ClockBit | main/matrix/LedMatrix.cpp:48-51 | the three writes that send one bit: CLK low, DIN to the bit, CLK high |
| Max7219.ByteEvents | main/matrix/LedMatrix.cpp:46-52 | the pin writes of the bit loop from bit j on: for each remaining bit CLK low, DIN set to `byteData & 0x80`, CLK high, with `byteData` shifted left |
| Max7219.ShiftOut | main/matrix/LedMatrix.cpp:45-53 | the pin writes of the byte loop from the highest unsent index down: every byte of the buffer, highest index first |
| Max7219.TransferEvents | main/matrix/LedMatrix.cpp:42-55 | the pin writes of one transfer: CS low, the byte loop over the whole buffer, CS high |
| Max7219.ByteEventsBits | main/matrix/LedMatrix.cpp:46-52 | the byte loop (test bit 0x80, shift left) clocks out exactly the byte's remaining bits MSB first |
| Max7219.ShiftPrefix | main/matrix/LedMatrix.cpp:50 | after `byteData << 1` the bits still to go are the old ones less the first |
| Max7219.TopBit | main/matrix/LedMatrix.cpp:49 | `byteData & 0x80` is the next bit to go out |
| Max7219.BitsEventsFirst | main/matrix/LedMatrix.cpp:48-51 | a bit is sent as CLK low, DIN set, CLK high |
| Max7219.BitsEventsAppend | main/matrix/LedMatrix.cpp:45-53 | clocking out a + b is clocking out a then b |
| Max7219.ShiftOutBits | main/matrix/LedMatrix.cpp:45-53 | the byte loop from index i down sends exactly the bits of `f[i..]` in shifting order |
| Max7219.TransferHeadShiftOut | main/matrix/LedMatrix.cpp:42-53 | up to the latch, a transfer is CS low followed by the bytes from the top index down |
| Max7219.TransferStep | main/matrix/LedMatrix.cpp:42-55 | the k-th phase of a transfer: CS low, then the byte at index len-k, then CS high |
| Max7219.TransferHead | main/matrix/LedMatrix.cpp:42-55 | the first i phases of a transfer, in order |
| Max7219.TransferPhases | main/matrix/LedMatrix.cpp:42-55 | a transfer is CS low, every byte shifted out, CS high |
| Max7219.TransferShape | main/matrix/LedMatrix.cpp:42-55 | a transfer of a len-byte buffer is 2 + 24*len writes: CS low first and high last, CS untouched in between, and 8*len CLK low/high pulses |
| Max7219.ClockedShape | main/matrix/LedMatrix.cpp:42-55 | any bit sequence between CS low and CS high has that shape |
| Max7219.BitsEventsAvoidCS | main/matrix/LedMatrix.cpp:47-52 | the bit loop never writes the CS pin |
| Max7219.BitsEventsAt | main/matrix/LedMatrix.cpp:47-52 | clock cycle j of a bit sequence is writes 3j .. 3j+3 |
| Max7219.TransmitOne | main/matrix/LedMatrix.cpp:32-56 | one command is sent as one full-chain transfer |
| Max7219.Transmit | main/matrix/LedMatrix.cpp:32-56 | the pin writes of a sequence of spiTransfer calls: one full-chain transfer of Frame(n, c) per command c, in order |
| Max7219.TransmitSnoc | main/matrix/LedMatrix.cpp:32-56 | sending one more command appends its transfer |
| Max7219.TransmitAppend | main/matrix/LedMatrix.cpp:32-56 | sending a + b is sending a then b |
| Max7219.SampledAppend | main/matrix/LedMatrix.cpp:42-55 | the chain's view of a trace splits at any point |
| Max7219.ClockBitSamples | main/matrix/LedMatrix.cpp:48-51 | while CS is low, one clock cycle shifts in exactly the DIN bit |
| Max7219.SampledBits | main/matrix/LedMatrix.cpp:45-53 | while CS is low, clocking out bits shifts in exactly those bits |
| Max7219.WindowSamples | main/matrix/LedMatrix.cpp:42-55 | bits clocked out between CS low and CS high are shifted in, and nothing else is |
| Max7219.TransferShiftsFrameBits | main/matrix/LedMatrix.cpp:42-55 | a transfer shifts the buffer's bits into the chain, whatever the lines were before |
| Max7219.LatchedWord | main/matrix/LedMatrix.cpp:39-40 | device k latches bytes 2k+1 (opcode) and 2k (data) of the buffer |
| Max7219.ChainLatchesCommand | main/matrix/LedMatrix.cpp:32-56 | after one transfer the addressed device latches (opcode, data) and every other device latches the no-op (0, 0) |
| Max7219.SetBitMask | main/matrix/LedMatrix.cpp:106-108 | OR-ing in a one-bit mask sets that bit only |
| Max7219.SetBit | main/matrix/LedMatrix.cpp:108 | the row byte OR-ed with the one-bit mask of bit j |
| Max7219.ClearBitMask | main/matrix/LedMatrix.cpp:109-111 | AND-ing with the complemented mask clears that bit only |
| Max7219.ClearBit | main/matrix/LedMatrix.cpp:110-111 | the row byte AND-ed with the complement of the one-bit mask of bit j |
| Max7219.ShiftRightBit | main/matrix/LedMatrix.cpp:128-129 | `(value >> k) & 0x01` is bit k of value |
| Max7219.ColumnMask | main/matrix/LedMatrix.cpp:106 | `0B10000000 >> column` is the mask of bit 7 - column |
| Max7219.ShiftLeftBits | main/matrix/LedMatrix.cpp:50 | a left shift moves every bit up one place |
| LedMatrixDriver.ClampDevices | main/matrix/LedMatrix.cpp:61-62 | the chain length is in 1..8, and numDevices itself when that is in 1..8 |
| LedMatrixDriver.AfterSetRow | main/matrix/LedMatrix.cpp:116-122 | for a valid (dev, row) the mirror entry dev*8+row becomes value; every other entry, and all of them for invalid arguments, are unchanged |
| LedMatrixDriver.WithLedBit | main/matrix/LedMatrix.cpp:106-112 | switching LED `column` changes bit 7 - column of the row only |
| LedMatrixDriver.WithLed | main/matrix/LedMatrix.cpp:106-111 | the row byte after setLed: OR with `0B10000000 >> column` to switch on, AND with its complement to switch off |
| LedMatrixDriver.ColumnRowsBit | main/matrix/LedMatrix.cpp:124-132 | after setColumn, bit 7 - col of row r is bit 7 - r of value, and the other bits of the row are kept |
| LedMatrixDriver.ColumnRowsAt | main/matrix/LedMatrix.cpp:127-130 | the new row r is the old row with LED col set from `(value >> (7 - r)) & 0x01` |
| LedMatrixDriver.OverlayAt | main/matrix/LedMatrix.cpp:96-99 | writing rows 0..i-1 of a device changes those mirror entries only |
| LedMatrixDriver.Overlay | main/matrix/LedMatrix.cpp:96-99 | the mirror after the first i rows of a device are written one entry after the other |
| LedMatrixDriver.SweepTransmit | main/matrix/LedMatrix.cpp:96-99 | one transfer per row with opcodes 1..i is transmitting the row sweep |
| LedMatrixDriver.RowSweep | main/matrix/LedMatrix.cpp:96-99 | the commands of the row loops of clearDisplay and setColumn: rows 0..7 sent as digit registers 1..8 in order |
| LedMatrixDriver.Sweep | main/matrix/LedMatrix.cpp:96-99 | the pin writes of sending the first i rows one transfer at a time |
| LedMatrixDriver.SweepAll | main/matrix/LedMatrix.cpp:96-99 | the same for the whole sweep of 8 rows |
| LedMatrixDriver.RowSweepSnoc | main/matrix/LedMatrix.cpp:96-99 | the sweep over one more row ends with that row's command (opcode row+1) |
| LedMatrixDriver.ZeroRows | main/matrix/LedMatrix.cpp:97 | the blank rows are all 0 |
| LedMatrixDriver.ColumnRows | main/matrix/LedMatrix.cpp:127-130 | the 8 rows after setColumn: row r is the old row with LED col set from bit 7 - r of value |
| LedMatrixDriver.DeviceInit | main/matrix/LedMatrix.cpp:65-72 | the commands one pass of the constructor's loop sends to device i: display test 0, scan limit 7, decode mode 0, rows 1..8 zero, shutdown 0 |
| LedMatrixDriver.InitCommands | main/matrix/LedMatrix.cpp:64-73 | the constructor's commands for devices 0..n-1, device by device |
| LedMatrixDriver.InitEventsTransmit | main/matrix/LedMatrix.cpp:64-73 | the constructor's device-by-device sends are the transmission of InitCommands |
| LedMatrixDriver.InitEvents | main/matrix/LedMatrix.cpp:64-73 | the pin writes of initialising devices 0..i-1, device by device |
| LedMatrixDriver.DeviceInitSplit | main/matrix/LedMatrix.cpp:65-72 | device i's init is display test off, scan limit 7, no decode, 8 blank rows, shutdown, in that order |
| LedMatrixDriver.DeviceEvents | main/matrix/LedMatrix.cpp:65-72 | the pin writes of one pass of the constructor's loop, call by call |
| LedMatrixDriver.LedMatrix.constructor | main/matrix/LedMatrix.cpp:58-74 | the chain length is clamped, all 64 mirror entries are 0, and the trace is CS high followed by the init commands of every device |
| LedMatrixDriver.LedMatrix.InitDevices | main/matrix/LedMatrix.cpp:64-73 | the constructor's loop keeps the mirror zero and sends InitCommands(maxDevices) |
| LedMatrixDriver.LedMatrix.InitDevice | main/matrix/LedMatrix.cpp:65-72 | one pass zeroes device i's rows, keeps the other rows, and sends DeviceInit(i) |
| LedMatrixDriver.LedMatrix.SetPin | main/matrix/LedMatrix.cpp:30 | one GPIO write, high exactly when the level is nonzero |
| LedMatrixDriver.LedMatrix.SpiTransfer | main/matrix/LedMatrix.cpp:32-56 | afterwards `spiData[0..2n)` is Frame(n, command) and the bytes beyond it are unchanged, and the trace gains exactly that buffer's transfer |
| LedMatrixDriver.LedMatrix.ShiftOutBuffer | main/matrix/LedMatrix.cpp:45-53 | the byte loop sends spiData[count-1] down to spiData[0] |
| LedMatrixDriver.LedMatrix.ShiftOutByte | main/matrix/LedMatrix.cpp:46-52 | the bit loop sends the byte MSB first |
| LedMatrixDriver.LedMatrix.GetDeviceCount | main/matrix/LedMatrix.cpp:76 | returns the clamped chain length |
| LedMatrixDriver.LedMatrix.Shutdown | main/matrix/LedMatrix.cpp:78-81 | for a valid dev sends OP_SHUTDOWN with data !state, otherwise writes no pin; the mirror is untouched |
| LedMatrixDriver.LedMatrix.SetScanLimit | main/matrix/LedMatrix.cpp:83-86 | sends OP_SCANLIMIT only for a valid dev and 0 <= limit < 8; otherwise writes no pin |
| LedMatrixDriver.LedMatrix.SetIntensity | main/matrix/LedMatrix.cpp:88-91 | sends OP_INTENSITY only for a valid dev and 0 <= intensity < 16; otherwise writes no pin |
| LedMatrixDriver.LedMatrix.ClearDisplay | main/matrix/LedMatrix.cpp:93-100 | zeroes exactly status[dev*8 .. dev*8+8) and sends 8 transfers with opcodes 1..8 and data 0; nothing for an invalid dev |
| LedMatrixDriver.LedMatrix.SetLed | main/matrix/LedMatrix.cpp:102-114 | for valid arguments only bit 0x80 >> column of status[dev*8+row] changes, and that row is sent with opcode row+1; otherwise nothing changes and no pin is written |
| LedMatrixDriver.LedMatrix.SetRow | main/matrix/LedMatrix.cpp:116-122 | the mirror becomes AfterSetRow; a valid call sends (row+1, value) to dev, an invalid one writes no pin |
| LedMatrixDriver.LedMatrix.ColumnStep | main/matrix/LedMatrix.cpp:127-131 | one pass of setColumn's loop writes row `row` of the new column into the mirror and sends it |
| LedMatrixDriver.LedMatrix.SetColumn | main/matrix/LedMatrix.cpp:124-132 | the device's 8 rows become ColumnRows (bit 7 - col of row r from bit 7 - r of value, other bits kept) and are sent row by row; other devices are untouched, and invalid arguments change nothing |
| LedCanvas.Calls | main/matrix/LEDCanvas.cpp:13-17 | display makes one call per cell: h * (width/8) + w calls before cell (h, w) |
| LedCanvas.Apply | main/matrix/LEDCanvas.cpp:15 | the mirror after the calls keeps its 64 entries |
| LedCanvas.Target | main/matrix/LEDCanvas.cpp:15 | the device argument of the setRow call for cell (h, w): devNum - (h/8 * devNumHorizon + w) - 1 |
| LedCanvas.Cell | main/matrix/LEDCanvas.cpp:15 | the setRow call for cell (h, w): that device, row h % 8, byte buffer[h * devNumHorizon + w] |
| LedCanvas.Sent | main/matrix/LEDCanvas.cpp:15 | the commands the calls put on the wire: for each call in order, (row + 1, value) to its device when setRow's guards pass, nothing otherwise |
| LedCanvas.CallsAt | main/matrix/LEDCanvas.cpp:13-17 | row-major order: call number h*(width/8)+w is the call for cell (h, w), to device devNum - (h/8*(width/8) + w) - 1, row h % 8, with byte buffer[h*(width/8)+w] |
| LedCanvas.CallsCell | main/matrix/LEDCanvas.cpp:13-17 | every call is the call for some cell of the bitmap |
| LedCanvas.CellsApart | main/matrix/LEDCanvas.cpp:15 | two different cells never address the same device row |
| LedCanvas.Covering | main/matrix/LEDCanvas.cpp:15 | when (width/8)*(height/8) == devNum, every row of every device is addressed by some cell |
| LedCanvas.ApplySnoc | main/matrix/LEDCanvas.cpp:15 | one more call applies setRow to the mirror |
| LedCanvas.SentSnoc | main/matrix/LEDCanvas.cpp:15 | one more call sends one command when its (dev, row) is valid and nothing otherwise |
| LedCanvas.ApplyWritten | main/matrix/LEDCanvas.cpp:13-17 | each mirror entry ends with the value of the last call that stores into it, or keeps its own |
| LedCanvas.WrittenTwice | main/matrix/LEDCanvas.cpp:13-17 | replaying the calls on their own result changes no entry |
| LedCanvas.ApplyTwice | main/matrix/LEDCanvas.cpp:12-17 | a second display of an unchanged bitmap leaves the mirror as the first one left it |
| LedCanvas.WrittenUnique | main/matrix/LEDCanvas.cpp:13-17 | an entry only one call stores into ends with that call's value |
| LedCanvas.UniqueWriterWins | main/matrix/LEDCanvas.cpp:13-17 | the same, for the mirror |
| LedCanvas.WrittenNone | main/matrix/LEDCanvas.cpp:15 | an entry no call stores into keeps its value |
| LedCanvas.DisplayStep | main/matrix/LEDCanvas.cpp:15 | one setRow of the loop extends the mirror and the trace by the call for cell (h, w) |
| LedCanvas.OtherCallsMiss | main/matrix/LEDCanvas.cpp:15 | no other call writes the device row of cell (h, w) |
| LedCanvas.DisplayShowsCell | main/matrix/LEDCanvas.cpp:15 | every cell whose computed device exists ends up in row h % 8 of that device |
| LedCanvas.DisplayMirrorsBitmap | main/matrix/LEDCanvas.cpp:13-17 | when (width/8)*(height/8) == devNum, afterwards status[d*8+r] is the bitmap byte of its block for every d and r; the top-left block feeds device devNum-1 |
| LedCanvas.DisplayKeepsUnreached | main/matrix/LEDCanvas.cpp:15 | calls with a negative or too large device are dropped, so rows no cell reaches keep their value |
| LedCanvas.LEDCanvas.constructor | main/matrix/LEDCanvas.cpp:5 | the canvas holds the given matrix, its size and a blank bitmap large enough for display |
| LedCanvas.LEDCanvas.Display | main/matrix/LEDCanvas.cpp:9-18 | the bitmap is not modified, the mirror becomes Apply of all the calls, and the trace gains the transmission of the valid ones, in order |
| Interval.SpacedApart | main/utils/IntervalCall.hpp:12-13 | any two firing times are more than the interval apart |
| Interval.OneFiringPerWindow | main/utils/IntervalCall.hpp:12-13 | a window as long as the interval holds at most one firing |
| Interval.SpacedSnoc | main/utils/IntervalCall.hpp:12-13 | a new firing more than the interval after the last keeps the times spaced |
| Interval.IntervalCall.constructor | main/utils/IntervalCall.hpp:8 | the interval and the callback are fixed at construction; the last firing starts at the epoch |
| Interval.IntervalCall.Poll | main/utils/IntervalCall.hpp:10-18 | fires exactly when now - lastTime > interval (strictly); firing sets lastTime := now and runs the callback once, otherwise nothing changes |
| App.Inc8 | main/main.cpp:164 | `++count` on a uint8_t: the next value, with 255 wrapping to 0 |
| App.BottomOf | main/main.cpp:164 | `static_cast<BottomShowType>(k)` for k in 0..2: kSecond, kYear, kMon |
| App.TimeSettingOf | main/main.cpp:169 | `static_cast<TimeSettingType>(k)` for k in 0..5: kNone, kMin, kHour, kDay, kMon, kYear |
| App.DeviceOf | main/main.cpp:215 | `static_cast<DeviceShowType>(k)` for k in 0..1: the clock view, then the music view |
| App.AdjustGain | main/main.cpp:176-179 | the gain after UP or DOWN is within 0..100 |
| App.GainUp | main/main.cpp:176-179 | UP adds 5, capped at 100 |
| App.GainDown | main/main.cpp:176-179 | DOWN subtracts 5 from a gain of 5..105 |
| App.GainDownWraps | main/main.cpp:176-179 | DOWN from a gain below 5 wraps round and gives 100 |
| App.GainStep | main/main.cpp:176-179 | from 0..100, UP and DOWN move by 5, stop at 100, and DOWN below 5 jumps to 100 |
| App.SwAdvances | main/main.cpp:161-165 | SW steps kSecond, kYear, kMon, kSecond, ... |
| App.SwWrapRepeats | main/main.cpp:161-165 | the press that wraps the counter shows kSecond twice in a row |
| App.SwAfterSetNoneSkips | main/main.cpp:161-172 | SET landing on kNone forces kSecond without touching the SW counter, so from a counter at a kYear position the next SW shows kMon and kYear is skipped |
| App.SetAdvances | main/main.cpp:166-173 | SET steps kNone, kMin, kHour, kDay, kMon, kYear, kNone, ... |
| App.SetWrapSkips | main/main.cpp:166-173 | the press that wraps the counter jumps from kDay to kNone |
| App.FunAlternates | main/main.cpp:213-216 | FUN always toggles between the clock and the spectrum, across the wrap too |
| App.Controls.constructor | main/main.cpp:50-53 | the modes and counters start at zero and the gain is the stored one |
| App.Controls.CheckButton | main/main.cpp:156-220 | SW, SET, FUN and UP/DOWN in the music view change the state as described, with SET landing on kNone forcing kSecond; an empty queue, an unknown pin, or UP/DOWN outside the music view leave the state unchanged |
| App.Button.constructor | main/main.cpp:137-141 | each button has its own 100 ms debounce timer, unfired, its clock at the epoch |
| App.Button.Edge | main/main.cpp:147-150 | an edge is passed on exactly when the debounce poll fires; the timer's clock, last firing and firing record advance as Poll states, so edges can be chained |
| App.BarHeight | main/main.cpp:382 | a bar is min(15, quotient): at most 15 and at most the quotient |
| App.BarOnCanvas | main/main.cpp:387 | the bar spans rows 15 - height .. 15 of the 16-row canvas |
| App.Bars | main/main.cpp:381-388 | every bar height is BarHeight of its quotient |
| App.RaisedIsMax | main/main.cpp:383-385 | after the amplitude pass a peak is max(old peak, bar), at least the bar |
| App.Raised | main/main.cpp:383-385 | the peaks after the amplitude pass: a peak below its bar is raised to the bar, others are kept |
| App.Decayed | main/main.cpp:391-396 | the decay callback's effect: every nonzero peak drops by one, a zero peak stays zero |
| App.DecayedBy | main/main.cpp:391-396 | the peaks after t firings of the decay callback |
| App.DecayedStep | main/main.cpp:391-397 | a decay tick lowers a nonzero peak by 1 and leaves 0 at 0 |
| App.DecayedByDrops | main/main.cpp:391-398 | after t ticks with no higher bar, a peak p is max(0, p - t) |
| App.PeaksStayOnCanvas | main/main.cpp:383-400 | peaks stay in 0..15, so the peak pixel row 15 - peak is on the canvas |
| App.Spectrum.constructor | main/main.cpp:376-377 | the 32 peaks start at 0 and the 50 ms decay timer, with its callback, has not fired: clock at the epoch, no callback runs |
| App.Spectrum.Show | main/main.cpp:375-400 | returns the bar heights; the peaks become max(peak, bar), then fall by one exactly when the 50 ms timer fires; the timer's clock, last firing, firing record and callback count advance as Poll states |
| App.Spectrum.DecayPeaks | main/main.cpp:391-397 | the timer's callback: every peak becomes Decayed |
| App.WakeDevice | main/main.cpp:435-437 | one pass of the start-up loop wakes device i, sets intensity 1 and blanks its rows |
| App.DeviceWake | main/main.cpp:435-437 | the commands one pass of the start-up loop sends to device i: shutdown 1 (normal operation), intensity 1, rows 1..8 zero |
| App.WakeCommands | main/main.cpp:434-438 | the start-up loop's commands for devices 0..n-1, device by device |
| App.Setup | main/main.cpp:433-440 | a fresh chain of 8 devices on GPIO 8, 6, 7 with fresh buffers and mirror all zero; the trace is the constructor's then every device's wake-up; a fresh 32x16 canvas on the chain with a blank 64-byte bitmap, ready for Display |
| App.SetupShowsWholeCanvas | main/main.cpp:433-440 | with 8 devices and a 32x16 canvas every display makes each device row its bitmap byte |

## Left out

- GPIO configuration in `initPins` (main/matrix/LedMatrix.cpp:22-26) is left out. Only its CS-high write is modelled.
- The electrical timing of the pin writes is left out. The trace records only their order.
- Clock readings are steady-clock ticks. The model takes a tick to be 1 ns (`TICKS_PER_MS` = 1000000), because libstdc++'s `steady_clock` counts nanoseconds. A platform with another tick length is modelled by changing that constant.
- `spiTransfer` is private and every caller checks `dev` first, so `SpiTransfer` requires a valid device.
- SpiTransfer: only this method states what `spiData` holds afterwards. The other methods state only the mirror and the trace.
- Max7219.SampledBits: it states which bits are shifted in and that CS stays low. It does not state the final DIN and CLK levels.
- The Adafruit GFX canvas (fillScreen, drawLine, drawPixel, text) and its memory layout are not part of this model.
  - The bitmap is a byte array of `((width + 7) / 8) * height` bytes. `display` reads it with a row stride of `width / 8`, and the two agree for the 32-pixel width used here.
  - `show_music`'s drawing calls and its final `display()` are left out. Only the bar heights and the peaks are modelled.
- The ADC sampling, the FFT and the floating-point division by `soundGain` in `show_music` are left out. The per-bar quotient `(uint16_t)(pointsAmp[1+i]/soundGain)` is an input. A gain of 0 would make that division undefined, and the model does not cover it.
- NVS persistence of `soundGain` is left out. The constructor of `Controls` takes the stored value as an argument.
- The time-of-day edit by UP/DOWN outside the music view (`localtime`, `mktime`, `settimeofday`) is left out. The modelled state is unchanged in that case.
- The ISR registration and the FreeRTOS queue between the button interrupt and `check_button` are left out.
  - `Button.Edge` returns the pin the interrupt would enqueue.
  - `CheckButton` receives the dequeued pin, or `None` for an empty queue.
- IntervalCall's callback is a flag plus a ghost count of its runs. The callback's effect is carried out by the caller when `Poll` reports a firing, as `Spectrum.Show` does with `DecayPeaks`.
- The blink animations that use IntervalCall (main/main.cpp:242-317) belong to the clock view. They are GFX drawing and are left out.
- Wi-Fi, SNTP, the event loop, the loading animation and the MIDI player (main2.cpp) are not part of this model.
