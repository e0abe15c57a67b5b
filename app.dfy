/**
 * The application logic of main/main.cpp that drives the display: the button
 * state machine (check_button), the bars and falling peaks of the spectrum view
 * (show_music), the button debounce and the start-up configuration of app_main.
 *
 * Times are readings of the steady clock in its own ticks, passed in by the
 * caller; std::chrono::steady_clock counts nanoseconds, so a millisecond is
 * TICKS_PER_MS ticks and the intervals below are converted to ticks as the
 * std::chrono::milliseconds arguments are.
 */
module App {
  import opened Max7219
  import opened LedMatrixDriver
  import opened LedCanvas
  import opened Interval

  datatype Option<T> = None | Some(value: T)

  datatype BottomShowType = BottomSecond | BottomYear | BottomMon
  datatype TimeSettingType = SetNone | SetMin | SetHour | SetDay | SetMon | SetYear
  datatype DeviceShowType = ShowTime | ShowMusic

  // GPIO numbers of the five buttons.
  const BUTTON_UP := 1
  const BUTTON_DOWN := 2
  const BUTTON_SET := 3
  const BUTTON_SW := 4
  const BUTTON_FUN := 5

  const UINT8 := 0x100
  const UINT32 := 0x1_0000_0000
  /** Steady-clock ticks (nanoseconds) per millisecond. */
  const TICKS_PER_MS := 1_000_000
  /** Debounce interval of every button: 100 ms. */
  const DEBOUNCE := 100 * TICKS_PER_MS
  /** Interval of the falling-peak animation: 50 ms. */
  const DECAY := 50 * TICKS_PER_MS

  /** static_cast<BottomShowType>(k), for k below BottomShowTypeNum. */
  function BottomOf(k: int): BottomShowType
    requires 0 <= k < 3
  {
    if k == 0 then BottomSecond else if k == 1 then BottomYear else BottomMon
  }

  /** static_cast<TimeSettingType>(k), for k below TimeSettingTypeNum. */
  function TimeSettingOf(k: int): TimeSettingType
    requires 0 <= k < 6
  {
    if k == 0 then SetNone else if k == 1 then SetMin else if k == 2 then SetHour
    else if k == 3 then SetDay else if k == 4 then SetMon else SetYear
  }

  /** static_cast<DeviceShowType>(k), for k below DeviceShowTypeNum. */
  function DeviceOf(k: int): DeviceShowType
    requires 0 <= k < 2
  {
    if k == 0 then ShowTime else ShowMusic
  }

  /** ++count on a uint8_t counter. */
  function Inc8(c: int): (r: int)
    requires 0 <= c < UINT8
    ensures 0 <= r < UINT8
    ensures c < UINT8 - 1 ==> r == c + 1
    ensures c == UINT8 - 1 ==> r == 0
  {
    (c + 1) % UINT8
  }

  /**
   * The gain after UP (up) or DOWN in the music view: soundGain += v * 5 in
   * uint32_t arithmetic, then capped at 100.
   */
  function AdjustGain(g: int, up: bool): (r: int)
    requires 0 <= g < UINT32
    ensures 0 <= r <= 100
  {
    var sum := (g + if up then 5 else UINT32 - 5) % UINT32;
    if sum < 100 then sum else 100
  }

  /** UP raises a gain of at most 95 by 5 and caps a larger one (short of the wrap) at 100. */
  lemma GainUp(g: int)
    requires 0 <= g < UINT32 - 5
    ensures AdjustGain(g, true) == if g <= 95 then g + 5 else 100
  {
  }

  /** DOWN lowers a gain from 5 to 105 by 5. */
  lemma GainDown(g: int)
    requires 5 <= g <= 105
    ensures AdjustGain(g, false) == g - 5
  {
  }

  /** DOWN from a gain below 5 wraps below zero and lands on the cap, 100. */
  lemma GainDownWraps(g: int)
    requires 0 <= g < 5
    ensures AdjustGain(g, false) == 100
  {
  }

  /** From a gain within 0..100, UP and DOWN stay within 0..100 and move by at most 5 or jump to 100. */
  lemma GainStep(g: int, up: bool)
    requires 0 <= g <= 100
    ensures var r := AdjustGain(g, up);
      if up then r == if g <= 95 then g + 5 else 100
      else r == if g >= 5 then g - 5 else 100
  {
  }

  /** The bottom-line order SW steps through. */
  function NextBottom(b: BottomShowType): BottomShowType {
    match b
    case BottomSecond => BottomYear
    case BottomYear => BottomMon
    case BottomMon => BottomSecond
  }

  /** Each SW press moves to the next bottom-line type, except the press that wraps the counter. */
  lemma SwAdvances(c: int)
    requires 0 <= c < UINT8 - 1
    ensures BottomOf(Inc8(c) % 3) == NextBottom(BottomOf(c % 3))
  {
  }

  /** The press that wraps the SW counter (255 to 0) shows kSecond twice in a row. */
  lemma SwWrapRepeats()
    ensures BottomOf(Inc8(UINT8 - 1) % 3) == BottomOf((UINT8 - 1) % 3) == BottomSecond
  {
  }

  /** The time-setting order SET steps through. */
  function NextTimeSetting(t: TimeSettingType): TimeSettingType {
    match t
    case SetNone => SetMin
    case SetMin => SetHour
    case SetHour => SetDay
    case SetDay => SetMon
    case SetMon => SetYear
    case SetYear => SetNone
  }

  lemma SetAdvances(c: int)
    requires 0 <= c < UINT8 - 1
    ensures TimeSettingOf(Inc8(c) % 6) == NextTimeSetting(TimeSettingOf(c % 6))
  {
  }

  /** The press that wraps the SET counter jumps from kDay straight back to kNone. */
  lemma SetWrapSkips()
    ensures TimeSettingOf((UINT8 - 1) % 6) == SetDay && TimeSettingOf(Inc8(UINT8 - 1) % 6) == SetNone
  {
  }

  /**
   * SET landing on kNone forces kSecond without touching the SW counter, so when
   * that counter stands at a kYear position the next SW press shows kMon: kYear
   * is skipped.
   */
  lemma SwAfterSetNoneSkips(c: int)
    requires 0 <= c < UINT8 - 1 && BottomOf(c % 3) == BottomYear
    ensures BottomOf(Inc8(c) % 3) == BottomMon != NextBottom(BottomSecond)
  {
  }

  /** FUN always toggles between the clock and the spectrum: 256 is even, so the wrap keeps the rhythm. */
  lemma FunAlternates(c: int)
    requires 0 <= c < UINT8
    ensures DeviceOf(Inc8(c) % 2) != DeviceOf(c % 2)
  {
  }

  predicate IsButton(pin: int) {
    pin == BUTTON_UP || pin == BUTTON_DOWN || pin == BUTTON_SET || pin == BUTTON_SW || pin == BUTTON_FUN
  }

  /** The state check_button works on. */
  datatype Modes = Modes(bottom: BottomShowType, timeSetting: TimeSettingType, device: DeviceShowType,
                         soundGain: int, swCount: int, setCount: int, funCount: int)

  /**
   * The globals bottomShowType, timeSettingType, deviceShowType and soundGain, and
   * the function-static uint8_t counters of the SW, SET and FUN cases.
   */
  class Controls {
    var bottomShowType: BottomShowType
    var timeSettingType: TimeSettingType
    var deviceShowType: DeviceShowType
    var soundGain: int
    var swCount: int
    var setCount: int
    var funCount: int

    ghost predicate Valid()
      reads this
    {
      && 0 <= swCount < UINT8 && 0 <= setCount < UINT8 && 0 <= funCount < UINT8
      && 0 <= soundGain < UINT32
    }

    ghost function State(): Modes
      reads this
    {
      Modes(bottomShowType, timeSettingType, deviceShowType, soundGain, swCount, setCount, funCount)
    }

    /** Static storage starts zeroed; the gain is the one read from flash at start-up. */
    constructor (gain: int)
      requires 0 <= gain < UINT32
      ensures Valid() && State() == Modes(BottomSecond, SetNone, ShowTime, gain, 0, 0, 0)
    {
      bottomShowType, timeSettingType, deviceShowType := BottomSecond, SetNone, ShowTime;
      soundGain := gain;
      swCount, setCount, funCount := 0, 0, 0;
    }

    /**
     * check_button(): handles the next pin taken from the button queue, if any.
     * UP and DOWN outside the spectrum view edit the time of day, which is not
     * part of this state.
     */
    method CheckButton(next: Option<int>)
      requires Valid()
      modifies this
      ensures Valid()
      ensures next.None? || !IsButton(next.value) ==> State() == old(State())
      ensures next == Some(BUTTON_SW) ==>
        State() == old(State()).(swCount := Inc8(old(swCount)), bottom := BottomOf(Inc8(old(swCount)) % 3))
      ensures next == Some(BUTTON_SET) ==>
        var c := Inc8(old(setCount));
        var t := TimeSettingOf(c % 6);
        State() == old(State()).(setCount := c, timeSetting := t, bottom := if t == SetNone then BottomSecond else old(bottomShowType))
      ensures next == Some(BUTTON_UP) || next == Some(BUTTON_DOWN) ==>
        State() == old(State()).(soundGain :=
          if old(deviceShowType) == ShowMusic then AdjustGain(old(soundGain), next == Some(BUTTON_UP)) else old(soundGain))
      ensures next == Some(BUTTON_FUN) ==>
        State() == old(State()).(funCount := Inc8(old(funCount)), device := DeviceOf(Inc8(old(funCount)) % 2))
    {
      if next.None? {
        return;
      }
      var pin := next.value;
      if pin == BUTTON_SW {
        swCount := (swCount + 1) % UINT8;
        bottomShowType := BottomOf(swCount % 3);
      } else if pin == BUTTON_SET {
        setCount := (setCount + 1) % UINT8;
        timeSettingType := TimeSettingOf(setCount % 6);
        if timeSettingType == SetNone {
          bottomShowType := BottomSecond;
        }
      } else if pin == BUTTON_UP || pin == BUTTON_DOWN {
        var v := if pin == BUTTON_UP then 1 else -1;
        if deviceShowType == ShowMusic {
          soundGain := (soundGain + v * 5) % UINT32;
          soundGain := if soundGain < 100 then soundGain else 100;
        }
      } else if pin == BUTTON_FUN {
        funCount := (funCount + 1) % UINT8;
        deviceShowType := DeviceOf(funCount % 2);
      }
    }
  }

  /** A button input with its debounce: an edge is queued only when the debounce poll fires. */
  class Button {
    const pin: int
    const debounce: IntervalCall

    ghost predicate Valid()
      reads this, debounce
    {
      debounce.Valid() && debounce.interval == DEBOUNCE && !debounce.hasCallback
    }

    constructor (pin: int)
      ensures Valid() && this.pin == pin && fresh(debounce)
      ensures debounce.fired == [] && debounce.lastTime == 0 && debounce.clock == 0
    {
      this.pin := pin;
      debounce := new IntervalCall(DEBOUNCE);
    }

    /** A falling edge at time now: the pin is passed on to the queue exactly when the debounce fires. */
    method Edge(now: int) returns (queued: Option<int>)
      requires Valid() && debounce.clock <= now
      modifies debounce
      ensures Valid()
      ensures queued.Some? <==> now - old(debounce.lastTime) > DEBOUNCE
      ensures queued.Some? ==> queued.value == pin
      ensures debounce.clock == now
      ensures debounce.lastTime == if queued.Some? then now else old(debounce.lastTime)
      ensures debounce.fired == old(debounce.fired) + if queued.Some? then [now] else []
    {
      var fires := debounce.Poll(now);
      if !fires {
        return None;
      }
      return Some(pin);
    }
  }

  // The spectrum view.

  /** The height of one bar: the per-bar quotient, clamped to the 15 rows above the baseline. */
  function BarHeight(q: nat): (v: nat)
    ensures v <= 15 && v <= q
    ensures v == q || v == 15
  {
    if q < 15 then q else 15
  }

  /** The bar of height v covers rows 15 - v .. 15 of the 16-row canvas. */
  lemma BarOnCanvas(q: nat)
    ensures 0 <= 15 - BarHeight(q) <= 15
  {
  }

  function Bars(q: seq<nat>): (am: seq<nat>)
    ensures |am| == |q| && forall i :: 0 <= i < |q| ==> am[i] == BarHeight(q[i])
  {
    seq(|q|, i requires 0 <= i < |q| => BarHeight(q[i]))
  }

  function Max(a: int, b: int): int {
    if a < b then b else a
  }

  /** The peaks after the amplitude pass: no peak below its bar. */
  function Raised(peaks: seq<nat>, am: seq<nat>): (r: seq<nat>)
    requires |am| == |peaks|
    ensures |r| == |peaks|
  {
    seq(|peaks|, i requires 0 <= i < |peaks| => if peaks[i] < am[i] then am[i] else peaks[i])
  }

  /** One tick of the falling-peak animation. */
  function Decayed(peaks: seq<nat>): (r: seq<nat>)
    ensures |r| == |peaks|
  {
    seq(|peaks|, i requires 0 <= i < |peaks| => if peaks[i] > 0 then peaks[i] - 1 else 0)
  }

  /** t ticks of the animation. */
  function DecayedBy(peaks: seq<nat>, t: nat): (r: seq<nat>)
    ensures |r| == |peaks|
  {
    if t == 0 then peaks else Decayed(DecayedBy(peaks, t - 1))
  }

  /** The raised peak is the larger of the old peak and the bar. */
  lemma RaisedIsMax(peaks: seq<nat>, am: seq<nat>, i: int)
    requires |am| == |peaks| && 0 <= i < |peaks|
    ensures Raised(peaks, am)[i] == Max(peaks[i], am[i])
    ensures Raised(peaks, am)[i] >= am[i] && Raised(peaks, am)[i] >= peaks[i]
  {
  }

  /** A tick lowers every nonzero peak by exactly one and leaves zeros at zero. */
  lemma DecayedStep(peaks: seq<nat>, i: int)
    requires 0 <= i < |peaks|
    ensures Decayed(peaks)[i] == Max(0, peaks[i] as int - 1)
  {
  }

  /** After t ticks with no larger amplitude, a peak p has fallen to max(0, p - t). */
  lemma {:induction false} DecayedByDrops(peaks: seq<nat>, t: nat, i: int)
    requires 0 <= i < |peaks|
    ensures DecayedBy(peaks, t)[i] == Max(0, peaks[i] as int - t)
  {
    if t > 0 {
      DecayedByDrops(peaks, t - 1, i);
    }
  }

  predicate OnCanvas(peaks: seq<nat>) {
    forall i :: 0 <= i < |peaks| ==> peaks[i] <= 15
  }

  /** Peaks stay within the 16 rows: the peak pixel row 15 - peak is on the canvas. */
  lemma PeaksStayOnCanvas(peaks: seq<nat>, q: seq<nat>)
    requires |q| == |peaks| && OnCanvas(peaks)
    ensures OnCanvas(Raised(peaks, Bars(q)))
    ensures OnCanvas(Decayed(Raised(peaks, Bars(q))))
  {
  }

  /** The bars and falling peaks of show_music: the static amLast and the 50 ms animation timer. */
  class Spectrum {
    /** The peak of every column (the static vector amLast, 32 uint8_t entries). */
    const amLast: array<nat>
    /** The falling-peak timer; its callback lowers every peak by one. */
    const decay: IntervalCall

    ghost predicate Valid()
      reads this, amLast, decay
    {
      && amLast.Length == 32 && OnCanvas(amLast[..])
      && decay.Valid() && decay.interval == DECAY && decay.hasCallback
    }

    constructor ()
      ensures Valid() && fresh(amLast) && fresh(decay)
      ensures amLast[..] == seq(32, _ => 0) && decay.lastTime == 0 && decay.fired == []
      ensures decay.clock == 0 && decay.callbackRuns == 0
    {
      amLast := new nat[32](_ => 0);
      decay := new IntervalCall(DECAY, true);
    }

    /**
     * The integer part of show_music() for the per-bar quotients q at time now:
     * returns the bar heights and whether the peaks fell this frame.
     */
    method Show(q: seq<nat>, now: int) returns (am: seq<nat>, fell: bool)
      requires Valid() && |q| == 32 && decay.clock <= now
      modifies amLast, decay
      ensures Valid()
      ensures am == Bars(q)
      ensures fell <==> now - old(decay.lastTime) > DECAY
      ensures amLast[..] == if fell then Decayed(Raised(old(amLast[..]), am)) else Raised(old(amLast[..]), am)
      ensures decay.clock == now
      ensures decay.lastTime == if fell then now else old(decay.lastTime)
      ensures decay.fired == old(decay.fired) + if fell then [now] else []
      ensures decay.callbackRuns == old(decay.callbackRuns) + if fell then 1 else 0
    {
      PeaksStayOnCanvas(amLast[..], q);
      var bars := new nat[32];
      ghost var raised := Raised(old(amLast[..]), Bars(q));
      for i := 0 to 32
        modifies amLast, bars
        invariant forall k :: 0 <= k < i ==> bars[k] == Bars(q)[k] && amLast[k] == raised[k]
        invariant forall k :: i <= k < 32 ==> amLast[k] == old(amLast[k])
      {
        var v := BarHeight(q[i]);
        if amLast[i] < v {
          amLast[i] := v;
        }
        bars[i] := v;
      }
      am := bars[..];
      assert am == Bars(q);
      assert amLast[..] == raised;
      fell := decay.Poll(now);
      if fell {
        DecayPeaks();
      }
    }

    /** The callback of the animation timer. */
    method DecayPeaks()
      requires amLast.Length == 32
      modifies amLast
      ensures amLast[..] == Decayed(old(amLast[..]))
    {
      ghost var decayed := Decayed(old(amLast[..]));
      for i := 0 to amLast.Length
        invariant forall k :: 0 <= k < i ==> amLast[k] == decayed[k]
        invariant forall k :: i <= k < amLast.Length ==> amLast[k] == old(amLast[k])
      {
        if amLast[i] > 0 {
          amLast[i] := amLast[i] - 1;
        }
      }
      assert amLast[..] == decayed;
    }
  }

  // Start-up.

  /** What the start-up loop sends to device i: normal operation, intensity 1, all rows blank. */
  function DeviceWake(i: nat): seq<Command> {
    [Command(i, OP_SHUTDOWN, 1), Command(i, OP_INTENSITY, 1)] + RowSweep(i, ZeroRows(8))
  }

  function WakeCommands(n: nat): seq<Command> {
    if n == 0 then [] else WakeCommands(n - 1) + DeviceWake(n - 1)
  }

  /** One pass of the start-up loop. */
  method WakeDevice(matrix: LedMatrix, i: int)
    requires matrix.Valid() && 0 <= i < matrix.maxDevices
    modifies matrix`trace, matrix.spiData, matrix.status
    ensures matrix.Valid()
    ensures forall k :: 0 <= k < 64 ==> matrix.status[k] == if i * 8 <= k < i * 8 + 8 then 0 else old(matrix.status[k])
    ensures matrix.trace == old(matrix.trace) + Transmit(matrix.Wires(), matrix.maxDevices, DeviceWake(i))
  {
    ghost var t0 := matrix.trace;
    matrix.Shutdown(i, false);
    ghost var t1 := matrix.trace;
    matrix.SetIntensity(i, 1);
    ghost var t2 := matrix.trace;
    matrix.ClearDisplay(i);
    ghost var w, n := matrix.Wires(), matrix.maxDevices;
    var c1, c2, sweep := [Command(i, OP_SHUTDOWN, 1)], [Command(i, OP_INTENSITY, 1)], RowSweep(i, ZeroRows(8));
    ChainThree(t0, t1, t2, matrix.trace, TransferEvents(w, Frame(n, c1[0])), TransferEvents(w, Frame(n, c2[0])), Transmit(w, n, sweep));
    assert DeviceWake(i) == c1 + c2 + sweep;
    TransmitOne(w, n, c1[0]);
    TransmitOne(w, n, c2[0]);
    TransmitAppend(w, n, c1, c2);
    TransmitAppend(w, n, c1 + c2, sweep);
  }

  /**
   * app_main's display set-up: a chain of 8 devices on GPIO 8 (data), 6 (clock)
   * and 7 (chip select), every device woken at intensity 1 and blanked, and a
   * 32 x 16 canvas on it.
   */
  method Setup() returns (matrix: LedMatrix, canvas: LEDCanvas)
    ensures fresh(matrix) && fresh(matrix.spiData) && fresh(matrix.status)
    ensures matrix.Valid() && matrix.maxDevices == 8
    ensures matrix.pinDIN == 8 && matrix.pinCLK == 6 && matrix.pinCS == 7
    ensures forall k :: 0 <= k < 64 ==> matrix.status[k] == 0
    ensures matrix.trace == [PinWrite(7, true)]
      + Transmit(matrix.Wires(), matrix.maxDevices, InitCommands(matrix.maxDevices) + WakeCommands(matrix.maxDevices))
    ensures fresh(canvas) && fresh(canvas.buffer)
    ensures canvas.Valid() && canvas.matrix == matrix && canvas.width == 32 && canvas.height == 16
    ensures canvas.buffer.Length == 64 && forall i :: 0 <= i < 64 ==> canvas.buffer[i] == 0
  {
    matrix := new LedMatrix(8, 6, 7, 8);
    ghost var t1 := matrix.trace;
    ghost var w, n := matrix.Wires(), matrix.maxDevices;
    for i := 0 to 8
      invariant matrix.Valid() && matrix.maxDevices == n == 8 && matrix.Wires() == w
      invariant forall k :: 0 <= k < 64 ==> matrix.status[k] == 0
      invariant matrix.trace == t1 + Transmit(w, n, WakeCommands(i))
    {
      WakeDevice(matrix, i);
      TransmitAppend(w, n, WakeCommands(i), DeviceWake(i));
      AppendAssoc(t1, Transmit(w, n, WakeCommands(i)), Transmit(w, n, DeviceWake(i)));
    }
    canvas := new LEDCanvas(matrix, 32, 16);
    assert (32 + 7) / 8 * 16 == 64;
    TransmitAppend(w, n, InitCommands(n), WakeCommands(n));
    AppendAssoc([PinWrite(7, true)], Transmit(w, n, InitCommands(n)), Transmit(w, n, WakeCommands(n)));
  }

  /**
   * In this configuration the canvas's 8 x 8 blocks are exactly the chain, so
   * every display() makes the mirror the bitmap.
   */
  lemma SetupShowsWholeCanvas(s: seq<bv8>, buf: seq<bv8>)
    requires |s| == 64 && |buf| == 64
    ensures forall d, r :: 0 <= d < 8 && 0 <= r < 8 ==>
      Apply(s, 8, Calls(8, 32 / 8, buf, 16, 0))[d * 8 + r] == buf[SourceByte(8, 4, d, r)]
  {
    DisplayMirrorsBitmap(s, 8, 4, buf, 16);
  }
}
