/**
 * The canvas of main/matrix/LEDCanvas.{h,cpp}: a 1-bit bitmap of width x height
 * pixels, one byte per 8 horizontal pixels, shown on a chain of 8x8 matrices.
 *
 * display() cuts the bitmap into 8x8 blocks, numbers the blocks row-major from the
 * top left and sends block b to chain position devNum - 1 - b, one setRow call per
 * bitmap byte.  The calls are modelled as a list of RowCall values; the effect of
 * the list on the driver's mirror and on its pins is given by Apply and Sent.
 */
module LedCanvas {
  import opened Max7219
  import opened LedMatrixDriver

  /** One setRow(dev, row, value) call. */
  datatype RowCall = RowCall(dev: int, row: int, value: bv8)

  /** The chain position the byte of pixel row h, byte column w is sent to (hor blocks per band). */
  function Target(n: int, hor: nat, h: nat, w: nat): int {
    n - (h / 8 * hor + w) - 1
  }

  /** The call display() makes for pixel row h, byte column w. */
  function Cell(n: int, hor: nat, buf: seq<bv8>, h: nat, w: nat): RowCall
    requires h * hor + w < |buf|
  {
    RowCall(Target(n, hor, h, w), h % 8, buf[h * hor + w])
  }

  /** The calls display() makes before reaching pixel row h, byte column w, in order. */
  function Calls(n: int, hor: nat, buf: seq<bv8>, h: nat, w: nat): (calls: seq<RowCall>)
    requires w <= hor && h * hor + w <= |buf|
    ensures |calls| == h * hor + w
    decreases h, w
  {
    if w > 0 then Calls(n, hor, buf, h, w - 1) + [Cell(n, hor, buf, h, w - 1)]
    else if h > 0 then
      assert (h - 1) * hor + hor == h * hor;
      Calls(n, hor, buf, h - 1, hor)
    else []
  }

  /** The driver's mirror after the calls, made in order. */
  function Apply(s: seq<bv8>, n: int, calls: seq<RowCall>): (r: seq<bv8>)
    requires |s| == 64 && n <= MAX_DEVICES
    ensures |r| == 64
  {
    if |calls| == 0 then s
    else
      var c := calls[|calls| - 1];
      AfterSetRow(Apply(s, n, calls[..|calls| - 1]), n, c.dev, c.row, c.value)
  }

  /** The commands the calls put on the wire: one per call that addresses a real row. */
  function Sent(n: int, calls: seq<RowCall>): seq<Command> {
    if |calls| == 0 then []
    else
      var c := calls[|calls| - 1];
      Sent(n, calls[..|calls| - 1])
      + if ValidRow(n, c.dev, c.row) then [Command(c.dev, (c.row + 1) as bv8, c.value)] else []
  }

  /** The call stores into mirror position p. */
  predicate Writes(n: int, c: RowCall, p: int) {
    ValidRow(n, c.dev, c.row) && c.dev * 8 + c.row == p
  }

  /** What mirror position p holds after the calls, when it held d before. */
  function Written(n: int, calls: seq<RowCall>, p: int, d: bv8): bv8 {
    if |calls| == 0 then d
    else if Writes(n, calls[|calls| - 1], p) then calls[|calls| - 1].value
    else Written(n, calls[..|calls| - 1], p, d)
  }

  // Arithmetic on the symbolic number of blocks per band.

  lemma {:induction false} MulMono(a: nat, b: nat, c: nat)
    requires a <= b
    ensures a * c <= b * c
  {
    if a < b {
      MulMono(a, b - 1, c);
    }
  }

  /** Quotient and remainder are unique. */
  lemma DivModUnique(q: nat, r: nat, q': nat, r': nat, d: nat)
    requires r < d && r' < d && q * d + r == q' * d + r'
    ensures q == q' && r == r'
  {
    if q < q' {
      MulMono(q + 1, q', d);
    } else if q' < q {
      MulMono(q' + 1, q, d);
    }
  }

  /** Cell (h, w) of a bitmap of height rows lies inside it. */
  lemma CellInside(h: nat, w: nat, hor: nat, height: nat)
    requires h < height && w < hor
    ensures h * hor + w < height * hor
  {
    MulMono(h + 1, height, hor);
  }

  /** The rows before row h of a bitmap of height rows lie inside it. */
  lemma RowsInside(h: nat, hor: nat, height: nat)
    requires h <= height
    ensures h * hor <= height * hor
  {
    MulMono(h, height, hor);
  }

  // The call list.

  /** Row-major order: the call for cell (h', w') is call number h' * hor + w'. */
  lemma {:induction false} CallsAt(n: int, hor: nat, buf: seq<bv8>, h: nat, w: nat, h': nat, w': nat)
    requires w <= hor && h * hor + w <= |buf|
    requires w' < hor && (h' < h || (h' == h && w' < w))
    ensures h' * hor + w' < h * hor + w
    ensures Calls(n, hor, buf, h, w)[h' * hor + w'] == Cell(n, hor, buf, h', w')
    decreases h, w
  {
    if w > 0 {
      if !(h' == h && w' == w - 1) {
        CallsAt(n, hor, buf, h, w - 1, h', w');
      }
    } else {
      assert (h - 1) * hor + hor == h * hor;
      CallsAt(n, hor, buf, h - 1, hor, h', w');
    }
  }

  /** Every call of the list is the call for some cell before (h, w). */
  lemma {:induction false} CallsCell(n: int, hor: nat, buf: seq<bv8>, h: nat, w: nat, i: nat) returns (h': nat, w': nat)
    requires w <= hor && h * hor + w <= |buf|
    requires i < |Calls(n, hor, buf, h, w)|
    ensures w' < hor && (h' < h || (h' == h && w' < w))
    ensures i == h' * hor + w' && i < |buf| && Calls(n, hor, buf, h, w)[i] == Cell(n, hor, buf, h', w')
    decreases h, w
  {
    if w > 0 {
      if i == h * hor + w - 1 {
        h', w' := h, w - 1;
      } else {
        h', w' := CallsCell(n, hor, buf, h, w - 1, i);
      }
    } else if h > 0 {
      assert (h - 1) * hor + hor == h * hor;
      h', w' := CallsCell(n, hor, buf, h - 1, hor, i);
    } else {
      assert false;
    }
  }

  /** Two cells never store into the same mirror position. */
  lemma CellsApart(n: int, hor: nat, h: nat, w: nat, h': nat, w': nat)
    requires w < hor && w' < hor
    requires Target(n, hor, h, w) * 8 + h % 8 == Target(n, hor, h', w') * 8 + h' % 8
    ensures h == h' && w == w'
  {
    assert Target(n, hor, h, w) == Target(n, hor, h', w');
    DivModUnique(h / 8, w, h' / 8, w', hor);
  }

  /** When the blocks of the bitmap are exactly the chain, chain position d, row r, is fed by one cell. */
  lemma Covering(n: int, hor: nat, height: nat, d: int, r: int) returns (h: nat, w: nat)
    requires hor * (height / 8) == n && 0 <= d < n && 0 <= r < 8
    ensures h < height && w < hor && Target(n, hor, h, w) == d && h % 8 == r
    ensures h == (n - 1 - d) / hor * 8 + r && w == (n - 1 - d) % hor
  {
    var b := n - 1 - d;
    var q := b / hor;
    w := b % hor;
    h := q * 8 + r;
    assert b == q * hor + w;
    if q >= height / 8 {
      MulMono(height / 8, q, hor);
      assert false;
    }
    assert h / 8 == q;
  }

  // What a list of calls does to the mirror.

  lemma ApplySnoc(s: seq<bv8>, n: int, calls: seq<RowCall>, c: RowCall)
    requires |s| == 64 && n <= MAX_DEVICES
    ensures Apply(s, n, calls + [c]) == AfterSetRow(Apply(s, n, calls), n, c.dev, c.row, c.value)
  {
    assert (calls + [c])[..|calls|] == calls;
  }

  lemma SentSnoc(n: int, calls: seq<RowCall>, c: RowCall)
    ensures Sent(n, calls + [c]) == Sent(n, calls)
      + if ValidRow(n, c.dev, c.row) then [Command(c.dev, (c.row + 1) as bv8, c.value)] else []
  {
    assert (calls + [c])[..|calls|] == calls;
  }

  /** Each mirror position ends up with the value of the last call that stores into it, or keeps its own. */
  lemma {:induction false} ApplyWritten(s: seq<bv8>, n: int, calls: seq<RowCall>, p: int)
    requires |s| == 64 && n <= MAX_DEVICES && 0 <= p < 64
    ensures Apply(s, n, calls)[p] == Written(n, calls, p, s[p])
  {
    if |calls| > 0 {
      ApplyWritten(s, n, calls[..|calls| - 1], p);
    }
  }

  lemma {:induction false} WrittenTwice(n: int, calls: seq<RowCall>, p: int, d: bv8)
    ensures Written(n, calls, p, Written(n, calls, p, d)) == Written(n, calls, p, d)
  {
    if |calls| > 0 && !Writes(n, calls[|calls| - 1], p) {
      var pre := calls[..|calls| - 1];
      WrittenTwice(n, pre, p, d);
    }
  }

  /** Making the same calls a second time leaves the mirror as the first time left it. */
  lemma ApplyTwice(s: seq<bv8>, n: int, calls: seq<RowCall>)
    requires |s| == 64 && n <= MAX_DEVICES
    ensures Apply(Apply(s, n, calls), n, calls) == Apply(s, n, calls)
  {
    var once := Apply(s, n, calls);
    forall p | 0 <= p < 64
      ensures Apply(once, n, calls)[p] == once[p]
    {
      ApplyWritten(once, n, calls, p);
      ApplyWritten(s, n, calls, p);
      WrittenTwice(n, calls, p, s[p]);
    }
  }

  /** A position that only call j stores into ends up with the value of call j. */
  lemma {:induction false} WrittenUnique(n: int, calls: seq<RowCall>, p: int, j: nat, d: bv8)
    requires j < |calls| && Writes(n, calls[j], p)
    requires forall i :: 0 <= i < |calls| && i != j ==> !Writes(n, calls[i], p)
    ensures Written(n, calls, p, d) == calls[j].value
  {
    if j < |calls| - 1 {
      var pre := calls[..|calls| - 1];
      assert pre[j] == calls[j];
      forall i | 0 <= i < |pre| && i != j
        ensures !Writes(n, pre[i], p)
      {
        assert pre[i] == calls[i];
      }
      WrittenUnique(n, pre, p, j, d);
    }
  }

  /** A position that only call j stores into ends up with the value of call j. */
  lemma UniqueWriterWins(s: seq<bv8>, n: int, calls: seq<RowCall>, p: int, j: nat)
    requires |s| == 64 && n <= MAX_DEVICES && 0 <= p < 64
    requires j < |calls| && Writes(n, calls[j], p)
    requires forall i :: 0 <= i < |calls| && i != j ==> !Writes(n, calls[i], p)
    ensures Apply(s, n, calls)[p] == calls[j].value
  {
    ApplyWritten(s, n, calls, p);
    WrittenUnique(n, calls, p, j, s[p]);
  }

  /** A position no call stores into keeps its value. */
  lemma {:induction false} WrittenNone(n: int, calls: seq<RowCall>, p: int, d: bv8)
    requires forall i :: 0 <= i < |calls| ==> !Writes(n, calls[i], p)
    ensures Written(n, calls, p, d) == d
  {
    if |calls| > 0 {
      var pre := calls[..|calls| - 1];
      forall i | 0 <= i < |pre|
        ensures !Writes(n, pre[i], p)
      {
        assert pre[i] == calls[i];
      }
      WrittenNone(n, pre, p, d);
    }
  }

  // What display() does to the mirror.

  /** One setRow call of display() extends the mirror and the pin trace by the call for cell (h, w). */
  lemma DisplayStep(wires: Wiring, s0: seq<bv8>, t0: seq<PinEvent>, n: nat, hor: nat, buf: seq<bv8>, h: nat, w: nat,
                    dev: int, row: int, value: bv8, st: seq<bv8>, st': seq<bv8>, tr: seq<PinEvent>, tr': seq<PinEvent>)
    requires |s0| == 64 && n <= MAX_DEVICES && w < hor && h * hor + w < |buf|
    requires dev == Target(n, hor, h, w) && row == h % 8 && value == buf[h * hor + w]
    requires st == Apply(s0, n, Calls(n, hor, buf, h, w))
    requires tr == t0 + Transmit(wires, n, Sent(n, Calls(n, hor, buf, h, w)))
    requires st' == AfterSetRow(st, n, dev, row, value)
    requires ValidRow(n, dev, row) ==> tr' == tr + TransferEvents(wires, Frame(n, Command(dev, (row + 1) as bv8, value)))
    requires !ValidRow(n, dev, row) ==> tr' == tr
    ensures st' == Apply(s0, n, Calls(n, hor, buf, h, w + 1))
    ensures tr' == t0 + Transmit(wires, n, Sent(n, Calls(n, hor, buf, h, w + 1)))
  {
    var before := Calls(n, hor, buf, h, w);
    var c := Cell(n, hor, buf, h, w);
    assert Calls(n, hor, buf, h, w + 1) == before + [c];
    ApplySnoc(s0, n, before, c);
    SentSnoc(n, before, c);
    if ValidRow(n, c.dev, c.row) {
      var cmd := Command(c.dev, (c.row + 1) as bv8, c.value);
      assert Sent(n, before + [c]) == Sent(n, before) + [cmd];
      TransmitSnoc(wires, n, Sent(n, before), cmd);
      AppendAssoc(t0, Transmit(wires, n, Sent(n, before)), TransferEvents(wires, Frame(n, cmd)));
    } else {
      assert Sent(n, before + [c]) == Sent(n, before);
    }
  }

  /** No call other than the one for cell (h, w) stores into that cell's mirror position. */
  lemma OtherCallsMiss(n: int, hor: nat, buf: seq<bv8>, height: nat, h: nat, w: nat, i: nat)
    requires height * hor <= |buf| && h < height && w < hor
    requires i < |Calls(n, hor, buf, height, 0)| && i != h * hor + w
    ensures !Writes(n, Calls(n, hor, buf, height, 0)[i], Target(n, hor, h, w) * 8 + h % 8)
  {
    var calls := Calls(n, hor, buf, height, 0);
    var h', w' := CallsCell(n, hor, buf, height, 0, i);
    assert calls[i].dev == Target(n, hor, h', w') && calls[i].row == h' % 8;
    if Writes(n, calls[i], Target(n, hor, h, w) * 8 + h % 8) {
      CellsApart(n, hor, h, w, h', w');
      assert false;
    }
  }

  /** The byte of every cell whose chain position exists lands in row h % 8 of that device. */
  lemma DisplayShowsCell(s: seq<bv8>, n: int, hor: nat, buf: seq<bv8>, height: nat, h: nat, w: nat)
    requires |s| == 64 && n <= MAX_DEVICES && height * hor <= |buf|
    requires h < height && w < hor && 0 <= Target(n, hor, h, w) < n
    ensures h * hor + w < |buf|
    ensures Apply(s, n, Calls(n, hor, buf, height, 0))[Target(n, hor, h, w) * 8 + h % 8] == buf[h * hor + w]
  {
    CellInside(h, w, hor, height);
    var calls := Calls(n, hor, buf, height, 0);
    var p := Target(n, hor, h, w) * 8 + h % 8;
    CallsAt(n, hor, buf, height, 0, h, w);
    MulMono(0, h, hor);
    var j: nat := h * hor + w;
    forall i | 0 <= i < |calls| && i != j
      ensures !Writes(n, calls[i], p)
    {
      OtherCallsMiss(n, hor, buf, height, h, w, i);
    }
    assert calls[j] == Cell(n, hor, buf, h, w);
    UniqueWriterWins(s, n, calls, p, j);
  }

  /** The bitmap byte that (when the blocks are exactly the chain) ends up in row r of device d. */
  function SourceByte(n: int, hor: nat, d: int, r: int): nat
    requires hor > 0 && 0 <= d < n && 0 <= r < 8
  {
    ((n - 1 - d) / hor * 8 + r) * hor + (n - 1 - d) % hor
  }

  /**
   * When the bitmap's 8x8 blocks are exactly as many as the devices, display()
   * overwrites every row of every device with the byte of its block: the block in
   * the top left feeds the far end of the chain (device n-1).
   */
  lemma DisplayMirrorsBitmap(s: seq<bv8>, n: int, hor: nat, buf: seq<bv8>, height: nat)
    requires |s| == 64 && n <= MAX_DEVICES && height * hor <= |buf|
    requires 1 <= n && hor * (height / 8) == n
    ensures hor > 0
    ensures forall d, r :: 0 <= d < n && 0 <= r < 8 ==>
      SourceByte(n, hor, d, r) < |buf| &&
      Apply(s, n, Calls(n, hor, buf, height, 0))[d * 8 + r] == buf[SourceByte(n, hor, d, r)]
  {
    forall d, r | 0 <= d < n && 0 <= r < 8
      ensures SourceByte(n, hor, d, r) < |buf|
      ensures Apply(s, n, Calls(n, hor, buf, height, 0))[d * 8 + r] == buf[SourceByte(n, hor, d, r)]
    {
      var h, w := Covering(n, hor, height, d, r);
      CellInside(h, w, hor, height);
      DisplayShowsCell(s, n, hor, buf, height, h, w);
    }
  }

  /** Rows no cell reaches (devices beyond the bitmap) are left as they were. */
  lemma DisplayKeepsUnreached(s: seq<bv8>, n: int, hor: nat, buf: seq<bv8>, height: nat, p: int)
    requires |s| == 64 && n <= MAX_DEVICES && height * hor <= |buf| && 0 <= p < 64
    requires forall h: nat, w: nat :: h < height && w < hor ==> Target(n, hor, h, w) * 8 + h % 8 != p
    ensures Apply(s, n, Calls(n, hor, buf, height, 0))[p] == s[p]
  {
    var calls := Calls(n, hor, buf, height, 0);
    forall i | 0 <= i < |calls|
      ensures !Writes(n, calls[i], p)
    {
      var h', w' := CallsCell(n, hor, buf, height, 0, i);
      assert calls[i].dev == Target(n, hor, h', w') && calls[i].row == h' % 8;
      assert h' < height && Target(n, hor, h', w') * 8 + h' % 8 != p;
    }
    ApplyWritten(s, n, calls, p);
    WrittenNone(n, calls, p, s[p]);
  }

  class LEDCanvas {
    /** The chain the canvas is shown on. */
    const matrix: LedMatrix
    const width: nat
    const height: nat
    /** The bitmap: row after row, each ((width + 7) / 8) bytes, the leftmost pixel in bit 7. */
    const buffer: array<bv8>

    ghost predicate Valid() {
      && matrix.Valid()
      && height * (width / 8) <= buffer.Length
      && buffer != matrix.status && buffer != matrix.spiData
    }

    /** A blank canvas of w x h pixels on the given chain. */
    constructor (ledMatrix: LedMatrix, w: nat, h: nat)
      requires ledMatrix.Valid() && w < 0x1_0000 && h < 0x1_0000
      ensures Valid() && matrix == ledMatrix && width == w && height == h
      ensures fresh(buffer) && buffer.Length == (w + 7) / 8 * h
      ensures forall i :: 0 <= i < buffer.Length ==> buffer[i] == 0
    {
      matrix, width, height := ledMatrix, w, h;
      buffer := new bv8[(w + 7) / 8 * h](_ => 0);
      MulMono(w / 8, (w + 7) / 8, h);
    }

    /**
     * display(): every byte of the bitmap within the first width / 8 byte columns
     * is sent with setRow, row-major.  Calls whose chain position is negative or too
     * large are dropped by setRow; the bitmap itself is not touched.
     */
    method Display()
      requires Valid()
      modifies matrix`trace, matrix.spiData, matrix.status
      ensures Valid() && buffer[..] == old(buffer[..])
      ensures matrix.status[..] == Apply(old(matrix.status[..]), matrix.maxDevices, Calls(matrix.maxDevices, width / 8, buffer[..], height, 0))
      ensures matrix.trace == old(matrix.trace)
        + Transmit(matrix.Wires(), matrix.maxDevices, Sent(matrix.maxDevices, Calls(matrix.maxDevices, width / 8, buffer[..], height, 0)))
    {
      var devNum := matrix.GetDeviceCount();
      var devNumHorizon := width / 8;
      ghost var buf := buffer[..];
      ghost var s0 := matrix.status[..];
      ghost var t0 := matrix.trace;
      var h := 0;
      while h < height
        invariant 0 <= h <= height && buffer[..] == buf
        invariant matrix.Valid() && h * devNumHorizon <= |buf|
        invariant matrix.status[..] == Apply(s0, devNum, Calls(devNum, devNumHorizon, buf, h, 0))
        invariant matrix.trace == t0 + Transmit(matrix.Wires(), devNum, Sent(devNum, Calls(devNum, devNumHorizon, buf, h, 0)))
      {
        var w := 0;
        while w < devNumHorizon
          invariant 0 <= w <= devNumHorizon && buffer[..] == buf
          invariant matrix.Valid() && h * devNumHorizon + w <= |buf|
          invariant matrix.status[..] == Apply(s0, devNum, Calls(devNum, devNumHorizon, buf, h, w))
          invariant matrix.trace == t0 + Transmit(matrix.Wires(), devNum, Sent(devNum, Calls(devNum, devNumHorizon, buf, h, w)))
        {
          CellInside(h, w, devNumHorizon, height);
          ghost var st := matrix.status[..];
          ghost var tr := matrix.trace;
          var dev, row, value := devNum - (h / 8 * devNumHorizon + w) - 1, h % 8, buffer[h * devNumHorizon + w];
          matrix.SetRow(dev, row, value);
          DisplayStep(matrix.Wires(), s0, t0, devNum, devNumHorizon, buf, h, w, dev, row, value, st, matrix.status[..], tr, matrix.trace);
          w := w + 1;
        }
        RowsInside(h + 1, devNumHorizon, height);
        assert Calls(devNum, devNumHorizon, buf, h + 1, 0) == Calls(devNum, devNumHorizon, buf, h, devNumHorizon);
        h := h + 1;
      }
    }
  }
}
