/** What the transmitter puts on the line, tick by tick, for a control byte and a data byte. */
module AciaWire {
  import opened AciaCore
  import opened AciaLink

  /** The levels of the line at the next n ticks. */
  function Levels(a: Acia, n: nat): (s: seq<bool>)
    ensures |s| == n
    decreases n
  {
    if n == 0 then [] else [ClockTx(a).tx.line] + Levels(ClockTx(a), n - 1)
  }

  // ----- what a frame is -----

  /** The bits of a byte, low one first. */
  function BitsOf(b: bv8): (s: seq<bool>)
    ensures |s| == 8
  {
    [b & 1 == 1, b & 2 == 2, b & 4 == 4, b & 8 == 8, b & 16 == 16, b & 32 == 32, b & 64 == 64, b & 128 == 128]
  }

  function CountOnes(s: seq<bool>): nat {
    if s == [] then 0 else CountOnes(s[..|s| - 1]) + if s[|s| - 1] then 1 else 0
  }

  predicate HasEvenParity(ws: nat) { ws in {0, 2, 6} }
  predicate HasOddParity(ws: nat) { ws in {1, 3, 7} }

  /** The data bits of a word select: seven, or eight from 4 on. */
  function DataBits(b: bv8, ws: nat): seq<bool> { BitsOf(b)[..if ws < 4 then 7 else 8] }

  /** No bit, or the one that makes the number of ones even, or odd. */
  function ParityBits(data: seq<bool>, ws: nat): seq<bool> {
    if HasEvenParity(ws) then [CountOnes(data) % 2 == 1]
    else if HasOddParity(ws) then [CountOnes(data) % 2 == 0]
    else []
  }

  /** Two stop bits for word selects 0, 1 and 4, else one. */
  function StopBits(ws: nat): seq<bool> { if ws in {0, 1, 4} then [true, true] else [true] }

  /** A low start bit, the data, the parity bit and high stop bits. */
  function WholeFrame(b: bv8, ws: nat): seq<bool> {
    [false] + DataBits(b, ws) + ParityBits(DataBits(b, ws), ws) + StopBits(ws)
  }

  /** A frame takes ten ticks for word selects 2, 3 and 5, else eleven. */
  lemma FrameTicks(b: bv8, ws: nat)
    requires ws < 8
    ensures |WholeFrame(b, ws)| == FrameTime(SerialParams(ws)) == if ws in {2, 3, 5} then 10 else 11
  {
  }

  /** With its parity bit the data has an even, or an odd, number of ones. */
  lemma ParityCounts(data: seq<bool>, ws: nat)
    ensures HasEvenParity(ws) ==> CountOnes(data + ParityBits(data, ws)) % 2 == 0
    ensures HasOddParity(ws) ==> CountOnes(data + ParityBits(data, ws)) % 2 == 1
  {
    var all := data + ParityBits(data, ws);
    if all != data { assert all[..|all| - 1] == data; }
  }

  // ----- the transmitter inside a frame -----

  /** The transmitter is at point `w` of a frame. */
  predicate SendsAt(t: Transmitter, w: Wire, p: Line) {
    match w
    case Quiet => t.state.Idle? && t.size == 0
    case Data(b, j) =>
      && t.state.DataBit? && j < p.dataBits && t.size == p.dataBits - j
      && t.tsr == TxShift(b, j) && t.parity == ParityOf(b, j) && t.stopBits == p.stopBits
    case Par(b) =>
      && !p.parity.NoParity? && t.state.ParityBit? && t.size == 0
      && t.parity == ParityOf(b, p.dataBits) && t.stopBits == p.stopBits
    case Stop(b, left) => t.state.StopBit? && t.size == 0 && 0 < left <= p.stopBits && t.stopBits == left
  }

  /** The level that the tick from point `w` on puts on the line. */
  predicate LevelFrom(w: Wire, next: seq<bv8>, p: Line) {
    match w
    case Quiet => next == []
    case Data(b, j) => BitOf(b, j)
    case Par(b) => ParityOf(b, p.dataBits) == p.parity.Even?
    case Stop(_, _) => true
  }

  predicate SendsRight(t: Transmitter, tdr: bv8, tdre: bool, w: Wire, p: Line)
    requires Proper(p)
  {
    var n := TxStep(t, tdr, tdre, false, p);
    var next := if tdre then [] else [tdr];
    && SendsAt(n.tx, NextWire(w, next, p), p) && n.tx.line == LevelFrom(w, next, p) && n.tdre == (tdre || w.Quiet?)
  }

  lemma SendData(t: Transmitter, tdr: bv8, tdre: bool, w: Wire, p: Line)
    requires Proper(p) && SendsAt(t, w, p) && w.Data?
    ensures SendsRight(t, tdr, tdre, w, p)
  {
    hide TxShift, ParityOf, Dec8, ShiftDown, LowBit;
    OneMoreBit(w.b, w.j);
  }

  lemma SendOther(t: Transmitter, tdr: bv8, tdre: bool, w: Wire, p: Line)
    requires Proper(p) && SendsAt(t, w, p) && !w.Data?
    ensures SendsRight(t, tdr, tdre, w, p)
  {
    hide Dec8;
    if w.Quiet? && !tdre { assert TxShift(tdr, 0) == tdr && ParityOf(tdr, 0) == false; }
  }

  /** The next byte to be sent. */
  function Waiting(a: Acia): seq<bv8> { if a.sr.tdre then [] else [a.tdr] }

  predicate Sending(a: Acia, w: Wire, ws: nat) {
    ws < 8 && a.cr.wordSelect == ws && !a.txSendBrk && SendsAt(a.tx, w, SerialParams(ws))
  }

  lemma SendTick(a: Acia, w: Wire, ws: nat)
    requires Sending(a, w, ws) && Proper(SerialParams(ws))
    ensures var p, n := SerialParams(ws), ClockTx(a);
      && Sending(n, NextWire(w, Waiting(a), p), ws) && n.tx.line == LevelFrom(w, Waiting(a), p)
      && Waiting(n) == if w.Quiet? then [] else Waiting(a)
  {
    hide SendsAt, TxStep, SerialParams, UpdateIrq, NextWire, LevelFrom;
    if w.Data? { SendData(a.tx, a.tdr, a.sr.tdre, w, SerialParams(ws)); }
    else { SendOther(a.tx, a.tdr, a.sr.tdre, w, SerialParams(ws)); }
  }

  // ----- from the start bit to the end -----

  lemma {:induction false} LineIdle(a: Acia, ws: nat, n: nat)
    requires Sending(a, Quiet, ws) && Waiting(a) == []
    ensures Levels(a, n) == seq(n, i => true)
    decreases n
  {
    hide ClockTx, Sending, SerialParams;
    ProperWord(a, ws);
    if n > 0 {
      SendTick(a, Quiet, ws);
      LineIdle(ClockTx(a), ws, n - 1);
    }
  }

  lemma ProperWord(a: Acia, ws: nat)
    requires exists w :: Sending(a, w, ws)
    ensures ws < 8 && Proper(SerialParams(ws))
  {
    ProperParams(ws);
  }

  lemma {:induction false} StopsOut(a: Acia, b: bv8, left: nat, ws: nat, n: nat)
    requires Sending(a, Stop(b, left), ws) && Waiting(a) == [] && 0 < left
    ensures Levels(a, left + n) == seq(left + n, i => true)
    decreases left
  {
    hide ClockTx, Sending, SerialParams;
    ProperWord(a, ws);
    SendTick(a, Stop(b, left), ws);
    if left > 1 { StopsOut(ClockTx(a), b, left - 1, ws, n); } else { LineIdle(ClockTx(a), ws, n); }
  }

  /** What follows the data bits. */
  function Tail(b: bv8, p: Line, n: nat): seq<bool> {
    (if p.parity.NoParity? then [] else [ParityOf(b, p.dataBits) == p.parity.Even?]) + seq(p.stopBits + n, i => true)
  }

  lemma TailOut(a: Acia, b: bv8, ws: nat, n: nat)
    requires ws < 8 && Waiting(a) == [] && Proper(SerialParams(ws))
    requires var p := SerialParams(ws); Sending(a, if p.parity.NoParity? then Stop(b, p.stopBits) else Par(b), ws)
    ensures var p := SerialParams(ws); Levels(a, |Tail(b, p, n)|) == Tail(b, p, n)
  {
    hide ClockTx, Sending, SerialParams, ParityOf;
    var p := SerialParams(ws);
    if p.parity.NoParity? {
      StopsOut(a, b, p.stopBits, ws, n);
    } else {
      SendTick(a, Par(b), ws);
      StopsOut(ClockTx(a), b, p.stopBits, ws, n);
    }
  }

  /** The bits of b from j on. */
  function Rest(b: bv8, j: nat, p: Line): seq<bool>
    requires j <= p.dataBits
  {
    seq(p.dataBits - j, i requires 0 <= i => BitOf(b, j + i))
  }

  lemma {:induction false} DataOut(a: Acia, b: bv8, j: nat, ws: nat, n: nat)
    requires ws < 8 && Waiting(a) == [] && Proper(SerialParams(ws)) && j < SerialParams(ws).dataBits
    requires Sending(a, Data(b, j), ws)
    ensures var p := SerialParams(ws);
      Levels(a, p.dataBits - j + |Tail(b, p, n)|) == Rest(b, j, p) + Tail(b, p, n)
    decreases SerialParams(ws).dataBits - j
  {
    hide ClockTx, Sending, SerialParams, ParityOf, BitOf, Tail;
    var p := SerialParams(ws);
    SendTick(a, Data(b, j), ws);
    assert Rest(b, j, p) == [BitOf(b, j)] + Rest(b, j + 1, p);
    if j + 1 < p.dataBits {
      DataOut(ClockTx(a), b, j + 1, ws, n);
    } else {
      TailOut(ClockTx(a), b, ws, n);
    }
  }

  // ----- what is sent -----

  lemma BitValues(b: bv8)
    ensures BitOf(b, 0) == (b & 1 == 1) && BitOf(b, 1) == (b & 2 == 2) && BitOf(b, 2) == (b & 4 == 4)
    ensures BitOf(b, 3) == (b & 8 == 8) && BitOf(b, 4) == (b & 16 == 16) && BitOf(b, 5) == (b & 32 == 32)
    ensures BitOf(b, 6) == (b & 64 == 64) && BitOf(b, 7) == (b & 128 == 128)
  {
    hide TxShift;
    TxShiftIs(b);
  }

  lemma BitsAre(b: bv8, j: nat)
    requires j < 8
    ensures BitsOf(b)[j] == BitOf(b, j)
  {
    hide BitOf;
    BitValues(b);
  }

  lemma {:induction false} ParityIs(b: bv8, n: nat)
    requires n <= 8
    ensures ParityOf(b, n) == (CountOnes(BitsOf(b)[..n]) % 2 == 1)
  {
    hide BitOf, BitsOf;
    if n > 0 {
      ParityIs(b, n - 1);
      BitsAre(b, n - 1);
      assert BitsOf(b)[..n][..n - 1] == BitsOf(b)[..n - 1];
    }
  }

  lemma RestIs(b: bv8, ws: nat)
    requires ws < 8
    ensures SerialParams(ws).dataBits <= 8 && Rest(b, 0, SerialParams(ws)) == DataBits(b, ws)
  {
    hide BitOf, BitsOf;
    forall j | 0 <= j < SerialParams(ws).dataBits ensures BitOf(b, j) == BitsOf(b)[j] { BitsAre(b, j); }
  }

  lemma TailIs(b: bv8, ws: nat, n: nat)
    requires ws < 8
    ensures Tail(b, SerialParams(ws), n) == ParityBits(DataBits(b, ws), ws) + StopBits(ws) + seq(n, i => true)
  {
    hide BitsOf, ParityOf, CountOnes;
    ParityIs(b, if ws < 4 then 7 else 8);
  }

  lemma WholeFrameIs(b: bv8, ws: nat, n: nat)
    requires ws < 8
    ensures var p := SerialParams(ws);
      && [false] + (Rest(b, 0, p) + Tail(b, p, n)) == WholeFrame(b, ws) + seq(n, i => true)
      && |WholeFrame(b, ws)| + n == 1 + p.dataBits + |Tail(b, p, n)|
  {
    hide ParityBits, StopBits, SerialParams, Tail;
    RestIs(b, ws);
    TailIs(b, ws, n);
    var data, parity, stops, idle := DataBits(b, ws), ParityBits(DataBits(b, ws), ws), StopBits(ws), seq(n, i => true);
    assert [false] + (data + (parity + stops + idle)) == [false] + data + parity + stops + idle;
  }

  lemma StartOut(a: Acia, b: bv8, ws: nat, n: nat)
    requires Sending(a, Quiet, ws) && Waiting(a) == [b]
    ensures Levels(a, |WholeFrame(b, ws)| + n) == WholeFrame(b, ws) + seq(n, i => true)
  {
    hide ClockTx, Sending, SerialParams, WholeFrame, Tail, Rest;
    ProperWord(a, ws);
    var p := SerialParams(ws);
    SendTick(a, Quiet, ws);
    DataOut(ClockTx(a), b, 0, ws, n);
    WholeFrameIs(b, ws, n);
    assert Levels(a, 1 + p.dataBits + |Tail(b, p, n)|) == [false] + Levels(ClockTx(a), p.dataBits + |Tail(b, p, n)|);
  }

  /** A byte written after a control byte: the ticks put its frame on the line, with the format the
      word select asks for, and then leave the line high. */
  lemma FrameOnWire(a: Acia, cr: nat, dcd: bool, cts: bool, b: bv8, n: nat)
    requires a.tx.state.Idle? && a.tx.size == 0 && Divide(cr) != 3 && cr / 32 % 4 != 3
    ensures var sent := WriteTdr(WriteCr(a, cr, dcd, cts), b);
      var frame := WholeFrame(b, cr / 4 % 8);
      Levels(sent, |frame| + n) == frame + seq(n, i => true)
  {
    hide ClockTx, SerialParams, WholeFrame, UpdateIrq, Levels;
    var sent := WriteTdr(WriteCr(a, cr, dcd, cts), b);
    assert Sending(sent, Quiet, cr / 4 % 8) && Waiting(sent) == [b];
    StartOut(sent, b, cr / 4 % 8, n);
  }
}
