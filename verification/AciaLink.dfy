/** Two ACIAs on one wire: the transmitter's ticks drive the receiver's, bit by bit, and the
    pair behaves as a three-place queue of bytes. */
module AciaLink {
  import Arith
  import opened AciaCore

  // ----- one byte through the shift registers -----

  /** The transmit shift register after j bits of b have gone out. */
  function TxShift(b: bv8, j: nat): bv8
  {
    if j == 0 then b else ShiftDown(TxShift(b, j - 1))
  }

  function BitOf(b: bv8, j: nat): bool { LowBit(TxShift(b, j)) }

  /** The receive shift register after j bits of b have come in, none of them the last. */
  function RxShift(b: bv8, j: nat): bv8 {
    if j == 0 then 0 else ShiftDown(PutHigh(RxShift(b, j - 1), BitOf(b, j - 1)))
  }

  /** The register after all n bits: the last one is not shifted down. */
  function RxFull(b: bv8, n: nat): bv8
    requires n > 0
  {
    PutHigh(RxShift(b, n - 1), BitOf(b, n - 1))
  }

  function ParityOf(b: bv8, j: nat): bool {
    if j == 0 then false else ParityOf(b, j - 1) != BitOf(b, j - 1)
  }

  /** What a byte looks like at the far end: itself with 8 data bits, shifted left by one with 7. */
  function Arrives(b: bv8, dataBits: nat): bv8 { if dataBits == 8 then b else b << 1 }

  lemma TxShiftIs(b: bv8)
    ensures TxShift(b, 0) == b && TxShift(b, 1) == b >> 1 && TxShift(b, 2) == b >> 2 && TxShift(b, 3) == b >> 3
    ensures TxShift(b, 4) == b >> 4 && TxShift(b, 5) == b >> 5 && TxShift(b, 6) == b >> 6 && TxShift(b, 7) == b >> 7
  {
    assert TxShift(b, 1) == b >> 1;
    assert TxShift(b, 2) == b >> 2;
    assert TxShift(b, 3) == b >> 3;
    assert TxShift(b, 4) == b >> 4;
    assert TxShift(b, 5) == b >> 5;
    assert TxShift(b, 6) == b >> 6;
    assert TxShift(b, 7) == b >> 7;
  }

  /** Received low bits, one bit at a time. */
  lemma RxShiftIs(b: bv8)
    ensures RxShift(b, 6) == (b << 2) >> 1 && RxShift(b, 7) == (b << 1) >> 1
  {
    TxShiftIs(b);
    assert RxShift(b, 1) == (b << 7) >> 1;
    assert RxShift(b, 2) == (b << 6) >> 1;
    assert RxShift(b, 3) == (b << 5) >> 1;
    assert RxShift(b, 4) == (b << 4) >> 1;
    assert RxShift(b, 5) == (b << 3) >> 1;
    assert RxShift(b, 6) == (b << 2) >> 1;
    assert RxShift(b, 7) == (b << 1) >> 1;
  }

  /** A byte sent low bit first and received high bit first arrives as `Arrives` says. */
  lemma ByteArrives(b: bv8, n: nat)
    requires n == 7 || n == 8
    ensures RxFull(b, n) == Arrives(b, n)
  {
    TxShiftIs(b);
    RxShiftIs(b);
  }

  // ----- the two devices in step -----

  /** Where both ends are within a frame. */
  datatype Wire = Quiet | Data(b: bv8, j: nat) | Par(b: bv8) | Stop(b: bv8, left: nat)

  /** Transmitter `t` and receiver `r` are both at point `w` of a frame. */
  predicate InStep(t: Transmitter, r: Receiver, w: Wire, p: Line) {
    match w
    case Quiet => t.state.Idle? && t.size == 0 && r.state.Idle?
    case Data(b, j) =>
      && t.state.DataBit? && r.state.DataBit? && j < p.dataBits && t.size == r.size == p.dataBits - j
      && t.tsr == TxShift(b, j) && r.rsr == RxShift(b, j) && t.parity == r.parity == ParityOf(b, j)
      && t.stopBits == r.stopBits == p.stopBits
    case Par(b) =>
      && !p.parity.NoParity? && t.state.ParityBit? && r.state.ParityBit? && t.size == 0
      && r.rsr == Arrives(b, p.dataBits) && t.parity == r.parity && t.stopBits == r.stopBits == p.stopBits
    case Stop(b, left) =>
      && t.state.StopBit? && r.state.StopBit? && t.size == 0 && r.rsr == Arrives(b, p.dataBits)
      && 0 < left <= p.stopBits && t.stopBits == r.stopBits == left
  }

  predicate Proper(p: Line) { (p.dataBits == 7 || p.dataBits == 8) && (p.stopBits == 1 || p.stopBits == 2) }

  /** The wire after one tick, given the transmit data register if it holds a byte. */
  function NextWire(w: Wire, next: seq<bv8>, p: Line): Wire
    requires Proper(p)
  {
    match w
    case Quiet => if next == [] then Quiet else Data(next[0], 0)
    case Data(b, j) =>
      if j + 1 < p.dataBits then Data(b, j + 1)
      else if p.parity.NoParity? then Stop(b, p.stopBits) else Par(b)
    case Par(b) => Stop(b, p.stopBits)
    case Stop(b, left) => if left > 1 then Stop(b, left - 1) else Quiet
  }

  function TxBuffer(a: Acia): seq<bv8> { if a.sr.tdre then [] else [a.tdr] }
  function RxBuffer(a: Acia): seq<bv8> { if a.sr.rdrf then [a.rdr] else [] }

  predicate LastStop(w: Wire) { w.Stop? && w.left == 1 }

  lemma OneMoreBit(b: bv8, j: nat)
    ensures TxShift(b, j + 1) == ShiftDown(TxShift(b, j))
    ensures RxShift(b, j + 1) == ShiftDown(PutHigh(RxShift(b, j), BitOf(b, j)))
    ensures RxFull(b, j + 1) == PutHigh(RxShift(b, j), BitOf(b, j))
    ensures ParityOf(b, j + 1) == (ParityOf(b, j) != BitOf(b, j))
  {
  }

  /** What one transmitter bit feeding one receiver bit must do at point `w` of a frame. */
  predicate StepsRight(t: Transmitter, r: Receiver, tdr: bv8, tdre: bool, rdr: bv8, sr: Status, w: Wire, p: Line)
    requires Proper(p)
  {
    var tn := TxStep(t, tdr, tdre, false, p);
    var rn := RxStep(r, rdr, sr, tn.tx.line, p);
    && InStep(tn.tx, rn.rx, NextWire(w, if tdre then [] else [tdr], p), p)
    && tn.tdre == (tdre || w.Quiet?)
    && rn.sr.fe == (sr.fe && !LastStop(w))
    && rn.sr.pe == (sr.pe || (w.Par? && p.parity.Even?))
    && rn.sr.rdrf == (sr.rdrf || LastStop(w))
    && rn.rdr == (if LastStop(w) && !sr.rdrf then Arrives(w.b, p.dataBits) else rdr)
    && rn.rx.overrun == (r.overrun || (LastStop(w) && sr.rdrf))
  }

  lemma DataBitStep(t: Transmitter, r: Receiver, tdr: bv8, tdre: bool, rdr: bv8, sr: Status, w: Wire, p: Line)
    requires Proper(p) && InStep(t, r, w, p) && w.Data?
    ensures StepsRight(t, r, tdr, tdre, rdr, sr, w, p)
  {
    hide TxShift, RxShift, RxFull, ParityOf, Arrives, Dec8, ShiftDown, LowBit, PutHigh;
    OneMoreBit(w.b, w.j);
    if w.j + 1 == p.dataBits { ByteArrives(w.b, p.dataBits); }
  }

  lemma QuietStep(t: Transmitter, r: Receiver, tdr: bv8, tdre: bool, rdr: bv8, sr: Status, w: Wire, p: Line)
    requires Proper(p) && InStep(t, r, w, p) && w.Quiet?
    ensures StepsRight(t, r, tdr, tdre, rdr, sr, w, p)
  {
    hide Arrives, Dec8;
    if !tdre { assert TxShift(tdr, 0) == tdr && RxShift(tdr, 0) == 0 && ParityOf(tdr, 0) == false; }
  }

  lemma ParityStep(t: Transmitter, r: Receiver, tdr: bv8, tdre: bool, rdr: bv8, sr: Status, w: Wire, p: Line)
    requires Proper(p) && InStep(t, r, w, p) && w.Par?
    ensures StepsRight(t, r, tdr, tdre, rdr, sr, w, p)
  {
    hide Arrives, Dec8, TxShift, RxShift, ParityOf;
  }

  lemma StopStep(t: Transmitter, r: Receiver, tdr: bv8, tdre: bool, rdr: bv8, sr: Status, w: Wire, p: Line)
    requires Proper(p) && InStep(t, r, w, p) && w.Stop? && w.left > 1
    ensures StepsRight(t, r, tdr, tdre, rdr, sr, w, p)
  {
    hide Arrives, Dec8, TxShift, RxShift, ParityOf;
  }

  lemma LastStopTx(t: Transmitter, tdr: bv8, tdre: bool, p: Line)
    requires t.state.StopBit? && t.stopBits == 1
    ensures var n := TxStep(t, tdr, tdre, false, p);
      n.tx.line && n.tx.state.Idle? && n.tx.size == t.size && n.tdre == tdre
  {
    hide Dec8;
  }

  lemma LastStopRx(r: Receiver, rdr: bv8, sr: Status, p: Line)
    requires r.state.StopBit? && r.stopBits == 1
    ensures var n := RxStep(r, rdr, sr, true, p);
      && n.rx.state.Idle? && n.rx.overrun == (r.overrun || sr.rdrf) && n.rdr == (if sr.rdrf then rdr else r.rsr)
      && n.sr.rdrf && !n.sr.fe && n.sr.pe == sr.pe
  {
    hide Dec8, PutHigh, ShiftDown, AfterData;
    assert r.state == StopBit;
  }

  lemma LastStopStep(t: Transmitter, r: Receiver, tdr: bv8, tdre: bool, rdr: bv8, sr: Status, w: Wire, p: Line)
    requires Proper(p) && InStep(t, r, w, p) && LastStop(w)
    ensures StepsRight(t, r, tdr, tdre, rdr, sr, w, p)
  {
    hide Arrives, TxStep, RxStep, TxShift, RxShift, ParityOf;
    LastStopTx(t, tdr, tdre, p);
    LastStopRx(r, rdr, sr, p);
  }

  /** The two ends stay in step through any tick. */
  lemma BitStep(t: Transmitter, r: Receiver, tdr: bv8, tdre: bool, rdr: bv8, sr: Status, w: Wire, p: Line)
    requires Proper(p) && InStep(t, r, w, p)
    ensures StepsRight(t, r, tdr, tdre, rdr, sr, w, p)
  {
    hide StepsRight, TxShift, RxShift, ParityOf, Arrives;
    match w
    case Quiet => QuietStep(t, r, tdr, tdre, rdr, sr, w, p);
    case Data(_, _) => DataBitStep(t, r, tdr, tdre, rdr, sr, w, p);
    case Par(_) => ParityStep(t, r, tdr, tdre, rdr, sr, w, p);
    case Stop(_, left) =>
      if left > 1 { StopStep(t, r, tdr, tdre, rdr, sr, w, p); } else { LastStopStep(t, r, tdr, tdre, rdr, sr, w, p); }
  }

  // ----- runs of the link -----

  datatype Link = Link(a: Acia, b: Acia)

  /** One bit time, a write of the sender's TDR, a read of the receiver's RDR, or a read of the
      status register of either end, whose CTS input is then `cts`. */
  datatype Event = Tick | Write(value: bv8) | Read | PollSender(cts: bool) | PollReceiver(cts: bool)

  function Happen(l: Link, e: Event): Link {
    match e
    case Tick => var a := ClockTx(l.a); Link(a, ClockRx(l.b, a.tx.line))
    case Write(value) => l.(a := WriteTdr(l.a, value))
    case Read => l.(b := ReadRdr(l.b, false))
    case PollSender(cts) => l.(a := ReadSr(l.a, cts))
    case PollReceiver(cts) => l.(b := ReadSr(l.b, cts))
  }

  /** Both ends are set to word select `ws`, no break is being sent, and they are at point `w`. */
  predicate LinkAt(l: Link, w: Wire, ws: nat) {
    && ws < 8 && l.a.cr.wordSelect == l.b.cr.wordSelect == ws && !l.a.txSendBrk
    && InStep(l.a.tx, l.b.rx, w, SerialParams(ws))
  }

  lemma ProperParams(ws: nat)
    requires ws < 8
    ensures Proper(SerialParams(ws))
  {
  }

  lemma TickAt(l: Link, w: Wire, ws: nat)
    requires LinkAt(l, w, ws)
    ensures Proper(SerialParams(ws))
    ensures var n := Happen(l, Tick);
      && LinkAt(n, NextWire(w, TxBuffer(l.a), SerialParams(ws)), ws)
      && TxBuffer(n.a) == (if w.Quiet? then [] else TxBuffer(l.a))
      && RxBuffer(n.b) == (if LastStop(w) && !l.b.sr.rdrf then [Arrives(w.b, SerialParams(ws).dataBits)] else RxBuffer(l.b))
      && n.b.sr.fe == (l.b.sr.fe && !LastStop(w))
      && n.b.sr.pe == (l.b.sr.pe || (w.Par? && SerialParams(ws).parity.Even?))
      && n.b.rx.overrun == (l.b.rx.overrun || (LastStop(w) && l.b.sr.rdrf))
  {
    hide InStep, TxStep, RxStep, Arrives, SerialParams, UpdateIrq, NextWire;
    ProperParams(ws);
    var p := SerialParams(ws);
    BitStep(l.a.tx, l.b.rx, l.a.tdr, l.a.sr.tdre, l.b.rdr, l.b.sr, w, p);
  }

  /** Legal use: write only when TDR is empty, read only when RDR is full, and read RDR before
      the next frame completes. */
  predicate Legal(l: Link, e: Event) {
    match e
    case Tick => !(l.b.rx.state.StopBit? && l.b.rx.stopBits == 1 && l.b.sr.rdrf)
    case Write(_) => l.a.sr.tdre
    case Read => l.b.sr.rdrf
    case PollSender(_) => true
    case PollReceiver(_) => true
  }

  /** A program learns from the status registers when it may write and read: TDRE at the sender,
      which is not shown while CTS is high, and RDRF at the receiver. */
  lemma StatusTellsLegal(l: Link, value: bv8, cts: bool)
    ensures StatusSeen(l.a, cts).tdre <==> Legal(l, Write(value)) && !cts
    ensures StatusSeen(l.b, cts).rdrf <==> Legal(l, Read)
    ensures Legal(Happen(l, PollSender(cts)), Write(value)) <==> Legal(l, Write(value))
    ensures Legal(Happen(l, PollReceiver(cts)), Read) <==> Legal(l, Read)
  {
    hide InStep, ReadRdr, WriteTdr, ClockTx, ClockRx, UpdateIrq, Params;
  }

  function InFlight(w: Wire): seq<bv8> { if w.Quiet? then [] else [w.b] }

  function Arrivals(bytes: seq<bv8>, n: nat): (r: seq<bv8>)
    ensures |r| == |bytes|
  {
    seq(|bytes|, i requires 0 <= i < |bytes| => Arrives(bytes[i], n))
  }

  /** Everything sent and not yet read, as it will be read, oldest first. */
  function Pending(l: Link, w: Wire, n: nat): seq<bv8> {
    RxBuffer(l.b) + Arrivals(InFlight(w), n) + Arrivals(TxBuffer(l.a), n)
  }

  function WireAfter(l: Link, w: Wire, e: Event, ws: nat): Wire
    requires ws < 8
  {
    ProperParams(ws);
    if e.Tick? then NextWire(w, TxBuffer(l.a), SerialParams(ws)) else w
  }

  function SentBy(e: Event): seq<bv8> { if e.Write? then [e.value] else [] }
  function ReadBy(l: Link, e: Event): seq<bv8> { if e.Read? then [l.b.rdr] else [] }

  /** No error has been seen by the receiver. */
  predicate Clean(a: Acia) { !a.sr.fe && !a.sr.pe && !a.sr.ovrn && !a.rx.overrun }

  lemma ArrivalsAdd(x: seq<bv8>, y: seq<bv8>, n: nat)
    ensures Arrivals(x + y, n) == Arrivals(x, n) + Arrivals(y, n)
  {
  }

  lemma WriteAt(l: Link, w: Wire, value: bv8, ws: nat)
    requires LinkAt(l, w, ws) && l.a.sr.tdre
    ensures LinkAt(Happen(l, Write(value)), w, ws) && Happen(l, Write(value)).b == l.b
    ensures TxBuffer(Happen(l, Write(value)).a) == [value]
  {
    hide InStep, UpdateIrq, SerialParams;
  }

  lemma ReadAt(l: Link, w: Wire, ws: nat)
    requires LinkAt(l, w, ws) && l.b.sr.rdrf
    ensures LinkAt(Happen(l, Read), w, ws) && Happen(l, Read).a == l.a
    ensures RxBuffer(Happen(l, Read).b) == []
    ensures Clean(l.b) ==> Clean(Happen(l, Read).b)
  {
    hide UpdateIrq, SerialParams, TxShift, RxShift, ParityOf, Arrives;
  }

  /** Reading a status register changes nothing that the link depends on. */
  lemma PollAt(l: Link, w: Wire, e: Event, ws: nat)
    requires LinkAt(l, w, ws) && (e.PollSender? || e.PollReceiver?)
    ensures LinkAt(Happen(l, e), w, ws)
    ensures TxBuffer(Happen(l, e).a) == TxBuffer(l.a) && RxBuffer(Happen(l, e).b) == RxBuffer(l.b)
    ensures Clean(l.b) ==> Clean(Happen(l, e).b)
  {
    hide SerialParams, TxShift, RxShift, ParityOf, Arrives;
  }

  lemma WritePending(l: Link, w: Wire, value: bv8, ws: nat, n: nat)
    requires LinkAt(l, w, ws) && l.a.sr.tdre
    ensures Pending(Happen(l, Write(value)), w, n) == Pending(l, w, n) + Arrivals([value], n)
  {
    hide Happen, SerialParams, Arrives, InStep;
    WriteAt(l, w, value, ws);
    assert Arrivals([], n) == [];
  }

  lemma ReadPending(l: Link, w: Wire, ws: nat, n: nat)
    requires LinkAt(l, w, ws) && l.b.sr.rdrf
    ensures [l.b.rdr] + Pending(Happen(l, Read), w, n) == Pending(l, w, n)
  {
    hide Happen, SerialParams, Arrives, InStep;
    ReadAt(l, w, ws);
  }

  lemma PollPending(l: Link, w: Wire, e: Event, ws: nat, n: nat)
    requires LinkAt(l, w, ws) && (e.PollSender? || e.PollReceiver?)
    ensures Pending(Happen(l, e), w, n) == Pending(l, w, n) && Arrivals([], n) == []
  {
    hide Happen, SerialParams, Arrives, InStep;
    PollAt(l, w, e, ws);
  }

  /** One legal event: the queue of bytes loses what was read and gains what was written. */
  lemma EventStep(l: Link, w: Wire, e: Event, ws: nat)
    requires LinkAt(l, w, ws) && Legal(l, e)
    ensures LinkAt(Happen(l, e), WireAfter(l, w, e, ws), ws)
    ensures var n := SerialParams(ws).dataBits;
      ReadBy(l, e) + Pending(Happen(l, e), WireAfter(l, w, e, ws), n) == Pending(l, w, n) + Arrivals(SentBy(e), n)
  {
    hide Happen, SerialParams, Arrives, InStep, Pending;
    var n := SerialParams(ws).dataBits;
    assert Arrivals([], n) == [];
    match e
    case Tick =>
      TickAt(l, w, ws);
      TickPending(l, w, ws);
    case Write(value) =>
      WriteAt(l, w, value, ws);
      WritePending(l, w, value, ws, n);
    case Read =>
      ReadAt(l, w, ws);
      ReadPending(l, w, ws, n);
    case _ =>
      PollAt(l, w, e, ws);
      PollPending(l, w, e, ws, n);
  }

  lemma EventClean(l: Link, w: Wire, e: Event, ws: nat)
    requires LinkAt(l, w, ws) && Legal(l, e) && Clean(l.b) && !SerialParams(ws).parity.Even?
    ensures Clean(Happen(l, e).b)
  {
    hide Happen, SerialParams, Arrives;
    match e
    case Tick =>
      TickAt(l, w, ws);
      TickPending(l, w, ws);
    case Write(value) => WriteAt(l, w, value, ws);
    case Read => ReadAt(l, w, ws);
    case _ => PollAt(l, w, e, ws);
  }

  lemma TickPending(l: Link, w: Wire, ws: nat)
    requires LinkAt(l, w, ws) && Legal(l, Tick)
    ensures var n := SerialParams(ws).dataBits;
      Pending(Happen(l, Tick), WireAfter(l, w, Tick, ws), n) == Pending(l, w, n)
    ensures Happen(l, Tick).b.sr.ovrn == l.b.sr.ovrn && !(LastStop(w) && l.b.sr.rdrf)
  {
    hide Happen, SerialParams, Arrives;
    TickAt(l, w, ws);
    TickOvrn(l);
  }

  lemma TickOvrn(l: Link)
    ensures Happen(l, Tick).b.sr.ovrn == l.b.sr.ovrn
  {
    hide TxStep, RxStep, UpdateIrq, Params;
  }

  function After(l: Link, es: seq<Event>): Link
    decreases |es|
  {
    if es == [] then l else After(Happen(l, es[0]), es[1..])
  }

  predicate AllLegal(l: Link, es: seq<Event>)
    decreases |es|
  {
    es == [] || (Legal(l, es[0]) && AllLegal(Happen(l, es[0]), es[1..]))
  }

  function EndWire(l: Link, w: Wire, es: seq<Event>, ws: nat): Wire
    requires ws < 8
    decreases |es|
  {
    if es == [] then w else EndWire(Happen(l, es[0]), WireAfter(l, w, es[0], ws), es[1..], ws)
  }

  /** The bytes written, and the bytes read, over a run. */
  function Sent(es: seq<Event>): seq<bv8> {
    if es == [] then [] else SentBy(es[0]) + Sent(es[1..])
  }

  function Received(l: Link, es: seq<Event>): seq<bv8>
    decreases |es|
  {
    if es == [] then [] else ReadBy(l, es[0]) + Received(Happen(l, es[0]), es[1..])
  }

  lemma {:induction false} LinkRun(l: Link, w: Wire, es: seq<Event>, ws: nat)
    requires LinkAt(l, w, ws) && AllLegal(l, es)
    ensures LinkAt(After(l, es), EndWire(l, w, es, ws), ws)
    ensures var n := SerialParams(ws).dataBits;
      Received(l, es) + Pending(After(l, es), EndWire(l, w, es, ws), n) == Pending(l, w, n) + Arrivals(Sent(es), n)
    decreases |es|
  {
    hide Happen, SerialParams, Arrives, InStep, Pending, Legal, WireAfter, After, EndWire, Received, Sent, Arrivals;
    var n := SerialParams(ws).dataBits;
    var l1, w1 := if es == [] then l else Happen(l, es[0]), if es == [] then w else WireAfter(l, w, es[0], ws);
    RunCons(l, w, es, ws, n);
    if es == [] {
      assert [] + Pending(l, w, n) == Pending(l, w, n) + [];
    } else {
      EventStep(l, w, es[0], ws);
      LinkRun(l1, w1, es[1..], ws);
      var end := Pending(After(l, es), EndWire(l, w, es, ws), n);
      Telescope(ReadBy(l, es[0]), Received(l1, es[1..]), end, Pending(l1, w1, n), Pending(l, w, n),
        Arrivals(SentBy(es[0]), n), Arrivals(Sent(es[1..]), n));
    }
  }

  /** A run is its first event and a run of the others. */
  lemma RunCons(l: Link, w: Wire, es: seq<Event>, ws: nat, n: nat)
    requires ws < 8
    ensures es == [] ==> After(l, es) == l && EndWire(l, w, es, ws) == w && Received(l, es) == Arrivals(Sent(es), n) == []
    ensures es != [] ==>
      var l1, w1 := Happen(l, es[0]), WireAfter(l, w, es[0], ws);
      && After(l, es) == After(l1, es[1..]) && EndWire(l, w, es, ws) == EndWire(l1, w1, es[1..], ws)
      && Received(l, es) == ReadBy(l, es[0]) + Received(l1, es[1..])
      && Arrivals(Sent(es), n) == Arrivals(SentBy(es[0]), n) + Arrivals(Sent(es[1..]), n)
  {
    hide Happen, WireAfter, Arrives;
    if es != [] { ArrivalsAdd(SentBy(es[0]), Sent(es[1..]), n); }
  }

  /** The balance of one event and that of the others add up. */
  lemma Telescope(read: seq<bv8>, later: seq<bv8>, end: seq<bv8>, mid: seq<bv8>, start: seq<bv8>,
                  sent: seq<bv8>, sents: seq<bv8>)
    requires read + mid == start + sent && later + end == mid + sents
    ensures (read + later) + end == start + (sent + sents)
  {
    assert (read + later) + end == read + (later + end);
    assert read + (mid + sents) == (read + mid) + sents;
    assert (start + sent) + sents == start + (sent + sents);
  }

  /** Both ends idle and empty, and no error seen. */
  predicate Fresh(l: Link, ws: nat) {
    LinkAt(l, Quiet, ws) && l.a.sr.tdre && !l.b.sr.rdrf && Clean(l.b)
  }

  /** Whatever the order of writes, ticks and reads: the bytes read are the bytes written, in
      order, each once, with only those still on their way missing. */
  lemma StreamArrives(l: Link, es: seq<Event>, ws: nat)
    requires Fresh(l, ws) && AllLegal(l, es)
    ensures Received(l, es) <= Arrivals(Sent(es), SerialParams(ws).dataBits)
    ensures var end := After(l, es);
      EndWire(l, Quiet, es, ws).Quiet? && end.a.sr.tdre && !end.b.sr.rdrf
      ==> Received(l, es) == Arrivals(Sent(es), SerialParams(ws).dataBits)
    ensures |Sent(es)| - |Received(l, es)| <= 3
  {
    hide SerialParams, Arrives, InStep, Clean, Received, AllLegal, After, EndWire, Sent, Arrivals, Pending;
    var n := SerialParams(ws).dataBits;
    LinkRun(l, Quiet, es, ws);
    NothingPending(l, Quiet, n);
    NothingPending(After(l, es), EndWire(l, Quiet, es, ws), n);
    var on := Pending(After(l, es), EndWire(l, Quiet, es, ws), n);
    assert Received(l, es) + on == [] + Arrivals(Sent(es), n) == Arrivals(Sent(es), n);
  }

  lemma NothingPending(l: Link, w: Wire, n: nat)
    ensures |Pending(l, w, n)| <= 3
    ensures w.Quiet? && l.a.sr.tdre && !l.b.sr.rdrf ==> Pending(l, w, n) == []
  {
    hide Arrives;
  }

  lemma EightBitsArriveUnchanged(bytes: seq<bv8>, ws: nat)
    requires 4 <= ws < 8
    ensures Arrivals(bytes, SerialParams(ws).dataBits) == bytes
  {
  }

  /** With no parity or odd parity, a legal run from a fresh link never shows an error. */
  lemma {:induction false} NoErrors(l: Link, w: Wire, es: seq<Event>, ws: nat)
    requires LinkAt(l, w, ws) && Clean(l.b) && AllLegal(l, es) && !SerialParams(ws).parity.Even?
    ensures Clean(After(l, es).b)
    decreases |es|
  {
    hide Happen, SerialParams, InStep, Legal, WireAfter, Clean;
    if es != [] {
      EventStep(l, w, es[0], ws);
      EventClean(l, w, es[0], ws);
      NoErrors(Happen(l, es[0]), WireAfter(l, w, es[0], ws), es[1..], ws);
    }
  }

  /** With even parity the receiver flags every frame, right or not: a parity error is raised
      at a correct parity bit exactly when the word select has even parity. */
  lemma ParityErrorIffEven(l: Link, w: Wire, ws: nat)
    requires LinkAt(l, w, ws) && !l.b.sr.pe
    ensures Happen(l, Tick).b.sr.pe <==> w.Par? && ws in {0, 2, 6}
  {
    hide Happen, InStep;
    TickAt(l, w, ws);
  }

  // ----- how long a frame takes -----

  /** Bit times of a frame: start bit, data, parity and stop bits. */
  function FrameTime(p: Line): nat {
    1 + p.dataBits + (if p.parity.NoParity? then 0 else 1) + p.stopBits
  }

  function Progress(w: Wire, p: Line): int {
    match w
    case Quiet => 0
    case Data(_, j) => 1 + j
    case Par(_) => 1 + p.dataBits
    case Stop(_, left) => FrameTime(p) - left
  }

  function Ticks(es: seq<Event>): nat {
    if es == [] then 0 else (if es[0].Tick? then 1 else 0) + Ticks(es[1..])
  }

  /** Ticks at which the wire is quiet and there is nothing to send. */
  function IdleTicks(l: Link, w: Wire, es: seq<Event>, ws: nat): nat
    requires ws < 8
    decreases |es|
  {
    if es == [] then 0
    else (if es[0].Tick? && w.Quiet? && l.a.sr.tdre then 1 else 0)
         + IdleTicks(Happen(l, es[0]), WireAfter(l, w, es[0], ws), es[1..], ws)
  }

  function Delivered(l: Link, es: seq<Event>): int {
    |Received(l, es)| + |RxBuffer(After(l, es).b)| - |RxBuffer(l.b)|
  }

  lemma FrameTimeIs(p: Line, w: Wire, next: seq<bv8>)
    requires Proper(p)
    requires match w
      case Quiet => true
      case Data(_, j) => j < p.dataBits
      case Par(_) => !p.parity.NoParity?
      case Stop(_, left) => 0 < left <= p.stopBits
    ensures Progress(NextWire(w, next, p), p) + (if LastStop(w) then FrameTime(p) else 0)
         == Progress(w, p) + if w.Quiet? && next == [] then 0 else 1
  {
  }

  lemma TickTime(l: Link, w: Wire, ws: nat)
    requires LinkAt(l, w, ws) && Legal(l, Tick)
    ensures var p := SerialParams(ws);
      var frames := |RxBuffer(Happen(l, Tick).b)| - |RxBuffer(l.b)|;
      && (frames == if LastStop(w) then 1 else 0)
      && 1 + Progress(w, p) == (if LastStop(w) then FrameTime(p) else 0)
         + Progress(WireAfter(l, w, Tick, ws), p) + if w.Quiet? && l.a.sr.tdre then 1 else 0
  {
    hide Happen, SerialParams, TxShift, RxShift, ParityOf, Arrives, NextWire, Progress, FrameTime;
    TickAt(l, w, ws);
    TickPending(l, w, ws);
    FrameTimeIs(SerialParams(ws), w, TxBuffer(l.a));
  }

  /** Frames completed by one event: read out now, or newly waiting in RDR. */
  function DeliveredBy(l: Link, e: Event): int {
    |ReadBy(l, e)| + |RxBuffer(Happen(l, e).b)| - |RxBuffer(l.b)|
  }

  lemma EventTime(l: Link, w: Wire, e: Event, ws: nat)
    requires LinkAt(l, w, ws) && Legal(l, e)
    ensures var p := SerialParams(ws);
      (if e.Tick? then 1 else 0) + Progress(w, p) == DeliveredBy(l, e) * FrameTime(p)
        + Progress(WireAfter(l, w, e, ws), p) + if e.Tick? && w.Quiet? && l.a.sr.tdre then 1 else 0
  {
    hide Happen, SerialParams, InStep, Arrives, NextWire, Progress, FrameTime;
    match e
    case Tick => TickTime(l, w, ws);
    case Write(value) => WriteAt(l, w, value, ws);
    case Read => ReadAt(l, w, ws);
    case _ => PollAt(l, w, e, ws);
  }

  /** Every tick is accounted for: each delivered frame takes exactly its frame time, and only
      idle ticks are lost. */
  lemma {:induction false} FramesTakeTheirTime(l: Link, w: Wire, es: seq<Event>, ws: nat)
    requires LinkAt(l, w, ws) && AllLegal(l, es)
    ensures var p := SerialParams(ws);
      Ticks(es) + Progress(w, p)
      == Delivered(l, es) * FrameTime(p) + Progress(EndWire(l, w, es, ws), p) + IdleTicks(l, w, es, ws)
    decreases |es|
  {
    hide Happen, SerialParams, InStep, Legal, WireAfter, Progress, FrameTime, RxBuffer, ReadBy;
    if es != [] {
      var e, p := es[0], SerialParams(ws);
      var l1 := Happen(l, e);
      EventStep(l, w, e, ws);
      EventTime(l, w, e, ws);
      FramesTakeTheirTime(l1, WireAfter(l, w, e, ws), es[1..], ws);
      Arith.Distribute(DeliveredBy(l, e), Delivered(l1, es[1..]), FrameTime(p));
      assert Delivered(l, es) == DeliveredBy(l, e) + Delivered(l1, es[1..]);
    }
  }

}
