/** What every run of register accesses and clock ticks keeps: the interrupt line and the
    overrun report. */
module AciaLaws {
  import opened AciaCore

  /** One access or tick, with the levels of the DCD and CTS pins at that moment. */
  datatype Op =
    | ReadStatus(cts: bool)
    | WriteControl(cr: nat, dcd: bool, cts: bool)
    | ReadData(dcd: bool)
    | WriteData(value: bv8)
    | TickTx
    | TickRx(bit: bool)

  function Apply(a: Acia, op: Op): Acia {
    match op
    case ReadStatus(cts) => ReadSr(a, cts)
    case WriteControl(cr, dcd, cts) => WriteCr(a, cr, dcd, cts)
    case ReadData(dcd) => ReadRdr(a, dcd)
    case WriteData(value) => WriteTdr(a, value)
    case TickTx => ClockTx(a)
    case TickRx(bit) => ClockRx(a, bit)
  }

  function Run(a: Acia, ops: seq<Op>): Acia
    decreases |ops|
  {
    if ops == [] then a else Run(Apply(a, ops[0]), ops[1..])
  }

  predicate IsReset(op: Op) { op.WriteControl? && Divide(op.cr) == 3 }

  /** The status bit tells the cause, and the line is its negation. */
  predicate IrqTold(a: Acia) { a.sr.irq == Interrupting(a) && a.irqLine == !a.sr.irq }

  predicate CtsLow(op: Op) {
    match op
    case ReadStatus(cts) => !cts
    case WriteControl(_, _, cts) => !cts
    case _ => true
  }

  lemma IrqKept(a: Acia, op: Op)
    requires IrqTold(a) && !a.sr.cts && CtsLow(op)
    ensures IrqTold(Apply(a, op)) && !Apply(a, op).sr.cts
  {
    hide TxStep, RxStep, Decode, Params, UpdateIrq;
  }

  lemma IrqAfterReset(a: Acia, op: Op)
    requires IsReset(op) && CtsLow(op)
    ensures IrqTold(Apply(a, op)) && !Apply(a, op).sr.cts
  {
  }

  /** From any state at all: once a master reset has been made and as long as CTS stays low,
      status bit 7 and the interrupt line always tell exactly the interrupt causes. */
  lemma {:induction false} IrqAlwaysTold(a: Acia, reset: Op, ops: seq<Op>)
    requires IsReset(reset) && CtsLow(reset) && forall op :: op in ops ==> CtsLow(op)
    ensures IrqTold(Run(Apply(a, reset), ops)) && !Run(Apply(a, reset), ops).sr.cts
  {
    hide Apply, IrqTold;
    IrqAfterReset(a, reset);
    IrqRun(Apply(a, reset), ops);
  }

  lemma {:induction false} IrqRun(a: Acia, ops: seq<Op>)
    requires IrqTold(a) && !a.sr.cts && forall op :: op in ops ==> CtsLow(op)
    ensures IrqTold(Run(a, ops)) && !Run(a, ops).sr.cts
    decreases |ops|
  {
    hide Apply, IrqTold;
    if ops != [] {
      IrqKept(a, ops[0]);
      IrqRun(Apply(a, ops[0]), ops[1..]);
    }
  }

  lemma UpdateTold(a: Acia)
    requires a.irqLine == !a.sr.irq
    ensures IrqTold(UpdateIrq(a))
  {
    hide Interrupting;
  }

  /** Every access but a status read ends with an update of the interrupt. */
  lemma ToldAfter(a: Acia, op: Op)
    requires a.irqLine == !a.sr.irq && !op.ReadStatus?
    ensures IrqTold(Apply(a, op))
  {
    hide WriteCr, ReadRdr, WriteTdr, ClockTx, ClockRx, IrqTold, Decode;
    match op
    case WriteControl(cr, dcd, cts) => ToldAfterControl(a, cr, dcd, cts);
    case ReadData(dcd) => ToldAfterData(a, dcd);
    case WriteData(value) => ToldAfterWrite(a, value);
    case TickTx => ToldAfterTick(a, false);
    case TickRx(bit) => ToldAfterTick(a, bit);
  }

  lemma ToldAfterControl(a: Acia, cr: nat, dcd: bool, cts: bool)
    requires a.irqLine == !a.sr.irq
    ensures IrqTold(WriteCr(a, cr, dcd, cts))
  {
    hide Decode, UpdateIrq, IrqTold;
    UpdateTold(SetControl(a, Decode(cr), dcd, cts));
  }

  lemma ToldAfterWrite(a: Acia, value: bv8)
    requires a.irqLine == !a.sr.irq
    ensures IrqTold(WriteTdr(a, value))
  {
    hide UpdateIrq, IrqTold;
    UpdateTold(a.(tdr := value, sr := a.sr.(tdre := false)));
  }

  lemma ToldAfterTick(a: Acia, bit: bool)
    requires a.irqLine == !a.sr.irq
    ensures IrqTold(ClockTx(a)) && IrqTold(ClockRx(a, bit))
  {
    hide TxStep, RxStep, Params, UpdateIrq, IrqTold;
    var t := TxStep(a.tx, a.tdr, a.sr.tdre, a.txSendBrk, Params(a));
    UpdateTold(a.(tx := t.tx, sr := a.sr.(tdre := t.tdre)));
    var r := RxStep(a.rx, a.rdr, a.sr, bit, Params(a));
    UpdateTold(a.(rx := r.rx, rdr := r.rdr, sr := r.sr));
  }

  lemma ToldAfterData(a: Acia, dcd: bool)
    requires a.irqLine == !a.sr.irq
    ensures IrqTold(ReadRdr(a, dcd))
  {
    hide Interrupting;
  }

  /** With CTS moving, the law fails in exactly one way: a status read that sees CTS change
      while the transmitter alone decides the interrupt, since that read does not update it. */
  lemma IrqLostIff(a: Acia, op: Op)
    requires IrqTold(a)
    ensures IrqTold(Apply(a, op)) <==>
      !(op.ReadStatus? && op.cts != a.sr.cts && a.txEnableInt && a.sr.tdre && !RxCause(a))
  {
    hide WriteCr, ReadRdr, WriteTdr, ClockTx, ClockRx;
    if !op.ReadStatus? {
      ToldAfter(a, op);
    }
  }

  /** Just out of reset, with the transmitter's interrupt on and CTS low. */
  const READY := Acia(
    Control(1, 5, 1, false), Status(false, true, false, false, false, false, false, true), 0, 0,
    Tx(Idle, 0, 0, false, 0, true), Rx(Idle, 0, 0, false, 0, false), true, false, false, false, 16, false, false)

  /** CTS goes high and is seen by a status read: bit 7 still tells an interrupt that has no cause. */
  lemma IrqLost()
    ensures IrqTold(READY) && !IrqTold(Apply(READY, ReadStatus(true)))
  {
  }

  // ----- overrun -----

  /** A frame with good stop bits that finds RDR full is dropped: RDR keeps its byte, and the
      overrun is remembered. */
  lemma OverrunKeepsRdr(a: Acia)
    requires a.rx.state.StopBit? && a.rx.stopBits == 1 && a.sr.rdrf
    ensures var n := ClockRx(a, true); n.rdr == a.rdr && n.sr.rdrf && n.rx.overrun && n.rx.state.Idle?
  {
  }

  /** RDR changes only when a frame ends: on a good last stop bit with RDRF clear, or on a
      framing error. */
  lemma RdrChangesOnlyAtFrameEnd(a: Acia, op: Op)
    requires Apply(a, op).rdr != a.rdr
    ensures op.TickRx? && a.rx.state.StopBit? && Apply(a, op).rdr == a.rx.rsr
    ensures (op.bit && Dec8(a.rx.stopBits) == 0 && !a.sr.rdrf) || (!op.bit && Apply(a, op).sr.fe)
  {
    hide TxStep, Decode, UpdateIrq, Params;
  }

  /** Between two points of a run: no read of RDR and no master reset. */
  predicate Quiet(op: Op) { !op.ReadData? && !IsReset(op) }

  lemma OverrunKeptControl(a: Acia, cr: nat, dcd: bool, cts: bool)
    requires a.rx.overrun && Divide(cr) != 3
    ensures WriteCr(a, cr, dcd, cts).rx.overrun
  {
    hide UpdateIrq, Decode, Divide, MasterReset;
  }

  lemma OverrunKept(a: Acia, op: Op)
    requires a.rx.overrun && Quiet(op)
    ensures Apply(a, op).rx.overrun
  {
    hide TxStep, RxStep, UpdateIrq, Params, Divide, WriteCr;
    match op
    case WriteControl(cr, dcd, cts) => OverrunKeptControl(a, cr, dcd, cts);
    case _ =>
  }

  lemma {:induction false} OverrunPending(a: Acia, ops: seq<Op>)
    requires a.rx.overrun && forall op :: op in ops ==> Quiet(op)
    ensures Run(a, ops).rx.overrun
    decreases |ops|
  {
    hide Apply, Quiet;
    if ops != [] {
      assert ops[0] in ops;
      OverrunKept(a, ops[0]);
      OverrunPending(Apply(a, ops[0]), ops[1..]);
    }
  }

  /** An overrun is reported at the next read of RDR, however long that takes. */
  lemma OverrunReported(a: Acia, ops: seq<Op>, dcd: bool)
    requires a.rx.state.StopBit? && a.rx.stopBits == 1 && a.sr.rdrf
    requires forall op :: op in ops ==> Quiet(op)
    ensures Run(ClockRx(a, true), ops).rx.overrun && ReadRdr(Run(ClockRx(a, true), ops), dcd).sr.ovrn
  {
    hide ClockRx, Run;
    OverrunKeepsRdr(a);
    OverrunPending(ClockRx(a, true), ops);
  }

  lemma OvrnClearedIff(a: Acia, op: Op)
    requires a.sr.ovrn
    ensures !Apply(a, op).sr.ovrn <==> IsReset(op) || (op.ReadData? && a.srRead && !a.rx.overrun)
  {
    hide TxStep, RxStep, UpdateIrq, Params, Interrupting, Decode, Divide;
    match op
    case ReadStatus(_) =>
    case WriteControl(_, _, _) =>
    case ReadData(_) =>
    case WriteData(_) =>
    case TickTx =>
    case TickRx(_) =>
  }

  lemma SrReadKept(a: Acia, op: Op)
    requires !a.srRead && !op.ReadStatus?
    ensures !Apply(a, op).srRead
  {
    hide TxStep, RxStep, UpdateIrq, Params, Interrupting, Decode, Divide;
    match op
    case ReadData(_) =>
    case WriteControl(_, _, _) =>
    case WriteData(_) =>
    case TickTx =>
    case TickRx(_) =>
  }

  /** Once reported, OVRN stays up until a status read is followed by a data read (or until a
      master reset): no other access and no tick lowers it. */
  lemma {:induction false} OvrnStays(a: Acia, ops: seq<Op>)
    requires a.sr.ovrn && !a.srRead
    requires forall op :: op in ops ==> !op.ReadStatus? && !IsReset(op)
    ensures Run(a, ops).sr.ovrn && !Run(a, ops).srRead
    decreases |ops|
  {
    hide Apply, IsReset;
    if ops != [] {
      assert ops[0] in ops;
      OvrnClearedIff(a, ops[0]);
      SrReadKept(a, ops[0]);
      OvrnStays(Apply(a, ops[0]), ops[1..]);
    }
  }
}
