/** The MC6850: its registers and what each register access and clock tick does to them. */
module AciaCore {

  datatype Parity = NoParity | Even | Odd

  datatype Line = Line(dataBits: nat, parity: Parity, stopBits: nat)

  /** Data size, parity and stop bits for each word select. */
  function SerialParams(wordSelect: nat): Line
    requires wordSelect < 8
  {
    if wordSelect == 0 then Line(7, Even, 2)
    else if wordSelect == 1 then Line(7, Odd, 2)
    else if wordSelect == 2 then Line(7, Even, 1)
    else if wordSelect == 3 then Line(7, Odd, 1)
    else if wordSelect == 4 then Line(8, NoParity, 2)
    else if wordSelect == 5 then Line(8, NoParity, 1)
    else if wordSelect == 6 then Line(8, Even, 1)
    else Line(8, Odd, 1)
  }

  /** The control register, by field. */
  datatype Control = Control(divide: nat, wordSelect: nat, txControl: nat, rxInt: bool)

  function Divide(cr: nat): nat { cr % 4 }

  function Decode(cr: nat): (c: Control)
    ensures c.divide == Divide(cr)
  {
    Control(Divide(cr), cr / 4 % 8, cr / 32 % 4, cr / 128 % 2 == 1)
  }

  /** The fields hold all bits of the control byte. */
  lemma DecodeBack(cr: nat)
    requires cr < 256
    ensures var c := Decode(cr);
      && c.divide < 4 && c.wordSelect < 8 && c.txControl < 4
      && c.divide + 4 * c.wordSelect + 32 * c.txControl + (if c.rxInt then 128 else 0) == cr
  {
    var quarter := cr / 4;
    assert cr == 4 * quarter + cr % 4 && quarter == 8 * (quarter / 8) + quarter % 8;
    assert cr / 32 == quarter / 8 && cr / 128 == cr / 32 / 4;
  }

  /** The status register, by bit. */
  datatype Status = Status(rdrf: bool, tdre: bool, dcd: bool, cts: bool, fe: bool, ovrn: bool, pe: bool, irq: bool)

  datatype Phase = Idle | DataBit | ParityBit | StopBit

  datatype Transmitter = Tx(state: Phase, tsr: bv8, size: nat, parity: bool, stopBits: nat, line: bool)

  datatype Receiver = Rx(state: Phase, rsr: bv8, size: nat, parity: bool, stopBits: nat, overrun: bool)

  datatype Acia = Acia(
    cr: Control, sr: Status, tdr: bv8, rdr: bv8, tx: Transmitter, rx: Receiver,
    txEnableInt: bool, txSendBrk: bool, srRead: bool, irqLine: bool,
    divider: nat, firstMasterReset: bool, rtsLine: bool)

  function Params(a: Acia): Line { SerialParams(a.cr.wordSelect % 8) }

  /** Decrement of an 8-bit counter. */
  function Dec8(n: nat): (r: nat)
    ensures 0 < n <= 256 ==> r == n - 1
  {
    (n + 255) % 256
  }

  // The shift registers: low bit out first, high bit in first.
  function LowBit(x: bv8): bool { x & 1 == 1 }
  function ShiftDown(x: bv8): bv8 { x >> 1 }
  function PutHigh(x: bv8, bit: bool): bv8 { if bit then x | 0x80 else x }

  predicate RxCause(a: Acia) { a.cr.rxInt && (a.sr.rdrf || a.sr.dcd || a.rx.overrun) }
  predicate TxCause(a: Acia) { a.txEnableInt && a.sr.tdre && !a.sr.cts }
  predicate Interrupting(a: Acia) { RxCause(a) || TxCause(a) }

  /** The interrupt line moves only when the status bit does. */
  function UpdateIrq(a: Acia): (n: Acia)
    ensures n.sr.irq == Interrupting(n) && (a.irqLine == !a.sr.irq ==> n.irqLine == !n.sr.irq)
    ensures n.rx == a.rx && n.tx == a.tx && n.cr == a.cr && n.srRead == a.srRead && n.rdr == a.rdr && n.tdr == a.tdr
    ensures n.txSendBrk == a.txSendBrk && n.txEnableInt == a.txEnableInt
    ensures n.sr.rdrf == a.sr.rdrf && n.sr.tdre == a.sr.tdre && n.sr.cts == a.sr.cts && n.sr.ovrn == a.sr.ovrn
    ensures n.sr.fe == a.sr.fe && n.sr.pe == a.sr.pe && n.sr.dcd == a.sr.dcd
  {
    var irq := Interrupting(a);
    if a.sr.irq == irq then a else a.(sr := a.sr.(irq := irq), irqLine := !irq)
  }

  function MasterReset(a: Acia, cr: Control, dcd: bool, cts: bool): Acia {
    a.(sr := Status(false, true, dcd, cts, false, false, false, false),
       tx := a.tx.(state := Idle, tsr := 0, size := 0), txSendBrk := false,
       rx := a.rx.(state := Idle, rsr := 0, size := 0, overrun := false),
       irqLine := true, firstMasterReset := false,
       rtsLine := a.firstMasterReset || cr.txControl == 2)
  }

  function SetControl(a: Acia, cr: Control, dcd: bool, cts: bool): Acia {
    var a0 :=
      if cr.divide == 3 then MasterReset(a, cr, dcd, cts)
      else a.(divider := if cr.divide == a.cr.divide then a.divider
                         else if cr.divide == 0 then 1 else if cr.divide == 1 then 16 else 64,
              rtsLine := cr.txControl == 2);
    a0.(cr := cr, txEnableInt := cr.txControl == 1, txSendBrk := cr.txControl == 3)
  }

  function WriteCr(a: Acia, value: nat, dcd: bool, cts: bool): Acia {
    UpdateIrq(SetControl(a, Decode(value), dcd, cts))
  }

  function ReadSr(a: Acia, cts: bool): Acia {
    a.(sr := a.sr.(cts := cts), srRead := true)
  }

  /** The status byte the CPU gets: TDRE is masked while CTS is high. */
  function StatusSeen(a: Acia, cts: bool): Status {
    a.sr.(cts := cts, tdre := a.sr.tdre && !cts)
  }

  /** Reading the data register clears flags, and after a status read tells a pending overrun. */
  function FlagsRead(a: Acia, dcd: bool): Acia {
    var sr0 := a.sr.(rdrf := false, pe := false);
    var sr1 := if a.srRead then sr0.(ovrn := false, dcd := dcd) else sr0;
    var sr2 := if a.rx.overrun then sr1.(ovrn := true) else sr1;
    a.(sr := sr2, srRead := false, rx := a.rx.(overrun := false))
  }

  function ReadRdr(a: Acia, dcd: bool): Acia { UpdateIrq(FlagsRead(a, dcd)) }

  function WriteTdr(a: Acia, value: bv8): Acia {
    UpdateIrq(a.(tdr := value, sr := a.sr.(tdre := false)))
  }

  function AfterData(p: Line): Phase { if p.parity.NoParity? then StopBit else ParityBit }

  datatype TxResult = TxResult(tx: Transmitter, tdre: bool)

  /** One bit of the transmitter, given the data register and its empty flag. */
  function TxStep(t: Transmitter, tdr: bv8, tdre: bool, brk: bool, p: Line): TxResult {
    match t.state
    case Idle =>
      if brk then TxResult(t.(line := false), tdre)
      else
        var t0 := if tdre then t
                  else t.(tsr := tdr, parity := false, size := p.dataBits, stopBits := p.stopBits);
        if t0.size == 0 then TxResult(t0.(line := true), true)
        else TxResult(t0.(line := false, state := DataBit), true)
    case DataBit =>
      var bit := LowBit(t.tsr);
      var size := Dec8(t.size);
      TxResult(Tx(if size == 0 then AfterData(p) else DataBit, ShiftDown(t.tsr), size, t.parity != bit, t.stopBits, bit), tdre)
    case ParityBit =>
      TxResult(t.(line := if p.parity.Even? then t.parity else !t.parity, state := StopBit), tdre)
    case StopBit =>
      var stops := Dec8(t.stopBits);
      TxResult(t.(line := true, stopBits := stops, state := if stops == 0 then Idle else StopBit), tdre)
  }

  datatype RxResult = RxResult(rx: Receiver, rdr: bv8, sr: Status)

  /** One bit of the receiver. */
  function RxStep(r: Receiver, rdr: bv8, sr: Status, bit: bool, p: Line): (n: RxResult)
    ensures n.sr.irq == sr.irq && n.sr.cts == sr.cts && n.sr.dcd == sr.dcd && n.sr.tdre == sr.tdre
    ensures n.sr.ovrn == sr.ovrn && (r.overrun ==> n.rx.overrun)
  {
    match r.state
    case Idle =>
      RxResult(if bit then r else Rx(DataBit, 0, p.dataBits, false, p.stopBits, r.overrun), rdr, sr)
    case DataBit =>
      var rsr := PutHigh(r.rsr, bit);
      var size := Dec8(r.size);
      RxResult(Rx(if size > 0 then DataBit else AfterData(p), if size > 0 then ShiftDown(rsr) else rsr, size,
                  r.parity != bit, r.stopBits, r.overrun), rdr, sr)
    case ParityBit =>
      var pe := (p.parity.Even? && r.parity != bit) || r.parity == bit;
      RxResult(r.(state := StopBit), rdr, sr.(pe := sr.pe || pe))
    case StopBit =>
      if !bit then RxResult(r.(state := Idle), r.rsr, sr.(fe := true))
      else
        var stops := Dec8(r.stopBits);
        if stops != 0 then RxResult(r.(stopBits := stops), rdr, sr)
        else if sr.rdrf then RxResult(r.(stopBits := stops, overrun := true, state := Idle), rdr, sr.(fe := false))
        else RxResult(r.(stopBits := stops, state := Idle), r.rsr, sr.(fe := false, rdrf := true))
  }

  function ClockTx(a: Acia): Acia {
    var n := TxStep(a.tx, a.tdr, a.sr.tdre, a.txSendBrk, Params(a));
    UpdateIrq(a.(tx := n.tx, sr := a.sr.(tdre := n.tdre)))
  }

  function ClockRx(a: Acia, bit: bool): Acia {
    var n := RxStep(a.rx, a.rdr, a.sr, bit, Params(a));
    UpdateIrq(a.(rx := n.rx, rdr := n.rdr, sr := n.sr))
  }
}
