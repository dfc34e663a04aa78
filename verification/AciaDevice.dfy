/** The ACIA as the emulator runs it: a structure updated in place by register accesses and
    clock ticks, each method proved against its function in `AciaCore`. */
module AciaDevice {
  import opened Core = AciaCore

  class Chip {
    var cr: Control
    var sr: Status
    var tdr: bv8
    var rdr: bv8
    var tx: Transmitter
    var rx: Receiver
    var txEnableInt: bool
    var txSendBrk: bool
    var srRead: bool
    var irqLine: bool
    var divider: nat
    var firstMasterReset: bool
    var rtsLine: bool

    ghost function Snap(): Acia
      reads this
    {
      Acia(cr, sr, tdr, rdr, tx, rx, txEnableInt, txSendBrk, srRead, irqLine, divider, firstMasterReset, rtsLine)
    }

    /** Set or clear the interrupt bit, and move the line only when the bit changes. */
    method UpdateIrq()
      modifies this`sr, this`irqLine
      ensures Snap() == Core.UpdateIrq(old(Snap()))
    {
      var irq := false;
      if cr.rxInt && (sr.rdrf || sr.dcd || rx.overrun) { irq := true; }
      if txEnableInt && sr.tdre && !sr.cts { irq := true; }
      if sr.irq != irq {
        sr := sr.(irq := irq);
        irqLine := !irq;
      }
    }

    method MasterReset(control: Control, dcd: bool, cts: bool)
      modifies this
      ensures Snap() == Core.MasterReset(old(Snap()), control, dcd, cts)
    {
      sr := Status(false, true, dcd, cts, false, false, false, false);
      tx := tx.(state := Idle, tsr := 0, size := 0);
      txSendBrk := false;
      rx := rx.(state := Idle, rsr := 0, size := 0, overrun := false);
      irqLine := true;
      if firstMasterReset {
        firstMasterReset := false;
        rtsLine := true;
      } else {
        rtsLine := control.txControl == 2;
      }
    }

    /** Everything a control write does before the interrupt is updated. */
    method SetControl(control: Control, dcd: bool, cts: bool)
      modifies this
      ensures Snap() == Core.SetControl(old(Snap()), control, dcd, cts)
    {
      hide Core.MasterReset;
      if control.divide == 3 {
        MasterReset(control, dcd, cts);
      } else {
        if control.divide != cr.divide {
          if control.divide == 0 { divider := 1; } else if control.divide == 1 { divider := 16; } else { divider := 64; }
        }
        rtsLine := control.txControl == 2;
      }
      txEnableInt, txSendBrk := false, false;
      if control.txControl == 1 { txEnableInt := true; }
      if control.txControl == 3 { txSendBrk := true; }
      cr := control;
    }

    method WriteCr(value: nat, dcd: bool, cts: bool)
      modifies this
      ensures Snap() == Core.WriteCr(old(Snap()), value, dcd, cts)
    {
      hide Decode, Core.UpdateIrq, Core.SetControl;
      SetControl(Decode(value), dcd, cts);
      UpdateIrq();
    }

    method ReadSr(cts: bool) returns (seen: Status)
      modifies this`sr, this`srRead
      ensures Snap() == Core.ReadSr(old(Snap()), cts) && seen == StatusSeen(old(Snap()), cts)
    {
      sr := sr.(cts := cts);
      seen := sr;
      srRead := true;
      if seen.cts { seen := seen.(tdre := false); }
    }

    method TakeFlags(dcd: bool)
      modifies this`sr, this`srRead, this`rx
      ensures Snap() == Core.FlagsRead(old(Snap()), dcd)
    {
      sr := sr.(rdrf := false, pe := false);
      if srRead {
        srRead := false;
        sr := sr.(ovrn := false, dcd := dcd);
      }
      if rx.overrun {
        sr := sr.(ovrn := true);
        rx := rx.(overrun := false);
      }
    }

    method ReadRdr(dcd: bool) returns (value: bv8)
      modifies this`sr, this`srRead, this`rx, this`irqLine
      ensures Snap() == Core.ReadRdr(old(Snap()), dcd) && value == old(rdr)
    {
      hide Core.UpdateIrq, Core.FlagsRead;
      TakeFlags(dcd);
      UpdateIrq();
      value := rdr;
    }

    method WriteTdr(value: bv8)
      modifies this`tdr, this`sr, this`irqLine
      ensures Snap() == Core.WriteTdr(old(Snap()), value)
    {
      hide Core.UpdateIrq;
      tdr := value;
      sr := sr.(tdre := false);
      UpdateIrq();
    }

    /** The bit the transmitter puts on the line, and where that leaves it. */
    method SendBit() returns (t: Transmitter, tdre: bool)
      ensures TxResult(t, tdre) == TxStep(tx, tdr, sr.tdre, txSendBrk, Params(Snap()))
    {
      hide SerialParams, Dec8, LowBit, ShiftDown;
      var p := SerialParams(cr.wordSelect % 8);
      t, tdre := tx, sr.tdre;
      match tx.state {
        case Idle =>
          if txSendBrk {
            t := t.(line := false);
          } else {
            if !tdre {
              t := t.(tsr := tdr, parity := false, size := p.dataBits, stopBits := p.stopBits);
              tdre := true;
            }
            if t.size == 0 {
              t := t.(line := true);
            } else {
              t := t.(line := false, state := DataBit);
            }
          }
        case DataBit =>
          var bit := LowBit(t.tsr);
          t := t.(line := bit, parity := t.parity != bit, tsr := ShiftDown(t.tsr), size := Dec8(t.size));
          if t.size == 0 {
            if p.parity.NoParity? { t := t.(state := StopBit); } else { t := t.(state := ParityBit); }
          }
        case ParityBit =>
          if p.parity.Even? { t := t.(line := t.parity); } else { t := t.(line := !t.parity); }
          t := t.(state := StopBit);
        case StopBit =>
          t := t.(line := true, stopBits := Dec8(t.stopBits));
          if t.stopBits == 0 { t := t.(state := Idle); }
      }
    }

    method ClockTx()
      modifies this`tx, this`sr, this`irqLine
      ensures Snap() == Core.ClockTx(old(Snap()))
    {
      hide Core.UpdateIrq, TxStep, SerialParams;
      var t, tdre := SendBit();
      tx := t;
      sr := sr.(tdre := tdre);
      UpdateIrq();
    }

    /** What the receiver makes of one bit of a frame's data. */
    method TakeDataBit(bit: bool) returns (r: Receiver)
      requires rx.state.DataBit?
      ensures r == RxStep(rx, rdr, sr, bit, Params(Snap())).rx
    {
      hide SerialParams, Dec8, PutHigh, ShiftDown;
      var p := SerialParams(cr.wordSelect % 8);
      r := rx.(rsr := PutHigh(rx.rsr, bit), parity := rx.parity != bit, size := Dec8(rx.size));
      if r.size > 0 {
        r := r.(rsr := ShiftDown(r.rsr));
      } else if p.parity.NoParity? {
        r := r.(state := StopBit);
      } else {
        r := r.(state := ParityBit);
      }
    }

    /** What the receiver makes of one stop bit: the end of the frame, good or bad. */
    method TakeStopBit(bit: bool) returns (r: Receiver, data: bv8, status: Status)
      requires rx.state.StopBit?
      ensures RxResult(r, data, status) == RxStep(rx, rdr, sr, bit, Params(Snap()))
    {
      hide SerialParams, Dec8, PutHigh, ShiftDown;
      r, data, status := rx, rdr, sr;
      if bit {
        r := r.(stopBits := Dec8(r.stopBits));
        if r.stopBits == 0 {
          status := status.(fe := false);
          if !status.rdrf {
            data := r.rsr;
            status := status.(rdrf := true);
          } else {
            r := r.(overrun := true);
          }
          r := r.(state := Idle);
        }
      } else {
        status := status.(fe := true);
        data := r.rsr;
        r := r.(state := Idle);
      }
    }

    /** What the receiver makes of one bit, and the status and data registers after it. */
    method TakeBit(bit: bool) returns (r: Receiver, data: bv8, status: Status)
      ensures RxResult(r, data, status) == RxStep(rx, rdr, sr, bit, Params(Snap()))
    {
      hide SerialParams, Dec8, PutHigh, ShiftDown;
      var p := SerialParams(cr.wordSelect % 8);
      r, data, status := rx, rdr, sr;
      match rx.state {
        case Idle =>
          if !bit {
            r := r.(rsr := 0, parity := false, size := p.dataBits, stopBits := p.stopBits, state := DataBit);
          }
        case DataBit =>
          r := TakeDataBit(bit);
        case ParityBit =>
          if p.parity.Even? && r.parity != bit {
            status := status.(pe := true);
          } else if r.parity == bit {
            status := status.(pe := true);
          }
          r := r.(state := StopBit);
        case StopBit =>
          r, data, status := TakeStopBit(bit);
      }
    }

    method ClockRx(bit: bool)
      modifies this`rx, this`rdr, this`sr, this`irqLine
      ensures Snap() == Core.ClockRx(old(Snap()), bit)
    {
      hide Core.UpdateIrq, RxStep, SerialParams;
      var r, data, status := TakeBit(bit);
      rx := r;
      rdr := data;
      sr := status;
      UpdateIrq();
    }
  }
}
