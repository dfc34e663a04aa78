/** The blitter as the object the emulator runs: its register, variable and state structs are
    updated in place, and each method is proved against the functions of `BlitterCore`. */
module BlitterDevice {
  import opened BlitterCore
  import Slices = BlitterSlices
  import Spec = BlitterSpec

  datatype Phase = Stop | RunTransfer | CountCpuBus | Pause

  class Blitter {
    var regs: Regs
    var vars: Vars
    var state: State
    var halftone: seq<bv16>
    var mem: Memory
    var phase: Phase
    var busCountError: bool

    ghost function Snap(): Machine reads this { Machine(regs, vars, state, halftone, mem) }

    method ReadWord(addr: int) returns (value: bv16)
      modifies this`state
      ensures value == ReadMem(mem, addr) && state == BusRead(old(state), value)
      ensures addr !in mem ==> value == 0
    {
      value := if addr in mem then mem[addr] else DMA_READ_WORD_BUS_ERR;
      state := state.(countBus := (state.countBus + 1) % 65536);
      state := state.(busWord := value);
    }

    method WriteWord(addr: int, value: bv16)
      modifies this`state, this`mem
      ensures mem == WriteMem(old(mem), addr, value) && state == BusRead(old(state), value)
    {
      state := state.(busWord := value);
      mem := WriteMem(mem, addr, value);
      state := state.(countBus := (state.countBus + 1) % 65536);
    }

    method ShiftAndFetch(nfsrOn: bool)
      modifies this`vars, this`state
      ensures var w := if nfsrOn then old(state).busWord else ReadMem(mem, regs.srcAddr);
        && vars == old(vars).(buffer := ShiftIn(old(vars).buffer, w, regs.srcXIncr < 0))
        && state == if nfsrOn then old(state) else BusRead(old(state), w)
    {
      hide SourceShift, SourceInsert, ReadMem;
      vars := vars.(buffer := SourceShift(vars.buffer, regs.srcXIncr < 0));
      var w := state.busWord;
      if !nfsrOn { w := ReadWord(regs.srcAddr); }
      vars := vars.(buffer := SourceInsert(vars.buffer, w, regs.srcXIncr < 0));
    }

    method BudgetReached() returns (reached: bool)
      ensures reached == BudgetSpent(Snap())
    {
      reached := !vars.hog && state.countBus >= NONHOG_BUS_BLITTER;
    }

    method DoFxsr() returns (done: bool)
      modifies this`regs, this`vars, this`state
      ensures done == WantsFxsr(old(Snap())) && Snap() == FxsrPhase(old(Snap()))
    {
      hide ShiftIn, Wrap, ReadMem;
      done := state.fxsr && !state.haveFxsr && state.needSrc;
      if done {
        ShiftAndFetch(false);
        regs := regs.(srcAddr := Wrap(regs.srcAddr + regs.srcXIncr));
        state := state.(haveFxsr := true);
      }
    }

    method DoSrc() returns (done: bool)
      modifies this`vars, this`state
      ensures done == WantsSrc(old(Snap())) && Snap() == SrcPhase(old(Snap()))
    {
      hide ShiftIn, ReadMem;
      done := state.needSrc && !state.haveSrc && !state.nfsr;
      if done {
        ShiftAndFetch(false);
        state := state.(haveSrc := true, fetchSrc := true);
      }
    }

    method DoDst() returns (done: bool)
      modifies this`state
      ensures done == WantsDst(old(Snap())) && Snap() == DstPhase(old(Snap()))
    {
      hide ReadMem;
      done := state.needDst && !state.haveDst;
      if done {
        var w := ReadWord(regs.dstAddr);
        state := state.(dstWord := w, haveDst := true);
      }
    }

    /** With NFSR, the last word of a line takes the word on the bus instead of a read. */
    method DoNfsr()
      modifies this`vars
      ensures Snap() == NfsrFeed(old(Snap()))
    {
      hide ShiftIn;
      if vars.nfsr && regs.xCount == 1 {
        vars := vars.(buffer := ShiftIn(vars.buffer, state.busWord, regs.srcXIncr < 0));
      }
    }

    /** The word pipeline; a read that spends the budget leaves the word for the next slice. */
    method ProcessWord()
      requires Valid(Snap())
      modifies this`regs, this`vars, this`state, this`mem
      ensures Snap() == match BudgetedFetch(old(Snap()))
        case Ready(n) => WritePhase(n)
        case Cut(n) => n.(s := n.s.(continueLater := true))
    {
      hide FxsrPhase, SrcPhase, DstPhase, NfsrFeed, WriteMem, WordOf, WantsFxsr, WantsSrc, WantsDst, SourceRead;
      var done := DoFxsr();
      var spent := BudgetReached();
      if done && spent { state := state.(continueLater := true); return; }
      done := DoSrc();
      spent := BudgetReached();
      if done && spent { state := state.(continueLater := true); return; }
      done := DoDst();
      spent := BudgetReached();
      if done && spent { state := state.(continueLater := true); return; }
      DoNfsr();
      var data := DataWord(Machine(regs, vars, state, halftone, mem));
      WriteWord(regs.dstAddr, data);
      DoNfsr();
    }

    method FlushWordState(flushFxsr: bool)
      modifies this`state
      ensures state == old(state).(haveFxsr := old(state).haveFxsr && !flushFxsr,
                                   haveSrc := false, fetchSrc := false, haveDst := false)
    {
      if flushFxsr { state := state.(haveFxsr := false); }
      state := state.(haveSrc := false, fetchSrc := false, haveDst := false);
    }

    method PrepareWord()
      modifies this`state
      ensures Snap() == Setup(old(Snap()))
    {
      hide LopNeedsDst, LopNeedsSrc;
      var firstWord := regs.xCount == vars.xCountReset;
      var endMask := regs.endMask2;
      if firstWord || vars.xCountReset == 1 {
        endMask := regs.endMask1;
      } else if regs.xCount == 1 {
        endMask := regs.endMask3;
      }
      var nfsr, fxsr := state.nfsr, state.fxsr;
      if firstWord { nfsr := false; }
      if firstWord { fxsr := vars.fxsr; }
      var needSrc := LopNeedsSrc(regs.lop);
      needSrc := needSrc && (regs.hop >= 2 || (regs.hop == 1 && vars.smudge));
      var needDst := LopNeedsDst(regs.lop) || endMask != 0xFFFF;
      state := state.(continueLater := false, endMask := endMask, nfsr := nfsr, fxsr := fxsr,
                      needSrc := needSrc, needDst := needDst);
    }

    method AdvanceCounters()
      requires Valid(Snap()) && regs.yCount > 0
      modifies this`regs, this`vars, this`state
      ensures Snap() == Advance(old(Snap()))
    {
      hide Wrap, NextHalftone;
      var last := regs.xCount == 1;
      if regs.xCount == 2 && vars.nfsr { state := state.(nfsr := true); }
      var srcAddr := NextSource();
      if last {
        state := state.(haveFxsr := false);
        regs := regs.(srcAddr := srcAddr, dstAddr := Wrap(regs.dstAddr + regs.dstYIncr),
                      yCount := regs.yCount - 1, xCount := vars.xCountReset);
        vars := vars.(halftoneLine := NextHalftone(vars.halftoneLine, regs.dstYIncr));
      } else {
        regs := regs.(srcAddr := srcAddr, dstAddr := Wrap(regs.dstAddr + regs.dstXIncr),
                      xCount := regs.xCount - 1);
      }
      FlushWordState(false);
    }

    /** The source address after this word: the next word of the line, or the next line. */
    method NextSource() returns (srcAddr: int)
      ensures srcAddr == if !state.fetchSrc then regs.srcAddr
        else Wrap(regs.srcAddr + if regs.xCount == 1 || state.nfsr then regs.srcYIncr else regs.srcXIncr)
    {
      srcAddr := regs.srcAddr;
      if state.fetchSrc {
        if regs.xCount == 1 || state.nfsr {
          srcAddr := Wrap(srcAddr + regs.srcYIncr);
        } else {
          srcAddr := Wrap(srcAddr + regs.srcXIncr);
        }
      }
    }

    method DoStep()
      requires Valid(Snap()) && regs.yCount > 0
      modifies this`regs, this`vars, this`state, this`mem
      ensures Snap() == Step(old(Snap()))
    {
      hide Fetch, BudgetedFetch, WritePhase, Advance, LopNeedsDst, EndMask, NeedSrc;
      PrepareWord();
      ProcessWord();
      if state.continueLater { return; }
      AdvanceCounters();
    }

    /** The main loop: words until the blit is done or the bus budget is spent. */
    method Transfer()
      requires Valid(Snap()) && regs.yCount > 0
      modifies this`regs, this`vars, this`state, this`mem
      ensures Snap() == Slices.MainLoop(old(Snap()))
    {
      hide Step, WholeStep;
      ghost var m0 := Snap();
      DoStep();
      while regs.yCount > 0 && (vars.hog || state.countBus < NONHOG_BUS_BLITTER)
        invariant Valid(Snap())
        invariant Slices.MainLoop(m0)
               == if regs.yCount > 0 && !BudgetSpent(Snap()) then Slices.MainLoop(Snap()) else Snap()
        decreases regs.yCount, regs.xCount, !BudgetSpent(Snap())
      {
        ghost var m := Snap();
        DoStep();
        assert BudgetSpent(Snap()) || OneWordDone(m, Snap());
        assert Slices.MainLoop(m) == if regs.yCount > 0 && !BudgetSpent(Snap()) then Slices.MainLoop(Snap()) else Snap();
      }
    }

    /** A start or restart. */
    method Start()
      requires Valid(Snap()) && regs.yCount > 0
      modifies this
      ensures Snap() == Slices.Start(old(Snap()), old(busCountError))
      ensures phase == if regs.yCount == 0 then Stop else CountCpuBus
      ensures busCountError == old(busCountError)
    {
      hide Slices.MainLoop, Slices.EndCtrl;
      var counted := 0;
      if busCountError { counted := counted + 1; }
      state := state.(countBus := counted);
      phase := RunTransfer;
      ghost var m0 := Snap();
      assert m0 == old(Snap()).(s := old(Snap()).s.(countBus := Slices.One(old(busCountError))));
      Transfer();
      ghost var n := Snap();
      regs := regs.(ctrl := Slices.EndCtrl(regs.ctrl, vars.halftoneLine, regs.yCount == 0));
      if regs.yCount == 0 {
        phase := Stop;
      } else {
        phase := CountCpuBus;
      }
    }

    // ----- register writes -----

    method WriteXCount(value: nat)
      requires value < 65536
      modifies this`regs, this`vars
      ensures var x := if value == 0 then 65536 else value;
        regs == old(regs).(xCount := x) && vars == old(vars).(xCountReset := x)
    {
      var x := value;
      if x == 0 { x := 65536; }
      regs := regs.(xCount := x);
      vars := vars.(xCountReset := x);
    }

    method WriteYCount(value: nat)
      requires value < 65536
      modifies this`regs
      ensures regs == old(regs).(yCount := if value == 0 then 65536 else value)
    {
      var y := value;
      if y == 0 { y := 65536; }
      regs := regs.(yCount := y);
    }

    /** A write to the control register (outside 68000 cycle-exact mode).  The word state is
        kept when a paused blit is restarted and flushed when a new one is started. */
    method WriteControl(value: nat) returns (scheduled: bool)
      requires Valid(Snap()) && value < 256
      modifies this
      ensures Valid(Snap())
      ensures scheduled == (value >= 128 && old(regs).yCount > 0)
      ensures scheduled && old(phase) == Stop && old(regs).xCount == old(vars).xCountReset
              && 0 <= old(regs).srcAddr < ADDRESS_SPACE && 0 <= old(regs).dstAddr < ADDRESS_SPACE
        ==> Spec.AtStart(Snap())
      ensures scheduled && old(phase) != Stop ==> state == old(state)
      ensures vars == old(vars).(hog := value / 64 % 2 == 1, smudge := value / 32 % 2 == 1, halftoneLine := value % 16)
      ensures var kept := value - value / 16 % 2 * 16;
        regs == old(regs).(ctrl := if value >= 128 && old(regs).yCount == 0 then kept % 64 else kept)
      ensures mem == old(mem) && halftone == old(halftone)
      ensures phase == if value < 128 && old(phase) == CountCpuBus then Pause else old(phase)
    {
      var ctrl := value - value / 16 % 2 * 16;
      vars := vars.(hog := value / 64 % 2 == 1, smudge := value / 32 % 2 == 1, halftoneLine := value % 16);
      scheduled := false;
      if value >= 128 {
        if regs.yCount == 0 {
          ctrl := ctrl % 64;
        } else {
          if phase == Stop { FlushWordState(true); }
          scheduled := true;
        }
      } else if phase == CountCpuBus {
        phase := Pause;
      }
      regs := regs.(ctrl := ctrl);
    }
  }
}
