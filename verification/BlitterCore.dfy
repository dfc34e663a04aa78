/** The blitter's registers, its word pipeline and one main-loop step, as functions on a
    machine state.  `BlitterDevice` proves the in-place methods against these functions. */
module BlitterCore {
  import opened Bits

  const ADDRESS_SPACE := 0x1_0000_0000
  /** Bus accesses granted to the blitter before it must give the bus back in non-hog mode. */
  const NONHOG_BUS_BLITTER := 64
  /** What a DMA read from a bus-error region returns. */
  const DMA_READ_WORD_BUS_ERR: bv16 := 0

  /** Word-addressed memory; an address outside the map is a bus-error region. */
  type Memory = map<int, bv16>

  datatype Regs = Regs(
    srcAddr: int, dstAddr: int, xCount: nat, yCount: nat,
    srcXIncr: int, srcYIncr: int, dstXIncr: int, dstYIncr: int,
    endMask1: bv16, endMask2: bv16, endMask3: bv16,
    hop: nat, lop: nat, ctrl: nat)

  datatype Vars = Vars(
    buffer: bv32, xCountReset: nat, hog: bool, smudge: bool,
    halftoneLine: nat, fxsr: bool, nfsr: bool, skew: nat)

  datatype State = State(
    fxsr: bool, nfsr: bool, haveFxsr: bool, needSrc: bool, haveSrc: bool, fetchSrc: bool,
    needDst: bool, haveDst: bool, dstWord: bv16, busWord: bv16, endMask: bv16,
    countBus: nat, continueLater: bool)

  datatype Machine = Machine(r: Regs, v: Vars, s: State, halftone: seq<bv16>, mem: Memory)

  /** What every register write leaves true once the X count register has been written. */
  predicate Valid(m: Machine) {
    && 1 <= m.r.xCount <= m.v.xCountReset <= 65536
    && m.r.yCount <= 65536
    && m.r.hop < 4 && m.r.lop < 16 && m.v.skew < 16 && m.v.halftoneLine < 16 && m.r.ctrl < 256
    && |m.halftone| == 16
  }

  function Wrap(a: int): int { a % ADDRESS_SPACE }

  function ReadMem(mem: Memory, a: int): bv16 {
    if a in mem then mem[a] else DMA_READ_WORD_BUS_ERR
  }

  function WriteMem(mem: Memory, a: int, w: bv16): Memory {
    if a in mem then mem[a := w] else mem
  }

  // ----- the 32-bit source buffer -----

  function SourceShift(buffer: bv32, neg: bool): bv32 {
    if neg then buffer >> 16 else buffer << 16
  }

  function SourceInsert(buffer: bv32, w: bv16, neg: bool): bv32 {
    if neg then buffer | ((w as bv32) << 16) else buffer | (w as bv32)
  }

  function ShiftIn(buffer: bv32, w: bv16, neg: bool): bv32 {
    SourceInsert(SourceShift(buffer, neg), w, neg)
  }

  function SourceRead(buffer: bv32, skew: nat): bv16
    requires skew < 16
  {
    Low(Shifted(buffer, skew))
  }

  // ----- halftone and logic operations -----

  /** With smudge, the source word itself picks the halftone line. */
  function HalftoneWord(smudge: bool, line: nat, src: bv16, halftone: seq<bv16>): bv16
    requires |halftone| == 16 && line < 16
  {
    if smudge then halftone[((src & 15) as bv4) as nat] else halftone[line]
  }

  function Hop(hop: nat, src: bv16, pattern: bv16): bv16
    requires hop < 4
  {
    if hop == 0 then 0xFFFF
    else if hop == 1 then pattern
    else if hop == 2 then src
    else And(src, pattern)
  }

  function Lop(lop: nat, s: bv16, d: bv16): bv16
    requires lop < 16
  {
    if lop == 0 then 0
    else if lop == 1 then And(s, d)
    else if lop == 2 then And(s, Not(d))
    else if lop == 3 then s
    else if lop == 4 then And(Not(s), d)
    else if lop == 5 then d
    else if lop == 6 then Xor(s, d)
    else if lop == 7 then Or(s, d)
    else if lop == 8 then And(Not(s), Not(d))
    else if lop == 9 then Xor(Not(s), d)
    else if lop == 10 then Not(d)
    else if lop == 11 then Or(s, Not(d))
    else if lop == 12 then Not(s)
    else if lop == 13 then Or(Not(s), d)
    else if lop == 14 then Or(Not(s), Not(d))
    else 0xFFFF
  }

  predicate LopNeedsSrc(lop: nat) { lop != 0 && lop != 5 && lop != 10 && lop != 15 }

  predicate LopNeedsDst(lop: nat) { lop != 0 && lop != 3 && lop != 12 && lop != 15 }

  /** The blit reads its source iff the logic operation uses it and the halftone
      operation passes it on (or picks the halftone line with it). */
  predicate NeedSrc(m: Machine) {
    LopNeedsSrc(m.r.lop) && (m.r.hop >= 2 || (m.r.hop == 1 && m.v.smudge))
  }

  function MaskedMerge(mask: bv16, new_: bv16, old_: bv16): bv16 {
    if mask != 0xFFFF then Or(And(new_, mask), And(old_, Not(mask))) else new_
  }

  // ----- one word -----

  function EndMask(m: Machine): bv16 {
    if m.r.xCount == m.v.xCountReset || m.v.xCountReset == 1 then m.r.endMask1
    else if m.r.xCount == 1 then m.r.endMask3
    else m.r.endMask2
  }

  /** The bookkeeping at the top of a step; running it twice on one word changes nothing. */
  function Setup(m: Machine): Machine {
    var first := m.r.xCount == m.v.xCountReset;
    m.(s := m.s.(
      continueLater := false,
      endMask := EndMask(m),
      nfsr := if first then false else m.s.nfsr,
      fxsr := if first then m.v.fxsr else m.s.fxsr,
      needSrc := NeedSrc(m),
      needDst := LopNeedsDst(m.r.lop) || EndMask(m) != 0xFFFF))
  }

  function BusRead(s: State, w: bv16): State {
    s.(countBus := (s.countBus + 1) % 65536, busWord := w)
  }

  /** Reading moves only the source address, the buffer and the per-word flags. */
  predicate ReadsOnly(m: Machine, n: Machine) {
    && n.r == m.r.(srcAddr := n.r.srcAddr) && n.v == m.v.(buffer := n.v.buffer)
    && n.halftone == m.halftone && n.mem == m.mem
    && n.s == m.s.(haveFxsr := n.s.haveFxsr, haveSrc := n.s.haveSrc, fetchSrc := n.s.fetchSrc,
                   haveDst := n.s.haveDst, dstWord := n.s.dstWord, busWord := n.s.busWord,
                   countBus := n.s.countBus)
  }

  predicate WantsFxsr(m: Machine) { m.s.fxsr && !m.s.haveFxsr && m.s.needSrc }
  predicate WantsSrc(m: Machine) { m.s.needSrc && !m.s.haveSrc && !m.s.nfsr }
  predicate WantsDst(m: Machine) { m.s.needDst && !m.s.haveDst }

  function FetchSource(m: Machine): Machine {
    var w := ReadMem(m.mem, m.r.srcAddr);
    m.(v := m.v.(buffer := ShiftIn(m.v.buffer, w, m.r.srcXIncr < 0)), s := BusRead(m.s, w))
  }

  function FxsrPhase(m: Machine): (n: Machine)
    ensures ReadsOnly(m, n)
  {
    if !WantsFxsr(m) then m
    else
      var n := FetchSource(m);
      n.(r := n.r.(srcAddr := Wrap(n.r.srcAddr + n.r.srcXIncr)), s := n.s.(haveFxsr := true))
  }

  function SrcPhase(m: Machine): (n: Machine)
    ensures ReadsOnly(m, n)
  {
    if !WantsSrc(m) then m
    else
      var n := FetchSource(m);
      n.(s := n.s.(haveSrc := true, fetchSrc := true))
  }

  function DstPhase(m: Machine): (n: Machine)
    ensures ReadsOnly(m, n)
  {
    if !WantsDst(m) then m
    else
      var w := ReadMem(m.mem, m.r.dstAddr);
      m.(s := BusRead(m.s, w).(dstWord := w, haveDst := true))
  }

  /** With NFSR, the last word of a line is fed from the word last seen on the bus. */
  function NfsrFeed(m: Machine): (n: Machine)
    ensures n == m.(v := m.v.(buffer := n.v.buffer))
  {
    if m.v.nfsr && m.r.xCount == 1
    then m.(v := m.v.(buffer := ShiftIn(m.v.buffer, m.s.busWord, m.r.srcXIncr < 0)))
    else m
  }

  /** The word written: the logic operation on halftoned source and destination,
      merged into the destination under the end mask. */
  function WordOf(hop: nat, lop: nat, smudge: bool, halftone: seq<bv16>,
                  mask: bv16, src: bv16, line: nat, dst: bv16): bv16
    requires hop < 4 && lop < 16 && |halftone| == 16 && line < 16
  {
    MaskedMerge(mask, Lop(lop, Hop(hop, src, HalftoneWord(smudge, line, src, halftone)), dst), dst)
  }

  function DataWord(m: Machine): bv16
    requires Valid(m)
  {
    WordOf(m.r.hop, m.r.lop, m.v.smudge, m.halftone, m.s.endMask, SourceRead(m.v.buffer, m.v.skew), m.v.halftoneLine, m.s.dstWord)
  }

  function WritePhase(m: Machine): (n: Machine)
    requires Valid(m)
    ensures Valid(n) && n.r == m.r && n.s.continueLater == m.s.continueLater
  {
    hide DataWord, NfsrFeed;
    var n := NfsrFeed(m);
    var data := DataWord(n);
    NfsrFeed(n.(s := BusRead(n.s, data), mem := WriteMem(n.mem, n.r.dstAddr, data)))
  }

  function NextHalftone(line: nat, dstYIncr: int): nat
    requires line < 16
  {
    if dstYIncr >= 0 then (line + 1) % 16 else (line + 15) % 16
  }

  /** The counter, address and state updates once a word has been written. */
  function Advance(m: Machine): Machine
    requires Valid(m) && m.r.yCount > 0
  {
    var nfsr := m.s.nfsr || (m.r.xCount == 2 && m.v.nfsr);
    var last := m.r.xCount == 1;
    var srcAddr :=
      if !m.s.fetchSrc then m.r.srcAddr
      else Wrap(m.r.srcAddr + if last || nfsr then m.r.srcYIncr else m.r.srcXIncr);
    Machine(
      m.r.(srcAddr := srcAddr,
           dstAddr := Wrap(m.r.dstAddr + if last then m.r.dstYIncr else m.r.dstXIncr),
           xCount := if last then m.v.xCountReset else m.r.xCount - 1,
           yCount := if last then m.r.yCount - 1 else m.r.yCount),
      m.v.(halftoneLine := if last then NextHalftone(m.v.halftoneLine, m.r.dstYIncr) else m.v.halftoneLine),
      m.s.(nfsr := nfsr, haveFxsr := m.s.haveFxsr && !last,
           haveSrc := false, fetchSrc := false, haveDst := false),
      m.halftone, m.mem)
  }

  /** One word is done: the counters moved on and the setup is untouched. */
  predicate OneWordDone(m: Machine, n: Machine) {
    && n.r.xCount == (if m.r.xCount == 1 then m.v.xCountReset else m.r.xCount - 1)
    && n.r.yCount == (if m.r.xCount == 1 then m.r.yCount - 1 else m.r.yCount)
    && n.r == m.r.(srcAddr := n.r.srcAddr, dstAddr := n.r.dstAddr,
                   xCount := n.r.xCount, yCount := n.r.yCount)
    && n.v == m.v.(buffer := n.v.buffer, halftoneLine := n.v.halftoneLine)
    && n.halftone == m.halftone && !n.s.haveSrc && !n.s.haveDst
  }

  function Commit(m: Machine): (n: Machine)
    requires Valid(m) && m.r.yCount > 0
    ensures Valid(n) && OneWordDone(m, n) && n.s.continueLater == m.s.continueLater
  {
    hide DataWord, Wrap, NfsrFeed;
    Advance(WritePhase(m))
  }

  /** The reads of one word with nothing in the way. */
  function Fetch(m: Machine): (n: Machine)
    ensures ReadsOnly(m, n)
  {
    hide FxsrPhase, SrcPhase, DstPhase;
    DstPhase(SrcPhase(FxsrPhase(m)))
  }

  predicate BudgetSpent(m: Machine) { !m.v.hog && m.s.countBus >= NONHOG_BUS_BLITTER }

  datatype Reads = Ready(m: Machine) | Cut(m: Machine)

  /** The reads of one word, cut off after the first one that spends the budget. */
  function BudgetedFetch(m: Machine): (f: Reads)
    ensures ReadsOnly(m, f.m)
    ensures f.Ready? ==> f.m == Fetch(m)
    ensures f.Cut? ==> BudgetSpent(f.m)
  {
    hide FxsrPhase, SrcPhase, DstPhase, WantsFxsr, WantsSrc, WantsDst;
    var m1 := FxsrPhase(m);
    if WantsFxsr(m) && BudgetSpent(m1) then Cut(m1)
    else
      var m2 := SrcPhase(m1);
      if WantsSrc(m1) && BudgetSpent(m2) then Cut(m2)
      else
        var m3 := DstPhase(m2);
        if WantsDst(m2) && BudgetSpent(m3) then Cut(m3) else Ready(m3)
  }

  /** A word processed with no suspension. */
  function WholeStep(m: Machine): (n: Machine)
    requires Valid(m) && m.r.yCount > 0
    ensures Valid(n) && OneWordDone(m, n) && !n.s.continueLater
  {
    hide Commit, Fetch, LopNeedsDst, EndMask, NeedSrc;
    Commit(Fetch(Setup(m)))
  }

  /** One call of the step. */
  function Step(m: Machine): (n: Machine)
    requires Valid(m) && m.r.yCount > 0
    ensures Valid(n) && n.v.hog == m.v.hog
    ensures !n.s.continueLater ==> n == WholeStep(m)
    ensures n.s.continueLater ==> BudgetSpent(n) && n.r == m.r.(srcAddr := n.r.srcAddr)
  {
    hide Commit, Fetch, BudgetedFetch, LopNeedsDst, EndMask, NeedSrc;
    match BudgetedFetch(Setup(m))
    case Ready(n) => Commit(n)
    case Cut(n) => n.(s := n.s.(continueLater := true))
  }
}
