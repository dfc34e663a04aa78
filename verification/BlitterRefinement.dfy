/** The blitter's step machine computes the closed form of `BlitterSpec`. */
module BlitterRefinement {
  import opened BlitterCore
  import opened BlitterSpec
  import opened BlitterSlices

  // ----- the shift buffer is a two-word window -----

  lemma ShiftInUp(b: bv32, w: bv16)
    ensures ShiftIn(b, w, false) == (b << 16) | (w as bv32)
  {
  }

  lemma ShiftInDown(b: bv32, w: bv16)
    ensures ShiftIn(b, w, true) == (b >> 16) | ((w as bv32) << 16)
  {
  }

  lemma PackUp(b: bv32, w: bv16)
    ensures Pack(Newest(b, false), w, false) == (b << 16) | (w as bv32)
    ensures Newest((b << 16) | (w as bv32), false) == w
  {
  }

  lemma PackDown(b: bv32, w: bv16)
    ensures Pack(Newest(b, true), w, true) == (b >> 16) | ((w as bv32) << 16)
    ensures Newest((b >> 16) | ((w as bv32) << 16), true) == w
  {
  }

  lemma ShiftInIsPack(buffer: bv32, w: bv16, neg: bool)
    ensures ShiftIn(buffer, w, neg) == Pack(Newest(buffer, neg), w, neg)
    ensures Newest(ShiftIn(buffer, w, neg), neg) == w
  {
    hide ShiftIn, Pack, Newest;
    if neg {
      ShiftInDown(buffer, w);
      PackDown(buffer, w);
    } else {
      ShiftInUp(buffer, w);
      PackUp(buffer, w);
    }
  }

  lemma UnusedOperand(lop: nat, s: bv16, s': bv16, d: bv16)
    requires lop < 16 && !LopNeedsSrc(lop)
    ensures Lop(lop, s, d) == Lop(lop, s', d)
  {
  }

  lemma UnusedSource(hop: nat, lop: nat, s: bv16, s': bv16, pattern: bv16, pattern': bv16, d: bv16)
    requires hop < 4 && lop < 16
    requires !LopNeedsSrc(lop) || hop == 0 || (hop == 1 && pattern == pattern')
    ensures Lop(lop, Hop(hop, s, pattern), d) == Lop(lop, Hop(hop, s', pattern'), d)
  {
    hide Lop;
    if !LopNeedsSrc(lop) {
      hide Hop, LopNeedsSrc;
      UnusedOperand(lop, Hop(hop, s, pattern), Hop(hop, s', pattern'), d);
    }
  }

  lemma UnusedDst(lop: nat, s: bv16, d: bv16, d': bv16)
    requires lop < 16 && !LopNeedsDst(lop)
    ensures Lop(lop, s, d) == Lop(lop, s, d')
  {
  }

  /** A word written never depends on an operand the need flags say is unused. */
  lemma UnusedOperands(hop: nat, lop: nat, smudge: bool, halftone: seq<bv16>, mask: bv16,
                       src: bv16, src': bv16, line: nat, dst: bv16, dst': bv16)
    requires hop < 4 && lop < 16 && |halftone| == 16 && line < 16
    requires src == src' || !(LopNeedsSrc(lop) && (hop >= 2 || (hop == 1 && smudge)))
    requires dst == dst' || !(LopNeedsDst(lop) || mask != 0xFFFF)
    ensures WordOf(hop, lop, smudge, halftone, mask, src, line, dst)
         == WordOf(hop, lop, smudge, halftone, mask, src', line, dst')
  {
    hide Lop, Hop;
    var p, p' := HalftoneWord(smudge, line, src, halftone), HalftoneWord(smudge, line, src', halftone);
    if src != src' { UnusedSource(hop, lop, src, src', p, p', dst); }
    if dst != dst' { UnusedDst(lop, Hop(hop, src', p'), dst, dst'); }
  }

  // ----- registers and flags -----

  /** The machine is about to process word c of line r (or is done, at r = Y). */
  predicate RegsAt(b: Machine, m: Machine, r: nat, c: nat) {
    && r <= Y(b) && c < X(b) && (r == Y(b) ==> c == 0)
    && m.r == b.r.(srcAddr := Wrap(SrcReg(b, r, c)), dstAddr := DstCell(b, r, c),
                   xCount := X(b) - c, yCount := Y(b) - r)
    && m.v == b.v.(buffer := m.v.buffer, halftoneLine := HalftoneLine(b, r))
    && m.halftone == b.halftone
    && !m.s.haveSrc && !m.s.fetchSrc && !m.s.haveDst
    && m.s.haveFxsr == (c > 0 && Fx(b) == 1)
    && (c > 0 ==> m.s.fxsr == b.v.fxsr && m.s.nfsr == Skipped(b, c))
  }

  function NextR(b: Machine, r: nat, c: nat): nat { if c + 1 == X(b) then r + 1 else r }
  function NextC(b: Machine, c: nat): nat { if c + 1 == X(b) then 0 else c + 1 }

  lemma WrapAdd(a: int, d: int)
    ensures Wrap(Wrap(a) + d) == Wrap(a + d)
  {
    assert (Wrap(a) + d) - (a + d) == -(a / ADDRESS_SPACE) * ADDRESS_SPACE;
  }

  lemma WrapId(a: int)
    requires 0 <= a < ADDRESS_SPACE
    ensures Wrap(a) == a
  {
  }

  lemma SetupAt(b: Machine, m: Machine, r: nat, c: nat)
    requires AtStart(b) && RegsAt(b, m, r, c) && r < Y(b)
    ensures var n := Setup(m);
      && n == m.(s := n.s) && n.s.endMask == Mask(b, c)
      && n.s.fxsr == b.v.fxsr && n.s.nfsr == Skipped(b, c)
      && n.s.needSrc == NeedSrc(b) && n.s.needDst == NeedDst(b, c)
      && n.s.haveFxsr == (c > 0 && Fx(b) == 1)
      && !n.s.haveSrc && !n.s.fetchSrc && !n.s.haveDst && n.s.busWord == m.s.busWord
  {
    hide Wrap, LopNeedsSrc, LopNeedsDst, SrcReg, DstCell;
  }

  predicate Reads(b: Machine, c: nat) { NeedSrc(b) && !Skipped(b, c) }

  /** The source address register when word c itself is read (or passed over). */
  function SrcHere(b: Machine, r: nat, c: nat): int {
    if Reads(b, c) then SrcCell(b, r, c) else Wrap(SrcReg(b, r, c))
  }

  function FxsrBuffer(b: Machine, m: Machine, r: nat, c: nat): bv32 {
    if c == 0 && Fx(b) == 1
    then ShiftIn(m.v.buffer, ReadMem(m.mem, SrcCell(b, r, -1)), b.r.srcXIncr < 0)
    else m.v.buffer
  }

  function FetchBuffer(b: Machine, m: Machine, r: nat, c: nat): bv32 {
    if Reads(b, c)
    then ShiftIn(FxsrBuffer(b, m, r, c), ReadMem(m.mem, SrcCell(b, r, c)), b.r.srcXIncr < 0)
    else FxsrBuffer(b, m, r, c)
  }

  /** Addresses met on the way through one line. */
  lemma SrcMoves(b: Machine, r: nat, c: nat)
    requires AtStart(b) && c < X(b) && NeedSrc(b)
    ensures c == 0 && Fx(b) == 1 ==> Wrap(SrcReg(b, r, c)) == SrcCell(b, r, -1)
    ensures c == 0 && Fx(b) == 1 ==> Wrap(SrcCell(b, r, -1) + b.r.srcXIncr) == SrcCell(b, r, 0)
    ensures !(c == 0 && Fx(b) == 1) && !Skipped(b, c) ==> Wrap(SrcReg(b, r, c)) == SrcCell(b, r, c)
  {
    hide Wrap;
    WrapAdd(SrcAt(b, r, -1), b.r.srcXIncr);
  }

  /** The machine once word c of line r has been read. */
  predicate FetchedAt(b: Machine, m: Machine, f: Machine, r: nat, c: nat) {
    && f.r == m.r.(srcAddr := SrcHere(b, r, c)) && f.v == m.v.(buffer := FetchBuffer(b, m, r, c))
    && f.halftone == m.halftone && f.mem == m.mem
    && f.s.endMask == Mask(b, c) && f.s.nfsr == Skipped(b, c) && f.s.fxsr == b.v.fxsr
    && f.s.fetchSrc == Reads(b, c) && f.s.haveFxsr == (Fx(b) == 1)
    && (NeedDst(b, c) ==> f.s.dstWord == ReadMem(m.mem, DstCell(b, r, c)))
    && f.s.busWord == (if NeedDst(b, c) then ReadMem(m.mem, DstCell(b, r, c))
                       else if Reads(b, c) then ReadMem(m.mem, SrcCell(b, r, c)) else f.s.busWord)
    && (!NeedDst(b, c) && Skipped(b, c) ==> f.s.busWord == m.s.busWord)
  }

  lemma FetchAt(b: Machine, m: Machine, r: nat, c: nat)
    requires AtStart(b) && RegsAt(b, m, r, c) && r < Y(b)
    ensures FetchedAt(b, m, Fetch(Setup(m)), r, c)
  {
    hide Wrap, ShiftIn, Setup, SrcReg, SrcCell, DstCell, NeedDst, Mask, ReadMem, NeedSrc;
    SetupAt(b, m, r, c);
    if NeedSrc(b) { SrcMoves(b, r, c); }
  }

  lemma DstMoves(b: Machine, r: nat, c: nat)
    requires AtStart(b) && c < X(b)
    ensures Wrap(DstCell(b, r, c) + if c + 1 == X(b) then b.r.dstYIncr else b.r.dstXIncr)
         == DstCell(b, NextR(b, r, c), NextC(b, c))
  {
    hide Wrap;
    var d := if c + 1 == X(b) then b.r.dstYIncr else b.r.dstXIncr;
    WrapAdd(DstAt(b, r, c), d);
    if c + 1 == X(b) {
      assert (r + 1) * ((X(b) - 1) * b.r.dstXIncr + b.r.dstYIncr)
          == r * ((X(b) - 1) * b.r.dstXIncr + b.r.dstYIncr) + (X(b) - 1) * b.r.dstXIncr + b.r.dstYIncr;
    }
  }

  lemma SrcLineMoves(b: Machine, r: nat)
    requires AtStart(b)
    ensures SrcLine(b, r + 1) == SrcAt(b, r, X(b) - 1 - Nx(b)) + b.r.srcYIncr
  {
    var k := Fx(b) + X(b) - 1 - Nx(b);
    assert (r + 1) * (k * b.r.srcXIncr + b.r.srcYIncr)
        == r * (k * b.r.srcXIncr + b.r.srcYIncr) + k * b.r.srcXIncr + b.r.srcYIncr;
  }

  lemma SrcNext(b: Machine, r: nat, c: nat)
    requires AtStart(b) && c < X(b)
    ensures Wrap(SrcReg(b, NextR(b, r, c), NextC(b, c)))
         == if !Reads(b, c) then SrcHere(b, r, c)
            else Wrap(SrcHere(b, r, c) + if c + 1 == X(b) || Skipped(b, c + 1) then b.r.srcYIncr else b.r.srcXIncr)
  {
    hide Wrap, SrcLine;
    SrcLineMoves(b, r);
    if Reads(b, c) {
      var d := if c + 1 == X(b) || Skipped(b, c + 1) then b.r.srcYIncr else b.r.srcXIncr;
      WrapAdd(SrcAt(b, r, c), d);
      assert (Fx(b) + c + 1) * b.r.srcXIncr == (Fx(b) + c) * b.r.srcXIncr + b.r.srcXIncr;
    }
  }

  lemma HalftoneMoves(b: Machine, r: nat)
    requires AtStart(b)
    ensures NextHalftone(HalftoneLine(b, r), b.r.dstYIncr) == HalftoneLine(b, r + 1)
  {
    if b.r.dstYIncr >= 0 {
      ModAdd(b.v.halftoneLine + r, 1);
    } else {
      ModAdd(b.v.halftoneLine + 15 * r, 15);
    }
  }

  lemma ModAdd(a: nat, k: nat)
    ensures (a % 16 + k) % 16 == (a + k) % 16
  {
  }

  /** One whole step takes the registers and flags to the next word. */
  lemma RegsStep(b: Machine, m: Machine, r: nat, c: nat)
    requires AtStart(b) && RegsAt(b, m, r, c) && r < Y(b) && Valid(m)
    ensures RegsAt(b, WholeStep(m), NextR(b, r, c), NextC(b, c))
  {
    hide RegsAt, FetchedAt, Committed, OneWordDone, AtStart, Setup, Fetch, Commit, Valid;
    FetchAt(b, m, r, c);
    var f := Fetch(Setup(m));
    YCountAt(b, m, f, r, c);
    CommitRegs(f);
    RegsNext(b, m, f, WholeStep(m), r, c);
  }

  lemma YCountAt(b: Machine, m: Machine, f: Machine, r: nat, c: nat)
    requires Valid(m) && RegsAt(b, m, r, c) && r < Y(b) && FetchedAt(b, m, f, r, c)
    ensures m.r.yCount > 0 && f.r.yCount > 0 && Valid(f)
  {
    hide Wrap, SrcReg, DstCell, SrcHere, FetchBuffer, NeedDst, Mask, Skipped, Reads, SrcCell;
  }

  /** The registers and flags after the word just read is done. */
  lemma RegsNext(b: Machine, m: Machine, f: Machine, n: Machine, r: nat, c: nat)
    requires AtStart(b) && RegsAt(b, m, r, c) && r < Y(b) && FetchedAt(b, m, f, r, c)
    requires Valid(f) && OneWordDone(f, n) && Committed(f, n)
    ensures RegsAt(b, n, NextR(b, r, c), NextC(b, c))
  {
    hide Wrap, SrcReg, SrcHere, DstCell, SrcCell, NeedDst, Mask, NeedSrc, NextHalftone, HalftoneLine, FetchBuffer;
    AddressesStep(b, r, c);
  }

  lemma AddressesStep(b: Machine, r: nat, c: nat)
    requires AtStart(b) && c < X(b)
    ensures var last := c + 1 == X(b);
      && Wrap(DstCell(b, r, c) + if last then b.r.dstYIncr else b.r.dstXIncr) == DstCell(b, NextR(b, r, c), NextC(b, c))
      && Wrap(SrcReg(b, NextR(b, r, c), NextC(b, c)))
         == (if !Reads(b, c) then SrcHere(b, r, c)
             else Wrap(SrcHere(b, r, c) + if last || Skipped(b, c + 1) then b.r.srcYIncr else b.r.srcXIncr))
      && HalftoneLine(b, NextR(b, r, c))
         == if last then NextHalftone(HalftoneLine(b, r), b.r.dstYIncr) else HalftoneLine(b, r)
  {
    hide Wrap, SrcReg, SrcHere, DstCell, NextHalftone, HalftoneLine, NeedSrc, Valid;
    DstMoves(b, r, c);
    SrcNext(b, r, c);
    HalftoneMoves(b, r);
  }

  /** What finishing a word does to the addresses, the halftone line and the flags. */
  predicate Committed(f: Machine, n: Machine)
    requires Valid(f)
  {
    var last := f.r.xCount == 1;
    var nfsr := f.s.nfsr || (f.r.xCount == 2 && f.v.nfsr);
    && n.s.nfsr == nfsr && n.s.fxsr == f.s.fxsr && n.s.haveFxsr == (f.s.haveFxsr && !last) && !n.s.fetchSrc
    && n.v.halftoneLine == (if last then NextHalftone(f.v.halftoneLine, f.r.dstYIncr) else f.v.halftoneLine)
    && n.r.dstAddr == Wrap(f.r.dstAddr + if last then f.r.dstYIncr else f.r.dstXIncr)
    && n.r.srcAddr == if !f.s.fetchSrc then f.r.srcAddr
                      else Wrap(f.r.srcAddr + if last || nfsr then f.r.srcYIncr else f.r.srcXIncr)
  }

  lemma CommitRegs(f: Machine)
    requires Valid(f) && f.r.yCount > 0
    ensures Committed(f, Commit(f))
  {
    hide Wrap, DataWord, WriteMem, NextHalftone, NfsrFeed;
  }

  // ----- data -----

  function Stored(b: Machine, r: nat, c: nat): bv16
    requires Valid(b) && c < X(b)
  {
    if DstCell(b, r, c) in b.mem then Result(b, r, c) else DMA_READ_WORD_BUS_ERR
  }

  /** Memory once every word before (r, c) has been written, and nothing else. */
  ghost predicate MemAt(b: Machine, mem: Memory, r: nat, c: nat)
    requires Valid(b)
  {
    && mem.Keys == b.mem.Keys
    && (forall i: nat, j: nat | j < X(b) && Before(i, j, r, c) ::
          ReadMem(mem, DstCell(b, i, j)) == Stored(b, i, j))
    && (forall a: int | Untouched(b, a, r, c) :: ReadMem(mem, a) == ReadMem(b.mem, a))
  }

  ghost predicate DataAt(b: Machine, m: Machine, r: nat, c: nat)
    requires Valid(b) && c < X(b)
  {
    && MemAt(b, m.mem, r, c)
    && (NeedSrc(b) ==> Newest(m.v.buffer, b.r.srcXIncr < 0) == Carry(b, r, c))
    && (c > 0 ==> m.s.busWord == Result(b, r, c - 1))
  }

  /** What is read for word (r, c) is still what it was before the blit. */
  lemma ReadsOriginal(b: Machine, m: Machine, r: nat, c: nat)
    requires AtStart(b) && NoFeedback(b) && r < Y(b) && c < X(b) && MemAt(b, m.mem, r, c)
    ensures ReadMem(m.mem, DstCell(b, r, c)) == OldDst(b, r, c)
    ensures NeedSrc(b) && c == 0 && Fx(b) == 1 ==> ReadMem(m.mem, SrcCell(b, r, -1)) == SrcWord(b, r, -1)
    ensures Reads(b, c) ==> ReadMem(m.mem, SrcCell(b, r, c)) == SrcWord(b, r, c)
  {
    hide SrcCell, DstCell, ReadMem, NeedSrc;
  }

  /** Just before the logic operation the buffer holds the two-word window of the spec. */
  lemma WindowAt(b: Machine, m: Machine, r: nat, c: nat)
    requires AtStart(b) && NoFeedback(b) && r < Y(b) && NeedSrc(b)
    requires RegsAt(b, m, r, c) && DataAt(b, m, r, c)
    ensures NfsrFeed(Fetch(Setup(m))).v.buffer == Pack(Prev(b, r, c), Cur(b, r, c), b.r.srcXIncr < 0)
    ensures Newest(FetchBuffer(b, m, r, c), b.r.srcXIncr < 0)
         == if Skipped(b, c) then Carry(b, r, c) else SrcWord(b, r, c)
  {
    hide Wrap, ShiftIn, Pack, Newest, Setup, Fetch, SrcReg, SrcCell, DstCell, SrcWord, OldDst,
      ReadMem, Result, Mask, NeedSrc, MemAt;
    FetchAt(b, m, r, c);
    ReadsOriginal(b, m, r, c);
    var neg := b.r.srcXIncr < 0;
    ShiftInIsPack(m.v.buffer, SrcWord(b, r, -1), neg);
    ShiftInIsPack(FxsrBuffer(b, m, r, c), SrcWord(b, r, c), neg);
    ShiftInIsPack(FetchBuffer(b, m, r, c), Fetch(Setup(m)).s.busWord, neg);
  }

  lemma ResultAt(b: Machine, m: Machine, r: nat, c: nat)
    requires AtStart(b) && NoFeedback(b) && r < Y(b)
    requires RegsAt(b, m, r, c) && DataAt(b, m, r, c) && Valid(m)
    ensures DataWord(NfsrFeed(Fetch(Setup(m)))) == Result(b, r, c)
  {
    hide Wrap, ShiftIn, Pack, Newest, Setup, Fetch, SrcReg, SrcCell, DstCell, SrcWord, ReadMem,
      Prev, Cur, Carry, MemAt, NfsrFeed, WordOf, SourceRead;
    FetchAt(b, m, r, c);
    ReadsOriginal(b, m, r, c);
    if NeedSrc(b) { WindowAt(b, m, r, c); }
    var g := NfsrFeed(Fetch(Setup(m)));
    UnusedOperands(b.r.hop, b.r.lop, b.v.smudge, b.halftone, Mask(b, c),
      SourceRead(g.v.buffer, b.v.skew),
      SourceRead(Pack(Prev(b, r, c), Cur(b, r, c), b.r.srcXIncr < 0), b.v.skew),
      HalftoneLine(b, r), g.s.dstWord, OldDst(b, r, c));
  }

  lemma CommitData(f: Machine)
    requires Valid(f) && f.r.yCount > 0
    ensures var g := NfsrFeed(f);
      var n := Commit(f);
      && n.mem == WriteMem(f.mem, f.r.dstAddr, DataWord(g)) && n.s.busWord == DataWord(g)
      && n.v.buffer == (if f.v.nfsr && f.r.xCount == 1
                        then ShiftIn(g.v.buffer, DataWord(g), f.r.srcXIncr < 0) else f.v.buffer)
  {
    hide Wrap, ShiftIn, DataWord, WriteMem;
  }

  lemma BeforeNext(b: Machine, r: nat, c: nat, i: nat, j: nat)
    requires c < X(b) && j < X(b)
    ensures Before(i, j, NextR(b, r, c), NextC(b, c)) <==> Before(i, j, r, c) || (i == r && j == c)
  {
  }

  lemma MemStep(b: Machine, mem: Memory, r: nat, c: nat)
    requires AtStart(b) && NoFeedback(b) && r < Y(b) && c < X(b) && MemAt(b, mem, r, c)
    ensures MemAt(b, WriteMem(mem, DstCell(b, r, c), Result(b, r, c)), NextR(b, r, c), NextC(b, c))
  {
    hide DstCell, Result, SrcCell, NeedSrc, NextR, NextC, Before;
    var r', c' := NextR(b, r, c), NextC(b, c);
    var mem' := WriteMem(mem, DstCell(b, r, c), Result(b, r, c));
    assert Untouched(b, DstCell(b, r, c), r, c);
    forall i: nat, j: nat | j < X(b) && Before(i, j, r', c')
      ensures ReadMem(mem', DstCell(b, i, j)) == Stored(b, i, j)
    {
      BeforeNext(b, r, c, i, j);
    }
    forall a: int | Untouched(b, a, r', c')
      ensures ReadMem(mem', a) == ReadMem(b.mem, a)
    {
      forall i: nat, j: nat | j < X(b) && Before(i, j, r, c) ensures DstCell(b, i, j) != a {
        BeforeNext(b, r, c, i, j);
      }
      BeforeNext(b, r, c, r, c);
      assert DstCell(b, r, c) != a;
    }
  }

  /** One whole step writes exactly the word the spec says. */
  lemma DataStep(b: Machine, m: Machine, r: nat, c: nat)
    requires AtStart(b) && NoFeedback(b) && r < Y(b)
    requires RegsAt(b, m, r, c) && DataAt(b, m, r, c) && Valid(m)
    ensures DataAt(b, WholeStep(m), NextR(b, r, c), NextC(b, c))
  {
    hide Wrap, ShiftIn, Pack, Newest, Setup, Fetch, SrcReg, SrcCell, DstCell, SrcWord, ReadMem, WriteMem,
      Prev, Cur, Result, MemAt, NfsrFeed, DataWord, NeedSrc, Commit, NoFeedback, FetchBuffer;
    FetchAt(b, m, r, c);
    ResultAt(b, m, r, c);
    CommitData(Fetch(Setup(m)));
    MemStep(b, m.mem, r, c);
    if NeedSrc(b) {
      WindowAt(b, m, r, c);
      ShiftInIsPack(NfsrFeed(Fetch(Setup(m))).v.buffer, Result(b, r, c), b.r.srcXIncr < 0);
    }
  }

  // ----- whole blits -----

  lemma {:induction false} RegsRun(b: Machine, m: Machine, r: nat, c: nat)
    requires AtStart(b) && RegsAt(b, m, r, c) && Valid(m)
    ensures RegsAt(b, HogRun(m), Y(b), 0)
    decreases m.r.yCount, m.r.xCount
  {
    hide WholeStep, SrcReg, DstCell, NeedSrc, HalftoneLine;
    if m.r.yCount > 0 {
      RegsStep(b, m, r, c);
      RegsRun(b, WholeStep(m), NextR(b, r, c), NextC(b, c));
    }
  }

  lemma {:induction false} DataRun(b: Machine, m: Machine, r: nat, c: nat)
    requires AtStart(b) && NoFeedback(b) && RegsAt(b, m, r, c) && DataAt(b, m, r, c) && Valid(m)
    ensures DataAt(b, HogRun(m), Y(b), 0)
    decreases m.r.yCount, m.r.xCount
  {
    hide WholeStep, SrcReg, DstCell, NeedSrc, HalftoneLine, DataAt, NoFeedback;
    if m.r.yCount > 0 {
      RegsStep(b, m, r, c);
      DataStep(b, m, r, c);
      DataRun(b, WholeStep(m), NextR(b, r, c), NextC(b, c));
    }
  }

  lemma StartsAt(b: Machine)
    requires AtStart(b)
    ensures RegsAt(b, b, 0, 0) && DataAt(b, b, 0, 0)
  {
    hide NeedSrc;
    WrapId(b.r.srcAddr);
    WrapId(b.r.dstAddr);
  }

  /** A whole blit leaves every register at its closed-form value, whatever it overlaps. */
  lemma BlitRegisters(b: Machine)
    requires AtStart(b)
    ensures var n := HogRun(b);
      && n.r == b.r.(srcAddr := Wrap(SrcReg(b, Y(b), 0)), dstAddr := DstCell(b, Y(b), 0), yCount := 0)
      && n.v == b.v.(buffer := n.v.buffer, halftoneLine := HalftoneLine(b, Y(b)))
  {
    hide HogRun, SrcReg, DstCell, HalftoneLine;
    StartsAt(b);
    RegsRun(b, b, 0, 0);
  }

  /** A whole blit writes word (r, c) of the rectangle with the closed form `Result` of the
      memory before the blit, and writes nothing else. */
  lemma BlitMemory(b: Machine)
    requires AtStart(b) && NoFeedback(b)
    ensures var mem := HogRun(b).mem;
      && mem.Keys == b.mem.Keys
      && (forall r: nat, c: nat | r < Y(b) && c < X(b) :: ReadMem(mem, DstCell(b, r, c)) == Stored(b, r, c))
      && (forall a: int | Untouched(b, a, Y(b), 0) :: ReadMem(mem, a) == ReadMem(b.mem, a))
  {
    hide HogRun, DstCell, Stored, ReadMem, NoFeedback;
    StartsAt(b);
    DataRun(b, b, 0, 0);
    var mem := HogRun(b).mem;
    forall r: nat, c: nat | r < Y(b) && c < X(b)
      ensures ReadMem(mem, DstCell(b, r, c)) == Stored(b, r, c)
    {
      assert Before(r, c, Y(b), 0);
    }
  }

  // ----- bus accesses of a whole blit -----

  /** Bus accesses made for word c of any line. */
  function WordCost(b: Machine, c: nat): nat {
    1 + One(Reads(b, c)) + One(NeedDst(b, c)) + if c == 0 then Fx(b) else 0
  }

  function LineRest(b: Machine, c: nat): nat
    decreases X(b) - c
  {
    if c >= X(b) then 0 else WordCost(b, c) + LineRest(b, c + 1)
  }

  lemma PendingAt(b: Machine, m: Machine, r: nat, c: nat)
    requires AtStart(b) && RegsAt(b, m, r, c) && r < Y(b)
    ensures PendingReads(Setup(m)) + 1 == WordCost(b, c)
  {
    hide SrcReg, DstCell, NeedSrc, HalftoneLine, Setup, NeedDst;
    SetupAt(b, m, r, c);
  }

  lemma {:induction false} CostAt(b: Machine, m: Machine, r: nat, c: nat)
    requires AtStart(b) && RegsAt(b, m, r, c) && Valid(m) && r < Y(b)
    ensures Cost(m) == LineRest(b, c) + (Y(b) - r - 1) * LineRest(b, 0)
    decreases m.r.yCount, m.r.xCount
  {
    hide WholeStep, SrcReg, DstCell, HalftoneLine, Cost, PendingReads, WordCost, Fx, Nx;
    PendingAt(b, m, r, c);
    RegsStep(b, m, r, c);
    CostUnfolds(m);
    var n := WholeStep(m);
    if n.r.yCount > 0 {
      CostAt(b, n, NextR(b, r, c), NextC(b, c));
    } else {
      CostDone(n);
    }
    OneLineLess(Y(b) - r, LineRest(b, 0));
  }

  lemma OneLineLess(lines: nat, cost: nat)
    ensures lines * cost == (lines - 1) * cost + cost
  {
  }

  lemma CostDone(m: Machine)
    requires Valid(m) && m.r.yCount == 0
    ensures Cost(m) == 0
  {
  }

  /** Destination reads made for one line. */
  function DstReads(b: Machine): nat {
    if LopNeedsDst(b.r.lop) then X(b)
    else One(b.r.endMask1 != 0xFFFF)
         + (if X(b) >= 2 then One(b.r.endMask3 != 0xFFFF) + (X(b) - 2) * One(b.r.endMask2 != 0xFFFF) else 0)
  }

  lemma {:induction false} LineRestFrom(b: Machine, c: nat)
    requires AtStart(b) && 0 < c <= X(b)
    ensures LineRest(b, c) == X(b) - c
      + (if NeedSrc(b) && c < X(b) then X(b) - c - Nx(b) else 0)
      + (if LopNeedsDst(b.r.lop) then X(b) - c
         else if c < X(b) then One(b.r.endMask3 != 0xFFFF) + (X(b) - 1 - c) * One(b.r.endMask2 != 0xFFFF) else 0)
    decreases X(b) - c
  {
    hide NeedSrc, LopNeedsDst;
    if c < X(b) { LineRestFrom(b, c + 1); }
  }

  /** Closed form of the bus accesses of a blit: one write per word, one source read per word
      (one more per line with FXSR, one less with NFSR), one read per modified destination. */
  lemma BlitCost(b: Machine)
    requires AtStart(b)
    ensures Cost(b) == Y(b) * (X(b) + (if NeedSrc(b) then Fx(b) + X(b) - Nx(b) else 0) + DstReads(b))
  {
    hide NeedSrc, LopNeedsDst, Cost;
    StartsAt(b);
    CostAt(b, b, 0, 0);
    LineRestFrom(b, 1);
    assert LineRest(b, 0) == WordCost(b, 0) + LineRest(b, 1);
    OneLineLess(Y(b), LineRest(b, 0));
  }

  /** The whole contract of a blit: cut into slices however the bus is shared, it is over
      exactly when the bus accesses granted cover its closed-form cost, and it then leaves the
      closed-form memory and the closed-form registers. */
  lemma SlicedBlit(b: Machine, errors: seq<bool>)
    requires AtStart(b) && NoFeedback(b) && !b.v.hog
    ensures var n := Slices(b, errors);
      && (n.r.yCount == 0 <==>
            Y(b) * (X(b) + (if NeedSrc(b) then Fx(b) + X(b) - Nx(b) else 0) + DstReads(b)) <= Granted(errors))
      && (n.r.yCount == 0 ==>
            && n.r.srcAddr == Wrap(SrcReg(b, Y(b), 0)) && n.r.dstAddr == DstCell(b, Y(b), 0)
            && n.r.xCount == X(b) && n.v.halftoneLine == HalftoneLine(b, Y(b))
            && (forall r: nat, c: nat | r < Y(b) && c < X(b) :: ReadMem(n.mem, DstCell(b, r, c)) == Stored(b, r, c))
            && (forall a: int | Untouched(b, a, Y(b), 0) :: ReadMem(n.mem, a) == ReadMem(b.mem, a)))
  {
    hide Cost, Slices, HogRun, SrcReg, DstCell, HalftoneLine, Stored, ReadMem, NoFeedback, NeedSrc, DstReads;
    BlitCost(b);
    SlicesFinishExactly(b, errors);
    SlicesRun(b, errors);
    BlitRegisters(b);
    BlitMemory(b);
    if Slices(b, errors).r.yCount == 0 { RunDone(Slices(b, errors)); }
  }

  lemma RunDone(m: Machine)
    requires Valid(m) && m.r.yCount == 0
    ensures HogRun(m) == m
  {
  }
}
