/** What a whole blit computes, word by word, with no buffer, counters or phases:
    the closed form that `BlitterRefinement` proves of the machine. */
module BlitterSpec {
  import Arith
  import opened Bits
  import opened BlitterCore

  /** A blit just set up and started: at the first word of its first line, nothing read yet. */
  predicate AtStart(b: Machine) {
    && Valid(b) && b.r.yCount > 0 && b.r.xCount == b.v.xCountReset
    && 0 <= b.r.srcAddr < ADDRESS_SPACE && 0 <= b.r.dstAddr < ADDRESS_SPACE
    && !b.s.haveFxsr && !b.s.haveSrc && !b.s.fetchSrc && !b.s.haveDst
  }

  function X(b: Machine): nat { b.v.xCountReset }
  function Y(b: Machine): nat { b.r.yCount }

  /** Extra words read at the start of each line. */
  function Fx(b: Machine): nat { if b.v.fxsr && NeedSrc(b) then 1 else 0 }

  /** With NFSR the last read of a line is dropped, except on single-word lines. */
  function Nx(b: Machine): nat { if b.v.nfsr && X(b) >= 2 then 1 else 0 }

  predicate Skipped(b: Machine, c: nat) { Nx(b) == 1 && c + 1 == X(b) }

  // ----- addresses -----

  function DstAt(b: Machine, r: nat, c: nat): int {
    b.r.dstAddr + r * ((X(b) - 1) * b.r.dstXIncr + b.r.dstYIncr) + c * b.r.dstXIncr
  }

  function SrcLine(b: Machine, r: nat): int {
    b.r.srcAddr + r * ((Fx(b) + X(b) - 1 - Nx(b)) * b.r.srcXIncr + b.r.srcYIncr)
  }

  /** Where word c of line r is read; c = -1 is the extra FXSR word. */
  function SrcAt(b: Machine, r: nat, c: int): int {
    SrcLine(b, r) + (Fx(b) + c) * b.r.srcXIncr
  }

  /** The source address register just before word c of line r. */
  function SrcReg(b: Machine, r: nat, c: nat): int {
    if !NeedSrc(b) then b.r.srcAddr
    else if c == 0 then SrcLine(b, r)
    else if Skipped(b, c) then SrcLine(b, r + 1)
    else SrcAt(b, r, c)
  }

  function DstCell(b: Machine, r: nat, c: nat): int { Wrap(DstAt(b, r, c)) }
  function SrcCell(b: Machine, r: nat, c: int): int { Wrap(SrcAt(b, r, c)) }

  function HalftoneLine(b: Machine, r: nat): nat {
    (b.v.halftoneLine + (if b.r.dstYIncr >= 0 then r else 15 * r)) % 16
  }

  // ----- data -----

  function SrcWord(b: Machine, r: nat, c: int): bv16 { ReadMem(b.mem, SrcCell(b, r, c)) }
  function OldDst(b: Machine, r: nat, c: nat): bv16 { ReadMem(b.mem, DstCell(b, r, c)) }

  function Mask(b: Machine, c: nat): bv16 {
    if c == 0 then b.r.endMask1 else if c + 1 == X(b) then b.r.endMask3 else b.r.endMask2
  }

  predicate NeedDst(b: Machine, c: nat) { LopNeedsDst(b.r.lop) || Mask(b, c) != 0xFFFF }

  /** Two source words side by side, the older one first in blit direction. */
  function Pack(prev: bv16, cur: bv16, neg: bool): bv32 {
    if neg then Or32(Up(cur), Wide(prev)) else Or32(Up(prev), Wide(cur))
  }

  /** The half of the buffer that survives the next shift. */
  function Newest(buffer: bv32, neg: bool): bv16 {
    if neg then (buffer >> 16) as bv16 else (buffer & 0xFFFF) as bv16
  }

  /** The source word left in the buffer by everything before word c of line r. */
  function Carry(b: Machine, r: nat, c: nat): bv16
    requires Valid(b) && c < X(b)
    decreases r, c, 0
  {
    if c > 0 then SrcWord(b, r, c - 1)
    else if r == 0 then Newest(b.v.buffer, b.r.srcXIncr < 0)
    else if b.v.nfsr then Result(b, r - 1, X(b) - 1)
    else SrcWord(b, r - 1, X(b) - 1)
  }

  function Prev(b: Machine, r: nat, c: nat): bv16
    requires Valid(b) && c < X(b)
    decreases r, c, 1
  {
    if b.v.nfsr && X(b) == 1 then SrcWord(b, r, 0)
    else if c == 0 && Fx(b) == 1 then SrcWord(b, r, -1)
    else Carry(b, r, c)
  }

  /** The newer half of the window: the word's own source word or, on the last word of an
      NFSR line, whatever was last on the bus. */
  function Cur(b: Machine, r: nat, c: nat): bv16
    requires Valid(b) && c < X(b)
    decreases r, c, 1
  {
    if !b.v.nfsr || c + 1 < X(b) then SrcWord(b, r, c)
    else if NeedDst(b, c) then OldDst(b, r, c)
    else if c == 0 then SrcWord(b, r, 0)
    else Result(b, r, c - 1)
  }

  /** The word the blit writes at line r, word c. */
  function Result(b: Machine, r: nat, c: nat): bv16
    requires Valid(b) && c < X(b)
    decreases r, c, 2
  {
    WordOf(b.r.hop, b.r.lop, b.v.smudge, b.halftone, Mask(b, c),
           SourceRead(Pack(Prev(b, r, c), Cur(b, r, c), b.r.srcXIncr < 0), b.v.skew),
           HalftoneLine(b, r), OldDst(b, r, c))
  }

  // ----- overlap -----

  predicate Before(r: nat, c: nat, r': nat, c': nat) { r < r' || (r == r' && c < c') }

  /** Nothing written before word (r, c) lands on address a. */
  ghost predicate Untouched(b: Machine, a: int, r: nat, c: nat) {
    forall i: nat, j: nat | j < X(b) && Before(i, j, r, c) :: DstCell(b, i, j) != a
  }

  /** No word is read or rewritten after the blit has written over it.  This covers disjoint
      rectangles and overlapping moves in the right direction. */
  ghost predicate NoFeedback(b: Machine) {
    forall r: nat, c: nat | r < Y(b) && c < X(b) ::
      && Untouched(b, DstCell(b, r, c), r, c)
      && (NeedSrc(b) ==>
            && (c == 0 && Fx(b) == 1 ==> Untouched(b, SrcCell(b, r, -1), r, c))
            && (!Skipped(b, c) ==> Untouched(b, SrcCell(b, r, c), r, c)))
  }

  // ----- blits without feedback -----

  /** The blit moves up through memory without wrapping, and its source is all below or all above its
      destination. */
  predicate Apart(b: Machine)
    requires AtStart(b)
  {
    var last := DstAt(b, Y(b) - 1, X(b) - 1);
    && b.r.dstXIncr > 0 && b.r.dstYIncr > 0 && last < ADDRESS_SPACE
    && (NeedSrc(b) ==>
          && b.r.srcXIncr >= 0 && b.r.srcYIncr >= 0
          && (SrcAt(b, Y(b) - 1, X(b) - 1) < b.r.dstAddr || (last < b.r.srcAddr && SrcAt(b, Y(b) - 1, X(b) - 1) < ADDRESS_SPACE)))
  }

  lemma DstInside(b: Machine, r: nat, c: nat)
    requires AtStart(b) && Apart(b) && r < Y(b) && c < X(b)
    ensures b.r.dstAddr <= DstAt(b, r, c) <= DstAt(b, Y(b) - 1, X(b) - 1)
    ensures DstCell(b, r, c) == DstAt(b, r, c)
  {
    var line := (X(b) - 1) * b.r.dstXIncr + b.r.dstYIncr;
    Arith.MulMonotone(0, X(b) - 1, b.r.dstXIncr);
    Arith.MulMonotone(0, c, b.r.dstXIncr);
    Arith.MulMonotone(c, X(b) - 1, b.r.dstXIncr);
    Arith.MulMonotone(0, r, line);
    Arith.MulMonotone(r, Y(b) - 1, line);
  }

  lemma DstRises(b: Machine, i: nat, j: nat, r: nat, c: nat)
    requires AtStart(b) && Apart(b) && Before(i, j, r, c) && j < X(b) && c < X(b)
    ensures DstAt(b, i, j) < DstAt(b, r, c)
  {
    var dx := b.r.dstXIncr;
    var line := (X(b) - 1) * dx + b.r.dstYIncr;
    if i == r {
      Arith.Distribute(j, c - j, dx);
      Arith.MulMonotone(1, c - j, dx);
    } else {
      Arith.MulMonotone(0, X(b) - 1, dx);
      Arith.MulLess(i, r, line);
      Arith.MulMonotone(j, X(b) - 1, dx);
      Arith.MulMonotone(0, c, dx);
    }
  }

  lemma SrcInside(b: Machine, r: nat, c: int)
    requires AtStart(b) && Apart(b) && NeedSrc(b) && r < Y(b) && 0 <= Fx(b) + c && c < X(b) - (if Skipped(b, X(b) - 1) then 1 else 0)
    ensures b.r.srcAddr <= SrcAt(b, r, c) <= SrcAt(b, Y(b) - 1, X(b) - 1)
  {
    var dx := b.r.srcXIncr;
    var k := Fx(b) + X(b) - 1 - Nx(b);
    var line := k * dx + b.r.srcYIncr;
    Arith.MulMonotone(0, k, dx);
    Arith.MulMonotone(0, Fx(b) + c, dx);
    Arith.MulMonotone(Fx(b) + c, Fx(b) + X(b) - 1, dx);
    Arith.MulMonotone(0, r, line);
    Arith.MulMonotone(r, Y(b) - 1, line);
  }

  /** Such a blit has no feedback. */
  lemma ApartIsEnough(b: Machine)
    requires AtStart(b) && Apart(b)
    ensures NoFeedback(b)
  {
    hide DstAt, SrcAt, DstCell, SrcCell, NeedSrc, Apart;
    forall r: nat, c: nat | r < Y(b) && c < X(b)
      ensures Untouched(b, DstCell(b, r, c), r, c)
      ensures NeedSrc(b) && c == 0 && Fx(b) == 1 ==> Untouched(b, SrcCell(b, r, -1), r, c)
      ensures NeedSrc(b) && !Skipped(b, c) ==> Untouched(b, SrcCell(b, r, c), r, c)
    {
      forall i: nat, j: nat | j < X(b) && Before(i, j, r, c)
        ensures DstCell(b, i, j) != DstCell(b, r, c)
        ensures NeedSrc(b) && c == 0 && Fx(b) == 1 ==> DstCell(b, i, j) != SrcCell(b, r, -1)
        ensures NeedSrc(b) && !Skipped(b, c) ==> DstCell(b, i, j) != SrcCell(b, r, c)
      {
        DstInside(b, i, j);
        DstInside(b, r, c);
        DstRises(b, i, j, r, c);
        if NeedSrc(b) && c == 0 && Fx(b) == 1 { SrcElsewhere(b, r, -1, i, j); }
        if NeedSrc(b) && !Skipped(b, c) { SrcElsewhere(b, r, c, i, j); }
      }
    }
  }

  lemma SrcElsewhere(b: Machine, r: nat, c: int, i: nat, j: nat)
    requires AtStart(b) && Apart(b) && NeedSrc(b) && r < Y(b) && 0 <= Fx(b) + c && c < X(b) && i < Y(b) && j < X(b)
    requires c >= 0 ==> !Skipped(b, c)
    ensures DstCell(b, i, j) != SrcCell(b, r, c)
  {
    hide DstAt, SrcAt, DstCell, Fx, NeedSrc;
    DstInside(b, i, j);
    SrcInside(b, r, c);
    DstInside(b, 0, 0);
  }
}
