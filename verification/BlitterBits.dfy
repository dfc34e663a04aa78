/** What a blit writes, bit by bit: the logic operation is a truth table, the halftone operation and
    the end mask work on each bit alone, and the skew moves the two-word window. */
module BlitterBits {
  import opened Bits
  import opened BlitterCore
  import opened BlitterSpec
  import opened BlitterSlices
  import opened BlitterRefinement

  // ----- the logic operation -----

  /** The code of a logic operation is its truth table: bit 0 is the result for both operands set,
      bit 1 for the source alone, bit 2 for the destination alone, bit 3 for neither. */
  predicate TruthTable(lop: nat, s: bool, d: bool) {
    lop / (if s then (if d then 1 else 2) else if d then 4 else 8) % 2 == 1
  }

  /** Every operation applies its table to each bit. */
  lemma LopBit(lop: nat, s: bv16, d: bv16, k: nat)
    requires lop < 16 && k < 16
    ensures Bit(Lop(lop, s, d), k) == TruthTable(lop, Bit(s, k), Bit(d, k))
  {
    hide Bit, And, Or, Xor, Not;
    ConstBit(k);
    NotBit(s, k);
    NotBit(d, k);
    AndBit(s, d, k);
    AndBit(s, Not(d), k);
    AndBit(Not(s), d, k);
    AndBit(Not(s), Not(d), k);
    OrBit(s, d, k);
    OrBit(s, Not(d), k);
    OrBit(Not(s), d, k);
    OrBit(Not(s), Not(d), k);
    XorBit(s, d, k);
    XorBit(Not(s), d, k);
  }

  /** An operand is called needed exactly when the truth table depends on it. */
  lemma NeededIff(lop: nat)
    requires lop < 16
    ensures LopNeedsSrc(lop) <==> exists d :: TruthTable(lop, true, d) != TruthTable(lop, false, d)
    ensures LopNeedsDst(lop) <==> exists s :: TruthTable(lop, s, true) != TruthTable(lop, s, false)
  {
    var t1, t2, t4, t8 := TruthTable(lop, true, true), TruthTable(lop, true, false),
                          TruthTable(lop, false, true), TruthTable(lop, false, false);
  }

  /** Under the end mask a bit is new, and outside it is the old one. */
  lemma MergeBit(mask: bv16, new_: bv16, old_: bv16, k: nat)
    requires k < 16
    ensures Bit(MaskedMerge(mask, new_, old_), k) == if Bit(mask, k) then Bit(new_, k) else Bit(old_, k)
  {
    hide Bit, And, Or, Not;
    ConstBit(k);
    NotBit(mask, k);
    AndBit(new_, mask, k);
    AndBit(old_, Not(mask), k);
    OrBit(And(new_, mask), And(old_, Not(mask)), k);
  }

  // ----- the source window and the halftone line -----

  /** Bit i of the two words of the window side by side. */
  predicate InWindow(prev: bv16, cur: bv16, neg: bool, i: nat)
    requires i < 32
  {
    Bit(if (i < 16) == neg then prev else cur, i % 16)
  }

  /** Bit k of the word read is bit k + skew of the two words of the window, the lower one first. */
  lemma WindowBit(prev: bv16, cur: bv16, neg: bool, skew: nat, k: nat)
    requires skew < 16 && k < 16
    ensures Bit(SourceRead(Pack(prev, cur, neg), skew), k) == InWindow(prev, cur, neg, k + skew)
  {
    hide Bit, BitAt, Wide, Up, Or32, Low, Shifted;
    var pack := Pack(prev, cur, neg);
    LowBit(Shifted(pack, skew), k);
    ShiftedHalves(pack, skew);
    HalvesAt(pack, skew, k);
    PairAt(if neg then cur else prev, if neg then prev else cur, k + skew);
  }

  function Number(b0: bool, b1: bool, b2: bool, b3: bool): nat {
    (if b0 then 1 else 0) + (if b1 then 2 else 0) + (if b2 then 4 else 0) + (if b3 then 8 else 0)
  }

  lemma LowBits(w: bv16)
    ensures ((w & 15) as bv4) as nat == Number(Bit(w, 0), Bit(w, 1), Bit(w, 2), Bit(w, 3))
  {
    LowMasks(w);
    FourBits(Wide(w));
  }

  lemma LowMasks(w: bv16)
    ensures ((w & 15) as bv4) as nat
      == Number((w as bv32) & 1 == 1, (w as bv32) & 2 == 2, (w as bv32) & 4 == 4, (w as bv32) & 8 == 8)
  {
  }

  lemma FourBits(w: bv32)
    ensures BitAt(w, 0) == (w & 1 == 1) && BitAt(w, 1) == (w & 2 == 2)
    ensures BitAt(w, 2) == (w & 4 == 4) && BitAt(w, 3) == (w & 8 == 8)
  {
    LowMask(w);
    SecondMask(w);
    ThirdMask(w);
    FourthMask(w);
    hide Odd, Half;
    assert BitAt(w, 3) == BitAt(Half(w), 2) == BitAt(Half(Half(w)), 1) == BitAt(Half(Half(Half(w))), 0);
    assert BitAt(w, 2) == BitAt(Half(w), 1) == BitAt(Half(Half(w)), 0);
  }

  lemma LowMask(w: bv32)
    ensures Odd(w) == (w & 1 == 1)
  {
  }

  lemma SecondMask(w: bv32)
    ensures Odd(Half(w)) == (w & 2 == 2)
  {
  }

  lemma ThirdMask(w: bv32)
    ensures Odd(Half(Half(w))) == (w & 4 == 4)
  {
  }

  lemma FourthMask(w: bv32)
    ensures Odd(Half(Half(Half(w)))) == (w & 8 == 8)
  {
  }

  // ----- what is read is needed -----

  /** Some word written depends on its source. */
  ghost predicate DependsOnSource(hop: nat, lop: nat, smudge: bool)
    requires hop < 4 && lop < 16
  {
    exists halftone: seq<bv16>, src: bv16, src': bv16, dst: bv16 ::
      && |halftone| == 16
      && WordOf(hop, lop, smudge, halftone, 0xFFFF, src, 0, dst) != WordOf(hop, lop, smudge, halftone, 0xFFFF, src', 0, dst)
  }

  /** The blit reads its source exactly when the words it writes can depend on it. */
  lemma SourceReadIff(m: Machine)
    requires m.r.hop < 4 && m.r.lop < 16
    ensures NeedSrc(m) <==> DependsOnSource(m.r.hop, m.r.lop, m.v.smudge)
  {
    hide WordOf, LopNeedsSrc;
    if NeedSrc(m) {
      SourceMatters(m.r.hop, m.r.lop, m.v.smudge);
    } else {
      forall halftone: seq<bv16>, src: bv16, src': bv16, dst: bv16 | |halftone| == 16
        ensures WordOf(m.r.hop, m.r.lop, m.v.smudge, halftone, 0xFFFF, src, 0, dst)
             == WordOf(m.r.hop, m.r.lop, m.v.smudge, halftone, 0xFFFF, src', 0, dst)
      {
        UnusedOperands(m.r.hop, m.r.lop, m.v.smudge, halftone, 0xFFFF, src, src', 0, dst, dst);
      }
    }
  }

  lemma SourceMatters(hop: nat, lop: nat, smudge: bool)
    requires hop < 4 && lop < 16 && LopNeedsSrc(lop) && (hop >= 2 || (hop == 1 && smudge))
    ensures DependsOnSource(hop, lop, smudge)
  {
    hide Lop, TruthTable, HalftoneWord, Hop, LopNeedsSrc, Bit;
    NeededIff(lop);
    var d :| TruthTable(lop, true, d) != TruthTable(lop, false, d);
    var dst: bv16 := if d then 0xFFFF else 0;
    var halftone := if hop == 1 then seq(15, i => 0) + [0xFFFF] else seq(16, i => 0xFFFF);
    Extremes(hop, smudge, halftone);
    ConstBit(0);
    LopBit(lop, 0xFFFF, dst, 0);
    LopBit(lop, 0, dst, 0);
    assert WordOf(hop, lop, smudge, halftone, 0xFFFF, 0xFFFF, 0, dst) == Lop(lop, 0xFFFF, dst);
    assert WordOf(hop, lop, smudge, halftone, 0xFFFF, 0, 0, dst) == Lop(lop, 0, dst);
  }

  lemma Extremes(hop: nat, smudge: bool, halftone: seq<bv16>)
    requires (hop == 1 && smudge) || hop == 2 || hop == 3
    requires halftone == if hop == 1 then seq(15, i => 0) + [0xFFFF] else seq(16, i => 0xFFFF)
    ensures Hop(hop, 0xFFFF, HalftoneWord(smudge, 0, 0xFFFF, halftone)) == 0xFFFF
    ensures Hop(hop, 0, HalftoneWord(smudge, 0, 0, halftone)) == 0
  {
    LastLine();
  }

  lemma LastLine()
    ensures ((0xFFFF as bv16 & 15) as bv4) as nat == 15 && ((0 as bv16 & 15) as bv4) as nat == 0
    ensures And(0xFFFF, 0xFFFF) == 0xFFFF && And(0, 0xFFFF) == 0
  {
  }

  /** It reads a destination word exactly when what the logic operation and the mask make of a
      source word can depend on it. */
  lemma DestinationReadIff(lop: nat, mask: bv16)
    requires lop < 16
    ensures LopNeedsDst(lop) || mask != 0xFFFF <==>
      exists s: bv16, d: bv16, d': bv16 :: MaskedMerge(mask, Lop(lop, s, d), d) != MaskedMerge(mask, Lop(lop, s, d'), d')
  {
    hide Lop, TruthTable, LopNeedsDst, Bit, And, Or, Not;
    if mask != 0xFFFF {
      OutsideMask(mask, Lop(lop, 0, 0), Lop(lop, 0, 0xFFFF));
      assert MaskedMerge(mask, Lop(lop, 0, 0), 0) != MaskedMerge(mask, Lop(lop, 0, 0xFFFF), 0xFFFF);
    } else if LopNeedsDst(lop) {
      NeededIff(lop);
      var s :| TruthTable(lop, s, true) != TruthTable(lop, s, false);
      var src: bv16 := if s then 0xFFFF else 0;
      ConstBit(0);
      LopBit(lop, src, 0xFFFF, 0);
      LopBit(lop, src, 0, 0);
      assert MaskedMerge(mask, Lop(lop, src, 0), 0) != MaskedMerge(mask, Lop(lop, src, 0xFFFF), 0xFFFF);
    } else {
      forall s: bv16, d: bv16, d': bv16 ensures Lop(lop, s, d) == Lop(lop, s, d') { UnusedDst(lop, s, d, d'); }
    }
  }

  lemma OutsideMask(mask: bv16, x: bv16, y: bv16)
    requires mask != 0xFFFF
    ensures Or(And(x, mask), And(0, Not(mask))) != Or(And(y, mask), And(0xFFFF, Not(mask)))
  {
  }

  // ----- the word written -----

  /** Bit i of the source word of word c of line r: bit i + skew of the window. */
  predicate SrcBit(b: Machine, r: nat, c: nat, i: nat)
    requires Valid(b) && c < X(b) && i < 16
  {
    InWindow(Prev(b, r, c), Cur(b, r, c), b.r.srcXIncr < 0, i + b.v.skew)
  }

  /** The halftone line: the line of the blit, or, with smudge, the four lowest source bits. */
  function PatternLine(b: Machine, r: nat, c: nat): (n: nat)
    requires Valid(b) && c < X(b)
    ensures n < 16
  {
    if b.v.smudge then Number(SrcBit(b, r, c, 0), SrcBit(b, r, c, 1), SrcBit(b, r, c, 2), SrcBit(b, r, c, 3))
    else HalftoneLine(b, r)
  }

  /** What the halftone operation makes of it: all bits, the pattern, the source, or both. */
  predicate HopBit(b: Machine, r: nat, c: nat, k: nat)
    requires Valid(b) && c < X(b) && k < 16
  {
    || b.r.hop == 0
    || (b.r.hop == 1 && Bit(b.halftone[PatternLine(b, r, c)], k))
    || (b.r.hop == 2 && SrcBit(b, r, c, k))
    || (b.r.hop == 3 && SrcBit(b, r, c, k) && Bit(b.halftone[PatternLine(b, r, c)], k))
  }

  /** Bit k of the word: by the table inside the end mask, the old one outside. */
  predicate NewBit(b: Machine, r: nat, c: nat, k: nat)
    requires Valid(b) && c < X(b) && k < 16
  {
    var old_ := Bit(OldDst(b, r, c), k);
    if Bit(Mask(b, c), k) then TruthTable(b.r.lop, HopBit(b, r, c, k), old_) else old_
  }

  lemma HopWordBit(hop: nat, src: bv16, pattern: bv16, k: nat)
    requires hop < 4 && k < 16
    ensures Bit(Hop(hop, src, pattern), k) ==
      (hop == 0 || (hop == 1 && Bit(pattern, k)) || (hop == 2 && Bit(src, k)) || (hop == 3 && Bit(src, k) && Bit(pattern, k)))
  {
    hide Bit, And;
    ConstBit(k);
    AndBit(src, pattern, k);
  }

  lemma PatternAt(b: Machine, r: nat, c: nat)
    requires Valid(b) && c < X(b)
    ensures var src := SourceRead(Pack(Prev(b, r, c), Cur(b, r, c), b.r.srcXIncr < 0), b.v.skew);
      HalftoneWord(b.v.smudge, HalftoneLine(b, r), src, b.halftone) == b.halftone[PatternLine(b, r, c)]
  {
    hide Prev, Cur, SourceRead, Pack, Bit, Number, HalftoneLine, InWindow;
    var prev, cur, neg := Prev(b, r, c), Cur(b, r, c), b.r.srcXIncr < 0;
    LowBits(SourceRead(Pack(prev, cur, neg), b.v.skew));
    forall i: nat | i < 4 ensures Bit(SourceRead(Pack(prev, cur, neg), b.v.skew), i) == SrcBit(b, r, c, i) {
      WindowBit(prev, cur, neg, b.v.skew, i);
    }
  }

  /** Every bit of a result. */
  lemma ResultBit(b: Machine, r: nat, c: nat, k: nat)
    requires Valid(b) && c < X(b) && k < 16
    ensures Bit(Result(b, r, c), k) == NewBit(b, r, c, k)
  {
    hide Prev, Cur, SourceRead, Pack, Bit, HalftoneLine, PatternLine, HalftoneWord, Hop, Lop, MaskedMerge, TruthTable, InWindow, OldDst, Mask;
    var src := SourceRead(Pack(Prev(b, r, c), Cur(b, r, c), b.r.srcXIncr < 0), b.v.skew);
    var pattern := b.halftone[PatternLine(b, r, c)];
    PatternAt(b, r, c);
    WindowBit(Prev(b, r, c), Cur(b, r, c), b.r.srcXIncr < 0, b.v.skew, k);
    HopWordBit(b.r.hop, src, pattern, k);
    LopBit(b.r.lop, Hop(b.r.hop, src, pattern), OldDst(b, r, c), k);
    MergeBit(Mask(b, c), Lop(b.r.lop, Hop(b.r.hop, src, pattern), OldDst(b, r, c)), OldDst(b, r, c), k);
  }

  /** However it is sliced, once a blit is over every bit of every word of its rectangle is what the
      masks, the truth table, the halftone pattern and the skewed source say. */
  lemma BlitBits(b: Machine, errors: seq<bool>, r: nat, c: nat, k: nat)
    requires AtStart(b) && NoFeedback(b) && !b.v.hog && Slices(b, errors).r.yCount == 0
    requires r < Y(b) && c < X(b) && k < 16 && DstCell(b, r, c) in b.mem
    ensures Bit(ReadMem(Slices(b, errors).mem, DstCell(b, r, c)), k) == NewBit(b, r, c, k)
  {
    hide Bit, NewBit, Result, Slices, ReadMem, NoFeedback, DstCell, AtStart;
    assert Valid(b) by { StartValid(b); }
    SlicedBlit(b, errors);
    ResultBit(b, r, c, k);
  }

  lemma StartValid(b: Machine)
    requires AtStart(b)
    ensures Valid(b)
  {
  }
}
