/** Words bit by bit. The operations have names so that the laws about bits can be used without
    looking into them. */
module Bits {

  function And(s: bv16, d: bv16): bv16 { s & d }
  function Or(s: bv16, d: bv16): bv16 { s | d }
  function Xor(s: bv16, d: bv16): bv16 { s ^ d }
  function Not(s: bv16): bv16 { !s }

  function Wide(w: bv16): bv32 { w as bv32 }
  function Up(w: bv16): bv32 { (w as bv32) << 16 }
  function Low(w: bv32): bv16 { (w & 0xFFFF) as bv16 }

  predicate Odd(w: bv32) { w & 1 == 1 }
  function Half(w: bv32): bv32 { w >> 1 }
  function And32(s: bv32, d: bv32): bv32 { s & d }
  function Or32(s: bv32, d: bv32): bv32 { s | d }
  function Xor32(s: bv32, d: bv32): bv32 { s ^ d }

  /** Bit k of a long word, and of a word. */
  predicate BitAt(w: bv32, k: nat) {
    if k == 0 then Odd(w) else BitAt(Half(w), k - 1)
  }

  predicate Bit(w: bv16, k: nat) { BitAt(Wide(w), k) }

  // ----- long words -----

  lemma LowAnd(s: bv32, d: bv32)
    ensures Odd(And32(s, d)) == (Odd(s) && Odd(d)) && Half(And32(s, d)) == And32(Half(s), Half(d))
  {
  }

  lemma LowOr(s: bv32, d: bv32)
    ensures Odd(Or32(s, d)) == (Odd(s) || Odd(d)) && Half(Or32(s, d)) == Or32(Half(s), Half(d))
  {
  }

  lemma LowXor(s: bv32, d: bv32)
    ensures Odd(Xor32(s, d)) == (Odd(s) != Odd(d)) && Half(Xor32(s, d)) == Xor32(Half(s), Half(d))
  {
  }

  lemma {:induction false} AndAt(s: bv32, d: bv32, k: nat)
    ensures BitAt(And32(s, d), k) == (BitAt(s, k) && BitAt(d, k))
    decreases k
  {
    hide Odd, Half, And32;
    LowAnd(s, d);
    if k > 0 { AndAt(Half(s), Half(d), k - 1); }
  }

  lemma {:induction false} OrAt(s: bv32, d: bv32, k: nat)
    ensures BitAt(Or32(s, d), k) == (BitAt(s, k) || BitAt(d, k))
    decreases k
  {
    hide Odd, Half, Or32;
    LowOr(s, d);
    if k > 0 { OrAt(Half(s), Half(d), k - 1); }
  }

  lemma {:induction false} XorAt(s: bv32, d: bv32, k: nat)
    ensures BitAt(Xor32(s, d), k) == (BitAt(s, k) != BitAt(d, k))
    decreases k
  {
    hide Odd, Half, Xor32;
    LowXor(s, d);
    if k > 0 { XorAt(Half(s), Half(d), k - 1); }
  }

  /** The long word with n ones at the bottom. */
  function Ones(n: nat): bv32 { if n == 0 then 0 else Double(Ones(n - 1)) }

  function Double(w: bv32): bv32 { (w << 1) | 1 }

  lemma OnesValues()
    ensures Ones(0) == 0 && Ones(1) == 1 && Ones(2) == 3 && Ones(3) == 7 && Ones(4) == 15 && Ones(5) == 0x1F
    ensures Ones(6) == 0x3F && Ones(7) == 0x7F && Ones(8) == 0xFF && Ones(9) == 0x1FF && Ones(10) == 0x3FF
    ensures Ones(11) == 0x7FF && Ones(12) == 0xFFF && Ones(13) == 0x1FFF && Ones(14) == 0x3FFF && Ones(15) == 0x7FFF
    ensures Ones(16) == 0xFFFF
  {
    assert Ones(4) == 15;
    assert Ones(8) == 0xFF;
    assert Ones(12) == 0xFFF;
  }

  lemma HalfDouble(w: bv32)
    requires w <= 0x7FFF
    ensures Odd(Double(w)) && Half(Double(w)) == w
  {
  }

  lemma NoBit()
    ensures !Odd(0) && Half(0) == 0
  {
  }

  lemma {:induction false} ZeroAt(k: nat)
    ensures !BitAt(0, k)
  {
    hide Odd, Half;
    NoBit();
    if k > 0 { ZeroAt(k - 1); }
  }

  lemma OnesFit(n: nat)
    requires n < 16
    ensures Ones(n) <= 0x7FFF
  {
    OnesValues();
  }

  lemma {:induction false} OnesAt(n: nat, k: nat)
    requires n <= 16
    ensures BitAt(Ones(n), k) == (k < n)
  {
    hide Odd, Half, Double;
    if n == 0 {
      ZeroAt(k);
    } else {
      OnesFit(n - 1);
      HalfDouble(Ones(n - 1));
      if k > 0 { OnesAt(n - 1, k - 1); }
    }
  }

  lemma FullAt(k: nat)
    ensures BitAt(0xFFFF, k) == (k < 16)
  {
    hide BitAt, Ones;
    OnesValues();
    OnesAt(16, k);
  }

  // ----- words -----

  lemma WideAnd(s: bv16, d: bv16)
    ensures Wide(And(s, d)) == And32(Wide(s), Wide(d))
  {
  }

  lemma WideOr(s: bv16, d: bv16)
    ensures Wide(Or(s, d)) == Or32(Wide(s), Wide(d))
  {
  }

  lemma WideXor(s: bv16, d: bv16)
    ensures Wide(Xor(s, d)) == Xor32(Wide(s), Wide(d))
  {
  }

  lemma NotOps(s: bv16)
    ensures And(s, Not(s)) == 0 && Or(s, Not(s)) == 0xFFFF
  {
  }

  lemma AndBit(s: bv16, d: bv16, k: nat)
    ensures Bit(And(s, d), k) == (Bit(s, k) && Bit(d, k))
  {
    hide BitAt, Wide, And, And32;
    WideAnd(s, d);
    AndAt(Wide(s), Wide(d), k);
  }

  lemma OrBit(s: bv16, d: bv16, k: nat)
    ensures Bit(Or(s, d), k) == (Bit(s, k) || Bit(d, k))
  {
    hide BitAt, Wide, Or, Or32;
    WideOr(s, d);
    OrAt(Wide(s), Wide(d), k);
  }

  lemma XorBit(s: bv16, d: bv16, k: nat)
    ensures Bit(Xor(s, d), k) == (Bit(s, k) != Bit(d, k))
  {
    hide BitAt, Wide, Xor, Xor32;
    WideXor(s, d);
    XorAt(Wide(s), Wide(d), k);
  }

  lemma WideConst()
    ensures Wide(0) == 0 && Wide(0xFFFF) == 0xFFFF
  {
  }

  lemma ConstBit(k: nat)
    requires k < 16
    ensures !Bit(0, k) && Bit(0xFFFF, k)
  {
    hide BitAt, Wide;
    WideConst();
    ZeroAt(k);
    FullAt(k);
  }

  lemma NotBit(s: bv16, k: nat)
    requires k < 16
    ensures Bit(Not(s), k) == !Bit(s, k)
  {
    hide Bit, And, Or, Not;
    NotOps(s);
    AndBit(s, Not(s), k);
    OrBit(s, Not(s), k);
    ConstBit(k);
  }

  // ----- two words in a long word -----

  lemma WideInside(w: bv16)
    ensures And32(Wide(w), 0xFFFF) == Wide(w) && And32(Up(w), 0xFFFF) == 0
  {
  }

  lemma WideLow(w: bv32)
    ensures Wide(Low(w)) == And32(w, 0xFFFF)
  {
  }

  lemma LowBit(w: bv32, k: nat)
    requires k < 16
    ensures Bit(Low(w), k) == BitAt(w, k)
  {
    hide BitAt, Wide, Low, And32;
    WideLow(w);
    AndAt(w, 0xFFFF, k);
    FullAt(k);
  }

  function Halves(w: bv32, n: nat): bv32 { if n == 0 then w else Halves(Half(w), n - 1) }

  lemma {:induction false} HalvesAt(w: bv32, n: nat, k: nat)
    ensures BitAt(Halves(w, n), k) == BitAt(w, k + n)
    decreases n
  {
    hide Odd, Half;
    if n > 0 { HalvesAt(Half(w), n - 1, k); }
  }

  lemma {:induction false} HalvesMore(w: bv32, n: nat, m: nat)
    ensures Halves(Halves(w, n), m) == Halves(w, n + m)
    decreases n
  {
    hide Half;
    if n > 0 { HalvesMore(Half(w), n - 1, m); }
  }

  function Four(w: bv32): bv32 { w >> 4 }

  lemma FourHalves(w: bv32)
    ensures Halves(w, 4) == Four(w)
  {
    FourIs(w);
    hide Half, Four;
    assert Halves(w, 4) == Halves(Half(w), 3) == Halves(Half(Half(w)), 2);
    assert Halves(Half(Half(w)), 2) == Halves(Half(Half(Half(w))), 1);
  }

  lemma FourIs(w: bv32)
    ensures Four(w) == Half(Half(Half(Half(w))))
  {
  }

  lemma UpDown(w: bv16)
    ensures Four(Four(Four(Four(Up(w))))) == Wide(w)
  {
  }

  lemma SixteenHalves(w: bv32)
    ensures Halves(w, 16) == Four(Four(Four(Four(w))))
  {
    hide Halves, Four;
    FourHalves(w);
    FourHalves(Four(w));
    FourHalves(Four(Four(w)));
    FourHalves(Four(Four(Four(w))));
    HalvesMore(w, 4, 4);
    HalvesMore(w, 8, 4);
    HalvesMore(w, 12, 4);
  }

  function Shifted(w: bv32, n: nat): bv32
    requires n < 32
  {
    w >> n
  }

  function ShiftedBy(w: bv32, a: bv6): bv32
    requires a < 32
  {
    w >> a
  }

  lemma OneFurther(w: bv32, a: bv6)
    requires a < 31
    ensures ShiftedBy(w, a + 1) == ShiftedBy(Half(w), a)
  {
  }

  lemma NotShifted(w: bv32)
    ensures Shifted(w, 0) == w
  {
  }

  lemma Place(n: nat)
    requires n < 32
    ensures (n as bv6) as int == n && n as bv6 < 32
  {
  }

  lemma ShiftedPlace(w: bv32, n: nat)
    requires n < 32
    ensures n as bv6 < 32 && Shifted(w, n) == ShiftedBy(w, n as bv6)
  {
    Place(n);
  }

  lemma PlaceAfter(a: bv6, b: bv6)
    requires a < 31 && b as int == a as int + 1
    ensures b == a + 1
  {
  }

  lemma {:induction false} ShiftedHalves(w: bv32, n: nat)
    requires n < 32
    ensures Shifted(w, n) == Halves(w, n)
    decreases n
  {
    hide Shifted, ShiftedBy, Half;
    if n == 0 {
      NotShifted(w);
    } else {
      ShiftedHalves(Half(w), n - 1);
      ShiftedPlace(w, n);
      ShiftedPlace(Half(w), n - 1);
      Place(n);
      Place(n - 1);
      assert (n - 1) as bv6 < 31;
      PlaceAfter((n - 1) as bv6, n as bv6);
      OneFurther(w, (n - 1) as bv6);
    }
  }

  /** The lower word fills bits 0 to 15, the upper one bits 16 to 31. */
  lemma PairAt(high: bv16, low: bv16, i: nat)
    requires i < 32
    ensures BitAt(Or32(Up(high), Wide(low)), i) == if i < 16 then Bit(low, i) else Bit(high, i - 16)
  {
    hide BitAt, Wide, Up, And32, Or32, Halves;
    OrAt(Up(high), Wide(low), i);
    WideInside(low);
    WideInside(high);
    AndAt(Wide(low), 0xFFFF, i);
    AndAt(Up(high), 0xFFFF, i);
    FullAt(i);
    ZeroAt(i);
    if i >= 16 {
      UpHalves(high);
      HalvesAt(Up(high), 16, i - 16);
    }
  }

  lemma UpHalves(w: bv16)
    ensures Halves(Up(w), 16) == Wide(w)
  {
    hide Halves, Up, Wide, Four;
    SixteenHalves(Up(w));
    UpDown(w);
  }
}
