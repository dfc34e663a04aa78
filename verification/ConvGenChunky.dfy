/** Planar to chunky: the masked-swap network that turns 16 pixels of bit planes into 16
    palette indexes, and the bit-by-bit meaning it is proved against. */
module ConvGenChunky {

  /** The byte of plane p that holds pixel i of the 16 pixels stored at `at`: planes are
      big-endian words one after the other, and missing planes are empty. */
  function PlaneByte(m: seq<bv8>, at: nat, planes: nat, p: nat, i: nat): bv8
    requires at + 2 * planes <= |m|
  {
    if p >= planes then 0 else if i < 8 then m[at + 2 * p] else m[at + 2 * p + 1]
  }

  /** Palette index of pixel i: bit 15 - i of each plane word, plane p weighing 2^p. */
  function Pixel(m: seq<bv8>, at: nat, planes: nat, i: nat): bv8
    requires i < 16 && at + 2 * planes <= |m|
  {
    var k := if i < 8 then 7 - i else 15 - i;
    Gather(PlaneByte(m, at, planes, 0, i), PlaneByte(m, at, planes, 1, i), PlaneByte(m, at, planes, 2, i),
           PlaneByte(m, at, planes, 3, i), PlaneByte(m, at, planes, 4, i), PlaneByte(m, at, planes, 5, i),
           PlaneByte(m, at, planes, 6, i), PlaneByte(m, at, planes, 7, i), k)
  }

  function Gather(p0: bv8, p1: bv8, p2: bv8, p3: bv8, p4: bv8, p5: bv8, p6: bv8, p7: bv8, k: nat): bv8
    requires k < 8
  {
    ((p0 >> k) & 1) | (((p1 >> k) & 1) << 1) | (((p2 >> k) & 1) << 2) | (((p3 >> k) & 1) << 3)
    | (((p4 >> k) & 1) << 4) | (((p5 >> k) & 1) << 5) | (((p6 >> k) & 1) << 6) | (((p7 >> k) & 1) << 7)
  }

  /** Masks and shifts on 16 bytes of planes, with what they come to as plain formulas of bits. */
  method MaskAndShift(m0: bv8, m1: bv8, m2: bv8, m3: bv8, m4: bv8, m5: bv8, m6: bv8, m7: bv8,
    m8: bv8, m9: bv8, m10: bv8, m11: bv8, m12: bv8, m13: bv8, m14: bv8, m15: bv8)
    returns (q0: bv8, q1: bv8, q2: bv8, q3: bv8, q4: bv8, q5: bv8, q6: bv8, q7: bv8,
             q8: bv8, q9: bv8, q10: bv8, q11: bv8, q12: bv8, q13: bv8, q14: bv8, q15: bv8)
    ensures q0 == ((m0 >> 7) & 1) | (((m2 >> 7) & 1) << 1) | (((m4 >> 7) & 1) << 2) | (((m6 >> 7) & 1) << 3) | (((m8 >> 7) & 1) << 4) | (((m10 >> 7) & 1) << 5) | (((m12 >> 7) & 1) << 6) | (((m14 >> 7) & 1) << 7)
    ensures q1 == ((m0 >> 6) & 1) | (((m2 >> 6) & 1) << 1) | (((m4 >> 6) & 1) << 2) | (((m6 >> 6) & 1) << 3) | (((m8 >> 6) & 1) << 4) | (((m10 >> 6) & 1) << 5) | (((m12 >> 6) & 1) << 6) | (((m14 >> 6) & 1) << 7)
    ensures q2 == ((m0 >> 5) & 1) | (((m2 >> 5) & 1) << 1) | (((m4 >> 5) & 1) << 2) | (((m6 >> 5) & 1) << 3) | (((m8 >> 5) & 1) << 4) | (((m10 >> 5) & 1) << 5) | (((m12 >> 5) & 1) << 6) | (((m14 >> 5) & 1) << 7)
    ensures q3 == ((m0 >> 4) & 1) | (((m2 >> 4) & 1) << 1) | (((m4 >> 4) & 1) << 2) | (((m6 >> 4) & 1) << 3) | (((m8 >> 4) & 1) << 4) | (((m10 >> 4) & 1) << 5) | (((m12 >> 4) & 1) << 6) | (((m14 >> 4) & 1) << 7)
    ensures q4 == ((m0 >> 3) & 1) | (((m2 >> 3) & 1) << 1) | (((m4 >> 3) & 1) << 2) | (((m6 >> 3) & 1) << 3) | (((m8 >> 3) & 1) << 4) | (((m10 >> 3) & 1) << 5) | (((m12 >> 3) & 1) << 6) | (((m14 >> 3) & 1) << 7)
    ensures q5 == ((m0 >> 2) & 1) | (((m2 >> 2) & 1) << 1) | (((m4 >> 2) & 1) << 2) | (((m6 >> 2) & 1) << 3) | (((m8 >> 2) & 1) << 4) | (((m10 >> 2) & 1) << 5) | (((m12 >> 2) & 1) << 6) | (((m14 >> 2) & 1) << 7)
    ensures q6 == ((m0 >> 1) & 1) | (((m2 >> 1) & 1) << 1) | (((m4 >> 1) & 1) << 2) | (((m6 >> 1) & 1) << 3) | (((m8 >> 1) & 1) << 4) | (((m10 >> 1) & 1) << 5) | (((m12 >> 1) & 1) << 6) | (((m14 >> 1) & 1) << 7)
    ensures q7 == ((m0 >> 0) & 1) | (((m2 >> 0) & 1) << 1) | (((m4 >> 0) & 1) << 2) | (((m6 >> 0) & 1) << 3) | (((m8 >> 0) & 1) << 4) | (((m10 >> 0) & 1) << 5) | (((m12 >> 0) & 1) << 6) | (((m14 >> 0) & 1) << 7)
    ensures q8 == ((m1 >> 7) & 1) | (((m3 >> 7) & 1) << 1) | (((m5 >> 7) & 1) << 2) | (((m7 >> 7) & 1) << 3) | (((m9 >> 7) & 1) << 4) | (((m11 >> 7) & 1) << 5) | (((m13 >> 7) & 1) << 6) | (((m15 >> 7) & 1) << 7)
    ensures q9 == ((m1 >> 6) & 1) | (((m3 >> 6) & 1) << 1) | (((m5 >> 6) & 1) << 2) | (((m7 >> 6) & 1) << 3) | (((m9 >> 6) & 1) << 4) | (((m11 >> 6) & 1) << 5) | (((m13 >> 6) & 1) << 6) | (((m15 >> 6) & 1) << 7)
    ensures q10 == ((m1 >> 5) & 1) | (((m3 >> 5) & 1) << 1) | (((m5 >> 5) & 1) << 2) | (((m7 >> 5) & 1) << 3) | (((m9 >> 5) & 1) << 4) | (((m11 >> 5) & 1) << 5) | (((m13 >> 5) & 1) << 6) | (((m15 >> 5) & 1) << 7)
    ensures q11 == ((m1 >> 4) & 1) | (((m3 >> 4) & 1) << 1) | (((m5 >> 4) & 1) << 2) | (((m7 >> 4) & 1) << 3) | (((m9 >> 4) & 1) << 4) | (((m11 >> 4) & 1) << 5) | (((m13 >> 4) & 1) << 6) | (((m15 >> 4) & 1) << 7)
    ensures q12 == ((m1 >> 3) & 1) | (((m3 >> 3) & 1) << 1) | (((m5 >> 3) & 1) << 2) | (((m7 >> 3) & 1) << 3) | (((m9 >> 3) & 1) << 4) | (((m11 >> 3) & 1) << 5) | (((m13 >> 3) & 1) << 6) | (((m15 >> 3) & 1) << 7)
    ensures q13 == ((m1 >> 2) & 1) | (((m3 >> 2) & 1) << 1) | (((m5 >> 2) & 1) << 2) | (((m7 >> 2) & 1) << 3) | (((m9 >> 2) & 1) << 4) | (((m11 >> 2) & 1) << 5) | (((m13 >> 2) & 1) << 6) | (((m15 >> 2) & 1) << 7)
    ensures q14 == ((m1 >> 1) & 1) | (((m3 >> 1) & 1) << 1) | (((m5 >> 1) & 1) << 2) | (((m7 >> 1) & 1) << 3) | (((m9 >> 1) & 1) << 4) | (((m11 >> 1) & 1) << 5) | (((m13 >> 1) & 1) << 6) | (((m15 >> 1) & 1) << 7)
    ensures q15 == ((m1 >> 0) & 1) | (((m3 >> 0) & 1) << 1) | (((m5 >> 0) & 1) << 2) | (((m7 >> 0) & 1) << 3) | (((m9 >> 0) & 1) << 4) | (((m11 >> 0) & 1) << 5) | (((m13 >> 0) & 1) << 6) | (((m15 >> 0) & 1) << 7)
  {
    var d := (m0 as bv32) | ((m1 as bv32) << 8) | ((m2 as bv32) << 16) | ((m3 as bv32) << 24);
    var c := (m4 as bv32) | ((m5 as bv32) << 8) | ((m6 as bv32) << 16) | ((m7 as bv32) << 24);
    var b := (m8 as bv32) | ((m9 as bv32) << 8) | ((m10 as bv32) << 16) | ((m11 as bv32) << 24);
    var a := (m12 as bv32) | ((m13 as bv32) << 8) | ((m14 as bv32) << 16) | ((m15 as bv32) << 24);
    var x := a;
    a := (a & 0xf0f0f0f0) | ((c & 0xf0f0f0f0) >> 4);
    c := ((x & 0x0f0f0f0f) << 4) | (c & 0x0f0f0f0f);
    x := b;
    b := (b & 0xf0f0f0f0) | ((d & 0xf0f0f0f0) >> 4);
    d := ((x & 0x0f0f0f0f) << 4) | (d & 0x0f0f0f0f);
    x := a;
    a := (a & 0xcccccccc) | ((b & 0xcccccccc) >> 2);
    b := ((x & 0x33333333) << 2) | (b & 0x33333333);
    x := c;
    c := (c & 0xcccccccc) | ((d & 0xcccccccc) >> 2);
    d := ((x & 0x33333333) << 2) | (d & 0x33333333);
    a := (a & 0xaaaa5555) | ((a & 0x0000aaaa) << 15) | ((a & 0x55550000) >> 15);
    b := (b & 0xaaaa5555) | ((b & 0x0000aaaa) << 15) | ((b & 0x55550000) >> 15);
    c := (c & 0xaaaa5555) | ((c & 0x0000aaaa) << 15) | ((c & 0x55550000) >> 15);
    d := (d & 0xaaaa5555) | ((d & 0x0000aaaa) << 15) | ((d & 0x55550000) >> 15);
    q0 := ((a >> 16) & 0xff) as bv8;
    q1 := ((a >> 0) & 0xff) as bv8;
    q2 := ((b >> 16) & 0xff) as bv8;
    q3 := ((b >> 0) & 0xff) as bv8;
    q4 := ((c >> 16) & 0xff) as bv8;
    q5 := ((c >> 0) & 0xff) as bv8;
    q6 := ((d >> 16) & 0xff) as bv8;
    q7 := ((d >> 0) & 0xff) as bv8;
    q8 := ((a >> 24) & 0xff) as bv8;
    q9 := ((a >> 8) & 0xff) as bv8;
    q10 := ((b >> 24) & 0xff) as bv8;
    q11 := ((b >> 8) & 0xff) as bv8;
    q12 := ((c >> 24) & 0xff) as bv8;
    q13 := ((c >> 8) & 0xff) as bv8;
    q14 := ((d >> 24) & 0xff) as bv8;
    q15 := ((d >> 8) & 0xff) as bv8;
  }

  // `Gather` at each place, in the form of those formulas.

  lemma Gather0(p0: bv8, p1: bv8, p2: bv8, p3: bv8, p4: bv8, p5: bv8, p6: bv8, p7: bv8)
    ensures Gather(p0, p1, p2, p3, p4, p5, p6, p7, 0) ==
      ((p0 >> 0) & 1) | (((p1 >> 0) & 1) << 1) | (((p2 >> 0) & 1) << 2) | (((p3 >> 0) & 1) << 3) | (((p4 >> 0) & 1) << 4) | (((p5 >> 0) & 1) << 5) | (((p6 >> 0) & 1) << 6) | (((p7 >> 0) & 1) << 7)
  {
  }

  lemma Gather1(p0: bv8, p1: bv8, p2: bv8, p3: bv8, p4: bv8, p5: bv8, p6: bv8, p7: bv8)
    ensures Gather(p0, p1, p2, p3, p4, p5, p6, p7, 1) ==
      ((p0 >> 1) & 1) | (((p1 >> 1) & 1) << 1) | (((p2 >> 1) & 1) << 2) | (((p3 >> 1) & 1) << 3) | (((p4 >> 1) & 1) << 4) | (((p5 >> 1) & 1) << 5) | (((p6 >> 1) & 1) << 6) | (((p7 >> 1) & 1) << 7)
  {
  }

  lemma Gather2(p0: bv8, p1: bv8, p2: bv8, p3: bv8, p4: bv8, p5: bv8, p6: bv8, p7: bv8)
    ensures Gather(p0, p1, p2, p3, p4, p5, p6, p7, 2) ==
      ((p0 >> 2) & 1) | (((p1 >> 2) & 1) << 1) | (((p2 >> 2) & 1) << 2) | (((p3 >> 2) & 1) << 3) | (((p4 >> 2) & 1) << 4) | (((p5 >> 2) & 1) << 5) | (((p6 >> 2) & 1) << 6) | (((p7 >> 2) & 1) << 7)
  {
  }

  lemma Gather3(p0: bv8, p1: bv8, p2: bv8, p3: bv8, p4: bv8, p5: bv8, p6: bv8, p7: bv8)
    ensures Gather(p0, p1, p2, p3, p4, p5, p6, p7, 3) ==
      ((p0 >> 3) & 1) | (((p1 >> 3) & 1) << 1) | (((p2 >> 3) & 1) << 2) | (((p3 >> 3) & 1) << 3) | (((p4 >> 3) & 1) << 4) | (((p5 >> 3) & 1) << 5) | (((p6 >> 3) & 1) << 6) | (((p7 >> 3) & 1) << 7)
  {
  }

  lemma Gather4(p0: bv8, p1: bv8, p2: bv8, p3: bv8, p4: bv8, p5: bv8, p6: bv8, p7: bv8)
    ensures Gather(p0, p1, p2, p3, p4, p5, p6, p7, 4) ==
      ((p0 >> 4) & 1) | (((p1 >> 4) & 1) << 1) | (((p2 >> 4) & 1) << 2) | (((p3 >> 4) & 1) << 3) | (((p4 >> 4) & 1) << 4) | (((p5 >> 4) & 1) << 5) | (((p6 >> 4) & 1) << 6) | (((p7 >> 4) & 1) << 7)
  {
  }

  lemma Gather5(p0: bv8, p1: bv8, p2: bv8, p3: bv8, p4: bv8, p5: bv8, p6: bv8, p7: bv8)
    ensures Gather(p0, p1, p2, p3, p4, p5, p6, p7, 5) ==
      ((p0 >> 5) & 1) | (((p1 >> 5) & 1) << 1) | (((p2 >> 5) & 1) << 2) | (((p3 >> 5) & 1) << 3) | (((p4 >> 5) & 1) << 4) | (((p5 >> 5) & 1) << 5) | (((p6 >> 5) & 1) << 6) | (((p7 >> 5) & 1) << 7)
  {
  }

  lemma Gather6(p0: bv8, p1: bv8, p2: bv8, p3: bv8, p4: bv8, p5: bv8, p6: bv8, p7: bv8)
    ensures Gather(p0, p1, p2, p3, p4, p5, p6, p7, 6) ==
      ((p0 >> 6) & 1) | (((p1 >> 6) & 1) << 1) | (((p2 >> 6) & 1) << 2) | (((p3 >> 6) & 1) << 3) | (((p4 >> 6) & 1) << 4) | (((p5 >> 6) & 1) << 5) | (((p6 >> 6) & 1) << 6) | (((p7 >> 6) & 1) << 7)
  {
  }

  lemma Gather7(p0: bv8, p1: bv8, p2: bv8, p3: bv8, p4: bv8, p5: bv8, p6: bv8, p7: bv8)
    ensures Gather(p0, p1, p2, p3, p4, p5, p6, p7, 7) ==
      ((p0 >> 7) & 1) | (((p1 >> 7) & 1) << 1) | (((p2 >> 7) & 1) << 2) | (((p3 >> 7) & 1) << 3) | (((p4 >> 7) & 1) << 4) | (((p5 >> 7) & 1) << 5) | (((p6 >> 7) & 1) << 6) | (((p7 >> 7) & 1) << 7)
  {
  }

  /** The network, missing planes empty: each result byte collects one bit of every plane. */
  method Network(m0: bv8, m1: bv8, m2: bv8, m3: bv8, m4: bv8, m5: bv8, m6: bv8, m7: bv8,
    m8: bv8, m9: bv8, m10: bv8, m11: bv8, m12: bv8, m13: bv8, m14: bv8, m15: bv8)
    returns (q0: bv8, q1: bv8, q2: bv8, q3: bv8, q4: bv8, q5: bv8, q6: bv8, q7: bv8,
             q8: bv8, q9: bv8, q10: bv8, q11: bv8, q12: bv8, q13: bv8, q14: bv8, q15: bv8)
    ensures q0 == Gather(m0, m2, m4, m6, m8, m10, m12, m14, 7)
    ensures q1 == Gather(m0, m2, m4, m6, m8, m10, m12, m14, 6)
    ensures q2 == Gather(m0, m2, m4, m6, m8, m10, m12, m14, 5)
    ensures q3 == Gather(m0, m2, m4, m6, m8, m10, m12, m14, 4)
    ensures q4 == Gather(m0, m2, m4, m6, m8, m10, m12, m14, 3)
    ensures q5 == Gather(m0, m2, m4, m6, m8, m10, m12, m14, 2)
    ensures q6 == Gather(m0, m2, m4, m6, m8, m10, m12, m14, 1)
    ensures q7 == Gather(m0, m2, m4, m6, m8, m10, m12, m14, 0)
    ensures q8 == Gather(m1, m3, m5, m7, m9, m11, m13, m15, 7)
    ensures q9 == Gather(m1, m3, m5, m7, m9, m11, m13, m15, 6)
    ensures q10 == Gather(m1, m3, m5, m7, m9, m11, m13, m15, 5)
    ensures q11 == Gather(m1, m3, m5, m7, m9, m11, m13, m15, 4)
    ensures q12 == Gather(m1, m3, m5, m7, m9, m11, m13, m15, 3)
    ensures q13 == Gather(m1, m3, m5, m7, m9, m11, m13, m15, 2)
    ensures q14 == Gather(m1, m3, m5, m7, m9, m11, m13, m15, 1)
    ensures q15 == Gather(m1, m3, m5, m7, m9, m11, m13, m15, 0)
  {
    hide Gather;
    q0, q1, q2, q3, q4, q5, q6, q7, q8, q9, q10, q11, q12, q13, q14, q15 :=
      MaskAndShift(m0, m1, m2, m3, m4, m5, m6, m7, m8, m9, m10, m11, m12, m13, m14, m15);
    Gather7(m0, m2, m4, m6, m8, m10, m12, m14);
    Gather6(m0, m2, m4, m6, m8, m10, m12, m14);
    Gather5(m0, m2, m4, m6, m8, m10, m12, m14);
    Gather4(m0, m2, m4, m6, m8, m10, m12, m14);
    Gather3(m0, m2, m4, m6, m8, m10, m12, m14);
    Gather2(m0, m2, m4, m6, m8, m10, m12, m14);
    Gather1(m0, m2, m4, m6, m8, m10, m12, m14);
    Gather0(m0, m2, m4, m6, m8, m10, m12, m14);
    Gather7(m1, m3, m5, m7, m9, m11, m13, m15);
    Gather6(m1, m3, m5, m7, m9, m11, m13, m15);
    Gather5(m1, m3, m5, m7, m9, m11, m13, m15);
    Gather4(m1, m3, m5, m7, m9, m11, m13, m15);
    Gather3(m1, m3, m5, m7, m9, m11, m13, m15);
    Gather2(m1, m3, m5, m7, m9, m11, m13, m15);
    Gather1(m1, m3, m5, m7, m9, m11, m13, m15);
    Gather0(m1, m3, m5, m7, m9, m11, m13, m15);
  }

  /** Eight pixels in a row, from the eight plane bytes they share. */
  method Eight(p0: bv8, p1: bv8, p2: bv8, p3: bv8, p4: bv8, p5: bv8, p6: bv8, p7: bv8,
    q0: bv8, q1: bv8, q2: bv8, q3: bv8, q4: bv8, q5: bv8, q6: bv8, q7: bv8)
    returns (px: seq<bv8>)
    requires q0 == Gather(p0, p1, p2, p3, p4, p5, p6, p7, 7)
    requires q1 == Gather(p0, p1, p2, p3, p4, p5, p6, p7, 6)
    requires q2 == Gather(p0, p1, p2, p3, p4, p5, p6, p7, 5)
    requires q3 == Gather(p0, p1, p2, p3, p4, p5, p6, p7, 4)
    requires q4 == Gather(p0, p1, p2, p3, p4, p5, p6, p7, 3)
    requires q5 == Gather(p0, p1, p2, p3, p4, p5, p6, p7, 2)
    requires q6 == Gather(p0, p1, p2, p3, p4, p5, p6, p7, 1)
    requires q7 == Gather(p0, p1, p2, p3, p4, p5, p6, p7, 0)
    ensures |px| == 8 && forall i :: 0 <= i < 8 ==> px[i] == Gather(p0, p1, p2, p3, p4, p5, p6, p7, 7 - i)
  {
    hide Gather;
    px := [q0, q1, q2, q3, q4, q5, q6, q7];
  }

  method Bytes(m0: bv8, m1: bv8, m2: bv8, m3: bv8, m4: bv8, m5: bv8, m6: bv8, m7: bv8,
    m8: bv8, m9: bv8, m10: bv8, m11: bv8, m12: bv8, m13: bv8, m14: bv8, m15: bv8)
    returns (px: seq<bv8>)
    ensures |px| == 16
    ensures forall i :: 0 <= i < 8 ==> px[i] == Gather(m0, m2, m4, m6, m8, m10, m12, m14, 7 - i)
    ensures forall i :: 8 <= i < 16 ==> px[i] == Gather(m1, m3, m5, m7, m9, m11, m13, m15, 15 - i)
  {
    hide Gather;
    var q0, q1, q2, q3, q4, q5, q6, q7, q8, q9, q10, q11, q12, q13, q14, q15 :=
      Network(m0, m1, m2, m3, m4, m5, m6, m7, m8, m9, m10, m11, m12, m13, m14, m15);
    var left := Eight(m0, m2, m4, m6, m8, m10, m12, m14, q0, q1, q2, q3, q4, q5, q6, q7);
    var right := Eight(m1, m3, m5, m7, m9, m11, m13, m15, q8, q9, q10, q11, q12, q13, q14, q15);
    px := left + right;
  }

  /** Palette indexes of 16 pixels, as the emulator computes them. */
  method BitplaneToChunky(m: seq<bv8>, at: nat, planes: nat) returns (px: seq<bv8>)
    requires planes in {1, 2, 4, 8} && at + 2 * planes <= |m|
    ensures |px| == 16 && forall i :: 0 <= i < 16 ==> px[i] == Pixel(m, at, planes, i)
  {
    hide Gather;
    if planes == 8 {
      px := Bytes(m[at], m[at + 1], m[at + 2], m[at + 3], m[at + 4], m[at + 5], m[at + 6], m[at + 7],
        m[at + 8], m[at + 9], m[at + 10], m[at + 11], m[at + 12], m[at + 13], m[at + 14], m[at + 15]);
    } else if planes == 4 {
      px := Bytes(m[at], m[at + 1], m[at + 2], m[at + 3], m[at + 4], m[at + 5], m[at + 6], m[at + 7],
        0, 0, 0, 0, 0, 0, 0, 0);
    } else if planes == 2 {
      px := Bytes(m[at], m[at + 1], m[at + 2], m[at + 3], 0, 0, 0, 0, 0, 0, 0, 0, 0, 0, 0, 0);
    } else {
      px := Bytes(m[at], m[at + 1], 0, 0, 0, 0, 0, 0, 0, 0, 0, 0, 0, 0, 0, 0);
    }
  }
}
