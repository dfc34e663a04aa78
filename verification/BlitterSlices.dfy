/** Cutting a blit into bus slices changes nothing the program can observe. */
module BlitterSlices {
  import opened BlitterCore

  /** Equal up to the bus accounting: control byte, hog flag, access counter and resume flag. */
  predicate Same(a: Machine, b: Machine) {
    a == b.(r := b.r.(ctrl := a.r.ctrl), v := b.v.(hog := a.v.hog),
            s := b.s.(countBus := a.s.countBus, continueLater := a.s.continueLater))
  }

  lemma SetupSame(a: Machine, b: Machine)
    requires Same(a, b)
    ensures Same(Setup(a), Setup(b))
  {
    hide LopNeedsDst;
    assert EndMask(a) == EndMask(b) && NeedSrc(a) == NeedSrc(b);
  }

  lemma FxsrSame(a: Machine, b: Machine)
    requires Same(a, b)
    ensures Same(FxsrPhase(a), FxsrPhase(b))
  {
    hide ShiftIn, Wrap, ReadMem;
  }

  lemma SrcSame(a: Machine, b: Machine)
    requires Same(a, b)
    ensures Same(SrcPhase(a), SrcPhase(b))
  {
    hide ShiftIn, Wrap, ReadMem;
  }

  lemma DstSame(a: Machine, b: Machine)
    requires Same(a, b)
    ensures Same(DstPhase(a), DstPhase(b))
  {
    hide ShiftIn, Wrap, ReadMem;
  }

  lemma FetchSame(a: Machine, b: Machine)
    requires Same(a, b)
    ensures Same(Fetch(a), Fetch(b))
  {
    hide FxsrPhase, SrcPhase, DstPhase, Same;
    FxsrSame(a, b);
    SrcSame(FxsrPhase(a), FxsrPhase(b));
    DstSame(SrcPhase(FxsrPhase(a)), SrcPhase(FxsrPhase(b)));
  }

  lemma NfsrFeedSame(a: Machine, b: Machine)
    requires Same(a, b)
    ensures Same(NfsrFeed(a), NfsrFeed(b))
  {
    hide ShiftIn;
  }

  lemma WriteSame(a: Machine, b: Machine)
    requires Same(a, b) && Valid(a) && Valid(b)
    ensures Same(WritePhase(a), WritePhase(b))
  {
    hide ShiftIn, WriteMem, WordOf, SourceRead, NfsrFeed;
    NfsrFeedSame(a, b);
    var na, nb := NfsrFeed(a), NfsrFeed(b);
    var data := DataWord(na);
    assert DataWord(nb) == data;
    NfsrFeedSame(na.(s := BusRead(na.s, data), mem := WriteMem(na.mem, na.r.dstAddr, data)),
                 nb.(s := BusRead(nb.s, data), mem := WriteMem(nb.mem, nb.r.dstAddr, data)));
  }

  lemma CommitSame(a: Machine, b: Machine)
    requires Same(a, b) && Valid(a) && Valid(b) && a.r.yCount > 0
    ensures Same(Commit(a), Commit(b))
  {
    hide WritePhase;
    WriteSame(a, b);
  }

  /** Replaying the reads after a cut repeats none of them. */
  lemma FetchResumes(m: Machine)
    requires BudgetedFetch(m).Cut?
    ensures Fetch(BudgetedFetch(m).m) == Fetch(m)
  {
    hide ShiftIn, Wrap, ReadMem;
    var m1 := FxsrPhase(m);
    var m2 := SrcPhase(m1);
    var m3 := DstPhase(m2);
    assert FxsrPhase(m1) == m1;
    assert FxsrPhase(m2) == m2 && SrcPhase(m2) == m2;
    assert FxsrPhase(m3) == m3 && SrcPhase(m3) == m3 && DstPhase(m3) == m3;
  }

  lemma SetupResumes(m: Machine, n: Machine)
    requires ReadsOnly(Setup(m), n)
    ensures Setup(n.(s := n.s.(continueLater := true))) == n
  {
    hide LopNeedsDst;
    var k := n.(s := n.s.(continueLater := true));
    assert EndMask(k) == EndMask(m) && NeedSrc(k) == NeedSrc(m);
  }

  /** A suspended step leaves exactly the rest of the word to do. */
  lemma StepResumes(m: Machine)
    requires Valid(m) && m.r.yCount > 0 && Step(m).s.continueLater
    ensures WholeStep(Step(m)) == WholeStep(m)
  {
    hide Commit, Fetch, BudgetedFetch;
    var f := BudgetedFetch(Setup(m));
    if f.Cut? {
      FetchResumes(Setup(m));
      SetupResumes(m, f.m);
    }
  }

  // ----- whole runs -----

  /** The blit run to its end in one go, as in hog mode. */
  function HogRun(m: Machine): (n: Machine)
    requires Valid(m)
    ensures Valid(n) && n.r.yCount == 0
    decreases m.r.yCount, m.r.xCount
  {
    hide WholeStep;
    if m.r.yCount == 0 then m else HogRun(WholeStep(m))
  }

  /** The main loop between two bus arbitrations. */
  function MainLoop(m: Machine): (n: Machine)
    requires Valid(m) && m.r.yCount > 0
    ensures Valid(n) && n.v.hog == m.v.hog
    decreases m.r.yCount, m.r.xCount
  {
    hide WholeStep, Step;
    var n := Step(m);
    if n.r.yCount > 0 && !BudgetSpent(n) then MainLoop(n) else n
  }

  lemma WholeStepSame(a: Machine, b: Machine)
    requires Same(a, b) && Valid(a) && Valid(b) && a.r.yCount > 0
    ensures Same(WholeStep(a), WholeStep(b))
  {
    hide Commit, Fetch;
    SetupSame(a, b);
    FetchSame(Setup(a), Setup(b));
    CommitSame(Fetch(Setup(a)), Fetch(Setup(b)));
  }

  lemma {:induction false} HogRunSame(a: Machine, b: Machine)
    requires Same(a, b) && Valid(a) && Valid(b)
    ensures Same(HogRun(a), HogRun(b))
    decreases a.r.yCount, a.r.xCount
  {
    hide WholeStep;
    if a.r.yCount > 0 {
      WholeStepSame(a, b);
      HogRunSame(WholeStep(a), WholeStep(b));
    }
  }

  /** A slice leaves exactly the rest of the blit to do. */
  lemma {:induction false} MainLoopResumes(m: Machine)
    requires Valid(m) && m.r.yCount > 0
    ensures HogRun(MainLoop(m)) == HogRun(m)
    decreases m.r.yCount, m.r.xCount
  {
    hide WholeStep, Step;
    var n := Step(m);
    if n.s.continueLater {
      StepResumes(m);
      assert HogRun(n) == HogRun(WholeStep(n));
    } else if n.r.yCount > 0 && !BudgetSpent(n) {
      MainLoopResumes(n);
    }
  }

  // ----- bus accounting -----

  function One(b: bool): nat { if b then 1 else 0 }

  /** Reads still to be made for the current word. */
  function PendingReads(m: Machine): nat {
    One(WantsFxsr(m)) + One(WantsSrc(m)) + One(WantsDst(m))
  }

  /** Bus accesses from here to the end of the blit. */
  function Cost(m: Machine): (c: nat)
    requires Valid(m)
    ensures c > 0 <==> m.r.yCount > 0
    decreases m.r.yCount, m.r.xCount
  {
    hide WholeStep, Setup;
    if m.r.yCount == 0 then 0 else PendingReads(Setup(m)) + 1 + Cost(WholeStep(m))
  }

  lemma {:induction false} CostSame(a: Machine, b: Machine)
    requires Same(a, b) && Valid(a) && Valid(b)
    ensures Cost(a) == Cost(b)
    decreases a.r.yCount, a.r.xCount
  {
    hide WholeStep;
    if a.r.yCount > 0 {
      SetupSame(a, b);
      WholeStepSame(a, b);
      CostSame(WholeStep(a), WholeStep(b));
    }
  }

  lemma FxsrCount(m: Machine)
    requires m.s.countBus < NONHOG_BUS_BLITTER
    ensures var n := FxsrPhase(m);
      && n.s.countBus == m.s.countBus + One(WantsFxsr(m))
      && !WantsFxsr(n) && WantsSrc(n) == WantsSrc(m) && WantsDst(n) == WantsDst(m)
  {
    hide ShiftIn, Wrap, ReadMem;
  }

  lemma SrcCount(m: Machine)
    requires m.s.countBus < NONHOG_BUS_BLITTER
    ensures var n := SrcPhase(m);
      && n.s.countBus == m.s.countBus + One(WantsSrc(m))
      && WantsFxsr(n) == WantsFxsr(m) && !WantsSrc(n) && WantsDst(n) == WantsDst(m)
  {
    hide ShiftIn, Wrap, ReadMem;
  }

  lemma DstCount(m: Machine)
    requires m.s.countBus < NONHOG_BUS_BLITTER
    ensures var n := DstPhase(m);
      && n.s.countBus == m.s.countBus + One(WantsDst(m))
      && WantsFxsr(n) == WantsFxsr(m) && WantsSrc(n) == WantsSrc(m) && !WantsDst(n)
  {
    hide ReadMem;
  }

  /** Every read is counted, and a cut leaves exactly the unmade reads pending. */
  lemma FetchCount(m: Machine)
    requires !m.v.hog && m.s.countBus < NONHOG_BUS_BLITTER
    ensures match BudgetedFetch(m)
      case Ready(n) => n.s.countBus == m.s.countBus + PendingReads(m) < NONHOG_BUS_BLITTER
      case Cut(n) => n.s.countBus == NONHOG_BUS_BLITTER
                     && n.s.countBus + PendingReads(n) == m.s.countBus + PendingReads(m)
  {
    hide FxsrPhase, SrcPhase, DstPhase, WantsFxsr, WantsSrc, WantsDst;
    var m1 := FxsrPhase(m);
    FxsrCount(m);
    if !BudgetSpent(m1) {
      SrcCount(m1);
      var m2 := SrcPhase(m1);
      if !BudgetSpent(m2) { DstCount(m2); }
    }
  }

  lemma CommitCount(m: Machine)
    requires Valid(m) && m.r.yCount > 0 && m.s.countBus < NONHOG_BUS_BLITTER
    ensures Commit(m).s.countBus == m.s.countBus + 1
  {
    hide DataWord, Wrap, ShiftIn, WriteMem;
  }

  lemma StepCount(m: Machine)
    requires Valid(m) && m.r.yCount > 0 && !m.v.hog && m.s.countBus < NONHOG_BUS_BLITTER
    ensures var n := Step(m);
      && n.s.countBus <= NONHOG_BUS_BLITTER
      && (n.s.continueLater ==> n.s.countBus == NONHOG_BUS_BLITTER)
      && n.s.countBus + Cost(n) == m.s.countBus + Cost(m)
  {
    hide Commit, Fetch, BudgetedFetch, LopNeedsDst, EndMask, NeedSrc, PendingReads, Cost;
    FetchCount(Setup(m));
    var f := BudgetedFetch(Setup(m));
    if f.Cut? {
      SetupResumes(m, f.m);
      StepResumes(m);
      CostUnfolds(Step(m));
    } else {
      CommitCount(f.m);
    }
    CostUnfolds(m);
  }

  lemma CostUnfolds(m: Machine)
    requires Valid(m) && m.r.yCount > 0
    ensures Cost(m) == PendingReads(Setup(m)) + 1 + Cost(WholeStep(m))
  {
  }

  /** A slice spends its whole budget unless it finishes the blit. */
  lemma {:induction false} MainLoopCount(m: Machine)
    requires Valid(m) && m.r.yCount > 0 && !m.v.hog && m.s.countBus < NONHOG_BUS_BLITTER
    ensures var n := MainLoop(m);
      && n.s.countBus <= NONHOG_BUS_BLITTER
      && (n.r.yCount > 0 ==> n.s.countBus == NONHOG_BUS_BLITTER)
      && n.s.countBus + Cost(n) == m.s.countBus + Cost(m)
    decreases m.r.yCount, m.r.xCount
  {
    hide Cost, Step, WholeStep;
    StepCount(m);
    var n := Step(m);
    if n.r.yCount > 0 && !BudgetSpent(n) { MainLoopCount(n); }
  }

  // ----- starting and restarting -----

  /** The control byte after a run: the current halftone line, and no busy and hog bits once done. */
  function EndCtrl(ctrl: nat, line: nat, done: bool): nat {
    var c := ctrl - ctrl % 16 + line;
    if done then c % 64 else c
  }

  /** One start or restart; a CPU access just before it can cost one blitter access. */
  function Start(m: Machine, busCountError: bool): (n: Machine)
    requires Valid(m) && m.r.yCount > 0
    ensures Valid(n) && n.v.hog == m.v.hog
  {
    hide MainLoop;
    var n := MainLoop(m.(s := m.s.(countBus := One(busCountError))));
    n.(r := n.r.(ctrl := EndCtrl(n.r.ctrl, n.v.halftoneLine, n.r.yCount == 0)))
  }

  /** Restarts, one per list entry, until the blit is done. */
  function Slices(m: Machine, errors: seq<bool>): (n: Machine)
    requires Valid(m)
    ensures Valid(n) && n.v.hog == m.v.hog
    decreases |errors|
  {
    hide Start;
    if errors == [] || m.r.yCount == 0 then m else Slices(Start(m, errors[0]), errors[1..])
  }

  /** Bus accesses granted over a list of restarts. */
  function Granted(errors: seq<bool>): nat {
    if errors == [] then 0 else (if errors[0] then 63 else 64) + Granted(errors[1..])
  }

  lemma SameTransitive(a: Machine, b: Machine, c: Machine)
    requires Same(a, b) && Same(b, c)
    ensures Same(a, c)
  {
  }

  lemma StartCost(m: Machine, err: bool)
    requires Valid(m) && m.r.yCount > 0 && !m.v.hog
    ensures var n := Start(m, err);
      var granted := if err then 63 else 64;
      && Cost(n) == (if Cost(m) <= granted then 0 else Cost(m) - granted)
      && (n.r.yCount > 0 ==> n.s.countBus == 64)
  {
    hide Cost, MainLoop, Start, Valid;
    var m0 := Restarted(m, err);
    RestartCost(m, err);
    MainLoopCount(m0);
  }

  function Restarted(m: Machine, err: bool): (n: Machine)
    requires Valid(m)
    ensures Valid(n) && n.r == m.r && n.v == m.v
  {
    m.(s := m.s.(countBus := One(err)))
  }

  /** The count of bus accesses has no part in the cost. */
  lemma RestartCost(m: Machine, err: bool)
    requires Valid(m) && m.r.yCount > 0
    ensures var n0, n := MainLoop(Restarted(m, err)), Start(m, err);
      && Restarted(m, err).s.countBus == One(err) && Cost(Restarted(m, err)) == Cost(m)
      && Cost(n) == Cost(n0) && n.s == n0.s && n.r.yCount == n0.r.yCount
  {
    hide Cost, MainLoop, EndCtrl;
    CostSame(Restarted(m, err), m);
    CostSame(MainLoop(Restarted(m, err)), Start(m, err));
  }

  lemma StartRun(m: Machine, err: bool)
    requires Valid(m) && m.r.yCount > 0
    ensures Same(HogRun(Start(m, err)), HogRun(m))
  {
    hide MainLoop, HogRun;
    var m0 := m.(s := m.s.(countBus := One(err)));
    MainLoopResumes(m0);
    HogRunSame(m0, m);
    HogRunSame(Start(m, err), MainLoop(m0));
    SameTransitive(HogRun(Start(m, err)), HogRun(m0), HogRun(m));
  }

  /** A blit cut into slices is over exactly when the bus accesses granted to it cover
      the accesses the whole blit makes. */
  lemma {:induction false} SlicesFinishExactly(m: Machine, errors: seq<bool>)
    requires Valid(m) && !m.v.hog
    ensures Slices(m, errors).r.yCount == 0 <==> Cost(m) <= Granted(errors)
    decreases |errors|
  {
    hide Cost, Start;
    if errors != [] && m.r.yCount > 0 {
      StartCost(m, errors[0]);
      SlicesFinishExactly(Start(m, errors[0]), errors[1..]);
    }
  }

  lemma {:induction false} SlicesRun(m: Machine, errors: seq<bool>)
    requires Valid(m)
    ensures Same(HogRun(Slices(m, errors)), HogRun(m))
    decreases |errors|
  {
    hide HogRun, Start, Same;
    if errors == [] || m.r.yCount == 0 {
      SameReflexive(HogRun(m));
    } else {
      var n := Start(m, errors[0]);
      StartRun(m, errors[0]);
      SlicesRun(n, errors[1..]);
      SameTransitive(HogRun(Slices(m, errors)), HogRun(n), HogRun(m));
    }
  }

  lemma SameReflexive(m: Machine)
    ensures Same(m, m)
  {
  }

  lemma MainLoopCtrl(m: Machine)
    requires Valid(m) && m.r.yCount > 0
    ensures MainLoop(m).r.ctrl == m.r.ctrl
    decreases m.r.yCount, m.r.xCount
  {
    hide Step;
    StepCtrl(m);
    var n := Step(m);
    if n.r.yCount > 0 && !BudgetSpent(n) { MainLoopCtrl(n); }
  }

  lemma StepCtrl(m: Machine)
    requires Valid(m) && m.r.yCount > 0
    ensures Step(m).r.ctrl == m.r.ctrl
  {
    hide WholeStep;
  }

  lemma {:induction false} SlicesCtrl(m: Machine, errors: seq<bool>)
    requires Valid(m) && m.r.yCount > 0 && Slices(m, errors).r.yCount == 0
    ensures var n := Slices(m, errors); n.r.ctrl == EndCtrl(m.r.ctrl, n.v.halftoneLine, true)
    decreases |errors|
  {
    hide MainLoop, EndCtrl, Start, Valid;
    var n := Start(m, errors[0]);
    StartCtrl(m, errors[0]);
    if n.r.yCount > 0 {
      SlicesCtrl(n, errors[1..]);
      EndTwice(m.r.ctrl, n.v.halftoneLine, Slices(m, errors).v.halftoneLine);
    }
  }

  lemma StartCtrl(m: Machine, err: bool)
    requires Valid(m) && m.r.yCount > 0
    ensures var n := Start(m, err);
      n.r.ctrl == EndCtrl(m.r.ctrl, n.v.halftoneLine, n.r.yCount == 0) && n.v.halftoneLine < 16
  {
    hide MainLoop, EndCtrl;
    MainLoopCtrl(m.(s := m.s.(countBus := One(err))));
  }

  lemma EndTwice(ctrl: nat, line: nat, last: nat)
    requires line < 16
    ensures EndCtrl(EndCtrl(ctrl, line, false), last, true) == EndCtrl(ctrl, last, true)
  {
  }

  lemma HogStart(m: Machine, err: bool)
    requires Valid(m) && m.r.yCount > 0 && m.v.hog
    ensures Start(m, err).r.yCount == 0
  {
    hide MainLoop;
    MainLoopHog(m.(s := m.s.(countBus := One(err))));
  }

  lemma {:induction false} MainLoopHog(m: Machine)
    requires Valid(m) && m.r.yCount > 0 && m.v.hog
    ensures MainLoop(m).r.yCount == 0
    decreases m.r.yCount, m.r.xCount
  {
    hide Step, WholeStep;
    var n := Step(m);
    if n.r.yCount > 0 { MainLoopHog(n); }
  }

  function HogBit(ctrl: nat, hog: bool): nat {
    ctrl % 64 + ctrl / 128 * 128 + if hog then 64 else 0
  }

  /** The blit as the control write starts it: hog bit and hog flag together. */
  function WithHog(m: Machine, hog: bool): (n: Machine)
    requires Valid(m)
    ensures Valid(n) && n.r.yCount == m.r.yCount
  {
    m.(v := m.v.(hog := hog), r := m.r.(ctrl := HogBit(m.r.ctrl, hog)))
  }

  /** Running a blit in slices of 64 or 63 bus accesses, however the accesses fall, ends in
      the same machine state as one hog run: memory, addresses, counters, buffer, last bus
      word, halftone line and control byte.  Only the access count tells them apart. */
  lemma SlicingIsInvisible(m: Machine, errors: seq<bool>, hogError: bool)
    requires Valid(m) && m.r.yCount > 0
    requires Cost(m) <= Granted(errors)
    ensures var sliced := Slices(WithHog(m, false), errors);
      var hog := Start(WithHog(m, true), hogError);
      && sliced.mem == hog.mem && sliced.r == hog.r && sliced.halftone == hog.halftone
      && sliced.v == hog.v.(hog := false)
      && sliced.s == hog.s.(countBus := sliced.s.countBus, continueLater := sliced.s.continueLater)
  {
    hide Cost, Slices, Start, HogRun, Same, EndCtrl;
    var a, h := WithHog(m, false), WithHog(m, true);
    WithHogSame(m);
    CostSame(a, m);
    SlicesFinishExactly(a, errors);
    HogStart(h, hogError);
    OneSlice(h, hogError);
    SlicesCtrl(a, errors);
    SlicesCtrl(h, [hogError]);
    SameEnd(a, errors, h, [hogError]);
    WithHogCtrl(m, Slices(a, errors).v.halftoneLine);
    SameButBus(Slices(a, errors), Slices(h, [hogError]));
  }

  lemma WithHogSame(m: Machine)
    requires Valid(m)
    ensures var a, h := WithHog(m, false), WithHog(m, true);
      Valid(a) && Valid(h) && Same(a, m) && Same(a, h)
  {
  }

  lemma WithHogCtrl(m: Machine, line: nat)
    requires Valid(m) && line < 16
    ensures EndCtrl(WithHog(m, false).r.ctrl, line, true) == EndCtrl(WithHog(m, true).r.ctrl, line, true)
  {
    hide EndCtrl, HogBit;
    HogBitEnds(m.r.ctrl, line);
  }

  lemma HogBitEnds(ctrl: nat, line: nat)
    requires line < 16
    ensures EndCtrl(HogBit(ctrl, false), line, true) == EndCtrl(HogBit(ctrl, true), line, true)
  {
    var low := HogBit(ctrl, false);
    assert HogBit(ctrl, true) == low + 64 && (low + 64) % 16 == low % 16;
  }

  lemma OneSlice(m: Machine, err: bool)
    requires Valid(m) && m.r.yCount > 0
    ensures Slices(m, [err]) == Start(m, err)
  {
    hide Start;
  }

  /** Two blits that start the same and are both run to their end come out the same. */
  lemma SameEnd(a: Machine, ea: seq<bool>, b: Machine, eb: seq<bool>)
    requires Valid(a) && Valid(b) && Same(a, b)
    requires Slices(a, ea).r.yCount == 0 && Slices(b, eb).r.yCount == 0
    ensures Same(Slices(a, ea), Slices(b, eb))
    ensures Slices(a, ea).v.halftoneLine == Slices(b, eb).v.halftoneLine
  {
    hide Slices;
    SlicesRun(a, ea);
    SlicesRun(b, eb);
    HogRunSame(a, b);
    SameTransitive(Slices(a, ea), HogRun(a), HogRun(b));
    SameSymmetric(Slices(b, eb), HogRun(b));
    SameTransitive(Slices(a, ea), HogRun(b), Slices(b, eb));
  }

  lemma SameSymmetric(a: Machine, b: Machine)
    requires Same(a, b)
    ensures Same(b, a)
  {
  }

  lemma SameButBus(a: Machine, b: Machine)
    requires Same(a, b) && a.r.ctrl == b.r.ctrl
    ensures a.mem == b.mem && a.r == b.r && a.halftone == b.halftone
    ensures a.v == b.v.(hog := a.v.hog)
    ensures a.s == b.s.(countBus := a.s.countBus, continueLater := a.s.continueLater)
  {
  }
}
