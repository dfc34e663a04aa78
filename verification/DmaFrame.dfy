/** Which words the STE sound DMA fetches: the frame counter, end of frame, loop and stop. */
module DmaFrame {
  import Arith

  const TWO32 := 0x1_0000_0000

  /** Play and loop bits, the frame being played, and the start and end registers. */
  datatype Frame = Frame(play: bool, loop: bool, start: nat, end: nat, counter: nat, startReg: nat, endReg: nat)

  /** Frame addresses are words; the registers are 24 bits wide. */
  predicate Valid(f: Frame) {
    f.counter % 2 == 0 && f.end % 2 == 0 && f.startReg % 2 == 0 && f.endReg % 2 == 0
    && f.counter < TWO32 && f.startReg < 0x100_0000 && f.endReg < 0x100_0000
  }

  /** Take start and end from the registers; an empty frame that does not loop stops at once. */
  function StartNewFrame(f: Frame): (n: Frame)
    requires Valid(f)
    ensures Valid(n)
  {
    f.(start := f.startReg, end := f.endReg, counter := f.startReg,
       play := f.play && (f.startReg != f.endReg || f.loop))
  }

  function EndOfFrame(f: Frame): (n: Frame)
    requires Valid(f)
    ensures Valid(n)
  {
    if f.loop then StartNewFrame(f) else f.(play := false)
  }

  /** One word has been fetched at the counter. */
  function AfterWord(f: Frame): (n: Frame)
    requires Valid(f)
    ensures Valid(n)
  {
    var n := f.(counter := (f.counter + 2) % TWO32);
    if n.counter == n.end then EndOfFrame(n) else n
  }

  /** Addresses of the next n words fetched while playing, and the frame after them. */
  function Words(f: Frame, n: nat): seq<nat>
    requires Valid(f)
    decreases n
  {
    if n == 0 || !f.play then [] else [f.counter] + Words(AfterWord(f), n - 1)
  }

  function After(f: Frame, n: nat): (r: Frame)
    requires Valid(f)
    ensures Valid(r)
    decreases n
  {
    if n == 0 || !f.play then f else After(AfterWord(f), n - 1)
  }

  /** Fetching in two goes fetches the same words. */
  lemma {:induction false} WordsSplit(f: Frame, a: nat, b: nat)
    requires Valid(f)
    ensures Words(f, a + b) == Words(f, a) + Words(After(f, a), b)
    ensures After(f, a + b) == After(After(f, a), b)
    decreases a
  {
    if a > 0 && f.play {
      WordsSplit(AfterWord(f), a - 1, b);
    } else if !f.play {
      assert Words(f, b) == [];
    }
  }

  // ----- frames -----

  /** The address of word i of a frame; it wraps at 32 bits. */
  function Addr(start: nat, i: nat): nat { (start + 2 * i) % TWO32 }

  /** How many words there are until the counter meets the end. A frame that ends where it starts,
      or before, goes all the way round. */
  function Length(start: nat, end: nat): (n: nat)
    ensures n > 0
  {
    (end - start - 2) % TWO32 / 2 + 1
  }

  lemma UsualLength(start: nat, end: nat)
    requires start % 2 == 0 && end % 2 == 0 && start < 0x100_0000 && end < 0x100_0000
    ensures Length(start, end) == if start < end then (end - start) / 2 else (TWO32 - (start - end)) / 2
    ensures start < end ==> forall i :: 0 <= i < Length(start, end) ==> Addr(start, i) == start + 2 * i < end
  {
  }

  /** Word i of the frame begun is next. */
  predicate Playing(f: Frame, i: nat) {
    && Valid(f) && f.play && f.start % 2 == 0 && f.start < TWO32 && f.end < TWO32
    && i < Length(f.start, f.end) && f.counter == Addr(f.start, i)
  }

  /** A start begins the frame in the registers, unless that is empty and is not to loop. */
  lemma StartPlays(f: Frame)
    requires Valid(f) && f.play
    ensures var n := StartNewFrame(f);
      && n.start == f.startReg && n.end == f.endReg
      && (n.play <==> f.startReg != f.endReg || f.loop) && (n.play ==> Playing(n, 0))
  {
  }

  /** The counter meets the end after the last word of the frame and not before. */
  lemma EndMet(start: nat, end: nat, i: nat)
    requires start % 2 == 0 && end % 2 == 0 && start < TWO32 && end < TWO32 && i < Length(start, end)
    ensures (Addr(start, i) + 2) % TWO32 == Addr(start, i + 1)
    ensures Addr(start, i + 1) == end <==> i + 1 == Length(start, end)
  {
    hide Length;
    LengthIs(start, end);
    WrapOnce(start + 2 * i);
    WrapOnce(start + 2 * i + 2);
  }

  lemma LengthIs(start: nat, end: nat)
    requires start % 2 == 0 && end % 2 == 0 && start < TWO32 && end < TWO32
    ensures 2 * Length(start, end) == if start < end then end - start else end + TWO32 - start
  {
    WrapOnce(end - start - 2 + TWO32);
    assert (end - start - 2 + TWO32) % TWO32 == (end - start - 2) % TWO32;
  }

  lemma WrapOnce(x: nat)
    requires x < 2 * TWO32
    ensures x % TWO32 == if x < TWO32 then x else x - TWO32
  {
  }

  lemma NextWord(f: Frame, i: nat)
    requires Playing(f, i)
    ensures var g := AfterWord(f);
      var last := i + 1 == Length(f.start, f.end);
      && g.startReg == f.startReg && g.endReg == f.endReg && g.loop == f.loop
      && (!last ==> Playing(g, i + 1) && g.start == f.start && g.end == f.end)
      && (last && f.loop ==> Playing(g, 0) && g.start == f.startReg && g.end == f.endReg)
      && (last && !f.loop ==> !g.play)
  {
    hide Length, Addr;
    EndMet(f.start, f.end, i);
    var n := f.(counter := (f.counter + 2) % TWO32);
    if n.counter == n.end && f.loop { StartPlays(n); }
  }

  /** A single frame is fetched from start to end, word by word, and then the DMA stops. */
  lemma {:induction false} OneShot(f: Frame, i: nat, n: nat)
    requires Playing(f, i) && !f.loop
    ensures var length := Length(f.start, f.end);
      && |Words(f, n)| == (if i + n < length then n else length - i)
      && (After(f, n).play <==> i + n < length)
    ensures forall k :: 0 <= k < |Words(f, n)| ==> Words(f, n)[k] == Addr(f.start, i + k)
    decreases n
  {
    hide AfterWord, Addr, Length;
    if n > 0 {
      var g := AfterWord(f);
      NextWord(f, i);
      if g.play {
        OneShot(g, i + 1, n - 1);
      } else {
        assert Words(g, n - 1) == [];
      }
    }
  }

  /** A looping frame is fetched over and over: the k-th word from the start of the frame is
      word k mod length, for as long as the registers stay as they are. */
  lemma {:induction false} Looping(f: Frame, i: nat, n: nat)
    requires Playing(f, i) && f.loop && f.start == f.startReg && f.end == f.endReg
    ensures |Words(f, n)| == n && After(f, n).play
    ensures forall k :: 0 <= k < n ==> Words(f, n)[k] == Addr(f.start, (i + k) % Length(f.start, f.end))
    decreases n
  {
    hide AfterWord, Addr, Length;
    if n > 0 {
      var length := Length(f.start, f.end);
      var g := AfterWord(f);
      NextWord(f, i);
      var j := if i + 1 == length then 0 else i + 1;
      Looping(g, j, n - 1);
      var ws := Words(g, n - 1);
      assert Words(f, n) == [f.counter] + ws;
      forall k | 0 <= k < n ensures Words(f, n)[k] == Addr(f.start, (i + k) % length) {
        Around(i, j, k, length);
        if k > 0 { assert Words(f, n)[k] == ws[k - 1]; }
      }
    }
  }

  lemma Around(i: nat, j: nat, k: nat, length: nat)
    requires i < length && j == if i + 1 == length then 0 else i + 1
    ensures if k == 0 then (i + k) % length == i else (i + k) % length == (j + (k - 1)) % length
  {
    if j == 0 && k > 0 { ModShift(k - 1, length); }
  }

  lemma ModShift(k: nat, length: nat)
    requires length > 0
    ensures (k + length) % length == k % length
  {
    assert k == k / length * length + k % length;
    Arith.Division(k + length, length, k / length + 1, k % length);
  }

  // ----- frames after frames -----

  /** While the DMA plays: it fetches a word, or the CPU writes the registers or the loop bit. */
  datatype Act = Fetch | Registers(start: nat, end: nat) | Loop(on: bool)

  predicate ValidAct(a: Act) {
    a.Registers? ==> a.start % 2 == 0 && a.end % 2 == 0 && a.start < 0x100_0000 && a.end < 0x100_0000
  }

  predicate ValidActs(acts: seq<Act>) { forall k :: 0 <= k < |acts| ==> ValidAct(acts[k]) }

  function Do(f: Frame, a: Act): (n: Frame)
    requires Valid(f) && ValidAct(a)
    ensures Valid(n)
  {
    match a
    case Fetch => if f.play then AfterWord(f) else f
    case Registers(start, end) => f.(startReg := start, endReg := end)
    case Loop(on) => f.(loop := on)
  }

  function Run(f: Frame, acts: seq<Act>): (n: Frame)
    requires Valid(f) && ValidActs(acts)
    ensures Valid(n)
    decreases |acts|
  {
    if acts == [] then f else Run(Do(f, acts[0]), acts[1..])
  }

  /** The addresses fetched. */
  function Stream(f: Frame, acts: seq<Act>): seq<nat>
    requires Valid(f) && ValidActs(acts)
    decreases |acts|
  {
    if acts == [] then []
    else (if acts[0].Fetch? && f.play then [f.counter] else []) + Stream(Do(f, acts[0]), acts[1..])
  }

  function Fetching(n: nat): (acts: seq<Act>)
    ensures |acts| == n && ValidActs(acts)
  {
    seq(n, i => Fetch)
  }

  /** Fetches in a row fetch the next words, whatever follows. */
  lemma {:induction false} FetchesAreWords(f: Frame, n: nat, acts: seq<Act>)
    requires Valid(f) && ValidActs(acts)
    ensures ValidActs(Fetching(n) + acts)
    ensures Stream(f, Fetching(n) + acts) == Words(f, n) + Stream(After(f, n), acts)
    ensures Run(f, Fetching(n) + acts) == Run(After(f, n), acts)
    decreases n
  {
    hide AfterWord;
    if n == 0 {
      assert Fetching(0) + acts == acts;
    } else {
      assert (Fetching(n) + acts)[1..] == Fetching(n - 1) + acts;
      FetchesAreWords(Do(f, Fetch), n - 1, acts);
    }
  }

  datatype Bounds = Bounds(start: nat, end: nat)

  /** What the registers hold each time a frame ends in loop mode. */
  function Begun(f: Frame, acts: seq<Act>): seq<Bounds>
    requires Valid(f) && ValidActs(acts)
    decreases |acts|
  {
    if acts == [] then []
    else
      (if acts[0].Fetch? && f.play && f.loop && (f.counter + 2) % TWO32 == f.end then [Bounds(f.startReg, f.endReg)] else [])
      + Begun(Do(f, acts[0]), acts[1..])
  }

  function WordsOf(b: Bounds): (w: seq<nat>)
    ensures |w| == Length(b.start, b.end) && forall i :: 0 <= i < |w| ==> w[i] == Addr(b.start, i)
  {
    seq(Length(b.start, b.end), i requires 0 <= i => Addr(b.start, i))
  }

  function AllWords(frames: seq<Bounds>): seq<nat> {
    if frames == [] then [] else WordsOf(frames[0]) + AllWords(frames[1..])
  }

  function Fetches(acts: seq<Act>): nat {
    if acts == [] then 0 else (if acts[0].Fetch? then 1 else 0) + Fetches(acts[1..])
  }

  lemma {:induction false} Stopped(f: Frame, acts: seq<Act>)
    requires Valid(f) && !f.play && ValidActs(acts)
    ensures Stream(f, acts) == [] && Begun(f, acts) == [] && !Run(f, acts).play
    decreases |acts|
  {
    if acts != [] { Stopped(Do(f, acts[0]), acts[1..]); }
  }

  /** What is still to come of this frame, and then all frames begun. */
  function ToCome(f: Frame, i: nat, acts: seq<Act>): seq<nat>
    requires Playing(f, i) && ValidActs(acts)
  {
    WordsOf(Bounds(f.start, f.end))[i..] + AllWords(Begun(f, acts))
  }

  /** One act: what it fetches is the first of what is to come. */
  lemma ActPlays(f: Frame, i: nat, acts: seq<Act>)
    requires Playing(f, i) && ValidActs(acts) && acts != []
    ensures var g := Do(f, acts[0]);
      var i' := if !acts[0].Fetch? then i else if i + 1 < Length(f.start, f.end) then i + 1 else 0;
      if g.play
      then Playing(g, i') && ToCome(f, i, acts) == (if acts[0].Fetch? then [f.counter] else []) + ToCome(g, i', acts[1..])
      else acts[0].Fetch? && ToCome(f, i, acts) == [f.counter]
  {
    hide Length, Addr, AfterWord, AllWords, WordsOf, Begun;
    var g := Do(f, acts[0]);
    var words := WordsOf(Bounds(f.start, f.end));
    if acts[0].Fetch? {
      NextWord(f, i);
      EndMet(f.start, f.end, i);
      assert words[i..] == [f.counter] + words[i + 1..];
      if i + 1 < |words| {
        BegunNone(f, acts);
      } else {
        assert words[i + 1..] == [];
        if f.loop {
          BegunCons(f, acts);
        } else {
          BegunNone(f, acts);
          Stopped(g, acts[1..]);
          AllWordsNone();
        }
      }
    } else {
      BegunNone(f, acts);
    }
  }

  lemma AllWordsNone()
    ensures AllWords([]) == []
  {
  }

  lemma BegunNone(f: Frame, acts: seq<Act>)
    requires Valid(f) && ValidActs(acts) && acts != []
    requires !(acts[0].Fetch? && f.play && f.loop && (f.counter + 2) % TWO32 == f.end)
    ensures Begun(f, acts) == Begun(Do(f, acts[0]), acts[1..])
  {
    hide Do;
  }

  lemma BegunCons(f: Frame, acts: seq<Act>)
    requires Valid(f) && ValidActs(acts) && acts != [] && acts[0].Fetch? && f.play && f.loop
    requires (f.counter + 2) % TWO32 == f.end
    ensures AllWords(Begun(f, acts))
      == WordsOf(Bounds(f.startReg, f.endReg))[0..] + AllWords(Begun(Do(f, acts[0]), acts[1..]))
  {
    hide AllWords, Do, WordsOf;
    var more := Begun(Do(f, acts[0]), acts[1..]);
    assert Begun(f, acts) == [Bounds(f.startReg, f.endReg)] + more;
    AllWordsCons(Bounds(f.startReg, f.endReg), more);
  }

  lemma AllWordsCons(b: Bounds, more: seq<Bounds>)
    ensures AllWords([b] + more) == WordsOf(b)[0..] + AllWords(more)
  {
    assert ([b] + more)[1..] == more;
  }

  /** Whatever is written to the registers and the loop bit while the DMA plays: the words fetched
      are those of the frame begun and then those of one whole frame after the other, each with
      the bounds that were in the registers when the one before it ended. As long as it plays there
      is a word for every fetch, and it stops at the end of a frame. */
  lemma {:induction false} FramesPlayed(f: Frame, i: nat, acts: seq<Act>)
    requires Playing(f, i) && ValidActs(acts)
    ensures Stream(f, acts) <= ToCome(f, i, acts)
    ensures if Run(f, acts).play then |Stream(f, acts)| == Fetches(acts) else Stream(f, acts) == ToCome(f, i, acts)
    decreases |acts|
  {
    hide Do, ToCome, Playing;
    PlayingIs(f, i);
    if acts != [] {
      var g := Do(f, acts[0]);
      ActPlays(f, i, acts);
      if g.play {
        FramesPlayed(g, if !acts[0].Fetch? then i else if i + 1 < Length(f.start, f.end) then i + 1 else 0, acts[1..]);
      } else {
        Stopped(g, acts[1..]);
      }
    }
  }

  lemma PlayingIs(f: Frame, i: nat)
    requires Playing(f, i)
    ensures Valid(f) && f.play
  {
  }
}
