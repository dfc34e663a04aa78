/** The STE DMA sound: an 8-byte ring FIFO filled by words and drained by bytes, its control and
    mode registers, and the sample loop. */
module DmaSnd {
  import Arith
  import opened DmaFrame
  import Rates

  const FIFO_SIZE := 8

  /** One byte as it was fetched. */
  datatype Fetched = Fetched(addr: nat, value: int)

  function ReadByte(mem: map<int, int>, a: int): int { if a in mem then mem[a] else 0 }

  function WordAt(mem: map<int, int>, a: nat): seq<Fetched> {
    [Fetched(a, ReadByte(mem, a)), Fetched(a + 1, ReadByte(mem, a + 1))]
  }

  /** The bytes of a list of word addresses. */
  function BytesOf(mem: map<int, int>, words: seq<nat>): (b: seq<Fetched>)
    ensures |b| == 2 * |words|
  {
    if words == [] then [] else WordAt(mem, words[0]) + BytesOf(mem, words[1..])
  }

  lemma {:induction false} BytesOfSnoc(mem: map<int, int>, words: seq<nat>, a: nat)
    ensures BytesOf(mem, words + [a]) == BytesOf(mem, words) + WordAt(mem, a)
  {
    if words != [] {
      assert (words + [a])[1..] == words[1..] + [a];
      BytesOfSnoc(mem, words[1..], a);
    } else {
      assert (words + [a])[1..] == [];
    }
  }

  lemma {:induction false} BytesOfAdd(mem: map<int, int>, a: seq<nat>, b: seq<nat>)
    ensures BytesOf(mem, a + b) == BytesOf(mem, a) + BytesOf(mem, b)
  {
    if a == [] {
      assert a + b == b;
    } else {
      assert (a + b)[1..] == a[1..] + b;
      BytesOfAdd(mem, a[1..], b);
    }
  }

  lemma {:induction false} BytesAt(mem: map<int, int>, words: seq<nat>, b: nat)
    requires b < 2 * |words|
    ensures BytesOf(mem, words)[b] == Fetched(words[b / 2] + b % 2, ReadByte(mem, words[b / 2] + b % 2))
  {
    if b >= 2 {
      BytesAt(mem, words[1..], b - 2);
    }
  }

  /** Byte b of a frame. */
  function ByteAt(mem: map<int, int>, start: nat, b: nat): Fetched {
    var a := Addr(start, b / 2) + b % 2;
    Fetched(a, ReadByte(mem, a))
  }

  /** A frame that does not loop gives the bytes from its start to its end, each once. */
  lemma OneShotBytes(mem: map<int, int>, f: Frame, n: nat, b: nat)
    requires Playing(f, 0) && !f.loop
    ensures |Words(f, n)| == (if n < Length(f.start, f.end) then n else Length(f.start, f.end))
    ensures b < |BytesOf(mem, Words(f, n))| ==> BytesOf(mem, Words(f, n))[b] == ByteAt(mem, f.start, b)
  {
    hide Words, After, Addr, Length, ReadByte;
    OneShot(f, 0, n);
    if b < 2 * |Words(f, n)| {
      BytesAt(mem, Words(f, n), b);
      assert Words(f, n)[b / 2] == Addr(f.start, 0 + b / 2);
    }
  }

  /** A looping frame gives its bytes in order over and over, while its registers stay as they are. */
  lemma LoopedBytes(mem: map<int, int>, f: Frame, n: nat, b: nat)
    requires Playing(f, 0) && f.loop && f.start == f.startReg && f.end == f.endReg && b < 2 * n
    ensures |BytesOf(mem, Words(f, n))| == 2 * n
    ensures BytesOf(mem, Words(f, n))[b] == ByteAt(mem, f.start, b % (2 * Length(f.start, f.end)))
  {
    hide Words, BytesOf, After, ReadByte, Addr, Length;
    var length := Length(f.start, f.end);
    Looping(f, 0, n);
    BytesAt(mem, Words(f, n), b);
    assert Words(f, n)[b / 2] == Addr(f.start, (0 + b / 2) % length);
    HalfMod(b, length);
  }

  lemma HalfMod(b: nat, half: nat)
    requires half > 0
    ensures b % (2 * half) / 2 == b / 2 % half && b % (2 * half) % 2 == b % 2
  {
    var q, r := b / 2 / half, b / 2 % half;
    assert b / 2 == q * half + r;
    assert b == q * (2 * half) + (2 * r + b % 2);
    Arith.Division(b, 2 * half, q, 2 * r + b % 2);
  }

  /** The bytes of a list of frames. */
  function FrameBytes(mem: map<int, int>, b: Bounds): (bytes: seq<Fetched>)
    ensures |bytes| == 2 * Length(b.start, b.end)
    ensures forall k :: 0 <= k < |bytes| ==> bytes[k] == ByteAt(mem, b.start, k)
  {
    seq(2 * Length(b.start, b.end), k requires 0 <= k => ByteAt(mem, b.start, k))
  }

  function AllBytes(mem: map<int, int>, frames: seq<Bounds>): seq<Fetched> {
    if frames == [] then [] else FrameBytes(mem, frames[0]) + AllBytes(mem, frames[1..])
  }

  lemma {:induction false} AllBytesAre(mem: map<int, int>, frames: seq<Bounds>)
    ensures BytesOf(mem, AllWords(frames)) == AllBytes(mem, frames)
  {
    hide Addr, Length, ReadByte, ByteAt, WordsOf, FrameBytes, BytesOf;
    if frames != [] {
      AllBytesAre(mem, frames[1..]);
      BytesOfAdd(mem, WordsOf(frames[0]), AllWords(frames[1..]));
      FrameBytesAre(mem, frames[0]);
    } else {
      assert BytesOf(mem, []) == [] by { BytesOfNone(mem); }
    }
  }

  lemma BytesOfNone(mem: map<int, int>)
    ensures BytesOf(mem, []) == []
  {
  }

  lemma FrameBytesAre(mem: map<int, int>, b: Bounds)
    ensures BytesOf(mem, WordsOf(b)) == FrameBytes(mem, b)
  {
    hide Addr, Length, ReadByte, WordsOf, FrameBytes, BytesOf;
    var words := WordsOf(b);
    forall k | 0 <= k < 2 * |words| ensures BytesOf(mem, words)[k] == FrameBytes(mem, b)[k] {
      BytesAt(mem, words, k);
    }
  }

  lemma {:induction false} BytesOfPrefix(mem: map<int, int>, a: seq<nat>, b: seq<nat>)
    requires a <= b
    ensures BytesOf(mem, a) <= BytesOf(mem, b)
  {
    assert b == a + b[|a|..];
    BytesOfAdd(mem, a, b[|a|..]);
  }

  /** From a start on, the FIFO gets the bytes of that frame and then of one whole frame after the
      other, each with the bounds in the registers when the one before it ended. */
  lemma FrameStream(mem: map<int, int>, f: Frame, acts: seq<Act>)
    requires Playing(f, 0) && ValidActs(acts)
    ensures BytesOf(mem, Stream(f, acts)) <= AllBytes(mem, [Bounds(f.start, f.end)] + Begun(f, acts))
    ensures if Run(f, acts).play then |BytesOf(mem, Stream(f, acts))| == 2 * Fetches(acts)
            else BytesOf(mem, Stream(f, acts)) == AllBytes(mem, [Bounds(f.start, f.end)] + Begun(f, acts))
  {
    hide Stream, BytesOf, AllBytes, AllWords, Addr, Length, Begun, Run;
    var frames := [Bounds(f.start, f.end)] + Begun(f, acts);
    FramesPlayed(f, 0, acts);
    AllWordsCons(Bounds(f.start, f.end), Begun(f, acts));
    AllBytesAre(mem, frames);
    BytesOfPrefix(mem, Stream(f, acts), AllWords(frames));
  }

  /** Even positions of the stream hold the even-address byte of a word, the next position its
      odd-address byte. */
  predicate Paired(log: seq<Fetched>) {
    && |log| % 2 == 0
    && forall k :: 0 <= k < |log| && k % 2 == 0 ==> log[k].addr % 2 == 0 && log[k + 1].addr == log[k].addr + 1
  }

  /** Two stream places less than a FIFO apart have different slots. */
  lemma SlotsDiffer(k: nat, m: nat)
    requires k < m < k + FIFO_SIZE
    ensures k % FIFO_SIZE != m % FIFO_SIZE
  {
  }

  lemma SlotOf(taken: nat, nb: nat)
    ensures (taken % FIFO_SIZE + nb) % FIFO_SIZE == (taken + nb) % FIFO_SIZE
  {
  }

  lemma PairedWord(log: seq<Fetched>, mem: map<int, int>, a: nat)
    requires Paired(log) && a % 2 == 0
    ensures Paired(log + WordAt(mem, a))
  {
    var n := log + WordAt(mem, a);
    forall k | 0 <= k < |n| && k % 2 == 0 ensures n[k].addr % 2 == 0 && n[k + 1].addr == n[k].addr + 1 {
      if k < |log| { assert log[k].addr % 2 == 0 && log[k + 1].addr == log[k].addr + 1; }
    }
  }

  /** The two lowest bits of the mode select the rate. */
  function SampleRate(soundMode: bv8): nat {
    match soundMode & 3
    case 0 => 6258
    case 1 => 12517
    case 2 => 25033
    case _ => 50066
  }

  const TOP_RATE := 50066

  /** Each rate is half the next, to within one, and nothing but the two bits counts. */
  lemma RatesHalve(soundMode: bv8)
    ensures SampleRate(soundMode) == SampleRate(soundMode & 3) && SampleRate(3) == 50066
    ensures forall mode: bv8 :: mode < 3 ==> -1 <= 2 * SampleRate(mode) - SampleRate(mode + 1) <= 1
  {
    assert soundMode & 3 & 3 == soundMode & 3;
    assert SampleRate(0) == 6258 && SampleRate(1) == 12517 && SampleRate(2) == 25033;
  }

  /** At an output of 50066 Hz, n output samples from a fresh start take n input samples in mode 3, n / 2
      in mode 2, and about n / 4 and n / 8 in modes 1 and 0. */
  lemma StepsOfMode(mode: bv8, n: nat)
    requires mode <= 3
    ensures var steps := Rates.Steps(0, Rates.Ratio(SampleRate(mode), TOP_RATE), n);
      && (mode == 3 ==> steps == n)
      && (mode == 2 ==> steps == n / 2)
      && (mode == 1 ==> n < 4 * (steps + 1) && 25033 * (4 * steps) <= 25034 * n)
      && (mode == 0 ==> 25030 * n < 25031 * (8 * (steps + 1)) && 8 * steps <= n)
  {
    hide Rates.Steps, Rates.Ratio;
    var rate := SampleRate(mode);
    Rates.ResamplerKeepsPace(rate, TOP_RATE, n);
    RatioOfMode(mode);
    HalfOfSteps(n);
  }

  lemma RatioOfMode(mode: bv8)
    requires mode <= 3
    ensures mode == 3 ==> Rates.Ratio(SampleRate(mode), TOP_RATE) == 0x1_0000_0000
    ensures mode == 2 ==> Rates.Ratio(SampleRate(mode), TOP_RATE) == 0x8000_0000
  {
  }

  lemma HalfOfSteps(n: nat)
    ensures n * 0x1_0000_0000 / 0x1_0000_0000 == n && n * 0x8000_0000 / 0x1_0000_0000 == n / 2
  {
  }

  /** What the two channels hold between samples. */
  datatype Level = Level(left: int, right: int)

  const SILENCE := Level(0, 0)

  function Width(mono: bool): nat { if mono then 1 else 2 }

  /** The j-th sample from place t of the byte stream; silence past its end. */
  function SampleAt(log: seq<Fetched>, mono: bool, t: nat, j: nat): Level {
    var k := if mono then t + j else t + 2 * j;
    if k + Width(mono) > |log| then SILENCE
    else Level(log[k].value, log[k + Width(mono) - 1].value)
  }

  /** The level once n samples were pulled from place t. */
  function LevelAt(log: seq<Fetched>, mono: bool, t: nat, before: Level, n: nat): Level {
    if n == 0 then before else SampleAt(log, mono, t, n - 1)
  }

  /** Pulling n samples from place t of the stream ends at place `now`, short only if the stream
      ends there and the DMA is off. */
  predicate Pulled(log: seq<Fetched>, mono: bool, t: nat, n: nat, now: nat, play: bool) {
    var want := if mono then t + n else t + 2 * n;
    && t <= |log| && (!mono ==> t % 2 == 0 && |log| % 2 == 0)
    && now == (if want <= |log| then want else |log|)
    && (want > |log| ==> !play)
  }

  /** Two pulls in a row are one longer pull. */
  lemma PulledTwice(log: seq<Fetched>, mono: bool, t: nat, before: Level, n: nat, now: nat, play: bool,
                    log': seq<Fetched>, m: nat, now': nat, play': bool)
    requires Pulled(log, mono, t, n, now, play) && Pulled(log', mono, now, m, now', play')
    requires log <= log' && (!play ==> log' == log && !play')
    ensures Pulled(log', mono, t, n + m, now', play')
    ensures forall j :: 0 <= j <= n ==> LevelAt(log', mono, t, before, j) == LevelAt(log, mono, t, before, j)
    ensures forall j {:trigger LevelAt(log', mono, now, LevelAt(log, mono, t, before, n), j)} :: 0 <= j <= m ==>
      LevelAt(log', mono, now, LevelAt(log, mono, t, before, n), j) == LevelAt(log', mono, t, before, n + j)
  {
  }

  /** From stream state (f, l, t, before), n samples were pulled, fetching some words on the way. */
  ghost predicate Ran(mem: map<int, int>, mono: bool, f: Frame, l: seq<Fetched>, t: nat, before: Level,
                      n: nat, words: nat, f1: Frame, l1: seq<Fetched>, t1: nat, level: Level)
  {
    && DmaFrame.Valid(f) && f1 == After(f, words) && l1 == l + BytesOf(mem, Words(f, words))
    && (!f.play ==> f1 == f && l1 == l)
    && Pulled(l1, mono, t, n, t1, f1.play) && level == LevelAt(l1, mono, t, before, n)
  }

  lemma RanTwice(mem: map<int, int>, mono: bool, f: Frame, l: seq<Fetched>, t: nat, before: Level,
                 n: nat, words: nat, f1: Frame, l1: seq<Fetched>, t1: nat, level1: Level,
                 m: nat, more: nat, f2: Frame, l2: seq<Fetched>, t2: nat, level2: Level)
    requires Ran(mem, mono, f, l, t, before, n, words, f1, l1, t1, level1)
    requires Ran(mem, mono, f1, l1, t1, level1, m, more, f2, l2, t2, level2)
    ensures Ran(mem, mono, f, l, t, before, n + m, words + more, f2, l2, t2, level2)
    ensures forall j :: 0 <= j <= n ==> LevelAt(l2, mono, t, before, j) == LevelAt(l1, mono, t, before, j)
    ensures forall j {:trigger LevelAt(l2, mono, t1, level1, j)} :: 0 <= j <= m ==>
      LevelAt(l2, mono, t1, level1, j) == LevelAt(l2, mono, t, before, n + j)
  {
    hide Words, After, Pulled, LevelAt;
    WordsSplit(f, words, more);
    BytesOfAdd(mem, Words(f, words), Words(f1, more));
    PulledTwice(l1, mono, t, before, n, t1, f1.play, l2, m, t2, f2.play);
  }

  lemma RanLevel(mem: map<int, int>, mono: bool, f: Frame, l: seq<Fetched>, t: nat, before: Level,
                 n: nat, words: nat, f1: Frame, l1: seq<Fetched>, t1: nat, level1: Level)
    requires Ran(mem, mono, f, l, t, before, n, words, f1, l1, t1, level1)
    ensures level1 == LevelAt(l1, mono, t, before, n)
  {
  }

  lemma RanNone(mem: map<int, int>, mono: bool, f: Frame, l: seq<Fetched>, t: nat, before: Level)
    requires DmaFrame.Valid(f) && t <= |l| && (!mono ==> t % 2 == 0 && |l| % 2 == 0)
    ensures Ran(mem, mono, f, l, t, before, 0, 0, f, l, t, before)
  {
    assert l + [] == l;
  }

  lemma OneByte(log: seq<Fetched>, t: nat, now: nat, sample: int, play: bool)
    requires t <= now <= |log|
    requires if |log| > t then now == t + 1 && sample == log[t].value else now == t && sample == 0 && !play
    ensures Pulled(log, true, t, 1, now, play) && SampleAt(log, true, t, 0) == Level(sample, sample)
  {
  }

  lemma OnePair(log: seq<Fetched>, t: nat, now: nat, left: int, right: int, play: bool)
    requires t <= now <= |log| && t % 2 == 0 && |log| % 2 == 0
    requires if |log| > t then now == t + 2 <= |log| && left == log[t].value && right == log[t + 1].value
             else now == t && left == right == 0 && !play
    ensures Pulled(log, false, t, 1, now, play) && SampleAt(log, false, t, 0) == Level(left, right)
  {
  }

  class Sound {
    var frame: Frame
    var soundMode: bv8
    var xsint: bool
    /** The first sample of a new frame is still to be pulled; the level held; the 32.32 counter. */
    var init: bool
    var level: Level
    var frac: nat
    const fifo: array<int>
    var pos: nat
    var nb: nat
    /** Every byte fetched since the reset, and how many of them have left the FIFO. */
    ghost var log: seq<Fetched>
    ghost var taken: nat

    /** Bit 7 of the mode is mono. */
    predicate Mono()
      reads this`soundMode
    {
      soundMode & 0x80 != 0
    }

    /** Input samples per output sample, with 32 bits behind the point. */
    function Ratio(audioFrequency: nat): nat
      requires audioFrequency > 0
      reads this`soundMode
    {
      Rates.Ratio(SampleRate(soundMode), audioFrequency)
    }

    /** The FIFO holds the bytes fetched and not yet taken, in order, each in the slot its place
        in the stream gives it. */
    ghost predicate Ring()
      reads this`nb, this`pos, this`taken, this`log, fifo
    {
      && fifo.Length == FIFO_SIZE && nb <= FIFO_SIZE
      && taken + nb == |log| && pos == taken % FIFO_SIZE
      && forall k :: taken <= k < |log| ==> fifo[k % FIFO_SIZE] == log[k].value
    }

    /** XSINT tells whether the DMA plays, and the stream is made of whole words. */
    ghost predicate Sane()
      reads this`nb, this`pos, this`taken, this`log, this`frame, this`xsint, fifo
    {
      Ring() && DmaFrame.Valid(frame) && Paired(log) && xsint == frame.play
    }

    /** Between samples; in stereo the next byte out is the first of a word. */
    ghost predicate Valid()
      reads this, fifo
    {
      Sane() && frac < TWO32 && (!Mono() ==> taken % 2 == 0)
    }

    constructor ()
      ensures Valid() && log == [] && taken == 0 && !frame.play && !Mono() && fresh(fifo)
    {
      frame := Frame(false, false, 0, 0, 0, 0, 0);
      soundMode, xsint, init := 0, false, true;
      level, frac := SILENCE, 0;
      fifo := new int[FIFO_SIZE];
      pos, nb := 0, 0;
      log, taken := [], 0;
    }

    /** Append one fetched byte to the ring. */
    method Push(ghost b: Fetched, value: int)
      requires Ring() && nb < FIFO_SIZE && b.value == value
      modifies this`nb, this`log, fifo
      ensures Ring() && log == old(log) + [b] && nb == old(nb) + 1
    {
      SlotOf(taken, nb);
      fifo[(pos + nb) % FIFO_SIZE] := value;
      forall k | taken <= k < |log| ensures k % FIFO_SIZE != |log| % FIFO_SIZE {
        SlotsDiffer(k, |log|);
      }
      nb := nb + 1;
      log := log + [b];
    }

    /** Take the oldest byte off the ring. */
    method Drop()
      requires Ring() && nb > 0
      modifies this`nb, this`pos, this`taken
      ensures Ring() && nb == old(nb) - 1 && taken == old(taken) + 1
    {
      SlotOf(taken, 1);
      pos := (pos + 1) % FIFO_SIZE;
      nb := nb - 1;
      taken := taken + 1;
    }

    /** Fetch one word into the FIFO. */
    method FetchWord(mem: map<int, int>)
      requires Sane() && frame.play && nb + 2 <= FIFO_SIZE
      modifies this`frame, this`xsint, this`nb, this`log, fifo
      ensures Sane() && nb == old(nb) + 2
      ensures log == old(log) + WordAt(mem, old(frame).counter) && frame == AfterWord(old(frame))
      ensures var a := old(frame).counter;
        && log[|log| - 2].value == (if a in mem then mem[a] else 0)
        && log[|log| - 1].value == (if a + 1 in mem then mem[a + 1] else 0)
    {
      hide Ring, Paired;
      ghost var was := log;
      var a := frame.counter;
      var b0, b1 := ReadByte(mem, a), ReadByte(mem, a + 1);
      Push(Fetched(a, b0), b0);
      Push(Fetched(a + 1, b1), b1);
      assert log == was + WordAt(mem, a);
      PairedWord(was, mem, a);
      frame := frame.(counter := (a + 2) % TWO32);
      if frame.counter == frame.end {
        xsint := false;
        if frame.loop {
          frame := StartNewFrame(frame);
          if frame.play { xsint := true; }
        } else {
          frame := frame.(play := false);
        }
      }
    }

    /** Bytes fetched between two points: those of the words the frame says come next. */
    ghost predicate Grew(mem: map<int, int>, f: Frame, was: seq<Fetched>, words: nat)
      requires DmaFrame.Valid(f)
      reads this`frame, this`log
    {
      frame == After(f, words) && log == was + BytesOf(mem, Words(f, words))
    }

    /** Fill the FIFO, as long as the DMA plays. */
    method Refill(mem: map<int, int>) returns (ghost words: nat)
      requires Sane()
      modifies this`frame, this`xsint, this`nb, this`log, fifo
      ensures Sane() && Grew(mem, old(frame), old(log), words)
      ensures frame.play ==> nb >= FIFO_SIZE - 1
      ensures !old(frame).play ==> words == 0 && unchanged(this`log) && unchanged(this`frame)
    {
      hide Paired;
      words := 0;
      GrewNot(mem);
      if !frame.play { return; }
      while FIFO_SIZE - nb >= 2
        invariant Sane() && nb <= FIFO_SIZE && frame.play && Grew(mem, old(frame), old(log), words)
        decreases FIFO_SIZE - nb
      {
        ghost var f, l := frame, log;
        FetchWord(mem);
        OneMore(mem, old(frame), old(log), words, f, l);
        words := words + 1;
        if !frame.play { break; }
      }
    }

    lemma GrewNot(mem: map<int, int>)
      requires DmaFrame.Valid(frame)
      ensures Grew(mem, frame, log, 0)
    {
      assert log + [] == log;
    }

    lemma OneMore(mem: map<int, int>, f: Frame, was: seq<Fetched>, words: nat, g: Frame, l: seq<Fetched>)
      requires DmaFrame.Valid(f) && DmaFrame.Valid(g) && g.play
      requires g == After(f, words) && l == was + BytesOf(mem, Words(f, words))
      requires frame == AfterWord(g) && log == l + WordAt(mem, g.counter)
      ensures Grew(mem, f, was, words + 1)
    {
      hide AfterWord, WordAt;
      WordsSplit(f, words, 1);
      assert Words(g, 1) == [g.counter] + [] == [g.counter];
      BytesOfSnoc(mem, Words(f, words), g.counter);
      assert After(g, 1) == AfterWord(g);
    }

    /** Take one byte; silence if nothing can be fetched. */
    method PullByte(mem: map<int, int>) returns (sample: int, ghost words: nat)
      requires Sane()
      modifies this`frame, this`xsint, this`nb, this`pos, this`log, this`taken, fifo
      ensures Sane()
      ensures Grew(mem, old(frame), old(log), words)
      ensures old(nb) > 0 || !old(frame).play ==> unchanged(this`log) && unchanged(this`frame)
      ensures taken <= |log|
      ensures if |log| > old(taken) then taken == old(taken) + 1 && sample == log[old(taken)].value
              else taken == old(taken) && sample == 0 && !frame.play
    {
      words := 0;
      GrewNot(mem);
      if nb == 0 {
        words := Refill(mem);
        if nb == 0 {
          return 0, words;
        }
      }
      sample := fifo[pos];
      Drop();
    }

    /** A word boundary of the stream has a whole word after it, or nothing. */
    lemma WholeWord(k: nat)
      requires Sane() && k % 2 == 0
      ensures taken + nb == |log| && |log| % 2 == 0 && DmaFrame.Valid(frame)
      ensures k < |log| ==> k + 1 < |log| && log[k].addr % 2 == 0 && log[k + 1].addr == log[k].addr + 1
    {
    }

    /** Take one sample of each channel. */
    method PullPair(mem: map<int, int>) returns (left: int, right: int, ghost words: nat)
      requires Valid() && !Mono()
      modifies this`frame, this`xsint, this`nb, this`pos, this`log, this`taken, fifo
      ensures Valid() && Grew(mem, old(frame), old(log), words)
      ensures !old(frame).play ==> unchanged(this`log) && unchanged(this`frame)
      ensures old(taken) <= |log|
      ensures if |log| > old(taken)
              then taken == old(taken) + 2 <= |log|
                && left == log[taken - 2].value && right == log[taken - 1].value
                && log[taken - 2].addr % 2 == 0 && log[taken - 1].addr == log[taken - 2].addr + 1
              else taken == old(taken) && left == right == 0 && !frame.play
    {
      hide BytesOf, Words, After, WordAt, Ring, Sane, Paired, DmaFrame.Valid;
      ghost var t, none := taken, 0;
      WholeWord(t);
      left, words := PullByte(mem);
      WholeWord(t);
      ghost var l := log;
      right, none := PullByte(mem);
      WholeWord(t);
    }

    /** Pull one sample of the mode in force. */
    method PullSample(mem: map<int, int>) returns (ghost words: nat)
      requires Valid()
      modifies this`frame, this`xsint, this`nb, this`pos, this`log, this`taken, this`level, fifo
      ensures Valid()
      ensures Ran(mem, Mono(), old(frame), old(log), old(taken), old(level), 1, words, frame, log, taken, level)
    {
      hide BytesOf, Words, After, WordAt, Ring, Sane, Paired, DmaFrame.Valid, Pulled, SampleAt;
      ghost var t := taken;
      WholeWord(0);
      if Mono() {
        var sample;
        sample, words := PullByte(mem);
        WholeWord(0);
        OneByte(log, t, taken, sample, frame.play);
        level := Level(sample, sample);
      } else {
        var left, right;
        left, right, words := PullPair(mem);
        WholeWord(0);
        OnePair(log, t, taken, left, right, frame.play);
        level := Level(left, right);
      }
    }

    /** Pull n samples, holding the last. */
    method Skip(mem: map<int, int>, n: nat) returns (ghost words: nat)
      requires Valid()
      modifies this`frame, this`xsint, this`nb, this`pos, this`log, this`taken, this`level, fifo
      ensures Valid()
      ensures Ran(mem, Mono(), old(frame), old(log), old(taken), old(level), n, words, frame, log, taken, level)
    {
      hide Ran, Sane;
      words := 0;
      WholeWord(0);
      RanNone(mem, Mono(), frame, log, taken, level);
      var left := n;
      ghost var done := 0;
      while left > 0
        invariant left + done == n && Valid()
        invariant Ran(mem, Mono(), old(frame), old(log), old(taken), old(level), done, words, frame, log, taken, level)
      {
        ghost var f, l, t, was := frame, log, taken, level;
        ghost var more := PullSample(mem);
        RanTwice(mem, Mono(), old(frame), old(log), old(taken), old(level), done, words, f, l, t, was,
          1, more, frame, log, taken, level);
        words := words + more;
        left, done := left - 1, done + 1;
      }
    }

    /** The CPU sets the start and end registers; their low bit does not exist. */
    method WriteAddresses(start: nat, end: nat)
      requires Valid() && start < 0x100_0000 && end < 0x100_0000
      modifies this`frame
      ensures Valid() && frame == old(frame).(startReg := start / 2 * 2, endReg := end / 2 * 2)
    {
      hide Ring, Paired;
      frame := frame.(startReg := start / 2 * 2, endReg := end / 2 * 2);
    }

    /** Write the control register: a start takes the addresses over and restarts the counter, a
        stop leaves what the FIFO holds to be played. */
    method WriteControl(play: bool, loop: bool)
      requires Valid()
      modifies this`frame, this`xsint, this`init, this`frac
      ensures Valid()
      ensures if !old(frame).play && play
              then
                && frame == StartNewFrame(old(frame).(play := true, loop := loop)) && init && frac == 0
                && frame.play == (old(frame).startReg != old(frame).endReg || loop)
              else frame == old(frame).(play := play, loop := loop) && unchanged(this`init) && unchanged(this`frac)
    {
      hide Ring, Paired;
      var was := frame.play;
      frame := frame.(play := play, loop := loop);
      if !was && play {
        init, frac := true, 0;
        frame := StartNewFrame(frame);
        if frame.play { xsint := true; }
      } else if was && !play {
        xsint := false;
      }
    }

    /** Skip the odd byte of a half-played word, so that stereo starts on a left byte. At an odd
        position the FIFO is never empty. */
    method SetStereo()
      requires Sane()
      modifies this`pos, this`nb, this`taken
      ensures Sane() && taken == (old(taken) + 1) / 2 * 2
    {
      hide Paired, DmaFrame.Valid;
      WholeWord(0);
      if pos % 2 == 1 {
        Drop();
      }
    }

    /** Write the mode register, of which the bits of a real STE are kept: two for the rate, two
        more, and the mono bit. */
    method WriteMode(value: bv8)
      requires Valid()
      modifies this`soundMode, this`pos, this`nb, this`taken
      ensures Valid() && soundMode == value & 0x8F
      ensures taken == if old(Mono()) && !Mono() then (old(taken) + 1) / 2 * 2 else old(taken)
    {
      hide Ring, Paired, DmaFrame.Valid;
      var new_ := value & 0x8F;
      if soundMode & 0x80 != 0 && new_ & 0x80 == 0 {
        SetStereo();
      }
      soundMode := new_;
    }

    /** Generate one output sample: the level now, after the first sample if it is due; then move on. */
    method OneSample(mem: map<int, int>, ratio: nat) returns (out: Level, ghost words: nat)
      requires Valid()
      modifies this`frame, this`xsint, this`nb, this`pos, this`log, this`taken, this`level, this`init, this`frac, fifo
      ensures Valid() && !init && frac == (old(frac) + ratio) % TWO32
      ensures var first := if old(init) then 1 else 0;
        && out == LevelAt(log, Mono(), old(taken), old(level), first)
        && Ran(mem, Mono(), old(frame), old(log), old(taken), old(level), first + (old(frac) + ratio) / TWO32, words,
               frame, log, taken, level)
    {
      hide Ran, Sane;
      ghost var f0, l0, t0, was0 := frame, log, taken, level;
      ghost var first := if init then 1 else 0;
      words := 0;
      WholeWord(0);
      RanNone(mem, Mono(), frame, log, taken, level);
      if init {
        words := PullSample(mem);
        init := false;
      }
      out := level;
      ghost var f, l, t, was := frame, log, taken, level;
      RanLevel(mem, Mono(), f0, l0, t0, was0, first, words, f, l, t, was);
      frac := frac + ratio;
      var skip := frac / TWO32;
      frac := frac % TWO32;
      ghost var more := Skip(mem, skip);
      RanTwice(mem, Mono(), f0, l0, t0, was0, first, words, f, l, t, was, skip, more, frame, log, taken, level);
      words := words + more;
    }

    /** Generate n output samples. The i-th one is the input sample the counter has reached. */
    method Generate(mem: map<int, int>, n: nat, audioFrequency: nat) returns (out: seq<Level>, ghost words: nat)
      requires Valid() && audioFrequency > 0
      modifies this`frame, this`xsint, this`nb, this`pos, this`log, this`taken, this`level, this`init, this`frac, fifo
      ensures Valid() && |out| == n
      ensures if !old(frame).play && old(nb) == 0
              then unchanged(this) && forall i :: 0 <= i < n ==> out[i] == level
              else
                var first := if old(init) && n > 0 then 1 else 0;
                && Ran(mem, Mono(), old(frame), old(log), old(taken), old(level),
                       first + Rates.Steps(old(frac), Ratio(audioFrequency), n), words, frame, log, taken, level)
                && (forall i :: 0 <= i < n ==>
                     out[i] == LevelAt(log, Mono(), old(taken), old(level), first + Rates.Steps(old(frac), Ratio(audioFrequency), i)))
                && frac == Rates.Fraction(old(frac), Ratio(audioFrequency), n) && init == (old(init) && n == 0)
    {
      hide Ran, Sane, LevelAt, SampleRate, Ratio, Rates.Steps, Rates.Fraction;
      out, words := [], 0;
      if !frame.play && nb == 0 {
        for i := 0 to n
          invariant |out| == i && forall k :: 0 <= k < i ==> out[k] == level
        {
          out := out + [level];
        }
        return;
      }
      var ratio := SampleRate(soundMode) * TWO32 / audioFrequency;
      assert ratio == Ratio(audioFrequency) by { RatioIs(audioFrequency); }
      ghost var f, l, t, was, start := frame, log, taken, level, frac;
      ghost var first := if init && n > 0 then 1 else 0;
      WholeWord(0);
      RanNone(mem, Mono(), frame, log, taken, level);
      Rates.StepsNone(frac, ratio);
      for i := 0 to n
        invariant Valid() && |out| == i && init == (old(init) && i == 0)
        invariant frac == Rates.Fraction(start, ratio, i)
        invariant Ran(mem, Mono(), f, l, t, was, (if i > 0 then first else 0) + Rates.Steps(start, ratio, i), words,
                      frame, log, taken, level)
        invariant forall k :: 0 <= k < i ==>
          out[k] == LevelAt(log, Mono(), t, was, first + Rates.Steps(start, ratio, k))
      {
        ghost var done := (if i > 0 then first else 0) + Rates.Steps(start, ratio, i);
        ghost var f1, l1, t1, was1, due := frame, log, taken, level, if init then 1 else 0;
        Rates.StepsSnoc(start, ratio, i);
        var s;
        ghost var more;
        s, more := OneSample(mem, ratio);
        RanTwice(mem, Mono(), f, l, t, was, done, words, f1, l1, t1, was1,
          due + (Rates.Fraction(start, ratio, i) + ratio) / TWO32, more, frame, log, taken, level);
        words := words + more;
        forall k | 0 <= k < i ensures first + Rates.Steps(start, ratio, k) <= done {
          Rates.StepsMonotone(start, ratio, k, i);
        }
        assert s == LevelAt(log, Mono(), t, was, done + due);
        out := out + [s];
      }
    }

    lemma RatioIs(audioFrequency: nat)
      requires audioFrequency > 0
      ensures Ratio(audioFrequency) == SampleRate(soundMode) * TWO32 / audioFrequency
    {
    }
  }
}
