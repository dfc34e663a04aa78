/** The index kept in memory while a 'movi' is recorded, and why its 32-bit offsets are enough. */
module AviIndex {
  import opened AviBytes
  import opened AviLayout
  import opened AviFile

  const MOVI_MAX := 1024 * 1024 * 1024

  /** Largest frame: the size of a picture is computed in bits, as a 32-bit signed number, and
      overflows at 2^28 bytes. */
  const FRAME_MAX := 0xFFF_FFFF

  /** Most bytes of frames that one 'movi' can hold. */
  const FULL_MAX := MOVI_MAX + 6 * (FRAME_MAX + 8)

  /** Slot `count` of the index takes offset and length of a frame of one stream. */
  function Store(index: seq<Row>, count: nat, video: bool, offset: nat, length: nat): (s: seq<Row>)
    requires count < |index|
    ensures |s| == |index|
  {
    index[count := if video then index[count].(videoOffset := offset, videoLength := length)
                   else index[count].(audioOffset := offset, audioLength := length)]
  }

  /** The slots of a stream are the places of its frames, relative to the first. */
  ghost predicate Slots(spans: seq<Span>, index: seq<Row>, base: nat, video: bool) {
    && |spans| <= |index| && (spans != [] ==> spans[0].pos == base)
    && forall j :: 0 <= j < |spans| ==>
        Offset(index[j], video) == spans[j].pos - base && Length(index[j], video) == spans[j].len
  }

  ghost predicate Small(fs: seq<Frame>) {
    forall i :: 0 <= i < |fs| ==> |fs[i].data| <= FRAME_MAX
  }

  /** One video and one audio frame in turn, in either order: `count` pairs and maybe one more. */
  predicate InTurn(videos: nat, audios: nat, count: nat) {
    count <= videos <= count + 1 && count <= audios <= count + 1 && (videos == count || audios == count)
  }

  /** How far the frames reach beyond the last indexed video frame, and beyond one still waiting for
      its audio frame. */
  ghost predicate Near(fs: seq<Frame>, at: nat, count: nat) {
    var v := Spans(fs, at, true);
    && count <= |v| && 2 * count <= |fs| <= 2 * count + 1
    && at + |Frames(fs)| <=
        (if count == 0 then at else v[count - 1].pos + FRAME_MAX) + (|fs| - 2 * count + 1) * (FRAME_MAX + 8)
    && (|v| > count ==> at + |Frames(fs)| <= v[count].pos + FRAME_MAX)
  }

  /** The video frames are at least a pair of headers apart on average. */
  ghost predicate Dense(fs: seq<Frame>, at: nat, videoBase: nat) {
    var v := Spans(fs, at, true);
    && (v != [] ==> at + |Frames(fs)| >= videoBase + 8 * |fs| - 16)
    && forall j :: 0 <= j < |v| ==> v[j].pos >= videoBase + 16 * j - 8
  }

  /** The index follows the frames of the 'movi' whose first frame header is at `at`. */
  ghost predicate Tracked(fs: seq<Frame>, at: nat, index: seq<Row>, count: nat, videoBase: nat, audioBase: nat) {
    var v, a := Spans(fs, at, true), Spans(fs, at, false);
    && Small(fs) && InTurn(|v|, |a|, count) && Near(fs, at, count) && |Frames(fs)| <= FULL_MAX
    && Dense(fs, at, videoBase) && 16 * count <= MOVI_MAX + 40
    && Slots(v, index, videoBase, true) && Slots(a, index, audioBase, false)
    && (v != [] ==> videoBase <= at + 2 * (FRAME_MAX + 8) + 8)
  }

  /** The last indexed video frame is within the limit, so that the 'movi' goes on. */
  ghost predicate Open(index: seq<Row>, count: nat) {
    count > 0 ==> count <= |index| && index[count - 1].videoOffset <= MOVI_MAX
  }

  lemma OpenSize(fs: seq<Frame>, at: nat, index: seq<Row>, count: nat, videoBase: nat, audioBase: nat)
    requires Tracked(fs, at, index, count, videoBase, audioBase) && Open(index, count)
    ensures |Frames(fs)| + FRAME_MAX + 8 <= FULL_MAX && 16 * (count + 1) <= MOVI_MAX + 40
  {
    hide Spans, Frames, Small;
    if count > 0 {
      var v := Spans(fs, at, true);
      assert Offset(index[count - 1], true) == v[count - 1].pos - videoBase;
    }
  }

  lemma SpansSnoc(fs: seq<Frame>, at: nat, f: Frame)
    ensures Frames(fs + [f]) == Frames(fs) + FrameBytes(f)
    ensures Spans(fs + [f], at, f.video)
         == Spans(fs, at, f.video) + [Span(at + |Frames(fs)| + 8, |f.data|)]
    ensures Spans(fs + [f], at, !f.video) == Spans(fs, at, !f.video)
    ensures Datas(fs + [f], f.video) == Datas(fs, f.video) + [f.data]
    ensures Datas(fs + [f], !f.video) == Datas(fs, !f.video)
  {
    assert (fs + [f])[..|fs|] == fs;
  }

  lemma {:induction false} SpansCount(fs: seq<Frame>, at: nat)
    ensures |Spans(fs, at, true)| + |Spans(fs, at, false)| == |fs|
  {
    if fs != [] {
      SpansCount(fs[..|fs| - 1], at);
    }
  }

  /** The slot written for a new frame extends its stream; the other stream keeps its slots. */
  lemma SlotsSnoc(spans: seq<Span>, other: seq<Span>, index: seq<Row>, base: nat, otherBase: nat, video: bool, s: Span)
    requires Slots(spans, index, base, video) && Slots(other, index, otherBase, !video)
    requires |spans| < |index| && s.pos >= base && (spans == [] ==> s.pos == base)
    ensures var i := Store(index, |spans|, video, s.pos - base, s.len);
      Slots(spans + [s], i, base, video) && Slots(other, i, otherBase, !video)
  {
  }

  lemma {:induction false} SpanRange(fs: seq<Frame>, at: nat, video: bool, j: nat)
    requires j < |Spans(fs, at, video)|
    ensures at + 8 <= Spans(fs, at, video)[j].pos
    ensures Spans(fs, at, video)[j].pos + Spans(fs, at, video)[j].len <= at + |Frames(fs)|
  {
    hide FrameBytes;
    if fs != [] {
      var before := fs[..|fs| - 1];
      if j < |Spans(before, at, video)| {
        SpanRange(before, at, video, j);
      }
    }
  }

  /** The base of a stream once a frame at `pos` was noted in slot `count`. */
  function Base(base: nat, count: nat, pos: nat): nat { if count == 0 then pos else base }

  /** Noting the next frame in turn keeps the index in step with the frames, and its offset needs
      no more than 32 bits. */
  lemma TrackedSnoc(fs: seq<Frame>, at: nat, index: seq<Row>, count: nat, videoBase: nat, audioBase: nat, f: Frame)
    requires Tracked(fs, at, index, count, videoBase, audioBase) && Open(index, count) && count < |index|
    requires |f.data| <= FRAME_MAX
    requires |Spans(fs, at, f.video)| <= |Spans(fs, at, !f.video)|
    ensures var pos := at + |Frames(fs)| + 8;
      var base := Base(if f.video then videoBase else audioBase, count, pos);
      && 0 <= pos - base < TWO32
      && Tracked(fs + [f], at, Store(index, count, f.video, pos - base, |f.data|),
                 if |Spans(fs, at, f.video)| < |Spans(fs, at, !f.video)| then count + 1 else count,
                 if f.video then base else videoBase, if f.video then audioBase else base)
  {
    hide Spans, Frames, Slots, Small, Near, FrameBytes, Datas, Dense;
    var pos := at + |Frames(fs)| + 8;
    var mine, other := Spans(fs, at, f.video), Spans(fs, at, !f.video);
    var was := if f.video then videoBase else audioBase;
    var base := Base(was, count, pos);
    SpansCount(fs, at);
    SpansSnoc(fs, at, f);
    OpenSize(fs, at, index, count, videoBase, audioBase);
    BaseRange(fs, at, index, was, f.video);
    SlotsRebase(mine, index, was, base, f.video);
    SlotsSnoc(mine, other, index, base, if f.video then audioBase else videoBase, f.video, Span(pos, |f.data|));
    SmallSnoc(fs, f);
    NearSnoc(fs, at, count, f);
    DenseSnoc(fs, at, count, videoBase, f);
  }

  lemma DenseSnoc(fs: seq<Frame>, at: nat, count: nat, videoBase: nat, f: Frame)
    requires Dense(fs, at, videoBase) && InTurn(|Spans(fs, at, true)|, |Spans(fs, at, false)|, count)
    requires |Spans(fs, at, f.video)| <= |Spans(fs, at, !f.video)|
    requires Spans(fs, at, true) != [] ==> videoBase == Spans(fs, at, true)[0].pos
    ensures Dense(fs + [f], at, if f.video then Base(videoBase, count, at + |Frames(fs)| + 8) else videoBase)
  {
    hide Spans, Frames, FrameBytes, Datas;
    SpansSnoc(fs, at, f);
    SpansCount(fs, at);
  }

  lemma BaseRange(fs: seq<Frame>, at: nat, index: seq<Row>, base: nat, video: bool)
    requires Slots(Spans(fs, at, video), index, base, video)
    ensures Spans(fs, at, video) != [] ==> at + 8 <= base <= at + |Frames(fs)|
  {
    if Spans(fs, at, video) != [] {
      SpanRange(fs, at, video, 0);
    }
  }

  lemma SlotsRebase(spans: seq<Span>, index: seq<Row>, was: nat, base: nat, video: bool)
    requires Slots(spans, index, was, video) && (spans != [] ==> base == was)
    ensures Slots(spans, index, base, video)
  {
  }

  lemma SmallSnoc(fs: seq<Frame>, f: Frame)
    requires Small(fs) && |f.data| <= FRAME_MAX
    ensures Small(fs + [f])
  {
  }

  lemma NearSnoc(fs: seq<Frame>, at: nat, count: nat, f: Frame)
    requires Near(fs, at, count) && |f.data| <= FRAME_MAX
    requires InTurn(|Spans(fs, at, true)|, |Spans(fs, at, false)|, count)
    requires |Spans(fs, at, f.video)| <= |Spans(fs, at, !f.video)|
    ensures Near(fs + [f], at, if |Spans(fs, at, f.video)| < |Spans(fs, at, !f.video)| then count + 1 else count)
    ensures count == 0 ==> at + |Frames(fs)| <= at + 2 * (FRAME_MAX + 8)
  {
    hide Spans, Frames, FrameBytes, Datas;
    SpansSnoc(fs, at, f);
    SpansCount(fs, at);
  }

  /** A 'movi' closed with this index is right. */
  lemma TrackedMovi(fs: seq<Frame>, at: nat, index: seq<Row>, count: nat, videoBase: nat, audioBase: nat)
    requires Tracked(fs, at + 12, index, count, videoBase, audioBase)
    requires at + 12 + FULL_MAX < TWO64 && videoBase < TWO64 && audioBase < TWO64
    ensures count <= |index| && MoviOk(Movi(fs, index[..count], videoBase, audioBase), at)
  {
    hide Spans, Frames, FrameBytes, Datas, MoviBody, Near;
    var m := Movi(fs, index[..count], videoBase, audioBase);
    SpansCount(fs, at + 12);
    CoversStream(m, at, index, count, true);
    CoversStream(m, at, index, count, false);
  }

  lemma CoversStream(m: Movi, at: nat, index: seq<Row>, count: nat, video: bool)
    requires var base := if video then m.videoBase else m.audioBase;
      Slots(Spans(m.frames, at + 12, video), index, base, video) && base < TWO64
    requires count <= |Spans(m.frames, at + 12, video)| && m.rows == index[..count]
    requires |Frames(m.frames)| <= FULL_MAX && Small(m.frames) && count < TWO32
    ensures Covers(m, at, video)
  {
    hide Frames, FrameBytes, Datas, Spans;
    var base := if video then m.videoBase else m.audioBase;
    var spans := Spans(m.frames, at + 12, video);
    forall j | 0 <= j < count
      ensures Offset(m.rows[j], video) < TWO32 && Length(m.rows[j], video) < TWO32
    {
      SpanRange(m.frames, at + 12, video, j);
      SpanRange(m.frames, at + 12, video, 0);
      assert Offset(index[j], video) == spans[j].pos - base;
    }
  }

  lemma TrackedNone(at: nat, index: seq<Row>, videoBase: nat, audioBase: nat)
    ensures Tracked([], at, index, 0, videoBase, audioBase) && Open(index, 0)
    ensures Spans([], at, true) == [] && Spans([], at, false) == []
  {
  }

  /** More room in the index changes nothing. */
  lemma TrackedGrow(fs: seq<Frame>, at: nat, index: seq<Row>, more: seq<Row>, count: nat, videoBase: nat, audioBase: nat)
    requires Tracked(fs, at, index, count, videoBase, audioBase) && Open(index, count)
    ensures Tracked(fs, at, index + more, count, videoBase, audioBase) && Open(index + more, count)
  {
    hide Spans, Frames, Near, Small;
  }

  lemma TrackedSize(fs: seq<Frame>, at: nat, index: seq<Row>, count: nat, videoBase: nat, audioBase: nat)
    requires Tracked(fs, at, index, count, videoBase, audioBase)
    ensures |Frames(fs)| <= FULL_MAX && count <= |index|
  {
  }

  lemma TrackedCounts(fs: seq<Frame>, at: nat, f: Frame, index: seq<Row>, count: nat, videoBase: nat, audioBase: nat)
    requires Tracked(fs, at, index, count, videoBase, audioBase)
    ensures |Spans(fs + [f], at, f.video)| == |Spans(fs, at, f.video)| + 1
    ensures |Spans(fs + [f], at, !f.video)| == |Spans(fs, at, !f.video)|
    ensures InTurn(|Spans(fs, at, true)|, |Spans(fs, at, false)|, count)
  {
    hide Spans, Frames;
    SpansSnoc(fs, at, f);
  }

  /** With as many video as audio frames, all are indexed. */
  lemma PairsOnly(fs: seq<Frame>, at: nat, index: seq<Row>, count: nat, videoBase: nat, audioBase: nat)
    requires Tracked(fs, at, index, count, videoBase, audioBase)
    requires |Spans(fs, at, true)| == |Spans(fs, at, false)|
    ensures |fs| == 2 * count
  {
    SpansCount(fs, at);
  }
}
