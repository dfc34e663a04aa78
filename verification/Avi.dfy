/** The AVI recorder: it appends to a file and goes back to fill in sizes. */
module Avi {
  import Arith
  import opened AviBytes
  import opened AviLayout
  import opened AviFile
  import opened AviIndex

  const ALLOC_SIZE := 50000

  function OpenHead(first: bool): (b: Bytes)
    ensures |b| == if first then 12 else 24
  {
    if first then ListHead("movi", 0) else RiffHead("AVIX", 0) + ListHead("movi", 0)
  }

  class Recorder {
    var file: Bytes
    var pos: nat
    const fixed: Fixed
    const text: Bytes
    const width: nat
    const height: nat
    var head: Header
    var totalVideo: nat
    var totalAudio: nat
    var totalSamples: nat
    var riffStart: nat
    var moviStart: nat
    var moviCount: nat
    var videoBase: nat
    var audioBase: nat
    var index: seq<Row>
    var count: nat
    /** The 'movi' lists closed so far, the frames of the open one, and whether frames came in
        turn and of a size that the 32-bit fields can hold. */
    ghost var closed: seq<Movi>
    ghost var frames: seq<Frame>
    ghost var inTurn: bool

    /** Everything before the first 'movi', as it is in the file while recording. */
    ghost const blank: Bytes

    /** The file is what was recorded, with the sizes of the open chunks still zero. */
    ghost predicate Laid()
      reads this`file, this`pos, this`closed, this`frames, this`riffStart, this`moviStart, this`moviCount
    {
      && pos == |file| && |blank| == StartLength(text) && moviCount == |closed|
      && file == blank + Parts(closed) + OpenHead(closed == []) + Frames(frames)
      && riffStart == (if closed == [] then 0 else |blank| + |Parts(closed)|)
      && moviStart == |blank| + |Parts(closed)| + (if closed == [] then 0 else 12)
    }

    /** Open the file, write the header, the text and the start of the first 'movi'. */
    constructor (fixed: Fixed, text: Bytes, width: nat, height: nat)
      requires Sized(fixed) && |text| <= TEXT_MAX
      ensures Valid() && inTurn && Recorded() == [] && moviCount == 0 && totalVideo == totalAudio == 0
    {
      hide HeaderBytes, InfoBytes, Valid;
      this.fixed, this.text, this.width, this.height := fixed, text, width, height;
      head := Header(0, 0, 0, 0, [], []);
      file, pos := [], 0;
      totalVideo, totalAudio, totalSamples := 0, 0, 0;
      riffStart, moviStart, moviCount := 0, StartLength(text), 0;
      videoBase, audioBase, count := 0, 0, 0;
      index := seq(ALLOC_SIZE, i => Row(0, 0, 0, 0));
      closed, frames, inTurn := [], [], true;
      blank := HeaderBytes(fixed, Header(0, 0, 0, 0, [], [])) + InfoBytes(text);
      new;
      Begin();
      FramesNone();
    }

    /** Nothing has been written or recorded. */
    ghost predicate Fresh()
      reads this
    {
      && Sized(fixed) && |text| <= TEXT_MAX && head == Header(0, 0, 0, 0, [], []) && file == [] && pos == 0
      && totalVideo == totalAudio == totalSamples == 0 && riffStart == moviCount == videoBase == audioBase == count == 0
      && closed == [] && frames == [] && inTurn && blank == HeaderBytes(fixed, head) + InfoBytes(text)
    }

    /** Write the header, the text and the start of the first 'movi'. */
    method Begin()
      requires Fresh()
      modifies this`file, this`pos, this`moviStart
      ensures Valid()
    {
      hide HeaderBytes, InfoBytes, Parts, Frames, AllFrames, Tracked, ListHead, Complete, AllOk, Spans, Open, FullyIndexed,
        Counts, Datas, Samples, StartLength;
      Append(HeaderBytes(fixed, head));
      Append(InfoBytes(text));
      moviStart := pos;
      Append(ListHead("movi", 0));
      FramesNone();
      FreshHeader(|blank|);
      TrackedNone(moviStart + 12, index, 0, 0);
      BlankIs(fixed, head, text);
      assert Recorded() == [];
    }

    /** fwrite at the current position. */
    method Write(bytes: Bytes)
      requires pos <= |file|
      modifies this`file, this`pos
      ensures file == Overwrite(old(file), old(pos), bytes) && pos == old(pos) + |bytes|
    {
      file := Overwrite(file, pos, bytes);
      pos := pos + |bytes|;
    }

    /** fwrite at the end of the file. */
    method Append(bytes: Bytes)
      requires pos == |file|
      modifies this`file, this`pos
      ensures file == old(file) + bytes && pos == |file|
    {
      OverwriteEnd(file, bytes);
      Write(bytes);
    }

    /** Fill in the size of the chunk that starts at `at`, and come back to the end. */
    method FillSize(at: nat, size: nat, ghost before: Bytes, ghost id: string, ghost after: Bytes)
      requires |id| == 4 && file == before + ChunkHead(id, 0) + after && at == |before|
      modifies this`file, this`pos
      ensures file == before + ChunkHead(id, size) + after && pos == |file|
    {
      hide Le, Id;
      pos := at + 4;
      assert file == (before + Id(id)) + Le(0, 4) + after;
      OverwriteMiddle(before + Id(id), Le(0, 4), after, Le(size, 4));
      Write(Le(size, 4));
      assert file == before + ChunkHead(id, size) + after;
      pos := |file|;
    }

    /** Write the index of one stream; give what its super index entry must say. */
    method WriteIndex(video: bool) returns (entry: SuperEntry)
      requires pos == |file| && count <= |index|
      modifies this`file, this`pos
      ensures file == old(file) + IndexBytes(Movi([], index[..count], videoBase, audioBase), video) && pos == |file|
      ensures entry == SuperEntry(old(|file|), 32 + 8 * count, if video then count else AudioLength(index[..count]))
    {
      hide IndexHead, Entries, AudioLength;
      var base := if video then videoBase else audioBase;
      var start, duration := pos, if video then count else 0;
      ghost var was := file;
      Append(IndexHead(video, base, count));
      ghost var begun := file;
      EntriesStart(index, video, begun);
      for i := 0 to count
        invariant pos == |file| && file == begun + Entries(index[..i], video)
        invariant duration == if video then count else AudioLength(index[..i])
      {
        EntriesSnoc(index, i, video);
        Append(Le(Offset(index[i], video), 4) + Le(Length(index[i], video), 4));
        if !video { duration := duration + index[i].audioLength; }
      }
      entry := SuperEntry(start, 32 + 8 * count, duration);
      assert file == was + (IndexHead(video, base, count) + Entries(index[..count], video));
    }

    /** The 'movi' that closing now would make. */
    ghost function OpenMovi(): Movi
      requires count <= |index|
      reads this`frames, this`index, this`count, this`videoBase, this`audioBase
    {
      Movi(frames, index[..count], videoBase, audioBase)
    }

    /** Between closing a 'movi' and going on or stopping. */
    ghost predicate Between()
      reads this`file, this`pos, this`closed, this`moviCount, this`frames
    {
      && pos == |file| && |blank| == StartLength(text) && closed != [] && moviCount + 1 == |closed|
      && file == blank + Parts(closed) && frames == []
    }

    /** Write both indexes at the end and enter them in the super indexes. */
    method WriteAllIndexes()
      requires pos == |file| && count <= |index| && moviCount < SUPER_INDEX_SIZE
      requires |head.video| == |head.audio| == moviCount
      modifies this`file, this`pos, this`head
      ensures file == old(file) + IndexBytes(OpenMovi(), true) + IndexBytes(OpenMovi(), false) && pos == |file|
      ensures head == old(head).(
        video := old(head).video + [SuperEntry(old(|file|), 32 + 8 * count, count)],
        audio := old(head).audio
               + [SuperEntry(old(|file|) + 32 + 8 * count, 32 + 8 * count, AudioLength(index[..count]))])
    {
      hide IndexHead, Entries, AudioLength;
      var entry := WriteIndex(true);
      head := head.(video := head.video[..moviCount] + [entry]);
      entry := WriteIndex(false);
      head := head.(audio := head.audio[..moviCount] + [entry]);
    }

    /** Fill in the sizes of the chunks that end here. */
    method FillSizes(ghost lead: Bytes, ghost m: Movi)
      requires pos == |file|
      requires file == lead + OpenHead(moviCount == 0) + Frames(m.frames) + IndexBytes(m, true) + IndexBytes(m, false)
      requires moviStart == |lead| + (if moviCount == 0 then 0 else 12) && (moviCount > 0 ==> riffStart == |lead|)
      modifies this`file, this`pos
      ensures file == lead + Part(moviCount, m) && pos == |file| == old(pos)
    {
      hide IndexBytes, Frames, ChunkHead, Id, RiffHead, ListHead, MoviBytes, Part;
      var end := pos;
      ghost var riff := if moviCount == 0 then [] else RiffHead("AVIX", 0);
      ListOpen(lead, moviCount == 0, m);
      FillSize(moviStart, end - moviStart - 8, lead + riff, "LIST", Id("movi") + MoviBody(m));
      ListFilled(lead, moviCount == 0, m);
      if moviCount > 0 {
        FillSize(riffStart, end - riffStart - 8, lead, "RIFF", Id("AVIX") + MoviBytes(m));
        RiffFilled(lead, m);
      }
      PartIs(moviCount, m);
    }

    /** Write both indexes and fill in the sizes. */
    method CloseMovi()
      requires Laid() && Headed() && Tallied() && count <= |index| && moviCount < SUPER_INDEX_SIZE
      modifies this`file, this`pos, this`head, this`closed, this`frames
      ensures Between() && Headed() && closed == old(closed) + [old(OpenMovi())] && |file| >= old(|file|)
      ensures head.allFrames == totalVideo
      ensures old(closed) == [] ==>
        head.riffSize == |file| - 8 && head.firstFrames == totalVideo && head.firstSamples == totalSamples
      ensures old(closed) != [] ==>
        head.riffSize == old(head).riffSize && head.firstFrames == old(head).firstFrames
        && head.firstSamples == old(head).firstSamples
    {
      hide IndexBytes, AudioLength, Frames, Parts, OpenHead, Part, Complete, SuperOf;
      hide Datas, Samples, AllFrames, Counts;
      ghost var m, lead, was := OpenMovi(), blank + Parts(closed), head;
      CompleteLengths(head, |blank|, closed);
      WriteAllIndexes();
      FillSizes(lead, m);
      head := head.(allFrames := totalVideo);
      if moviCount == 0 {
        head := head.(riffSize := pos - 8, firstFrames := totalVideo, firstSamples := totalSamples);
      }
      PartsSnoc(blank, closed, m);
      HeaderClosed(was, head, |blank|, closed, m, |file|);
      FramesOpen(closed, frames);
      CountsSnoc(was, head, closed, m);
      closed, frames := closed + [m], [];
    }

    /** All frames recorded, in order. */
    ghost function Recorded(): seq<Frame>
      reads this`closed, this`frames
    {
      AllFrames(closed) + frames
    }

    /** The header and everything closed are right so far. */
    ghost predicate Headed()
      reads this`head, this`closed
    {
      && Sized(fixed) && |text| <= TEXT_MAX && |blank| == StartLength(text) && blank[HEADER_SIZE..] == InfoBytes(text)
      && |closed| <= SUPER_INDEX_SIZE && Complete(head, |blank|, closed) && Counts(head, closed)
    }

    /** The counters, of recorded samples and of frames counted so far. */
    ghost predicate Tally(recorded: seq<Frame>, counted: seq<Frame>)
      reads this`totalVideo, this`totalAudio, this`totalSamples
    {
      && totalVideo == |Datas(counted, true)| && totalAudio == |Datas(counted, false)|
      && totalSamples == Samples(recorded)
    }

    ghost predicate Tallied()
      reads this`totalVideo, this`totalAudio, this`totalSamples, this`closed, this`frames
    {
      Tally(Recorded(), Recorded())
    }

    /** The index follows frames `fs` of the open 'movi', and what is closed has right indexes. */
    ghost predicate Follows(fs: seq<Frame>, videos: nat, audios: nat)
      reads this`closed, this`index, this`count, this`moviStart, this`videoBase, this`audioBase, this`file
    {
      && AllOk(|blank|, closed) && FullyIndexed(closed)
      && Tracked(fs, moviStart + 12, index, count, videoBase, audioBase)
      && videoBase <= |file| && audioBase <= |file|
      && |Spans(fs, moviStart + 12, true)| + audios == |Spans(fs, moviStart + 12, false)| + videos
    }

    ghost predicate Valid()
      reads this
    {
      && Laid() && Headed() && Tallied() && count <= |index|
      && (inTurn ==> Follows(frames, totalVideo, totalAudio) && Open(index, count))
    }

    /** Start the next RIFF chunk with its 'movi'. */
    method CreateNewMovi()
      requires Laid() && Headed() && Tallied() && count <= |index| && moviCount < SUPER_INDEX_SIZE
      modifies this`file, this`pos, this`head, this`closed, this`frames, this`moviCount, this`count,
               this`riffStart, this`moviStart
      ensures Laid() && Headed() && closed == old(closed) + [old(OpenMovi())] && frames == [] && count == 0
      ensures |file| >= old(|file|)
    {
      hide Frames, Parts, MoviBytes, MoviBody, RiffHead, ListHead, Complete, Counts, Datas, Samples, AllFrames, Sized, StartLength;
      CloseMovi();
      moviCount := moviCount + 1;
      count := 0;
      riffStart := pos;
      Append(RiffHead("AVIX", 0));
      moviStart := pos;
      Append(ListHead("movi", 0));
      FramesNone();
      assert file == blank + Parts(closed) + OpenHead(false) + Frames([]);
    }

    /** Make room in the index when it is full. */
    method GrowIfNeeded()
      requires count <= |index|
      modifies this`index
      ensures count < |index| && old(index) <= index
    {
      if count == |index| {
        index := index + seq(ALLOC_SIZE, i => Row(0, 0, 0, 0));
      }
    }

    /** Store offset and length of the frame just written; count the pair if it completes one. */
    method StoreFrame(video: bool, framePos: nat, length: nat, ghost fs: seq<Frame>, ghost f: Frame)
      returns (pair: bool)
      requires count <= |index| && f.video == video && length == |f.data|
      requires framePos == moviStart + 12 + |Frames(fs)| + 8 <= |file|
      requires inTurn ==> Taken(fs, f)
      modifies this`count, this`index, this`videoBase, this`audioBase
      ensures count <= |index| && pair == (totalVideo == totalAudio) && (pair ==> count > 0)
      ensures inTurn ==> Follows(fs + [f], totalVideo, totalAudio) && (!pair ==> Open(index, count))
    {
      hide Frames, Spans, Parts, AllOk, FullyIndexed, Tracked;
      ghost var was, at := index, moviStart + 12;
      GrowIfNeeded();
      if inTurn {
        TrackedGrow(fs, at, was, index[|was|..], count, videoBase, audioBase);
        assert index == was + index[|was|..];
        TrackedSnoc(fs, at, index, count, videoBase, audioBase, f);
        TrackedCounts(fs, at, f, index, count, videoBase, audioBase);
        NoWrap(framePos - Base(if video then videoBase else audioBase, count, framePos));
        NoWrap(length);
      }
      FillRow(video, framePos, length);
      pair := totalVideo == totalAudio;
      if pair {
        count := count + 1;
      }
    }

    /** Fill in one half of the current row; the first frame of a 'movi' is the base of its stream. */
    method FillRow(video: bool, framePos: nat, length: nat)
      requires count < |index|
      modifies this`index, this`videoBase, this`audioBase
      ensures videoBase == if video then Base(old(videoBase), count, framePos) else old(videoBase)
      ensures audioBase == if video then old(audioBase) else Base(old(audioBase), count, framePos)
      ensures index == Store(old(index), count, video,
                             (framePos - if video then videoBase else audioBase) % TWO32, length % TWO32)
    {
      if video {
        if count == 0 { videoBase := framePos; }
        index := Store(index, count, true, (framePos - videoBase) % TWO32, length % TWO32);
      } else {
        if count == 0 { audioBase := framePos; }
        index := Store(index, count, false, (framePos - audioBase) % TWO32, length % TWO32);
      }
    }

    /** Note where the frame just written is; when a pair is complete and its video frame lies
        beyond the limit, go on in a new 'movi'. */
    method FrameIndexAdd(video: bool, framePos: nat, length: nat, ghost fs: seq<Frame>, ghost f: Frame)
      requires Laid() && Headed() && Tallied() && count <= |index| && moviCount < SUPER_INDEX_SIZE && frames == fs + [f]
      requires f.video == video && length == |f.data|
      requires framePos == moviStart + 12 + |Frames(fs)| + 8 <= |file|
      requires inTurn ==> Taken(fs, f)
      modifies this`file, this`pos, this`head, this`closed, this`frames, this`moviCount, this`count,
               this`riffStart, this`moviStart, this`index, this`videoBase, this`audioBase
      ensures Valid() && Recorded() == old(Recorded()) && moviCount <= old(moviCount) + 1
    {
      hide Frames, Spans, Parts, Complete, AllOk, Tracked, AllFrames, Sized;
      var pair := StoreFrame(video, framePos, length, fs, f);
      if pair && index[count - 1].videoOffset > MOVI_MAX {
        RollOver();
      }
    }

    /** Close a 'movi' whose last pair is complete and start the next. */
    method RollOver()
      requires Laid() && Headed() && Tallied() && count <= |index| && moviCount < SUPER_INDEX_SIZE && totalVideo == totalAudio
      requires inTurn ==> Follows(frames, totalVideo, totalAudio)
      modifies this`file, this`pos, this`head, this`closed, this`frames, this`moviCount, this`count,
               this`riffStart, this`moviStart
      ensures Valid() && Recorded() == old(Recorded()) && moviCount <= old(moviCount) + 1
    {
      hide Parts, Complete, AllOk, AllFrames, FullyIndexed, Headed, Follows, Open;
      ghost var ms, m := closed, OpenMovi();
      if inTurn {
        ClosedOk();
        ClosedIndexed();
      }
      CreateNewMovi();
      AllFramesSnoc(ms, m);
      assert Recorded() == AllFrames(ms) + m.frames;
      if inTurn { FollowsNew(); }
    }

    lemma ClosedIndexed()
      requires count <= |index| && totalVideo == totalAudio && Follows(frames, totalVideo, totalAudio)
      ensures FullyIndexed(closed + [OpenMovi()]) && videoBase <= |file| && audioBase <= |file|
    {
      hide Frames, Spans, AllOk, Tracked;
      PairsOnly(frames, moviStart + 12, index, count, videoBase, audioBase);
    }

    /** Nothing is noted yet in a new 'movi'. */
    lemma FollowsNew()
      requires frames == [] && count == 0 && totalVideo == totalAudio
      requires AllOk(|blank|, closed) && FullyIndexed(closed) && videoBase <= |file| && audioBase <= |file|
      ensures Follows(frames, totalVideo, totalAudio) && Open(index, count)
    {
      hide Frames, Spans, AllOk, Tracked, FullyIndexed, Open;
      TrackedNone(moviStart + 12, index, videoBase, audioBase);
    }

    /** What closing adds is right. */
    lemma ClosedOk()
      requires Laid() && Headed() && count <= |index| && moviCount < SUPER_INDEX_SIZE
      requires Follows(frames, totalVideo, totalAudio)
      ensures AllOk(|blank|, closed + [OpenMovi()]) && FullyIndexed(closed)
    {
      hide Frames, Spans, Complete, MoviBytes, AllOk, Tracked, FullyIndexed, Sized, MoviOk, Parts, OpenHead;
      PartsBound(|blank|, closed);
      TrackedSize(frames, moviStart + 12, index, count, videoBase, audioBase);
      TrackedMovi(frames, moviStart, index, count, videoBase, audioBase);
      AllOkSnoc(|blank|, closed, OpenMovi());
    }

    /** The state just after frame f of its stream was written and counted, f coming in turn. */
    ghost predicate Taken(fs: seq<Frame>, f: Frame)
      reads this`closed, this`index, this`count, this`moviStart, this`videoBase, this`audioBase, this`file,
            this`totalVideo, this`totalAudio
    {
      && (if f.video then totalVideo > 0 && Follows(fs, totalVideo - 1, totalAudio)
          else totalAudio > 0 && Follows(fs, totalVideo, totalAudio - 1))
      && Open(index, count) && |f.data| <= FRAME_MAX
      && |Spans(fs, moviStart + 12, f.video)| <= |Spans(fs, moviStart + 12, !f.video)|
    }

    /** Frame f was appended: count it and note it in the index. */
    method FrameDone(video: bool, framePos: nat, ghost fs: seq<Frame>, ghost f: Frame)
      requires f.video == video && moviCount < SUPER_INDEX_SIZE
      requires Laid() && Headed() && count <= |index| && frames == fs + [f] && framePos == pos - |f.data|
      requires Tally(Recorded(), AllFrames(closed) + fs)
      requires inTurn ==> Follows(fs, totalVideo, totalAudio) && Open(index, count)
      modifies this`file, this`pos, this`head, this`closed, this`frames, this`moviCount, this`count,
               this`riffStart, this`moviStart, this`index, this`videoBase, this`audioBase,
               this`totalVideo, this`totalAudio, this`inTurn
      ensures Valid() && Recorded() == old(Recorded()) && moviCount <= old(moviCount) + 1
      ensures totalVideo == old(totalVideo) + (if video then 1 else 0)
      ensures totalAudio == old(totalAudio) + (if video then 0 else 1)
      ensures inTurn == (old(inTurn) && InOrder(video, old(totalVideo), old(totalAudio)) && FrameFits(f))
    {
      hide Frames, Spans, Parts, Complete, AllOk, Tracked, AllFrames, Headed, Datas, Samples, FullyIndexed, OpenHead;
      FramesSnoc(fs, f);
      CountSnoc(AllFrames(closed), fs, f);
      inTurn := inTurn && InOrder(video, totalVideo, totalAudio) && FrameFits(f);
      if video {
        totalVideo := totalVideo + 1;
      } else {
        totalAudio := totalAudio + 1;
      }
      FrameIndexAdd(video, framePos, pos - framePos, fs, f);
    }

    /** One line of the picture, as 24-bit pixels. */
    method ConvertLine(s: Surface, y: nat) returns (line: Bytes)
      requires y < height && Readable(s, width, height)
      ensures line == LineTo(s, width, height, y, width)
    {
      line := [];
      var source := s.h - 1 - s.cropTop - s.cropBottom;
      source := source - (y * (source + 1) + height / 2) / height;
      for x := 0 to width
        invariant line == LineTo(s, width, height, y, x)
      {
        var from := s.pitch * source + s.cropLeft + (x * s.w + width / 2) / width;
        assert from == Place(s, width, height, x, y);
        var p := s.pixels[from];
        line := line + [p.blue, p.green, p.red];
      }
    }

    /** Append a picture, bottom line first. */
    method WritePicture(s: Surface)
      requires pos == |file| && Readable(s, width, height)
      modifies this`file, this`pos
      ensures pos == |file| && file == old(file) + FrameBytes(Frame(true, Picture(s, width, height)))
    {
      hide ChunkHead, LineTo, Readable, FrameBytes;
      ghost var was := file;
      PictureSize(s, width, height, height);
      assert 3 * width * height == width * height * 24 / 8 by { assert width * height * 24 == 3 * width * height * 8; }
      Append(ChunkHead("00db", width * height * 24 / 8));
      ghost var begun := file;
      assert begun + [] == begun;
      for y := 0 to height
        invariant pos == |file| && file == begun + PictureTo(s, width, height, y)
      {
        var line := ConvertLine(s, y);
        Append(line);
      }
      Chunked(was, Frame(true, Picture(s, width, height)));
    }

    method RecordVideo(s: Surface)
      requires Valid() && moviCount < SUPER_INDEX_SIZE && Readable(s, width, height)
      modifies this`file, this`pos, this`head, this`closed, this`frames, this`moviCount, this`count,
               this`riffStart, this`moviStart, this`index, this`videoBase, this`audioBase,
               this`totalVideo, this`totalAudio, this`inTurn
      ensures Valid() && moviCount <= old(moviCount) + 1
      ensures Recorded() == old(Recorded()) + [Frame(true, Picture(s, width, height))]
      ensures inTurn == (old(inTurn) && old(totalVideo) <= old(totalAudio)
                         && FrameFits(Frame(true, Picture(s, width, height))))
      ensures totalVideo == old(totalVideo) + 1 && totalAudio == old(totalAudio)
    {
      hide Frames, Spans, Parts, Complete, MoviBytes, AllOk, Tracked, Slots, Sized, FrameBytes, Headed, Picture, Readable, Open, OpenHead, FullyIndexed,
           StartLength, AllFrames, Datas, Samples;
      ghost var fs, f := frames, Frame(true, Picture(s, width, height));
      var start := pos;
      WritePicture(s);
      Extend(blank, closed, frames, f);
      CountSnoc(AllFrames(closed), fs, f);
      frames := frames + [f];
      FrameDone(true, start + 8, fs, f);
    }

    /** Append one sample of each channel. */
    method WriteSample(sample: (int, int))
      requires pos == |file|
      modifies this`file, this`pos
      ensures pos == |file| && file == old(file) + SampleBytes(sample)
    {
      hide Le;
      Append(SampleBytes(sample));
    }

    /** Append samples from a ring buffer, 16 bits for each of two channels. */
    method WriteSamples(samples: seq<(int, int)>, first: nat, length: nat)
      requires pos == |file| && |samples| > 0
      modifies this`file, this`pos
      ensures pos == |file| && file == old(file) + FrameBytes(Frame(false, Pcm(samples, first, length)))
    {
      hide ChunkHead, Pcm, SampleBytes, FrameBytes;
      ghost var was := file;
      Append(ChunkHead("01wb", length * 4));
      ghost var begun := file;
      PcmNone(samples, first, begun);
      var idx := first % |samples|;
      for i := 0 to length
        invariant pos == |file| && file == begun + Pcm(samples, first, i)
        invariant idx == (first + i) % |samples|
      {
        PcmNext(samples, first, i);
        WriteSample(samples[idx]);
        NextIndex(first + i, |samples|);
        idx := (idx + 1) % |samples|;
      }
      Chunked(was, Frame(false, Pcm(samples, first, length)));
    }

    method RecordAudio(samples: seq<(int, int)>, first: nat, length: nat)
      requires Valid() && moviCount < SUPER_INDEX_SIZE && |samples| > 0
      modifies this`file, this`pos, this`head, this`closed, this`frames, this`moviCount, this`count,
               this`riffStart, this`moviStart, this`index, this`videoBase, this`audioBase,
               this`totalVideo, this`totalAudio, this`totalSamples, this`inTurn
      ensures Valid() && moviCount <= old(moviCount) + 1
      ensures Recorded() == old(Recorded()) + [Frame(false, Pcm(samples, first, length))]
      ensures inTurn == (old(inTurn) && old(totalAudio) <= old(totalVideo)
                         && FrameFits(Frame(false, Pcm(samples, first, length))))
      ensures totalAudio == old(totalAudio) + 1 && totalVideo == old(totalVideo)
      ensures totalSamples == old(totalSamples) + length
    {
      hide Frames, Spans, Parts, Complete, MoviBytes, AllOk, Tracked, Slots, Sized, FrameBytes, Headed, Pcm, Open, OpenHead, FullyIndexed,
           StartLength, AllFrames, Datas, Samples;
      ghost var fs, f := frames, Frame(false, Pcm(samples, first, length));
      var start := pos;
      WriteSamples(samples, first, length);
      Extend(blank, closed, frames, f);
      CountSnoc(AllFrames(closed), fs, f);
      frames := frames + [f];
      totalSamples := totalSamples + length;
      FrameDone(false, start + 8, fs, f);
    }

    /** Finish the last 'movi' and rewrite the header with all that is known now. */
    method StopRecording()
      requires Valid() && moviCount < SUPER_INDEX_SIZE
      modifies this`file, this`pos, this`head, this`closed, this`frames
      ensures AllFrames(closed) == old(Recorded()) && |closed| == moviCount + 1
      ensures Ended(file, fixed, head, text, closed)
      ensures inTurn ==> Finished(file, fixed, head, text, closed)
    {
      hide AllFrames, Parts, Complete, AllOk, Headed, Ended, Follows, Laid;
      ghost var ms, m := closed, OpenMovi();
      if inTurn { ClosedOk(); }
      CloseMovi();
      AllFramesSnoc(ms, m);
      assert closed[..|closed| - 1] == ms;
      RewriteHeader();
    }

    /** Go back to the start of the file and write the header again. */
    method RewriteHeader()
      requires Between() && Headed()
      modifies this`file, this`pos
      ensures Ended(file, fixed, head, text, closed) && |blank| == StartLength(text)
    {
      hide Sized, HeaderBytes, InfoBytes, Parts, Complete, StartLength;
      CompleteLengths(head, |blank|, closed);
      StartLong(text);
      pos := 0;
      OverwriteHeader(blank, Parts(closed), HeaderBytes(fixed, head));
      Write(HeaderBytes(fixed, head));
    }
  }

  /** A frame keeps the turn if its stream is not ahead. */
  predicate InOrder(video: bool, videos: nat, audios: nat) {
    if video then videos <= audios else audios <= videos
  }

  predicate FrameFits(f: Frame) { |f.data| <= FRAME_MAX }

  datatype Pixel = Pixel(red: int, green: int, blue: int)

  /** What is on screen: rows of pixels `pitch` apart, and what is not to be recorded of it. */
  datatype Surface = Surface(pixels: seq<Pixel>, w: nat, h: nat, pitch: nat, cropLeft: nat, cropTop: nat, cropBottom: nat)

  function RowsOf(s: Surface): int { s.h - s.cropTop - s.cropBottom }

  /** The row of the surface for line y of the picture, and the place of pixel x of that line: the
      nearest ones if the surface is larger or smaller than the picture. */
  function SourceRow(rows: int, height: nat, y: nat): int
    requires height > 0
  {
    rows - 1 - (y * rows + height / 2) / height
  }

  function Place(s: Surface, width: nat, height: nat, x: nat, y: nat): int
    requires x < width && y < height
  {
    s.pitch * SourceRow(RowsOf(s), height, y) + s.cropLeft + (x * s.w + width / 2) / width
  }

  /** All pixels for a picture of this size are in the surface. */
  predicate Readable(s: Surface, width: nat, height: nat) {
    forall x: nat, y: nat :: x < width && y < height ==> 0 <= Place(s, width, height, x, y) < |s.pixels|
  }

  function PixelIn(s: Surface, width: nat, height: nat, x: nat, y: nat): Pixel
    requires x < width && y < height && Readable(s, width, height)
  {
    assert 0 <= Place(s, width, height, x, y) < |s.pixels|;
    s.pixels[Place(s, width, height, x, y)]
  }

  /** The first n pixels of a line. */
  function LineTo(s: Surface, width: nat, height: nat, y: nat, n: nat): (b: Bytes)
    requires n <= width && y < height && Readable(s, width, height)
    ensures |b| == 3 * n
  {
    if n == 0 then []
    else
      var p := PixelIn(s, width, height, n - 1, y);
      LineTo(s, width, height, y, n - 1) + [p.blue, p.green, p.red]
  }

  /** The first n lines of the picture, and the picture. */
  function PictureTo(s: Surface, width: nat, height: nat, n: nat): Bytes
    requires n <= height && Readable(s, width, height)
  {
    if n == 0 then [] else PictureTo(s, width, height, n - 1) + LineTo(s, width, height, n - 1, width)
  }

  function Picture(s: Surface, width: nat, height: nat): Bytes
    requires Readable(s, width, height)
  {
    PictureTo(s, width, height, height)
  }

  lemma {:induction false} PictureSize(s: Surface, width: nat, height: nat, n: nat)
    requires n <= height && Readable(s, width, height)
    ensures |PictureTo(s, width, height, n)| == 3 * width * n
  {
    hide LineTo;
    if n > 0 {
      PictureSize(s, width, height, n - 1);
      assert 3 * width * n == 3 * width * (n - 1) + 3 * width;
    }
  }

  lemma {:induction false} PixelOfLine(s: Surface, width: nat, height: nat, y: nat, n: nat, x: nat)
    requires x < n <= width && y < height && Readable(s, width, height)
    ensures var p := PixelIn(s, width, height, x, y);
      LineTo(s, width, height, y, n)[3 * x..3 * x + 3] == [p.blue, p.green, p.red]
  {
    hide PixelIn, Readable;
    if x < n - 1 {
      PixelOfLine(s, width, height, y, n - 1, x);
      assert LineTo(s, width, height, y, n)[3 * x..3 * x + 3] == LineTo(s, width, height, y, n - 1)[3 * x..3 * x + 3];
    }
  }

  /** Where pixel x of line y of the picture is in the frame. */
  lemma {:induction false} PixelOfPicture(s: Surface, width: nat, height: nat, n: nat, x: nat, y: nat)
    requires y < n <= height && x < width && Readable(s, width, height)
    ensures var at := 3 * width * y + 3 * x;
      var p := PixelIn(s, width, height, x, y);
      && 0 <= at && at + 3 <= |PictureTo(s, width, height, n)|
      && PictureTo(s, width, height, n)[at..at + 3] == [p.blue, p.green, p.red]
  {
    hide PixelIn, Readable, LineTo;
    PictureSize(s, width, height, n - 1);
    PixelOfLine(s, width, height, n - 1, width, x);
    Arith.MulMonotone(0, y, 3 * width);
    var upto, line := PictureTo(s, width, height, n - 1), LineTo(s, width, height, n - 1, width);
    if y < n - 1 {
      PixelOfPicture(s, width, height, n - 1, x, y);
      var at := 3 * width * y + 3 * x;
      assert (upto + line)[at..at + 3] == upto[at..at + 3];
    } else {
      assert (upto + line)[|upto| + 3 * x..|upto| + 3 * x + 3] == line[3 * x..3 * x + 3];
    }
  }

  /** A surface of the size of the picture is recorded pixel by pixel, bottom line first. */
  lemma PictureUnscaled(s: Surface, width: nat, height: nat, x: nat, y: nat)
    requires x < width && y < height && width == s.w && height == RowsOf(s) && Readable(s, width, height)
    ensures var from := s.pitch * (height - 1 - y) + s.cropLeft + x;
      0 <= from < |s.pixels| && PixelIn(s, width, height, x, y) == s.pixels[from]
  {
    Nearest(height, y);
    Nearest(width, x);
    PlaceUnscaled(s, width, height, x, y);
    assert 0 <= Place(s, width, height, x, y) < |s.pixels|;
  }

  /** Without scaling the nearest one is the one. */
  lemma Nearest(size: nat, i: nat)
    requires size > 0
    ensures (i * size + size / 2) / size == i
  {
    Arith.Division(i * size + size / 2, size, i, size / 2);
  }

  lemma PlaceUnscaled(s: Surface, width: nat, height: nat, x: nat, y: nat)
    requires x < width && y < height && width == s.w && height == RowsOf(s)
    requires (y * height + height / 2) / height == y && (x * width + width / 2) / width == x
    ensures Place(s, width, height, x, y) == s.pitch * (height - 1 - y) + s.cropLeft + x
  {
  }

  /** The rows read are rows of the surface exactly when the picture is less than about twice as high. */
  lemma RowsInsideIff(rows: nat, height: nat)
    requires height > 0
    ensures (forall y: nat :: y < height ==> 0 <= SourceRow(rows, height, y) < rows) <==> height / 2 < rows
  {
    if height / 2 < rows {
      forall y: nat | y < height ensures 0 <= SourceRow(rows, height, y) < rows { RowInside(rows, height, y); }
    } else {
      LastRowOutside(rows, height);
    }
  }

  lemma RowInside(rows: nat, height: nat, y: nat)
    requires height / 2 < rows && y < height
    ensures 0 <= SourceRow(rows, height, y) < rows
  {
    Arith.MulLess(y, height, rows);
    Arith.MulMonotone(0, y, rows);
    assert height * rows == rows * height;
    Arith.DivBound(y * rows + height / 2, rows, height);
  }

  lemma LastRowOutside(rows: nat, height: nat)
    requires 0 < height && height / 2 >= rows
    ensures SourceRow(rows, height, height - 1) < 0
  {
    Arith.MulLess(height - 1, height, rows);
    Arith.Distribute(height - 1, 1, rows);
    assert height * rows == rows * height;
    LastQuotient((height - 1) * rows + height / 2, rows, height);
  }

  lemma LastQuotient(n: nat, q: nat, d: nat)
    requires d > 0 && n >= q * d
    ensures n / d >= q
  {
    assert n == n / d * d + n % d;
    if n / d < q { Arith.MulMonotone(n / d + 1, q, d); }
  }

  /** Two signed 16-bit numbers, low byte first. */
  function SampleBytes(s: (int, int)): (b: Bytes)
    ensures |b| == 4
  {
    Le(s.0 % 0x10000, 2) + Le(s.1 % 0x10000, 2)
  }

  /** Samples from place `first` of a ring, low byte first, left before right. */
  function Pcm(samples: seq<(int, int)>, first: nat, n: nat): (b: Bytes)
    requires |samples| > 0
    ensures |b| == 4 * n
  {
    if n == 0 then []
    else
      Pcm(samples, first, n - 1) + SampleBytes(samples[(first + n - 1) % |samples|])
  }

  /** A chunk is its head and its data. */
  lemma Chunked(was: Bytes, f: Frame)
    ensures (was + ChunkHead(if f.video then "00db" else "01wb", |f.data|)) + f.data == was + FrameBytes(f)
  {
    hide ChunkHead;
  }

  lemma PcmNone(samples: seq<(int, int)>, first: nat, before: Bytes)
    requires |samples| > 0
    ensures before + Pcm(samples, first, 0) == before
  {
  }

  /** A 16-bit number with its sign. */
  function Signed16(n: int): int { if n < 0x8000 then n else n - 65536 }

  /** Sample i of a recorded frame, left and right, as a reader takes it. */
  lemma {:induction false} PcmSample(samples: seq<(int, int)>, first: nat, n: nat, i: nat)
    requires |samples| > 0 && i < n
    requires var s := samples[(first + i) % |samples|]; -0x8000 <= s.0 < 0x8000 && -0x8000 <= s.1 < 0x8000
    ensures var s, b := samples[(first + i) % |samples|], Pcm(samples, first, n);
      Signed16(Field(b, 4 * i, 2)) == s.0 && Signed16(Field(b, 4 * i + 2, 2)) == s.1
  {
    hide Le, Field;
    var before, last := Pcm(samples, first, n - 1), SampleBytes(samples[(first + n - 1) % |samples|]);
    if i < n - 1 {
      PcmSample(samples, first, n - 1, i);
      SameField(before, last, 4 * i);
      SameField(before, last, 4 * i + 2);
    } else {
      var s := samples[(first + i) % |samples|];
      var b := Pcm(samples, first, n);
      assert At(b, 4 * i, Le(s.0 % 0x10000, 2)) && At(b, 4 * i + 2, Le(s.1 % 0x10000, 2));
      Field16(b, 4 * i, s.0 % 0x10000);
      Field16(b, 4 * i + 2, s.1 % 0x10000);
      SignedBack(s.0);
      SignedBack(s.1);
    }
  }

  lemma SameField(a: Bytes, b: Bytes, at: nat)
    requires at + 2 <= |a|
    ensures Field(a + b, at, 2) == Field(a, at, 2)
  {
    assert Field(a, at, 2) == a[at] + 256 * (a[at + 1] + 256 * 0);
    assert Field(a + b, at, 2) == (a + b)[at] + 256 * ((a + b)[at + 1] + 256 * 0);
  }

  lemma SignedBack(n: int)
    requires -0x8000 <= n < 0x8000
    ensures Signed16(n % 65536 % 65536) == n
  {
  }

  lemma PcmNext(samples: seq<(int, int)>, first: nat, i: nat)
    requires |samples| > 0
    ensures Pcm(samples, first, i + 1) == Pcm(samples, first, i) + SampleBytes(samples[(first + i) % |samples|])
  {
    hide SampleBytes;
  }

  lemma NextIndex(n: nat, size: nat)
    requires size > 0
    ensures (n % size + 1) % size == (n + 1) % size
  {
    var q, r := n / size, n % size;
    assert n == q * size + r;
    if r + 1 == size {
      assert (q + 1) * size == q * size + size;
      Arith.Division(n + 1, size, q + 1, 0);
      Arith.Division(r + 1, size, 1, 0);
    } else {
      Arith.Division(n + 1, size, q, r + 1);
      Arith.Division(r + 1, size, 0, r + 1);
    }
  }

  /** The file with one more frame appended. */
  lemma Extend(blank: Bytes, closed: seq<Movi>, fs: seq<Frame>, f: Frame)
    ensures blank + Parts(closed) + OpenHead(closed == []) + Frames(fs) + FrameBytes(f)
         == blank + Parts(closed) + OpenHead(closed == []) + Frames(fs + [f])
  {
    hide Parts, OpenHead, FrameBytes;
    assert (fs + [f])[..|fs|] == fs;
  }

  lemma FramesSnoc(fs: seq<Frame>, f: Frame)
    ensures |Frames(fs + [f])| == |Frames(fs)| + 8 + |f.data|
  {
    hide FrameBytes;
    assert (fs + [f])[..|fs|] == fs;
  }

  lemma BlankIs(x: Fixed, h: Header, text: Bytes)
    requires Sized(x) && |h.video| <= SUPER_INDEX_SIZE && |h.audio| <= SUPER_INDEX_SIZE
    ensures var blank := HeaderBytes(x, h) + InfoBytes(text);
      |blank| == StartLength(text) && blank[HEADER_SIZE..] == InfoBytes(text)
  {
    hide HeaderBytes, InfoBytes;
  }

  lemma StartLong(text: Bytes)
    ensures StartLength(text) >= HEADER_SIZE
  {
  }

  lemma OverwriteHeader(blank: Bytes, parts: Bytes, header: Bytes)
    requires |header| == HEADER_SIZE && |blank| >= HEADER_SIZE
    ensures Overwrite(blank + parts, 0, header) == header + blank[HEADER_SIZE..] + parts
  {
    assert blank + parts == [] + blank[..HEADER_SIZE] + (blank[HEADER_SIZE..] + parts);
    OverwriteMiddle([], blank[..HEADER_SIZE], blank[HEADER_SIZE..] + parts, header);
  }

  /** The open 'movi' with its indexes written, as a list chunk without its size. */
  lemma ListOpen(lead: Bytes, first: bool, m: Movi)
    ensures var riff := if first then [] else RiffHead("AVIX", 0);
      lead + OpenHead(first) + Frames(m.frames) + IndexBytes(m, true) + IndexBytes(m, false)
        == lead + riff + ChunkHead("LIST", 0) + (Id("movi") + MoviBody(m))
  {
    hide Frames, IndexBytes, ChunkHead, Id, RiffHead;
  }

  /** The same with its size; and, for a later one, as the content of its RIFF chunk. */
  lemma ListFilled(lead: Bytes, first: bool, m: Movi)
    ensures var riff := if first then [] else RiffHead("AVIX", 0);
      lead + riff + ChunkHead("LIST", 4 + |MoviBody(m)|) + (Id("movi") + MoviBody(m)) == lead + riff + MoviBytes(m)
    ensures lead + RiffHead("AVIX", 0) + MoviBytes(m) == lead + ChunkHead("RIFF", 0) + (Id("AVIX") + MoviBytes(m))
  {
    hide MoviBody, ChunkHead, Id;
  }

  lemma RiffFilled(lead: Bytes, m: Movi)
    ensures lead + ChunkHead("RIFF", 4 + |MoviBytes(m)|) + (Id("AVIX") + MoviBytes(m))
         == lead + (RiffHead("AVIX", 4 + |MoviBytes(m)|) + MoviBytes(m))
  {
    hide MoviBytes, ChunkHead, Id;
  }

  lemma PartIs(i: nat, m: Movi)
    ensures Part(i, m) == if i == 0 then MoviBytes(m) else RiffHead("AVIX", 4 + |MoviBytes(m)|) + MoviBytes(m)
  {
  }

  lemma CompleteLengths(h: Header, start: nat, ms: seq<Movi>)
    requires Complete(h, start, ms)
    ensures |h.video| == |h.audio| == |ms| <= SUPER_INDEX_SIZE
  {
  }

  lemma HeaderClosed(was: Header, now: Header, start: nat, ms: seq<Movi>, m: Movi, length: nat)
    requires Complete(was, start, ms) && |ms| < SUPER_INDEX_SIZE
    requires Entered(was, now, m, start + |Parts(ms)| + (if ms == [] then 0 else 12))
    requires length == start + |Parts(ms + [m])|
    requires now.riffSize == if ms == [] then length - 8 else was.riffSize
    ensures Complete(now, start, ms + [m])
  {
    hide MoviBytes;
    assert (ms + [m])[..|ms|] == ms;
    CompleteSnoc(was, now, start, ms, m);
  }

  lemma NoWrap(n: int)
    requires 0 <= n < TWO32
    ensures n % TWO32 == n
  {
  }

  lemma CountSnoc(before: seq<Frame>, fs: seq<Frame>, f: Frame)
    ensures |Datas(before + (fs + [f]), true)| == |Datas(before + fs, true)| + (if f.video then 1 else 0)
    ensures |Datas(before + (fs + [f]), false)| == |Datas(before + fs, false)| + (if f.video then 0 else 1)
    ensures Samples(before + (fs + [f])) == Samples(before + fs) + if f.video then 0 else |f.data| / 4
  {
    var all := before + (fs + [f]);
    assert all[..|all| - 1] == before + fs;
  }

  lemma FramesOpen(ms: seq<Movi>, fs: seq<Frame>)
    ensures ms == [] ==> AllFrames(ms) + fs == fs
  {
  }

  lemma AllFramesSnoc(ms: seq<Movi>, m: Movi)
    ensures AllFrames(ms + [m]) == AllFrames(ms) + m.frames
  {
    assert (ms + [m])[..|ms|] == ms;
  }

  lemma FreshHeader(start: nat)
    ensures Complete(Header(0, 0, 0, 0, [], []), start, []) && AllOk(start, []) && FullyIndexed([])
    ensures Counts(Header(0, 0, 0, 0, [], []), [])
  {
  }

  lemma FramesNone()
    ensures Frames([]) == [] && Parts([]) == [] && AllFrames([]) == []
    ensures Datas([], true) == Datas([], false) == [] && Samples([]) == 0
  {
  }

  lemma EntriesStart(rows: seq<Row>, video: bool, before: Bytes)
    ensures before + Entries(rows[..0], video) == before && AudioLength(rows[..0]) == 0
  {
    assert rows[..0] == [];
  }

  lemma EntriesSnoc(rows: seq<Row>, i: nat, video: bool)
    requires i < |rows|
    ensures Entries(rows[..i + 1], video)
         == Entries(rows[..i], video) + (Le(Offset(rows[i], video), 4) + Le(Length(rows[i], video), 4))
    ensures AudioLength(rows[..i + 1]) == AudioLength(rows[..i]) + rows[i].audioLength
  {
    hide Le;
    assert rows[..i + 1][..i] == rows[..i];
  }

  lemma PartsPlus(ms: seq<Movi>, m: Movi)
    ensures Parts(ms + [m]) == Parts(ms) + Part(|ms|, m)
  {
    hide Part;
    assert (ms + [m])[..|ms|] == ms;
  }

  lemma PartsSnoc(before: Bytes, ms: seq<Movi>, m: Movi)
    ensures before + Parts(ms + [m]) == before + Parts(ms) + Part(|ms|, m)
  {
    hide Part, Parts;
    PartsPlus(ms, m);
  }
}
