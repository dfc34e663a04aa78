/** The whole AVI file: the main header with its super indexes, and the RIFF chunks that follow. */
module AviFile {
  import opened AviBytes
  import opened AviLayout

  const HEADER_SIZE := 8838
  const SUPER_INDEX_SIZE := 256

  /** Sizes of the structures the header is made of. */
  const AVIH_SIZE := 76
  const VIDEO_SIZE := 4252
  const AUDIO_SIZE := 4230

  datatype SuperEntry = SuperEntry(offset: nat, size: nat, duration: nat)

  /** What of the header is filled in while recording. */
  datatype Header = Header(riffSize: nat, firstFrames: nat, firstSamples: nat, allFrames: nat,
                           video: seq<SuperEntry>, audio: seq<SuperEntry>)

  /** What of the header is fixed when recording starts, in the pieces around the fields above. */
  datatype Fixed = Fixed(avih0: Bytes, avih1: Bytes, video0: Bytes, video1: Bytes, audio0: Bytes, audio1: Bytes)

  predicate Sized(x: Fixed) {
    && |x.avih0| == 16 && |x.avih1| == 36 && |x.video0| == 32 && |x.video1| == 68
    && |x.audio0| == 32 && |x.audio1| == 46
  }

  function SuperBytes(entries: seq<SuperEntry>): (b: Bytes)
    ensures |b| == 16 * |entries|
  {
    if entries == [] then []
    else
      var last := entries[|entries| - 1];
      SuperBytes(entries[..|entries| - 1]) + (Le(last.offset, 8) + (Le(last.size, 4) + Le(last.duration, 4)))
  }

  /** A super index has room for 256 entries. */
  function SuperIndex(chunk: string, entries: seq<SuperEntry>): (b: Bytes)
    requires |chunk| == 4 && |entries| <= SUPER_INDEX_SIZE
    ensures |b| == 4128
  {
    ChunkHead("indx", 4120) + Le(4, 2) + [0] + [0] + Le(|entries|, 4) + Id(chunk) + Zeros(12)
    + (SuperBytes(entries) + Zeros(16 * (SUPER_INDEX_SIZE - |entries|)))
  }

  function Avih(x: Fixed, h: Header): (b: Bytes)
    requires Sized(x)
    ensures |b| == 64
  {
    ChunkHead("avih", 56) + x.avih0 + Le(h.firstFrames, 4) + x.avih1
  }

  function VideoList(x: Fixed, h: Header): (b: Bytes)
    requires Sized(x)
    ensures |b| == 124
  {
    ListHead("strl", VIDEO_SIZE - 8) + ChunkHead("strh", 56) + x.video0 + Le(h.firstFrames, 4) + x.video1
  }

  function AudioList(x: Fixed, h: Header): (b: Bytes)
    requires Sized(x)
    ensures |b| == 102
  {
    ListHead("strl", AUDIO_SIZE - 8) + ChunkHead("strh", 56) + x.audio0 + Le(h.firstSamples, 4) + x.audio1
  }

  function Odml(h: Header): (b: Bytes)
    ensures |b| == 268
  {
    ListHead("odml", 260) + ChunkHead("dmlh", 248) + Le(h.allFrames, 4) + Zeros(244)
  }

  function HeaderBytes(x: Fixed, h: Header): (b: Bytes)
    requires Sized(x) && |h.video| <= SUPER_INDEX_SIZE && |h.audio| <= SUPER_INDEX_SIZE
    ensures |b| == HEADER_SIZE
  {
    RiffHead("AVI ", h.riffSize)
    + (ListHead("hdrl", AVIH_SIZE + VIDEO_SIZE + AUDIO_SIZE - 8)
       + (Avih(x, h)
          + (VideoList(x, h)
             + (SuperIndex("00db", h.video)
                + (AudioList(x, h)
                   + (SuperIndex("01wb", h.audio) + Odml(h)))))))
  }

  function Padded(n: nat): (p: nat)
    ensures n <= p <= n + 1 && p % 2 == 0
  {
    n + n % 2
  }

  /** The INFO list: the text is given with its final zero, and padded to an even length. */
  function InfoBytes(text: Bytes): (b: Bytes)
    ensures |b| == 20 + Padded(|text|)
  {
    ListHead("INFO", 12 + Padded(|text|)) + (ChunkHead("ISFT", |text|) + (text + Zeros(Padded(|text|) - |text|)))
  }

  /** Where the i-th 'movi' list lies, when what precedes the first one has length `start`. */
  function MoviPos(start: nat, ms: seq<Movi>, i: nat): nat
    requires i <= |ms|
  {
    start + |Parts(ms[..i])| + (if i == 0 then 0 else 12)
  }

  function RiffPos(start: nat, ms: seq<Movi>, i: nat): nat
    requires i <= |ms|
  {
    if i == 0 then 0 else start + |Parts(ms[..i])|
  }

  function AudioLength(rows: seq<Row>): nat {
    if rows == [] then 0 else AudioLength(rows[..|rows| - 1]) + rows[|rows| - 1].audioLength
  }

  function SuperOf(start: nat, ms: seq<Movi>, i: nat, video: bool): SuperEntry
    requires i < |ms|
  {
    SuperEntry(IndexPos(ms[i], MoviPos(start, ms, i), video), 32 + 8 * |ms[i].rows|,
               if video then |ms[i].rows| else AudioLength(ms[i].rows))
  }

  /** The header says where the index of every 'movi' is, and how long the first RIFF chunk is. */
  ghost predicate Complete(h: Header, start: nat, ms: seq<Movi>) {
    && |h.video| == |h.audio| == |ms| <= SUPER_INDEX_SIZE
    && (ms != [] ==> h.riffSize == start + |MoviBytes(ms[0])| - 8)
    && (forall i :: 0 <= i < |ms| ==> h.video[i] == SuperOf(start, ms, i, true))
    && (forall i :: 0 <= i < |ms| ==> h.audio[i] == SuperOf(start, ms, i, false))
  }

  function AllFrames(ms: seq<Movi>): seq<Frame> {
    if ms == [] then [] else AllFrames(ms[..|ms| - 1]) + ms[|ms| - 1].frames
  }

  /** Samples of four bytes in the audio frames. */
  function Samples(fs: seq<Frame>): nat {
    if fs == [] then 0
    else
      var last := fs[|fs| - 1];
      Samples(fs[..|fs| - 1]) + if last.video then 0 else |last.data| / 4
  }

  /** The header tells the video frames and audio samples of the first 'movi', and the video frames
      of all. */
  ghost predicate Counts(h: Header, ms: seq<Movi>) {
    && h.allFrames == |Datas(AllFrames(ms), true)|
    && (ms != [] ==> h.firstFrames == |Datas(ms[0].frames, true)| && h.firstSamples == Samples(ms[0].frames))
  }

  lemma CountsSnoc(was: Header, now: Header, ms: seq<Movi>, m: Movi)
    requires Counts(was, ms) && now.allFrames == |Datas(AllFrames(ms) + m.frames, true)|
    requires if ms == [] then now.firstFrames == |Datas(m.frames, true)| && now.firstSamples == Samples(m.frames)
             else now.firstFrames == was.firstFrames && now.firstSamples == was.firstSamples
    ensures Counts(now, ms + [m])
  {
    hide Datas, Samples;
    assert (ms + [m])[..|ms|] == ms;
  }

  // ----- what a reader finds -----

  lemma {:induction false} PartAt(file: Bytes, start: nat, ms: seq<Movi>, i: nat)
    requires At(file, start, Parts(ms)) && i < |ms|
    ensures At(file, start + |Parts(ms[..i])|, Part(i, ms[i]))
    ensures |Parts(ms[..i])| + |Part(i, ms[i])| == |Parts(ms[..i + 1])| <= |Parts(ms)|
  {
    hide At, Part;
    var before, last := ms[..|ms| - 1], ms[|ms| - 1];
    Before(file, start, Parts(before), Part(|before|, last));
    if i < |before| {
      PartAt(file, start, before, i);
      assert before[..i] == ms[..i] && before[..i + 1] == ms[..i + 1];
    } else {
      assert ms[..i] == before && ms[..i + 1] == ms;
    }
  }

  lemma MoviOfPart(file: Bytes, start: nat, ms: seq<Movi>, i: nat)
    requires At(file, start, Parts(ms)) && i < |ms|
    ensures At(file, MoviPos(start, ms, i), MoviBytes(ms[i]))
    ensures i > 0 ==> At(file, RiffPos(start, ms, i), RiffHead("AVIX", 4 + |MoviBytes(ms[i])|))
  {
    hide At, MoviBytes, RiffHead, Parts;
    PartAt(file, start, ms, i);
    var at := start + |Parts(ms[..i])|;
    if i > 0 {
      Before(file, at, RiffHead("AVIX", 4 + |MoviBytes(ms[i])|), MoviBytes(ms[i]));
    }
  }

  /** A super index entry as a reader takes it. */
  predicate Stored(file: Bytes, at: nat, e: SuperEntry) {
    && at + 16 <= |file| && Field(file, at, 8) == e.offset % TWO64
    && Field(file, at + 8, 4) == e.size % TWO32 && Field(file, at + 12, 4) == e.duration % TWO32
  }

  lemma {:induction false} SuperEntryAt(file: Bytes, at: nat, entries: seq<SuperEntry>, i: nat)
    requires At(file, at, SuperBytes(entries)) && i < |entries|
    ensures Stored(file, at + 16 * i, entries[i])
  {
    hide At, Field, Le;
    var before, last := entries[..|entries| - 1], entries[|entries| - 1];
    var sizes := Le(last.size, 4) + Le(last.duration, 4);
    Before(file, at, SuperBytes(before), Le(last.offset, 8) + sizes);
    if i < |before| {
      SuperEntryAt(file, at, before, i);
    } else {
      Before(file, at + 16 * i, Le(last.offset, 8), sizes);
      Before(file, at + 16 * i + 8, Le(last.size, 4), Le(last.duration, 4));
      Field64(file, at + 16 * i, last.offset);
      Field32(file, at + 16 * i + 8, last.size);
      Field32(file, at + 16 * i + 12, last.duration);
    }
  }

  /** Where the entries of the two super indexes lie. */
  function SuperPos(video: bool): nat { if video then 244 else 4474 }

  lemma HeaderAt(file: Bytes, x: Fixed, h: Header)
    requires Sized(x) && |h.video| <= SUPER_INDEX_SIZE && |h.audio| <= SUPER_INDEX_SIZE
    requires At(file, 0, HeaderBytes(x, h))
    ensures At(file, 0, RiffHead("AVI ", h.riffSize)) && At(file, 12, ListHead("hdrl", 8550))
    ensures At(file, SuperPos(true), SuperBytes(h.video)) && At(file, SuperPos(false), SuperBytes(h.audio))
    ensures SuperHead(file, 212, "00db", |h.video|) && SuperHead(file, 4442, "01wb", |h.audio|)
    ensures At(file, 24, Avih(x, h)) && At(file, 88, VideoList(x, h)) && At(file, 4340, AudioList(x, h))
    ensures At(file, 8570, Odml(h)) && At(file, 8570, ListHead("odml", 260))
  {
    hide At, RiffHead, ListHead, Avih, VideoList, AudioList, SuperIndex, Odml, SuperBytes, SuperHead;
    var audio := AudioList(x, h) + (SuperIndex("01wb", h.audio) + Odml(h));
    var video := VideoList(x, h) + (SuperIndex("00db", h.video) + audio);
    var hdrl := ListHead("hdrl", 8550);
    Before(file, 0, RiffHead("AVI ", h.riffSize), hdrl + (Avih(x, h) + video));
    Before(file, 12, hdrl, Avih(x, h) + video);
    Before(file, 24, Avih(x, h), video);
    Before(file, 88, VideoList(x, h), SuperIndex("00db", h.video) + audio);
    Before(file, 212, SuperIndex("00db", h.video), audio);
    Before(file, 4340, AudioList(x, h), SuperIndex("01wb", h.audio) + Odml(h));
    Before(file, 4442, SuperIndex("01wb", h.audio), Odml(h));
    SuperIndexAt(file, 212, "00db", h.video);
    SuperIndexAt(file, 4442, "01wb", h.audio);
    OdmlAt(file, 8570, h);
  }

  /** The head of a super index with n entries, as a reader takes it. */
  predicate SuperHead(file: Bytes, at: nat, chunk: string, n: int)
    requires |chunk| == 4
  {
    && At(file, at, Id("indx")) && at + 4128 <= |file| && Next(file, at) == at + 4128
    && IndexKind(file, at + 8, 4, 0, chunk) && Field(file, at + 12, 4) == n
  }

  function SuperFront(chunk: string, n: nat): (b: Bytes)
    requires |chunk| == 4
    ensures |b| == 32
  {
    ChunkHead("indx", 4120) + ((Le(4, 2) + [0] + [0]) + (Le(n, 4) + (Id(chunk) + Zeros(12))))
  }

  lemma SuperIndexAt(file: Bytes, at: nat, chunk: string, entries: seq<SuperEntry>)
    requires |chunk| == 4 && |entries| <= SUPER_INDEX_SIZE && At(file, at, SuperIndex(chunk, entries))
    ensures At(file, at + 32, SuperBytes(entries)) && SuperHead(file, at, chunk, |entries|)
  {
    hide At, SuperBytes, Zeros, SuperHead, SuperFront, SuperIndex;
    var unused := Zeros(16 * (SUPER_INDEX_SIZE - |entries|));
    SuperParts(chunk, entries);
    Before(file, at, SuperFront(chunk, |entries|), SuperBytes(entries) + unused);
    Before(file, at + 32, SuperBytes(entries), unused);
    SuperHeadAt(file, at, chunk, |entries|);
  }

  lemma SuperParts(chunk: string, entries: seq<SuperEntry>)
    requires |chunk| == 4 && |entries| <= SUPER_INDEX_SIZE
    ensures SuperIndex(chunk, entries)
      == SuperFront(chunk, |entries|) + (SuperBytes(entries) + Zeros(16 * (SUPER_INDEX_SIZE - |entries|)))
  {
    hide SuperBytes, ChunkHead, Le, Id, Zeros;
  }

  lemma SuperHeadAt(file: Bytes, at: nat, chunk: string, n: nat)
    requires |chunk| == 4 && n <= SUPER_INDEX_SIZE && At(file, at, SuperFront(chunk, n)) && at + 4128 <= |file|
    ensures SuperHead(file, at, chunk, n)
  {
    hide At, ChunkHead, Le, Id, Zeros, Field, IndexKind, Next;
    var kind := Le(4, 2) + [0] + [0];
    var count, stream := Le(n, 4), Id(chunk);
    Before(file, at, ChunkHead("indx", 4120), kind + (count + (stream + Zeros(12))));
    HeadAt(file, at, "indx", 4120);
    EvenChunk(file, at, 2060);
    Before(file, at + 8, kind, count + (stream + Zeros(12)));
    Before(file, at + 12, count, stream + Zeros(12));
    Before(file, at + 16, stream, Zeros(12));
    Field32(file, at + 12, n);
    KindIs(file, at + 8, 4, 0, chunk);
  }

  /** A chunk of the header with a number in it, as a reader takes them. */
  predicate NumberIn(file: Bytes, chunk: nat, name: string, size: nat, at: nat, n: nat)
    requires |name| == 4
  {
    && At(file, chunk, Id(name)) && chunk + 8 + size <= |file| && at + 4 <= |file|
    && Field(file, chunk + 4, 4) == size && Field(file, at, 4) == n % TWO32
  }

  lemma NumberAt(file: Bytes, at: nat, name: string, size: nat, before: Bytes, n: nat, after: Bytes)
    requires |name| == 4 && size < TWO32 && size == |before| + 4 + |after|
    requires At(file, at, ChunkHead(name, size) + (before + (Le(n, 4) + after)))
    ensures NumberIn(file, at, name, size, at + 8 + |before|, n)
  {
    hide At, Field, ChunkHead, Le, Id;
    Before(file, at, ChunkHead(name, size), before + (Le(n, 4) + after));
    HeadAt(file, at, name, size);
    Before(file, at + 8, before, Le(n, 4) + after);
    Before(file, at + 8 + |before|, Le(n, 4), after);
    Field32(file, at + 8 + |before|, n);
  }

  /** The numbers of the header: video frames in the main header and in the header of the video
      stream, samples in that of the audio stream, and all video frames in the OpenDML header. */
  lemma NumbersAt(file: Bytes, x: Fixed, h: Header)
    requires Sized(x) && At(file, 24, Avih(x, h)) && At(file, 88, VideoList(x, h))
    requires At(file, 4340, AudioList(x, h)) && At(file, 8570, Odml(h))
    ensures NumberIn(file, 24, "avih", 56, 48, h.firstFrames) && NumberIn(file, 100, "strh", 56, 140, h.firstFrames)
    ensures NumberIn(file, 4352, "strh", 56, 4392, h.firstSamples) && NumberIn(file, 8582, "dmlh", 248, 8590, h.allFrames)
    ensures At(file, 88, ListHead("strl", 4244)) && At(file, 4340, ListHead("strl", 4222))
  {
    hide At, NumberIn, ChunkHead, Le, Zeros, ListHead, Id;
    MainNumber(file, x, h);
    assert x.video1[..20] + x.video1[20..] == x.video1 && x.audio1[..20] + x.audio1[20..] == x.audio1;
    StreamNumber(file, 88, 4244, x.video0, h.firstFrames, x.video1[..20], x.video1[20..]);
    StreamNumber(file, 4340, 4222, x.audio0, h.firstSamples, x.audio1[..20], x.audio1[20..]);
    OdmlNumber(file, h);
  }

  lemma MainNumber(file: Bytes, x: Fixed, h: Header)
    requires Sized(x) && At(file, 24, Avih(x, h))
    ensures NumberIn(file, 24, "avih", 56, 48, h.firstFrames)
  {
    hide At, NumberIn, ChunkHead, Le;
    assert Avih(x, h) == ChunkHead("avih", 56) + (x.avih0 + (Le(h.firstFrames, 4) + x.avih1));
    NumberAt(file, 24, "avih", 56, x.avih0, h.firstFrames, x.avih1);
  }

  lemma StreamNumber(file: Bytes, at: nat, size: nat, before: Bytes, n: nat, after: Bytes, format: Bytes)
    requires |before| == 32 && |after| == 20
    requires At(file, at, ListHead("strl", size) + ChunkHead("strh", 56) + before + Le(n, 4) + (after + format))
    ensures At(file, at, ListHead("strl", size)) && NumberIn(file, at + 12, "strh", 56, at + 52, n)
  {
    hide At, NumberIn, ChunkHead, Le, ListHead;
    var number := ChunkHead("strh", 56) + (before + (Le(n, 4) + after));
    assert ListHead("strl", size) + ChunkHead("strh", 56) + before + Le(n, 4) + (after + format)
        == ListHead("strl", size) + (number + format);
    Before(file, at, ListHead("strl", size), number + format);
    Before(file, at + 12, number, format);
    NumberAt(file, at + 12, "strh", 56, before, n, after);
  }

  lemma OdmlNumber(file: Bytes, h: Header)
    requires At(file, 8570, Odml(h))
    ensures NumberIn(file, 8582, "dmlh", 248, 8590, h.allFrames)
  {
    hide At, NumberIn, ChunkHead, Le, Zeros, ListHead;
    var number := ChunkHead("dmlh", 248) + ([] + (Le(h.allFrames, 4) + Zeros(244)));
    assert Odml(h) == ListHead("odml", 260) + number;
    Before(file, 8570, ListHead("odml", 260), number);
    NumberAt(file, 8582, "dmlh", 248, [], h.allFrames, Zeros(244));
  }

  lemma OdmlAt(file: Bytes, at: nat, h: Header)
    requires At(file, at, Odml(h))
    ensures At(file, at, ListHead("odml", 260))
  {
    hide At, ListHead, ChunkHead, Le, Zeros;
    Before(file, at, ListHead("odml", 260) + ChunkHead("dmlh", 248) + Le(h.allFrames, 4), Zeros(244));
    Before(file, at, ListHead("odml", 260) + ChunkHead("dmlh", 248), Le(h.allFrames, 4));
    Before(file, at, ListHead("odml", 260), ChunkHead("dmlh", 248));
  }

  /** Room for what precedes the first 'movi', so that the first RIFF size fits as well. */
  const HEADROOM := 16384

  /** A 'movi' small enough for its size fields, whose two indexes are right and leave out at most
      one last frame without a partner. */
  ghost predicate MoviOk(m: Movi, at: nat) {
    && Fits(m.frames) && Covers(m, at, true) && Covers(m, at, false)
    && |m.frames| <= 2 * |m.rows| + 1
    && |MoviBytes(m)| + HEADROOM <= TWO32
  }

  ghost predicate AllOk(start: nat, ms: seq<Movi>) {
    forall i :: 0 <= i < |ms| ==> MoviOk(ms[i], MoviPos(start, ms, i))
  }

  const TEXT_MAX := 100

  /** Length of all that precedes the first 'movi'. */
  function StartLength(text: Bytes): nat {
    HEADER_SIZE + 20 + Padded(|text|)
  }

  /** The file of an ended recording: header, text, and the 'movi' lists the header tells of. */
  ghost predicate Ended(file: Bytes, x: Fixed, h: Header, text: Bytes, ms: seq<Movi>) {
    && Sized(x) && |text| <= TEXT_MAX && 0 < |ms| <= SUPER_INDEX_SIZE
    && |h.video| <= SUPER_INDEX_SIZE && |h.audio| <= SUPER_INDEX_SIZE
    && file == HeaderBytes(x, h) + InfoBytes(text) + Parts(ms)
    && Complete(h, StartLength(text), ms) && Counts(h, ms)
  }

  ghost predicate FullyIndexed(ms: seq<Movi>) {
    forall i :: 0 <= i < |ms| ==> |ms[i].frames| == 2 * |ms[i].rows|
  }

  /** The same, of frames that came in turn and fit. */
  ghost predicate Finished(file: Bytes, x: Fixed, h: Header, text: Bytes, ms: seq<Movi>) {
    Ended(file, x, h, text, ms) && AllOk(StartLength(text), ms) && FullyIndexed(ms[..|ms| - 1])
  }

  lemma AllOkPrefix(start: nat, ms: seq<Movi>)
    requires AllOk(start, ms) && ms != []
    ensures AllOk(start, ms[..|ms| - 1]) && MoviOk(ms[|ms| - 1], MoviPos(start, ms, |ms| - 1))
  {
    hide MoviOk, Parts;
    var before := ms[..|ms| - 1];
    forall i | 0 <= i < |before| ensures MoviOk(before[i], MoviPos(start, before, i)) {
      assert before[..i] == ms[..i] && MoviOk(ms[i], MoviPos(start, ms, i));
    }
  }

  lemma {:induction false} PartsBound(start: nat, ms: seq<Movi>)
    requires AllOk(start, ms)
    ensures |Parts(ms)| <= |ms| * TWO32
  {
    hide MoviOk, MoviBytes, AllOk, Part;
    if ms != [] {
      AllOkPrefix(start, ms);
      PartsBound(start, ms[..|ms| - 1]);
      SmallMovi(ms[|ms| - 1], MoviPos(start, ms, |ms| - 1));
      PartLength(|ms| - 1, ms[|ms| - 1]);
    }
  }

  lemma SmallMovi(m: Movi, at: nat)
    requires MoviOk(m, at)
    ensures |MoviBytes(m)| + HEADROOM <= TWO32 && 4 + |MoviBytes(m)| < TWO32 && 4 + |MoviBody(m)| < TWO32
    ensures 32 + 8 * |m.rows| < TWO32
    ensures IndexPos(m, at, true) <= IndexPos(m, at, false) <= at + |MoviBytes(m)|
  {
    hide MoviBody;
  }

  lemma Placed(file: Bytes, x: Fixed, h: Header, text: Bytes, ms: seq<Movi>)
    requires Finished(file, x, h, text, ms)
    ensures At(file, 0, HeaderBytes(x, h)) && At(file, HEADER_SIZE, InfoBytes(text))
    ensures At(file, StartLength(text), Parts(ms)) && |file| < TWO64
  {
    hide HeaderBytes, InfoBytes, Complete, At, Parts;
    var start := StartLength(text);
    assert At(file, 0, file) by { Whole(file); }
    Before(file, 0, HeaderBytes(x, h) + InfoBytes(text), Parts(ms));
    Before(file, 0, HeaderBytes(x, h), InfoBytes(text));
    PartsBound(start, ms);
    assert |ms| * TWO32 <= 256 * TWO32;
  }

  lemma Whole(file: Bytes)
    ensures At(file, 0, file)
  {
  }

  /** Entry i of the super index of a stream, which has more entries than i, leads to an index of n
      entries, whose entry j finds `data`. */
  predicate Leads(file: Bytes, i: nat, video: bool, n: nat, j: nat, data: Bytes) {
    var at := SuperPos(video) + 16 * i;
    && at + 16 <= |file| && i < Field(file, SuperPos(video) - 20, 4)
    && SuperHead(file, SuperPos(video) - 32, if video then "00db" else "01wb", Field(file, SuperPos(video) - 20, 4))
    && Field(file, at, 8) >= 0 && Field(file, at + 8, 4) == 32 + 8 * n
    && Finds(file, Field(file, at, 8), video, n, j, data)
  }

  /** From the super index in the header a reader gets to every indexed frame of every 'movi':
      the super index entry leads to the index, and the index entry to the frame. */
  lemma FrameFound(file: Bytes, x: Fixed, h: Header, text: Bytes, ms: seq<Movi>, i: nat, video: bool, j: nat)
    requires Finished(file, x, h, text, ms) && i < |ms| && j < |ms[i].rows|
    ensures j < |Datas(ms[i].frames, video)|
    ensures Leads(file, i, video, |ms[i].rows|, j, Datas(ms[i].frames, video)[j])
  {
    hide At, Finds, MoviBytes, StartLength, MoviPos, Finished, Datas, Stored, SuperOf, Leads, IndexPos, Covers, Fits, SuperHead;
    var start := StartLength(text);
    var at := MoviPos(start, ms, i);
    SuperFound(file, x, h, text, ms, i, video);
    HeaderTells(file, x, h, text, ms);
    MoviFound(file, x, h, text, ms, i);
    IndexFindsFrames(file, at, ms[i], video, j);
    StoredLeads(file, i, |ms|, SuperOf(start, ms, i, video), video, |ms[i].rows|, j, Datas(ms[i].frames, video)[j]);
  }

  lemma StoredLeads(file: Bytes, i: nat, count: nat, e: SuperEntry, video: bool, n: nat, j: nat, data: Bytes)
    requires Stored(file, SuperPos(video) + 16 * i, e) && e.offset < TWO64 && e.size == 32 + 8 * n < TWO32
    requires i < count && SuperHead(file, SuperPos(video) - 32, if video then "00db" else "01wb", count)
    requires Finds(file, e.offset, video, n, j, data)
    ensures Leads(file, i, video, n, j, data)
  {
    hide Finds, Field, IndexKind, Next;
  }

  /** What the header tells a reader of a finished file: both super indexes have an entry for each
      'movi', and the numbers of frames and samples are those of the recording. */
  lemma HeaderTells(file: Bytes, x: Fixed, h: Header, text: Bytes, ms: seq<Movi>)
    requires Finished(file, x, h, text, ms)
    ensures SuperHead(file, 212, "00db", |ms|) && SuperHead(file, 4442, "01wb", |ms|) && ms != []
    ensures NumberIn(file, 24, "avih", 56, 48, |Datas(ms[0].frames, true)|)
    ensures NumberIn(file, 100, "strh", 56, 140, |Datas(ms[0].frames, true)|)
    ensures NumberIn(file, 4352, "strh", 56, 4392, Samples(ms[0].frames))
    ensures NumberIn(file, 8582, "dmlh", 248, 8590, |Datas(AllFrames(ms), true)|)
    ensures Reaches(file, 24, 3, 8570)
  {
    hide Reaches;
    hide HeaderBytes, InfoBytes, At, Parts, SuperHead, NumberIn, AllOk, Datas, Samples, AllFrames, StartLength, SuperOf,
      Avih, VideoList, AudioList, Odml;
    Placed(file, x, h, text, ms);
    HeaderAt(file, x, h);
    NumbersAt(file, x, h);
    HeaderListTiles(file, h.firstFrames);
  }

  /** The header list holds the main header and the lists of both streams. */
  lemma HeaderListTiles(file: Bytes, n: nat)
    requires NumberIn(file, 24, "avih", 56, 48, n)
    requires At(file, 88, ListHead("strl", 4244)) && At(file, 4340, ListHead("strl", 4222))
    ensures Reaches(file, 24, 3, 8570)
  {
    hide At, Field, Id, Reaches, ListHead, Next;
    EvenChunk(file, 24, 28);
    OneChunk(file, 24, 88);
    ListChunk(file, 88, "strl", 4244);
    ListChunk(file, 4340, "strl", 4222);
    ReachesMore(file, 24, 1, 88, 1, 4340);
    ReachesMore(file, 24, 2, 4340, 1, 8570);
  }

  /** The text is in the INFO list, and everything fixed when recording started is in its place. */
  lemma FixedFound(file: Bytes, x: Fixed, h: Header, text: Bytes, ms: seq<Movi>)
    requires Finished(file, x, h, text, ms)
    ensures At(file, 8850, Id("ISFT")) && 8858 <= |file| && Field(file, 8854, 4) == |text| && At(file, 8858, text)
    ensures At(file, 32, x.avih0) && At(file, 52, x.avih1) && At(file, 108, x.video0) && At(file, 144, x.video1)
    ensures At(file, 4360, x.audio0) && At(file, 4396, x.audio1)
  {
    hide HeaderBytes, InfoBytes, At, Parts, SuperHead, AllOk, Datas, Samples, AllFrames, StartLength, SuperOf, Field,
      Avih, VideoList, AudioList, Odml, ListHead, ChunkHead, Le, Padded, Zeros, Counts, Complete, Id, Finished;
    Placed(file, x, h, text, ms);
    FirstSize(file, x, h, text, ms);
    HeaderAt(file, x, h);
    InfoAt(file, text);
    AvihAt(file, x, h);
    StreamIs(x, h);
    StreamAt(file, 88, 4244, x.video0, h.firstFrames, x.video1);
    StreamAt(file, 4340, 4222, x.audio0, h.firstSamples, x.audio1);
  }

  function StreamBytes(size: nat, before: Bytes, n: nat, after: Bytes): Bytes {
    ListHead("strl", size) + ChunkHead("strh", 56) + before + Le(n, 4) + after
  }

  lemma StreamIs(x: Fixed, h: Header)
    requires Sized(x)
    ensures VideoList(x, h) == StreamBytes(4244, x.video0, h.firstFrames, x.video1)
    ensures AudioList(x, h) == StreamBytes(4222, x.audio0, h.firstSamples, x.audio1)
  {
    hide ListHead, ChunkHead, Le;
  }

  lemma StreamAt(file: Bytes, at: nat, size: nat, before: Bytes, n: nat, after: Bytes)
    requires |before| == 32 && At(file, at, StreamBytes(size, before, n, after))
    ensures At(file, at + 20, before) && At(file, at + 56, after)
  {
    hide ListHead, ChunkHead, Le, At;
    var heads := ListHead("strl", size) + ChunkHead("strh", 56);
    Before(file, at, heads + before + Le(n, 4), after);
    Before(file, at, heads + before, Le(n, 4));
    Before(file, at, heads, before);
  }

  lemma AvihAt(file: Bytes, x: Fixed, h: Header)
    requires Sized(x) && At(file, 24, Avih(x, h))
    ensures At(file, 32, x.avih0) && At(file, 52, x.avih1)
  {
    hide ChunkHead, Le, At;
    var head := ChunkHead("avih", 56);
    Before(file, 24, head + x.avih0 + Le(h.firstFrames, 4), x.avih1);
    Before(file, 24, head + x.avih0, Le(h.firstFrames, 4));
    Before(file, 24, head, x.avih0);
  }

  lemma InfoAt(file: Bytes, text: Bytes)
    requires At(file, HEADER_SIZE, InfoBytes(text)) && |text| <= TEXT_MAX
    ensures At(file, 8850, Id("ISFT")) && 8858 <= |file| && Field(file, 8854, 4) == |text| && At(file, 8858, text)
  {
    hide ListHead, ChunkHead, At, Padded, Zeros, Field, Id;
    var padding := Zeros(Padded(|text|) - |text|);
    Before(file, HEADER_SIZE, ListHead("INFO", 12 + Padded(|text|)), ChunkHead("ISFT", |text|) + (text + padding));
    Before(file, 8850, ChunkHead("ISFT", |text|), text + padding);
    HeadAt(file, 8850, "ISFT", |text|);
    Before(file, 8858, text, padding);
  }

  /** The duration in a super index entry: frames of a video index, bytes of an audio index. */
  lemma DurationFound(file: Bytes, x: Fixed, h: Header, text: Bytes, ms: seq<Movi>, i: nat)
    requires Finished(file, x, h, text, ms) && i < |ms|
    ensures SuperPos(true) + 16 * i + 16 <= |file| && SuperPos(false) + 16 * i + 16 <= |file|
    ensures Field(file, SuperPos(true) + 16 * i + 12, 4) == |ms[i].rows| % TWO32
    ensures |ms[i].rows| <= |Datas(ms[i].frames, false)|
    ensures Field(file, SuperPos(false) + 16 * i + 12, 4) == TotalLength(Datas(ms[i].frames, false)[..|ms[i].rows|]) % TWO32
  {
    hide At, MoviBytes, StartLength, MoviPos, Finished, Datas, Field, IndexPos, Fits, AudioLength, TotalLength;
    SuperFound(file, x, h, text, ms, i, true);
    SuperFound(file, x, h, text, ms, i, false);
    MoviFound(file, x, h, text, ms, i);
    AudioLengths(ms[i], MoviPos(StartLength(text), ms, i), |ms[i].rows|);
    assert ms[i].rows[..|ms[i].rows|] == ms[i].rows;
  }

  function TotalLength(ds: seq<Bytes>): nat {
    if ds == [] then 0 else TotalLength(ds[..|ds| - 1]) + |ds[|ds| - 1]|
  }

  lemma {:induction false} AudioLengths(m: Movi, at: nat, n: nat)
    requires Covers(m, at, false) && n <= |m.rows|
    ensures n <= |Datas(m.frames, false)| && AudioLength(m.rows[..n]) == TotalLength(Datas(m.frames, false)[..n])
  {
    hide Datas, Spans;
    if n > 0 {
      AudioLengths(m, at, n - 1);
      SpanLength(m.frames, at + 12, false, n - 1);
      assert m.rows[..n][..n - 1] == m.rows[..n - 1];
      assert Datas(m.frames, false)[..n][..n - 1] == Datas(m.frames, false)[..n - 1];
    }
  }

  lemma {:induction false} SpanLength(fs: seq<Frame>, at: nat, video: bool, j: nat)
    requires j < |Spans(fs, at, video)|
    ensures Spans(fs, at, video)[j].len == |Datas(fs, video)[j]|
  {
    if fs != [] && j < |Spans(fs[..|fs| - 1], at, video)| { SpanLength(fs[..|fs| - 1], at, video, j); }
  }

  lemma SuperFound(file: Bytes, x: Fixed, h: Header, text: Bytes, ms: seq<Movi>, i: nat, video: bool)
    requires Finished(file, x, h, text, ms) && i < |ms|
    ensures Stored(file, SuperPos(video) + 16 * i, SuperOf(StartLength(text), ms, i, video))
  {
    hide HeaderBytes, InfoBytes, At, Parts, SuperBytes, Stored, MoviBytes, StartLength, SuperOf, AllOk;
    Placed(file, x, h, text, ms);
    HeaderAt(file, x, h);
    if video {
      SuperEntryAt(file, SuperPos(true), h.video, i);
    } else {
      SuperEntryAt(file, SuperPos(false), h.audio, i);
    }
  }

  lemma MoviFound(file: Bytes, x: Fixed, h: Header, text: Bytes, ms: seq<Movi>, i: nat)
    requires Finished(file, x, h, text, ms) && i < |ms|
    ensures At(file, MoviPos(StartLength(text), ms, i), MoviBytes(ms[i]))
    ensures MoviOk(ms[i], MoviPos(StartLength(text), ms, i))
    ensures forall video :: SuperOf(StartLength(text), ms, i, video).offset < TWO64
    ensures forall video :: SuperOf(StartLength(text), ms, i, video).offset
                         == IndexPos(ms[i], MoviPos(StartLength(text), ms, i), video)
    ensures forall video :: SuperOf(StartLength(text), ms, i, video).size == 32 + 8 * |ms[i].rows|
    ensures 32 + 8 * |ms[i].rows| < TWO32
  {
    hide HeaderBytes, InfoBytes, At, Parts, MoviBytes, StartLength, MoviPos, IndexPos, Complete, MoviOk;
    var start := StartLength(text);
    Placed(file, x, h, text, ms);
    MoviOfPart(file, start, ms, i);
    var at := MoviPos(start, ms, i);
    SmallMovi(ms[i], at);
    MoviInFile(file, at, ms[i]);
  }

  lemma MoviInFile(file: Bytes, at: nat, m: Movi)
    requires At(file, at, MoviBytes(m))
    ensures at + |MoviBytes(m)| <= |file|
  {
  }

  /** One RIFF chunk after the other, from the start of the file to its end. The first holds the
      header lists, the INFO list and its 'movi', the others just a 'movi' each; and a 'movi'
      holds its frames and two indexes, if no frame has an odd length. */
  lemma ChunksTile(file: Bytes, x: Fixed, h: Header, text: Bytes, ms: seq<Movi>, i: nat)
    requires Finished(file, x, h, text, ms) && i < |ms| && Even(ms[i].frames)
    ensures var start := StartLength(text);
      Tiled(file, i == 0, RiffPos(start, ms, i), MoviPos(start, ms, i), |ms[i].frames|, RiffPos(start, ms, i + 1))
    ensures i + 1 == |ms| ==> RiffPos(StartLength(text), ms, i + 1) == |file|
  {
    hide At, MoviBytes, Reaches, Part, MoviOk, Id, Finished, StartLength, Tiled, HeaderBytes, InfoBytes, RiffPos, MoviPos;
    var start := StartLength(text);
    Placed(file, x, h, text, ms);
    Positions(start, ms, i);
    FileLength(file, x, h, text, ms);
    MoviFound(file, x, h, text, ms, i);
    MoviOfPart(file, start, ms, i);
    if i == 0 {
      FirstRiff(file, x, h, text, ms);
      FirstTiled(file, start, ms[0]);
    } else {
      LaterTiled(file, RiffPos(start, ms, i), ms[i]);
    }
  }

  /** A RIFF chunk from `riff` to `next`, and its 'movi' at `list`. */
  predicate Tiled(file: Bytes, first: bool, riff: nat, list: nat, frames: nat, next: nat) {
    && At(file, riff, Id("RIFF")) && At(file, riff + 8, Id(if first then "AVI " else "AVIX"))
    && Reaches(file, riff, 1, next) && Reaches(file, riff + 12, if first then 4 else 1, next)
    && At(file, list, Id("LIST")) && At(file, list + 8, Id("movi"))
    && Reaches(file, list + 12, frames + 2, next)
  }

  lemma FirstTiled(file: Bytes, start: nat, m: Movi)
    requires At(file, start, MoviBytes(m)) && MoviOk(m, start) && Even(m.frames)
    requires At(file, 0, Id("RIFF")) && At(file, 8, Id("AVI "))
    requires Reaches(file, 0, 1, start + |MoviBytes(m)|) && Reaches(file, 12, 3, start)
    ensures Tiled(file, true, 0, start, |m.frames|, start + |MoviBytes(m)|)
  {
    hide At, MoviBytes, Reaches, MoviOk, Id;
    OkMovi(file, start, m);
    ReachesMore(file, 12, 3, start, 1, start + |MoviBytes(m)|);
  }

  lemma LaterTiled(file: Bytes, riff: nat, m: Movi)
    requires At(file, riff + 12, MoviBytes(m)) && MoviOk(m, riff + 12) && Even(m.frames)
    requires At(file, riff, RiffHead("AVIX", 4 + |MoviBytes(m)|))
    ensures Tiled(file, false, riff, riff + 12, |m.frames|, riff + 12 + |MoviBytes(m)|)
  {
    hide At, MoviBytes, Reaches, MoviOk, Id, RiffHead, Even, MoviBody, Frames, Next;
    OkMovi(file, riff + 12, m);
    assert 4 + |MoviBytes(m)| < TWO32 && (4 + |MoviBytes(m)|) % 2 == 0;
    RiffChunk(file, riff, "AVIX", 4 + |MoviBytes(m)|);
  }

  lemma Positions(start: nat, ms: seq<Movi>, i: nat)
    requires i < |ms|
    ensures if i == 0 then RiffPos(start, ms, i) == 0 && MoviPos(start, ms, i) == start
            else MoviPos(start, ms, i) == RiffPos(start, ms, i) + 12
    ensures RiffPos(start, ms, i + 1) == MoviPos(start, ms, i) + |MoviBytes(ms[i])|
  {
    hide MoviBytes, Part;
    var upto := ms[..i + 1];
    assert upto[..i] == ms[..i];
    PartLength(i, ms[i]);
  }

  lemma FileLength(file: Bytes, x: Fixed, h: Header, text: Bytes, ms: seq<Movi>)
    requires Finished(file, x, h, text, ms)
    ensures RiffPos(StartLength(text), ms, |ms|) == |file|
  {
    hide AllOk, Complete, HeaderBytes, InfoBytes;
    assert ms[..|ms|] == ms;
  }

  lemma FirstRiff(file: Bytes, x: Fixed, h: Header, text: Bytes, ms: seq<Movi>)
    requires Finished(file, x, h, text, ms) && ms != [] && Even(ms[0].frames)
    ensures At(file, 0, Id("RIFF")) && At(file, 8, Id("AVI "))
    ensures Reaches(file, 0, 1, StartLength(text) + |MoviBytes(ms[0])|)
    ensures Reaches(file, 12, 3, StartLength(text))
  {
    hide At, MoviBytes, Reaches, MoviOk, Id, HeaderBytes, InfoBytes, RiffHead, ListHead, StartLength, MoviPos, RiffPos,
         Finished, SuperHead, Avih, VideoList, AudioList, Odml, SuperBytes, Even, Padded;
    Placed(file, x, h, text, ms);
    FirstSize(file, x, h, text, ms);
    HeaderAt(file, x, h);
    MoviFound(file, x, h, text, ms, 0);
    OkMovi(file, MoviPos(StartLength(text), ms, 0), ms[0]);
    FirstRiffSize(text, |MoviBytes(ms[0])|);
    StartLengthIs(text);
    RiffChunk(file, 0, "AVI ", h.riffSize);
    FirstLists(file, text);
  }

  lemma StartLengthIs(text: Bytes)
    ensures StartLength(text) == HEADER_SIZE + 20 + Padded(|text|)
  {
  }

  lemma FirstSize(file: Bytes, x: Fixed, h: Header, text: Bytes, ms: seq<Movi>)
    requires Finished(file, x, h, text, ms)
    ensures ms != [] && h.riffSize == StartLength(text) + |MoviBytes(ms[0])| - 8
    ensures Sized(x) && |h.video| <= SUPER_INDEX_SIZE && |h.audio| <= SUPER_INDEX_SIZE && |text| <= TEXT_MAX
  {
    hide HeaderBytes, InfoBytes, MoviBytes, AllOk;
  }

  lemma FirstRiffSize(text: Bytes, size: nat)
    requires size % 2 == 0
    ensures (StartLength(text) + size - 8) % 2 == 0
    ensures |text| <= TEXT_MAX ==> StartLength(text) <= HEADROOM
  {
  }

  lemma PartLength(i: nat, m: Movi)
    ensures |Part(i, m)| == |MoviBytes(m)| + (if i == 0 then 0 else 12)
  {
  }

  lemma OkMovi(file: Bytes, at: nat, m: Movi)
    requires At(file, at, MoviBytes(m)) && MoviOk(m, at) && Even(m.frames)
    ensures At(file, at, Id("LIST")) && At(file, at + 8, Id("movi"))
    ensures Reaches(file, at, 1, at + |MoviBytes(m)|) && |MoviBytes(m)| % 2 == 0
    ensures Reaches(file, at + 12, |m.frames| + 2, at + |MoviBytes(m)|)
    ensures |MoviBytes(m)| + HEADROOM <= TWO32 && at + |MoviBytes(m)| <= |file|
  {
    hide Reaches, MoviBody;
    MoviTiles(file, at, m);
  }

  lemma RiffChunk(file: Bytes, at: nat, kind: string, size: nat)
    requires |kind| == 4 && At(file, at, RiffHead(kind, size)) && size < TWO32 && size % 2 == 0
    ensures At(file, at, Id("RIFF")) && At(file, at + 8, Id(kind)) && Reaches(file, at, 1, at + 8 + size)
  {
    hide At, Field, ChunkHead, Id, Reaches, Next;
    Before(file, at, ChunkHead("RIFF", size), Id(kind));
    HeadAt(file, at, "RIFF", size);
    EvenChunk(file, at, size / 2);
    OneChunk(file, at, at + 8 + size);
  }

  lemma ListChunk(file: Bytes, at: nat, name: string, size: nat)
    requires |name| == 4 && At(file, at, ListHead(name, size)) && size < TWO32 && size % 2 == 0
    ensures Reaches(file, at, 1, at + 8 + size)
  {
    hide At, Field, ChunkHead, Id, Reaches, Next;
    Before(file, at, ChunkHead("LIST", size), Id(name));
    HeadAt(file, at, "LIST", size);
    EvenChunk(file, at, size / 2);
    OneChunk(file, at, at + 8 + size);
  }

  /** The lists before the first 'movi': header, OpenDML header, INFO. */
  lemma FirstLists(file: Bytes, text: Bytes)
    requires At(file, 12, ListHead("hdrl", 8550)) && At(file, 8570, ListHead("odml", 260))
    requires At(file, HEADER_SIZE, InfoBytes(text)) && |text| <= TEXT_MAX
    ensures Reaches(file, 12, 3, HEADER_SIZE + 20 + Padded(|text|))
  {
    hide At, Field, ChunkHead, Id, Reaches, Next, ListHead, Padded;
    var padded := Padded(|text|);
    Before(file, HEADER_SIZE, ListHead("INFO", 12 + padded),
           ChunkHead("ISFT", |text|) + (text + Zeros(padded - |text|)));
    ListChunk(file, 12, "hdrl", 8550);
    ListChunk(file, 8570, "odml", 260);
    ListChunk(file, HEADER_SIZE, "INFO", 12 + padded);
    ReachesMore(file, 12, 1, 8570, 1, HEADER_SIZE);
    ReachesMore(file, 12, 2, HEADER_SIZE, 1, HEADER_SIZE + 20 + padded);
  }

  /** The super index entries of a 'movi' just closed. */
  ghost predicate Entered(was: Header, now: Header, m: Movi, at: nat) {
    && now.video == was.video + [SuperEntry(IndexPos(m, at, true), 32 + 8 * |m.rows|, |m.rows|)]
    && now.audio == was.audio + [SuperEntry(IndexPos(m, at, false), 32 + 8 * |m.rows|, AudioLength(m.rows))]
  }

  lemma CompleteSnoc(was: Header, now: Header, start: nat, ms: seq<Movi>, m: Movi)
    requires Complete(was, start, ms) && |ms| < SUPER_INDEX_SIZE
    requires Entered(was, now, m, start + |Parts(ms)| + (if ms == [] then 0 else 12))
    requires if ms == [] then now.riffSize == start + |MoviBytes(m)| - 8 else now.riffSize == was.riffSize
    ensures Complete(now, start, ms + [m])
  {
    hide Parts, IndexPos, AudioLength, MoviBytes, SuperOf;
    var all := ms + [m];
    LastSuper(start, ms, m, true);
    LastSuper(start, ms, m, false);
    forall i | 0 <= i < |ms|
      ensures SuperOf(start, all, i, true) == SuperOf(start, ms, i, true)
      ensures SuperOf(start, all, i, false) == SuperOf(start, ms, i, false)
    {
      EarlierSuper(start, ms, m, i, true);
      EarlierSuper(start, ms, m, i, false);
    }
  }

  lemma EarlierSuper(start: nat, ms: seq<Movi>, m: Movi, i: nat, video: bool)
    requires i < |ms|
    ensures SuperOf(start, ms + [m], i, video) == SuperOf(start, ms, i, video)
  {
    hide Parts, IndexPos, AudioLength;
    assert (ms + [m])[..i] == ms[..i];
  }

  lemma LastSuper(start: nat, ms: seq<Movi>, m: Movi, video: bool)
    ensures SuperOf(start, ms + [m], |ms|, video)
      == SuperEntry(IndexPos(m, start + |Parts(ms)| + (if ms == [] then 0 else 12), video), 32 + 8 * |m.rows|,
                    if video then |m.rows| else AudioLength(m.rows))
  {
    hide Parts, IndexPos, AudioLength;
    assert (ms + [m])[..|ms|] == ms;
  }

  lemma AllOkSnoc(start: nat, ms: seq<Movi>, m: Movi)
    requires AllOk(start, ms) && MoviOk(m, start + |Parts(ms)| + (if ms == [] then 0 else 12))
    ensures AllOk(start, ms + [m])
  {
    hide Parts, MoviOk;
    var all := ms + [m];
    assert all[..|ms|] == ms;
    forall i | 0 <= i < |all| ensures MoviOk(all[i], MoviPos(start, all, i)) {
      if i < |ms| {
        assert all[..i] == ms[..i] && MoviOk(ms[i], MoviPos(start, ms, i));
      }
    }
  }
}
