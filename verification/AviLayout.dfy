/** The bytes of an OpenDML AVI file: RIFF chunks, 'movi' lists, frames and indexes; and what a
    reader finds in them. */
module AviLayout {
  import opened AviBytes

  const TWO32 := 0x1_0000_0000
  const TWO64 := 0x1_0000_0000_0000_0000

  /** A recorded frame: the bytes that follow its chunk header. */
  datatype Frame = Frame(video: bool, data: Bytes)

  /** Where the data of a frame is in the file. */
  datatype Span = Span(pos: nat, len: nat)

  /** One row of the index kept while recording; offsets are 32-bit. */
  datatype Row = Row(videoOffset: nat, videoLength: nat, audioOffset: nat, audioLength: nat)

  /** One 'movi' list: its frames and the indexes written after them. */
  datatype Movi = Movi(frames: seq<Frame>, rows: seq<Row>, videoBase: nat, audioBase: nat)

  function ChunkHead(id: string, size: nat): (b: Bytes)
    requires |id| == 4
    ensures |b| == 8
  {
    Id(id) + Le(size, 4)
  }

  function FrameBytes(f: Frame): (b: Bytes)
    ensures |b| == 8 + |f.data|
  {
    ChunkHead(if f.video then "00db" else "01wb", |f.data|) + f.data
  }

  function Frames(fs: seq<Frame>): (b: Bytes)
    ensures |b| >= 8 * |fs|
  {
    if fs == [] then [] else Frames(fs[..|fs| - 1]) + FrameBytes(fs[|fs| - 1])
  }

  /** The data of the frames of one stream, in order, and where they are when the first frame
      header is at `at`. */
  function Datas(fs: seq<Frame>, video: bool): seq<Bytes> {
    if fs == [] then []
    else Datas(fs[..|fs| - 1], video) + (if fs[|fs| - 1].video == video then [fs[|fs| - 1].data] else [])
  }

  function Spans(fs: seq<Frame>, at: nat, video: bool): (s: seq<Span>)
    ensures |s| == |Datas(fs, video)|
  {
    if fs == [] then []
    else
      var before := fs[..|fs| - 1];
      var last := fs[|fs| - 1];
      Spans(before, at, video) + (if last.video == video then [Span(at + |Frames(before)| + 8, |last.data|)] else [])
  }

  function Offset(r: Row, video: bool): nat { if video then r.videoOffset else r.audioOffset }

  function Length(r: Row, video: bool): nat { if video then r.videoLength else r.audioLength }

  function Entries(rows: seq<Row>, video: bool): (b: Bytes)
    ensures |b| == 8 * |rows|
  {
    if rows == [] then []
    else
      var last := rows[|rows| - 1];
      Entries(rows[..|rows| - 1], video) + (Le(Offset(last, video), 4) + Le(Length(last, video), 4))
  }

  /** Header of an index of chunks with n entries. */
  function IndexHead(video: bool, base: nat, n: nat): (b: Bytes)
    ensures |b| == 32
  {
    ChunkHead(if video then "ix00" else "ix01", 24 + 8 * n)
    + (Le(2, 2) + [0] + [1] + (Le(n, 4) + (Id(if video then "00db" else "01wb") + (Le(base, 8) + Zeros(4)))))
  }

  function IndexBytes(m: Movi, video: bool): (b: Bytes)
    ensures |b| == 32 + 8 * |m.rows|
  {
    IndexHead(video, if video then m.videoBase else m.audioBase, |m.rows|) + Entries(m.rows, video)
  }

  function MoviBody(m: Movi): (b: Bytes)
    ensures |b| == |Frames(m.frames)| + 64 + 16 * |m.rows|
  {
    Frames(m.frames) + IndexBytes(m, true) + IndexBytes(m, false)
  }

  function ListHead(name: string, size: nat): (b: Bytes)
    requires |name| == 4
    ensures |b| == 12
  {
    ChunkHead("LIST", size) + Id(name)
  }

  function RiffHead(kind: string, size: nat): (b: Bytes)
    requires |kind| == 4
    ensures |b| == 12
  {
    ChunkHead("RIFF", size) + Id(kind)
  }

  function MoviBytes(m: Movi): (b: Bytes)
    ensures |b| == 12 + |MoviBody(m)|
  {
    ListHead("movi", 4 + |MoviBody(m)|) + MoviBody(m)
  }

  /** The i-th 'movi': the first one lies in the first RIFF chunk, the others in their own. */
  function Part(i: nat, m: Movi): Bytes {
    if i == 0 then MoviBytes(m) else RiffHead("AVIX", 4 + |MoviBytes(m)|) + MoviBytes(m)
  }

  function Parts(ms: seq<Movi>): Bytes {
    if ms == [] then [] else Parts(ms[..|ms| - 1]) + Part(|ms| - 1, ms[|ms| - 1])
  }

  // ----- what a reader sees -----

  /** The chunk that follows the one at `at`: data is padded to an even length. */
  function Next(file: Bytes, at: nat): int
    requires at + 8 <= |file|
  {
    var size := Field(file, at + 4, 4);
    at + 8 + size + size % 2
  }

  lemma HeadAt(file: Bytes, at: nat, id: string, size: nat)
    requires |id| == 4 && At(file, at, ChunkHead(id, size))
    ensures At(file, at, Id(id)) && at + 8 <= |file| && Field(file, at + 4, 4) == size % TWO32
  {
    Before(file, at, Id(id), Le(size, 4));
    Field32(file, at + 4, size);
  }

  /** What a frame chunk holds. */
  lemma FrameAt(file: Bytes, at: nat, f: Frame)
    requires At(file, at, FrameBytes(f)) && |f.data| < TWO32
    ensures At(file, at, Id(if f.video then "00db" else "01wb"))
    ensures at + 8 + |f.data| <= |file| && Field(file, at + 4, 4) == |f.data| && At(file, at + 8, f.data)
  {
    hide At, ChunkHead;
    Before(file, at, ChunkHead(if f.video then "00db" else "01wb", |f.data|), f.data);
    HeadAt(file, at, if f.video then "00db" else "01wb", |f.data|);
  }

  predicate Fits(fs: seq<Frame>) {
    forall i :: 0 <= i < |fs| ==> |fs[i].data| < TWO32
  }

  /** A span is the data of a frame, right after a chunk header of its stream that has the length. */
  predicate Holds(file: Bytes, s: Span, video: bool, data: Bytes) {
    && s.pos >= 8 && At(file, s.pos, data) && |data| == s.len
    && At(file, s.pos - 8, Id(if video then "00db" else "01wb"))
    && Field(file, s.pos - 4, 4) == s.len
  }

  /** Every span of a stream holds the frame it stands for. */
  lemma {:induction false} SpanData(file: Bytes, at: nat, fs: seq<Frame>, video: bool, j: nat)
    requires At(file, at, Frames(fs)) && Fits(fs) && j < |Spans(fs, at, video)|
    ensures Holds(file, Spans(fs, at, video)[j], video, Datas(fs, video)[j])
  {
    hide At, FrameBytes, Field, Id;
    if fs != [] {
      var before, last := fs[..|fs| - 1], fs[|fs| - 1];
      Before(file, at, Frames(before), FrameBytes(last));
      if j < |Spans(before, at, video)| {
        SpanData(file, at, before, video, j);
      } else {
        FrameAt(file, at + |Frames(before)|, last);
      }
    }
  }

  /** An entry of the index as a reader takes it. */
  lemma {:induction false} EntryAt(file: Bytes, at: nat, rows: seq<Row>, video: bool, j: nat)
    requires At(file, at, Entries(rows, video)) && j < |rows|
    ensures at + 8 * j + 8 <= |file|
    ensures Field(file, at + 8 * j, 4) == Offset(rows[j], video) % TWO32
    ensures Field(file, at + 8 * j + 4, 4) == Length(rows[j], video) % TWO32
  {
    hide At, Field, Le;
    var before, last := rows[..|rows| - 1], rows[|rows| - 1];
    var offset, length := Le(Offset(last, video), 4), Le(Length(last, video), 4);
    Before(file, at, Entries(before, video), offset + length);
    if j < |before| {
      EntryAt(file, at, before, video, j);
    } else {
      Before(file, at + 8 * j, offset, length);
      Field32(file, at + 8 * j, Offset(last, video));
      Field32(file, at + 8 * j + 4, Length(last, video));
    }
  }

  /** A chunk of even size needs no padding. */
  lemma EvenChunk(file: Bytes, at: nat, half: nat)
    requires at + 8 <= |file| && Field(file, at + 4, 4) == (2 * half) % TWO32
    ensures 2 * half < TWO32 ==> Next(file, at) == at + 8 + 2 * half
  {
    hide Field;
  }

  lemma IndexHeadAt(file: Bytes, at: nat, video: bool, base: nat, n: nat)
    requires At(file, at, IndexHead(video, base, n))
    ensures At(file, at, Id(if video then "ix00" else "ix01")) && at + 32 <= |file|
    ensures 24 + 8 * n < TWO32 ==> Next(file, at) == at + 32 + 8 * n
    ensures IndexKind(file, at + 8, 2, 1, if video then "00db" else "01wb")
    ensures Field(file, at + 12, 4) == n % TWO32
    ensures Field(file, at + 20, 8) == base % TWO64
  {
    hide At, Field, ChunkHead, Le, Id, Zeros, Next, IndexKind;
    var id := if video then "ix00" else "ix01";
    var tail := Le(base, 8) + Zeros(4);
    var chunk := Id(if video then "00db" else "01wb");
    var kind := Le(2, 2) + [0] + [1];
    Before(file, at, ChunkHead(id, 24 + 8 * n), kind + (Le(n, 4) + (chunk + tail)));
    HeadAt(file, at, id, 24 + 8 * n);
    EvenChunk(file, at, 12 + 4 * n);
    Before(file, at + 8, kind, Le(n, 4) + (chunk + tail));
    Before(file, at + 12, Le(n, 4), chunk + tail);
    Field32(file, at + 12, n);
    Before(file, at + 16, chunk, tail);
    Before(file, at + 20, Le(base, 8), Zeros(4));
    Field64(file, at + 20, base);
    KindIs(file, at + 8, 2, 1, if video then "00db" else "01wb");
  }

  /** What an index says of itself: longs per entry, sub type 0, index type, and the chunks of its stream. */
  predicate IndexKind(file: Bytes, at: nat, longs: nat, kind: int, id: string)
    requires |id| == 4
  {
    && at + 12 <= |file| && Field(file, at, 2) == longs && file[at + 2] == 0 && file[at + 3] == kind
    && At(file, at + 8, Id(id))
  }

  lemma KindIs(file: Bytes, at: nat, longs: nat, kind: int, id: string)
    requires |id| == 4 && longs < 65536 && At(file, at, Le(longs, 2) + [0] + [kind]) && At(file, at + 8, Id(id))
    ensures IndexKind(file, at, longs, kind, id)
  {
    hide At, Field, Le, Id;
    Before(file, at, Le(longs, 2) + [0], [kind]);
    Before(file, at, Le(longs, 2), [0]);
    Field16(file, at, longs);
    ByteHere(file, at + 2, 0);
    ByteHere(file, at + 3, kind);
    ChunkHere(file, at + 8, id);
  }

  lemma ByteHere(file: Bytes, at: nat, b: int)
    requires At(file, at, [b])
    ensures at < |file| && file[at] == b
  {
    assert file[at..at + 1][0] == [b][0];
  }

  lemma ChunkHere(file: Bytes, at: nat, id: string)
    requires |id| == 4 && At(file, at, Id(id))
    ensures at + 4 <= |file|
  {
  }

  /** The index of a 'movi' written at `at` covers a stream: entry j is where frame j is. */
  predicate Covers(m: Movi, at: nat, video: bool) {
    var base := if video then m.videoBase else m.audioBase;
    var spans := Spans(m.frames, at + 12, video);
    && |m.rows| <= |spans| && |m.rows| < TWO32 && base < TWO64
    && forall j :: 0 <= j < |m.rows| ==>
        Offset(m.rows[j], video) < TWO32 && base + Offset(m.rows[j], video) == spans[j].pos
        && Length(m.rows[j], video) == spans[j].len < TWO32
  }

  /** Where the index of a stream lies in a 'movi' at `at`. */
  function IndexPos(m: Movi, at: nat, video: bool): nat {
    at + 12 + |Frames(m.frames)| + (if video then 0 else 32 + 8 * |m.rows|)
  }

  lemma MoviAt(file: Bytes, at: nat, m: Movi)
    requires At(file, at, MoviBytes(m))
    ensures At(file, at, ListHead("movi", 4 + |MoviBody(m)|)) && At(file, at + 12, Frames(m.frames))
    ensures At(file, IndexPos(m, at, true), IndexBytes(m, true))
    ensures At(file, IndexPos(m, at, false), IndexBytes(m, false))
    ensures at + |MoviBytes(m)| == IndexPos(m, at, false) + |IndexBytes(m, false)|
  {
    hide IndexBytes, Frames, At, ListHead;
    Before(file, at, ListHead("movi", 4 + |MoviBody(m)|), MoviBody(m));
    Before(file, at + 12, Frames(m.frames) + IndexBytes(m, true), IndexBytes(m, false));
    Before(file, at + 12, Frames(m.frames), IndexBytes(m, true));
  }

  /** A reader of the index at `ix` takes entry j of n: base offset plus entry offset is a place
      right after a chunk header of the stream, and the data is there with the length given. */
  predicate Finds(file: Bytes, ix: nat, video: bool, n: nat, j: nat, data: Bytes) {
    && ix + 40 + 8 * j <= |file| && At(file, ix, Id(if video then "ix00" else "ix01"))
    && IndexKind(file, ix + 8, 2, 1, if video then "00db" else "01wb")
    && Field(file, ix + 12, 4) == n && j < n
    && var pos := Field(file, ix + 20, 8) + Field(file, ix + 32 + 8 * j, 4);
    && pos >= 0 && Field(file, ix + 36 + 8 * j, 4) == |data|
    && Holds(file, Span(pos, |data|), video, data)
  }

  lemma EntryFinds(file: Bytes, ix: nat, video: bool, base: nat, rows: seq<Row>, j: nat, span: Span, data: Bytes)
    requires At(file, ix, IndexHead(video, base, |rows|)) && At(file, ix + 32, Entries(rows, video))
    requires j < |rows| < TWO32 && base < TWO64
    requires Offset(rows[j], video) < TWO32 && base + Offset(rows[j], video) == span.pos
    requires Length(rows[j], video) == span.len < TWO32
    requires Holds(file, span, video, data)
    ensures Finds(file, ix, video, |rows|, j, data)
  {
    hide Entries, IndexHead, At, Field, Holds, Offset, Length, IndexKind;
    IndexHeadAt(file, ix, video, base, |rows|);
    EntryAt(file, ix + 32, rows, video, j);
    assert span == Span(span.pos, |data|) by { HoldsLength(file, span, video, data); }
  }

  lemma HoldsLength(file: Bytes, span: Span, video: bool, data: Bytes)
    requires Holds(file, span, video, data)
    ensures |data| == span.len
  {
  }

  /** Reading the index finds the frames. */
  lemma IndexFindsFrames(file: Bytes, at: nat, m: Movi, video: bool, j: nat)
    requires At(file, at, MoviBytes(m)) && Fits(m.frames) && Covers(m, at, video) && j < |m.rows|
    ensures j < |Datas(m.frames, video)|
    ensures Finds(file, IndexPos(m, at, video), video, |m.rows|, j, Datas(m.frames, video)[j])
  {
    hide Frames, Entries, IndexHead, Spans, Datas, At, Field, MoviBytes, Finds, Holds, MoviBody;
    var ix := IndexPos(m, at, video);
    var base := if video then m.videoBase else m.audioBase;
    MoviAt(file, at, m);
    Before(file, ix, IndexHead(video, base, |m.rows|), Entries(m.rows, video));
    SpanData(file, at + 12, m.frames, video, j);
    EntryFinds(file, ix, video, base, m.rows, j, Spans(m.frames, at + 12, video)[j], Datas(m.frames, video)[j]);
  }

  // ----- chunks tile what contains them -----

  /** From the chunk at `at`, n chunks further is `to`. */
  predicate Reaches(file: Bytes, at: nat, n: nat, to: nat)
    decreases n
  {
    if n == 0 then at == to
    else at + 8 <= |file| && Next(file, at) >= 0 && Reaches(file, Next(file, at), n - 1, to)
  }

  lemma {:induction false} ReachesMore(file: Bytes, at: nat, n: nat, mid: nat, m: nat, to: nat)
    requires Reaches(file, at, n, mid) && Reaches(file, mid, m, to)
    ensures Reaches(file, at, n + m, to)
    decreases n
  {
    hide Next;
    if n > 0 {
      ReachesMore(file, Next(file, at), n - 1, mid, m, to);
    }
  }

  lemma OneChunk(file: Bytes, at: nat, to: nat)
    requires at + 8 <= |file| && Next(file, at) == to
    ensures Reaches(file, at, 1, to)
  {
    hide Next;
    assert Reaches(file, to, 0, to);
  }

  predicate Even(fs: seq<Frame>) {
    forall i :: 0 <= i < |fs| ==> |fs[i].data| % 2 == 0
  }

  lemma {:induction false} FramesTile(file: Bytes, at: nat, fs: seq<Frame>)
    requires At(file, at, Frames(fs)) && Fits(fs) && Even(fs)
    ensures Reaches(file, at, |fs|, at + |Frames(fs)|) && |Frames(fs)| % 2 == 0
  {
    hide At, Field, FrameBytes, Reaches;
    if fs == [] {
      ReachesNone(file, at);
    } else {
      var before, last := fs[..|fs| - 1], fs[|fs| - 1];
      Before(file, at, Frames(before), FrameBytes(last));
      FramesTile(file, at, before);
      FrameAt(file, at + |Frames(before)|, last);
      OneChunk(file, at + |Frames(before)|, at + |Frames(fs)|);
      ReachesMore(file, at, |before|, at + |Frames(before)|, 1, at + |Frames(fs)|);
    }
  }

  /** A chunk of odd length is not padded, so that the reader does not get to what follows it. */
  lemma ChunkFollowsIff(file: Bytes, at: nat, f: Frame)
    requires At(file, at, FrameBytes(f)) && |f.data| < TWO32
    ensures at + 8 <= |file| && Next(file, at) == at + |FrameBytes(f)| + |f.data| % 2
    ensures Next(file, at) == at + |FrameBytes(f)| <==> |f.data| % 2 == 0
  {
    hide At, Field;
    FrameAt(file, at, f);
  }

  /** What an odd frame breaks: the reader gets from frame to frame up to the first odd one, and
      then one byte too far. */
  lemma FirstOdd(file: Bytes, at: nat, fs: seq<Frame>, k: nat)
    requires At(file, at, Frames(fs)) && Fits(fs) && k < |fs| && Even(fs[..k]) && |fs[k].data| % 2 == 1
    ensures At(file, at, Frames(fs[..k])) && Reaches(file, at, k, at + |Frames(fs[..k])|)
    ensures Reaches(file, at, k + 1, at + |Frames(fs[..k + 1])| + 1)
  {
    hide At, Field, FrameBytes, Reaches, Next;
    FramesPrefix(file, at, fs, k + 1);
    FramesPrefix(file, at, fs, k);
    var upto := fs[..k + 1];
    assert upto[..k] == fs[..k];
    Before(file, at, Frames(fs[..k]), FrameBytes(fs[k]));
    FramesTile(file, at, fs[..k]);
    ChunkFollowsIff(file, at + |Frames(fs[..k])|, fs[k]);
    OneChunk(file, at + |Frames(fs[..k])|, at + |Frames(upto)| + 1);
    ReachesMore(file, at, k, at + |Frames(fs[..k])|, 1, at + |Frames(upto)| + 1);
  }

  lemma {:induction false} FramesPrefix(file: Bytes, at: nat, fs: seq<Frame>, k: nat)
    requires At(file, at, Frames(fs)) && k <= |fs|
    ensures At(file, at, Frames(fs[..k]))
  {
    hide At, FrameBytes;
    if k < |fs| {
      var before := fs[..|fs| - 1];
      Before(file, at, Frames(before), FrameBytes(fs[|fs| - 1]));
      FramesPrefix(file, at, before, k);
      assert before[..k] == fs[..k];
    } else {
      assert fs[..k] == fs;
    }
  }

  lemma ReachesNone(file: Bytes, at: nat)
    ensures Reaches(file, at, 0, at)
  {
  }

  /** A 'movi' list is one chunk, and its content is its frames and its two indexes. */
  lemma MoviTiles(file: Bytes, at: nat, m: Movi)
    requires At(file, at, MoviBytes(m)) && Fits(m.frames) && Even(m.frames) && |MoviBytes(m)| < TWO32
    ensures At(file, at, Id("LIST")) && At(file, at + 8, Id("movi"))
    ensures Reaches(file, at, 1, at + |MoviBytes(m)|) && |MoviBytes(m)| % 2 == 0
    ensures Reaches(file, at + 12, |m.frames| + 2, at + |MoviBytes(m)|)
  {
    hide Frames, At, Field, FrameBytes, Reaches, Entries, IndexHead, ChunkHead, Id;
    MoviAt(file, at, m);
    var size := 4 + |MoviBody(m)|;
    Before(file, at, ChunkHead("LIST", size), Id("movi"));
    HeadAt(file, at, "LIST", size);
    FramesTile(file, at + 12, m.frames);
    OneChunk(file, at, at + |MoviBytes(m)|);
    var mid := at + 12 + |Frames(m.frames)|;
    IndexTiles(file, mid, true, m.videoBase, m.rows);
    IndexTiles(file, IndexPos(m, at, false), false, m.audioBase, m.rows);
    ReachesMore(file, at + 12, |m.frames|, mid, 1, IndexPos(m, at, false));
    ReachesMore(file, at + 12, |m.frames| + 1, IndexPos(m, at, false), 1, at + |MoviBytes(m)|);
  }

  lemma IndexTiles(file: Bytes, ix: nat, video: bool, base: nat, rows: seq<Row>)
    requires At(file, ix, IndexHead(video, base, |rows|) + Entries(rows, video)) && 32 + 8 * |rows| < TWO32
    ensures Reaches(file, ix, 1, ix + 32 + 8 * |rows|)
  {
    hide At, Field, Reaches, Entries, IndexHead, Next;
    Before(file, ix, IndexHead(video, base, |rows|), Entries(rows, video));
    IndexHeadAt(file, ix, video, base, |rows|);
    OneChunk(file, ix, ix + 32 + 8 * |rows|);
  }
}
