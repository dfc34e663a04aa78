/** Blank disk images: the boot sector, the start of both FATs and the volume label. */
module BlankImage {
  import Arith
  import opened Floppy

  datatype Option<T> = None | Some(value: T)

  /** High-density disks always have two sides. */
  function Sides(sectors: nat, sides: nat): nat { if sectors >= 18 then 2 else sides }

  function Total(tracks: nat, sectors: nat, sides: nat): nat { tracks * sectors * Sides(sectors, sides) }

  function ClusterSize(tracks: nat, sectors: nat, sides: nat): byte {
    if tracks == 40 && Sides(sectors, sides) == 1 then 1 else 2
  }

  function DirEntries(tracks: nat, sectors: nat, sides: nat): nat {
    if ClusterSize(tracks, sectors, sides) == 1 then 64 else if sectors < 18 then 112 else 224
  }

  function Media(tracks: nat, sectors: nat, sides: nat): byte {
    if sectors >= 18 then 0xF0
    else (if tracks <= 42 then 0xFC else 0xF8) + (if sides == 2 then 1 else 0)
  }

  function FatSectors(tracks: nat, sectors: nat): nat {
    if sectors >= 18 then 9 else if tracks >= 80 then 5 else 2
  }

  function LabelByte(volume: seq<byte>, i: nat): byte {
    if i < |volume| then volume[i] else 32
  }

  function Low(n: nat): byte { n % 256 }
  function High(n: nat): byte { n / 256 % 256 }

  /** One byte of the image, apart from the random serial number in bytes 8 to 10. */
  function ByteOf(tracks: nat, sectors: nat, sides: nat, volume: Option<seq<byte>>, i: nat): byte {
    var fats := FatSectors(tracks, sectors);
    var root := (1 + fats * 2) * 512;
    if i == 0 then 0xE9
    else if 2 <= i <= 7 then 0x4E
    else if i == 11 then Low(512) else if i == 12 then High(512)
    else if i == 13 then ClusterSize(tracks, sectors, sides)
    else if i == 14 then 1
    else if i == 16 then 2
    else if i == 17 then Low(DirEntries(tracks, sectors, sides))
    else if i == 19 then Low(Total(tracks, sectors, sides)) else if i == 20 then High(Total(tracks, sectors, sides))
    else if i == 21 then Media(tracks, sectors, sides)
    else if i == 22 then fats
    else if i == 24 then Low(sectors) else if i == 25 then High(sectors)
    else if i == 26 then Low(Sides(sectors, sides)) else if i == 27 then High(Sides(sectors, sides))
    else if i == 512 || i == 512 + fats * 512 then Media(tracks, sectors, sides)
    else if i == 513 || i == 514 || i == 513 + fats * 512 || i == 514 + fats * 512 then 0xFF
    else if volume.Some? && root <= i < root + 11 then LabelByte(volume.value, i - root)
    else if volume.Some? && i == root + 11 then 0x08
    else 0
  }

  /** The last byte that is written: in the second FAT, or in the label. */
  function LastWritten(tracks: nat, sectors: nat, volume: Option<seq<byte>>): nat {
    if volume.Some? then (1 + FatSectors(tracks, sectors) * 2) * 512 + 11 else 514 + FatSectors(tracks, sectors) * 512
  }

  /** The disk is large enough for all that is written to it. */
  predicate Fits(tracks: nat, sectors: nat, sides: nat, volume: Option<seq<byte>>) {
    LastWritten(tracks, sectors, volume) < 512 * Total(tracks, sectors, sides)
  }

  /** Which disks are: those with a sector for the label behind both FATs, or, without a label,
      with one for the start of the second FAT. */
  lemma FitsIff(tracks: nat, sectors: nat, sides: nat, volume: Option<seq<byte>>)
    ensures Fits(tracks, sectors, sides, volume) <==>
      Total(tracks, sectors, sides) >= 2 + FatSectors(tracks, sectors) * if volume.Some? then 2 else 1
  {
  }

  /** The image is what was asked for. */
  predicate Blank(image: seq<byte>, tracks: nat, sectors: nat, sides: nat, volume: Option<seq<byte>>) {
    && |image| == 512 * Total(tracks, sectors, sides)
    && forall i :: 0 <= i < |image| && !(8 <= i <= 10) ==> image[i] == ByteOf(tracks, sectors, sides, volume, i)
  }

  method WriteShortLE(file: array<byte>, at: nat, value: nat)
    requires at + 2 <= file.Length
    modifies file
    ensures file[at] == Low(value) && file[at + 1] == High(value)
    ensures forall i :: 0 <= i < file.Length && i != at && i != at + 1 ==> file[i] == old(file[i])
  {
    file[at] := value % 256;
    file[at + 1] := value / 256 % 256;
  }

  lemma SmallWords(tracks: nat, sectors: nat, sides: nat)
    ensures Low(1) == 1 && High(1) == 0 && Low(0) == 0 && High(0) == 0
    ensures Low(FatSectors(tracks, sectors)) == FatSectors(tracks, sectors) && High(FatSectors(tracks, sectors)) == 0
    ensures High(DirEntries(tracks, sectors, sides)) == 0
  {
  }

  /** The identification, up to the number of directory entries. */
  method FillNames(file: array<byte>, tracks: nat, sectors: nat, sides: nat, serial: nat, serialHigh: byte)
    requires Fits(tracks, sectors, sides, None) && file.Length == 512 * Total(tracks, sectors, sides)
    requires forall i :: 0 <= i < file.Length ==> file[i] == 0
    modifies file
    ensures forall i :: 0 <= i < 19 && !(8 <= i <= 10) ==> file[i] == ByteOf(tracks, sectors, sides, None, i)
    ensures forall i :: 19 <= i < file.Length ==> file[i] == 0
  {
    hide Total, Low, High, ClusterSize, DirEntries, Media, Sides, FatSectors;
    SmallWords(tracks, sectors, sides);
    file[0] := 0xE9;
    for i := 2 to 8
      invariant file[0] == 0xE9 && file[1] == 0
      invariant forall k :: 2 <= k < i ==> file[k] == 0x4E
      invariant forall k :: i <= k < file.Length ==> file[k] == 0
    {
      file[i] := 0x4E;
    }
    WriteShortLE(file, 8, serial);
    file[10] := serialHigh;
    WriteShortLE(file, 11, 512);
    file[13] := ClusterSize(tracks, sectors, sides);
    WriteShortLE(file, 14, 1);
    file[16] := 2;
    WriteShortLE(file, 17, DirEntries(tracks, sectors, sides));
  }

  /** The sizes. */
  method FillSizes(file: array<byte>, tracks: nat, sectors: nat, sides: nat)
    requires Fits(tracks, sectors, sides, None) && file.Length == 512 * Total(tracks, sectors, sides)
    requires forall i :: 19 <= i < file.Length ==> file[i] == 0
    modifies file
    ensures forall i :: 0 <= i < 19 ==> file[i] == old(file[i])
    ensures forall i :: 19 <= i < 512 ==> file[i] == ByteOf(tracks, sectors, sides, None, i)
    ensures forall i :: 512 <= i < file.Length ==> file[i] == 0
  {
    hide Total, Low, High, ClusterSize, DirEntries, Media, Sides, FatSectors;
    SmallWords(tracks, sectors, sides);
    FatPlace(tracks, sectors);
    WriteShortLE(file, 19, Total(tracks, sectors, sides));
    file[21] := Media(tracks, sectors, sides);
    WriteShortLE(file, 22, FatSectors(tracks, sectors));
    WriteShortLE(file, 24, sectors);
    WriteShortLE(file, 26, Sides(sectors, sides));
    WriteShortLE(file, 28, 0);
  }

  lemma FatPlace(tracks: nat, sectors: nat)
    ensures 2 <= FatSectors(tracks, sectors) <= 9
  {
  }

  /** The first bytes of both FATs. */
  method FillFats(file: array<byte>, tracks: nat, sectors: nat, sides: nat)
    requires Fits(tracks, sectors, sides, None) && file.Length == 512 * Total(tracks, sectors, sides)
    requires forall i :: 0 <= i < 512 && !(8 <= i <= 10) ==> file[i] == ByteOf(tracks, sectors, sides, None, i)
    requires forall i :: 512 <= i < file.Length ==> file[i] == 0
    modifies file
    ensures Blank(file[..], tracks, sectors, sides, None)
  {
    hide Total, Low, High, ClusterSize, DirEntries, Media, Sides, FatSectors;
    FatPlace(tracks, sectors);
    var media, fats := Media(tracks, sectors, sides), FatSectors(tracks, sectors);
    file[512], file[513], file[514] := media, 0xFF, 0xFF;
    file[512 + fats * 512], file[513 + fats * 512], file[514 + fats * 512] := media, 0xFF, 0xFF;
  }

  /** The first entry of the root directory, with eleven characters of the label. */
  method FillLabel(file: array<byte>, tracks: nat, sectors: nat, sides: nat, text: seq<byte>)
    requires Fits(tracks, sectors, sides, Some(text)) && Blank(file[..], tracks, sectors, sides, None)
    modifies file
    ensures Blank(file[..], tracks, sectors, sides, Some(text))
  {
    hide Total, Low, High, ClusterSize, DirEntries, Media, Sides, FatSectors;
    FatPlace(tracks, sectors);
    var root := (1 + FatSectors(tracks, sectors) * 2) * 512;
    ghost var was := file[..];
    forall i | 0 <= i < 11 {
      file[root + i] := 32;
    }
    var n := if |text| <= 11 then |text| else 11;
    forall i | 0 <= i < n {
      file[root + i] := text[i];
    }
    file[root + 11] := 0x08;
    LabelOnly(tracks, sectors, sides, text, was, file[..], root);
  }

  lemma LabelOnly(tracks: nat, sectors: nat, sides: nat, text: seq<byte>, was: seq<byte>, now: seq<byte>, root: nat)
    requires Fits(tracks, sectors, sides, None) && Blank(was, tracks, sectors, sides, None) && |now| == |was|
    requires root == (1 + FatSectors(tracks, sectors) * 2) * 512 && root + 12 <= |was|
    requires forall i :: 0 <= i < |was| && !(root <= i <= root + 11) ==> now[i] == was[i]
    requires forall i :: root <= i < root + 11 ==> now[i] == LabelByte(text, i - root)
    requires now[root + 11] == 0x08
    ensures Blank(now, tracks, sectors, sides, Some(text))
  {
    hide Total, Low, High, ClusterSize, DirEntries, Media, Sides, FatSectors;
    FatPlace(tracks, sectors);
  }

  /** A blank image; the serial number is random. */
  method CreateImage(tracks: nat, sectors: nat, sides: nat, volume: Option<seq<byte>>, serial: nat, serialHigh: byte)
    returns (file: array<byte>)
    requires Fits(tracks, sectors, sides, volume)
    ensures fresh(file) && Blank(file[..], tracks, sectors, sides, volume)
  {
    hide Total, ByteOf;
    var size := 512 * Total(tracks, sectors, sides);
    file := new byte[size](i => 0);
    FillNames(file, tracks, sectors, sides, serial, serialHigh);
    FillSizes(file, tracks, sectors, sides);
    FillFats(file, tracks, sectors, sides);
    if volume.Some? {
      FillLabel(file, tracks, sectors, sides, volume.value);
    }
  }

  /** The fields of the boot sector of an image. */
  datatype Boot = Boot(bps: nat, spc: int, res: nat, fats: int, dir: nat, sec: nat, media: int, spf: nat,
                       spt: nat, sides: nat, hidden: nat)

  function BootOf(image: seq<byte>): Boot
    requires |image| >= 30
  {
    Boot(Word(image, 11), image[13], Word(image, 14), image[16], Word(image, 17), Word(image, 19), image[21],
         Word(image, 22), Word(image, 24), Word(image, 26), Word(image, 28))
  }

  /** What the functions above come to for the usual formats: 9 sectors, of 40 and 80 tracks on one and
      two sides, and 18 sectors. */
  lemma UsualValues()
    ensures Asked(40, 9, 1) == Boot(512, 1, 1, 2, 64, 360, 0xFC, 2, 9, 1, 0)
    ensures Asked(40, 9, 2) == Boot(512, 2, 1, 2, 112, 720, 0xFD, 2, 9, 2, 0)
    ensures Asked(80, 9, 1) == Boot(512, 2, 1, 2, 112, 720, 0xF8, 5, 9, 1, 0)
    ensures Asked(80, 9, 2) == Boot(512, 2, 1, 2, 112, 1440, 0xF9, 5, 9, 2, 0)
    ensures Asked(80, 18, 2) == Boot(512, 2, 1, 2, 224, 2880, 0xF0, 9, 18, 2, 0)
  {
  }

  /** The media byte tells the format: F0 for high density, else bit 0 for two sides, and FC and above for
      disks of up to 42 tracks. */
  lemma MediaTells(tracks: nat, sectors: nat, sides: nat)
    ensures Media(tracks, sectors, sides) == 0xF0 <==> sectors >= 18
    ensures Sides(sectors, sides) == if Media(tracks, sectors, sides) == 0xF0 then 2 else sides
    ensures sectors < 18 ==> (Media(tracks, sectors, sides) % 2 == 1 <==> sides == 2)
    ensures sectors < 18 ==> (Media(tracks, sectors, sides) >= 0xFC <==> tracks <= 42)
  {
  }

  /** Clusters behind the boot sector, both FATs and the root directory. */
  function Clusters(tracks: nat, sectors: nat, sides: nat): int {
    (Total(tracks, sectors, sides) - 1 - 2 * FatSectors(tracks, sectors) - DirEntries(tracks, sectors, sides) * 32 / 512)
    / ClusterSize(tracks, sectors, sides)
  }

  /** For disks of 40 to 42 and 80 to 85 tracks the root directory fills whole sectors, and a FAT has
      an entry of 12 bits for each cluster, besides the first two. */
  lemma FatLargeEnough(tracks: nat, sectors: nat, sides: nat)
    requires 40 <= tracks <= 42 || 80 <= tracks <= 85
    requires sectors <= 12 || sectors == 18 || sectors == 36
    requires 1 <= sides <= 2
    ensures DirEntries(tracks, sectors, sides) * 32 % 512 == 0
    ensures (Clusters(tracks, sectors, sides) + 2) * 12 <= FatSectors(tracks, sectors) * 512 * 8
  {
    Arith.MulMonotone(tracks, if tracks <= 42 then 42 else 85, sectors);
    var total := Total(tracks, sectors, sides);
    assert total <= (if tracks <= 42 then 42 else 85) * sectors * 2;
  }

  function Asked(tracks: nat, sectors: nat, sides: nat): Boot {
    Boot(512, ClusterSize(tracks, sectors, sides), 1, 2, DirEntries(tracks, sectors, sides),
         Total(tracks, sectors, sides) % 65536, Media(tracks, sectors, sides), FatSectors(tracks, sectors),
         sectors % 65536, Sides(sectors, sides) % 65536, 0)
  }

  /** The boot sector holds what was asked for. */
  lemma BootWritten(image: seq<byte>, tracks: nat, sectors: nat, sides: nat, volume: Option<seq<byte>>)
    requires Fits(tracks, sectors, sides, None) && Blank(image, tracks, sectors, sides, volume)
    ensures |image| >= 30 && BootOf(image) == Asked(tracks, sectors, sides)
  {
    hide Low, High, Total, Media, FatSectors, Sides, ClusterSize, DirEntries;
    FatPlace(tracks, sectors);
    SmallWords(tracks, sectors, sides);
    WordBack(512);
    WordBack(DirEntries(tracks, sectors, sides));
    WordBack(Total(tracks, sectors, sides));
    WordBack(sectors);
    WordBack(Sides(sectors, sides));
    DirSmall(tracks, sectors, sides);
    assert image[11] == Low(512) && image[12] == High(512) && image[13] == ClusterSize(tracks, sectors, sides);
    assert image[14] == 1 && image[15] == 0 && image[16] == 2 && image[28] == 0 && image[29] == 0;
    assert image[17] == Low(DirEntries(tracks, sectors, sides)) && image[18] == 0;
    assert image[19] == Low(Total(tracks, sectors, sides)) && image[20] == High(Total(tracks, sectors, sides));
    assert image[21] == Media(tracks, sectors, sides) && image[22] == FatSectors(tracks, sectors) && image[23] == 0;
    assert image[24] == Low(sectors) && image[25] == High(sectors);
    assert image[26] == Low(Sides(sectors, sides)) && image[27] == High(Sides(sectors, sides));
  }

  lemma DirSmall(tracks: nat, sectors: nat, sides: nat)
    ensures DirEntries(tracks, sectors, sides) < 256
  {
  }

  lemma WordBack(n: nat)
    ensures Low(n) as int + 256 * High(n) as int == n % 65536
  {
  }

  /** The words of the boot sector. */
  lemma BootWords(image: seq<byte>, tracks: nat, sectors: nat, sides: nat, volume: Option<seq<byte>>)
    requires Fits(tracks, sectors, sides, None) && Blank(image, tracks, sectors, sides, volume) && sides <= 2
    ensures |image| >= 28
    ensures Word(image, 24) == sectors % 65536 && Word(image, 26) == Sides(sectors, sides)
    ensures Word(image, 19) == Total(tracks, sectors, sides) % 65536
  {
    hide Total, Media, FatSectors, ClusterSize, DirEntries, Word, Blank;
    BootWritten(image, tracks, sectors, sides, volume);
    assert BootOf(image).sec == Word(image, 19) && BootOf(image).spt == Word(image, 24) && BootOf(image).sides == Word(image, 26);
  }

  /** The boot sector gives the geometry back, and with it exactly the tracks asked for, as long
      as the number of sectors fits 16 bits. */
  lemma GeometryBack(image: seq<byte>, tracks: nat, sectors: nat, sides: nat, volume: Option<seq<byte>>)
    requires Fits(tracks, sectors, sides, None) && Blank(image, tracks, sectors, sides, volume)
    requires sides <= 2 && sectors <= 48 && Total(tracks, sectors, sides) < 65536
    ensures !Suspicious(image) && Details(image) == Geometry(sectors, Sides(sectors, sides))
    ensures Tracks(Details(image), |image|) == tracks && Usable(image)
  {
    hide Total, ByteOf, Word;
    SomeOfEach(tracks, sectors, sides);
    BootWords(image, tracks, sectors, sides, volume);
    TracksBack(tracks, sectors, sides);
  }

  lemma SomeOfEach(tracks: nat, sectors: nat, sides: nat)
    requires Fits(tracks, sectors, sides, None)
    ensures tracks > 0 && sectors > 0 && sides + sectors > 1 && Sides(sectors, sides) > 0
  {
  }

  /** When the geometry comes back: up to 48 sectors per track, if the number of sectors fits 16 bits
      or, on two sides, what is left of the boot sector or of the size gives the sectors per track.
      Beyond 48 only the size is left. */
  predicate ComesBack(tracks: nat, sectors: nat, sides: nat) {
    var total := Total(tracks, sectors, sides);
    if sectors <= 48 then total < 65536 || (Sides(sectors, sides) == 2 && (sectors >= 5 || total / 160 % 65536 == sectors))
    else total >= 1000 && CommonSpt(total, 2) == 0 && total / 160 % 65536 == sectors
  }

  /** The geometry of a disk of one or two sides comes back exactly then. */
  lemma GeometryBackIff(image: seq<byte>, tracks: nat, sectors: nat, sides: nat, volume: Option<seq<byte>>)
    requires Fits(tracks, sectors, sides, None) && Blank(image, tracks, sectors, sides, volume) && sides <= 2
    ensures Details(image) == Geometry(sectors, Sides(sectors, sides)) <==> ComesBack(tracks, sectors, sides)
  {
    hide Total, ByteOf, Word, CommonSpt;
    SomeOfEach(tracks, sectors, sides);
    BootWords(image, tracks, sectors, sides, volume);
    var total := Total(tracks, sectors, sides);
    assert |image| / 512 == total;
    CommonSmall(total, GuessedSides(|image|));
    HalfOfTracks(total);
    TotalAtLeast(tracks, sectors, sides);
    assert sectors > 48 ==> Suspicious(image);
  }

  /** A disk the size of which the boot sector cannot hold: one side is taken for two. */
  lemma GeometryLost()
    ensures Total(4096, 17, 1) == 69632
    ensures Details(BlankOf(4096, 17, 1, None)) == Geometry(17, 2)
  {
    hide ByteOf, Word, CommonSpt;
    assert Sides(17, 1) == 1;
    var image := BlankOf(4096, 17, 1, None);
    BootWords(image, 4096, 17, 1, None);
    CommonSmall(69632, 2);
  }

  /** A blank image with serial number 0. */
  function BlankOf(tracks: nat, sectors: nat, sides: nat, volume: Option<seq<byte>>): (image: seq<byte>)
    ensures Blank(image, tracks, sectors, sides, volume)
  {
    hide ByteOf, Total;
    seq(512 * Total(tracks, sectors, sides), i requires 0 <= i => ByteOf(tracks, sectors, sides, volume, i))
  }

  lemma TotalAtLeast(tracks: nat, sectors: nat, sides: nat)
    requires tracks > 0 && Sides(sectors, sides) > 0
    ensures Total(tracks, sectors, sides) >= sectors
  {
    Arith.MulMonotone(1, tracks, sectors);
    Arith.MulMonotone(1, Sides(sectors, sides), tracks * sectors);
  }

  lemma HalfOfTracks(total: nat)
    ensures total / 80 / 2 == total / 160
  {
  }

  /** The common formats have up to 12 sectors per track and up to 2016 sectors. */
  lemma CommonSmall(total: nat, sides: nat)
    requires 1 <= sides <= 2
    ensures CommonSpt(total, sides) <= 12 && (total > 2016 ==> CommonSpt(total, sides) == 0)
  {
  }

  lemma TracksBack(tracks: nat, sectors: nat, sides: nat)
    requires 0 < sectors && 0 < Sides(sectors, sides) <= 2
    ensures Total(tracks, sectors, sides) / sectors / Sides(sectors, sides) == tracks
  {
    var s := Sides(sectors, sides);
    assert Total(tracks, sectors, sides) == (tracks * s) * sectors + 0 by { Arith.Regroup(tracks, sectors, s); }
    Arith.Division(Total(tracks, sectors, sides), sectors, tracks * s, 0);
    Arith.Division(tracks * s, s, tracks, 0);
  }
}
