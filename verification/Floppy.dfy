/** Floppy images: finding the geometry, and reading and writing sectors. */
module Floppy {
  import Arith

  const SECTOR := 512

  type byte = x: int | 0 <= x < 256

  datatype Geometry = Geometry(spt: nat, sides: nat)

  function Word(image: seq<byte>, at: nat): (w: nat)
    requires at + 2 <= |image|
    ensures w < 65536
  {
    image[at] as int + 256 * image[at + 1] as int
  }

  /** Sectors per track for the sizes of 80 to 84 tracks with 9 to 12 sectors. */
  function CommonSpt(total: nat, sides: nat): nat {
    if CommonFor(total, sides, 9) then 9
    else if CommonFor(total, sides, 10) then 10
    else if CommonFor(total, sides, 11) then 11
    else if CommonFor(total, sides, 12) then 12
    else 0
  }

  predicate CommonFor(total: nat, sides: nat, spt: nat) {
    total == 80 * spt * sides || total == 81 * spt * sides || total == 82 * spt * sides
    || total == 83 * spt * sides || total == 84 * spt * sides
  }

  /** A number of sectors has a common format exactly when it is that of 80 to 84 tracks with 9 to 12
      sectors each on all sides, and there is only one. */
  lemma CommonIff(total: nat, sides: nat, spt: nat)
    requires 1 <= sides <= 2 && spt != 0
    ensures CommonSpt(total, sides) == spt <==>
      9 <= spt <= 12 && exists tracks :: 80 <= tracks <= 84 && total == tracks * spt * sides
  {
    hide CommonFor;
    if 9 <= spt <= 12 {
      TracksOf(total, sides, spt);
      forall other | 9 <= other <= 12 && CommonFor(total, sides, spt) && CommonFor(total, sides, other) ensures other == spt {
        OneCommon(total, sides, spt, other);
      }
    }
  }

  lemma TracksOf(total: nat, sides: nat, spt: nat)
    ensures CommonFor(total, sides, spt) <==> exists tracks :: 80 <= tracks <= 84 && total == tracks * spt * sides
  {
    forall tracks | 80 <= tracks <= 84 && total == tracks * spt * sides ensures CommonFor(total, sides, spt) {}
  }

  lemma OneCommon(total: nat, sides: nat, a: nat, b: nat)
    requires 1 <= sides <= 2 && 9 <= a <= 12 && 9 <= b <= 12 && CommonFor(total, sides, a) && CommonFor(total, sides, b)
    ensures a == b
  {
  }

  /** The boot sector cannot be trusted. */
  predicate Suspicious(image: seq<byte>)
    requires |image| >= 28
  {
    || Word(image, 19) != |image| / 512 || Word(image, 26) == 0 || Word(image, 26) > 2
    || Word(image, 24) == 0 || Word(image, 24) > 48
  }

  function GuessedSides(size: nat): nat { if size < 500 * 1024 then 1 else 2 }

  /** The geometry of an image: what the boot sector says if that fits the size, else a guess. */
  function Details(image: seq<byte>): (g: Geometry)
    requires |image| >= 28
    ensures 1 <= g.sides <= 2
  {
    var boot := Word(image, 24);
    var sides := GuessedSides(|image|);
    var common := CommonSpt(|image| / 512, sides);
    if !Suspicious(image) then Geometry(boot, Word(image, 26))
    else if common != 0 then Geometry(common, sides)
    else if 5 <= boot <= 48 then Geometry(boot, sides)
    else Geometry(|image| / 512 / 80 / sides % 65536, sides)
  }

  /** The usual sizes, whatever is in the boot sector: 360 and 720 kilobytes have 9 sectors per track
      on one and on two sides, 400 and 800 kilobytes have 10. */
  lemma UsualSizes(image: seq<byte>)
    requires |image| >= 28 && Suspicious(image)
    ensures |image| == 368640 ==> Details(image) == Geometry(9, 1)
    ensures |image| == 737280 ==> Details(image) == Geometry(9, 2)
    ensures |image| == 409600 ==> Details(image) == Geometry(10, 1)
    ensures |image| == 819200 ==> Details(image) == Geometry(10, 2)
  {
  }

  /** Guess the number of sides and of sectors per track from the size of the image. */
  method DoubleCheckFormat(size: nat, spt: nat, sides: nat) returns (newSpt: nat, newSides: nat)
    ensures newSides == GuessedSides(size)
    ensures var common := CommonSpt(size / 512, newSides);
      newSpt == if common != 0 then common else if 5 <= spt <= 48 then spt else size / 512 / 80 / newSides % 65536
  {
    var fixedSides := if size < 500 * 1024 then 1 else 2;
    var total, fixedSpt := size / 512, 0;
    if CommonFor(total, fixedSides, 9) { fixedSpt := 9; }
    else if CommonFor(total, fixedSides, 10) { fixedSpt := 10; }
    else if CommonFor(total, fixedSides, 11) { fixedSpt := 11; }
    else if CommonFor(total, fixedSides, 12) { fixedSpt := 12; }
    else if spt >= 5 && spt <= 48 { fixedSpt := spt; }
    else { fixedSpt := total / 80 / fixedSides % 65536; }
    newSpt, newSides := spt, sides;
    if newSides != fixedSides || newSpt != fixedSpt {
      newSides, newSpt := fixedSides, fixedSpt;
    }
  }

  /** There are no sectors per track, so that the number of tracks cannot be computed, exactly
      when the boot sector is of no use and the image has not one sector for each of 80 tracks. */
  lemma NoSectorsIff(image: seq<byte>)
    requires |image| >= 28
    ensures |image| / 512 / 80 / GuessedSides(|image|) < 65536 ==>
      (Details(image).spt == 0 <==>
        Suspicious(image) && !(5 <= Word(image, 24) <= 48) && |image| / 512 < 80 * GuessedSides(|image|))
  {
    var total := |image| / 512;
    if Suspicious(image) && !(5 <= Word(image, 24) <= 48) {
      Quotients(total);
    }
  }

  /** An empty disk of one sector. */
  lemma NoSectors(image: seq<byte>)
    requires |image| == SECTOR && forall i :: 0 <= i < SECTOR ==> image[i] == 0
    ensures Details(image).spt == 0
  {
    NoSectorsIff(image);
  }

  lemma Quotients(total: nat)
    ensures total / 80 / 1 == 0 <==> total < 80
    ensures total / 80 / 2 == 0 <==> total < 160
  {
  }

  // ----- addresses -----

  function Tracks(g: Geometry, size: nat): nat
    requires g.spt > 0 && g.sides > 0
  {
    var perSide: nat := size / 512 / g.spt;
    perSide / g.sides
  }

  datatype Place = Place(side: nat, track: nat, sector: nat)

  predicate Accepted(g: Geometry, size: nat, p: Place)
    requires g.spt > 0 && g.sides > 0
  {
    p.side < g.sides && p.track < Tracks(g, size) && 0 < p.sector <= g.spt
  }

  /** The bytes per track are a 16-bit number. */
  function BytesPerTrack(g: Geometry): nat { SECTOR * g.spt % 65536 }

  function Address(g: Geometry, p: Place): int {
    BytesPerTrack(g) * p.side + BytesPerTrack(g) * g.sides * p.track + SECTOR * (p.sector - 1)
  }

  /** Sectors in front of a place, counting track by track and side by side. */
  function Block(g: Geometry, p: Place): int {
    (p.track * g.sides + p.side) * g.spt + (p.sector - 1)
  }

  lemma AddressOfBlock(g: Geometry, p: Place)
    requires g.spt < 128
    ensures Address(g, p) == SECTOR * Block(g, p)
  {
    var b, q := SECTOR * g.spt, p.track * g.sides;
    assert BytesPerTrack(g) == b;
    Arith.Regroup(b, g.sides, p.track);
    assert (q + p.side) * g.spt == q * g.spt + p.side * g.spt;
    assert b * q == SECTOR * (q * g.spt);
    assert b * p.side == SECTOR * (p.side * g.spt);
  }

  lemma QuotientBound(n: nat, d: nat)
    requires d > 0
    ensures n / d * d <= n
  {
  }

  /** An accepted place lies inside the image. */
  lemma BlockInside(g: Geometry, size: nat, p: Place)
    requires g.spt > 0 && g.sides > 0 && Accepted(g, size, p)
    ensures 0 <= Block(g, p) < size / 512
  {
    var total := size / 512;
    var q := p.track * g.sides + p.side;
    Arith.MulMonotone(p.track + 1, Tracks(g, size), g.sides);
    QuotientBound(total / g.spt, g.sides);
    assert (p.track + 1) * g.sides == p.track * g.sides + g.sides;
    assert q + 1 <= total / g.spt;
    Arith.MulMonotone(q + 1, total / g.spt, g.spt);
    QuotientBound(total, g.spt);
    assert (q + 1) * g.spt == q * g.spt + g.spt;
    Arith.MulMonotone(0, q, g.spt);
  }

  lemma SameQuotient(q: int, r: nat, q': int, r': nat, d: nat)
    requires r < d && r' < d && q * d + r == q' * d + r'
    ensures q == q' && r == r'
  {
    Arith.Division(q * d + r, d, q, r);
    Arith.Division(q' * d + r', d, q', r');
  }

  /** Two accepted places with the same block are the same. */
  lemma BlockInjective(g: Geometry, size: nat, p: Place, p': Place)
    requires g.spt > 0 && g.sides > 0 && Accepted(g, size, p) && Accepted(g, size, p')
    requires Block(g, p) == Block(g, p')
    ensures p == p'
  {
    SameQuotient(p.track * g.sides + p.side, p.sector - 1, p'.track * g.sides + p'.side, p'.sector - 1, g.spt);
    SameQuotient(p.track, p.side, p'.track, p'.side, g.sides);
  }

  /** Every accepted place has 512 bytes of its own inside the image. */
  ghost predicate Addresses(g: Geometry, size: nat)
    requires g.spt > 0 && g.sides > 0
  {
    && (forall p :: Accepted(g, size, p) ==> 0 <= Address(g, p) && Address(g, p) + SECTOR <= size)
    && (forall p, p' :: Accepted(g, size, p) && Accepted(g, size, p') && p != p' ==>
          Address(g, p) + SECTOR <= Address(g, p') || Address(g, p') + SECTOR <= Address(g, p))
  }

  /** Addressing works exactly up to 127 sectors per track, or where there is no second track on
      any side: beyond 127 the bytes per track do not fit 16 bits and tracks overlap. */
  lemma AddressesIff(g: Geometry, size: nat)
    requires g.spt > 0 && 0 < g.sides <= 2
    ensures Addresses(g, size) <==> g.spt <= 127 || Tracks(g, size) == 0 || (Tracks(g, size) == 1 && g.sides == 1)
  {
    hide Address, Block, Tracks;
    if g.spt <= 127 {
      forall p | Accepted(g, size, p) ensures 0 <= Address(g, p) && Address(g, p) + SECTOR <= size {
        AddressOfBlock(g, p);
        BlockInside(g, size, p);
      }
      forall p, p' | Accepted(g, size, p) && Accepted(g, size, p') && p != p'
        ensures Address(g, p) + SECTOR <= Address(g, p') || Address(g, p') + SECTOR <= Address(g, p)
      {
        AddressOfBlock(g, p);
        AddressOfBlock(g, p');
        if Block(g, p) == Block(g, p') { BlockInjective(g, size, p, p'); }
      }
    } else if Tracks(g, size) == 1 && g.sides == 1 {
      OneTrack(g, size);
    } else if Tracks(g, size) > 0 {
      Overlap(g, size);
    }
  }

  /** All sectors are in the one track. */
  lemma OneTrack(g: Geometry, size: nat)
    requires g.spt > 0 && g.sides == 1 && Tracks(g, size) == 1
    ensures Addresses(g, size)
  {
    hide BytesPerTrack;
    QuotientBound(size / 512, g.spt);
    assert size / 512 / g.spt == 1;
    forall p | Accepted(g, size, p) ensures Address(g, p) == SECTOR * (p.sector - 1) {}
  }

  /** The first sector of the second track, or of the second side, falls on a sector of the first. */
  lemma Overlap(g: Geometry, size: nat)
    requires g.spt > 127 && 0 < g.sides <= 2 && Tracks(g, size) > 0 && (Tracks(g, size) > 1 || g.sides == 2)
    ensures !Addresses(g, size)
  {
    hide Address, Tracks;
    var r := g.spt % 128;
    assert g.spt >= 128 + r;
    OverlapAt(g, r);
    var p, p' := if g.sides == 2 then Place(1, 0, 1) else Place(0, 1, 1), Place(0, 0, r + 1);
    assert Accepted(g, size, p) && Accepted(g, size, p') && p != p';
  }

  lemma OverlapAt(g: Geometry, r: nat)
    requires r == g.spt % 128
    ensures g.sides == 1 ==> Address(g, Place(0, 1, 1)) == Address(g, Place(0, 0, r + 1))
    ensures Address(g, Place(1, 0, 1)) == Address(g, Place(0, 0, r + 1))
  {
    hide BytesPerTrack;
    WrappedTrack(g, r);
  }

  lemma WrappedTrack(g: Geometry, r: nat)
    requires r == g.spt % 128
    ensures BytesPerTrack(g) == SECTOR * r
  {
  }

  /** n sectors from an accepted place on stay inside the image exactly when so many are left; a
      whole track from its first sector on always does. */
  lemma RangeInsideIff(g: Geometry, size: nat, p: Place, n: nat)
    requires 0 < g.spt < 128 && g.sides > 0 && Accepted(g, size, p)
    ensures 0 <= Address(g, p)
    ensures Address(g, p) + SECTOR * n <= size <==> Block(g, p) + n <= size / SECTOR
    ensures p.sector == 1 && n == g.spt ==> Address(g, p) + SECTOR * n <= size
  {
    hide Address, Block, Tracks;
    AddressOfBlock(g, p);
    BlockInside(g, size, p);
    if p.sector == 1 && n == g.spt {
      var last := p.(sector := g.spt);
      BlockInside(g, size, last);
      SameTrack(g, p, last);
    }
  }

  lemma SameTrack(g: Geometry, p: Place, q: Place)
    requires q == p.(sector := q.sector)
    ensures Block(g, q) == Block(g, p) + q.sector - p.sector
  {
  }

  // ----- reading and writing -----

  function Put(image: seq<byte>, at: nat, data: seq<byte>): (r: seq<byte>)
    requires at + |data| <= |image|
    ensures |r| == |image|
  {
    image[..at] + data + image[at + |data|..]
  }

  function SectorAt(image: seq<byte>, at: nat): seq<byte>
    requires at + SECTOR <= |image|
  {
    image[at..at + SECTOR]
  }

  /** How many sectors a write is for. The count is a signed 16-bit number. */
  function Sectors(g: Geometry, count: int): int {
    if count >= 0 then count else if g.spt < 32768 then g.spt else g.spt - 65536
  }

  /** A geometry the addresses work for. */
  predicate Usable(image: seq<byte>) {
    |image| >= SECTOR && 0 < Details(image).spt <= 127
  }

  lemma AcceptedAddress(image: seq<byte>, p: Place)
    requires Usable(image) && Accepted(Details(image), |image|, p)
    ensures 0 <= Address(Details(image), p) && Address(Details(image), p) + SECTOR <= |image|
    ensures Address(Details(image), p) == 0 <==> p == Place(0, 0, 1)
  {
    hide Details, Address;
    var g := Details(image);
    AddressOfBlock(g, p);
    BlockInside(g, |image|, p);
    if p.track > 0 { Arith.MulMonotone(1, p.track, g.sides); }
    if p.track * g.sides + p.side > 0 { Arith.MulMonotone(1, p.track * g.sides + p.side, g.spt); }
  }

  /** What one sector write does, as long as bytes 19 to 27 stay as they are: the geometry is the
      same, a read of that sector gives what was written, and all other sectors are untouched. */
  lemma WriteThenRead(image: seq<byte>, p: Place, data: seq<byte>, q: Place)
    requires Usable(image) && |data| == SECTOR
    requires Accepted(Details(image), |image|, p) && Accepted(Details(image), |image|, q)
    requires p == Place(0, 0, 1) ==> data[19..28] == image[19..28]
    ensures var g := Details(image);
      var a, b := Address(g, p), Address(g, q);
      && 0 <= a && a + SECTOR <= |image| && 0 <= b && b + SECTOR <= |image|
      && Details(Put(image, a, data)) == g
      && SectorAt(Put(image, a, data), b) == if p == q then data else SectorAt(image, b)
  {
    hide Address, Block, Accepted, Details, Tracks;
    var g := Details(image);
    AcceptedAddress(image, p);
    AcceptedAddress(image, q);
    AddressOfBlock(g, p);
    AddressOfBlock(g, q);
    if Block(g, p) == Block(g, q) { BlockInjective(g, |image|, p, q); }
    var a, b := Address(g, p), Address(g, q);
    SameBoot(image, a, data);
    PutElsewhere(image, a, data, b);
  }

  lemma PutElsewhere(image: seq<byte>, a: nat, data: seq<byte>, b: nat)
    requires |data| == SECTOR && a + SECTOR <= |image| && b + SECTOR <= |image|
    ensures a == b ==> SectorAt(Put(image, a, data), b) == data
    ensures a + SECTOR <= b || b + SECTOR <= a ==> SectorAt(Put(image, a, data), b) == SectorAt(image, b)
  {
  }

  lemma SameBoot(image: seq<byte>, a: nat, data: seq<byte>)
    requires |data| == SECTOR && a + SECTOR <= |image| && (a == 0 || a >= SECTOR)
    requires a == 0 ==> data[19..28] == image[19..28]
    ensures Details(Put(image, a, data)) == Details(image)
  {
    var now := Put(image, a, data);
    assert now[19..28] == image[19..28];
    forall k | 19 <= k < 28 ensures now[k] == image[k] {
      assert now[19..28][k - 19] == image[19..28][k - 19];
    }
  }

  class Drive {
    var inserted: bool
    var writeProtected: bool
    var contentsChanged: bool
    const image: array<byte>

    constructor (disk: array<byte>, protect: bool)
      ensures image == disk && inserted && writeProtected == protect && !contentsChanged
    {
      inserted, writeProtected, contentsChanged, image := true, protect, false, disk;
    }

    /** Find the geometry; a suspicious boot sector is overruled. */
    method FindDiskDetails() returns (spt: nat, sides: nat)
      requires image.Length >= 28
      ensures Geometry(spt, sides) == Details(image[..])
    {
      spt := image[24] as int + 256 * image[25] as int;
      sides := image[26] as int + 256 * image[27] as int;
      var total := image[19] as int + 256 * image[20] as int;
      if total != image.Length / 512 || sides == 0 || sides > 2 || spt == 0 || spt > 48 {
        spt, sides := DoubleCheckFormat(image.Length, spt, sides);
      }
    }

    /** Where a sector lies, if there is such a sector. */
    method Locate(p: Place) returns (ok: bool, at: int, spt: nat)
      requires image.Length >= 28 && Details(image[..]).spt > 0
      ensures spt == Details(image[..]).spt
      ensures ok == Accepted(Details(image[..]), image.Length, p)
      ensures ok ==> at == Address(Details(image[..]), p)
    {
      var sides;
      spt, sides := FindDiskDetails();
      var tracks := image.Length / 512 / spt / sides;
      at := 0;
      ok := !(p.side >= sides || p.track >= tracks || p.sector <= 0 || p.sector > spt);
      if ok {
        var bytes := SECTOR * spt % 65536;
        at := bytes * p.side;
        at := at + bytes * sides * p.track;
        at := at + SECTOR * (p.sector - 1);
      }
    }

    /** Give the place in the image a read starts from, and with a disk the sectors per track and
        the sector size, whether or not the place is on it. */
    method ReadSectors(p: Place) returns (ok: bool, at: int, spt: nat, sectorSize: nat)
      requires inserted ==> image.Length >= 28 && Details(image[..]).spt > 0
      ensures ok <==> inserted && Accepted(Details(image[..]), image.Length, p)
      ensures ok ==> at == Address(Details(image[..]), p)
      ensures inserted ==> spt == Details(image[..]).spt && sectorSize == SECTOR
    {
      ok, at, spt, sectorSize := false, 0, 0, 0;
      if inserted {
        ok, at, spt := Locate(p);
        sectorSize := SECTOR;
      }
    }

    /** Write sectors, or a whole track for a negative count, over the image. */
    method WriteSectors(p: Place, buffer: seq<byte>, count: int) returns (ok: bool, spt: nat, sectorSize: nat)
      requires inserted && !writeProtected ==> image.Length >= 28 && Details(image[..]).spt > 0
      requires inserted && !writeProtected && Accepted(Details(image[..]), image.Length, p) ==>
        var g, n := Details(image[..]), SECTOR * Sectors(Details(image[..]), count);
        0 <= n <= |buffer| && 0 <= Address(g, p) && Address(g, p) + n <= image.Length
      modifies image, this`contentsChanged
      ensures ok <==> inserted && !writeProtected && Accepted(old(Details(image[..])), image.Length, p)
      ensures inserted && !writeProtected ==> spt == old(Details(image[..])).spt && sectorSize == SECTOR
      ensures !ok ==> image[..] == old(image[..]) && contentsChanged == old(contentsChanged)
      ensures ok ==>
        var g := old(Details(image[..]));
        var n := SECTOR * Sectors(g, count);
        && contentsChanged && 0 <= n <= |buffer| && 0 <= Address(g, p) && Address(g, p) + n <= image.Length
        && image[..] == Put(old(image[..]), Address(g, p), buffer[..n])
    {
      hide Details, Address;
      ok, spt, sectorSize := false, 0, 0;
      if !inserted || writeProtected { return; }
      var at;
      ok, at, spt := Locate(p);
      sectorSize := SECTOR;
      if ok {
        var sectors := count;
        if sectors < 0 { sectors := if spt < 32768 then spt else spt - 65536; }
        var n := SECTOR * sectors;
        forall i | 0 <= i < n {
          image[at + i] := buffer[i];
        }
        contentsChanged := true;
      }
    }
  }
}
