/** Bit-plane lines of any width and fine scroll, and their integer magnification on screen. */
module ConvGen {
  import Arith
  import opened ConvGenChunky

  /** What a shown line depends on: memory, where the line starts, its planes and the mode. */
  datatype Source = Source(m: seq<bv8>, line: nat, planes: nat, hold: bool)

  function GroupAt(s: Source, g: nat): nat { s.line + g * (2 * s.planes) }

  /** The first g groups of 16 pixels are in memory. */
  predicate HasGroups(s: Source, g: nat) { s.planes in {1, 2, 4, 8} && GroupAt(s, g) <= |s.m| }

  lemma GroupFits(s: Source, g: nat, groups: nat)
    requires g < groups && HasGroups(s, groups)
    ensures GroupAt(s, g) + 2 * s.planes <= |s.m|
  {
    assert groups * (2 * s.planes) >= (g + 1) * (2 * s.planes) == g * (2 * s.planes) + 2 * s.planes;
  }

  lemma HasFewerGroups(s: Source, g: nat, groups: nat)
    requires g <= groups && HasGroups(s, groups)
    ensures HasGroups(s, g)
  {
    assert groups * (2 * s.planes) >= g * (2 * s.planes);
  }

  /** Groups of 16 pixels shown for a line of vw pixels. */
  function Groups(vw: nat): nat { if vw < 16 then 1 else (vw + 15) / 16 }

  /** They are as few as cover the line, and at least one. */
  lemma GroupsCover(vw: nat)
    ensures vw <= 16 * Groups(vw) && Groups(vw) > 0 && (Groups(vw) > 1 ==> 16 * (Groups(vw) - 1) < vw)
  {
  }

  /** Palette index stored for pixel i of group g (0 past the end of memory). */
  function StoredIdx(s: Source, g: nat, i: nat): bv8
    requires i < 16
  {
    if GroupAt(s, g) + 2 * s.planes <= |s.m| then Pixel(s.m, GroupAt(s, g), s.planes, i) else 0
  }

  /** Palette index stored for pixel j of the line. */
  function LineIdx(s: Source, j: nat): bv8 { StoredIdx(s, j / 16, j % 16) }

  lemma LineIdxAt(s: Source, g: nat, i: nat)
    requires i < 16
    ensures LineIdx(s, 16 * g + i) == StoredIdx(s, g, i)
  {
    assert (16 * g + i) / 16 == g && (16 * g + i) % 16 == i;
  }

  /** Palette index shown for pixel j: in sample-hold mode an index of 0 repeats the one
      before it, and 0 starts the line. */
  function ShownIdx(s: Source, j: nat): bv8 {
    if !s.hold || LineIdx(s, j) != 0 then LineIdx(s, j)
    else if j == 0 then 0
    else ShownIdx(s, j - 1)
  }

  /** What sample-hold shows at j is the last non-zero index of the line up to j, if any. */
  lemma {:induction false} HoldShowsLastNonZero(s: Source, j: nat, k: nat)
    requires s.hold && k <= j && LineIdx(s, k) != 0
    requires forall i: nat :: k < i <= j ==> LineIdx(s, i) == 0
    ensures ShownIdx(s, j) == LineIdx(s, k)
    decreases j
  {
    hide LineIdx;
    if j > k { HoldShowsLastNonZero(s, j - 1, k); }
  }

  lemma {:induction false} HoldShowsZeroAtFirst(s: Source, j: nat)
    requires s.hold && forall i: nat :: i <= j ==> LineIdx(s, i) == 0
    ensures ShownIdx(s, j) == 0
    decreases j
  {
    hide LineIdx;
    if j > 0 { HoldShowsZeroAtFirst(s, j - 1); }
  }

  // ----- zoom -----

  /** A frame to magnify: where it is in memory, its size and borders, the factors, and where it
      goes on the host surface (rows `pitch` apart, the first at `origin`). */
  datatype Zoom = Zoom(
    m: seq<bv8>, fvram: nat, base: nat, ramEnd: nat,
    vw: nat, vh: nat, planes: nat, nextline: nat, hscroll: nat,
    left: nat, right: nat, upper: nat, lower: nat,
    coefx: nat, coefy: nat, origin: nat, pitch: nat)

  function LeftW(z: Zoom): nat { z.left * z.coefx }
  function AreaW(z: Zoom): nat { z.vw * z.coefx }
  function RightW(z: Zoom): nat { z.right * z.coefx }
  function Width(z: Zoom): nat { LeftW(z) + AreaW(z) + RightW(z) }
  function Rows(z: Zoom): nat { z.upper * z.coefy + z.vh * z.coefy + z.lower * z.coefy }
  function RowPos(z: Zoom, r: nat): nat { z.origin + r * z.pitch }

  function LineAt(z: Zoom, y: nat, hold: bool): Source { Source(z.m, z.fvram + y * z.nextline * 2, z.planes, hold) }

  /** Source line y ends inside the emulated memory. */
  predicate InRam(z: Zoom, y: nat) { z.base + (y + 1) * (z.nextline * 2) <= z.ramEnd }

  /** Source line y lies in the window that is tested: it starts where the window of the line before
      ends, and its groups end by the end of its own if there is room for them between two lines. */
  lemma LineWindow(z: Zoom, y: nat, hold: bool, groups: nat)
    ensures var start := z.base + (GroupAt(LineAt(z, y, hold), 0) - z.fvram);
      && (InRam(z, y) <==> start + 2 * z.nextline <= z.ramEnd)
      && (y > 0 ==> (InRam(z, y - 1) <==> start <= z.ramEnd))
    ensures groups * z.planes <= z.nextline ==>
      GroupAt(LineAt(z, y, hold), groups) <= GroupAt(LineAt(z, y, hold), 0) + 2 * z.nextline
  {
    Arith.Distribute(y, 1, z.nextline * 2);
    Arith.Regroup(y, z.nextline, 2);
    assert z.nextline * 2 == 2 * z.nextline && y * z.nextline * 2 == y * (z.nextline * 2);
    if groups * z.planes <= z.nextline { assert groups * (2 * z.planes) == 2 * (groups * z.planes); }
  }

  /** Lines share no byte. */
  lemma LinesApart(z: Zoom, y: nat, y': nat, hold: bool, hold': bool, groups: nat)
    requires y < y' && groups * z.planes <= z.nextline
    ensures GroupAt(LineAt(z, y, hold), groups) <= GroupAt(LineAt(z, y', hold'), 0)
  {
    assert groups * (2 * z.planes) == 2 * (groups * z.planes);
    Arith.MulLess(y, y', z.nextline * 2);
    Arith.Regroup(y, z.nextline, 2);
    Arith.Regroup(y', z.nextline, 2);
    assert y * z.nextline * 2 == y * (z.nextline * 2) && y' * z.nextline * 2 == y' * (z.nextline * 2);
  }

  /** The byte of plane p that holds column j of source line y: lines are `nextline` words apart, a
      group of 16 columns has a word for each plane, and its upper byte has the first eight. */
  function MemoryByte(z: Zoom, y: nat, j: nat, p: nat): bv8 {
    var line: nat, group: nat := y * z.nextline, j / 16 * z.planes;
    var at := z.fvram + 2 * (line + group + p) + j % 16 / 8;
    if p < z.planes && at < |z.m| then z.m[at] else 0
  }

  /** Palette index of column j of source line y: bit 7 - j mod 8 of the byte of each plane. */
  function MemoryIdx(z: Zoom, y: nat, j: nat): bv8 {
    Gather(MemoryByte(z, y, j, 0), MemoryByte(z, y, j, 1), MemoryByte(z, y, j, 2), MemoryByte(z, y, j, 3),
           MemoryByte(z, y, j, 4), MemoryByte(z, y, j, 5), MemoryByte(z, y, j, 6), MemoryByte(z, y, j, 7), 7 - j % 8)
  }

  /** The line has these indexes. */
  lemma IdxFromMemory(z: Zoom, y: nat, j: nat, hold: bool, groups: nat)
    requires HasGroups(LineAt(z, y, hold), groups) && j < 16 * groups
    ensures LineIdx(LineAt(z, y, hold), j) == MemoryIdx(z, y, j)
  {
    hide Gather;
    var s := LineAt(z, y, hold);
    var g, i := j / 16, j % 16;
    GroupFits(s, g, groups);
    assert z.fvram + y * z.nextline * 2 + g * (2 * z.planes) == z.fvram + 2 * (y * z.nextline + g * z.planes);
    assert (if i < 8 then 7 - i else 15 - i) == 7 - j % 8;
    forall p: nat | p < 8 ensures PlaneByte(z.m, GroupAt(s, g), z.planes, p, i) == MemoryByte(z, y, j, p) {
      ByteFromMemory(z, y, j, p, GroupAt(s, g));
    }
  }

  lemma ByteFromMemory(z: Zoom, y: nat, j: nat, p: nat, at: nat)
    requires at == z.fvram + 2 * (y * z.nextline + j / 16 * z.planes) && at + 2 * z.planes <= |z.m|
    ensures PlaneByte(z.m, at, z.planes, p, j % 16) == MemoryByte(z, y, j, p)
  {
    assert at + 2 * p == z.fvram + 2 * (y * z.nextline + j / 16 * z.planes + p);
  }

  predicate ZoomOk(z: Zoom) {
    && z.vw > 0 && z.hscroll < 16 && z.coefx > 0 && z.coefy > 0 && Width(z) <= z.pitch
    && z.planes in {1, 2, 4, 8} && LinesOk(z)
  }

  /** The source lines inside the emulated memory can be read. */
  predicate LinesOk(z: Zoom) {
    forall y: nat :: y < z.vh && InRam(z, y) ==>
      HasGroups(LineAt(z, y, false), Groups(z.vw) + if z.hscroll > 0 then 1 else 0)
  }

  function FrameW(z: Zoom): nat { z.vw + z.left + z.right }
  function FrameH(z: Zoom): nat { z.vh + z.upper + z.lower }

  /** A frame with the largest integer factors a screen has room for, in its middle. With a scroll
      offset the lines are one group of planes longer. */
  function Placed(frame: Zoom, sw: nat, sh: nat): Zoom
    requires 0 < FrameW(frame) <= sw && 0 < FrameH(frame) <= sh
  {
    var cx, cy := sw / FrameW(frame), sh / FrameH(frame);
    LargestFits(FrameW(frame), sw);
    LargestFits(FrameH(frame), sh);
    frame.(coefx := cx, coefy := cy,
           nextline := frame.nextline + (if frame.hscroll > 0 then frame.planes else 0),
           origin := (sh - FrameH(frame) * cy) / 2 * frame.pitch + (sw - FrameW(frame) * cx) / 2)
  }

  lemma LargestFits(size: nat, room: nat)
    requires 0 < size <= room
    ensures size * (room / size) <= room && room / size > 0
  {
    assert room == room / size * size + room % size;
  }

  /** The rows of the picture lie inside a surface of this length. */
  predicate RowsFit(z: Zoom, length: nat) {
    Rows(z) > 0 ==> RowPos(z, Rows(z) - 1) + Width(z) <= length
  }

  /** A row past the end of memory is filled over a whole pitch, from the place of its row on; the
      rows that copy it are not. All of these fills stay inside the surface. */
  predicate BlanksFit(z: Zoom, length: nat) {
    forall y: nat :: y < z.vh && !InRam(z, y) ==> RowPos(z, UpperH(z) + y * z.coefy) + z.pitch <= length
  }

  function UpperH(z: Zoom): nat { z.upper * z.coefy }
  function AreaH(z: Zoom): nat { z.vh * z.coefy }

  /** Rows do not run into each other. */
  lemma RowsApart(z: Zoom, r: nat, r': nat)
    requires r < r'
    ensures RowPos(z, r) + z.pitch <= RowPos(z, r')
  {
    Arith.MulLess(r, r', z.pitch);
  }

  /** A line past the end of memory stays past it. */
  lemma RamEnds(z: Zoom, y: nat, y': nat)
    requires y <= y' && InRam(z, y')
    ensures InRam(z, y)
  {
    assert (y' + 1) * (z.nextline * 2) >= (y + 1) * (z.nextline * 2);
  }

  lemma NextDiv(h: nat, c: nat)
    requires c > 0 && h > 0
    ensures h / c == (h - 1) / c || h / c == (h - 1) / c + 1
  {
    var q := (h - 1) / c;
    assert h - 1 == q * c + (h - 1) % c;
    if (h - 1) % c + 1 < c { Arith.Division(h, c, q, (h - 1) % c + 1); }
    else { assert h == (q + 1) * c + 0; Arith.Division(h, c, q + 1, 0); }
  }

  lemma HoldIsMode(z: Zoom, y: nat, hold: bool)
    requires ZoomOk(z) && y < z.vh && InRam(z, y)
    ensures HasGroups(LineAt(z, y, hold), Groups(z.vw) + if z.hscroll > 0 then 1 else 0)
  {
    assert HasGroups(LineAt(z, y, false), Groups(z.vw) + if z.hscroll > 0 then 1 else 0);
  }

  lemma {:induction false} DivCancel(b: nat, i: nat, c: nat)
    requires b > 0 && c > 0
    ensures b * c > 0 && (b * i) / (b * c) == i / c
  {
    var q, r := i / c, i % c;
    assert i == q * c + r;
    assert b * i == b * (q * c) + b * r == q * (b * c) + b * r;
    assert 0 <= b * r < b * c;
    Arith.Division(b * i, b * c, q, b * r);
  }

  /** The table that maps a screen coordinate back to a frame coordinate. */
  method BuildZoomTable(size: nat, screen: nat) returns (table: array<nat>)
    ensures fresh(table) && table.Length == screen
    ensures forall i :: 0 <= i < screen ==> table[i] == size * i / screen
  {
    table := new nat[screen];
    for i := 0 to screen
      invariant forall k :: 0 <= k < i ==> table[k] == size * k / screen
    {
      table[i] := (size * i) / screen;
    }
  }

  /** At an integer factor the table divides by the factor. */
  lemma IntegerTable(size: nat, coef: nat, i: nat)
    requires size > 0 && coef > 0
    ensures size * coef > 0 && size * i / (size * coef) == i / coef
  {
    DivCancel(size, i, coef);
  }

  class Screen {
    var palette: seq<int>
    var sampleHold: bool
    var sampleHoldIdx: bv8

    ghost predicate Valid()
      reads this`palette
    {
      |palette| == 256
    }

    function Color(idx: bv8): int
      requires Valid()
      reads this`palette
    {
      palette[idx as nat]
    }

    method Idx2Pal(idx: bv8) returns (color: int)
      requires Valid()
      modifies this`sampleHoldIdx
      ensures color == Color(if sampleHold && idx == 0 then old(sampleHoldIdx) else idx)
      ensures sampleHoldIdx == if sampleHold && idx != 0 then idx else old(sampleHoldIdx)
    {
      if sampleHold {
        if idx == 0 {
          color := palette[sampleHoldIdx as nat];
          return;
        }
        sampleHoldIdx := idx;
      }
      color := palette[idx as nat];
    }

    /** The hold index once j pixels of the line have been shown. */
    ghost predicate HeldAt(s: Source, j: nat)
      reads this
    {
      s.hold == sampleHold && (s.hold ==> sampleHoldIdx == if j == 0 then 0 else ShownIdx(s, j - 1))
    }

    /** Show one pixel of the line. */
    method ShowPixel(s: Source, j: nat, idx: bv8) returns (color: int)
      requires Valid() && HeldAt(s, j) && idx == LineIdx(s, j)
      modifies this`sampleHoldIdx
      ensures HeldAt(s, j + 1) && color == Color(ShownIdx(s, j))
    {
      hide LineIdx;
      color := Idx2Pal(idx);
    }

    /** Colours of group g of the line. */
    method ConvertGroup(s: Source, g: nat) returns (colors: seq<int>)
      requires Valid() && HasGroups(s, g + 1) && HeldAt(s, 16 * g)
      modifies this`sampleHoldIdx
      ensures |colors| == 16 && HeldAt(s, 16 * g + 16)
      ensures forall i :: 0 <= i < 16 ==> colors[i] == Color(ShownIdx(s, 16 * g + i))
    {
      hide LineIdx, ShownIdx, Pixel;
      GroupFits(s, g, g + 1);
      var px := BitplaneToChunky(s.m, s.line + g * (2 * s.planes), s.planes);
      colors := [];
      for i := 0 to 16
        invariant |colors| == i && HeldAt(s, 16 * g + i)
        invariant forall k :: 0 <= k < i ==> colors[k] == Color(ShownIdx(s, 16 * g + k))
      {
        LineIdxAt(s, g, i);
        var c := ShowPixel(s, 16 * g + i, px[i]);
        colors := colors + [c];
      }
    }

    /** Copy part of a group of colours to the screen. */
    method Put(dst: array<int>, pos: nat, colors: seq<int>, from: nat, to: nat)
      requires from <= to <= |colors| && pos + (to - from) <= dst.Length
      modifies dst
      ensures forall k :: 0 <= k < dst.Length ==>
        dst[k] == if pos <= k < pos + (to - from) then colors[k - pos + from] else old(dst[k])
    {
      for i := from to to
        invariant forall k :: 0 <= k < dst.Length ==>
          dst[k] == if pos <= k < pos + (i - from) then colors[k - pos + from] else old(dst[k])
      {
        dst[pos + (i - from)] := colors[i];
      }
    }

    /** A whole line, scrolled left by h pixels, into `dst` from `pos` on. */
    method ConvertLine(s: Source, dst: array<int>, pos: nat, vw: nat, h: nat) returns (end: nat)
      requires Valid() && h < 16 && HeldAt(s, 0)
      requires HasGroups(s, Groups(vw) + if h > 0 then 1 else 0)
      requires pos + 16 * Groups(vw) <= dst.Length
      modifies this`sampleHoldIdx, dst
      ensures end == pos + 16 * Groups(vw)
      ensures forall k :: 0 <= k < dst.Length ==>
        dst[k] == if pos <= k < end then Color(ShownIdx(s, h + (k - pos))) else old(dst[k])
    {
      hide LineIdx, ShownIdx, HasGroups;
      var all := Groups(vw) + if h > 0 then 1 else 0;
      HasFewerGroups(s, 1, all);
      var colors := ConvertGroup(s, 0);
      end := pos;
      Put(dst, end, colors, h, 16);
      end := end + (16 - h);
      for g := 1 to Groups(vw)
        invariant HeldAt(s, 16 * g) && end == pos + 16 * g - h
        invariant forall k :: 0 <= k < dst.Length ==>
          dst[k] == if pos <= k < end then Color(ShownIdx(s, h + (k - pos))) else old(dst[k])
      {
        HasFewerGroups(s, g + 1, all);
        colors := ConvertGroup(s, g);
        Put(dst, end, colors, 0, 16);
        end := end + 16;
      }
      if h > 0 {
        colors := ConvertGroup(s, Groups(vw));
        Put(dst, end, colors, 0, h);
        end := end + h;
      }
    }

    /** The colour of pixel x in a row showing source line y. */
    ghost function RowColor(z: Zoom, y: nat, x: nat): int
      requires Valid() && z.coefx > 0
      reads this`palette, this`sampleHold
    {
      if !InRam(z, y) || x < LeftW(z) || x >= LeftW(z) + AreaW(z) then Color(0)
      else Color(ShownIdx(LineAt(z, y, sampleHold), z.hscroll + (x - LeftW(z)) / z.coefx))
    }

    method Fill(dst: array<int>, pos: nat, color: int, count: nat)
      requires pos + count <= dst.Length
      modifies dst
      ensures forall k :: 0 <= k < dst.Length ==> dst[k] == if pos <= k < pos + count then color else old(dst[k])
    {
      for i := 0 to count
        invariant forall k :: 0 <= k < dst.Length ==> dst[k] == if pos <= k < pos + i then color else old(dst[k])
      {
        dst[pos + i] := color;
      }
    }

    /** The graphical part of a row: every pixel of the line `coefx` times. */
    method Stretch(z: Zoom, zoomx: array<nat>, p2cline: array<int>, dst: array<int>, pos: nat)
      requires z.coefx > 0 && pos + AreaW(z) <= dst.Length && p2cline != dst && p2cline.Length >= z.vw
      requires zoomx.Length >= AreaW(z) && forall w :: 0 <= w < AreaW(z) ==> zoomx[w] == w / z.coefx < z.vw
      modifies dst
      ensures forall k :: 0 <= k < dst.Length && !(pos <= k < pos + AreaW(z)) ==> dst[k] == old(dst[k])
      ensures forall w :: 0 <= w < AreaW(z) ==> w / z.coefx < z.vw && dst[pos + w] == p2cline[w / z.coefx]
    {
      hide AreaW;
      for w := 0 to AreaW(z)
        invariant forall k :: 0 <= k < dst.Length && !(pos <= k < pos + w) ==> dst[k] == old(dst[k])
        invariant forall v :: 0 <= v < w ==> v / z.coefx < z.vw && dst[pos + v] == p2cline[v / z.coefx]
      {
        dst[pos + w] := p2cline[zoomx[w]];
      }
    }

    /** One magnified row, rendered from source line y. */
    method RenderRow(z: Zoom, zoomx: array<nat>, dst: array<int>, y: nat, pos: nat)
      requires Valid() && ZoomOk(z) && y < z.vh && InRam(z, y) && pos + Width(z) <= dst.Length
      requires zoomx.Length >= AreaW(z) && forall w :: 0 <= w < AreaW(z) ==> zoomx[w] == w / z.coefx < z.vw
      modifies this`sampleHoldIdx, dst
      ensures forall k :: 0 <= k < dst.Length ==>
        dst[k] == if pos <= k < pos + Width(z) then RowColor(z, y, k - pos) else old(dst[k])
    {
      hide HasGroups, ShownIdx, LeftW, AreaW, RightW, InRam;
      var p2cline := RenderLine(z, y);
      LayRow(z, zoomx, p2cline, dst, pos);
    }

    /** A source line with its fine scroll. */
    method RenderLine(z: Zoom, y: nat) returns (p2cline: array<int>)
      requires Valid() && ZoomOk(z) && y < z.vh && InRam(z, y)
      modifies this`sampleHoldIdx
      ensures fresh(p2cline) && p2cline.Length >= z.vw
      ensures forall j :: 0 <= j < p2cline.Length ==>
        p2cline[j] == Color(ShownIdx(LineAt(z, y, sampleHold), z.hscroll + j))
    {
      hide HasGroups, ShownIdx, LeftW, AreaW, RightW, InRam;
      sampleHoldIdx := 0;
      p2cline := new int[16 * Groups(z.vw)];
      var s := LineAt(z, y, sampleHold);
      assert HasGroups(s, Groups(z.vw) + if z.hscroll > 0 then 1 else 0) by { HoldIsMode(z, y, sampleHold); }
      var end := ConvertLine(s, p2cline, 0, z.vw, z.hscroll);
    }

    /** The line, magnified, between its borders. */
    method LayRow(z: Zoom, zoomx: array<nat>, p2cline: array<int>, dst: array<int>, pos: nat)
      requires Valid() && z.coefx > 0 && pos + Width(z) <= dst.Length && p2cline != dst && p2cline.Length >= z.vw
      requires zoomx.Length >= AreaW(z) && forall w :: 0 <= w < AreaW(z) ==> zoomx[w] == w / z.coefx < z.vw
      modifies dst
      ensures forall k :: 0 <= k < dst.Length ==>
        dst[k] == if !(pos <= k < pos + Width(z)) then old(dst[k])
                  else if pos + LeftW(z) <= k < pos + LeftW(z) + AreaW(z) && (k - pos - LeftW(z)) / z.coefx < z.vw
                  then p2cline[(k - pos - LeftW(z)) / z.coefx] else Color(0)
    {
      hide LeftW, AreaW, RightW;
      Fill(dst, pos, palette[0], LeftW(z));
      Stretch(z, zoomx, p2cline, dst, pos + LeftW(z));
      Fill(dst, pos + LeftW(z) + AreaW(z), palette[0], RightW(z));
      forall k | pos + LeftW(z) <= k < pos + LeftW(z) + AreaW(z)
        ensures (k - pos - LeftW(z)) / z.coefx < z.vw && dst[k] == p2cline[(k - pos - LeftW(z)) / z.coefx]
      {
        var w := k - pos - LeftW(z);
        assert dst[pos + LeftW(z) + w] == dst[k];
      }
    }

    /** The colour of pixel x of row r of the magnified frame: borders in colour 0 around the
        source pixel (r div coefy, x div coefx). */
    ghost function FrameColor(z: Zoom, r: nat, x: nat): int
      requires Valid() && z.coefx > 0 && z.coefy > 0
      reads this`palette, this`sampleHold
    {
      if r < UpperH(z) || r >= UpperH(z) + AreaH(z) then Color(0) else RowColor(z, (r - UpperH(z)) / z.coefy, x)
    }

    ghost predicate RowDone(z: Zoom, buf: seq<int>, r: nat)
      requires Valid() && z.coefx > 0 && z.coefy > 0
      reads this`palette, this`sampleHold
    {
      RowPos(z, r) + Width(z) <= |buf|
      && forall x: nat :: x < Width(z) ==> buf[RowPos(z, r) + x] == FrameColor(z, r, x)
    }

    ghost predicate RowsDone(z: Zoom, buf: seq<int>, n: nat)
      requires Valid() && z.coefx > 0 && z.coefy > 0
      reads this`palette, this`sampleHold
    {
      forall r: nat :: r < n ==> RowDone(z, buf, r)
    }

    lemma OneMoreRow(z: Zoom, was: seq<int>, buf: seq<int>, n: nat)
      requires Valid() && ZoomOk(z) && RowsDone(z, was, n) && |was| == |buf|
      requires RowDone(z, buf, n)
      requires forall k :: 0 <= k < RowPos(z, n) && k < |buf| ==> buf[k] == was[k]
      ensures RowsDone(z, buf, n + 1)
    {
      hide FrameColor, RowPos, HasGroups, Width;
      forall r: nat | r < n + 1 ensures RowDone(z, buf, r) {
        if r < n {
          RowsApart(z, r, n);
          assert RowDone(z, was, r);
        }
      }
    }

    /** Copy `count` pixels from `from` down to `to`, past their end. */
    method CopyDown(dst: array<int>, from: nat, to: nat, count: nat)
      requires from + count <= to && to + count <= dst.Length
      modifies dst
      ensures forall k :: 0 <= k < dst.Length ==>
        dst[k] == if to <= k < to + count then old(dst[from + (k - to)]) else old(dst[k])
    {
      for x := 0 to count
        invariant forall k :: 0 <= k < dst.Length ==>
          dst[k] == if to <= k < to + x then old(dst[from + (k - to)]) else old(dst[k])
      {
        dst[to + x] := dst[from + x];
      }
    }

    /** A border row. */
    method BorderRow(z: Zoom, dst: array<int>, r: nat)
      requires Valid() && ZoomOk(z) && RowPos(z, r) + Width(z) <= dst.Length && RowsDone(z, dst[..], r)
      requires r < UpperH(z) || r >= UpperH(z) + AreaH(z)
      modifies dst
      ensures RowsDone(z, dst[..], r + 1)
    {
      hide RowPos, HasGroups, Width;
      ghost var was := dst[..];
      Fill(dst, RowPos(z, r), palette[0], Width(z));
      OneMoreRow(z, was, dst[..], r);
    }

    /** A graphical row shown again: a copy of the row above. */
    method CopyRow(z: Zoom, dst: array<int>, h: nat)
      requires Valid() && ZoomOk(z) && 0 < h < AreaH(z) && h / z.coefy == (h - 1) / z.coefy
      requires RowPos(z, UpperH(z) + h) + Width(z) <= dst.Length && RowsDone(z, dst[..], UpperH(z) + h)
      modifies dst
      ensures RowsDone(z, dst[..], UpperH(z) + h + 1)
    {
      hide HasGroups, Width, RowColor, UpperH, AreaH;
      var r := UpperH(z) + h;
      ghost var was := dst[..];
      RowsApart(z, r - 1, r);
      CopyDown(dst, RowPos(z, r) - z.pitch, RowPos(z, r), Width(z));
      assert RowDone(z, was, r - 1) && RowPos(z, r) - z.pitch == RowPos(z, r - 1);
      assert forall x: nat {:trigger FrameColor(z, r, x)} ::
        x < Width(z) ==> dst[RowPos(z, r) + x] == was[RowPos(z, r - 1) + x];
      assert forall x: nat :: FrameColor(z, r, x) == FrameColor(z, r - 1, x);
      OneMoreRow(z, was, dst[..], r);
    }

    /** A graphical row whose source line lies past the end of memory. */
    method BlankRow(z: Zoom, dst: array<int>, h: nat)
      requires Valid() && ZoomOk(z) && h < AreaH(z) && !InRam(z, h / z.coefy)
      requires RowPos(z, UpperH(z) + h) + z.pitch <= dst.Length && RowsDone(z, dst[..], UpperH(z) + h)
      modifies dst
      ensures RowsDone(z, dst[..], UpperH(z) + h + 1)
    {
      hide HasGroups, UpperH, AreaH, RowPos, InRam, Width;
      ghost var was := dst[..];
      Fill(dst, RowPos(z, UpperH(z) + h), palette[0], z.pitch);
      OneMoreRow(z, was, dst[..], UpperH(z) + h);
    }

    /** A graphical row rendered afresh. */
    method FreshRow(z: Zoom, zoomx: array<nat>, dst: array<int>, h: nat)
      requires Valid() && ZoomOk(z) && h < AreaH(z) && h / z.coefy < z.vh && InRam(z, h / z.coefy)
      requires RowPos(z, UpperH(z) + h) + Width(z) <= dst.Length && RowsDone(z, dst[..], UpperH(z) + h)
      requires zoomx.Length >= AreaW(z) && forall w :: 0 <= w < AreaW(z) ==> zoomx[w] == w / z.coefx < z.vw
      modifies this`sampleHoldIdx, dst
      ensures RowsDone(z, dst[..], UpperH(z) + h + 1)
    {
      hide HasGroups, UpperH, AreaH, RowPos, InRam, Width, AreaW, RowColor;
      ghost var was := dst[..];
      RenderRow(z, zoomx, dst, h / z.coefy, RowPos(z, UpperH(z) + h));
      OneMoreRow(z, was, dst[..], UpperH(z) + h);
    }

    /** Where the running end-of-line address stands once h graphical rows are done: at the end
        of the next source line, or stuck past the end of memory. */
    ghost predicate LineEndAt(z: Zoom, lineEnd: nat, h: nat)
      requires z.coefy > 0
    {
      lineEnd == z.base + (if h == 0 then 1 else (h - 1) / z.coefy + 2) * (z.nextline * 2)
      || (h > 0 && !InRam(z, (h - 1) / z.coefy) && lineEnd > z.ramEnd)
    }

    lemma LineEndTells(z: Zoom, lineEnd: nat, further: nat, h: nat, next: nat)
      requires z.coefy > 0 && LineEndAt(z, lineEnd, h) && next == h + 1 && further == lineEnd + z.nextline * 2
      requires h == 0 || h / z.coefy != (h - 1) / z.coefy
      ensures lineEnd > z.ramEnd <==> !InRam(z, h / z.coefy)
      ensures LineEndAt(z, if InRam(z, h / z.coefy) then further else lineEnd, next)
    {
      var y := h / z.coefy;
      if h == 0 {
        assert y == 0;
      } else {
        NextDiv(h, z.coefy);
        if !InRam(z, y - 1) && InRam(z, y) { RamEnds(z, y - 1, y); }
      }
      assert (y + 2) * (z.nextline * 2) == (y + 1) * (z.nextline * 2) + z.nextline * 2;
    }

    /** One graphical row: a copy, a blank or a fresh rendering, and the end address after it. */
    method GraphicRow(z: Zoom, zoomx: array<nat>, zoomy: array<nat>, dst: array<int>, h: nat, lineEnd: nat)
      returns (newEnd: nat)
      requires Valid() && ZoomOk(z) && h < AreaH(z) && zoomy.Length >= AreaH(z)
      requires forall i :: 0 <= i < AreaH(z) ==> zoomy[i] == i / z.coefy < z.vh
      requires zoomx.Length >= AreaW(z) && forall w :: 0 <= w < AreaW(z) ==> zoomx[w] == w / z.coefx < z.vw
      requires RowPos(z, UpperH(z) + h) + Width(z) <= dst.Length && RowsDone(z, dst[..], UpperH(z) + h)
      requires LineEndAt(z, lineEnd, h) && BlanksFit(z, dst.Length)
      modifies this`sampleHoldIdx, dst
      ensures RowsDone(z, dst[..], UpperH(z) + h + 1) && LineEndAt(z, newEnd, h + 1)
    {
      hide HasGroups, UpperH, AreaH, AreaW, RowPos, InRam, RowsDone, LineEndAt, BlanksFit, Width;
      newEnd := lineEnd;
      if h > 0 && zoomy[h] == zoomy[h - 1] {
        CopyRow(z, dst, h);
        SameLineEnd(z, lineEnd, h);
      } else {
        LineEndTells(z, lineEnd, lineEnd + z.nextline * 2, h, h + 1);
        if lineEnd > z.ramEnd {
          BlankFits(z, h, dst.Length);
          BlankRow(z, dst, h);
        } else {
          FreshRow(z, zoomx, dst, h);
          newEnd := lineEnd + z.nextline * 2;
        }
      }
    }

    lemma SameLineEnd(z: Zoom, lineEnd: nat, h: nat)
      requires z.coefy > 0 && h > 0 && h / z.coefy == (h - 1) / z.coefy && LineEndAt(z, lineEnd, h)
      ensures LineEndAt(z, lineEnd, h + 1)
    {
    }

    /** Border rows `from` to `to`. */
    method Border(z: Zoom, dst: array<int>, from: nat, to: nat)
      requires Valid() && ZoomOk(z) && from <= to <= Rows(z) && RowsFit(z, dst.Length)
      requires to <= UpperH(z) || from >= UpperH(z) + AreaH(z)
      requires RowsDone(z, dst[..], from)
      modifies dst
      ensures RowsDone(z, dst[..], to)
    {
      hide HasGroups, RowsDone, UpperH, AreaH, RowsFit;
      for r := from to to
        invariant RowsDone(z, dst[..], r)
      {
        RowFits(z, r, dst.Length);
        BorderRow(z, dst, r);
      }
    }

    method Area(z: Zoom, zoomx: array<nat>, zoomy: array<nat>, dst: array<int>)
      requires Valid() && ZoomOk(z) && RowsFit(z, dst.Length) && BlanksFit(z, dst.Length)
      requires zoomy.Length >= AreaH(z) && forall i :: 0 <= i < AreaH(z) ==> zoomy[i] == i / z.coefy < z.vh
      requires zoomx.Length >= AreaW(z) && forall w :: 0 <= w < AreaW(z) ==> zoomx[w] == w / z.coefx < z.vw
      requires RowsDone(z, dst[..], UpperH(z))
      modifies this`sampleHoldIdx, dst
      ensures RowsDone(z, dst[..], UpperH(z) + AreaH(z))
    {
      hide HasGroups, RowsDone, LineEndAt, FrameColor, RowsFit, BlanksFit;
      var lineEnd: nat := z.base + z.nextline * 2;
      assert LineEndAt(z, lineEnd, 0) by { LineEndStarts(z); }
      for h := 0 to AreaH(z)
        invariant RowsDone(z, dst[..], UpperH(z) + h) && LineEndAt(z, lineEnd, h)
      {
        RowFits(z, UpperH(z) + h, dst.Length);
        lineEnd := GraphicRow(z, zoomx, zoomy, dst, h, lineEnd);
      }
    }

    /** The whole magnified frame: every pixel (r, x) of the picture is the frame pixel
        (r div coefy, x div coefx), inside its borders. */
    method ConvertZoomed(z: Zoom, dst: array<int>)
      requires Valid() && ZoomOk(z) && z.vh > 0 && RowsFit(z, dst.Length) && BlanksFit(z, dst.Length)
      modifies this`sampleHoldIdx, dst
      ensures RowsDone(z, dst[..], Rows(z))
    {
      hide HasGroups, RowsDone, ZoomOk, RowsFit, BlanksFit, Width, AreaW, Rows, UpperH, AreaH;
      RowsSplit(z);
      var zoomx := BuildZoomTable(z.left + z.vw + z.right, Width(z));
      var zoomy := BuildZoomTable(z.upper + z.vh + z.lower, Rows(z));
      TableX(z, zoomx[..]);
      TableY(z, zoomy[..]);
      RowsDoneNone(z, dst[..]);
      Border(z, dst, 0, UpperH(z));
      Area(z, zoomx, zoomy, dst);
      Border(z, dst, UpperH(z) + AreaH(z), Rows(z));
    }

    lemma RowsSplit(z: Zoom)
      ensures UpperH(z) + AreaH(z) <= Rows(z)
    {
    }

    /** The picture on a screen of `sw` by `sh` pixels that is large enough for an integer factor.
        Frames of fewer than 16 columns are not shown. */
    method ConvertWithZoom(frame: Zoom, sw: nat, sh: nat, dst: array<int>)
      requires Valid() && frame.vw > 0 && frame.vh > 0 && frame.hscroll < 16 && frame.planes in {1, 2, 4, 8}
      requires FrameW(frame) <= sw <= frame.pitch && FrameH(frame) <= sh && sh * frame.pitch <= dst.Length
      requires LinesOk(Placed(frame, sw, sh)) && BlanksFit(Placed(frame, sw, sh), dst.Length)
      modifies this`sampleHoldIdx, dst
      ensures frame.vw < 16 ==> dst[..] == old(dst[..])
      ensures Placed(frame, sw, sh).coefx > 0 && Placed(frame, sw, sh).coefy > 0
      ensures frame.vw >= 16 ==> RowsDone(Placed(frame, sw, sh), dst[..], Rows(Placed(frame, sw, sh)))
    {
      hide LinesOk, BlanksFit, RowsFit, RowsDone;
      var coefx, coefy := sw / (frame.vw + frame.left + frame.right), sh / (frame.vh + frame.upper + frame.lower);
      var width, height := (frame.vw + frame.left + frame.right) * coefx, (frame.vh + frame.upper + frame.lower) * coefy;
      var nextline := frame.nextline;
      if frame.hscroll > 0 { nextline := nextline + frame.planes; }
      PlacedSize(frame, sw, sh);
      PlacedFits(frame, sw, sh, dst.Length);
      if frame.vw < 16 { return; }
      var z := frame.(coefx := coefx, coefy := coefy, nextline := nextline,
                      origin := (sh - height) / 2 * frame.pitch + (sw - width) / 2);
      ConvertZoomed(z, dst);
    }

    /** The source line and column shown at (r, x). */
    ghost function SourceY(z: Zoom, r: nat): nat
      requires z.coefy > 0 && UpperH(z) <= r
    {
      (r - UpperH(z)) / z.coefy
    }

    ghost function SourceX(z: Zoom, x: nat): nat
      requires z.coefx > 0 && LeftW(z) <= x
    {
      z.hscroll + (x - LeftW(z)) / z.coefx
    }

    /** A pixel of the finished picture in terms of memory: outside sample hold, and in it where
        the index is not 0. */
    lemma PixelFromMemory(z: Zoom, buf: seq<int>, r: nat, x: nat)
      requires Valid() && ZoomOk(z) && RowsDone(z, buf, Rows(z))
      requires UpperH(z) <= r < UpperH(z) + AreaH(z) && LeftW(z) <= x < LeftW(z) + AreaW(z)
      ensures InRam(z, SourceY(z, r)) && (!sampleHold || MemoryIdx(z, SourceY(z, r), SourceX(z, x)) != 0) ==>
        && RowPos(z, r) + x < |buf|
        && buf[RowPos(z, r) + x] == palette[MemoryIdx(z, SourceY(z, r), SourceX(z, x)) as nat]
    {
      hide LineIdx, MemoryIdx, HasGroups, RowPos, InRam, FrameColor, RowColor, SourceY, SourceX, UpperH, AreaH, LeftW, AreaW;
      var y, j := SourceY(z, r), SourceX(z, x);
      InsideArea(z, r, x);
      assert RowDone(z, buf, r);
      assert buf[RowPos(z, r) + x] == FrameColor(z, r, x);
      if InRam(z, y) {
        AreaColor(z, r, x);
        HoldIsMode(z, y, sampleHold);
        IdxFromMemory(z, y, j, sampleHold, Groups(z.vw) + if z.hscroll > 0 then 1 else 0);
      }
    }

    lemma InsideArea(z: Zoom, r: nat, x: nat)
      requires ZoomOk(z) && UpperH(z) <= r < UpperH(z) + AreaH(z) && LeftW(z) <= x < LeftW(z) + AreaW(z)
      ensures SourceY(z, r) < z.vh && SourceX(z, x) < z.hscroll + z.vw && r < Rows(z) && x < Width(z)
    {
      Arith.DivBound(r - UpperH(z), z.vh, z.coefy);
      Arith.DivBound(x - LeftW(z), z.vw, z.coefx);
    }

    lemma AreaColor(z: Zoom, r: nat, x: nat)
      requires Valid() && ZoomOk(z)
      requires UpperH(z) <= r < UpperH(z) + AreaH(z) && LeftW(z) <= x < LeftW(z) + AreaW(z)
      requires InRam(z, SourceY(z, r))
      ensures FrameColor(z, r, x) == Color(ShownIdx(LineAt(z, SourceY(z, r), sampleHold), SourceX(z, x)))
    {
      hide ShownIdx, InRam, UpperH, AreaH, LeftW, AreaW, ZoomOk;
      assert z.coefx > 0 && z.coefy > 0 by { Factors(z); }
    }

    lemma Factors(z: Zoom)
      requires ZoomOk(z)
      ensures z.coefx > 0 && z.coefy > 0 && z.vw > 0
    {
    }

    lemma RowsDoneNone(z: Zoom, buf: seq<int>)
      requires Valid() && ZoomOk(z)
      ensures RowsDone(z, buf, 0)
    {
    }

    lemma LineEndStarts(z: Zoom)
      requires z.coefy > 0
      ensures LineEndAt(z, z.base + z.nextline * 2, 0)
    {
    }
  }

  lemma RowFits(z: Zoom, r: nat, length: nat)
    requires r < Rows(z) && RowsFit(z, length)
    ensures RowPos(z, r) + Width(z) <= length
  {
    Arith.MulMonotone(r, Rows(z) - 1, z.pitch);
  }

  /** A row that is not a copy starts the rows of its source line. */
  lemma BlankFits(z: Zoom, h: nat, length: nat)
    requires z.coefy > 0 && h / z.coefy < z.vh && (h == 0 || h / z.coefy != (h - 1) / z.coefy)
    requires BlanksFit(z, length) && !InRam(z, h / z.coefy)
    ensures RowPos(z, UpperH(z) + h) + z.pitch <= length
  {
    hide InRam, RowPos, UpperH;
    var c := z.coefy;
    if h > 0 && h % c > 0 {
      Arith.Division(h - 1, c, h / c, h % c - 1);
    }
    assert h == h / c * c;
  }

  lemma PlacedSize(frame: Zoom, sw: nat, sh: nat)
    requires 0 < FrameW(frame) <= sw && 0 < FrameH(frame) <= sh
    ensures var z := Placed(frame, sw, sh);
      && z.coefx > 0 && z.coefy > 0 && Width(z) == FrameW(frame) * z.coefx <= sw
      && Rows(z) == FrameH(frame) * z.coefy <= sh && (frame.vh > 0 ==> Rows(z) > 0)
  {
    var z := Placed(frame, sw, sh);
    LargestFits(FrameW(frame), sw);
    LargestFits(FrameH(frame), sh);
    ThreeParts(z.left, z.vw, z.right, z.coefx);
    ThreeParts(z.upper, z.vh, z.lower, z.coefy);
  }

  /** Wherever it is centred, the picture lies inside the screen. */
  lemma PlacedFits(frame: Zoom, sw: nat, sh: nat, length: nat)
    requires 0 < FrameW(frame) <= sw <= frame.pitch && 0 < FrameH(frame) <= sh && sh * frame.pitch <= length
    ensures RowsFit(Placed(frame, sw, sh), length)
  {
    hide Width, Rows;
    var z := Placed(frame, sw, sh);
    PlacedSize(frame, sw, sh);
    if Rows(z) > 0 {
      var top, n := (sh - Rows(z)) / 2, Rows(z) - 1;
      Arith.Distribute(top, n, z.pitch);
      Arith.MulLess(top + n, sh, z.pitch);
    }
  }

  /** Given room for the picture, the fills of rows past the end of memory stay inside the surface
      exactly when the last source line is not past the end of memory, or is not the last row, or
      a whole pitch has room there. */
  lemma BlanksFitIff(z: Zoom, length: nat)
    requires z.vh > 0 && z.coefy > 0 && RowsFit(z, length)
    ensures BlanksFit(z, length) <==>
      InRam(z, z.vh - 1) || z.coefy > 1 || z.lower > 0 || z.origin + Rows(z) * z.pitch <= length
  {
    hide InRam, RowsFit, RowPos, UpperH, Rows;
    forall y: nat | y < z.vh && (y + 1 < z.vh || z.coefy > 1 || z.lower > 0)
      ensures RowPos(z, UpperH(z) + y * z.coefy) + z.pitch <= length
    {
      BlankRowInside(z, y, length);
    }
    var last: nat := z.vh - 1;
    if z.coefy == 1 && z.lower == 0 { LastRow(z); }
    assert last < z.vh;
  }

  lemma LastRow(z: Zoom)
    requires z.vh > 0 && z.coefy == 1 && z.lower == 0
    ensures RowPos(z, UpperH(z) + (z.vh - 1) * z.coefy) + z.pitch == z.origin + Rows(z) * z.pitch
  {
    assert UpperH(z) + (z.vh - 1) * z.coefy == Rows(z) - 1;
    Arith.Distribute(Rows(z) - 1, 1, z.pitch);
  }

  /** A fill that is not in the last row of the picture stays inside. */
  lemma BlankRowInside(z: Zoom, y: nat, length: nat)
    requires y < z.vh && z.coefy > 0 && RowsFit(z, length) && (y + 1 < z.vh || z.coefy > 1 || z.lower > 0)
    ensures RowPos(z, UpperH(z) + y * z.coefy) + z.pitch <= length
  {
    hide Width;
    var r := UpperH(z) + y * z.coefy;
    Arith.MulLess(y, z.vh, z.coefy);
    if y + 1 < z.vh { Arith.MulLess(y, z.vh - 1, z.coefy); Arith.MulLess(z.vh - 1, z.vh, z.coefy); }
    if z.lower > 0 { Arith.MulMonotone(1, z.lower, z.coefy); }
    assert r < Rows(z) - 1;
    Arith.MulLess(r, Rows(z) - 1, z.pitch);
  }

  /** On a screen that is the whole surface: only a picture that has its full height at factor 1,
      no lower border, and at least one column free on its left can be filled past the end. */
  lemma PlacedBlanksFitIff(frame: Zoom, sw: nat, sh: nat)
    requires 0 < FrameW(frame) <= sw <= frame.pitch && 0 < frame.vh <= FrameH(frame) <= sh
    ensures var z := Placed(frame, sw, sh);
      BlanksFit(z, sh * frame.pitch) <==>
        InRam(z, z.vh - 1) || z.coefy > 1 || z.lower > 0 || sw - FrameW(frame) * z.coefx < 2 || sh > FrameH(frame)
  {
    hide InRam, Rows, RowsFit, BlanksFit;
    var z := Placed(frame, sw, sh);
    PlacedSize(frame, sw, sh);
    PlacedFits(frame, sw, sh, sh * frame.pitch);
    BlanksFitIff(z, sh * frame.pitch);
    if z.coefy == 1 {
      var top, n := (sh - FrameH(frame)) / 2, FrameH(frame);
      assert Rows(z) == n;
      Arith.Distribute(top, n, z.pitch);
      if top + n < sh { Arith.MulLess(top + n, sh, z.pitch); }
    }
  }

  /** A picture with room on the screen that is filled past the end of the surface. */
  predicate FillsOutside(frame: Zoom, sw: nat, sh: nat) {
    && 0 < FrameW(frame) <= sw <= frame.pitch && 0 < FrameH(frame) <= sh
    && LinesOk(Placed(frame, sw, sh)) && !BlanksFit(Placed(frame, sw, sh), sh * frame.pitch)
  }

  /** Such a picture: one line of 16 columns, past the end of memory. */
  const NARROW := Zoom([], 0, 0, 0, 16, 1, 1, 1, 0, 0, 0, 0, 0, 0, 0, 0, 20)

  const NARROW_PLACED := NARROW.(coefx := 1, coefy := 1, origin := 2)

  lemma NarrowSize()
    ensures FrameW(NARROW) == 16 && FrameH(NARROW) == 1
  {
  }

  lemma NarrowPlaced()
    ensures FrameW(NARROW) == 16 && FrameH(NARROW) == 1 && Placed(NARROW, 20, 1) == NARROW_PLACED
  {
    hide FrameW, FrameH;
    NarrowSize();
    assert 20 / 16 == 1 && 1 / 1 == 1;
  }

  lemma NarrowPastRam(y: nat)
    ensures !InRam(NARROW_PLACED, y)
  {
  }

  /** In the middle of a screen 20 pixels wide it is filled past the end. */
  lemma BlankOutside()
    ensures FillsOutside(NARROW, 20, 1)
  {
    hide Placed, FrameW, FrameH, InRam, BlanksFit, HasGroups;
    NarrowPlaced();
    forall y: nat ensures !InRam(NARROW_PLACED, y) { NarrowPastRam(y); }
    assert 1 * NARROW.pitch == 20;
    PlacedBlanksFitIff(NARROW, 20, 1);
  }

  /** A zoom table of b coordinates and factor c, on the first n of them. */
  lemma TableAt(b: nat, c: nat, n: nat, t: seq<nat>)
    requires c > 0 && 0 < n <= b && |t| == b * c
    requires b * c > 0 && forall i :: 0 <= i < |t| ==> t[i] == b * i / (b * c)
    ensures n * c <= |t| && forall w :: 0 <= w < n * c ==> t[w] == w / c < n
  {
    Arith.MulMonotone(n, b, c);
    forall w | 0 <= w < n * c ensures t[w] == w / c < n {
      IntegerTable(b, c, w);
      Arith.DivBound(w, n, c);
    }
  }

  lemma ThreeParts(a: nat, b: nat, d: nat, c: nat)
    ensures a * c + b * c + d * c == (a + b + d) * c
    ensures b > 0 && c > 0 ==> (a + b + d) * c > 0
  {
    Arith.Distribute(a + b, d, c);
    Arith.Distribute(a, b, c);
    if b > 0 && c > 0 { Arith.MulMonotone(1, a + b + d, c); }
  }

  /** The column table of the whole screen width, on the columns it is used for. */
  lemma TableX(z: Zoom, t: seq<nat>)
    requires ZoomOk(z) && |t| == Width(z)
    requires forall i :: 0 <= i < |t| ==> t[i] == (z.left + z.vw + z.right) * i / Width(z)
    ensures |t| >= AreaW(z) && forall w :: 0 <= w < AreaW(z) ==> t[w] == w / z.coefx < z.vw
  {
    ThreeParts(z.left, z.vw, z.right, z.coefx);
    TableAt(z.left + z.vw + z.right, z.coefx, z.vw, t);
  }

  lemma TableY(z: Zoom, t: seq<nat>)
    requires ZoomOk(z) && z.vh > 0 && |t| == Rows(z)
    requires forall i :: 0 <= i < |t| ==> t[i] == (z.upper + z.vh + z.lower) * i / Rows(z)
    ensures |t| >= AreaH(z) && forall h :: 0 <= h < AreaH(z) ==> t[h] == h / z.coefy < z.vh
  {
    ThreeParts(z.upper, z.vh, z.lower, z.coefy);
    TableAt(z.upper + z.vh + z.lower, z.coefy, z.vh, t);
  }
}
