/** Virtual memory areas: building them from ELF program headers, the file read that
    fills a faulting page, and re-slicing.  Each must keep the byte an address denotes. */
module Vma {
  import opened Common
  import opened Regions

  const PF_X: nat := 1
  const PF_W: nat := 2
  const PF_R: nat := 4

  datatype Perms = Perms(read: bool, write: bool, execute: bool)

  /** File contents by file identity. */
  type Files = nat -> seq<Byte>

  /** A byte of a file; reads past its end leave the zeroed page as it is. */
  function FileByte(fs: Files, file: nat, offset: nat): Byte {
    if offset < |fs(file)| then fs(file)[offset] else 0
  }

  datatype Kind = Anon | File(file: nat, offset: nat, len: nat)

  datatype Area = Area(region: Region, kind: Kind, perms: Perms)

  datatype ProgramHeader = ProgramHeader(offset: nat, vaddr: nat, filesz: nat, memsz: nat, flags: nat)

  datatype FileRead = FileRead(file: nat, fileOffset: nat, pageOffset: nat, len: nat)

  function PageDown(a: nat): nat { a - a % PAGE_SIZE }
  function PageUp(a: nat): nat { PageDown(a + PAGE_SIZE - 1) }

  function SaturatingSub(a: nat, b: nat): nat { if a >= b then a - b else 0 }

  predicate HasFlag(flags: nat, bit: nat)
    requires bit > 0
  {
    flags / bit % 2 == 1
  }

  /** The area of a loadable segment: whole pages, with the file mapping moved back to
      the page boundary. */
  function FromHeader(file: nat, hdr: ProgramHeader): Area
    requires hdr.vaddr % PAGE_SIZE <= hdr.offset
  {
    var skew := hdr.vaddr % PAGE_SIZE;
    Area(FromTo(PageDown(hdr.vaddr), PageUp(hdr.vaddr + hdr.memsz)),
         File(file, hdr.offset - skew, hdr.filesz + skew),
         Perms(HasFlag(hdr.flags, PF_R), HasFlag(hdr.flags, PF_W), HasFlag(hdr.flags, PF_X)))
  }

  /** The file offset does not lie before the file's start once moved back to the page
      boundary, so that the offset arithmetic of a fault cannot underflow. */
  predicate Congruous(area: Area) {
    area.kind.File? ==> area.region.start % PAGE_SIZE <= area.kind.offset
  }

  /** The file read that a fault at `addr` asks for, if any. */
  function ResolveFault(area: Area, addr: nat): Option<FileRead>
    requires Congruous(area)
  {
    if area.kind.Anon? then None
    else
      var File(file, offset, len) := area.kind;
      var start := area.region.start;
      var skew := start % PAGE_SIZE;
      var mapStart := PageDown(start);
      var page := PageDown(addr);
      var pageFileOffset := offset - skew + SaturatingSub(page, mapStart);
      var pageOffset := if page == mapStart then skew else 0;
      var readStart := Max(pageFileOffset, offset);
      var readLen := Min(SaturatingSub(offset + len, readStart), PAGE_SIZE - pageOffset);
      if readLen == 0 then None else Some(FileRead(file, readStart, pageOffset, readLen))
  }

  /** The byte at `addr` of the page that a fault at `fault`, in the same page, zeroed and
      filled by its read. */
  function FaultedByte(fs: Files, area: Area, fault: nat, addr: nat): Byte
    requires Congruous(area)
  {
    var read := ResolveFault(area, fault);
    var k := addr % PAGE_SIZE;
    if read.Some? && read.value.pageOffset <= k < read.value.pageOffset + read.value.len
    then FileByte(fs, read.value.file, read.value.fileOffset + k - read.value.pageOffset)
    else 0
  }

  /** What an address of the area denotes: its file byte below the mapping's length,
      zero above it. */
  function Denoted(fs: Files, area: Area, addr: nat): Byte
    requires area.region.start <= addr
  {
    var d := addr - area.region.start;
    if area.kind.File? && d < area.kind.len then FileByte(fs, area.kind.file, area.kind.offset + d) else 0
  }

  // ---------------------------------------------------- when two mappings show the same

  /** How far into a region the file bytes of a mapping reach, whatever its area's end. */
  function ReachIn(m: Area, region: Region): nat
    requires m.region.start <= region.start
  {
    if m.kind.Anon? then 0 else Min(SaturatingSub(m.kind.len, region.start - m.region.start), region.size)
  }

  /** Two mappings reach equally far into a region and, if at all, with the same bytes of
      the same file. */
  predicate Agree(m: Area, t: Area, region: Region)
    requires m.region.start <= region.start && t.region.start <= region.start
  {
    && ReachIn(m, region) == ReachIn(t, region)
    && (ReachIn(m, region) > 0 ==>
          && m.kind.file == t.kind.file
          && m.kind.offset + (region.start - m.region.start) == t.kind.offset + (region.start - t.region.start))
  }

  ghost predicate ShowsAt(fs: Files, m: Area, t: Area, region: Region, a: nat)
    requires m.region.start <= region.start && t.region.start <= region.start
  {
    region.Has(a) ==> Denoted(fs, m, a) == Denoted(fs, t, a)
  }

  /** All over a region one mapping denotes what the other does, whatever the files. */
  ghost predicate Shows(m: Area, t: Area, region: Region)
    requires m.region.start <= region.start && t.region.start <= region.start
  {
    forall fs: Files, a: nat :: ShowsAt(fs, m, t, region, a)
  }

  /** A file system in which one byte of one file is not zero. */
  function Spike(file: nat, at: nat): Files {
    f => if f == file then seq(at + 1, i => if i == at then 1 else 0) else []
  }

  lemma SpikeIs(file: nat, at: nat, f: nat, offset: nat)
    ensures FileByte(Spike(file, at), f, offset) == if f == file && offset == at then 1 else 0
  {
  }

  /** Two mappings show the same bytes in a region, whatever the files hold, if and only if
      they agree there. */
  lemma AgreeIff(m: Area, t: Area, region: Region)
    requires m.region.start <= region.start && t.region.start <= region.start
    ensures Shows(m, t, region) <==> Agree(m, t, region)
  {
    if Agree(m, t, region) {
      forall fs: Files, a: nat ensures ShowsAt(fs, m, t, region, a) { AgreeShows(fs, m, t, region, a); }
    } else if ReachIn(m, region) > ReachIn(t, region) {
      ReachDiffers(m, t, region);
    } else if ReachIn(m, region) < ReachIn(t, region) {
      ReachDiffers(t, m, region);
    } else {
      BytesDiffer(m, t, region);
    }
  }

  lemma AgreeShows(fs: Files, m: Area, t: Area, region: Region, a: nat)
    requires m.region.start <= region.start && t.region.start <= region.start && Agree(m, t, region)
    ensures ShowsAt(fs, m, t, region, a)
  {
  }

  lemma ReachDiffers(m: Area, t: Area, region: Region)
    requires m.region.start <= region.start && t.region.start <= region.start
    requires ReachIn(m, region) > ReachIn(t, region)
    ensures !Shows(m, t, region) && !Shows(t, m, region)
  {
    var a := region.start + ReachIn(t, region);
    var at := m.kind.offset + (a - m.region.start);
    var fs := Spike(m.kind.file, at);
    SpikeIs(m.kind.file, at, m.kind.file, at);
    assert Denoted(fs, m, a) == 1 && Denoted(fs, t, a) == 0;
    assert !ShowsAt(fs, m, t, region, a) && !ShowsAt(fs, t, m, region, a);
  }

  lemma BytesDiffer(m: Area, t: Area, region: Region)
    requires m.region.start <= region.start && t.region.start <= region.start
    requires ReachIn(m, region) == ReachIn(t, region) && !Agree(m, t, region)
    ensures !Shows(m, t, region)
  {
    var a := region.start;
    var at, other := m.kind.offset + (a - m.region.start), t.kind.offset + (a - t.region.start);
    var fs := Spike(m.kind.file, at);
    SpikeIs(m.kind.file, at, m.kind.file, at);
    SpikeIs(m.kind.file, at, t.kind.file, other);
    assert Denoted(fs, m, a) == 1 && Denoted(fs, t, a) == 0;
    assert !ShowsAt(fs, m, t, region, a);
  }

  // ---------------------------------------------------------------------- faults

  lemma SamePage(start: nat, addr: nat)
    requires start <= addr
    ensures PageDown(start) <= PageDown(addr)
    ensures PageDown(start) == PageDown(addr) || start < PageDown(addr)
  {
  }

  /** A fault anywhere in a page fills every address of the page that the area has with
      the byte that address denotes, and its read stays inside the page. */
  lemma FaultFillsDenoted(fs: Files, area: Area, fault: nat, addr: nat)
    requires Congruous(area) && area.region.Has(addr) && PageDown(fault) == PageDown(addr)
    ensures FaultedByte(fs, area, fault, addr) == Denoted(fs, area, addr)
    ensures var read := ResolveFault(area, fault);
      read.Some? ==> read.value.len > 0 && read.value.pageOffset + read.value.len <= PAGE_SIZE
  {
    if area.kind.File? {
      var start, k := area.region.start, addr % PAGE_SIZE;
      SamePage(start, addr);
      if PageDown(addr) == PageDown(start) {
        assert addr - start == k - start % PAGE_SIZE;
      } else {
        assert addr - start == PageDown(addr) - PageDown(start) + k - start % PAGE_SIZE;
      }
    }
  }

  /** Demand paging loads the segment: below p_filesz every byte of the segment is the
      file's, from there to p_memsz it is zero.  That p_offset and p_vaddr agree modulo
      the page size is more than is needed; it implies the precondition. */
  lemma DemandPagingLoadsSegment(fs: Files, file: nat, hdr: ProgramHeader, fault: nat, addr: nat)
    requires hdr.vaddr % PAGE_SIZE <= hdr.offset && hdr.vaddr <= addr < hdr.vaddr + hdr.memsz
    requires PageDown(fault) == PageDown(addr)
    ensures var area := FromHeader(file, hdr);
      && area.region.Has(addr) && Congruous(area)
      && FaultedByte(fs, area, fault, addr) ==
           (if addr - hdr.vaddr < hdr.filesz then FileByte(fs, file, hdr.offset + (addr - hdr.vaddr)) else 0)
  {
    hide FaultedByte;
    HeaderDenotes(fs, file, hdr, addr);
    FaultFillsDenoted(fs, FromHeader(file, hdr), fault, addr);
  }

  lemma HeaderDenotes(fs: Files, file: nat, hdr: ProgramHeader, addr: nat)
    requires hdr.vaddr % PAGE_SIZE <= hdr.offset && hdr.vaddr <= addr < hdr.vaddr + hdr.memsz
    ensures var area := FromHeader(file, hdr);
      && area.region.Has(addr) && Congruous(area)
      && Denoted(fs, area, addr) ==
           (if addr - hdr.vaddr < hdr.filesz then FileByte(fs, file, hdr.offset + (addr - hdr.vaddr)) else 0)
  {
  }

  /** The permissions are the header's three flag bits, whatever its other bits. */
  lemma SegmentPermissions(file: nat, hdr: ProgramHeader, perms: Perms, other: nat)
    requires hdr.vaddr % PAGE_SIZE <= hdr.offset
    requires hdr.flags == (if perms.execute then PF_X else 0) + (if perms.write then PF_W else 0)
                          + (if perms.read then PF_R else 0) + 8 * other
    ensures FromHeader(file, hdr).perms == perms
  {
    var f := hdr.flags;
    assert f / 4 == 2 * other + (if perms.read then 1 else 0);
    assert f / 2 == 2 * (f / 4) + (if perms.write then 1 else 0);
  }

  /** The pages of the area are exactly the pages the segment touches. */
  lemma SegmentPagesAreMinimal(file: nat, hdr: ProgramHeader, page: nat)
    requires hdr.vaddr % PAGE_SIZE <= hdr.offset && hdr.memsz > 0 && page % PAGE_SIZE == 0
    ensures FromHeader(file, hdr).region.Has(page) <==>
            exists a: nat :: hdr.vaddr <= a < hdr.vaddr + hdr.memsz && PageDown(a) == page
  {
    var region, end := FromHeader(file, hdr).region, hdr.vaddr + hdr.memsz;
    PageBounds(page, hdr.vaddr);
    PageBounds(page, end);
    if region.Has(page) {
      var a := Max(page, hdr.vaddr);
      assert hdr.vaddr <= a < end && PageDown(a) == page;
    }
    if a: nat :| hdr.vaddr <= a < end && PageDown(a) == page {
      PageBounds(PageDown(hdr.vaddr), a);
    }
  }

  /** A page boundary is below an address exactly when it is below its rounding. */
  lemma PageBounds(page: nat, a: nat)
    requires page % PAGE_SIZE == 0
    ensures page <= a <==> page <= PageDown(a)
    ensures page < a <==> page < PageUp(a)
    ensures PageDown(a) % PAGE_SIZE == 0
    ensures page <= a < page + PAGE_SIZE <==> PageDown(a) == page
  {
    var k, q := page / PAGE_SIZE, a / PAGE_SIZE;
    assert page == k * PAGE_SIZE && PageDown(a) == q * PAGE_SIZE;
  }

  // ----------------------------------------------------------------- re-slicing

  function ShrinkTo(area: Area, region: Region): Area
    requires area.region.Contains(region)
  {
    if area.kind.Anon? then area.(region := region)
    else
      var d := region.start - area.region.start;
      var len := Min(SaturatingSub(area.kind.len, d), region.size);
      area.(region := region,
            kind := if len == 0 then Anon else File(area.kind.file, area.kind.offset + d, len))
  }

  /** A shrunk area's mapping is as long as the file bytes left; with none left it is no file
      mapping any more. */
  lemma ShrinkMapping(area: Area, region: Region)
    requires area.region.Contains(region)
    ensures var small := ShrinkTo(area, region);
      && small.region == region && small.perms == area.perms
      && (small.kind.File? <==> ReachIn(area, region) > 0)
      && (small.kind.File? ==> small.kind.len == ReachIn(area, region))
  {
  }

  /** Shrinking keeps what every remaining address denotes. */
  lemma ShrinkDenotes(fs: Files, area: Area, region: Region, addr: nat)
    requires area.region.Contains(region) && region.Has(addr)
    ensures Denoted(fs, ShrinkTo(area, region), addr) == Denoted(fs, area, addr)
  {
  }

  lemma ShrinkCongruous(area: Area, region: Region)
    requires Congruous(area) && area.region.Contains(region)
    ensures Congruous(ShrinkTo(area, region))
  {
  }

  /** Shrinking keeps what every remaining address denotes, and what a fault there
      loads. */
  lemma ShrinkKeepsBytes(fs: Files, area: Area, region: Region, fault: nat, addr: nat)
    requires Congruous(area) && area.region.Contains(region) && region.Has(addr) && PageDown(fault) == PageDown(addr)
    ensures Congruous(ShrinkTo(area, region))
    ensures Denoted(fs, ShrinkTo(area, region), addr) == Denoted(fs, area, addr)
    ensures FaultedByte(fs, ShrinkTo(area, region), fault, addr) == FaultedByte(fs, area, fault, addr)
  {
    ShrinkCongruous(area, region);
    hide FaultedByte, Denoted, Congruous, ShrinkTo;
    ShrinkDenotes(fs, area, region, addr);
    ShrinkMapping(area, region);
    FaultFillsDenoted(fs, area, fault, addr);
    FaultFillsDenoted(fs, ShrinkTo(area, region), fault, addr);
  }

  /** Shrinking in two nested steps is shrinking once. */
  lemma ShrinkTwice(area: Area, outer: Region, inner: Region)
    requires area.region.Contains(outer) && outer.Contains(inner)
    ensures ShrinkTo(ShrinkTo(area, outer), inner) == ShrinkTo(area, inner)
  {
  }

  /** The pieces a change of permissions cuts an area into: what is left of the range, the
      range under its new permissions, and what is right of it. */
  function Pieces(area: Area, range: Region, perms: Perms): seq<Area>
    requires area.region.Contains(range)
  {
    var (left, right) := area.region.PunchHole(range);
    (if left.Some? then [ShrinkTo(area, left.value)] else [])
      + [ShrinkTo(area, range).(perms := perms)]
      + (if right.Some? then [ShrinkTo(area, right.value)] else [])
  }

  /** The piece that has `addr`, if any: left, right or the range itself. */
  ghost predicate PieceOk(fs: Files, area: Area, range: Region, perms: Perms, fault: nat, addr: nat, piece: Area) {
    piece.region.Has(addr) ==>
      && Congruous(area) && Congruous(piece) && area.region.Has(addr)
      && piece.perms == (if range.Has(addr) then perms else area.perms)
      && Denoted(fs, piece, addr) == Denoted(fs, area, addr)
      && FaultedByte(fs, piece, fault, addr) == FaultedByte(fs, area, fault, addr)
  }

  lemma SidePieceOk(fs: Files, area: Area, range: Region, perms: Perms, fault: nat, addr: nat, side: Region)
    requires Congruous(area) && area.region.Contains(side) && PageDown(fault) == PageDown(addr)
    requires side.Has(addr) ==> !range.Has(addr)
    ensures PieceOk(fs, area, range, perms, fault, addr, ShrinkTo(area, side))
  {
    hide FaultedByte, Denoted;
    if side.Has(addr) { ShrinkKeepsBytes(fs, area, side, fault, addr); }
  }

  lemma RangePieceOk(fs: Files, area: Area, range: Region, perms: Perms, fault: nat, addr: nat)
    requires Congruous(area) && area.region.Contains(range) && PageDown(fault) == PageDown(addr)
    ensures PieceOk(fs, area, range, perms, fault, addr, ShrinkTo(area, range).(perms := perms))
  {
    var small := ShrinkTo(area, range);
    if range.Has(addr) {
      assert Denoted(fs, small.(perms := perms), addr) == Denoted(fs, small, addr);
      hide FaultedByte, Denoted;
      ShrinkKeepsBytes(fs, area, range, fault, addr);
      FaultFillsDenoted(fs, area, fault, addr);
      FaultFillsDenoted(fs, small.(perms := perms), fault, addr);
    }
  }

  /** Whichever piece has an address, the address keeps its byte, and its permissions are
      the new ones exactly inside the range. */
  lemma PiecesKeepBytes(fs: Files, area: Area, range: Region, perms: Perms, fault: nat, addr: nat)
    requires Congruous(area) && area.region.Contains(range) && PageDown(fault) == PageDown(addr)
    ensures forall i | 0 <= i < |Pieces(area, range, perms)| ::
      PieceOk(fs, area, range, perms, fault, addr, Pieces(area, range, perms)[i])
  {
    hide PieceOk;
    var (left, right) := area.region.PunchHole(range);
    RangePieceOk(fs, area, range, perms, fault, addr);
    if left.Some? { SidePieceOk(fs, area, range, perms, fault, addr, left.value); }
    if right.Some? { SidePieceOk(fs, area, range, perms, fault, addr, right.value); }
  }

  /** The pieces follow one another and cover exactly the area. */
  lemma PiecesCover(area: Area, range: Region, perms: Perms, addr: nat)
    requires area.region.Contains(range) && range.size > 0
    ensures (exists i :: 0 <= i < |Pieces(area, range, perms)| && Pieces(area, range, perms)[i].region.Has(addr))
            <==> area.region.Has(addr)
    ensures forall i | 0 < i < |Pieces(area, range, perms)| ::
      Pieces(area, range, perms)[i - 1].region.End() == Pieces(area, range, perms)[i].region.start
  {
    var pieces := Pieces(area, range, perms);
    var (left, right) := area.region.PunchHole(range);
    var m := if left.Some? then 1 else 0;
    assert pieces[m].region == range;
    if left.Some? { assert pieces[0].region == left.value; }
    if right.Some? { assert pieces[m + 1].region == right.value; }
  }

  // ------------------------------------------------------------------- unmapping

  function WithRegion(area: Area, region: Region): Area { area.(region := region) }

  /** What unmapping leaves of one area.  Around a hole both pieces keep the file offset
      and length; an area cut at the front has its offset moved, but not its length. */
  function Cut(area: Area, hole: Region): seq<Area> {
    var start, end := area.region.start, area.region.End();
    if !area.region.Overlaps(hole) then [area]
    else if start < hole.start && end > hole.End() then
      [WithRegion(area, FromTo(start, hole.start)), WithRegion(area, FromTo(hole.End(), end))]
    else if start < hole.start then [WithRegion(area, FromTo(start, hole.start))]
    else if end > hole.End() then
      [WithRegion(area, FromTo(hole.End(), end)).(kind :=
         if area.kind.Anon? then Anon
         else File(area.kind.file, area.kind.offset + (hole.End() - start), area.kind.len))]
    else []
  }

  /** Cutting leaves exactly the addresses outside the hole, each in one piece. */
  lemma CutCovers(area: Area, hole: Region, a: int)
    ensures (exists i :: 0 <= i < |Cut(area, hole)| && Cut(area, hole)[i].region.Has(a))
            <==> area.region.Has(a) && !(area.region.Overlaps(hole) && hole.Has(a))
    ensures forall i | 0 <= i < |Cut(area, hole)| ::
      && area.region.Contains(Cut(area, hole)[i].region) && Cut(area, hole)[i].perms == area.perms
      && (area.region.size > 0 ==> Cut(area, hole)[i].region.size > 0)
    ensures |Cut(area, hole)| == 2 ==> Cut(area, hole)[0].region.End() <= Cut(area, hole)[1].region.start
  {
    var pieces := Cut(area, hole);
    if |pieces| > 0 && pieces[0].region.Has(a) {}
    if |pieces| > 1 && pieces[1].region.Has(a) {}
  }

  /** Every address that is left denotes what it did, whatever the files. */
  ghost predicate CutKeepsBytes(area: Area, hole: Region) {
    forall i | 0 <= i < |Cut(area, hole)| ::
      var piece := Cut(area, hole)[i];
      area.region.start <= piece.region.start && Shows(piece, area, piece.region)
  }

  /** When that is so: nothing is left behind the hole, or there are no file bytes, or the
      cut is at the front and the mapping's length is no less than the area. */
  predicate CutIsSafe(area: Area, hole: Region) {
    || !area.region.Overlaps(hole)
    || area.region.End() <= hole.End()
    || area.kind.Anon? || area.kind.len == 0
    || (hole.start <= area.region.start && area.region.size <= area.kind.len)
  }

  /** Unmapping part of an area keeps the bytes of the rest if and only if the cut is
      safe; around a hole in a file mapping it never is. */
  lemma CutKeepsBytesIff(area: Area, hole: Region)
    requires hole.size > 0
    ensures CutKeepsBytes(area, hole) <==> CutIsSafe(area, hole)
  {
    var pieces := Cut(area, hole);
    forall i | 0 <= i < |pieces|
      ensures area.region.start <= pieces[i].region.start
      ensures Shows(pieces[i], area, pieces[i].region) <==> Agree(pieces[i], area, pieces[i].region)
    {
      AgreeIff(pieces[i], area, pieces[i].region);
    }
    if !CutIsSafe(area, hole) {
      var last := pieces[|pieces| - 1];
      assert last.region == FromTo(hole.End(), area.region.End()) && !Agree(last, area, last.region);
    }
  }

  /** Unmapping the middle page of three: the last page then shows the first of the file. */
  lemma UnmapMiddleExample(fs: Files, perms: Perms, k: nat)
    requires k < PAGE_SIZE
    ensures var area := Area(Region(0, 3 * PAGE_SIZE), File(0, 0, 3 * PAGE_SIZE), perms);
      var pieces := Cut(area, Region(PAGE_SIZE, PAGE_SIZE));
      && |pieces| == 2 && pieces[1].region == Region(2 * PAGE_SIZE, PAGE_SIZE)
      && Denoted(fs, pieces[1], 2 * PAGE_SIZE + k) == FileByte(fs, 0, k)
      && Denoted(fs, area, 2 * PAGE_SIZE + k) == FileByte(fs, 0, 2 * PAGE_SIZE + k)
  {
  }

  // -------------------------------------------------------------------- merging

  predicate CanMergeWith(area: Area, next: Area) {
    && area.perms == next.perms
    && match (area.kind, next.kind)
       case (Anon, Anon) => true
       case (File(f, offset, _), File(g, nextOffset, _)) => f == g && nextOffset == offset + area.region.size
       case _ => false
  }

  /** Merging grows the first area over the second and keeps the first's mapping. */
  function Merged(area: Area, next: Area): Area {
    area.(region := Region(area.region.start, area.region.size + next.region.size))
  }

  /** Merging keeps the byte of every address of both areas, whatever the files. */
  ghost predicate MergeKeepsBytes(area: Area, next: Area)
    requires next.region.start == area.region.End()
  {
    Shows(Merged(area, next), area, area.region) && Shows(Merged(area, next), next, next.region)
  }

  /** Two mergeable neighbours keep their bytes if and only if the first area's file
      mapping already reaches exactly as far as the second's. */
  lemma MergeKeepsBytesIff(area: Area, next: Area)
    requires CanMergeWith(area, next) && next.region.start == area.region.End()
    ensures MergeKeepsBytes(area, next) <==> ReachIn(area, next.region) == ReachIn(next, next.region)
  {
    AgreeIff(Merged(area, next), next, next.region);
    AgreeIff(Merged(area, next), area, area.region);
  }

  /** Splitting a file area in two and merging the halves back loses the second half's
      file contents: shrinking cuts the first mapping at the split. */
  lemma SplitThenMergeLoses(area: Area, left: Region, right: Region)
    requires area.region.Contains(left) && area.region.Contains(right) && left.End() == right.start
    requires ShrinkTo(area, left).kind.File? && ShrinkTo(area, right).kind.File?
    ensures CanMergeWith(ShrinkTo(area, left), ShrinkTo(area, right))
    ensures !MergeKeepsBytes(ShrinkTo(area, left), ShrinkTo(area, right))
  {
    MergeKeepsBytesIff(ShrinkTo(area, left), ShrinkTo(area, right));
  }
}
