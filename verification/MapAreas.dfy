/** Which area an address belongs to after unmapping and after insertion, and which byte it
    shows, read off the old map alone. */
module MapAreas {
  import opened Common
  import opened Regions
  import opened Vma
  import opened MemoryMaps

  // ------------------------------------------------------------------- unmapping

  /** The part of an area that still has `a` once `hole` is unmapped.  Before the hole the
      mapping is as it was.  Behind it, an area that began before the hole starts its
      mapping afresh; one that began in the hole goes on where it was in the file, with
      the length it had at first. */
  function AreaLeft(area: Area, hole: Region, a: nat): Area
    requires area.region.Has(a) && !hole.Has(a)
  {
    var start, end := area.region.start, area.region.End();
    if end <= hole.start || hole.End() <= start then area
    else if a < hole.start then area.(region := FromTo(start, hole.start))
    else
      var moved := if area.kind.File? && hole.start <= start
        then File(area.kind.file, area.kind.offset + (hole.End() - start), area.kind.len) else area.kind;
      area.(region := FromTo(hole.End(), end), kind := moved)
  }

  /** The byte that `a` shows then. */
  function ByteLeft(fs: Files, area: Area, hole: Region, a: nat): Byte
    requires area.region.Has(a) && !hole.Has(a)
  {
    if area.kind.Anon? then 0
    else
      var File(file, offset, len) := area.kind;
      var start := area.region.start;
      if a < hole.start || hole.End() <= start then
        (if a - start < len then FileByte(fs, file, offset + (a - start)) else 0)
      else
        var d := a - hole.End();
        if d >= len then 0
        else if hole.start <= start then FileByte(fs, file, offset + (a - start))
        else FileByte(fs, file, offset + d)
  }

  lemma CutArea(area: Area, hole: Region, a: nat)
    requires hole.size > 0 && area.region.Has(a) && !hole.Has(a)
    ensures Lookup(Cut(area, hole), a) == Some(AreaLeft(area, hole, a))
  {
    var pieces := Cut(area, hole);
    if |pieces| == 2 {
      assert pieces == [pieces[0]] + [pieces[1]];
      LookupConcat([pieces[0]], [pieces[1]], a);
      LookupOne(pieces[1], a);
    }
    LookupOne(pieces[0], a);
  }

  /** Unmapping leaves nothing in the hole and, at every other address, the part just
      described of the area that was there. */
  lemma UnmappedArea(vmas: seq<Area>, hole: Region, a: nat)
    requires Ordered(vmas) && hole.size > 0
    ensures Lookup(Unmapped(vmas, hole), a) ==
      if hole.Has(a) || Lookup(vmas, a).None? then None
      else Some(AreaLeft(Lookup(vmas, a).value, hole, a))
  {
    UnmappedAt(vmas, hole, a);
    LookupHas(vmas, a);
    if Lookup(vmas, a).Some? {
      if hole.Has(a) {
        CutAt(Lookup(vmas, a).value, hole, a);
      } else {
        CutArea(Lookup(vmas, a).value, hole, a);
      }
    }
  }

  ghost predicate UnmapShows(fs: Files, before: seq<Area>, after: seq<Area>, hole: Region, a: nat) {
    ByteAt(fs, after, a) ==
      if hole.Has(a) || Lookup(before, a).None? then None
      else Some(ByteLeft(fs, Lookup(before, a).value, hole, a))
  }

  /** The byte every address shows after unmapping, whatever the files, kept or not. */
  lemma UnmappedByte(fs: Files, vmas: seq<Area>, hole: Region, a: nat)
    requires Ordered(vmas) && hole.size > 0
    ensures UnmapShows(fs, vmas, Unmapped(vmas, hole), hole, a)
  {
    UnmappedArea(vmas, hole, a);
  }

  // ------------------------------------------------------------------- insertion

  /** `next` carries on where `first` ends: the same permissions, and no file on either side
      or the same file at the offset that follows. */
  predicate CarriesOn(first: Area, next: Area) {
    && first.perms == next.perms
    && ((first.kind.Anon? && next.kind.Anon?)
        || (first.kind.File? && next.kind.File? && first.kind.file == next.kind.file
            && next.kind.offset - first.kind.offset == next.region.start - first.region.start))
  }

  /** What is left of the area just before the new one, and of the area just behind it. */
  function Previous(vmas: seq<Area>, v: Area): Option<Area> {
    var at := v.region.start - 1;
    if at < 0 || Lookup(vmas, at).None? then None else Some(AreaLeft(Lookup(vmas, at).value, v.region, at))
  }

  function Following(vmas: seq<Area>, v: Area): Option<Area> {
    var at := v.region.End();
    if Lookup(vmas, at).None? then None else Some(AreaLeft(Lookup(vmas, at).value, v.region, at))
  }

  /** The area the new one becomes part of: it starts with the previous one if the new one
      carries that on, ends with the next one if that carries the new one on, and has the
      mapping of its first part. */
  function Spread(vmas: seq<Area>, v: Area): Area { SpreadOver(Previous(vmas, v), v, Following(vmas, v)) }

  function SpreadOver(prev: Option<Area>, v: Area, next: Option<Area>): Area {
    var first := if prev.Some? && CarriesOn(prev.value, v) then prev.value else v;
    var end := if next.Some? && CarriesOn(v, next.value) then next.value.region.End() else v.region.End();
    if first.region.start <= end then first.(region := FromTo(first.region.start, end)) else first
  }

  /** Every address of the spread area belongs to it, and every other one, outside the new
      area, to what is left of the area it was in. */
  ghost predicate InsertShows(before: seq<Area>, v: Area, after: seq<Area>, a: nat) {
    Lookup(after, a) ==
      if Spread(before, v).region.Has(a) then Some(Spread(before, v))
      else if v.region.Has(a) || Lookup(before, a).None? then None
      else Some(AreaLeft(Lookup(before, a).value, v.region, a))
  }

  lemma InsertedArea(vmas: seq<Area>, v: Area, a: nat)
    requires Ordered(vmas) && v.region.size > 0
    ensures InsertShows(vmas, v, Inserted(vmas, v), a)
  {
    var u := Unmapped(vmas, v.region);
    var k := Below(u, v.region.start);
    var lo, hi := u[..k], u[k..];
    PlaceFor(vmas, v);
    assert u == lo + hi;
    LookupConcat(lo, hi, a);
    PreviousIsLast(vmas, v, lo, hi);
    FollowingIsFirst(vmas, v, lo, hi);
    JoinedArea(lo, v, hi, a);
    SpreadIsJoined(Previous(vmas, v), v, Following(vmas, v), lo, hi);
    UnmappedArea(vmas, v.region, a);
    hide Unmapped, Below, Ordered, AreaLeft, Previous, Following, SpreadOver, Survivor, Joined;
  }

  lemma SpreadIsJoined(prev: Option<Area>, v: Area, next: Option<Area>, lo: seq<Area>, hi: seq<Area>)
    requires prev.Some? <==> lo != [] && lo[|lo| - 1].region.End() == v.region.start
    requires prev.Some? ==> prev == Some(lo[|lo| - 1])
    requires next.Some? <==> hi != [] && hi[0].region.start == v.region.End()
    requires next.Some? ==> next == Some(hi[0])
    ensures SpreadOver(prev, v, next) == Survivor(lo, v, hi)
  {
  }

  /** What the two joins make of an area between two lists. */
  function Survivor(lo: seq<Area>, v: Area, hi: seq<Area>): Area {
    var w := if JoinsNext(v, hi) then Merged(v, hi[0]) else v;
    if JoinsPrevious(lo, w) then Merged(lo[|lo| - 1], w) else w
  }

  lemma JoinedArea(lo: seq<Area>, v: Area, hi: seq<Area>, a: nat)
    requires Ordered(lo + [v] + hi)
    ensures var m := Survivor(lo, v, hi);
      && Lookup(Joined(lo, v, hi), a) ==
           (if m.region.Has(a) then Some(m) else if Lookup(lo, a).Some? then Lookup(lo, a) else Lookup(hi, a))
  {
    var w := if JoinsNext(v, hi) then Merged(v, hi[0]) else v;
    var rest := if JoinsNext(v, hi) then hi[1..] else hi;
    NextJoined(lo, v, hi, a);
    if JoinsPrevious(lo, w) {
      var front, last := lo[..|lo| - 1], lo[|lo| - 1];
      assert lo == front + [last];
      assert lo + [w] + rest == front + [last, w] + rest;
      AbsorbOrdered(front, last, w, rest);
      LookupConcat(front, [last], a);
      LookupOne(last, a);
      Amid(front, Merged(last, w), rest, a);
    } else {
      Amid(lo, w, rest, a);
    }
  }

  lemma NextJoined(lo: seq<Area>, v: Area, hi: seq<Area>, a: nat)
    requires Ordered(lo + [v] + hi)
    ensures var w := if JoinsNext(v, hi) then Merged(v, hi[0]) else v;
      var rest := if JoinsNext(v, hi) then hi[1..] else hi;
      && Ordered(lo + [w] + rest) && w.region.start == v.region.start
      && (!w.region.Has(a) ==> Lookup(rest, a) == Lookup(hi, a))
  {
    if JoinsNext(v, hi) {
      assert lo + [v] + hi == lo + [v, hi[0]] + hi[1..];
      AbsorbOrdered(lo, v, hi[0], hi[1..]);
    }
  }

  lemma Amid(lo: seq<Area>, w: Area, hi: seq<Area>, a: nat)
    requires Ordered(lo + [w] + hi)
    ensures Lookup(lo + [w] + hi, a) ==
      if w.region.Has(a) then Some(w) else if Lookup(lo, a).Some? then Lookup(lo, a) else Lookup(hi, a)
  {
    LookupAround(lo, [w], hi, a);
    LookupOne(w, a);
    if w.region.Has(a) {
      assert (lo + [w] + hi)[|lo|] == w;
      LookupIs(lo + [w] + hi, |lo|, a);
    }
  }

  lemma PreviousIsLast(vmas: seq<Area>, v: Area, lo: seq<Area>, hi: seq<Area>)
    requires Ordered(vmas) && v.region.size > 0 && Ordered(lo + [v] + hi) && Unmapped(vmas, v.region) == lo + hi
    ensures Previous(vmas, v).Some? <==> lo != [] && lo[|lo| - 1].region.End() == v.region.start
    ensures Previous(vmas, v).Some? ==> Previous(vmas, v) == Some(lo[|lo| - 1])
  {
    hide Ordered, AreaLeft, Unmapped, Lookup;
    LastBefore(lo, v, hi);
    if v.region.start > 0 { UnmappedArea(vmas, v.region, v.region.start - 1); }
  }

  lemma LastBefore(lo: seq<Area>, v: Area, hi: seq<Area>)
    requires Ordered(lo + [v] + hi)
    ensures v.region.start == 0 ==> lo == []
    ensures v.region.start > 0 ==>
      Lookup(lo + hi, v.region.start - 1) ==
        if lo != [] && lo[|lo| - 1].region.End() == v.region.start then Some(lo[|lo| - 1]) else None
  {
    var at, all := v.region.start - 1, lo + [v] + hi;
    assert all[|lo|] == v && forall i | 0 <= i < |lo| :: all[i] == lo[i];
    assert forall i | 0 <= i < |hi| :: all[|lo| + 1 + i] == hi[i];
    assert lo != [] ==> all[|lo| - 1] == lo[|lo| - 1];
    if at >= 0 {
      LookupConcat(lo, hi, at);
      LookupHas(hi, at);
      if lo != [] {
        var front, last := lo[..|lo| - 1], lo[|lo| - 1];
        assert lo == front + [last];
        LookupConcat(front, [last], at);
        LookupOne(last, at);
        LookupHas(front, at);
      }
    }
  }

  lemma FollowingIsFirst(vmas: seq<Area>, v: Area, lo: seq<Area>, hi: seq<Area>)
    requires Ordered(vmas) && v.region.size > 0 && Ordered(lo + [v] + hi) && Unmapped(vmas, v.region) == lo + hi
    ensures Following(vmas, v).Some? <==> hi != [] && hi[0].region.start == v.region.End()
    ensures Following(vmas, v).Some? ==> Following(vmas, v) == Some(hi[0])
  {
    var at := v.region.End();
    var all := lo + [v] + hi;
    assert all[|lo|] == v && forall i | 0 <= i < |lo| :: all[i] == lo[i];
    assert forall i | 0 <= i < |hi| :: all[|lo| + 1 + i] == hi[i];
    UnmappedArea(vmas, v.region, at);
    LookupHas(hi, at);
    LookupHas(lo, at);
    LookupConcat(lo, hi, at);
    if hi != [] && hi[0].region.start == at { assert hi[0].region.Has(at); }
    if Following(vmas, v).Some? {
      var i :| 0 <= i < |hi| && hi[i].region.Has(at);
      assert i > 0 ==> hi[0].region.End() <= hi[i].region.start && v.region.End() <= hi[0].region.start;
    }
  }
}
