/** What programs read through a memory map: when unmapping, insertion and changes of
    permissions keep the bytes of the files they map. */
module MapBytes {
  import opened Common
  import opened Regions
  import opened Vma
  import opened MemoryMaps
  import opened MapAreas

  ghost predicate SameBytes(x: seq<Area>, y: seq<Area>) {
    forall fs: Files, a: nat :: SameByte(fs, x, y, a)
  }

  ghost predicate SameByte(fs: Files, x: seq<Area>, y: seq<Area>, a: nat) { ByteAt(fs, x, a) == ByteAt(fs, y, a) }

  // ------------------------------------------------------------------- unmapping

  /** Everything outside the hole reads as before, whatever the files. */
  ghost predicate UnmapKeepsBytes(vmas: seq<Area>, hole: Region) {
    forall fs: Files, a: nat :: UnmapKeepsAt(fs, vmas, hole, a)
  }

  ghost predicate UnmapKeepsAt(fs: Files, vmas: seq<Area>, hole: Region, a: nat) {
    !hole.Has(a) ==> ByteAt(fs, Unmapped(vmas, hole), a) == ByteAt(fs, vmas, a)
  }

  /** Unmapping a range keeps the bytes of the rest of the map if and only if it cuts every
      area safely. */
  lemma UnmapKeepsBytesIff(vmas: seq<Area>, hole: Region)
    requires Ordered(vmas) && hole.size > 0
    ensures UnmapKeepsBytes(vmas, hole) <==> forall i | 0 <= i < |vmas| :: CutIsSafe(vmas[i], hole)
  {
    if forall i | 0 <= i < |vmas| :: CutIsSafe(vmas[i], hole) {
      forall fs: Files, a: nat ensures UnmapKeepsAt(fs, vmas, hole, a) {
        LookupHas(vmas, a);
        if !hole.Has(a) { SafeCutKeeps(fs, vmas, hole, a); }
      }
    }
    if i :| 0 <= i < |vmas| && !CutIsSafe(vmas[i], hole) {
      UnsafeUnmapLoses(vmas, hole, i);
    }
  }

  /** An address whose area is cut safely reads as before. */
  lemma SafeCutKeeps(fs: Files, vmas: seq<Area>, hole: Region, a: nat)
    requires Ordered(vmas) && hole.size > 0 && !hole.Has(a)
    requires Lookup(vmas, a).Some? ==> CutIsSafe(Lookup(vmas, a).value, hole)
    ensures ByteAt(fs, Unmapped(vmas, hole), a) == ByteAt(fs, vmas, a)
  {
    UnmappedAt(vmas, hole, a);
    LookupHas(vmas, a);
    var area := Lookup(vmas, a);
    if area.Some? {
      var pieces := Cut(area.value, hole);
      CutKeepsBytesIff(area.value, hole);
      CutAt(area.value, hole, a);
      LookupHas(pieces, a);
      var i :| 0 <= i < |pieces| && pieces[i] == Lookup(pieces, a).value;
      assert ShowsAt(fs, pieces[i], area.value, pieces[i].region, a);
    }
  }

  lemma UnsafeUnmapLoses(vmas: seq<Area>, hole: Region, i: nat)
    requires Ordered(vmas) && hole.size > 0 && i < |vmas| && !CutIsSafe(vmas[i], hole)
    ensures !UnmapKeepsBytes(vmas, hole)
  {
    var fs, a := UnsafeCutLoses(vmas, hole, i);
    assert !UnmapKeepsAt(fs, vmas, hole, a);
  }

  /** An address of an area cut unsafely that reads differently; it lies behind the hole. */
  lemma UnsafeCutLoses(vmas: seq<Area>, hole: Region, i: nat) returns (fs: Files, a: nat)
    requires Ordered(vmas) && hole.size > 0 && i < |vmas| && !CutIsSafe(vmas[i], hole)
    ensures vmas[i].region.Has(a) && hole.End() <= a
    ensures ByteAt(fs, Unmapped(vmas, hole), a) != ByteAt(fs, vmas, a)
  {
    var pieces := Cut(vmas[i], hole);
    var j := |pieces| - 1;
    CutOrdered(vmas[i], hole);
    assert pieces[j].region == FromTo(hole.End(), vmas[i].region.End());
    assert !Agree(pieces[j], vmas[i], pieces[j].region);
    AgreeIff(pieces[j], vmas[i], pieces[j].region);
    fs, a :| !ShowsAt(fs, pieces[j], vmas[i], pieces[j].region, a);
    LookupIs(vmas, i, a);
    LookupIs(pieces, j, a);
    UnmappedAt(vmas, hole, a);
  }

  // --------------------------------------------------------------------- joining

  /** The address is in the new area or in the next one it has absorbed. */
  predicate TakenOver(v: Area, hi: seq<Area>, a: nat) {
    v.region.Has(a) || (JoinsNext(v, hi) && hi[0].region.Has(a))
  }

  /** What joining shows at an address: the survivor in the new area and in the next one it
      has absorbed, and what was there everywhere else. */
  lemma JoinedByte(fs: Files, lo: seq<Area>, v: Area, hi: seq<Area>, a: nat)
    requires Ordered(lo + [v] + hi)
    ensures Survivor(lo, v, hi).region.start <= v.region.start
    ensures ByteAt(fs, Joined(lo, v, hi), a) ==
      if TakenOver(v, hi, a) then Some(Denoted(fs, Survivor(lo, v, hi), a)) else ByteAt(fs, lo + [v] + hi, a)
  {
    var w := if JoinsNext(v, hi) then Merged(v, hi[0]) else v;
    var rest := if JoinsNext(v, hi) then hi[1..] else hi;
    var placed := lo + [w] + rest;
    JoinNextByte(fs, lo, v, hi, a);
    if JoinsPrevious(lo, w) {
      JoinPreviousByte(fs, lo, w, rest, a);
    }
  }

  lemma JoinNextByte(fs: Files, lo: seq<Area>, v: Area, hi: seq<Area>, a: nat)
    requires Ordered(lo + [v] + hi)
    ensures var w := if JoinsNext(v, hi) then Merged(v, hi[0]) else v;
      var rest := if JoinsNext(v, hi) then hi[1..] else hi;
      && Ordered(lo + [w] + rest) && (w.region.Has(a) <==> TakenOver(v, hi, a))
      && ByteAt(fs, lo + [w] + rest, a) ==
           if TakenOver(v, hi, a) then Some(Denoted(fs, w, a)) else ByteAt(fs, lo + [v] + hi, a)
  {
    var w := if JoinsNext(v, hi) then Merged(v, hi[0]) else v;
    var rest := if JoinsNext(v, hi) then hi[1..] else hi;
    if JoinsNext(v, hi) {
      assert lo + [v] + hi == lo + [v, hi[0]] + rest;
      AbsorbOrdered(lo, v, hi[0], rest);
      LookupAround(lo, [v, hi[0]], rest, a);
      assert [v, hi[0]] == [v] + [hi[0]];
      LookupConcat([v], [hi[0]], a);
      LookupOne(v, a);
      LookupOne(hi[0], a);
    }
    LookupAround(lo, [w], rest, a);
    LookupOne(w, a);
    if w.region.Has(a) { Amid(lo, w, rest, a); }
  }

  lemma JoinPreviousByte(fs: Files, lo: seq<Area>, w: Area, rest: seq<Area>, a: nat)
    requires Ordered(lo + [w] + rest) && JoinsPrevious(lo, w)
    ensures var m := Merged(lo[|lo| - 1], w);
      ByteAt(fs, lo[..|lo| - 1] + [m] + rest, a) ==
        if w.region.Has(a) then Some(Denoted(fs, m, a)) else ByteAt(fs, lo + [w] + rest, a)
  {
    var front, last := lo[..|lo| - 1], lo[|lo| - 1];
    var m := Merged(last, w);
    assert lo + [w] + rest == front + [last, w] + rest;
    AbsorbOrdered(front, last, w, rest);
    LookupAround(front, [last, w], rest, a);
    assert [last, w] == [last] + [w];
    LookupConcat([last], [w], a);
    LookupOne(last, a);
    LookupOne(w, a);
    LookupAround(front, [m], rest, a);
    LookupOne(m, a);
    if m.region.Has(a) { Amid(front, m, rest, a); }
  }

  /** Joining is safe when the mapping that survives agrees with the new area's own and
      with that of the next area it absorbs. */
  predicate JoinIsSafe(lo: seq<Area>, v: Area, hi: seq<Area>) {
    var m := Survivor(lo, v, hi);
    && m.region.start <= v.region.start && Agree(m, v, v.region)
    && (JoinsNext(v, hi) ==> Agree(m, hi[0], hi[0].region))
  }

  /** Joining keeps the bytes of the whole map if and only if it is safe. */
  lemma JoinedBytesIff(lo: seq<Area>, v: Area, hi: seq<Area>)
    requires Ordered(lo + [v] + hi)
    ensures SameBytes(Joined(lo, v, hi), lo + [v] + hi) <==> JoinIsSafe(lo, v, hi)
  {
    var all, m := lo + [v] + hi, Survivor(lo, v, hi);
    assert all[|lo|] == v && (hi != [] ==> all[|lo| + 1] == hi[0]);
    var fs0: Files := Spike(0, 0);
    JoinedByte(fs0, lo, v, hi, 0);
    AgreeIff(m, v, v.region);
    if JoinsNext(v, hi) { AgreeIff(m, hi[0], hi[0].region); }
    if JoinIsSafe(lo, v, hi) {
      forall fs: Files, a: nat ensures SameByte(fs, Joined(lo, v, hi), all, a) {
        JoinedByte(fs, lo, v, hi, a);
        if TakenOver(v, hi, a) { SafeJoinKeeps(fs, lo, v, hi, a); }
      }
    } else if !Agree(m, v, v.region) {
      var fs: Files, a: nat :| !ShowsAt(fs, m, v, v.region, a);
      JoinedByte(fs, lo, v, hi, a);
      LookupIs(all, |lo|, a);
      assert !SameByte(fs, Joined(lo, v, hi), all, a);
    } else {
      var fs: Files, a: nat :| !ShowsAt(fs, m, hi[0], hi[0].region, a);
      JoinedByte(fs, lo, v, hi, a);
      LookupIs(all, |lo| + 1, a);
      assert !SameByte(fs, Joined(lo, v, hi), all, a);
    }
  }

  lemma SafeJoinKeeps(fs: Files, lo: seq<Area>, v: Area, hi: seq<Area>, a: nat)
    requires Ordered(lo + [v] + hi) && JoinIsSafe(lo, v, hi) && TakenOver(v, hi, a)
    ensures ByteAt(fs, lo + [v] + hi, a) == Some(Denoted(fs, Survivor(lo, v, hi), a))
  {
    var all, m := lo + [v] + hi, Survivor(lo, v, hi);
    assert all[|lo|] == v && (hi != [] ==> all[|lo| + 1] == hi[0]);
    if v.region.Has(a) {
      AgreeShows(fs, m, v, v.region, a);
      LookupIs(all, |lo|, a);
    } else {
      AgreeShows(fs, m, hi[0], hi[0].region, a);
      LookupIs(all, |lo| + 1, a);
    }
  }

  // ------------------------------------------------------------------- insertion

  /** The areas below the new one and those above it, once its range is unmapped. */
  function BelowPart(vmas: seq<Area>, v: Area): seq<Area> {
    var u := Unmapped(vmas, v.region);
    u[..Below(u, v.region.start)]
  }

  function AbovePart(vmas: seq<Area>, v: Area): seq<Area> {
    var u := Unmapped(vmas, v.region);
    u[Below(u, v.region.start)..]
  }

  function InsertSurvivor(vmas: seq<Area>, v: Area): Area { Survivor(BelowPart(vmas, v), v, AbovePart(vmas, v)) }

  /** What insertion shows at an address. */
  lemma InsertedByte(fs: Files, vmas: seq<Area>, v: Area, a: nat)
    requires Ordered(vmas) && v.region.size > 0
    ensures InsertSurvivor(vmas, v).region.start <= v.region.start
    ensures ByteAt(fs, Inserted(vmas, v), a) ==
      if TakenOver(v, AbovePart(vmas, v), a) then Some(Denoted(fs, InsertSurvivor(vmas, v), a))
      else ByteAt(fs, Unmapped(vmas, v.region), a)
  {
    var u := Unmapped(vmas, v.region);
    var k := Below(u, v.region.start);
    PlaceFor(vmas, v);
    JoinedByte(fs, u[..k], v, u[k..], a);
    hide Joined, Survivor, Denoted, Unmapped, Below, Ordered;
    assert u == u[..k] + u[k..];
    LookupConcat(u[..k], u[k..], a);
    LookupAround(u[..k], [v], u[k..], a);
    LookupOne(v, a);
  }

  /** Insertion shows the new area in its range and what was there before elsewhere. */
  ghost predicate InsertKeepsBytes(vmas: seq<Area>, v: Area) {
    forall fs: Files, a: nat :: InsertKeepsAt(fs, vmas, v, a)
  }

  ghost predicate InsertKeepsAt(fs: Files, vmas: seq<Area>, v: Area, a: nat) {
    ByteAt(fs, Inserted(vmas, v), a) == if v.region.Has(a) then Some(Denoted(fs, v, a)) else ByteAt(fs, vmas, a)
  }

  /** When that is so: the survivor agrees with the new area; and if the next area is
      absorbed, it agrees there with what was there before, and otherwise every area that
      is cut is cut safely. */
  predicate InsertIsSafe(vmas: seq<Area>, v: Area) {
    var m, hi, end := InsertSurvivor(vmas, v), AbovePart(vmas, v), v.region.End();
    && m.region.start <= v.region.start && Agree(m, v, v.region)
    && if JoinsNext(v, hi) then
         var was := Lookup(vmas, end);
         was.Some? && was.value.region.start <= end && Agree(m, was.value, hi[0].region)
       else
         forall i | 0 <= i < |vmas| :: CutIsSafe(vmas[i], v.region)
  }

  /** An absorbed next area is what the cut has left of the area that was there. */
  lemma NextWas(vmas: seq<Area>, v: Area)
    requires Ordered(vmas) && v.region.size > 0 && JoinsNext(v, AbovePart(vmas, v))
    ensures var next, was := AbovePart(vmas, v)[0], Lookup(vmas, v.region.End());
      && was.Some? && was.value.region.Contains(next.region) && next.region.size > 0
      && next in Cut(was.value, v.region) && next.region.End() == was.value.region.End()
  {
    var u, end := Unmapped(vmas, v.region), v.region.End();
    var k := Below(u, v.region.start);
    UnmappedOrdered(vmas, v.region);
    assert u[k] == AbovePart(vmas, v)[0];
    LookupIs(u, k, end);
    UnmappedAt(vmas, v.region, end);
    LookupHas(vmas, end);
    var was := Lookup(vmas, end).value;
    CutOrdered(was, v.region);
    LookupHas(Cut(was, v.region), end);
  }

  /** Insertion keeps the bytes of the old map outside its range if and only if it is safe. */
  lemma InsertKeepsBytesIff(vmas: seq<Area>, v: Area)
    requires Ordered(vmas) && v.region.size > 0
    ensures InsertKeepsBytes(vmas, v) <==> InsertIsSafe(vmas, v)
  {
    var fs0: Files := Spike(0, 0);
    InsertedByte(fs0, vmas, v, 0);
    if InsertIsSafe(vmas, v) {
      forall fs: Files, a: nat ensures InsertKeepsAt(fs, vmas, v, a) { SafeInsertKeeps(fs, vmas, v, a); }
    } else {
      UnsafeInsertLoses(vmas, v);
    }
  }

  lemma SafeInsertKeeps(fs: Files, vmas: seq<Area>, v: Area, a: nat)
    requires Ordered(vmas) && v.region.size > 0 && InsertIsSafe(vmas, v)
    ensures InsertKeepsAt(fs, vmas, v, a)
  {
    var m, hi, end := InsertSurvivor(vmas, v), AbovePart(vmas, v), v.region.End();
    InsertedByte(fs, vmas, v, a);
    if v.region.Has(a) {
      AgreeShows(fs, m, v, v.region, a);
    } else if TakenOver(v, hi, a) {
      NextWas(vmas, v);
      AgreeShows(fs, m, Lookup(vmas, end).value, hi[0].region, a);
      SameArea(vmas, end, a);
    } else {
      OutsideKeeps(fs, vmas, v, a);
    }
  }

  lemma SameArea(vmas: seq<Area>, a: nat, b: nat)
    requires Ordered(vmas) && Lookup(vmas, a).Some? && Lookup(vmas, a).value.region.Has(b)
    ensures Lookup(vmas, b) == Lookup(vmas, a)
  {
    LookupHas(vmas, a);
    var i :| 0 <= i < |vmas| && vmas[i] == Lookup(vmas, a).value;
    LookupIs(vmas, i, b);
  }

  /** Outside what the survivor takes over: safely cut, or in front of the range. */
  lemma OutsideKeeps(fs: Files, vmas: seq<Area>, v: Area, a: nat)
    requires Ordered(vmas) && v.region.size > 0 && !TakenOver(v, AbovePart(vmas, v), a)
    requires JoinsNext(v, AbovePart(vmas, v)) || forall i | 0 <= i < |vmas| :: CutIsSafe(vmas[i], v.region)
    ensures ByteAt(fs, Unmapped(vmas, v.region), a) == ByteAt(fs, vmas, a)
  {
    LookupHas(vmas, a);
    if a < v.region.start {
      FrontKeeps(fs, vmas, v.region, a);
    } else {
      if JoinsNext(v, AbovePart(vmas, v)) && Lookup(vmas, a).Some? {
        NextWas(vmas, v);
        if Lookup(vmas, a).value.region.Has(v.region.End()) { SameArea(vmas, a, v.region.End()); }
        assert CutIsSafe(Lookup(vmas, a).value, v.region);
      }
      SafeCutKeeps(fs, vmas, v.region, a);
    }
  }

  /** Unmapping keeps every byte in front of the hole. */
  lemma FrontKeeps(fs: Files, vmas: seq<Area>, hole: Region, a: nat)
    requires Ordered(vmas) && hole.size > 0 && a < hole.start
    ensures ByteAt(fs, Unmapped(vmas, hole), a) == ByteAt(fs, vmas, a)
  {
    UnmappedAt(vmas, hole, a);
    LookupHas(vmas, a);
    if Lookup(vmas, a).Some? {
      var area := Lookup(vmas, a).value;
      assert Cut(area, hole)[0].region.Has(a) && Cut(area, hole)[0].kind == area.kind;
    }
  }

  lemma UnsafeInsertLoses(vmas: seq<Area>, v: Area)
    requires Ordered(vmas) && v.region.size > 0 && !InsertIsSafe(vmas, v)
    requires InsertSurvivor(vmas, v).region.start <= v.region.start
    ensures !InsertKeepsBytes(vmas, v)
  {
    var m, hi, end := InsertSurvivor(vmas, v), AbovePart(vmas, v), v.region.End();
    if JoinsNext(v, hi) { NextWas(vmas, v); }
    if !Agree(m, v, v.region) {
      AgreeIff(m, v, v.region);
      var fs: Files, a: nat :| !ShowsAt(fs, m, v, v.region, a);
      InsertedByte(fs, vmas, v, a);
      assert !InsertKeepsAt(fs, vmas, v, a);
    } else if JoinsNext(v, hi) && !Agree(m, Lookup(vmas, end).value, hi[0].region) {
      var was := Lookup(vmas, end).value;
      AgreeIff(m, was, hi[0].region);
      var fs: Files, a: nat :| !ShowsAt(fs, m, was, hi[0].region, a);
      InsertedByte(fs, vmas, v, a);
      SameArea(vmas, end, a);
      assert !InsertKeepsAt(fs, vmas, v, a);
    } else {
      var i :| 0 <= i < |vmas| && !CutIsSafe(vmas[i], v.region);
      var fs, a := UnsafeCutLoses(vmas, v.region, i);
      InsertedByte(fs, vmas, v, a);
      assert !InsertKeepsAt(fs, vmas, v, a);
    }
  }

  // ---------------------------------------------------------- several insertions

  /** Each area in turn is inserted safely. */
  predicate AllSafe(vmas: seq<Area>, news: seq<Area>)
    decreases |news|
  {
    news == [] || (InsertIsSafe(vmas, news[0]) && AllSafe(Inserted(vmas, news[0]), news[1..]))
  }

  /** The map has nothing where the new areas go. */
  ghost predicate Vacant(vmas: seq<Area>, news: seq<Area>) {
    forall a: nat | Lookup(news, a).Some? :: Lookup(vmas, a).None?
  }

  /** The new areas follow one another without gaps. */
  ghost predicate Adjacent(news: seq<Area>) {
    forall i | 0 < i < |news| :: news[i - 1].region.End() == news[i].region.start
  }

  /** The address shows the new area that has it, or else what the map showed. */
  ghost predicate Overlaid(fs: Files, after: seq<Area>, vmas: seq<Area>, news: seq<Area>, a: nat) {
    ByteAt(fs, after, a) == if Lookup(news, a).Some? then ByteAt(fs, news, a) else ByteAt(fs, vmas, a)
  }

  ghost predicate AllOverlaid(after: seq<Area>, vmas: seq<Area>, news: seq<Area>) {
    forall fs: Files, a: nat :: Overlaid(fs, after, vmas, news, a)
  }

  /** Insertion never changes a byte below its range. */
  lemma BelowKept(fs: Files, vmas: seq<Area>, v: Area, a: nat)
    requires Ordered(vmas) && v.region.size > 0 && a < v.region.start
    ensures ByteAt(fs, Inserted(vmas, v), a) == ByteAt(fs, vmas, a)
  {
    InsertedByte(fs, vmas, v, a);
    FrontKeeps(fs, vmas, v.region, a);
  }

  lemma {:induction false} AllBelowKept(fs: Files, vmas: seq<Area>, news: seq<Area>, a: nat)
    requires Ordered(vmas) && Ordered(news) && forall j | 0 <= j < |news| :: a < news[j].region.start
    ensures ByteAt(fs, InsertedAll(vmas, news), a) == ByteAt(fs, vmas, a)
    decreases |news|
  {
    if news != [] {
      OrderedSplit([news[0]], news[1..]);
      assert news == [news[0]] + news[1..];
      BelowKept(fs, vmas, news[0], a);
      InsertedPerms(vmas, news[0]);
      AllBelowKept(fs, Inserted(vmas, news[0]), news[1..], a);
    }
  }

  lemma VacantMisses(vmas: seq<Area>, v: Area, i: nat)
    requires Ordered(vmas) && v.region.size > 0 && i < |vmas|
    requires forall a: nat | v.region.Has(a) :: Lookup(vmas, a).None?
    ensures !vmas[i].region.Overlaps(v.region)
  {
    if vmas[i].region.Overlaps(v.region) {
      LookupIs(vmas, i, Max(vmas[i].region.start, v.region.start));
    }
  }

  /** In a vacant place with a vacant place behind it, insertion can go wrong only inside
      its own range. */
  lemma WrongOnlyInside(fs: Files, vmas: seq<Area>, v: Area, a: nat)
    requires Ordered(vmas) && v.region.size > 0 && !InsertKeepsAt(fs, vmas, v, a)
    requires forall b: nat | v.region.Has(b) :: Lookup(vmas, b).None?
    requires Lookup(vmas, v.region.End()).None?
    ensures v.region.Has(a)
  {
    forall i | 0 <= i < |vmas| ensures CutIsSafe(vmas[i], v.region) { VacantMisses(vmas, v, i); }
    if JoinsNext(v, AbovePart(vmas, v)) { NextWas(vmas, v); }
    InsertedByte(fs, vmas, v, a);
    LookupHas(vmas, a);
    if !v.region.Has(a) { SafeCutKeeps(fs, vmas, v.region, a); }
  }

  lemma VacantAfter(vmas: seq<Area>, news: seq<Area>)
    requires Ordered(vmas) && Ordered(news) && news != [] && Vacant(vmas, news)
    ensures Ordered(Inserted(vmas, news[0])) && Ordered(news[1..]) && Vacant(Inserted(vmas, news[0]), news[1..])
    ensures forall a: nat | news[0].region.Has(a) :: Lookup(news[1..], a).None? && Lookup(vmas, a).None?
  {
    hide Ordered;
    var v, rest := news[0], news[1..];
    RestOrdered(news);
    InsertedPerms(vmas, v);
    forall a: nat | Lookup(rest, a).Some? ensures Lookup(Inserted(vmas, v), a).None? && !v.region.Has(a) {
      RestApart(news, a);
      assert PermsAt(Inserted(vmas, v), a) == PermsAt(vmas, a);
    }
    forall a: nat | v.region.Has(a) ensures Lookup(vmas, a).None? { LookupIs(news, 0, a); }
  }

  lemma RestOrdered(news: seq<Area>)
    requires Ordered(news) && news != []
    ensures Ordered(news[1..]) && news[0].region.size > 0
  {
    assert news == [news[0]] + news[1..];
    OrderedSplit([news[0]], news[1..]);
  }

  lemma RestApart(news: seq<Area>, a: nat)
    requires Ordered(news) && news != [] && Lookup(news[1..], a).Some?
    ensures Lookup(news, a).Some? && !news[0].region.Has(a)
  {
    LookupHas(news[1..], a);
    var j :| 0 <= j < |news[1..]| && news[1..][j] == Lookup(news[1..], a).value;
    assert news[j + 1] == news[1..][j];
    LookupIs(news, j + 1, a);
  }

  /** A new area laid over a map, and the others over that, is all of them laid over it. */
  lemma OverlaidTwice(fs: Files, after: seq<Area>, vmas: seq<Area>, news: seq<Area>, a: nat)
    requires Ordered(vmas) && Ordered(news) && news != [] && Vacant(vmas, news)
    requires InsertKeepsAt(fs, vmas, news[0], a)
    ensures Overlaid(fs, after, Inserted(vmas, news[0]), news[1..], a) <==> Overlaid(fs, after, vmas, news, a)
  {
    VacantAfter(vmas, news);
    assert news == [news[0]] + news[1..];
    LookupConcat([news[0]], news[1..], a);
    LookupOne(news[0], a);
  }

  /** Inserting areas that follow one another into a vacant place shows exactly them there,
      and what was there before elsewhere, if and only if each is inserted safely. */
  lemma {:induction false} InsertedAllBytesIff(vmas: seq<Area>, news: seq<Area>)
    requires Ordered(vmas) && Ordered(news) && Adjacent(news) && Vacant(vmas, news)
    ensures AllOverlaid(InsertedAll(vmas, news), vmas, news) <==> AllSafe(vmas, news)
    decreases |news|
  {
    if news == [] {
      assert AllOverlaid(vmas, vmas, news);
    } else {
      var v, rest, after := news[0], news[1..], InsertedAll(vmas, news);
      VacantAfter(vmas, news);
      assert Adjacent(rest) by { assert forall i | 0 <= i < |rest| :: rest[i] == news[i + 1]; }
      InsertKeepsBytesIff(vmas, v);
      if InsertIsSafe(vmas, v) {
        InsertedAllBytesIff(Inserted(vmas, v), rest);
        OverlaidAll(after, vmas, news);
      } else {
        UnsafeStepLoses(vmas, news);
      }
    }
  }

  lemma OverlaidAll(after: seq<Area>, vmas: seq<Area>, news: seq<Area>)
    requires Ordered(vmas) && Ordered(news) && news != [] && Vacant(vmas, news) && InsertKeepsBytes(vmas, news[0])
    ensures AllOverlaid(after, Inserted(vmas, news[0]), news[1..]) <==> AllOverlaid(after, vmas, news)
  {
    var once, rest := Inserted(vmas, news[0]), news[1..];
    if AllOverlaid(after, once, rest) {
      forall fs: Files, a: nat ensures Overlaid(fs, after, vmas, news, a) {
        assert InsertKeepsAt(fs, vmas, news[0], a) && Overlaid(fs, after, once, rest, a);
        OverlaidTwice(fs, after, vmas, news, a);
      }
    }
    if AllOverlaid(after, vmas, news) {
      forall fs: Files, a: nat ensures Overlaid(fs, after, once, rest, a) {
        assert InsertKeepsAt(fs, vmas, news[0], a) && Overlaid(fs, after, vmas, news, a);
        OverlaidTwice(fs, after, vmas, news, a);
      }
    }
  }

  /** What an unsafe insertion gets wrong, no later one puts right. */
  lemma UnsafeStepLoses(vmas: seq<Area>, news: seq<Area>)
    requires Ordered(vmas) && Ordered(news) && Adjacent(news) && Vacant(vmas, news)
    requires news != [] && !InsertKeepsBytes(vmas, news[0])
    ensures !AllOverlaid(InsertedAll(vmas, news), vmas, news)
  {
    var v, rest, after := news[0], news[1..], InsertedAll(vmas, news);
    var fs: Files, a: nat :| !InsertKeepsAt(fs, vmas, v, a);
    VacantAfter(vmas, news);
    assert news == [v] + rest;
    LookupConcat([v], rest, a);
    LookupOne(v, a);
    if rest != [] {
      assert rest[0] == news[1] && news[0].region.End() == news[1].region.start;
      LookupIs(news, 1, v.region.End());
      WrongOnlyInside(fs, vmas, v, a);
      assert forall j | 0 <= j < |rest| :: rest[j] == news[j + 1];
      AllBelowKept(fs, Inserted(vmas, v), rest, a);
    }
    assert !Overlaid(fs, after, vmas, news, a);
  }

  // ---------------------------------------------------------- changes of permissions

  /** Replacing an area shows, piece by piece, what the area showed. */
  lemma ReplacementByte(fs: Files, area: Area, range: Region, perms: Perms, a: nat)
    requires area.region.Contains(range) && range.size > 0
    ensures Lookup(Replacement(area, range, perms), a).Some? <==> area.region.Has(a)
    ensures area.region.Has(a) ==> ByteAt(fs, Replacement(area, range, perms), a) == Some(Denoted(fs, area, a))
  {
    if area.region == range {
      LookupOne(area.(perms := perms), a);
    } else {
      PiecesByte(fs, area, range, perms, a);
    }
  }

  lemma PiecesByte(fs: Files, area: Area, range: Region, perms: Perms, a: nat)
    requires area.region.Contains(range) && range.size > 0
    ensures Lookup(Pieces(area, range, perms), a).Some? <==> area.region.Has(a)
    ensures area.region.Has(a) ==> ByteAt(fs, Pieces(area, range, perms), a) == Some(Denoted(fs, area, a))
  {
    var (left, right) := area.region.PunchHole(range);
    var lo := if left.Some? then [ShrinkTo(area, left.value)] else [];
    var hi := if right.Some? then [ShrinkTo(area, right.value)] else [];
    var mid := ShrinkTo(area, range).(perms := perms);
    LookupAround(lo, [mid], hi, a);
    LookupOne(mid, a);
    if left.Some? { LookupOne(ShrinkTo(area, left.value), a); }
    if right.Some? { LookupOne(ShrinkTo(area, right.value), a); }
    if range.Has(a) {
      ShrinkDenotes(fs, area, range, a);
    } else if left.Some? && left.value.Has(a) {
      ShrinkDenotes(fs, area, left.value, a);
    } else if right.Some? && right.value.Has(a) {
      ShrinkDenotes(fs, area, right.value, a);
    }
  }

  lemma ReplacementAdjacent(area: Area, range: Region, perms: Perms)
    requires area.region.Contains(range) && range.size > 0
    ensures Adjacent(Replacement(area, range, perms))
  {
    if area.region != range { PiecesCover(area, range, perms, 0); }
  }

  /** Taking an area out and laying its replacement over the rest shows the old map. */
  lemma ReplacedShowsOld(fs: Files, after: seq<Area>, vmas: seq<Area>, i: nat, range: Region, perms: Perms, a: nat)
    requires Ordered(vmas) && i < |vmas| && vmas[i].region.Contains(range) && range.size > 0
    ensures Overlaid(fs, after, Without(vmas, i), Replacement(vmas[i], range, perms), a) <==>
            SameByte(fs, after, vmas, a)
  {
    ReplacementByte(fs, vmas[i], range, perms, a);
    WithoutAt(vmas, i, a);
    if vmas[i].region.Has(a) { LookupIs(vmas, i, a); }
  }

  /** A change of permissions keeps every byte of the map if and only if each piece of the
      area it cuts up is put back safely, one after the other. */
  lemma MprotectBytesIff(vmas: seq<Area>, range: Region, perms: Perms)
    requires Ordered(vmas) && Mprotect(vmas, range, perms).1.Ok?
    ensures var i := IndexOf(vmas, range.start);
      && i < |vmas| && vmas[i].region.Contains(range)
      && (SameBytes(Mprotect(vmas, range, perms).0, vmas) <==>
            AllSafe(Without(vmas, i), Replacement(vmas[i], range, perms)))
  {
    var i := IndexOf(vmas, range.start);
    var base, news, after := Without(vmas, i), Replacement(vmas[i], range, perms), Mprotect(vmas, range, perms).0;
    WithoutPerms(vmas, i);
    ReplacementPerms(vmas[i], range, perms);
    ReplacementAdjacent(vmas[i], range, perms);
    forall a: nat | Lookup(news, a).Some? ensures Lookup(base, a).None? {
      ReplacementByte(Spike(0, 0), vmas[i], range, perms, a);
      WithoutAt(vmas, i, a);
    }
    InsertedAllBytesIff(base, news);
    if AllOverlaid(after, base, news) {
      forall fs: Files, a: nat ensures SameByte(fs, after, vmas, a) {
        assert Overlaid(fs, after, base, news, a);
        ReplacedShowsOld(fs, after, vmas, i, range, perms, a);
      }
    } else {
      var fs: Files, a: nat :| !Overlaid(fs, after, base, news, a);
      ReplacedShowsOld(fs, after, vmas, i, range, perms, a);
      assert !SameByte(fs, after, vmas, a);
    }
  }

  /** Inserting behind everything there is: a merger with the last area, or a new one. */
  lemma Append(vmas: seq<Area>, y: Area)
    requires vmas != [] && Ordered(vmas + [y]) && vmas[|vmas| - 1].region.End() == y.region.start
    ensures var x, front := vmas[|vmas| - 1], vmas[..|vmas| - 1];
      && Inserted(vmas, y) == (if CanMergeWith(x, y) then front + [Merged(x, y)] else vmas + [y])
      && (InsertIsSafe(vmas, y) <==>
            (CanMergeWith(x, y) ==> ReachIn(x, y.region) == ReachIn(y, y.region)))
  {
    AppendParts(vmas, y);
    assert Inserted(vmas, y) == Joined(vmas, y, []);
    hide Inserted, BelowPart, AbovePart, CutIsSafe, Ordered;
  }

  lemma AppendParts(vmas: seq<Area>, y: Area)
    requires Ordered(vmas + [y])
    ensures BelowPart(vmas, y) == vmas && AbovePart(vmas, y) == []
    ensures forall i | 0 <= i < |vmas| :: CutIsSafe(vmas[i], y.region)
    ensures forall i | 0 <= i < |vmas| :: vmas[i].region.start < y.region.start
    ensures Inserted(vmas, y) == Joined(vmas, y, [])
  {
    var all := vmas + [y];
    assert all[|vmas|] == y;
    assert forall i | 0 <= i < |vmas| :: all[i] == vmas[i];
    UnmappedApart(vmas, y.region);
    BelowAll(vmas, y.region.start);
    hide Ordered, Joined, CutIsSafe;
    assert vmas[..|vmas|] == vmas;
  }

  lemma {:induction false} UnmappedApart(vmas: seq<Area>, hole: Region)
    requires forall i | 0 <= i < |vmas| :: !vmas[i].region.Overlaps(hole)
    ensures Unmapped(vmas, hole) == vmas
  {
    if vmas != [] {
      assert forall i | 0 <= i < |vmas[1..]| :: vmas[1..][i] == vmas[i + 1];
      UnmappedApart(vmas[1..], hole);
    }
  }

  lemma {:induction false} BelowAll(vmas: seq<Area>, at: nat)
    requires forall i | 0 <= i < |vmas| :: vmas[i].region.start < at
    ensures Below(vmas, at) == |vmas|
  {
    if vmas != [] {
      assert forall i | 0 <= i < |vmas[1..]| :: vmas[1..][i] == vmas[i + 1];
      BelowAll(vmas[1..], at);
    }
  }

  lemma First(v: Area)
    ensures Inserted([], v) == [v] && InsertIsSafe([], v)
  {
  }

  /** File bytes lie behind the first place where the range cuts the area. */
  predicate CutsFileBytes(area: Area, range: Region) {
    area.kind.File? &&
    if area.region.start < range.start then range.start - area.region.start < area.kind.len
    else range.End() < area.region.End() && range.End() - area.region.start < area.kind.len
  }

  /** Giving part of a lone area the permissions it has already keeps its bytes if and only
      if the first cut has no file bytes behind it: the pieces merge again, under the
      mapping of the first. */
  lemma MprotectSamePermsIff(area: Area, range: Region)
    requires area.region.Contains(range) && range.size > 0 && range.start % PAGE_SIZE == 0
    ensures Mprotect([area], range, area.perms).1 == Ok(())
    ensures SameBytes(Mprotect([area], range, area.perms).0, [area]) <==> !CutsFileBytes(area, range)
  {
    assert Ordered([area]) && IndexOf([area], range.start) == 0 && Without([area], 0) == [];
    MprotectBytesIff([area], range, area.perms);
    if area.region == range {
      AllSafeOne(area);
    } else {
      PiecesSafeIff(area, range);
    }
  }

  lemma AllSafeOne(v: Area)
    ensures AllSafe([], [v])
  {
    First(v);
    assert [v][1..] == [];
  }

  lemma PiecesSafeIff(area: Area, range: Region)
    requires area.region.Contains(range) && range.size > 0 && area.region != range
    ensures AllSafe([], Pieces(area, range, area.perms)) <==> !CutsFileBytes(area, range)
  {
    hide AllSafe, InsertIsSafe, Inserted, Pieces;
    var pieces := Pieces(area, range, area.perms);
    PiecesPerms(area, range, area.perms);
    PiecesCover(area, range, area.perms, 0);
    FirstCut(area, range);
    AllSafeUnfold(pieces);
    Append([pieces[0]], pieces[1]);
    if !CutsFileBytes(area, range) {
      if |pieces| == 3 {
        LastPieceSafe(area, range, pieces);
      } else {
        AllSafeEmpty(Inserted([pieces[0]], pieces[1]), pieces[2..]);
      }
    }
  }

  lemma AllSafeEmpty(vmas: seq<Area>, news: seq<Area>)
    requires news == []
    ensures AllSafe(vmas, news)
  {
  }

  lemma AllSafeLast(vmas: seq<Area>, y: Area)
    ensures AllSafe(vmas, [y]) <==> InsertIsSafe(vmas, y)
  {
    AllSafeEmpty(Inserted(vmas, y), [y][1..]);
  }

  lemma AllSafeUnfold(pieces: seq<Area>)
    requires |pieces| >= 2 && Ordered(pieces)
    ensures AllSafe([], pieces) <==>
      InsertIsSafe([pieces[0]], pieces[1]) && AllSafe(Inserted([pieces[0]], pieces[1]), pieces[2..])
    ensures Ordered([pieces[0]] + [pieces[1]])
  {
    hide Inserted, InsertIsSafe;
    First(pieces[0]);
    assert pieces[1..][1..] == pieces[2..] && pieces == [pieces[0]] + [pieces[1]] + pieces[2..];
    OrderedSplit([pieces[0]] + [pieces[1]], pieces[2..]);
  }

  /** The first two pieces merge again unsafely exactly if the cut between them has file
      bytes behind it. */
  lemma FirstCut(area: Area, range: Region)
    requires area.region.Contains(range) && range.size > 0 && area.region != range
    ensures var pieces := Pieces(area, range, area.perms);
      && 2 <= |pieces| <= 3 && pieces[0].region.start <= pieces[1].region.start
      && ((CanMergeWith(pieces[0], pieces[1]) ==>
             ReachIn(pieces[0], pieces[1].region) == ReachIn(pieces[1], pieces[1].region))
          <==> !CutsFileBytes(area, range))
  {
  }

  lemma LastPieceSafe(area: Area, range: Region, pieces: seq<Area>)
    requires area.region.Contains(range) && range.size > 0 && !CutsFileBytes(area, range)
    requires pieces == Pieces(area, range, area.perms) && |pieces| == 3 && Ordered(pieces)
    requires pieces[0].region.End() == pieces[1].region.start && pieces[1].region.End() == pieces[2].region.start
    requires Inserted([pieces[0]], pieces[1]) ==
      if CanMergeWith(pieces[0], pieces[1]) then [] + [Merged(pieces[0], pieces[1])] else [pieces[0]] + [pieces[1]]
    ensures AllSafe(Inserted([pieces[0]], pieces[1]), pieces[2..])
  {
    var x, y, z := pieces[0], pieces[1], pieces[2];
    var twice := Inserted([x], y);
    assert pieces[2..] == [z] && [z][1..] == [];
    assert y.kind.Anon? && z.kind.Anon?;
    AllSafeLast(twice, z);
    hide AllSafe, InsertIsSafe, Inserted;
    assert [x, y] + [z] == pieces;
    if CanMergeWith(x, y) {
      assert Ordered([Merged(x, y)] + [z]);
    }
    Append(twice, z);
  }

  /** A whole area given its neighbour's permissions: it merges with the neighbour, whose
      mapping ends where it began, and reads as zeros. */
  lemma MprotectJoinExample(fs: Files, p: Perms, q: Perms, k: nat)
    requires p != q && k < PAGE_SIZE
    ensures var x := Area(Region(0, PAGE_SIZE), File(0, 0, PAGE_SIZE), p);
      var y := Area(Region(PAGE_SIZE, PAGE_SIZE), File(0, PAGE_SIZE, PAGE_SIZE), q);
      var (after, r) := Mprotect([x, y], y.region, p);
      && r == Ok(()) && after == [Merged(x, y)]
      && ByteAt(fs, [x, y], PAGE_SIZE + k) == Some(FileByte(fs, 0, PAGE_SIZE + k))
      && ByteAt(fs, after, PAGE_SIZE + k) == Some(0)
  {
    var x := Area(Region(0, PAGE_SIZE), File(0, 0, PAGE_SIZE), p);
    var y := Area(Region(PAGE_SIZE, PAGE_SIZE), File(0, PAGE_SIZE, PAGE_SIZE), q);
    var z := y.(perms := p);
    assert [x, y] == [x] + [y] && Without([x, y], 1) == [x] && [x, y][1..] == [y];
    assert IndexOf([x, y], PAGE_SIZE) == 1 by { assert IndexOf([y], PAGE_SIZE) == 0; }
    Append([x], z);
    InsertedOne([x], z);
    LookupConcat([x], [y], PAGE_SIZE + k);
    LookupOne(x, PAGE_SIZE + k);
    LookupOne(y, PAGE_SIZE + k);
    LookupOne(Merged(x, y), PAGE_SIZE + k);
  }

  lemma InsertedOne(vmas: seq<Area>, v: Area)
    ensures InsertedAll(vmas, [v]) == Inserted(vmas, v)
  {
    assert [v][1..] == [];
  }
}
