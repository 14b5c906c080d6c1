/** The memory map in place: one list of areas that the methods reassign. */
module MapInPlace {
  import opened Common
  import opened Regions
  import opened Vma
  import opened MemoryMaps
  import opened MapAreas
  import opened MapBytes

  class MemoryMap {
    var vmas: seq<Area>

    constructor ()
      ensures vmas == [] && Ordered(vmas)
    {
      vmas := [];
    }

    /** Cuts every area the range meets; what is left has the permissions it had, nothing
        of the range is left, and which byte every other address shows is read off the area
        it was in. */
    method UnmapRegion(range: Region)
      requires Ordered(vmas) && range.size > 0
      modifies this
      ensures Ordered(vmas) && vmas == Unmapped(old(vmas), range)
      ensures forall a: nat :: PermsAt(vmas, a) == if range.Has(a) then None else PermsAt(old(vmas), a)
      ensures forall fs: Files, a: nat :: UnmapShows(fs, old(vmas), vmas, range, a)
    {
      hide Cut, Ordered, PermsAt, UnmapShows;
      var left: seq<Area> := [];
      for i := 0 to |vmas|
        invariant vmas == old(vmas) && left + Unmapped(vmas[i..], range) == Unmapped(vmas, range)
      {
        var pieces := Cut(vmas[i], range);
        assert vmas[i..][1..] == vmas[i + 1..];
        assert left + (pieces + Unmapped(vmas[i + 1..], range)) == left + pieces + Unmapped(vmas[i + 1..], range);
        left := left + pieces;
      }
      assert vmas[|vmas|..] == [] && left + [] == left;
      vmas := left;
      UnmappedOrdered(old(vmas), range);
      forall a: nat ensures PermsAt(vmas, a) == if range.Has(a) then None else PermsAt(old(vmas), a) {
        UnmappedAt(old(vmas), range, a);
      }
      forall fs: Files, a: nat ensures UnmapShows(fs, old(vmas), vmas, range, a) {
        UnmappedByte(fs, old(vmas), range, a);
      }
    }

    /** Puts an area in, over whatever was there, and merges it with its neighbours: the
        permissions of exactly its range change. */
    method InsertAndMerge(v: Area)
      requires Ordered(vmas) && v.region.size > 0
      modifies this
      ensures Ordered(vmas) && vmas == Inserted(old(vmas), v)
      ensures forall a: nat :: InsertShows(old(vmas), v, vmas, a)
      ensures InsertKeepsBytes(old(vmas), v) <==> InsertIsSafe(old(vmas), v)
      ensures forall a: nat :: PermsAt(vmas, a) == if v.region.Has(a) then Some(v.perms) else PermsAt(old(vmas), a)
    {
      hide InsertKeepsBytes, InsertIsSafe, UnmapShows, InsertShows;
      InsertedPerms(vmas, v);
      forall a: nat ensures InsertShows(vmas, v, Inserted(vmas, v), a) { InsertedArea(vmas, v, a); }
      InsertKeepsBytesIff(vmas, v);
      UnmapRegion(v.region);
      var k := Below(vmas, v.region.start);
      var lo, hi := vmas[..k], vmas[k..];
      var area := v;
      if JoinsNext(area, hi) {
        area := Merged(area, hi[0]);
        hi := hi[1..];
      }
      if JoinsPrevious(lo, area) {
        vmas := lo[..|lo| - 1] + [Merged(lo[|lo| - 1], area)] + hi;
      } else {
        vmas := lo + [area] + hi;
      }
    }

    /** Changes the permissions of exactly the range, if one area holds it all.  When none
        does, the area of the first address has been taken out and is not put back. */
    method ProtectRange(range: Region, perms: Perms) returns (r: Result<()>)
      requires Ordered(vmas)
      modifies this
      ensures Ordered(vmas) && (vmas, r) == Mprotect(old(vmas), range, perms)
      ensures r.Ok? ==> forall a: nat :: PermsAt(vmas, a) == if range.Has(a) then Some(perms) else PermsAt(old(vmas), a)
      ensures r.Ok? ==>
        var i := IndexOf(old(vmas), range.start);
        && i < |old(vmas)| && old(vmas)[i].region.Contains(range)
        && (SameBytes(vmas, old(vmas)) <==> AllSafe(Without(old(vmas), i), Replacement(old(vmas)[i], range, perms)))
      ensures r.Err? ==> (vmas == old(vmas) <==> r == Err(InvalidValue) || Lookup(old(vmas), range.start).None?)
    {
      hide Mprotect, SameBytes, AllSafe, PermsAt, Ordered;
      r := ReplaceRange(range, perms);
      MprotectPerms(old(vmas), range, perms);
      MprotectOutcome(old(vmas), range, perms);
    }

    method ReplaceRange(range: Region, perms: Perms) returns (r: Result<()>)
      requires Ordered(vmas)
      modifies this
      ensures Ordered(vmas) && (vmas, r) == Mprotect(old(vmas), range, perms)
    {
      if range.start % PAGE_SIZE != 0 || range.size == 0 {
        return Err(InvalidValue);
      }
      var i := IndexOf(vmas, range.start);
      if i == |vmas| {
        return Err(NoMemory);
      }
      var area := vmas[i];
      WithoutPerms(vmas, i);
      vmas := vmas[..i] + vmas[i + 1..];
      if !area.region.Contains(range) {
        return Err(NoMemory);
      }
      hide Ordered, InsertedAll, Replacement, PermsAt;
      InsertAll(Replacement(area, range, perms));
      return Ok(());
    }

    method InsertAll(news: seq<Area>)
      requires Ordered(vmas) && forall i | 0 <= i < |news| :: news[i].region.size > 0
      modifies this
      ensures Ordered(vmas) && vmas == InsertedAll(old(vmas), news)
    {
      for i := 0 to |news|
        invariant Ordered(vmas) && InsertedAll(vmas, news[i..]) == InsertedAll(old(vmas), news)
      {
        assert news[i..][1..] == news[i + 1..];
        InsertAndMerge(news[i]);
      }
      assert news[|news|..] == [];
    }
  }

  /** When a change of permissions keeps the bytes, and when a failed one keeps the map. */
  lemma MprotectOutcome(vmas: seq<Area>, range: Region, perms: Perms)
    requires Ordered(vmas)
    ensures var (after, r) := Mprotect(vmas, range, perms);
      && (r.Ok? ==>
            var i := IndexOf(vmas, range.start);
            && i < |vmas| && vmas[i].region.Contains(range)
            && (SameBytes(after, vmas) <==> AllSafe(Without(vmas, i), Replacement(vmas[i], range, perms))))
      && (r.Err? ==> (after == vmas <==> r == Err(InvalidValue) || Lookup(vmas, range.start).None?))
  {
    hide SameBytes, AllSafe, Replacement;
    LookupHas(vmas, range.start);
    if Mprotect(vmas, range, perms).1.Ok? { MprotectBytesIff(vmas, range, perms); }
  }
}
