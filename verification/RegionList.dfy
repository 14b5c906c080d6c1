/** The boot allocator's region list: a fixed buffer of regions kept separated by
    merging on insertion. */
module RegionLists {
  import opened Regions

  class RegionList {
    const regions: array<Region>
    var count: nat

    ghost predicate Valid()
      reads this, regions
    {
      count <= regions.Length && Separated(Contents())
    }

    ghost function Contents(): seq<Region>
      reads this, regions
      requires count <= regions.Length
    {
      regions[..count]
    }

    /** An empty list over the given buffer. */
    constructor (buffer: array<Region>)
      ensures Valid() && regions == buffer && Contents() == []
    {
      regions, count := buffer, 0;
    }

    /** Closes the gap at `index`; an index past the end changes nothing. */
    method RemoveAt(index: nat)
      requires count <= regions.Length
      modifies this`count, regions
      ensures count <= regions.Length
      ensures Contents() == old(if index < count then Contents()[..index] + Contents()[index + 1..] else Contents())
    {
      if index >= count {
        return;
      }
      forall i | index <= i < count - 1 {
        regions[i] := regions[i + 1];
      }
      count := count - 1;
    }

    /** Adds a region, merging it with every region it overlaps or touches.  The list
        then denotes exactly the union, still separated. */
    method InsertRegion(region: Region)
      requires Valid() && count < regions.Length
      modifies this`count, regions
      ensures Valid() && count <= old(count) + 1
      ensures forall a :: Covers(Contents(), a) <==> old(Covers(Contents(), a)) || region.Has(a)
      ensures old(NonEmpty(Contents())) && region.size > 0 ==> NonEmpty(Contents())
    {
      var merged := AbsorbNeighbours(region);
      PlaceApart(merged);
    }

    /** Takes out every region that overlaps or touches the new one, growing it, until
        none does. */
    method AbsorbNeighbours(region: Region) returns (merged: Region)
      requires Valid()
      modifies this`count, regions
      ensures Valid() && count <= old(count)
      ensures forall a :: Covers(Contents(), a) || merged.Has(a) <==> old(Covers(Contents(), a)) || region.Has(a)
      ensures forall i | 0 <= i < count :: regions[i].Merge(merged).None?
      ensures old(NonEmpty(Contents())) && region.size > 0 ==> NonEmpty(Contents()) && merged.size > 0
    {
      merged := region;
      var i := 0;
      while i < count
        invariant Valid() && i <= count <= old(count)
        invariant forall a :: Covers(Contents(), a) || merged.Has(a) <==> old(Covers(Contents(), a)) || region.Has(a)
        invariant forall j | 0 <= j < i :: regions[j].Merge(merged).None?
        invariant old(NonEmpty(Contents())) && region.size > 0 ==> NonEmpty(Contents()) && merged.size > 0
        decreases count, count - i
      {
        var m := regions[i].Merge(merged);
        if m.Some? {
          ghost var before, was := Contents(), merged;
          merged := m.value;
          RemoveAt(i);
          CoversWithout(before, i);
          SeparatedWithout(before, i);
          i := 0;
        } else {
          i := i + 1;
        }
      }
    }

    /** Inserts a region that touches no other in its place. */
    method PlaceApart(region: Region)
      requires Valid() && count < regions.Length
      requires forall i | 0 <= i < count :: regions[i].Merge(region).None?
      modifies this`count, regions
      ensures Valid() && count == old(count) + 1
      ensures forall a :: Covers(Contents(), a) <==> old(Covers(Contents(), a)) || region.Has(a)
      ensures old(NonEmpty(Contents())) && region.size > 0 ==> NonEmpty(Contents())
    {
      hide Covers, Separated, NonEmpty;
      ghost var before := Contents();
      var at := 0;
      while at < count && regions[at].start <= region.start
        invariant 0 <= at <= count
        invariant forall j | 0 <= j < at :: regions[j].start <= region.start
      {
        at := at + 1;
      }
      forall i | at < i <= count {
        regions[i] := regions[i - 1];
      }
      count := count + 1;
      regions[at] := region;
      assert Contents() == before[..at] + [region] + before[at..];
      PlacedApart(before, at, region);
    }
  }

  lemma CoversWithout(rs: seq<Region>, i: nat)
    requires i < |rs|
    ensures forall a :: Covers(rs, a) <==> rs[i].Has(a) || Covers(rs[..i] + rs[i + 1..], a)
  {
    var qs := rs[..i] + rs[i + 1..];
    forall a ensures Covers(rs, a) <==> rs[i].Has(a) || Covers(qs, a) {
      if j :| 0 <= j < |rs| && rs[j].Has(a) {
        if j < i { assert qs[j].Has(a); }
        if j > i { assert qs[j - 1].Has(a); }
      }
      if j :| 0 <= j < |qs| && qs[j].Has(a) {
        assert rs[if j < i then j else j + 1].Has(a);
      }
    }
  }

  lemma SeparatedWithout(rs: seq<Region>, i: nat)
    requires i < |rs| && Separated(rs)
    ensures Separated(rs[..i] + rs[i + 1..])
    ensures NonEmpty(rs) ==> NonEmpty(rs[..i] + rs[i + 1..])
  {
    var qs := rs[..i] + rs[i + 1..];
    assert forall j | 0 <= j < |qs| :: qs[j] == rs[if j < i then j else j + 1];
  }

  lemma PlacedApart(rs: seq<Region>, at: nat, r: Region)
    requires Separated(rs) && at <= |rs|
    requires forall i | 0 <= i < |rs| :: rs[i].Merge(r).None?
    requires forall i | 0 <= i < at :: rs[i].start <= r.start
    requires at < |rs| ==> r.start < rs[at].start
    ensures var qs := rs[..at] + [r] + rs[at..];
      && Separated(qs) && (NonEmpty(rs) && r.size > 0 ==> NonEmpty(qs))
      && (forall a :: Covers(qs, a) <==> Covers(rs, a) || r.Has(a))
  {
    var qs := rs[..at] + [r] + rs[at..];
    assert qs[..at] + qs[at + 1..] == rs;
    CoversWithout(qs, at);
    PlacedInOrder(rs, at, r, qs);
  }

  lemma PlacedInOrder(rs: seq<Region>, at: nat, r: Region, qs: seq<Region>)
    requires Separated(rs) && at <= |rs| && qs == rs[..at] + [r] + rs[at..]
    requires forall i | 0 <= i < |rs| :: rs[i].End() < r.start || r.End() < rs[i].start
    requires forall i | 0 <= i < at :: rs[i].start <= r.start
    requires at < |rs| ==> r.start < rs[at].start
    ensures Separated(qs) && (NonEmpty(rs) && r.size > 0 ==> NonEmpty(qs))
  {
    forall i, j | 0 <= i < j < |qs|
      ensures qs[i].End() < qs[j].start
    {
      if j < at {
        assert qs[i] == rs[i] && qs[j] == rs[j];
      } else if j == at {
        assert qs[i] == rs[i];
      } else if i < at {
        assert qs[i] == rs[i] && qs[j] == rs[j - 1];
      } else if i == at {
        assert qs[j] == rs[j - 1];
        assert at < j - 1 ==> rs[at].End() < rs[j - 1].start;
      } else {
        assert qs[i] == rs[i - 1] && qs[j] == rs[j - 1];
      }
    }
    assert forall i | 0 <= i < |qs| && i != at :: qs[i] == rs[if i < at then i else i - 1];
  }
}
