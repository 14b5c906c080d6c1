/** The boot allocator: first-fit allocation of memory minus reservations, and
    freeing as interval difference.  Growing a full list is refused. */
module Smalloc {
  import opened Common
  import opened PowersOfTwo
  import opened Regions
  import opened RegionLists

  ghost predicate IsPow2(n: nat) { exists k: nat :: n == Pow2(k) }

  function AlignUp(a: nat, align: nat): nat
    requires align > 0
  {
    (a + align - 1) / align * align
  }

  /** `AlignUp` is the least multiple of `align` not below `a`. */
  lemma AlignUpIsLeast(a: nat, align: nat)
    requires align > 0
    ensures AlignUp(a, align) >= a && AlignUp(a, align) % align == 0
    ensures forall y: nat | y % align == 0 && a <= y :: AlignUp(a, align) <= y
  {
    var q := (a + align - 1) / align;
    Quotient(a + align - 1, align);
    ModUnique(q * align, align, q, 0);
    forall y: nat | y % align == 0 && a <= y
      ensures q * align <= y
    {
      Quotient(y, align);
      NextMultiple(a, align, q, y / align);
    }
  }

  /** On powers of two, adding `align - 1` and masking the low bits is `AlignUp`. */
  lemma MaskingAlignsUp(a: nat, k: nat)
    ensures ClearLow(a + Pow2(k) - 1, k) == AlignUp(a, Pow2(k))
  {
    ClearLowRoundsDown(a + Pow2(k) - 1, k);
  }

  lemma Quotient(b: nat, m: nat)
    requires m > 0
    ensures b - m < b / m * m <= b
    ensures b % m == 0 ==> b / m * m == b
  {
    assert b == b / m * m + b % m;
  }

  lemma NextMultiple(a: nat, m: nat, q: nat, h: nat)
    requires m > 0 && q * m <= a + m - 1 && a <= h * m
    ensures q * m <= h * m
  {
    if h < q { MulApart(m, h, q); }
  }

  /** [x, x + size) is aligned, lies in a memory region and overlaps no reservation. */
  ghost predicate Fits(mem: seq<Region>, res: seq<Region>, size: nat, align: nat, x: nat)
    requires align > 0
  {
    && x % align == 0
    && (exists i :: 0 <= i < |mem| && mem[i].Contains(Region(x, size)))
    && (forall k | 0 <= k < |res| :: !Region(x, size).Overlaps(res[k]))
  }

  /** A window inside separated memory lies in one region of it. */
  lemma WindowInOneRegion(mem: seq<Region>, x: nat, size: nat) returns (i: nat)
    requires Separated(mem) && size > 0
    requires forall a | x <= a < x + size :: Covers(mem, a)
    ensures i < |mem| && mem[i].Contains(Region(x, size))
  {
    assert Covers(mem, x);
    i :| 0 <= i < |mem| && mem[i].Has(x);
    assert !Covers(mem, mem[i].End());
  }

  /** For a non-empty window and non-empty regions, fitting is a matter of addresses: all
      of them in memory and none reserved. */
  lemma FitsIsAddresses(mem: seq<Region>, res: seq<Region>, size: nat, align: nat, x: nat)
    requires Separated(mem) && NonEmpty(res) && size > 0 && align > 0
    ensures Fits(mem, res, size, align, x) <==>
      x % align == 0 && forall a | x <= a < x + size :: Covers(mem, a) && !Covers(res, a)
  {
    var w := Region(x, size);
    if Fits(mem, res, size, align, x) {
      var i :| 0 <= i < |mem| && mem[i].Contains(w);
      forall a | x <= a < x + size ensures Covers(mem, a) && !Covers(res, a) { assert mem[i].Has(a); }
    }
    if forall a | x <= a < x + size :: Covers(mem, a) && !Covers(res, a) {
      var i := WindowInOneRegion(mem, x, size);
      forall k | 0 <= k < |res| ensures !w.Overlaps(res[k]) {
        var a := if x <= res[k].start then res[k].start else x;
        assert res[k].Has(a) ==> Covers(res, a);
      }
    }
  }

  class Allocator {
    const memory: RegionList
    const res: RegionList

    ghost predicate Valid()
      reads this, memory, memory.regions, res, res.regions
    {
      && memory.Valid() && res.Valid() && memory != res && memory.regions != res.regions
      && res.regions.Length >= 1
    }

    constructor (memory: RegionList, reserved: RegionList)
      requires memory.Valid() && reserved.Valid()
      requires memory != reserved && memory.regions != reserved.regions && reserved.regions.Length >= 1
      ensures Valid() && this.memory == memory && this.res == reserved
    {
      this.memory, this.res := memory, reserved;
    }

    /** A split may need one extra slot, so the last one is kept back. */
    predicate RequiresReallocation()
      reads res
    {
      res.count >= res.regions.Length - 1
    }

    /** First fit: the lowest aligned window of memory that meets no reservation, or
        nothing when there is none.  The reservation cursor never moves back. */
    method FindAllocationLocation(size: nat, align: nat) returns (r: Option<nat>)
      requires Valid() && align > 0 && IsPow2(align)
      ensures r.Some? ==> Fits(memory.Contents(), res.Contents(), size, align, r.value)
      ensures r.Some? ==> forall y: nat | Fits(memory.Contents(), res.Contents(), size, align, y) :: r.value <= y
      ensures r.None? ==> forall y: nat :: !Fits(memory.Contents(), res.Contents(), size, align, y)
    {
      ghost var ms, rs := memory.Contents(), res.Contents();
      var resIdx := 0;
      for i := 0 to memory.count
        invariant 0 <= resIdx <= res.count
        invariant forall j | 0 <= j < resIdx && i < |ms| :: rs[j].End() <= ms[i].start
        invariant forall y: nat | Fits(ms, rs, size, align, y) ::
          exists k :: i <= k < |ms| && ms[k].Contains(Region(y, size))
      {
        var found;
        found, resIdx := SearchRegion(i, resIdx, size, align);
        if found.Some? {
          return found;
        }
      }
      return None;
    }

    /** First fit within memory region `i`. */
    method SearchRegion(i: nat, cursor: nat, size: nat, align: nat) returns (r: Option<nat>, resIdx: nat)
      requires Valid() && align > 0 && i < memory.count && cursor <= res.count
      requires forall j | 0 <= j < cursor :: res.regions[j].End() <= memory.regions[i].start
      ensures cursor <= resIdx <= res.count
      ensures forall j | 0 <= j < resIdx :: res.regions[j].End() <= memory.regions[i].End()
      ensures r.Some? ==> Fits(memory.Contents(), res.Contents(), size, align, r.value)
      ensures forall y: nat | Fits(memory.Contents(), res.Contents(), size, align, y)
                && memory.regions[i].Contains(Region(y, size)) :: r.Some? && r.value <= y
      ensures r.Some? ==> memory.regions[i].Contains(Region(r.value, size))
    {
      ghost var ms, rs := memory.Contents(), res.Contents();
      var region := memory.regions[i];
      AlignUpIsLeast(region.start, align);
      var candidate := Region(AlignUp(region.start, align), size);
      resIdx := cursor;
      while region.Contains(candidate)
        invariant candidate.size == size && candidate.start % align == 0 && region.start <= candidate.start
        invariant cursor <= resIdx <= res.count
        invariant forall j | 0 <= j < resIdx :: rs[j].End() <= candidate.start && rs[j].End() <= region.End()
        invariant forall y: nat | Fits(ms, rs, size, align, y) && region.Contains(Region(y, size)) ::
          candidate.start <= y
        decreases region.End() - candidate.start
      {
        while resIdx < res.count && res.regions[resIdx].End() <= candidate.start
          invariant cursor <= resIdx <= res.count
          invariant forall j | 0 <= j < resIdx :: rs[j].End() <= candidate.start && rs[j].End() <= region.End()
        {
          resIdx := resIdx + 1;
        }
        if resIdx < res.count && candidate.Overlaps(res.regions[resIdx]) {
          var past := res.regions[resIdx].End();
          AlignUpIsLeast(past, align);
          NoFitBefore(ms, rs, size, align, resIdx, candidate.start);
          candidate := Region(AlignUp(past, align), size);
        } else {
          FitsHere(ms, rs, i, resIdx, align, candidate);
          return Some(candidate.start), resIdx;
        }
      }
      return None, resIdx;
    }

    /** Reserves the first fit.  Refused, with nothing changed, when the list has no slot
        to spare or nothing fits. */
    method Alloc(size: nat, align: nat) returns (r: Result<nat>)
      requires Valid() && align > 0 && IsPow2(align)
      modifies res, res.regions
      ensures Valid() && memory.Contents() == old(memory.Contents())
      ensures r.Err? ==> r.error == NoMemory && res.Contents() == old(res.Contents())
      ensures r.Err? <==> old(res.count) + 1 >= res.regions.Length ||
                          forall y: nat :: !Fits(old(memory.Contents()), old(res.Contents()), size, align, y)
      ensures r.Ok? ==> Fits(old(memory.Contents()), old(res.Contents()), size, align, r.value)
      ensures r.Ok? ==>
        forall y: nat | Fits(old(memory.Contents()), old(res.Contents()), size, align, y) :: r.value <= y
      ensures r.Ok? ==> forall a :: Covers(res.Contents(), a) <==>
                          old(Covers(res.Contents(), a)) || r.value <= a < r.value + size
      ensures size > 0 && old(NonEmpty(res.Contents())) ==> NonEmpty(res.Contents())
    {
      if RequiresReallocation() {
        return Err(NoMemory);
      }
      var location := FindAllocationLocation(size, align);
      if location.None? {
        return Err(NoMemory);
      }
      res.InsertRegion(Region(location.value, size));
      return Ok(location.value);
    }

    /** The first reservation that contains the region, if any. */
    method FindReservation(region: Region) returns (index: Option<nat>)
      requires Valid()
      ensures index.Some? ==> index.value < res.count && res.regions[index.value].Contains(region)
      ensures index.None? ==> forall i | 0 <= i < res.count :: !res.regions[i].Contains(region)
    {
      for i := 0 to res.count
        invariant forall j | 0 <= j < i :: !res.regions[j].Contains(region)
      {
        if res.regions[i].Contains(region) {
          return Some(i);
        }
      }
      return None;
    }

    /** Gives back part of one reservation: what remains reserved is exactly the
        difference.  Refused, with nothing changed, when no single reservation contains
        the block or the list has no slot to spare. */
    method Free(addr: nat, size: nat) returns (r: Result<()>)
      requires Valid()
      modifies res, res.regions
      ensures Valid() && memory.Contents() == old(memory.Contents())
      ensures r.Err? ==> r.error in {NoMemRegion, NoMemory} && res.Contents() == old(res.Contents())
      ensures r == Err(NoMemRegion) <==>
        forall i | 0 <= i < old(res.count) :: !old(res.Contents())[i].Contains(Region(addr, size))
      ensures r == Err(NoMemory) <==>
        && old(res.count) + 1 >= res.regions.Length
        && exists i :: 0 <= i < old(res.count) && old(res.Contents())[i].Contains(Region(addr, size))
      ensures r.Ok? ==> forall a :: Covers(res.Contents(), a) <==>
                          old(Covers(res.Contents(), a)) && !(addr <= a < addr + size)
      ensures old(NonEmpty(res.Contents())) ==> NonEmpty(res.Contents())
    {
      var index := FindReservation(Region(addr, size));
      if index.None? {
        return Err(NoMemRegion);
      }
      if RequiresReallocation() {
        assert res.Contents()[index.value].Contains(Region(addr, size));
        return Err(NoMemory);
      }
      assert res.Contents()[index.value].Contains(Region(addr, size));
      CutReservation(index.value, addr, size);
      return Ok(());
    }

    method CutReservation(index: nat, addr: nat, size: nat)
      requires Valid() && index < res.count && res.regions[index].Contains(Region(addr, size))
      requires res.count + 1 < res.regions.Length
      modifies res, res.regions
      ensures Valid() && memory.Contents() == old(memory.Contents())
      ensures forall a :: Covers(res.Contents(), a) <==> old(Covers(res.Contents(), a)) && !(addr <= a < addr + size)
      ensures old(NonEmpty(res.Contents())) ==> NonEmpty(res.Contents())
    {
      ghost var before := res.Contents();
      var whole := res.regions[index];
      CoversWithout(before, index);
      SeparatedWithout(before, index);
      NeighboursMiss(before, index);
      res.RemoveAt(index);
      if addr > whole.start {
        res.InsertRegion(FromTo(whole.start, addr));
      }
      if addr + size < whole.End() {
        res.InsertRegion(FromTo(addr + size, whole.End()));
      }
    }

    /** Freeing what was just allocated puts the reservation list back exactly, entry
        for entry, unless the list has run out of spare slots. */
    method AllocThenFree(size: nat, align: nat) returns (a: Result<nat>, f: Result<()>)
      requires Valid() && NonEmpty(res.Contents()) && size > 0 && align > 0 && IsPow2(align)
      modifies res, res.regions
      ensures Valid()
      ensures a.Ok? ==> f.Ok? || f == Err(NoMemory)
      ensures a.Ok? && f.Ok? ==> res.Contents() == old(res.Contents())
    {
      a := Alloc(size, align);
      if a.Err? {
        return a, Err(NoMemory);
      }
      ghost var taken := res.Contents();
      ghost var i := WindowInOneRegion(taken, a.value, size);
      assert taken[i].Contains(Region(a.value, size));
      FitsIsAddresses(old(memory.Contents()), old(res.Contents()), size, align, a.value);
      f := Free(a.value, size);
      assert f.Err? ==> f.error != NoMemRegion;
      if f.Ok? {
        Canonical(res.Contents(), old(res.Contents()));
      }
    }
  }

  /** The other reservations meet none of the addresses of reservation `i`. */
  lemma NeighboursMiss(rs: seq<Region>, i: nat)
    requires i < |rs| && Separated(rs)
    ensures forall a | rs[i].Has(a) :: !Covers(rs[..i] + rs[i + 1..], a)
  {
    var qs := rs[..i] + rs[i + 1..];
    assert forall j | 0 <= j < |qs| :: qs[j] == rs[if j < i then j else j + 1];
  }

  /** Windows that start in a reservation the candidate meets do not fit. */
  lemma NoFitBefore(ms: seq<Region>, rs: seq<Region>, size: nat, align: nat, k: nat, c: nat)
    requires align > 0 && k < |rs| && rs[k].start < c + size
    ensures forall y: nat | Fits(ms, rs, size, align, y) && c <= y :: rs[k].End() <= y
  {
    forall y: nat | Fits(ms, rs, size, align, y) && c <= y
      ensures rs[k].End() <= y
    {
      assert !Region(y, size).Overlaps(rs[k]);
    }
  }

  lemma FitsHere(ms: seq<Region>, rs: seq<Region>, i: nat, k: nat, align: nat, c: Region)
    requires align > 0 && i < |ms| && k <= |rs| && Separated(rs)
    requires ms[i].Contains(c) && c.start % align == 0
    requires forall j | 0 <= j < k :: rs[j].End() <= c.start
    requires k < |rs| ==> rs[k].End() > c.start && !c.Overlaps(rs[k])
    ensures Fits(ms, rs, c.size, align, c.start)
  {
    assert Region(c.start, c.size) == c;
    forall j | 0 <= j < |rs| ensures !c.Overlaps(rs[j]) {
      if j > k { assert rs[k].End() < rs[j].start; }
    }
  }
}
