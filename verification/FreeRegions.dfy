/** Walking memory minus reservations: the stateful iterator over free regions, what
    it yields for any normalised lists, and exactly when that is the difference. */
module FreeRegions {
  import opened Common
  import opened Regions

  /** Address `a` is still to be yielded from memory `ms` under reservations `rs`: it
      lies in some region, and every reservation that has it is spent on an earlier
      region by then. */
  ghost predicate Pending(ms: seq<Region>, rs: seq<Region>, a: int) {
    exists j :: 0 <= j < |ms| && ms[j].Has(a) && Unreserved(ms, rs, j, a)
  }

  ghost predicate Unreserved(ms: seq<Region>, rs: seq<Region>, j: nat, a: int)
    requires j < |ms|
  {
    forall k | 0 <= k < |rs| && rs[k].Has(a) :: SpentBefore(ms, rs[k], j)
  }

  ghost predicate SpentBefore(ms: seq<Region>, r: Region, j: nat)
    requires j < |ms|
  {
    exists i :: 0 <= i < j && r.Overlaps(ms[i])
  }

  ghost predicate Normal(rs: seq<Region>) { Separated(rs) && NonEmpty(rs) }

  // -------------------------------------------- one step of the walk, on values

  /** A reservation before all of memory never matters. */
  lemma SkipReservation(ms: seq<Region>, rs: seq<Region>)
    requires Normal(ms) && Normal(rs) && ms != [] && rs != [] && rs[0].IsBefore(ms[0])
    ensures forall a :: Pending(ms, rs, a) <==> Pending(ms, rs[1..], a)
  {
    forall a, j: nat | j < |ms| && ms[j].Has(a)
      ensures Unreserved(ms, rs, j, a) <==> Unreserved(ms, rs[1..], j, a)
    {
      assert ms[0].start <= a by { if j > 0 { assert ms[0].End() < ms[j].start; } }
      if Unreserved(ms, rs[1..], j, a) {
        forall k | 0 <= k < |rs| && rs[k].Has(a) ensures SpentBefore(ms, rs[k], j) {
          assert k > 0 && rs[1..][k - 1] == rs[k];
        }
      }
      if Unreserved(ms, rs, j, a) {
        forall k | 0 <= k < |rs[1..]| && rs[1..][k].Has(a) ensures SpentBefore(ms, rs[1..][k], j) {
          assert rs[k + 1] == rs[1..][k];
        }
      }
    }
  }

  /** A first region that no reservation meets is free as it stands. */
  lemma YieldWhole(ms: seq<Region>, rs: seq<Region>)
    requires Normal(ms) && Normal(rs) && ms != [] && (rs == [] || rs[0].IsAfter(ms[0]))
    ensures forall a :: Pending(ms, rs, a) <==> ms[0].Has(a) || Pending(ms[1..], rs, a)
  {
    assert forall k | 0 <= k < |rs| :: ms[0].End() <= rs[k].start;
    DropFirstRegion(ms, rs);
    assert forall a | ms[0].Has(a) :: Unreserved(ms, rs, 0, a);
  }

  /** A first region that no remaining reservation meets plays no part in the rest. */
  lemma DropFirstRegion(ms: seq<Region>, rs: seq<Region>)
    requires Normal(ms) && ms != [] && forall k | 0 <= k < |rs| :: !rs[k].Overlaps(ms[0])
    ensures forall a ::
      Pending(ms[1..], rs, a) <==> exists j :: 1 <= j < |ms| && ms[j].Has(a) && Unreserved(ms, rs, j, a)
  {
    var qs := ms[1..];
    forall j: nat, r: Region | j < |qs| && !r.Overlaps(ms[0])
      ensures SpentBefore(qs, r, j) <==> SpentBefore(ms, r, j + 1)
    {
      if i :| 0 <= i < j && r.Overlaps(qs[i]) { assert r.Overlaps(ms[i + 1]); }
      if i :| 0 <= i < j + 1 && r.Overlaps(ms[i]) { assert i > 0 && r.Overlaps(qs[i - 1]); }
    }
    forall a
      ensures Pending(qs, rs, a) <==> exists j :: 1 <= j < |ms| && ms[j].Has(a) && Unreserved(ms, rs, j, a)
    {
      if j :| 0 <= j < |qs| && qs[j].Has(a) && Unreserved(qs, rs, j, a) {
        assert ms[j + 1].Has(a) && Unreserved(ms, rs, j + 1, a);
      }
      if j :| 1 <= j < |ms| && ms[j].Has(a) && Unreserved(ms, rs, j, a) {
        assert qs[j - 1].Has(a) && Unreserved(qs, rs, j - 1, a);
      }
    }
  }

  /** What of region `f` lies before reservation `r`. */
  predicate Before(f: Region, r: Region, a: int) { f.start <= a < r.start && a < f.End() }

  /** Unreserved in a later region: the first reservation is spent if it meets the first
      region, and has none of the addresses if it ends inside it. */
  lemma LaterRegions(ms: seq<Region>, rs: seq<Region>, j: nat, a: int)
    requires Normal(ms) && Normal(rs) && rs != [] && 1 <= j < |ms| && rs[0].Overlaps(ms[0])
    ensures Unreserved(ms, rs, j, a) <==> Unreserved(ms, rs[1..], j, a)
  {
    assert SpentBefore(ms, rs[0], j);
    assert forall k | 0 <= k < |rs[1..]| :: rs[1..][k] == rs[k + 1];
    if Unreserved(ms, rs[1..], j, a) {
      forall k | 0 <= k < |rs| && rs[k].Has(a) ensures SpentBefore(ms, rs[k], j) {
        if k > 0 { assert rs[1..][k - 1] == rs[k]; }
      }
    }
  }

  /** In the first region, exactly the addresses no reservation has are unreserved. */
  lemma FirstRegion(ms: seq<Region>, rs: seq<Region>, a: int)
    requires Normal(ms) && Normal(rs) && ms != [] && rs != [] && rs[0].Overlaps(ms[0]) && ms[0].Has(a)
    ensures Unreserved(ms, rs, 0, a) <==> a < rs[0].start || (rs[0].End() <= a && !Covers(rs[1..], a))
  {
    assert forall k | 0 <= k < |rs[1..]| :: rs[1..][k] == rs[k + 1] && rs[0].End() < rs[k + 1].start;
    if Unreserved(ms, rs, 0, a) {
      forall k | 0 <= k < |rs| ensures !rs[k].Has(a) { }
      assert !Covers(rs[1..], a);
      assert !rs[0].Has(a);
    } else {
      var k :| 0 <= k < |rs| && rs[k].Has(a) && !SpentBefore(ms, rs[k], 0);
      if k > 0 { assert rs[1..][k - 1].Has(a); }
    }
    if rs[0].End() <= a && Covers(rs[1..], a) {
      var k :| 0 <= k < |rs[1..]| && rs[1..][k].Has(a);
      assert rs[k + 1].Has(a) && !SpentBefore(ms, rs[k + 1], 0);
    }
  }

  /** A reservation that reaches the end of the first region is spent on it. */
  lemma SpendReservation(ms: seq<Region>, rs: seq<Region>)
    requires Normal(ms) && Normal(rs) && ms != [] && rs != []
    requires rs[0].Overlaps(ms[0]) && ms[0].End() <= rs[0].End()
    ensures forall a :: Pending(ms, rs, a) <==> Before(ms[0], rs[0], a) || Pending(ms[1..], rs[1..], a)
  {
    DropFirstRegion(ms, rs[1..]);
    forall a ensures Pending(ms, rs, a) <==> Before(ms[0], rs[0], a) || Pending(ms[1..], rs[1..], a) {
      if ms[0].Has(a) { FirstRegion(ms, rs, a); }
      forall j: nat | 1 <= j < |ms| ensures Unreserved(ms, rs, j, a) <==> Unreserved(ms, rs[1..], j, a) {
        LaterRegions(ms, rs, j, a);
      }
      if Before(ms[0], rs[0], a) { assert ms[0].Has(a) && Unreserved(ms, rs, 0, a); }
    }
  }

  /** A reservation that ends inside the first region leaves the part behind it. */
  lemma TrimRegion(ms: seq<Region>, rs: seq<Region>, qs: seq<Region>)
    requires Normal(ms) && Normal(rs) && ms != [] && rs != []
    requires rs[0].Overlaps(ms[0]) && rs[0].End() < ms[0].End()
    requires qs == [FromTo(rs[0].End(), ms[0].End())] + ms[1..]
    ensures Normal(qs)
    ensures forall a :: Pending(ms, rs, a) <==> Before(ms[0], rs[0], a) || Pending(qs, rs[1..], a)
  {
    assert forall j | 1 <= j < |ms| :: qs[j] == ms[j];
    forall a ensures Pending(ms, rs, a) <==> Before(ms[0], rs[0], a) || Pending(qs, rs[1..], a) {
      TrimmedLater(ms, rs, qs, a);
      if ms[0].Has(a) { FirstRegion(ms, rs, a); }
      assert Unreserved(qs, rs[1..], 0, a) <==> !Covers(rs[1..], a);
      if Before(ms[0], rs[0], a) { assert ms[0].Has(a) && Unreserved(ms, rs, 0, a); }
      if qs[0].Has(a) && Unreserved(qs, rs[1..], 0, a) { assert ms[0].Has(a) && Unreserved(ms, rs, 0, a); }
    }
  }

  lemma TrimmedLater(ms: seq<Region>, rs: seq<Region>, qs: seq<Region>, a: int)
    requires Normal(ms) && Normal(rs) && ms != [] && rs != []
    requires rs[0].Overlaps(ms[0]) && rs[0].End() < ms[0].End()
    requires qs == [FromTo(rs[0].End(), ms[0].End())] + ms[1..]
    ensures forall j: nat | 1 <= j < |ms| :: Unreserved(ms, rs, j, a) <==> Unreserved(qs, rs[1..], j, a)
  {
    forall j: nat | 1 <= j < |ms| ensures Unreserved(ms, rs, j, a) <==> Unreserved(qs, rs[1..], j, a) {
      LaterRegions(ms, rs, j, a);
      forall k | 0 <= k < |rs[1..]|
        ensures SpentBefore(ms, rs[1..][k], j) <==> SpentBefore(qs, rs[1..][k], j)
      {
        var r := rs[1..][k];
        assert r == rs[k + 1] && rs[0].End() < r.start;
        assert r.Overlaps(ms[0]) <==> r.Overlaps(qs[0]);
        assert forall i | 1 <= i < j :: qs[i] == ms[i];
        if i :| 0 <= i < j && r.Overlaps(ms[i]) { assert r.Overlaps(qs[i]); }
        if i :| 0 <= i < j && r.Overlaps(qs[i]) { assert r.Overlaps(ms[i]); }
      }
    }
  }

  // ------------------------------------------------------- the iterator in place

  class Iter {
    var memRest: seq<Region>
    var resRest: seq<Region>
    var fragment: Option<Region>

    /** The memory still to walk. */
    ghost function Left(): seq<Region>
      reads this
    {
      (if fragment.Some? then [fragment.value] else []) + memRest
    }

    ghost predicate Valid()
      reads this
    {
      Normal(Left()) && Normal(resRest)
    }

    constructor (memory: seq<Region>, reserved: seq<Region>)
      requires Normal(memory) && Normal(reserved)
      ensures Valid() && Left() == memory && resRest == reserved
    {
      memRest, resRest, fragment := memory, reserved, None;
    }

    /** Yields the lowest free region that is left, or nothing when none is: what was
        pending is the yielded region and what is pending now, which lies above it. */
    method Next() returns (r: Option<Region>)
      requires Valid()
      modifies this
      ensures Valid()
      ensures r.None? ==> forall a :: !Pending(old(Left()), old(resRest), a)
      ensures r.Some? ==> r.value.size > 0 && |Left()| + |resRest| < old(|Left()| + |resRest|)
      ensures r.Some? ==>
        forall a :: Pending(old(Left()), old(resRest), a) <==> r.value.Has(a) || Pending(Left(), resRest, a)
      ensures r.Some? ==> forall a | Pending(Left(), resRest, a) :: r.value.End() <= a
    {
      while true
        invariant Valid() && |Left()| + |resRest| <= old(|Left()| + |resRest|)
        invariant forall a :: Pending(Left(), resRest, a) <==> Pending(old(Left()), old(resRest), a)
        decreases |Left()| + |resRest|
      {
        if fragment.None? && memRest == [] {
          return None;
        }
        var frag := TakeFragment();
        SkipBefore(frag);
        if resRest == [] || resRest[0].IsAfter(frag) {
          YieldFragment(frag, memRest, resRest);
          assert Left() == memRest;
          return Some(frag);
        }
        var res := resRest[0];
        ConsumeReservation(frag);
        if frag.start < res.start {
          return Some(FromTo(frag.start, res.start));
        }
      }
    }

    /** The fragment saved last time, or the next memory region. */
    method TakeFragment() returns (frag: Region)
      requires Valid() && (fragment.Some? || memRest != [])
      modifies this`fragment, this`memRest
      ensures [frag] + memRest == old(Left()) && fragment.None?
    {
      if fragment.Some? {
        frag := fragment.value;
        fragment := None;
      } else {
        frag := memRest[0];
        memRest := memRest[1..];
      }
    }

    /** Drops the reservations that end before the fragment. */
    method SkipBefore(frag: Region)
      requires Normal([frag] + memRest) && Normal(resRest)
      modifies this`resRest
      ensures Normal(resRest) && |resRest| <= old(|resRest|)
      ensures resRest != [] ==> !resRest[0].IsBefore(frag)
      ensures forall a :: Pending([frag] + memRest, resRest, a) <==> Pending([frag] + memRest, old(resRest), a)
    {
      while resRest != [] && resRest[0].IsBefore(frag)
        invariant Normal(resRest) && |resRest| <= old(|resRest|)
        invariant forall a :: Pending([frag] + memRest, resRest, a) <==> Pending([frag] + memRest, old(resRest), a)
        decreases |resRest|
      {
        SkipReservation([frag] + memRest, resRest);
        resRest := resRest[1..];
      }
    }

    /** Spends the first reservation on the fragment it meets, saving what lies behind it. */
    method ConsumeReservation(frag: Region)
      requires Normal([frag] + memRest) && Normal(resRest) && fragment.None?
      requires resRest != [] && resRest[0].Overlaps(frag)
      modifies this`resRest, this`fragment
      ensures Valid() && |Left()| + |resRest| < old(1 + |memRest| + |resRest|)
      ensures forall a :: Pending([frag] + memRest, old(resRest), a) <==>
                          Before(frag, old(resRest)[0], a) || Pending(Left(), resRest, a)
      ensures forall a | Pending(Left(), resRest, a) :: old(resRest)[0].start <= a
    {
      hide Pending, Normal;
      Consumed(frag, memRest, resRest);
      var res := resRest[0];
      if res.End() < frag.End() {
        fragment := Some(FromTo(res.End(), frag.End()));
      }
      resRest := resRest[1..];
      assert Left() == Behind(frag, res) + memRest;
    }
  }

  /** What of region `f` lies behind reservation `r`. */
  function Behind(f: Region, r: Region): seq<Region> {
    if r.End() < f.End() then [FromTo(r.End(), f.End())] else []
  }

  /** Nothing is pending below the memory that is left. */
  lemma PendingFrom(ms: seq<Region>, rs: seq<Region>, at: int)
    requires forall i | 0 <= i < |ms| :: at <= ms[i].start
    ensures forall a | Pending(ms, rs, a) :: at <= a
  {
  }

  /** What is left to walk once the first reservation is spent on the fragment it meets. */
  lemma Consumed(frag: Region, ms: seq<Region>, rs: seq<Region>)
    requires Normal([frag] + ms) && Normal(rs) && rs != [] && rs[0].Overlaps(frag)
    ensures var left := Behind(frag, rs[0]) + ms;
      && Normal(left) && Normal(rs[1..])
      && (forall a :: Pending([frag] + ms, rs, a) <==> Before(frag, rs[0], a) || Pending(left, rs[1..], a))
      && (forall a | Pending(left, rs[1..], a) :: rs[0].start <= a)
  {
    var all, left := [frag] + ms, Behind(frag, rs[0]) + ms;
    assert all[1..] == ms && rs == [rs[0]] + rs[1..];
    NormalTail(frag, ms);
    NormalTail(rs[0], rs[1..]);
    hide Pending, Normal;
    if rs[0].End() < frag.End() {
      TrimRegion(all, rs, left);
    } else {
      assert left == ms;
      SpendReservation(all, rs);
    }
    PendingFrom(left, rs[1..], rs[0].start);
  }

  lemma NormalTail(r: Region, rs: seq<Region>)
    requires Normal([r] + rs)
    ensures Normal(rs) && forall i | 0 <= i < |rs| :: r.End() < rs[i].start
  {
    var all := [r] + rs;
    assert all[0] == r && forall i | 0 <= i < |rs| :: rs[i] == all[i + 1];
  }

  lemma YieldFragment(frag: Region, ms: seq<Region>, rs: seq<Region>)
    requires Normal([frag] + ms) && Normal(rs) && (rs == [] || rs[0].IsAfter(frag))
    ensures Normal(ms) && frag.size > 0
    ensures forall a :: Pending([frag] + ms, rs, a) <==> frag.Has(a) || Pending(ms, rs, a)
    ensures forall a | Pending(ms, rs, a) :: frag.End() <= a
  {
    var all := [frag] + ms;
    assert all[0] == frag && all[1..] == ms && forall i | 0 <= i < |ms| :: ms[i] == all[i + 1];
    YieldWhole(all, rs);
  }

  /** Ascending and pairwise disjoint. */
  ghost predicate Ascending(out: seq<Region>) {
    forall i, j | 0 <= i < j < |out| :: out[i].End() <= out[j].start
  }

  /** Draining the iterator: it ends, and yields an ascending sequence of disjoint
      non-empty regions with exactly the addresses that were pending, which is memory
      minus reservations exactly if no reservation meets two memory regions. */
  method Collect(memory: seq<Region>, reserved: seq<Region>) returns (out: seq<Region>)
    requires Normal(memory) && Normal(reserved)
    ensures Ascending(out) && NonEmpty(out)
    ensures forall a :: Covers(out, a) <==> Pending(memory, reserved, a)
    ensures (forall a :: Covers(out, a) <==> Covers(memory, a) && !Covers(reserved, a)) <==> NoneSpans(memory, reserved)
  {
    out := Drain(memory, reserved);
    hide Covers, Pending, NoneSpans, Normal;
    ExactIffNoneSpans(memory, reserved);
  }

  method Drain(memory: seq<Region>, reserved: seq<Region>) returns (out: seq<Region>)
    requires Normal(memory) && Normal(reserved)
    ensures Ascending(out) && NonEmpty(out)
    ensures forall a :: Covers(out, a) <==> Pending(memory, reserved, a)
  {
    out := [];
    var it := new Iter(memory, reserved);
    var next := it.Next();
    while next.Some?
      invariant it.Valid() && Ascending(out) && NonEmpty(out)
      invariant next.Some? ==> next.value.size > 0
      invariant forall a :: Pending(memory, reserved, a) <==>
                  Covers(out, a) || (next.Some? && (next.value.Has(a) || Pending(it.Left(), it.resRest, a)))
      invariant next.Some? ==> forall a | Pending(it.Left(), it.resRest, a) :: next.value.End() <= a
      invariant next.Some? ==> forall i | 0 <= i < |out| :: out[i].End() <= next.value.start
      decreases if next.Some? then 1 + |it.Left()| + |it.resRest| else 0
    {
      CoversAppend(out, next.value);
      out := out + [next.value];
      next := it.Next();
      if next.Some? {
        assert next.value.Has(next.value.start);
      }
    }
  }

  lemma CoversAppend(rs: seq<Region>, r: Region)
    ensures forall a :: Covers(rs + [r], a) <==> Covers(rs, a) || r.Has(a)
  {
    forall a ensures Covers(rs + [r], a) <==> Covers(rs, a) || r.Has(a) {
      if i :| 0 <= i < |rs| && rs[i].Has(a) { assert (rs + [r])[i].Has(a); }
      if r.Has(a) { assert (rs + [r])[|rs|].Has(a); }
    }
  }

  // --------------------------------------------------------------- when it is exact

  /** No reservation meets two memory regions. */
  ghost predicate NoneSpans(ms: seq<Region>, rs: seq<Region>) {
    forall k, i, j | 0 <= k < |rs| && 0 <= i < j < |ms| :: !(rs[k].Overlaps(ms[i]) && rs[k].Overlaps(ms[j]))
  }

  /** The walk yields exactly memory minus reservations if and only if no reservation
      meets two memory regions: a reservation is spent on the first region it meets. */
  lemma ExactIffNoneSpans(ms: seq<Region>, rs: seq<Region>)
    requires Normal(ms) && Normal(rs)
    ensures (forall a :: Pending(ms, rs, a) <==> Covers(ms, a) && !Covers(rs, a)) <==> NoneSpans(ms, rs)
  {
    if NoneSpans(ms, rs) {
      forall a ensures Pending(ms, rs, a) <==> Covers(ms, a) && !Covers(rs, a) {
        ExactAt(ms, rs, a);
      }
    } else {
      var k, i, j :| 0 <= k < |rs| && 0 <= i < j < |ms| && rs[k].Overlaps(ms[i]) && rs[k].Overlaps(ms[j]);
      var a := ms[j].start;
      assert rs[k].Has(a) && ms[i].End() < a;
      SpanIsYielded(ms, rs, k, i, j, a);
      assert Covers(rs, a);
    }
  }

  lemma ExactAt(ms: seq<Region>, rs: seq<Region>, a: int)
    requires Normal(ms) && Normal(rs) && NoneSpans(ms, rs)
    ensures Pending(ms, rs, a) <==> Covers(ms, a) && !Covers(rs, a)
  {
    forall j: nat, k | j < |ms| && ms[j].Has(a) && 0 <= k < |rs| && rs[k].Has(a)
      ensures !SpentBefore(ms, rs[k], j)
    {
      assert rs[k].Overlaps(ms[j]);
    }
    if Covers(ms, a) && !Covers(rs, a) {
      var j :| 0 <= j < |ms| && ms[j].Has(a);
      assert Unreserved(ms, rs, j, a);
    }
  }

  /** A reservation spent on an earlier region no longer hides anything. */
  lemma SpanIsYielded(ms: seq<Region>, rs: seq<Region>, k: nat, i: nat, j: nat, a: int)
    requires Normal(ms) && Normal(rs) && k < |rs| && i < j < |ms|
    requires rs[k].Overlaps(ms[i]) && rs[k].Has(a) && ms[j].Has(a)
    ensures Pending(ms, rs, a)
  {
    forall k' | 0 <= k' < |rs| && rs[k'].Has(a) ensures SpentBefore(ms, rs[k'], j) {
      assert k' == k;
    }
    assert Unreserved(ms, rs, j, a);
  }

  /** One reservation over two regions of memory: its address in the second is yielded. */
  lemma SpanExample()
    ensures var ms, rs := [Region(0, 1), Region(2, 1)], [Region(0, 3)];
      Normal(ms) && Normal(rs) && Covers(rs, 2) && Pending(ms, rs, 2)
  {
    var ms, rs := [Region(0, 1), Region(2, 1)], [Region(0, 3)];
    assert rs[0].Has(2);
    SpanIsYielded(ms, rs, 0, 0, 1, 2);
  }
}
