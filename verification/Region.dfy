/** Memory regions as half-open address intervals, and lists of regions as sets of
    addresses. */
module Regions {
  import opened Common

  datatype Region = Region(start: nat, size: nat) {

    function End(): nat { start + size }

    predicate Has(a: int) { start <= a < End() }

    predicate Contains(other: Region) { start <= other.start && other.End() <= End() }

    predicate Overlaps(other: Region) { !(End() <= other.start || other.End() <= start) }

    predicate IsBefore(other: Region) { End() <= other.start }

    predicate IsAfter(other: Region) { other.End() <= start }

    /** The union of two regions that overlap or touch; nothing otherwise. */
    function Merge(other: Region): (r: Option<Region>)
      ensures r.Some? ==> forall a :: r.value.Has(a) <==> Has(a) || other.Has(a)
      ensures r.None? <==> End() < other.start || other.End() < start
      ensures r.Some? ==> r.value.size >= size && r.value.size >= other.size
    {
      if End() >= other.start && start <= other.End() then
        Some(FromTo(if start <= other.start then start else other.start,
                    if End() >= other.End() then End() else other.End()))
      else None
    }

    /** What is left of a region around a hole: the part before it and the part after it. */
    function PunchHole(hole: Region): (r: (Option<Region>, Option<Region>))
      ensures forall a ::
        (r.0.Some? && r.0.value.Has(a)) || (r.1.Some? && r.1.value.Has(a)) <==> Has(a) && !hole.Has(a)
      ensures r.0.Some? ==> Contains(r.0.value) && r.0.value.size > 0
      ensures r.1.Some? ==> Contains(r.1.value) && r.1.value.size > 0
      ensures r.0.Some? && r.1.Some? ==> r.0.value.End() + hole.size == r.1.value.start
    {
      var leftEnd := if End() <= hole.start then End() else hole.start;
      var rightStart := if start >= hole.End() then start else hole.End();
      (if start < hole.start && leftEnd > start then Some(FromTo(start, leftEnd)) else None,
       if End() > hole.End() && rightStart < End() then Some(FromTo(rightStart, End())) else None)
    }
  }

  function FromTo(lo: nat, hi: nat): (r: Region)
    requires lo <= hi
    ensures r.start == lo && r.End() == hi
  {
    Region(lo, hi - lo)
  }

  /** Some region of the list has address `a`. */
  ghost predicate Covers(rs: seq<Region>, a: int) {
    exists i :: 0 <= i < |rs| && rs[i].Has(a)
  }

  /** Ascending, with a gap between any two neighbours. */
  ghost predicate Separated(rs: seq<Region>) {
    forall i, j | 0 <= i < j < |rs| :: rs[i].End() < rs[j].start
  }

  ghost predicate NonEmpty(rs: seq<Region>) {
    forall i | 0 <= i < |rs| :: rs[i].size > 0
  }

  lemma CoversSplit(rs: seq<Region>, a: int)
    requires rs != []
    ensures Covers(rs, a) <==> rs[0].Has(a) || Covers(rs[1..], a)
  {
    if i :| 0 <= i < |rs| && rs[i].Has(a) {
      if i > 0 { assert rs[1..][i - 1].Has(a); }
    }
    if i :| 0 <= i < |rs[1..]| && rs[1..][i].Has(a) {
      assert rs[i + 1].Has(a);
    }
  }

  /** The first region of a separated list is determined by its addresses. */
  lemma FirstIsDetermined(rs: seq<Region>, qs: seq<Region>)
    requires Separated(rs) && Separated(qs) && NonEmpty(rs) && NonEmpty(qs) && rs != []
    requires forall a :: Covers(rs, a) <==> Covers(qs, a)
    ensures qs != [] && qs[0].start <= rs[0].start
    ensures qs[0].start == rs[0].start ==> rs[0].End() <= qs[0].End()
  {
    var r := rs[0];
    assert r.Has(r.start) && Covers(rs, r.start);
    assert Covers(qs, r.start);
    var a := qs[0].End();
    assert !Covers(qs, a);
    assert !Covers(rs, a);
    assert !r.Has(a);
  }

  /** Canonicity: two separated lists of non-empty regions with the same addresses
      are the same list. */
  lemma {:induction false} Canonical(rs: seq<Region>, qs: seq<Region>)
    requires Separated(rs) && Separated(qs) && NonEmpty(rs) && NonEmpty(qs)
    requires forall a :: Covers(rs, a) <==> Covers(qs, a)
    ensures rs == qs
  {
    if rs == [] || qs == [] {
      if rs != [] { FirstIsDetermined(rs, qs); }
      if qs != [] { FirstIsDetermined(qs, rs); }
    } else {
      FirstIsDetermined(rs, qs);
      FirstIsDetermined(qs, rs);
      assert rs[0] == qs[0];
      forall a ensures Covers(rs[1..], a) <==> Covers(qs[1..], a) {
        CoversSplit(rs, a);
        CoversSplit(qs, a);
        AfterFirst(rs, a);
        AfterFirst(qs, a);
      }
      Canonical(rs[1..], qs[1..]);
      assert rs == [rs[0]] + rs[1..] && qs == [qs[0]] + qs[1..];
    }
  }

  lemma AfterFirst(rs: seq<Region>, a: int)
    requires rs != [] && Separated(rs)
    ensures Covers(rs[1..], a) ==> !rs[0].Has(a)
  {
    if i :| 0 <= i < |rs[1..]| && rs[1..][i].Has(a) {
      assert rs[0].End() < rs[i + 1].start;
    }
  }
}
