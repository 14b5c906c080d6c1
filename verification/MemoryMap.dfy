/** The memory map of a process: its areas in address order, under unmapping, insertion
    with merging, and changes of permissions. */
module MemoryMaps {
  import opened Common
  import opened Regions
  import opened Vma

  /** Areas in address order, none empty and none overlapping. */
  ghost predicate Ordered(vmas: seq<Area>) {
    && (forall i | 0 <= i < |vmas| :: vmas[i].region.size > 0)
    && (forall i, j | 0 <= i < j < |vmas| :: vmas[i].region.End() <= vmas[j].region.start)
  }

  /** The area that has an address. */
  function Lookup(vmas: seq<Area>, a: nat): (r: Option<Area>)
    ensures r.Some? ==> r.value.region.Has(a)
  {
    if vmas == [] then None
    else if vmas[0].region.Has(a) then Some(vmas[0])
    else Lookup(vmas[1..], a)
  }

  function PermsAt(vmas: seq<Area>, a: nat): Option<Perms> {
    var area := Lookup(vmas, a);
    if area.Some? then Some(area.value.perms) else None
  }

  /** What a program would read at an address, were every page of the map faulted in. */
  function ByteAt(fs: Files, vmas: seq<Area>, a: nat): Option<Byte> {
    var area := Lookup(vmas, a);
    if area.Some? && area.value.region.start <= a then Some(Denoted(fs, area.value, a)) else None
  }

  lemma {:induction false} LookupConcat(x: seq<Area>, y: seq<Area>, a: nat)
    ensures Lookup(x + y, a) == if Lookup(x, a).Some? then Lookup(x, a) else Lookup(y, a)
  {
    if x == [] {
      assert x + y == y;
    } else {
      assert (x + y)[1..] == x[1..] + y;
      LookupConcat(x[1..], y, a);
    }
  }

  lemma {:induction false} LookupHas(vmas: seq<Area>, a: nat)
    ensures Lookup(vmas, a).Some? ==> Lookup(vmas, a).value.region.Has(a) && Lookup(vmas, a).value in vmas
    ensures Lookup(vmas, a).None? <==> forall i | 0 <= i < |vmas| :: !vmas[i].region.Has(a)
  {
    if vmas != [] {
      LookupHas(vmas[1..], a);
      assert vmas == [vmas[0]] + vmas[1..];
      assert forall i | 0 < i < |vmas| :: vmas[i] == vmas[1..][i - 1];
    }
  }

  lemma LookupOne(x: Area, a: nat)
    ensures Lookup([x], a) == if x.region.Has(a) then Some(x) else None
  {
    assert [x][1..] == [];
  }

  lemma OrderedSplit(x: seq<Area>, y: seq<Area>)
    requires Ordered(x + y)
    ensures Ordered(x) && Ordered(y)
    ensures forall i, j | 0 <= i < |x| && 0 <= j < |y| :: x[i].region.End() <= y[j].region.start
  {
    var all := x + y;
    assert forall i | 0 <= i < |x| :: x[i] == all[i];
    assert forall j | 0 <= j < |y| :: y[j] == all[|x| + j];
  }

  lemma OrderedConcat(x: seq<Area>, y: seq<Area>)
    requires Ordered(x) && Ordered(y)
    requires forall i, j | 0 <= i < |x| && 0 <= j < |y| :: x[i].region.End() <= y[j].region.start
    ensures Ordered(x + y)
  {
  }

  // ------------------------------------------------------------------- unmapping

  function Unmapped(vmas: seq<Area>, hole: Region): seq<Area> {
    if vmas == [] then [] else Cut(vmas[0], hole) + Unmapped(vmas[1..], hole)
  }

  lemma CutOrdered(area: Area, hole: Region)
    requires area.region.size > 0
    ensures Ordered(Cut(area, hole))
    ensures forall i | 0 <= i < |Cut(area, hole)| :: area.region.Contains(Cut(area, hole)[i].region)
  {
    CutCovers(area, hole, 0);
  }

  lemma {:induction false} UnmappedOrdered(vmas: seq<Area>, hole: Region)
    requires Ordered(vmas)
    ensures Ordered(Unmapped(vmas, hole))
    ensures forall j | 0 <= j < |Unmapped(vmas, hole)| ::
      vmas != [] && vmas[0].region.start <= Unmapped(vmas, hole)[j].region.start
  {
    if vmas != [] {
      var rest := vmas[1..];
      assert forall i | 0 <= i < |rest| :: rest[i] == vmas[i + 1];
      UnmappedOrdered(rest, hole);
      CutOrdered(vmas[0], hole);
      OrderedConcat(Cut(vmas[0], hole), Unmapped(rest, hole));
    }
  }

  lemma CutAt(area: Area, hole: Region, a: nat)
    requires hole.size > 0
    ensures Lookup(Cut(area, hole), a).Some? <==> area.region.Has(a) && !hole.Has(a)
    ensures Lookup(Cut(area, hole), a).Some? ==> Lookup(Cut(area, hole), a).value.perms == area.perms
  {
    CutCovers(area, hole, a);
    LookupHas(Cut(area, hole), a);
  }

  /** What unmapping leaves at an address: nothing in the hole, and elsewhere the piece of
      the area that was there. */
  lemma {:induction false} UnmappedAt(vmas: seq<Area>, hole: Region, a: nat)
    requires Ordered(vmas) && hole.size > 0
    ensures Lookup(Unmapped(vmas, hole), a) ==
      if Lookup(vmas, a).Some? then Lookup(Cut(Lookup(vmas, a).value, hole), a) else None
    ensures PermsAt(Unmapped(vmas, hole), a) == if hole.Has(a) then None else PermsAt(vmas, a)
  {
    if vmas != [] {
      var rest := vmas[1..];
      assert forall i | 0 <= i < |rest| :: rest[i] == vmas[i + 1];
      UnmappedAt(rest, hole, a);
      CutAt(vmas[0], hole, a);
      LookupConcat(Cut(vmas[0], hole), Unmapped(rest, hole), a);
      LookupHas(rest, a);
      if Lookup(rest, a).Some? { CutAt(Lookup(rest, a).value, hole, a); }
    }
  }

  lemma {:induction false} LookupIs(vmas: seq<Area>, i: nat, a: nat)
    requires Ordered(vmas) && i < |vmas| && vmas[i].region.Has(a)
    ensures Lookup(vmas, a) == Some(vmas[i])
  {
    if i > 0 {
      assert forall j | 0 <= j < |vmas[1..]| :: vmas[1..][j] == vmas[j + 1];
      LookupIs(vmas[1..], i - 1, a);
    }
  }

  // ------------------------------------------------------------------- insertion

  /** How many areas start before an address. */
  function Below(vmas: seq<Area>, at: nat): (k: nat)
    ensures k <= |vmas|
  {
    if vmas == [] || vmas[0].region.start >= at then 0 else 1 + Below(vmas[1..], at)
  }

  predicate JoinsNext(v: Area, hi: seq<Area>) {
    hi != [] && hi[0].region.start == v.region.End() && CanMergeWith(v, hi[0])
  }

  predicate JoinsPrevious(lo: seq<Area>, v: Area) {
    lo != [] && lo[|lo| - 1].region.End() == v.region.start && CanMergeWith(lo[|lo| - 1], v)
  }

  /** An area between two lists, merged with the next one and then with the previous one
      where that is allowed.  A merged area keeps the mapping of its first part. */
  function Joined(lo: seq<Area>, v: Area, hi: seq<Area>): seq<Area> {
    var w := if JoinsNext(v, hi) then Merged(v, hi[0]) else v;
    var rest := if JoinsNext(v, hi) then hi[1..] else hi;
    if JoinsPrevious(lo, w) then lo[..|lo| - 1] + [Merged(lo[|lo| - 1], w)] + rest else lo + [w] + rest
  }

  /** Insertion: the range is unmapped first. */
  function Inserted(vmas: seq<Area>, v: Area): seq<Area> {
    var u := Unmapped(vmas, v.region);
    var k := Below(u, v.region.start);
    Joined(u[..k], v, u[k..])
  }

  lemma {:induction false} BelowSplits(vmas: seq<Area>, at: nat)
    requires Ordered(vmas)
    ensures forall i | 0 <= i < Below(vmas, at) :: vmas[i].region.start < at
    ensures forall i | Below(vmas, at) <= i < |vmas| :: at <= vmas[i].region.start
  {
    if vmas != [] && vmas[0].region.start < at {
      assert forall j | 0 <= j < |vmas[1..]| :: vmas[1..][j] == vmas[j + 1];
      BelowSplits(vmas[1..], at);
    }
  }

  /** Two areas in one list, side by side. */
  lemma LookupAround(lo: seq<Area>, mid: seq<Area>, hi: seq<Area>, a: nat)
    ensures Lookup(lo + mid + hi, a) ==
      if Lookup(lo, a).Some? then Lookup(lo, a) else if Lookup(mid, a).Some? then Lookup(mid, a) else Lookup(hi, a)
  {
    LookupConcat(lo + mid, hi, a);
    LookupConcat(lo, mid, a);
  }

  lemma AbsorbOrdered(lo: seq<Area>, x: Area, y: Area, hi: seq<Area>)
    requires Ordered(lo + [x, y] + hi) && x.region.End() == y.region.start
    ensures Ordered(lo + [Merged(x, y)] + hi)
  {
    var m := Merged(x, y);
    OrderedSplit(lo + [x, y], hi);
    OrderedSplit(lo, [x, y]);
    assert [x, y][0] == x && [x, y][1] == y && (lo + [x, y])[|lo|] == x && (lo + [x, y])[|lo| + 1] == y;
    OrderedConcat(lo, [m]);
    forall i, j | 0 <= i < |lo + [m]| && 0 <= j < |hi| ensures (lo + [m])[i].region.End() <= hi[j].region.start {
      assert i < |lo| ==> (lo + [m])[i] == (lo + [x, y])[i];
    }
    OrderedConcat(lo + [m], hi);
  }

  /** Replacing two adjacent areas of equal permissions by their merger. */
  lemma AbsorbPerms(lo: seq<Area>, x: Area, y: Area, hi: seq<Area>, a: nat)
    requires x.region.End() == y.region.start && x.perms == y.perms
    ensures PermsAt(lo + [Merged(x, y)] + hi, a) == PermsAt(lo + [x, y] + hi, a)
  {
    LookupAround(lo, [x, y], hi, a);
    LookupAround(lo, [Merged(x, y)], hi, a);
    LookupOne(Merged(x, y), a);
    assert [x, y] == [x] + [y];
    LookupConcat([x], [y], a);
    LookupOne(x, a);
    LookupOne(y, a);
  }

  lemma AbsorbAt(lo: seq<Area>, x: Area, y: Area, hi: seq<Area>)
    requires Ordered(lo + [x, y] + hi) && x.region.End() == y.region.start && x.perms == y.perms
    ensures Ordered(lo + [Merged(x, y)] + hi)
    ensures forall a: nat :: PermsAt(lo + [Merged(x, y)] + hi, a) == PermsAt(lo + [x, y] + hi, a)
  {
    hide Ordered, PermsAt;
    AbsorbOrdered(lo, x, y, hi);
    forall a: nat ensures PermsAt(lo + [Merged(x, y)] + hi, a) == PermsAt(lo + [x, y] + hi, a) {
      AbsorbPerms(lo, x, y, hi, a);
    }
  }

  lemma JoinedPerms(lo: seq<Area>, v: Area, hi: seq<Area>)
    requires Ordered(lo + [v] + hi)
    ensures Ordered(Joined(lo, v, hi))
    ensures forall a: nat :: PermsAt(Joined(lo, v, hi), a) == PermsAt(lo + [v] + hi, a)
  {
    var w := if JoinsNext(v, hi) then Merged(v, hi[0]) else v;
    var rest := if JoinsNext(v, hi) then hi[1..] else hi;
    if JoinsNext(v, hi) {
      assert lo + [v] + hi == lo + [v, hi[0]] + rest;
      AbsorbAt(lo, v, hi[0], rest);
    }
    if JoinsPrevious(lo, w) {
      var front, last := lo[..|lo| - 1], lo[|lo| - 1];
      assert lo + [w] + rest == front + [last, w] + rest;
      AbsorbAt(front, last, w, rest);
    }
  }

  /** The list around the place of the new area, once the range is unmapped. */
  lemma PlaceFor(vmas: seq<Area>, v: Area)
    requires Ordered(vmas) && v.region.size > 0
    ensures var u := Unmapped(vmas, v.region); var k := Below(u, v.region.start);
      Ordered(u[..k] + [v] + u[k..])
  {
    var u := Unmapped(vmas, v.region);
    var k := Below(u, v.region.start);
    UnmappedOrdered(vmas, v.region);
    BelowSplits(u, v.region.start);
    forall i | 0 <= i < |u| ensures u[i].region.End() <= v.region.start || v.region.End() <= u[i].region.start {
      UnmappedMisses(vmas, v.region, i);
    }
    OrderedConcat(u[..k], [v]);
    OrderedConcat(u[..k] + [v], u[k..]);
  }

  lemma UnmappedMisses(vmas: seq<Area>, hole: Region, i: nat)
    requires Ordered(vmas) && hole.size > 0 && i < |Unmapped(vmas, hole)|
    ensures var r := Unmapped(vmas, hole)[i].region; r.End() <= hole.start || hole.End() <= r.start
  {
    var u := Unmapped(vmas, hole);
    var r := u[i].region;
    UnmappedOrdered(vmas, hole);
    if r.Overlaps(hole) {
      var a := Max(r.start, hole.start);
      LookupIs(u, i, a);
      UnmappedAt(vmas, hole, a);
    }
  }

  /** Insertion sets the permissions of exactly its range, whatever it overlaps, cuts and
      merges with on the way. */
  lemma InsertedPerms(vmas: seq<Area>, v: Area)
    requires Ordered(vmas) && v.region.size > 0
    ensures Ordered(Inserted(vmas, v))
    ensures forall a: nat ::
      PermsAt(Inserted(vmas, v), a) == if v.region.Has(a) then Some(v.perms) else PermsAt(vmas, a)
  {
    var u := Unmapped(vmas, v.region);
    var k := Below(u, v.region.start);
    PlaceFor(vmas, v);
    JoinedPerms(u[..k], v, u[k..]);
    forall a: nat
      ensures PermsAt(u[..k] + [v] + u[k..], a) == if v.region.Has(a) then Some(v.perms) else PermsAt(vmas, a)
    {
      PlacedPerms(vmas, v, u, k, a);
    }
  }

  lemma PlacedPerms(vmas: seq<Area>, v: Area, u: seq<Area>, k: nat, a: nat)
    requires Ordered(vmas) && v.region.size > 0 && u == Unmapped(vmas, v.region) && k <= |u|
    ensures PermsAt(u[..k] + [v] + u[k..], a) == if v.region.Has(a) then Some(v.perms) else PermsAt(vmas, a)
  {
    UnmappedAt(vmas, v.region, a);
    assert u == u[..k] + u[k..];
    LookupConcat(u[..k], u[k..], a);
    LookupAround(u[..k], [v], u[k..], a);
    LookupOne(v, a);
  }

  // ----------------------------------------------------------------- permissions

  /** Where an address falls among the areas. */
  function IndexOf(vmas: seq<Area>, a: nat): (i: nat)
    ensures i <= |vmas| && (i < |vmas| ==> vmas[i].region.Has(a))
    ensures forall j | 0 <= j < i :: !vmas[j].region.Has(a)
  {
    if vmas == [] || vmas[0].region.Has(a) then 0 else 1 + IndexOf(vmas[1..], a)
  }

  function Without(vmas: seq<Area>, i: nat): seq<Area>
    requires i < |vmas|
  {
    vmas[..i] + vmas[i + 1..]
  }

  function InsertedAll(vmas: seq<Area>, news: seq<Area>): seq<Area>
    decreases |news|
  {
    if news == [] then vmas else InsertedAll(Inserted(vmas, news[0]), news[1..])
  }

  /** What takes the place of an area when part or all of it changes permissions. */
  function Replacement(area: Area, range: Region, perms: Perms): seq<Area>
    requires area.region.Contains(range)
  {
    if area.region == range then [area.(perms := perms)] else Pieces(area, range, perms)
  }

  /** Changes the permissions of a range.  The area of its first address is taken out; if
      it holds the whole range its pieces are put in, and otherwise the call fails. */
  function Mprotect(vmas: seq<Area>, range: Region, perms: Perms): (seq<Area>, Result<()>) {
    if range.start % PAGE_SIZE != 0 || range.size == 0 then (vmas, Err(InvalidValue))
    else
      var i := IndexOf(vmas, range.start);
      if i == |vmas| then (vmas, Err(NoMemory))
      else if !vmas[i].region.Contains(range) then (Without(vmas, i), Err(NoMemory))
      else (InsertedAll(Without(vmas, i), Replacement(vmas[i], range, perms)), Ok(()))
  }

  lemma WithoutPerms(vmas: seq<Area>, i: nat)
    requires Ordered(vmas) && i < |vmas|
    ensures Ordered(Without(vmas, i))
    ensures forall a: nat ::
      PermsAt(Without(vmas, i), a) == if vmas[i].region.Has(a) then None else PermsAt(vmas, a)
  {
    var less := Without(vmas, i);
    assert forall j | 0 <= j < |less| :: less[j] == vmas[if j < i then j else j + 1];
    forall a: nat ensures PermsAt(less, a) == if vmas[i].region.Has(a) then None else PermsAt(vmas, a) {
      WithoutAt(vmas, i, a);
    }
  }

  lemma WithoutAt(vmas: seq<Area>, i: nat, a: nat)
    requires Ordered(vmas) && i < |vmas|
    ensures Lookup(Without(vmas, i), a) == if vmas[i].region.Has(a) then None else Lookup(vmas, a)
  {
    hide Lookup;
    var lo, hi := vmas[..i], vmas[i + 1..];
    assert vmas == lo + [vmas[i]] + hi;
    LookupAround(lo, [vmas[i]], hi, a);
    LookupOne(vmas[i], a);
    LookupConcat(lo, hi, a);
    if vmas[i].region.Has(a) {
      LookupHas(lo, a);
      LookupHas(hi, a);
      assert forall j | 0 <= j < |lo| :: lo[j] == vmas[j];
      assert forall j | 0 <= j < |hi| :: hi[j] == vmas[i + 1 + j];
    }
  }

  /** Inserting several areas sets the permissions of each one's range, the last winning. */
  lemma {:induction false} InsertedAllPerms(vmas: seq<Area>, news: seq<Area>)
    requires Ordered(vmas) && Ordered(news)
    ensures Ordered(InsertedAll(vmas, news))
    ensures forall a: nat ::
      PermsAt(InsertedAll(vmas, news), a) == if PermsAt(news, a).Some? then PermsAt(news, a) else PermsAt(vmas, a)
    decreases |news|
  {
    if news != [] {
      var rest := news[1..];
      assert forall i | 0 <= i < |rest| :: rest[i] == news[i + 1];
      InsertedPerms(vmas, news[0]);
      InsertedAllPerms(Inserted(vmas, news[0]), rest);
      forall a: nat | news[0].region.Has(a) ensures Lookup(rest, a).None? { LookupHas(rest, a); }
    }
  }

  lemma PiecesPerms(area: Area, range: Region, perms: Perms)
    requires area.region.Contains(range) && range.size > 0
    ensures Ordered(Pieces(area, range, perms))
    ensures forall a: nat ::
      PermsAt(Pieces(area, range, perms), a) ==
      if !area.region.Has(a) then None else if range.Has(a) then Some(perms) else Some(area.perms)
  {
    var pieces := Pieces(area, range, perms);
    var (left, right) := area.region.PunchHole(range);
    var lo := if left.Some? then [ShrinkTo(area, left.value)] else [];
    var hi := if right.Some? then [ShrinkTo(area, right.value)] else [];
    var mid := ShrinkTo(area, range).(perms := perms);
    assert pieces == lo + [mid] + hi;
    forall a: nat ensures PermsAt(pieces, a) ==
      if !area.region.Has(a) then None else if range.Has(a) then Some(perms) else Some(area.perms)
    {
      LookupAround(lo, [mid], hi, a);
      LookupOne(mid, a);
      if left.Some? { LookupOne(ShrinkTo(area, left.value), a); }
      if right.Some? { LookupOne(ShrinkTo(area, right.value), a); }
    }
  }

  lemma ReplacementPerms(area: Area, range: Region, perms: Perms)
    requires area.region.Contains(range) && range.size > 0
    ensures Ordered(Replacement(area, range, perms))
    ensures forall a: nat ::
      PermsAt(Replacement(area, range, perms), a) ==
      if !area.region.Has(a) then None else if range.Has(a) then Some(perms) else Some(area.perms)
  {
    if area.region == range {
      forall a: nat { LookupOne(area.(perms := perms), a); }
    } else {
      PiecesPerms(area, range, perms);
    }
  }

  /** A change of permissions that succeeds sets those of exactly the range, whatever it
      cuts and merges on the way.  It succeeds exactly when one area holds the range; when
      it fails, the map is as before except that the area of the first address, if there is
      one, is gone. */
  lemma MprotectPerms(vmas: seq<Area>, range: Region, perms: Perms)
    requires Ordered(vmas)
    ensures var (after, r) := Mprotect(vmas, range, perms);
      && Ordered(after)
      && (r == Err(InvalidValue) <==> range.start % PAGE_SIZE != 0 || range.size == 0)
      && (r == Err(InvalidValue) ==> after == vmas)
      && (r.Ok? <==> range.start % PAGE_SIZE == 0 && range.size > 0
                     && Lookup(vmas, range.start).Some? && Lookup(vmas, range.start).value.region.Contains(range))
      && (r.Ok? ==> forall a: nat :: PermsAt(after, a) == if range.Has(a) then Some(perms) else PermsAt(vmas, a))
      && (r == Err(NoMemory) ==>
            forall a: nat ::
              PermsAt(after, a) ==
              if Lookup(vmas, range.start).Some? && Lookup(vmas, range.start).value.region.Has(a) then None
              else PermsAt(vmas, a))
  {
    var i := IndexOf(vmas, range.start);
    LookupHas(vmas, range.start);
    if i < |vmas| {
      LookupIs(vmas, i, range.start);
      WithoutPerms(vmas, i);
      if vmas[i].region.Contains(range) && range.size > 0 {
        ReplacementPerms(vmas[i], range, perms);
        InsertedAllPerms(Without(vmas, i), Replacement(vmas[i], range, perms));
        forall a: nat | vmas[i].region.Has(a) ensures PermsAt(vmas, a) == Some(vmas[i].perms) { LookupIs(vmas, i, a); }
      }
    }
  }

  /** Protecting two areas at once: the call fails and the first area is gone. */
  lemma MprotectFailureExample(x: Area, y: Area, perms: Perms)
    requires x.region == Region(0, PAGE_SIZE) && y.region == Region(PAGE_SIZE, PAGE_SIZE)
    ensures Mprotect([x, y], Region(0, 2 * PAGE_SIZE), perms) == ([y], Err(NoMemory))
  {
    assert Without([x, y], 0) == [y];
  }
}
