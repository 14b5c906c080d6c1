/** The fault handlers and the region clone as code that updates page tables, page
    contents and reference counts in place.  Each is a sequence of `Cow` steps with
    nothing in between; `Cow` covers what may come in between. */
module CowKernel {
  import opened Common
  import opened Cow

  /** How a fault ends.  A page that turns out to be mapped already, when the handler maps
      it at once, stops the kernel. */
  datatype Resolution = Resolved | Denied | Deferred(id: nat) | Panicked

  /** A missing-page fault that waits for its file read: where the page goes, the frame it
      already owns, and the permissions of the area. */
  datatype Pending = Pending(slot: Slot, pfn: nat, perms: Perms)

  ghost function Phases(pending: map<nat, Pending>): map<Owner, Phase> {
    map i | i in pending :: Fault(i) := Demand(pending[i].slot, pending[i].pfn, pending[i].perms)
  }

  /** No operation holds the lock of an address space. */
  ghost predicate NoLocks(s: Sys) { forall a: nat :: Space(a) !in s.phase }

  ghost predicate Quiet(s: Sys) { Inv(s) && PinsAlone(s) && NoLocks(s) }

  /** A run of virtual pages with one set of permissions, as an area of a memory map. */
  datatype Area = Area(lo: nat, n: nat, perms: Perms) {
    predicate Has(v: nat) { lo <= v < lo + n }

    /** What fork leaves on the area's pages: writable becomes copy-on-write. */
    function ForkPerms(): Perms { if perms.write then perms.IntoCow() else perms }
  }

  /** What fork must leave on a page of an area whose permissions are `own`: no write, but a
      copy-on-write mark if the area is writable, and all else as the area has it. */
  predicate ForkedAs(own: Perms, got: Perms) {
    && got.read == own.read && got.execute == own.execute && got.user == own.user
    && !got.write && got.cow == (own.write || own.cow)
  }

  /** What a resolved write fault must leave on a page: write, no mark, and all else as it
      was. */
  predicate Reopened(was: Perms, now: Perms) {
    && now.read == was.read && now.execute == was.execute && now.user == was.user
    && now.write && !now.cow
  }

  ghost predicate DisjointAreas(areas: seq<Area>) {
    forall i, j, v: nat | 0 <= i < j < |areas| && areas[i].Has(v) :: !areas[j].Has(v)
  }

  class Machine {
    var pt: map<Slot, Pte>
    var mem: map<nat, Page>
    var refs: map<nat, nat>
    var pending: map<nat, Pending>
    ghost var pins: map<nat, nat>

    ghost function Abs(): Sys
      reads this
    {
      Sys(pt, mem, refs, Phases(pending), pins)
    }

    ghost predicate Valid()
      reads this
    {
      Quiet(Abs())
    }

    constructor ()
      ensures Valid() && pt == map[] && refs == map[] && pending == map[]
    {
      pt, mem, refs, pending, pins := map[], map[], map[], map[], map[];
      new;
      assert forall f: nat :: Mappers(map[], f) == {} && Holders(map[], f) == {};
    }

    /** A missing page.  A page with no file contents is zeroed and mapped at once, and the
        kernel stops if it was mapped after all; for any other the fault keeps its frame
        and waits for the read, without the lock.  `frame` is what the allocator offers. */
    method HandleDemandFault(slot: Slot, allowed: bool, fromFile: bool, perms: Perms, frame: Option<nat>, id: nat)
      returns (r: Result<Resolution>)
      requires Valid() && !perms.cow && id !in pending
      requires frame.Some? ==> frame.value !in refs
      modifies this
      ensures Valid()
      ensures r == Ok(Panicked) <==> allowed && frame.Some? && !fromFile && slot in old(pt)
      ensures r == Ok(Panicked) ==> pt == old(pt) && View(Abs()) == old(View(Abs()))
      ensures !allowed ==> r == Ok(Denied) && Abs() == old(Abs())
      ensures allowed && frame.None? ==> r == Err(NoMemory) && Abs() == old(Abs())
      ensures allowed && frame.Some? && fromFile ==>
        && r == Ok(Deferred(id)) && View(Abs()) == old(View(Abs())) && pt == old(pt)
        && pending == old(pending)[id := Pending(slot, frame.value, perms)]
      ensures allowed && frame.Some? && !fromFile && slot !in old(pt) ==>
        && r == Ok(Resolved) && View(Abs()) == old(View(Abs()))[slot := ZeroPage()]
        && pt == old(pt)[slot := Pte(frame.value, perms)] && pending == old(pending)
    {
      hide Quiet, View, Phases;
      if !allowed {
        return Ok(Denied);
      }
      if frame.None? {
        return Err(NoMemory);
      }
      StartDemand(slot, perms, frame.value, id);
      if fromFile {
        return Ok(Deferred(id));
      }
      assert pending - {id} == old(pending);
      if slot in pt {
        LoseDemand(id);
        return Ok(Panicked);
      }
      MapDemand(id);
      return Ok(Resolved);
    }

    method StartDemand(slot: Slot, perms: Perms, frame: nat, id: nat)
      requires Valid() && !perms.cow && id !in pending && frame !in refs
      modifies this
      ensures Valid() && View(Abs()) == old(View(Abs())) && pt == old(pt)
      ensures pending == old(pending)[id := Pending(slot, frame, perms)]
      ensures frame in mem && mem[frame] == ZeroPage()
    {
      hide Quiet, View;
      ghost var s := Abs();
      PhasesPut(pending, id, Pending(slot, frame, perms));
      mem := mem[frame := ZeroPage()];
      refs := refs[frame := 1];
      pending := pending[id := Pending(slot, frame, perms)];
      DemandStarts(s, Abs(), id, slot, frame, perms);
    }

    /** Maps the frame of a fault whose page is still missing. */
    method MapDemand(id: nat)
      requires Valid() && id in pending && pending[id].slot !in pt
      modifies this`pt, this`pending
      ensures Valid() && pending == old(pending) - {id}
      ensures var Pending(slot, f, perms) := old(pending)[id];
        && pt == old(pt)[slot := Pte(f, perms)] && f in old(mem)
        && View(Abs()) == old(View(Abs()))[slot := old(mem)[f]]
    {
      hide Quiet, View;
      ghost var s := Abs();
      var Pending(slot, f, perms) := pending[id];
      PhasesDrop(pending, id);
      pt := pt[slot := Pte(f, perms)];
      pending := pending - {id};
      DemandEnds(s, Abs(), id, slot, f, perms);
    }

    /** A waiting fault gets its page, or `None` if the read failed, and takes the lock
        again.  If the area has changed it gives its frame back and the access is tried
        anew; if the page has been mapped meanwhile its frame is lost; otherwise the page
        is mapped.  `valid` says that the area is unchanged. */
    method CompleteDemandFault(id: nat, page: Option<Page>, valid: bool) returns (r: Result<()>)
      requires Valid() && id in pending
      modifies this
      ensures Valid() && pending == old(pending) - {id}
      ensures var Pending(slot, f, perms) := old(pending)[id];
        && (page.None? <==> r == Err(ReadFailed))
        && (page.Some? && valid && slot in old(pt) <==> r == Err(AlreadyMapped))
        && (r.Err? ==> r.error in {ReadFailed, AlreadyMapped})
        && (r.Err? || !valid ==> pt == old(pt) && View(Abs()) == old(View(Abs())))
        && (r.Ok? && valid ==>
              pt == old(pt)[slot := Pte(f, perms)] && View(Abs()) == old(View(Abs()))[slot := page.value])
        && (Lost(Abs(), f) <==> r == Err(AlreadyMapped))
    {
      hide Quiet, View, Phases;
      if page.None? {
        AbortDemand(id);
        return Err(ReadFailed);
      }
      if !valid {
        AbortDemand(id);
        return Ok(());
      }
      ReadDemand(id, page.value);
      if pending[id].slot in pt {
        LoseDemand(id);
        return Err(AlreadyMapped);
      }
      MapDemand(id);
      assert pt[old(pending)[id].slot].pfn == old(pending)[id].pfn;
      return Ok(());
    }

    method ReadDemand(id: nat, page: Page)
      requires Valid() && id in pending
      modifies this`mem
      ensures Valid() && View(Abs()) == old(View(Abs())) && mem == old(mem)[pending[id].pfn := page]
    {
      hide Quiet, View;
      ghost var s := Abs();
      mem := mem[pending[id].pfn := page];
      DemandFills(s, Abs(), id, page);
    }

    method AbortDemand(id: nat)
      requires Valid() && id in pending
      modifies this
      ensures Valid() && View(Abs()) == old(View(Abs())) && pt == old(pt) && pending == old(pending) - {id}
      ensures old(pending)[id].pfn !in refs
    {
      hide Quiet, View;
      ghost var s := Abs();
      var f := pending[id].pfn;
      PhasesDrop(pending, id);
      mem := mem - {f};
      refs := refs - {f};
      pending := pending - {id};
      DemandGivesUp(s, Abs(), id, f);
    }

    /** The mapping is refused after the frame was given up to it. */
    method LoseDemand(id: nat)
      requires Valid() && id in pending && pending[id].slot in pt
      modifies this`pending, this`pins
      ensures Valid() && View(Abs()) == old(View(Abs())) && pending == old(pending) - {id}
      ensures Lost(Abs(), old(pending)[id].pfn)
    {
      hide Quiet, View, Lost;
      ghost var s, f := Abs(), pending[id].pfn;
      PhasesDrop(pending, id);
      pending := pending - {id};
      pins := pins[f := Pinned(pins, f) + 1];
      DemandLoses(s, Abs(), id, f);
    }

    /** A present page whose permissions forbid the access.  A write to a copy-on-write
        page ends with the page writable and every space seeing what it saw; anything
        else is denied and changes nothing. */
    method HandleProtectionFault(a: nat, vpn: nat, write: bool, frame: Option<nat>) returns (r: Result<Resolution>)
      requires Valid() && Slot(a, vpn) in pt
      requires frame.Some? ==> frame.value !in refs
      modifies this
      ensures Valid() && View(Abs()) == old(View(Abs()))
      ensures pt - {Slot(a, vpn)} == old(pt) - {Slot(a, vpn)} && Slot(a, vpn) in pt
      ensures r == Ok(Denied) <==> !(write && old(pt)[Slot(a, vpn)].perms.cow)
      ensures r == Err(NoMemory) <==>
        write && old(pt)[Slot(a, vpn)].perms.cow && old(Abs()).RefOf(old(pt)[Slot(a, vpn)].pfn) > 1 && frame.None?
      ensures r in {Ok(Denied), Ok(Resolved), Err(NoMemory)}
      ensures r != Ok(Resolved) ==> Abs() == old(Abs())
      ensures r == Ok(Resolved) ==>
        var was, now := old(pt)[Slot(a, vpn)], pt[Slot(a, vpn)];
        && Reopened(was.perms, now.perms)
        && if old(Abs()).RefOf(was.pfn) == 1 then now.pfn == was.pfn && refs == old(refs)
           else
             && frame.Some? && now.pfn == frame.value && was.pfn in old(refs)
             && refs == old(refs)[frame.value := 1][was.pfn := old(refs)[was.pfn] - 1]
    {
      hide Quiet, View, Phases;
      var pte := pt[Slot(a, vpn)];
      if !(write && pte.perms.cow) {
        return Ok(Denied);
      }
      QuietRefs(Abs(), Slot(a, vpn));
      if refs[pte.pfn] == 1 {
        ClaimPage(a, vpn);
        return Ok(Resolved);
      }
      if frame.None? {
        return Err(NoMemory);
      }
      CopyPage(a, vpn, frame.value);
      return Ok(Resolved);
    }

    method ClaimPage(a: nat, vpn: nat)
      requires Valid() && Slot(a, vpn) in pt && pt[Slot(a, vpn)].perms.cow
      requires Abs().RefOf(pt[Slot(a, vpn)].pfn) == 1
      modifies this`pt
      ensures Valid() && View(Abs()) == old(View(Abs()))
      ensures Slot(a, vpn) in pt && Reopened(old(pt)[Slot(a, vpn)].perms, pt[Slot(a, vpn)].perms)
      ensures pt == old(pt)[Slot(a, vpn) := Pte(old(pt)[Slot(a, vpn)].pfn, pt[Slot(a, vpn)].perms)]
    {
      hide Quiet, View, Phases;
      ghost var s := Abs();
      var pte := pt[Slot(a, vpn)];
      pt := pt[Slot(a, vpn) := Pte(pte.pfn, pte.perms.FromCow())];
      ClaimRun(s, a, vpn, pte, Abs());
    }

    method CopyPage(a: nat, vpn: nat, frame: nat)
      requires Valid() && Slot(a, vpn) in pt && pt[Slot(a, vpn)].perms.cow
      requires Abs().RefOf(pt[Slot(a, vpn)].pfn) > 1 && frame !in refs
      modifies this`pt, this`mem, this`refs
      ensures Valid() && View(Abs()) == old(View(Abs()))
      ensures Slot(a, vpn) in pt && Reopened(old(pt)[Slot(a, vpn)].perms, pt[Slot(a, vpn)].perms)
      ensures pt == old(pt)[Slot(a, vpn) := Pte(frame, pt[Slot(a, vpn)].perms)]
      ensures var f := old(pt)[Slot(a, vpn)].pfn;
        f in old(refs) && refs == old(refs)[frame := 1][f := old(refs)[f] - 1]
    {
      hide Quiet, View, Phases;
      ghost var s := Abs();
      var pte := pt[Slot(a, vpn)];
      QuietRefs(s, Slot(a, vpn));
      mem := mem[frame := ZeroPage()];
      refs := refs[frame := 1];
      mem := mem[frame := mem[pte.pfn]];
      pt := pt[Slot(a, vpn) := Pte(frame, pte.perms.FromCow())];
      refs := refs[pte.pfn := refs[pte.pfn] - 1];
      assert mem == old(mem)[frame := old(mem)[pte.pfn]];
      CopyRun(s, a, vpn, pte, frame, Abs());
    }

    /** Forks the mapped pages of `n` virtual pages from `lo`: the child sees a copy of
        each, nobody else sees a change, and no page of the region stays writable. */
    method ProtectAndCloneRegion(a: nat, child: nat, lo: nat, n: nat, perms: Perms)
      requires Valid() && a != child && !perms.write
      requires forall v | lo <= v < lo + n :: Slot(child, v) !in pt
      modifies this
      ensures Valid() && refs.Keys == old(refs).Keys
      ensures View(Abs()) == Forked(old(View(Abs())), a, child, lo, n)
      ensures pt == Recloned(old(pt), a, child, lo, n, perms)
      ensures forall v | lo <= v < lo + n && Slot(a, v) in old(pt) ::
                && Slot(a, v) in pt && Slot(child, v) in pt
                && pt[Slot(a, v)] == pt[Slot(child, v)] == Pte(old(pt)[Slot(a, v)].pfn, perms)
    {
      hide Quiet, View, Phases;
      for i := 0 to n
        invariant Valid() && pt == Recloned(old(pt), a, child, lo, i, perms) && refs.Keys == old(refs).Keys
        invariant View(Abs()) == Forked(old(View(Abs())), a, child, lo, i)
      {
        CloneNext(a, child, lo, i, perms, old(pt), old(View(Abs())));
      }
      ReclonedSpec(old(pt), a, child, lo, n, perms);
    }

    /** Fork: every area is cloned into the empty space `child`, whose pages then show
        what the parent's show, while no space sees a change. */
    method CloneAsCow(a: nat, child: nat, areas: seq<Area>)
      requires Valid() && a != child && DisjointAreas(areas)
      requires forall v: nat :: Slot(child, v) !in pt
      modifies this
      ensures Valid() && refs.Keys == old(refs).Keys
      ensures View(Abs()) == ForkedAll(old(View(Abs())), a, child, areas)
      ensures SharedIn(old(pt), pt, a, child, areas) && KeptOutside(old(pt), pt, a, child, areas)
    {
      hide Quiet, View, Phases, Recloned, DisjointAreas, SharedIn, KeptOutside;
      UnmappedUnseen(Abs(), child);
      for i := 0 to |areas|
        invariant Valid() && View(Abs()) == ForkedAll(old(View(Abs())), a, child, areas[..i])
        invariant pt == ReclonedAll(old(pt), a, child, areas[..i]) && refs.Keys == old(refs).Keys
      {
        CloneArea(a, child, areas, i, old(View(Abs())), old(pt));
      }
      assert areas[..|areas|] == areas;
      ReclonedAllSpec(old(pt), a, child, areas);
    }

    /** A fork and then a write by either side to a mapped page of a writable area: the write
        is never denied, and when it is resolved the page has the area's own permissions
        again, its writer alone, and everyone sees what the fork left. */
    method ForkThenWrite(a: nat, child: nat, areas: seq<Area>, i: nat, v: nat, byChild: bool, frame: Option<nat>)
      returns (r: Result<Resolution>)
      requires Valid() && a != child && DisjointAreas(areas) && forall w: nat :: Slot(child, w) !in pt
      requires i < |areas| && areas[i].Has(v) && areas[i].perms.write && !areas[i].perms.cow && Slot(a, v) in pt
      requires frame.Some? ==> frame.value !in refs
      modifies this
      ensures Valid() && View(Abs()) == ForkedAll(old(View(Abs())), a, child, areas)
      ensures r == Ok(Resolved) <==> frame.Some?
      ensures r in {Ok(Resolved), Err(NoMemory)}
      ensures r == Ok(Resolved) ==>
        var k := Slot(if byChild then child else a, v);
        k in pt && pt[k].pfn == frame.value && pt[k].perms == areas[i].perms
    {
      hide Quiet, View, Phases, ForkedAll, KeptOutside, DisjointAreas;
      CloneAsCow(a, child, areas);
      assert Shares(pt, a, child, v, old(pt)[Slot(a, v)].pfn, areas[i].perms);
      SharedTwice(Abs(), Slot(a, v), Slot(child, v));
      r := HandleProtectionFault(if byChild then child else a, v, true, frame);
    }

    method CloneArea(a: nat, child: nat, areas: seq<Area>, i: nat, ghost e: map<Slot, Page>, ghost pt0: map<Slot, Pte>)
      requires Valid() && a != child && DisjointAreas(areas) && i < |areas|
      requires View(Abs()) == ForkedAll(e, a, child, areas[..i]) && pt == ReclonedAll(pt0, a, child, areas[..i])
      requires forall v: nat :: Slot(child, v) !in e
      modifies this
      ensures Valid() && View(Abs()) == ForkedAll(e, a, child, areas[..i + 1])
      ensures pt == ReclonedAll(pt0, a, child, areas[..i + 1]) && refs.Keys == old(refs).Keys
    {
      hide Quiet, View, Phases, Recloned, Forked;
      ForkedAllNext(e, a, child, areas, i);
      ReclonedAllNext(pt0, a, child, areas, i);
      NextAreaIsEmpty(Abs(), e, a, child, areas, i);
      ProtectAndCloneRegion(a, child, areas[i].lo, areas[i].n, areas[i].ForkPerms());
    }

    /** The clone of one more page, if it is mapped. */
    method CloneNext(a: nat, child: nat, lo: nat, i: nat, perms: Perms,
                     ghost pt0: map<Slot, Pte>, ghost e0: map<Slot, Page>)
      requires Valid() && a != child && !perms.write && Slot(child, lo + i) !in pt0
      requires pt == Recloned(pt0, a, child, lo, i, perms) && View(Abs()) == Forked(e0, a, child, lo, i)
      modifies this`pt, this`refs
      ensures Valid() && pt == Recloned(pt0, a, child, lo, i + 1, perms) && refs.Keys == old(refs).Keys
      ensures View(Abs()) == Forked(e0, a, child, lo, i + 1)
    {
      hide Quiet, View, Phases, Recloned, Forked;
      ghost var pt1, e1 := Recloned(pt0, a, child, lo, i + 1, perms), Forked(e0, a, child, lo, i + 1);
      var v := lo + i;
      RegionStep(Abs(), pt0, e0, a, child, lo, v, i, perms, pt1, e1);
      if Slot(a, v) in pt {
        ClonePage(a, child, v, perms);
      }
    }

    method ClonePage(a: nat, child: nat, v: nat, perms: Perms)
      requires Valid() && a != child && !perms.write && Slot(a, v) in pt && Slot(child, v) !in pt
      modifies this`pt, this`refs
      ensures Valid() && View(Abs()) == EagerNext(old(View(Abs())), CloneProtect(a, child, v))
      ensures refs.Keys == old(refs).Keys
      ensures pt == old(pt)[Slot(a, v) := Pte(old(pt)[Slot(a, v)].pfn, perms)]
                           [Slot(child, v) := Pte(old(pt)[Slot(a, v)].pfn, perms)]
    {
      hide Quiet, View, Phases;
      ghost var s := Abs();
      var f := pt[Slot(a, v)].pfn;
      QuietRefs(s, Slot(a, v));
      refs := refs[f := refs[f] + 1];
      pt := pt[Slot(child, v) := Pte(f, perms)];
      pt := pt[Slot(a, v) := Pte(f, perms)];
      assert pt == old(pt)[Slot(a, v) := Pte(f, perms)][Slot(child, v) := Pte(f, perms)];
      CloneRun(s, a, child, v, f, perms, Abs());
    }
  }

  // ------------------------------------------- the handlers as runs of the protocol

  lemma PhasesPut(pending: map<nat, Pending>, i: nat, p: Pending)
    ensures Phases(pending[i := p]) == Phases(pending)[Fault(i) := Demand(p.slot, p.pfn, p.perms)]
  {
  }

  lemma PhasesDrop(pending: map<nat, Pending>, i: nat)
    ensures Phases(pending - {i}) == Phases(pending) - {Fault(i)}
  {
  }

  lemma UnmappedUnseen(s: Sys, a: nat)
    requires forall v: nat :: Slot(a, v) !in s.pt
    ensures forall v: nat :: Slot(a, v) !in View(s)
  {
  }

  /** A frame with two mappings has at least two references. */
  lemma SharedTwice(s: Sys, k: Slot, j: Slot)
    requires Quiet(s) && k in s.pt && j in s.pt && k != j && s.pt[k].pfn == s.pt[j].pfn
    ensures s.RefOf(s.pt[k].pfn) >= 2
  {
    var f := s.pt[k].pfn;
    assert Accounts(s, f) && {k, j} <= Mappers(s.pt, f);
    assert Mappers(s.pt, f) == {k, j} + (Mappers(s.pt, f) - {k, j});
  }

  lemma QuietRefs(s: Sys, k: Slot)
    requires Quiet(s) && k in s.pt
    ensures s.pt[k].pfn in s.refs && s.RefOf(s.pt[k].pfn) >= 1 && s.pt[k].pfn in s.mem
  {
    MappedIsAllocated(s, k);
  }

  lemma DemandStarts(s: Sys, t: Sys, i: nat, k: Slot, f: nat, perms: Perms)
    requires Quiet(s) && !perms.cow && Fault(i) !in s.phase && f !in s.refs
    requires t == s.(mem := s.mem[f := ZeroPage()], refs := s.refs[f := 1],
                     phase := s.phase[Fault(i) := Demand(k, f, perms)])
    ensures Quiet(t) && View(t) == View(s)
  {
    DemandAllocOk(s, t, Fault(i), k, f, perms);
    Unreferenced(s, f);
    UnmappedInvisible(s, t, f);
    FreeIsNotPinned(s, f);
  }

  /** A waiting fault is the only owner of its frame. */
  lemma DemandOwns(s: Sys, i: nat, f: nat)
    requires Quiet(s) && s.PhaseOf(Fault(i)).Demand? && s.PhaseOf(Fault(i)).pfn == f
    ensures s.RefOf(f) == 1 && f in s.mem && Pinned(s.pins, f) == 0
    ensures forall k | k in s.pt :: s.pt[k].pfn != f
  {
    assert PhaseOk(s, Fault(i));
    HeldAlone(s, Fault(i), f);
    HeldIsNotPinned(s, Fault(i), f);
  }

  lemma DemandFills(s: Sys, t: Sys, i: nat, page: Page)
    requires Quiet(s) && s.PhaseOf(Fault(i)).Demand? && t == s.(mem := s.mem[s.PhaseOf(Fault(i)).pfn := page])
    ensures Quiet(t) && View(t) == View(s)
  {
    var f := s.PhaseOf(Fault(i)).pfn;
    DemandOwns(s, i, f);
    DemandReadOk(s, t, Fault(i), page);
    UnmappedInvisible(s, t, f);
  }

  lemma DemandGivesUp(s: Sys, t: Sys, i: nat, f: nat)
    requires Quiet(s) && s.PhaseOf(Fault(i)).Demand? && s.PhaseOf(Fault(i)).pfn == f
    requires t == s.(mem := s.mem - {f}, refs := s.refs - {f}, phase := s.phase - {Fault(i)})
    ensures Quiet(t) && View(t) == View(s)
  {
    DemandOwns(s, i, f);
    DemandAbortOk(s, t, Fault(i), f);
    UnmappedInvisible(s, t, f);
  }

  lemma DemandEnds(s: Sys, t: Sys, i: nat, k: Slot, f: nat, perms: Perms)
    requires Quiet(s) && s.PhaseOf(Fault(i)) == Demand(k, f, perms) && k !in s.pt
    requires t == s.(pt := s.pt[k := Pte(f, perms)], phase := s.phase - {Fault(i)})
    ensures Quiet(t) && f in s.mem && View(t) == View(s)[k := s.mem[f]]
  {
    DemandOwns(s, i, f);
    DemandMapOk(s, t, Fault(i), k, f, perms);
    DemandMapShowsPage(s, DemandMap(i, k, s.mem[f]));
    ViewSlots(s, k);
  }

  lemma DemandLoses(s: Sys, t: Sys, i: nat, f: nat)
    requires Quiet(s) && s.PhaseOf(Fault(i)).Demand? && s.PhaseOf(Fault(i)).pfn == f
    requires t == s.(pins := s.pins[f := Pinned(s.pins, f) + 1], phase := s.phase - {Fault(i)})
    ensures Quiet(t) && View(t) == View(s) && Lost(t, f)
  {
    DemandOwns(s, i, f);
    DemandLeakOk(s, t, Fault(i), f);
    PhaseInvisible(s, t);
    assert forall g: nat | g != f :: Pinned(t.pins, g) == Pinned(s.pins, g);
    LostIsPinned(t, f);
  }

  lemma ClaimRun(s: Sys, a: nat, vpn: nat, pte: Pte, t: Sys)
    requires Quiet(s) && Maps(s, a, vpn, pte) && pte.perms.cow && s.RefOf(pte.pfn) == 1
    requires t == s.(pt := s.pt[Slot(a, vpn) := Pte(pte.pfn, pte.perms.FromCow())])
    ensures Quiet(t) && View(t) == View(s)
  {
    hide PhaseOk, SoleWriter, Accounted, View;
    var checked := s.(phase := s.phase[Space(a) := Exclusive(vpn, pte)]);
    FaultCheckOk(s, checked, a, vpn, pte, Exclusive(vpn, pte));
    assert checked.phase - {Space(a)} == s.phase;
    TakeOwnershipOk(checked, t, a, vpn, pte);
    MappedIsAllocated(s, Slot(a, vpn));
    RemapInvisible(s, t, Slot(a, vpn), Pte(pte.pfn, pte.perms.FromCow()));
  }

  /** Check, allocate, copy, remap and drop, with nothing in between. */
  lemma CopyRun(s: Sys, a: nat, vpn: nat, pte: Pte, n: nat, t: Sys)
    requires Quiet(s) && Maps(s, a, vpn, pte) && pte.perms.cow
    requires s.RefOf(pte.pfn) > 1 && n !in s.refs && pte.pfn in s.mem
    requires t == s.(pt := s.pt[Slot(a, vpn) := Pte(n, pte.perms.FromCow())],
                     mem := s.mem[n := s.mem[pte.pfn]],
                     refs := s.refs[n := 1][pte.pfn := s.refs[pte.pfn] - 1])
    ensures Quiet(t) && View(t) == View(s)
  {
    hide PhaseOk, SoleWriter, Accounted, View;
    var zeroed := s.(mem := s.mem[n := ZeroPage()], refs := s.refs[n := 1],
                     phase := s.phase[Space(a) := Zeroed(vpn, pte, n)]);
    CopyRunStarts(s, a, vpn, pte, n, zeroed);
    var remapped := zeroed.(pt := t.pt, mem := t.mem, phase := s.phase[Space(a) := Remapped(pte.pfn)]);
    CopyRunEnds(s, zeroed, a, vpn, pte, n, remapped);
    assert remapped.phase - {Space(a)} == s.phase;
    FaultDropOk(remapped, t, a, pte.pfn);
    PhaseInvisible(remapped, t);
    MappedIsNotPinned(s, Slot(a, vpn));
    FreeIsNotPinned(s, n);
  }

  lemma CopyRunStarts(s: Sys, a: nat, vpn: nat, pte: Pte, n: nat, t: Sys)
    requires Inv(s) && NoLocks(s) && Maps(s, a, vpn, pte) && pte.perms.cow
    requires s.RefOf(pte.pfn) > 1 && n !in s.refs
    requires t == s.(mem := s.mem[n := ZeroPage()], refs := s.refs[n := 1],
                     phase := s.phase[Space(a) := Zeroed(vpn, pte, n)])
    ensures Inv(t) && View(t) == View(s)
  {
    hide PhaseOk, SoleWriter, Accounted, View;
    var checked := s.(phase := s.phase[Space(a) := Shared(vpn, pte)]);
    FaultCheckOk(s, checked, a, vpn, pte, Shared(vpn, pte));
    assert checked.phase[Space(a) := Zeroed(vpn, pte, n)] == t.phase;
    FaultAllocOk(checked, t, a, vpn, pte, n);
    Unreferenced(s, n);
    UnmappedInvisible(s, t, n);
  }

  lemma CopyRunEnds(s0: Sys, s: Sys, a: nat, vpn: nat, pte: Pte, n: nat, t: Sys)
    requires Inv(s) && NoLocks(s0) && s.phase == s0.phase[Space(a) := Zeroed(vpn, pte, n)]
    requires pte.pfn in s.mem && pte.pfn != n
    requires t == s.(pt := s.pt[Slot(a, vpn) := Pte(n, pte.perms.FromCow())],
                     mem := s.mem[n := s.mem[pte.pfn]], phase := s0.phase[Space(a) := Remapped(pte.pfn)])
    ensures Inv(t) && View(t) == View(s)
  {
    var copied := s.(mem := t.mem, phase := s0.phase[Space(a) := Copied(vpn, pte, n)]);
    assert s.phase[Space(a) := Copied(vpn, pte, n)] == copied.phase;
    assert PhaseOk(s, Space(a));
    HeldAlone(s, Space(a), n);
    hide PhaseOk, SoleWriter, Accounted, View;
    FaultCopyOk(s, copied, a, vpn, pte, n);
    UnmappedInvisible(s, copied, n);
    assert copied.phase[Space(a) := Remapped(pte.pfn)] == t.phase;
    FaultRemapOk(copied, t, a, vpn, pte, n);
    RemapInvisible(copied, t, Slot(a, vpn), Pte(n, pte.perms.FromCow()));
  }

  /** The three steps of a page's clone, with nothing in between. */
  lemma CloneRun(s: Sys, a: nat, child: nat, v: nat, f: nat, perms: Perms, t: Sys)
    requires Quiet(s) && a != child && !perms.write
    requires Slot(a, v) in s.pt && Slot(child, v) !in s.pt && s.pt[Slot(a, v)].pfn == f && f in s.refs
    requires t == s.(pt := s.pt[Slot(a, v) := Pte(f, perms)][Slot(child, v) := Pte(f, perms)],
                     refs := s.refs[f := s.refs[f] + 1])
    ensures Quiet(t) && View(t) == EagerNext(View(s), CloneProtect(a, child, v))
  {
    hide PhaseOk, SoleWriter, Accounted, View;
    var mapped := s.(refs := t.refs, pt := s.pt[Slot(child, v) := Pte(f, perms)],
                     phase := s.phase[Space(a) := Cloned(v, f, child, perms)][Space(child) := Hidden(a, v)]);
    CloneRunMaps(s, a, child, v, f, perms, mapped);
    assert mapped.phase - {Space(a)} - {Space(child)} == s.phase;
    assert mapped.pt[Slot(a, v) := Pte(f, perms)] == t.pt;
    CloneProtectOk(mapped, t, a, child, v, f, perms);
    MappedIsNotPinned(s, Slot(a, v));
    CloneShows(s, t, a, child, v, f, perms);
  }

  lemma CloneRunMaps(s: Sys, a: nat, child: nat, v: nat, f: nat, perms: Perms, t: Sys)
    requires Inv(s) && NoLocks(s) && a != child && !perms.write
    requires Slot(a, v) in s.pt && Slot(child, v) !in s.pt && s.pt[Slot(a, v)].pfn == f && f in s.refs
    requires t == s.(refs := s.refs[f := s.refs[f] + 1], pt := s.pt[Slot(child, v) := Pte(f, perms)],
                     phase := s.phase[Space(a) := Cloned(v, f, child, perms)][Space(child) := Hidden(a, v)])
    ensures Inv(t)
  {
    hide PhaseOk, SoleWriter, Accounted, View;
    var taken := s.(refs := t.refs,
                    phase := s.phase[Space(a) := Cloning(v, f, child, perms)][Space(child) := Embryo(a)]);
    CloneTakeOk(s, taken, a, child, v, f, perms);
    assert taken.phase[Space(a) := Cloned(v, f, child, perms)][Space(child) := Hidden(a, v)] == t.phase;
    CloneMapOk(taken, t, a, child, v, f, perms);
  }

  lemma CloneShows(s: Sys, t: Sys, a: nat, child: nat, v: nat, f: nat, perms: Perms)
    requires Accounted(s) && NoLocks(s) && Slot(a, v) in s.pt && s.pt[Slot(a, v)].pfn == f
    requires t == s.(pt := s.pt[Slot(a, v) := Pte(f, perms)][Slot(child, v) := Pte(f, perms)], refs := t.refs)
    ensures View(t) == EagerNext(View(s), CloneProtect(a, child, v))
  {
    AllMappedInMem(s);
  }

  /** The page table after cloning the first `n` pages of a region. */
  ghost function Recloned(pt: map<Slot, Pte>, a: nat, child: nat, lo: nat, n: nat, perms: Perms): map<Slot, Pte> {
    if n == 0 then pt
    else
      var prev := Recloned(pt, a, child, lo, n - 1, perms);
      var v := lo + n - 1;
      if Slot(a, v) in pt
      then prev[Slot(a, v) := Pte(pt[Slot(a, v)].pfn, perms)][Slot(child, v) := Pte(pt[Slot(a, v)].pfn, perms)]
      else prev
  }

  lemma {:induction false} ReclonedSpec(pt: map<Slot, Pte>, a: nat, child: nat, lo: nat, n: nat, perms: Perms)
    requires a != child
    ensures var q := Recloned(pt, a, child, lo, n, perms);
      && (forall v: nat | lo <= v < lo + n && Slot(a, v) in pt ::
            && Slot(a, v) in q && Slot(child, v) in q
            && q[Slot(a, v)] == q[Slot(child, v)] == Pte(pt[Slot(a, v)].pfn, perms))
      && (forall k: Slot | !((k.space == a || k.space == child) && lo <= k.vpn < lo + n && Slot(a, k.vpn) in pt) ::
            (k in q <==> k in pt) && (k in pt ==> q[k] == pt[k]))
  {
    ReclonedInside(pt, a, child, lo, n, perms);
    ReclonedOutside(pt, a, child, lo, n, perms);
  }

  lemma {:induction false} ReclonedInside(pt: map<Slot, Pte>, a: nat, child: nat, lo: nat, n: nat, perms: Perms)
    requires a != child
    ensures var q := Recloned(pt, a, child, lo, n, perms);
      forall v: nat | lo <= v < lo + n && Slot(a, v) in pt ::
        && Slot(a, v) in q && Slot(child, v) in q
        && q[Slot(a, v)] == q[Slot(child, v)] == Pte(pt[Slot(a, v)].pfn, perms)
  {
    if n != 0 { ReclonedInside(pt, a, child, lo, n - 1, perms); }
  }

  lemma ReclonedOutside(pt: map<Slot, Pte>, a: nat, child: nat, lo: nat, n: nat, perms: Perms)
    ensures var q := Recloned(pt, a, child, lo, n, perms);
      forall k: Slot | !((k.space == a || k.space == child) && lo <= k.vpn < lo + n && Slot(a, k.vpn) in pt) ::
        (k in q <==> k in pt) && (k in pt ==> q[k] == pt[k])
  {
    forall k: Slot | !((k.space == a || k.space == child) && lo <= k.vpn < lo + n && Slot(a, k.vpn) in pt)
      ensures k in Recloned(pt, a, child, lo, n, perms) <==> k in pt
      ensures k in pt ==> Recloned(pt, a, child, lo, n, perms)[k] == pt[k]
    {
      ReclonedKeeps(pt, a, child, lo, n, perms, k);
    }
  }

  lemma {:induction false} ReclonedKeeps(pt: map<Slot, Pte>, a: nat, child: nat, lo: nat, n: nat, perms: Perms, k: Slot)
    requires !((k.space == a || k.space == child) && lo <= k.vpn < lo + n && Slot(a, k.vpn) in pt)
    ensures var q := Recloned(pt, a, child, lo, n, perms); (k in q <==> k in pt) && (k in pt ==> q[k] == pt[k])
  {
    if n != 0 { ReclonedKeeps(pt, a, child, lo, n - 1, perms, k); }
  }

  /** The eager copy of a region: every mapped page is copied to the child. */
  ghost function Forked(e: map<Slot, Page>, a: nat, child: nat, lo: nat, n: nat): map<Slot, Page> {
    if n == 0 then e
    else
      var prev := Forked(e, a, child, lo, n - 1);
      var v := lo + n - 1;
      if Slot(a, v) in e then prev[Slot(child, v) := e[Slot(a, v)]] else prev
  }

  /** What an eager copy shows: the child has the parent's pages of the region, and
      every other slot is as before. */
  lemma {:induction false} ForkedSpec(e: map<Slot, Page>, a: nat, child: nat, lo: nat, n: nat)
    requires a != child
    ensures var g := Forked(e, a, child, lo, n);
      && (forall v: nat | lo <= v < lo + n && Slot(a, v) in e ::
            Slot(child, v) in g && g[Slot(child, v)] == e[Slot(a, v)])
      && (forall k: Slot | !(k.space == child && lo <= k.vpn < lo + n && Slot(a, k.vpn) in e) ::
            (k in g <==> k in e) && (k in e ==> g[k] == e[k]))
  {
    if n != 0 { ForkedSpec(e, a, child, lo, n - 1); }
  }

  lemma RegionStep(s: Sys, pt: map<Slot, Pte>, e: map<Slot, Page>, a: nat, child: nat, lo: nat, v: nat, i: nat,
                   perms: Perms, pt1: map<Slot, Pte>, e1: map<Slot, Page>)
    requires Quiet(s) && a != child && v == lo + i && Slot(child, v) !in pt
    requires s.pt == Recloned(pt, a, child, lo, i, perms) && View(s) == Forked(e, a, child, lo, i)
    requires pt1 == Recloned(pt, a, child, lo, i + 1, perms) && e1 == Forked(e, a, child, lo, i + 1)
    ensures Slot(child, v) !in s.pt
    ensures Slot(a, v) !in s.pt ==> pt1 == s.pt && e1 == View(s)
    ensures Slot(a, v) in s.pt ==>
      && pt1 == s.pt[Slot(a, v) := Pte(s.pt[Slot(a, v)].pfn, perms)][Slot(child, v) := Pte(s.pt[Slot(a, v)].pfn, perms)]
      && e1 == EagerNext(View(s), CloneProtect(a, child, v))
  {
    ReclonedKeeps(pt, a, child, lo, i, perms, Slot(a, v));
    ReclonedKeeps(pt, a, child, lo, i, perms, Slot(child, v));
    ForkedOne(e, a, child, lo, i);
    ViewSlots(s, Slot(a, v));
    hide Quiet, View, Forked;
  }

  /** A slot is visible exactly when it is mapped. */
  lemma ViewSlots(s: Sys, k: Slot)
    requires Quiet(s)
    ensures k in View(s) <==> k in s.pt
  {
    AllMappedInMem(s);
  }

  lemma ForkedOne(e: map<Slot, Page>, a: nat, child: nat, lo: nat, i: nat)
    requires a != child
    ensures var v := lo + i; var g := Forked(e, a, child, lo, i);
      && (Slot(a, v) in g <==> Slot(a, v) in e)
      && Forked(e, a, child, lo, i + 1) ==
           EagerNext(g, CloneProtect(a, child, v))
  {
    ForkedSpec(e, a, child, lo, i);
  }

  ghost function ForkedAll(e: map<Slot, Page>, a: nat, child: nat, areas: seq<Area>): map<Slot, Page> {
    if areas == [] then e
    else
      var last := areas[|areas| - 1];
      Forked(ForkedAll(e, a, child, areas[..|areas| - 1]), a, child, last.lo, last.n)
  }

  /** The page table once every area is cloned. */
  ghost function ReclonedAll(pt: map<Slot, Pte>, a: nat, child: nat, areas: seq<Area>): map<Slot, Pte> {
    if areas == [] then pt
    else
      var last := areas[|areas| - 1];
      Recloned(ReclonedAll(pt, a, child, areas[..|areas| - 1]), a, child, last.lo, last.n, last.ForkPerms())
  }

  ghost predicate InAreas(areas: seq<Area>, v: nat) { exists i :: 0 <= i < |areas| && areas[i].Has(v) }

  /** After a fork the child has exactly the parent's mapped pages of the areas, with
      the same contents, and every other slot is as it was. */
  lemma {:induction false} ForkedAllSpec(e: map<Slot, Page>, a: nat, child: nat, areas: seq<Area>)
    requires a != child
    ensures var g := ForkedAll(e, a, child, areas);
      && (forall v: nat | InAreas(areas, v) && Slot(a, v) in e ::
            Slot(child, v) in g && g[Slot(child, v)] == e[Slot(a, v)])
      && (forall k: Slot | !(k.space == child && InAreas(areas, k.vpn) && Slot(a, k.vpn) in e) ::
            (k in g <==> k in e) && (k in e ==> g[k] == e[k]))
  {
    if areas != [] {
      var n := |areas| - 1;
      var rest, last := areas[..n], areas[n];
      ForkedAllSpec(e, a, child, rest);
      ForkedSpec(ForkedAll(e, a, child, rest), a, child, last.lo, last.n);
      InAreasSplit(areas, rest, last, n);
    }
  }

  /** After a fork, parent and child map every mapped page of an area to the same frame with
      the same permissions: read, execute and user are the area's, write is off, and the
      copy-on-write mark is on if the area is writable.  No other entry has changed. */
  lemma {:induction false} ReclonedAllSpec(pt: map<Slot, Pte>, a: nat, child: nat, areas: seq<Area>)
    requires a != child && DisjointAreas(areas) && forall v: nat :: Slot(child, v) !in pt
    ensures SharedIn(pt, ReclonedAll(pt, a, child, areas), a, child, areas)
    ensures KeptOutside(pt, ReclonedAll(pt, a, child, areas), a, child, areas)
  {
    if areas != [] {
      var n := |areas| - 1;
      var rest, last := areas[..n], areas[n];
      var p, q := ReclonedAll(pt, a, child, rest), ReclonedAll(pt, a, child, areas);
      ReclonedAllSpec(pt, a, child, rest);
      ReclonedLast(pt, p, q, a, child, areas, rest, last, n);
      ReclonedLastKeeps(pt, p, q, a, child, areas, rest, last, n);
    }
  }

  lemma InAreasSplit(areas: seq<Area>, rest: seq<Area>, last: Area, n: nat)
    requires n + 1 == |areas| && rest == areas[..n] && last == areas[n]
    ensures forall v: nat :: InAreas(areas, v) <==> InAreas(rest, v) || last.Has(v)
  {
    forall v: nat ensures InAreas(areas, v) <==> InAreas(rest, v) || last.Has(v) {
      if i :| 0 <= i < |rest| && rest[i].Has(v) { assert areas[i].Has(v); }
      if i :| 0 <= i < |areas| && areas[i].Has(v) { assert i < n ==> rest[i].Has(v); }
    }
  }

  /** What the clone of some areas leaves: their mapped pages shared under the areas'
      permissions, and every other entry as it was. */
  ghost predicate SharedIn(pt: map<Slot, Pte>, q: map<Slot, Pte>, a: nat, child: nat, areas: seq<Area>) {
    forall i, v: nat | 0 <= i < |areas| && areas[i].Has(v) && Slot(a, v) in pt ::
      Shares(q, a, child, v, pt[Slot(a, v)].pfn, areas[i].perms)
  }

  ghost predicate Shares(q: map<Slot, Pte>, a: nat, child: nat, v: nat, f: nat, own: Perms) {
    && Slot(a, v) in q && Slot(child, v) in q && q[Slot(a, v)] == q[Slot(child, v)]
    && q[Slot(a, v)].pfn == f && ForkedAs(own, q[Slot(a, v)].perms)
  }

  ghost predicate KeptOutside(pt: map<Slot, Pte>, q: map<Slot, Pte>, a: nat, child: nat, areas: seq<Area>) {
    forall k: Slot | !((k.space == a || k.space == child) && InAreas(areas, k.vpn) && Slot(a, k.vpn) in pt) ::
      (k in q <==> k in pt) && (k in pt ==> q[k] == pt[k])
  }

  lemma ReclonedLast(pt: map<Slot, Pte>, p: map<Slot, Pte>, q: map<Slot, Pte>, a: nat, child: nat,
                     areas: seq<Area>, rest: seq<Area>, last: Area, n: nat)
    requires a != child && DisjointAreas(areas) && n + 1 == |areas| && rest == areas[..n] && last == areas[n]
    requires SharedIn(pt, p, a, child, rest) && KeptOutside(pt, p, a, child, rest)
    requires q == Recloned(p, a, child, last.lo, last.n, last.ForkPerms())
    ensures SharedIn(pt, q, a, child, areas)
  {
    forall i, v: nat | 0 <= i < |areas| && areas[i].Has(v) && Slot(a, v) in pt
      ensures Shares(q, a, child, v, pt[Slot(a, v)].pfn, areas[i].perms)
    {
      if i < n {
        assert rest[i].Has(v) && areas[n] == last;
        EarlierStays(p, q, a, child, last, v, pt[Slot(a, v)].pfn, rest[i].perms);
      } else {
        assert forall j | 0 <= j < |rest| :: rest[j] == areas[j] && !areas[j].Has(v);
        assert !InAreas(rest, v);
        ReclonedInside(p, a, child, last.lo, last.n, last.ForkPerms());
      }
    }
  }

  lemma EarlierStays(p: map<Slot, Pte>, q: map<Slot, Pte>, a: nat, child: nat, last: Area, v: nat, f: nat, own: Perms)
    requires Shares(p, a, child, v, f, own) && !last.Has(v)
    requires q == Recloned(p, a, child, last.lo, last.n, last.ForkPerms())
    ensures Shares(q, a, child, v, f, own)
  {
    ReclonedOutside(p, a, child, last.lo, last.n, last.ForkPerms());
  }

  lemma ReclonedLastKeeps(pt: map<Slot, Pte>, p: map<Slot, Pte>, q: map<Slot, Pte>, a: nat, child: nat,
                          areas: seq<Area>, rest: seq<Area>, last: Area, n: nat)
    requires n + 1 == |areas| && rest == areas[..n] && last == areas[n] && a != child
    requires KeptOutside(pt, p, a, child, rest) && SharedIn(pt, p, a, child, rest)
    requires q == Recloned(p, a, child, last.lo, last.n, last.ForkPerms())
    ensures KeptOutside(pt, q, a, child, areas)
  {
    InAreasSplit(areas, rest, last, n);
    ReclonedOutside(p, a, child, last.lo, last.n, last.ForkPerms());
    forall k: Slot | !((k.space == a || k.space == child) && InAreas(areas, k.vpn) && Slot(a, k.vpn) in pt)
      ensures (k in q <==> k in pt) && (k in pt ==> q[k] == pt[k])
    {
      assert (k in p <==> k in pt) && (k in pt ==> p[k] == pt[k]);
      assert last.Has(k.vpn) ==> (Slot(a, k.vpn) in p ==> Slot(a, k.vpn) in pt);
    }
  }

  lemma ReclonedAllNext(pt: map<Slot, Pte>, a: nat, child: nat, areas: seq<Area>, i: nat)
    requires i < |areas|
    ensures ReclonedAll(pt, a, child, areas[..i + 1]) ==
      Recloned(ReclonedAll(pt, a, child, areas[..i]), a, child, areas[i].lo, areas[i].n, areas[i].ForkPerms())
  {
    assert areas[..i + 1][..i] == areas[..i] && areas[..i + 1][i] == areas[i];
  }

  lemma ForkedAllNext(e: map<Slot, Page>, a: nat, child: nat, areas: seq<Area>, i: nat)
    requires i < |areas|
    ensures ForkedAll(e, a, child, areas[..i + 1]) ==
            Forked(ForkedAll(e, a, child, areas[..i]), a, child, areas[i].lo, areas[i].n)
  {
    assert areas[..i + 1][..i] == areas[..i] && areas[..i + 1][i] == areas[i];
  }

  lemma NextAreaIsEmpty(s: Sys, e: map<Slot, Page>, a: nat, child: nat, areas: seq<Area>, i: nat)
    requires Quiet(s) && a != child && DisjointAreas(areas) && i < |areas|
    requires View(s) == ForkedAll(e, a, child, areas[..i])
    requires forall v: nat :: Slot(child, v) !in e
    ensures forall v: nat | areas[i].lo <= v < areas[i].lo + areas[i].n :: Slot(child, v) !in s.pt
  {
    ForkedAllSpec(e, a, child, areas[..i]);
    AllMappedInMem(s);
    forall v: nat | areas[i].lo <= v < areas[i].lo + areas[i].n
      ensures Slot(child, v) !in s.pt
    {
      if j :| 0 <= j < |areas[..i]| && areas[..i][j].Has(v) {
        assert areas[j].Has(v) && areas[i].Has(v);
        assert false;
      }
      assert Slot(child, v) !in View(s);
    }
  }
}
