/** Copy-on-write: page tables, page contents and reference counts as a protocol
    whose steps may interleave between address spaces, against a specification in
    which fork copies every page at once. */
module Cow {
  import opened Common

  type Page = seq<bv8>

  function ZeroPage(): (p: Page)
    ensures |p| == PAGE_SIZE && forall i | 0 <= i < |p| :: p[i] == 0
  {
    seq(PAGE_SIZE, _ => 0)
  }

  datatype Perms = Perms(read: bool, write: bool, execute: bool, user: bool, cow: bool) {

    /** The copy-on-write form of a writable permission set. */
    function IntoCow(): Perms { this.(write := false, cow := true) }

    function FromCow(): Perms { this.(write := true, cow := false) }
  }

  /** A virtual page of one address space. */
  datatype Slot = Slot(space: nat, vpn: nat)

  datatype Pte = Pte(pfn: nat, perms: Perms)

  /** Who may be in the middle of an operation: an address space, whose lock the operation
      holds, or a missing-page fault that waits for its file read with no lock held. */
  datatype Owner = Space(id: nat) | Fault(id: nat)

  /** How far an operation is.  While a page is cloned the child is an embryo; once its
      entry is written and until the parent's is protected, that entry is hidden. */
  datatype Phase =
    | Idle
    | Exclusive(vpn: nat, pte: Pte)
    | Shared(vpn: nat, pte: Pte)
    | Zeroed(vpn: nat, pte: Pte, copy: nat)
    | Copied(vpn: nat, pte: Pte, copy: nat)
    | Remapped(source: nat)
    | Cloning(vpn: nat, pfn: nat, child: nat, perms: Perms)
    | Cloned(vpn: nat, pfn: nat, child: nat, perms: Perms)
    | Embryo(parent: nat)
    | Hidden(parent: nat, vpn: nat)
    | Demand(slot: Slot, pfn: nat, perms: Perms)
  {
    /** The phase itself owns a reference to frame `f`, beside any mapping. */
    predicate Holds(f: nat) {
      match this
      case Zeroed(_, _, n) => n == f
      case Copied(_, _, n) => n == f
      case Remapped(g) => g == f
      case Cloning(_, g, _, _) => g == f
      case Demand(_, g, _) => g == f
      case _ => false
    }
  }

  /** `pins` counts references that no mapping and no operation accounts for. */
  datatype Sys = Sys(pt: map<Slot, Pte>, mem: map<nat, Page>, refs: map<nat, nat>,
                     phase: map<Owner, Phase>, pins: map<nat, nat>) {

    function PhaseOf(o: Owner): Phase { if o in phase then phase[o] else Idle }

    /** Nobody holds the lock of space `a`. */
    predicate Unlocked(a: nat) { PhaseOf(Space(a)).Idle? }

    function SetPhase(o: Owner, p: Phase): map<Owner, Phase> {
      if p.Idle? then phase - {o} else phase[o := p]
    }

    function RefOf(f: nat): nat { if f in refs then refs[f] else 0 }

    /** The entry is written but not yet part of a space that anyone runs in. */
    predicate IsHidden(k: Slot) { PhaseOf(Space(k.space)).Hidden? && PhaseOf(Space(k.space)).vpn == k.vpn }
  }

  datatype Step =
    | DemandAlloc(i: nat, slot: Slot, pfn: nat, perms: Perms)
    | DemandRead(i: nat, page: Page)
    | DemandAbort(i: nat)
    | DemandMap(i: nat, slot: Slot, page: Page)
    | UserWrite(a: nat, vpn: nat, offset: nat, byte: bv8)
    | FaultCheck(a: nat, vpn: nat)
    | TakeOwnership(a: nat)
    | FaultAlloc(a: nat, copy: nat)
    | FaultNoMemory(a: nat)
    | FaultCopy(a: nat)
    | FaultRemap(a: nat)
    | FaultDrop(a: nat)
    | CloneTake(a: nat, child: nat, vpn: nat, perms: Perms)
    | CloneMap(a: nat)
    | CloneProtect(a: nat, child: nat, vpn: nat)

  /** When each step may happen.  An address space starts a fault or a clone, and a
      waiting fault maps its page, only when no other operation holds the lock; user
      writes need no lock but need a writable mapping; a frame comes from the allocator
      only when unreferenced.  A missing-page fault does not look the page up again, so it
      may find it mapped by a fault that had the lock before. */
  predicate Enabled(s: Sys, st: Step) {
    match st
    case DemandAlloc(i, k, f, perms) =>
      s.Unlocked(k.space) && s.PhaseOf(Fault(i)).Idle? && f !in s.refs && !perms.cow
    case DemandRead(i, _) => s.PhaseOf(Fault(i)).Demand?
    case DemandAbort(i) => s.PhaseOf(Fault(i)).Demand?
    case DemandMap(i, k, page) =>
      && s.PhaseOf(Fault(i)).Demand? && s.PhaseOf(Fault(i)).slot == k && s.Unlocked(k.space)
      && s.PhaseOf(Fault(i)).pfn in s.mem && s.mem[s.PhaseOf(Fault(i)).pfn] == page
    case UserWrite(a, v, offset, _) =>
      Slot(a, v) in s.pt && s.pt[Slot(a, v)].perms.write
      && s.pt[Slot(a, v)].pfn in s.mem && offset < |s.mem[s.pt[Slot(a, v)].pfn]|
    case FaultCheck(a, v) =>
      s.Unlocked(a) && Slot(a, v) in s.pt && s.pt[Slot(a, v)].perms.cow
    case TakeOwnership(a) => s.PhaseOf(Space(a)).Exclusive?
    case FaultAlloc(a, n) => s.PhaseOf(Space(a)).Shared? && n !in s.refs
    case FaultNoMemory(a) => s.PhaseOf(Space(a)).Shared?
    case FaultCopy(a) => s.PhaseOf(Space(a)).Zeroed? && s.PhaseOf(Space(a)).pte.pfn in s.mem
    case FaultRemap(a) => s.PhaseOf(Space(a)).Copied?
    case FaultDrop(a) => s.PhaseOf(Space(a)).Remapped?
    case CloneTake(a, b, v, perms) =>
      && a != b && s.Unlocked(a) && s.Unlocked(b)
      && Slot(a, v) in s.pt && Slot(b, v) !in s.pt && !perms.write
    case CloneMap(a) => s.PhaseOf(Space(a)).Cloning?
    case CloneProtect(a, b, v) =>
      s.PhaseOf(Space(a)).Cloned? && s.PhaseOf(Space(a)).child == b && s.PhaseOf(Space(a)).vpn == v
  }

  function Next(s: Sys, st: Step): Sys
    requires Enabled(s, st)
  {
    match st
    case DemandAlloc(i, k, f, perms) =>
      s.(mem := s.mem[f := ZeroPage()], refs := s.refs[f := 1], phase := s.SetPhase(Fault(i), Demand(k, f, perms)))
    case DemandRead(i, page) =>
      s.(mem := s.mem[s.PhaseOf(Fault(i)).pfn := page])
    case DemandAbort(i) =>
      var f := s.PhaseOf(Fault(i)).pfn;
      s.(mem := s.mem - {f}, refs := s.refs - {f}, phase := s.SetPhase(Fault(i), Idle))
    case DemandMap(i, k, _) =>
      var Demand(_, f, perms) := s.PhaseOf(Fault(i));
      if k in s.pt then s.(pins := s.pins[f := Pinned(s.pins, f) + 1], phase := s.SetPhase(Fault(i), Idle))
      else s.(pt := s.pt[k := Pte(f, perms)], phase := s.SetPhase(Fault(i), Idle))
    case UserWrite(a, v, offset, byte) =>
      var f := s.pt[Slot(a, v)].pfn;
      s.(mem := s.mem[f := s.mem[f][offset := byte]])
    case FaultCheck(a, v) =>
      var pte := s.pt[Slot(a, v)];
      s.(phase := s.SetPhase(Space(a), if s.RefOf(pte.pfn) == 1 then Exclusive(v, pte) else Shared(v, pte)))
    case TakeOwnership(a) =>
      var Exclusive(v, pte) := s.PhaseOf(Space(a));
      s.(pt := s.pt[Slot(a, v) := Pte(pte.pfn, pte.perms.FromCow())], phase := s.SetPhase(Space(a), Idle))
    case FaultAlloc(a, n) =>
      var Shared(v, pte) := s.PhaseOf(Space(a));
      s.(mem := s.mem[n := ZeroPage()], refs := s.refs[n := 1], phase := s.SetPhase(Space(a), Zeroed(v, pte, n)))
    case FaultNoMemory(a) =>
      s.(phase := s.SetPhase(Space(a), Idle))
    case FaultCopy(a) =>
      var Zeroed(v, pte, n) := s.PhaseOf(Space(a));
      s.(mem := s.mem[n := s.mem[pte.pfn]], phase := s.SetPhase(Space(a), Copied(v, pte, n)))
    case FaultRemap(a) =>
      var Copied(v, pte, n) := s.PhaseOf(Space(a));
      s.(pt := s.pt[Slot(a, v) := Pte(n, pte.perms.FromCow())], phase := s.SetPhase(Space(a), Remapped(pte.pfn)))
    case FaultDrop(a) =>
      var f := s.PhaseOf(Space(a)).source;
      if s.RefOf(f) > 1 then s.(refs := s.refs[f := s.RefOf(f) - 1], phase := s.SetPhase(Space(a), Idle))
      else s.(refs := s.refs - {f}, mem := s.mem - {f}, phase := s.SetPhase(Space(a), Idle))
    case CloneTake(a, b, v, perms) =>
      var f := s.pt[Slot(a, v)].pfn;
      s.(refs := s.refs[f := s.RefOf(f) + 1],
         phase := s.SetPhase(Space(a), Cloning(v, f, b, perms))[Space(b) := Embryo(a)])
    case CloneMap(a) =>
      var Cloning(v, f, b, perms) := s.PhaseOf(Space(a));
      s.(pt := s.pt[Slot(b, v) := Pte(f, perms)],
         phase := s.SetPhase(Space(a), Cloned(v, f, b, perms))[Space(b) := Hidden(a, v)])
    case CloneProtect(a, b, v) =>
      var Cloned(_, f, _, perms) := s.PhaseOf(Space(a));
      s.(pt := s.pt[Slot(a, v) := Pte(f, perms)], phase := s.phase - {Space(a)} - {Space(b)})
  }

  // ------------------------------------------------------ the eager-copy system

  /** What each address space sees at each of its pages. */
  ghost function View(s: Sys): map<Slot, Page> {
    map k | k in s.pt && s.pt[k].pfn in s.mem && !s.IsHidden(k) :: s.mem[s.pt[k].pfn]
  }

  /** The same step where every page is private: fork copies, faults do nothing. */
  ghost function EagerNext(e: map<Slot, Page>, st: Step): map<Slot, Page> {
    match st
    case DemandMap(_, k, page) => if k in e then e else e[k := page]
    case UserWrite(a, v, offset, byte) =>
      var k := Slot(a, v);
      if k in e && offset < |e[k]| then e[k := e[k][offset := byte]] else e
    case CloneProtect(a, b, v) =>
      if Slot(a, v) in e then e[Slot(b, v) := e[Slot(a, v)]] else e
    case _ => e
  }

  // ---------------------------------------------------------------- invariant

  ghost function Mappers(pt: map<Slot, Pte>, f: nat): set<Slot> {
    set k | k in pt && pt[k].pfn == f
  }

  ghost function Holders(phase: map<Owner, Phase>, f: nat): set<Owner> {
    set o | o in phase && phase[o].Holds(f)
  }

  function Pinned(pins: map<nat, nat>, f: nat): nat { if f in pins then pins[f] else 0 }

  ghost predicate Accounts(s: Sys, f: nat) {
    s.RefOf(f) == |Mappers(s.pt, f)| + |Holders(s.phase, f)| + Pinned(s.pins, f)
  }

  /** Every reference is somebody's: a mapping's, an operation's or a pin. */
  ghost predicate Accounted(s: Sys) {
    && (forall f: nat :: Accounts(s, f))
    && (forall f | f in s.refs :: s.refs[f] >= 1)
    && s.mem.Keys == s.refs.Keys
    && (forall o | o in s.phase :: !s.phase[o].Idle?)
  }

  /** A writable mapping is the only mapping of its frame, but for an entry still hidden,
      and is not CoW. */
  ghost predicate SoleWriter(s: Sys) {
    && (forall k, j | k in s.pt && j in s.pt && s.pt[k].perms.write && s.pt[k].pfn == s.pt[j].pfn ::
          j == k || s.IsHidden(j))
    && (forall k | k in s.pt :: !(s.pt[k].perms.write && s.pt[k].perms.cow))
  }

  /** What an operation in progress may rely on, whatever others do. */
  ghost predicate PhaseOk(s: Sys, o: Owner) {
    match o
    case Fault(_) =>
      s.PhaseOf(o).Idle? || (s.PhaseOf(o).Demand? && s.RefOf(s.PhaseOf(o).pfn) == 1 && !s.PhaseOf(o).perms.cow)
    case Space(a) =>
      match s.PhaseOf(o)
      case Idle => true
      case Exclusive(v, pte) => Maps(s, a, v, pte) && pte.perms.cow && s.RefOf(pte.pfn) == 1
      case Shared(v, pte) => Maps(s, a, v, pte) && pte.perms.cow
      case Zeroed(v, pte, n) => Maps(s, a, v, pte) && pte.perms.cow && s.RefOf(n) == 1
      case Copied(v, pte, n) =>
        && Maps(s, a, v, pte) && pte.perms.cow && s.RefOf(n) == 1
        && pte.pfn in s.mem && n in s.mem && s.mem[n] == s.mem[pte.pfn]
      case Remapped(_) => true
      case Cloning(v, f, b, perms) =>
        && Slot(a, v) in s.pt && s.pt[Slot(a, v)].pfn == f && Slot(b, v) !in s.pt
        && !perms.write && b != a && s.PhaseOf(Space(b)) == Embryo(a)
      case Cloned(v, f, b, perms) =>
        && Slot(a, v) in s.pt && s.pt[Slot(a, v)].pfn == f && Maps(s, b, v, Pte(f, perms))
        && !perms.write && b != a && s.PhaseOf(Space(b)) == Hidden(a, v)
      case Embryo(p) => s.PhaseOf(Space(p)).Cloning? && s.PhaseOf(Space(p)).child == a
      case Hidden(p, v) =>
        s.PhaseOf(Space(p)).Cloned? && s.PhaseOf(Space(p)).child == a && s.PhaseOf(Space(p)).vpn == v
      case Demand(_, _, _) => false
  }

  ghost predicate Maps(s: Sys, a: nat, v: nat, pte: Pte) {
    Slot(a, v) in s.pt && s.pt[Slot(a, v)] == pte
  }

  ghost predicate Inv(s: Sys) {
    Accounted(s) && SoleWriter(s) && forall o: Owner :: PhaseOk(s, o)
  }

  // ----------------------------------------------------------------- counting

  function Uses(pt: map<Slot, Pte>, k: Slot, f: nat): nat { if k in pt && pt[k].pfn == f then 1 else 0 }

  function HoldsIn(phase: map<Owner, Phase>, a: Owner, f: nat): nat { if a in phase && phase[a].Holds(f) then 1 else 0 }

  /** Changing one slot changes the number of mappers by that slot alone. */
  lemma MapperCount(p: map<Slot, Pte>, q: map<Slot, Pte>, k: Slot, f: nat)
    requires p - {k} == q - {k}
    ensures |Mappers(q, f)| - Uses(q, k, f) == |Mappers(p, f)| - Uses(p, k, f)
  {
    var r := p - {k};
    MappersWithout(p, r, k, f);
    MappersWithout(q, r, k, f);
  }

  lemma MappersWithout(p: map<Slot, Pte>, r: map<Slot, Pte>, k: Slot, f: nat)
    requires r == p - {k}
    ensures |Mappers(p, f)| == |Mappers(r, f)| + Uses(p, k, f)
  {
    if Uses(p, k, f) == 1 {
      assert Mappers(p, f) == Mappers(r, f) + {k};
    } else {
      assert Mappers(p, f) == Mappers(r, f);
    }
  }

  /** Changing one phase changes the number of holders by that phase alone. */
  lemma HolderCount(p: map<Owner, Phase>, q: map<Owner, Phase>, a: Owner, f: nat)
    requires p - {a} == q - {a}
    ensures |Holders(q, f)| - HoldsIn(q, a, f) == |Holders(p, f)| - HoldsIn(p, a, f)
  {
    var r := p - {a};
    HoldersWithout(p, r, a, f);
    HoldersWithout(q, r, a, f);
  }

  lemma HoldersWithout(p: map<Owner, Phase>, r: map<Owner, Phase>, a: Owner, f: nat)
    requires r == p - {a}
    ensures |Holders(p, f)| == |Holders(r, f)| + HoldsIn(p, a, f)
  {
    if HoldsIn(p, a, f) == 1 {
      assert Holders(p, f) == Holders(r, f) + {a};
    } else {
      assert Holders(p, f) == Holders(r, f);
    }
  }

  /** References stay accounted for when one slot and one phase change and each
      count moves with them. */
  lemma Recount(s: Sys, t: Sys, k: Slot, a: Owner)
    requires (forall f: nat :: Accounts(s, f)) && t.pins == s.pins
    requires s.pt - {k} == t.pt - {k} && s.phase - {a} == t.phase - {a}
    requires forall f: nat ::
      t.RefOf(f) - Uses(t.pt, k, f) - HoldsIn(t.phase, a, f) ==
      s.RefOf(f) - Uses(s.pt, k, f) - HoldsIn(s.phase, a, f)
    ensures forall f: nat :: Accounts(t, f)
  {
    forall f: nat ensures Accounts(t, f) {
      assert Accounts(s, f);
      MapperCount(s.pt, t.pt, k, f);
      HolderCount(s.phase, t.phase, a, f);
    }
  }

  lemma TwoMembers<T>(s: set<T>, x: T, y: T)
    requires x in s && y in s && x != y
    ensures |s| >= 2
  {
    assert s == (s - {x, y}) + {x, y};
    assert |{x, y}| == 2;
  }

  /** A frame with at most one reference has at most one user of any kind. */
  lemma AtMostOneUser(s: Sys, f: nat)
    requires Accounted(s) && s.RefOf(f) <= 1
    ensures forall k, j | k in Mappers(s.pt, f) && j in Mappers(s.pt, f) :: k == j
    ensures forall a, b | a in Holders(s.phase, f) && b in Holders(s.phase, f) :: a == b
    ensures Mappers(s.pt, f) == {} || Holders(s.phase, f) == {}
    ensures s.RefOf(f) == 0 ==> Mappers(s.pt, f) == {} && Holders(s.phase, f) == {}
  {
    assert Accounts(s, f);
    forall k, j | k in Mappers(s.pt, f) && j in Mappers(s.pt, f)
      ensures k == j
    {
      if k != j { TwoMembers(Mappers(s.pt, f), k, j); }
    }
    forall a, b | a in Holders(s.phase, f) && b in Holders(s.phase, f)
      ensures a == b
    {
      if a != b { TwoMembers(Holders(s.phase, f), a, b); }
    }
  }

  lemma MappedIsAllocated(s: Sys, k: Slot)
    requires Accounted(s) && k in s.pt
    ensures s.RefOf(s.pt[k].pfn) >= 1 && s.pt[k].pfn in s.mem
  {
    assert k in Mappers(s.pt, s.pt[k].pfn) && Accounts(s, s.pt[k].pfn);
  }

  // ---------------------------------------------------------- one step at a time

  /** A frame whose one reference is a mapping has no other mapping and no holder. */
  lemma MappedAlone(s: Sys, k: Slot)
    requires Accounted(s) && k in s.pt && s.RefOf(s.pt[k].pfn) == 1
    ensures forall j | j in s.pt && s.pt[j].pfn == s.pt[k].pfn :: j == k
    ensures forall c | c in s.phase :: !s.phase[c].Holds(s.pt[k].pfn)
  {
    var f := s.pt[k].pfn;
    AtMostOneUser(s, f);
    assert k in Mappers(s.pt, f);
    assert forall j | j in s.pt && s.pt[j].pfn == f :: j in Mappers(s.pt, f);
    assert forall c | c in s.phase && s.phase[c].Holds(f) :: c in Holders(s.phase, f);
  }

  /** A frame whose one reference is held by an operation is mapped nowhere. */
  lemma HeldAlone(s: Sys, a: Owner, f: nat)
    requires Accounted(s) && a in s.phase && s.phase[a].Holds(f) && s.RefOf(f) <= 1
    ensures forall j | j in s.pt :: s.pt[j].pfn != f
    ensures forall c | c in s.phase && s.phase[c].Holds(f) :: c == a
  {
    AtMostOneUser(s, f);
    assert a in Holders(s.phase, f);
    assert forall j | j in s.pt && s.pt[j].pfn == f :: j in Mappers(s.pt, f);
    assert forall c | c in s.phase && s.phase[c].Holds(f) :: c in Holders(s.phase, f);
  }

  lemma Unreferenced(s: Sys, f: nat)
    requires Accounted(s) && s.RefOf(f) == 0
    ensures forall j | j in s.pt :: s.pt[j].pfn != f
    ensures forall c | c in s.phase :: !s.phase[c].Holds(f)
  {
    AtMostOneUser(s, f);
    assert forall j | j in s.pt && s.pt[j].pfn == f :: j in Mappers(s.pt, f);
    assert forall c | c in s.phase && s.phase[c].Holds(f) :: c in Holders(s.phase, f);
  }

  /** Nothing maps frame `f`, and `o` alone may hold it. */
  ghost predicate OwnedBy(s: Sys, f: nat, o: Owner) {
    && (forall k | k in s.pt :: s.pt[k].pfn != f)
    && (forall c | c in s.phase && s.phase[c].Holds(f) :: c == o)
  }

  // Each step, with the state after it written out: first what it leaves of the phase of
  // one owner, then the whole invariant.

  lemma DemandAllocPhase(s: Sys, t: Sys, i: Owner, k: Slot, f: nat, perms: Perms, o: Owner)
    requires PhaseOk(s, o) && i.Fault? && s.PhaseOf(i).Idle? && f !in s.refs && f !in s.mem && !perms.cow
    requires t == s.(mem := s.mem[f := ZeroPage()], refs := s.refs[f := 1], phase := s.phase[i := Demand(k, f, perms)])
    ensures PhaseOk(t, o)
  {
  }

  lemma DemandAllocOk(s: Sys, t: Sys, i: Owner, k: Slot, f: nat, perms: Perms)
    requires Inv(s) && i.Fault? && s.PhaseOf(i).Idle? && f !in s.refs && !perms.cow
    requires t == s.(mem := s.mem[f := ZeroPage()], refs := s.refs[f := 1], phase := s.phase[i := Demand(k, f, perms)])
    ensures Inv(t)
  {
    hide PhaseOk;
    Unreferenced(s, f);
    DemandAllocAccounted(s, t, i, k, f, perms);
    assert forall j: Slot :: t.IsHidden(j) <==> s.IsHidden(j);
    forall o: Owner ensures PhaseOk(t, o) { DemandAllocPhase(s, t, i, k, f, perms, o); }
  }

  lemma DemandAllocAccounted(s: Sys, t: Sys, i: Owner, k: Slot, f: nat, perms: Perms)
    requires Accounted(s) && s.PhaseOf(i).Idle? && f !in s.refs
    requires t == s.(mem := s.mem[f := ZeroPage()], refs := s.refs[f := 1], phase := s.phase[i := Demand(k, f, perms)])
    ensures Accounted(t)
  {
    Recount(s, t, k, i);
  }

  lemma DemandReadPhase(s: Sys, t: Sys, i: Owner, f: nat, page: Page, o: Owner)
    requires PhaseOk(s, o) && i.Fault? && OwnedBy(s, f, i) && t == s.(mem := s.mem[f := page])
    ensures PhaseOk(t, o)
  {
  }

  lemma DemandReadOk(s: Sys, t: Sys, i: Owner, page: Page)
    requires Inv(s) && s.PhaseOf(i).Demand? && t == s.(mem := s.mem[s.PhaseOf(i).pfn := page])
    ensures Inv(t)
  {
    var f := s.PhaseOf(i).pfn;
    DemandHolds(s, i);
    hide PhaseOk;
    assert forall g: nat :: Accounts(s, g) ==> Accounts(t, g);
    forall o: Owner ensures PhaseOk(t, o) { DemandReadPhase(s, t, i, f, page, o); }
  }

  /** A waiting fault is the only owner of its frame. */
  lemma DemandHolds(s: Sys, i: Owner)
    requires Inv(s) && s.PhaseOf(i).Demand?
    ensures i.Fault? && OwnedBy(s, s.PhaseOf(i).pfn, i) && s.RefOf(s.PhaseOf(i).pfn) == 1 && !s.PhaseOf(i).perms.cow
  {
    assert PhaseOk(s, i);
    HeldAlone(s, i, s.PhaseOf(i).pfn);
  }

  lemma DemandAbortPhase(s: Sys, t: Sys, i: Owner, f: nat, o: Owner)
    requires PhaseOk(s, o) && i.Fault? && OwnedBy(s, f, i)
    requires t == s.(mem := s.mem - {f}, refs := s.refs - {f}, phase := s.phase - {i})
    ensures PhaseOk(t, o)
  {
  }

  lemma DemandAbortOk(s: Sys, t: Sys, i: Owner, f: nat)
    requires Inv(s) && s.PhaseOf(i).Demand? && f == s.PhaseOf(i).pfn
    requires t == s.(mem := s.mem - {f}, refs := s.refs - {f}, phase := s.phase - {i})
    ensures Inv(t)
  {
    DemandHolds(s, i);
    hide PhaseOk;
    assert Accounted(t) by { Recount(s, t, s.PhaseOf(i).slot, i); }
    assert forall j: Slot :: t.IsHidden(j) <==> s.IsHidden(j);
    forall o: Owner ensures PhaseOk(t, o) { DemandAbortPhase(s, t, i, f, o); }
  }

  lemma DemandMapPhase(s: Sys, t: Sys, i: Owner, k: Slot, pte: Pte, o: Owner)
    requires PhaseOk(s, o) && i.Fault? && s.Unlocked(k.space) && k !in s.pt
    requires t == s.(pt := s.pt[k := pte], phase := s.phase - {i})
    ensures PhaseOk(t, o)
  {
  }

  lemma DemandMapOk(s: Sys, t: Sys, i: Owner, k: Slot, f: nat, perms: Perms)
    requires Inv(s) && s.PhaseOf(i) == Demand(k, f, perms) && s.Unlocked(k.space) && k !in s.pt
    requires t == s.(pt := s.pt[k := Pte(f, perms)], phase := s.phase - {i})
    ensures Inv(t)
  {
    DemandHolds(s, i);
    hide PhaseOk;
    assert Accounted(t) by { Recount(s, t, k, i); }
    assert forall j: Slot :: t.IsHidden(j) <==> s.IsHidden(j);
    forall o: Owner ensures PhaseOk(t, o) { DemandMapPhase(s, t, i, k, Pte(f, perms), o); }
  }

  lemma DemandLeakPhase(s: Sys, t: Sys, i: Owner, o: Owner)
    requires PhaseOk(s, o) && i.Fault? && t == s.(pins := t.pins, phase := s.phase - {i})
    ensures PhaseOk(t, o)
  {
  }

  /** The fault finds its page mapped by another: its frame keeps a reference that
      nothing will ever drop. */
  lemma DemandLeakOk(s: Sys, t: Sys, i: Owner, f: nat)
    requires Inv(s) && s.PhaseOf(i).Demand? && f == s.PhaseOf(i).pfn
    requires t == s.(pins := s.pins[f := Pinned(s.pins, f) + 1], phase := s.phase - {i})
    ensures Inv(t)
  {
    DemandHolds(s, i);
    hide PhaseOk;
    assert Accounted(t) by {
      forall g: nat ensures Accounts(t, g) {
        assert Accounts(s, g);
        HolderCount(s.phase, t.phase, i, g);
      }
    }
    assert forall j: Slot :: t.IsHidden(j) <==> s.IsHidden(j);
    forall o: Owner ensures PhaseOk(t, o) { DemandLeakPhase(s, t, i, o); }
  }

  lemma UserWritePhase(s: Sys, t: Sys, k: Slot, page: Page, o: Owner)
    requires PhaseOk(s, o) && SoleWriter(s) && k in s.pt && s.pt[k].perms.write && s.pt[k].pfn in s.mem
    requires s.PhaseOf(o).Copied? ==> forall j | j in s.pt :: s.pt[j].pfn != s.PhaseOf(o).copy
    requires t == s.(mem := s.mem[s.pt[k].pfn := page])
    ensures PhaseOk(t, o)
  {
  }

  lemma UserWriteOk(s: Sys, t: Sys, k: Slot, page: Page)
    requires Inv(s) && k in s.pt && s.pt[k].perms.write && s.pt[k].pfn in s.mem
    requires t == s.(mem := s.mem[s.pt[k].pfn := page])
    ensures Inv(t)
  {
    assert forall f: nat :: Accounts(s, f) ==> Accounts(t, f);
    forall o: Owner ensures PhaseOk(t, o) {
      assert PhaseOk(s, o);
      if s.PhaseOf(o).Copied? { HeldAlone(s, o, s.PhaseOf(o).copy); }
      UserWritePhase(s, t, k, page, o);
    }
  }

  lemma FaultCheckPhase(s: Sys, t: Sys, a: nat, v: nat, pte: Pte, p: Phase, o: Owner)
    requires PhaseOk(s, o) && s.Unlocked(a) && Maps(s, a, v, pte) && pte.perms.cow
    requires p == (if s.RefOf(pte.pfn) == 1 then Exclusive(v, pte) else Shared(v, pte))
    requires t == s.(phase := s.phase[Space(a) := p])
    ensures PhaseOk(t, o)
  {
  }

  lemma FaultCheckOk(s: Sys, t: Sys, a: nat, v: nat, pte: Pte, p: Phase)
    requires Inv(s) && s.Unlocked(a) && Maps(s, a, v, pte) && pte.perms.cow
    requires p == (if s.RefOf(pte.pfn) == 1 then Exclusive(v, pte) else Shared(v, pte))
    requires t == s.(phase := s.phase[Space(a) := p])
    ensures Inv(t)
  {
    hide PhaseOk;
    assert Accounted(t) by { Recount(s, t, Slot(a, v), Space(a)); }
    assert forall k: Slot :: t.IsHidden(k) <==> s.IsHidden(k);
    forall o: Owner ensures PhaseOk(t, o) { FaultCheckPhase(s, t, a, v, pte, p, o); }
  }

  lemma TakeOwnershipPhase(s: Sys, t: Sys, a: nat, v: nat, pte: Pte, o: Owner)
    requires PhaseOk(s, o) && s.PhaseOf(Space(a)).Exclusive?
    requires t == s.(pt := s.pt[Slot(a, v) := pte], phase := s.phase - {Space(a)})
    ensures PhaseOk(t, o)
  {
  }

  lemma TakeOwnershipOk(s: Sys, t: Sys, a: nat, v: nat, pte: Pte)
    requires Inv(s) && s.PhaseOf(Space(a)) == Exclusive(v, pte)
    requires t == s.(pt := s.pt[Slot(a, v) := Pte(pte.pfn, pte.perms.FromCow())], phase := s.phase - {Space(a)})
    ensures Inv(t)
  {
    assert PhaseOk(s, Space(a));
    MappedAlone(s, Slot(a, v));
    hide PhaseOk;
    assert Accounted(t) by { Recount(s, t, Slot(a, v), Space(a)); }
    assert forall k: Slot :: t.IsHidden(k) <==> s.IsHidden(k);
    forall o: Owner ensures PhaseOk(t, o) {
      TakeOwnershipPhase(s, t, a, v, Pte(pte.pfn, pte.perms.FromCow()), o);
    }
  }

  lemma FaultAllocPhase(s: Sys, t: Sys, a: nat, v: nat, pte: Pte, n: nat, o: Owner)
    requires PhaseOk(s, o) && PhaseOk(s, Space(a)) && s.PhaseOf(Space(a)) == Shared(v, pte)
    requires n !in s.refs && n !in s.mem
    requires t == s.(mem := s.mem[n := ZeroPage()], refs := s.refs[n := 1],
                     phase := s.phase[Space(a) := Zeroed(v, pte, n)])
    ensures PhaseOk(t, o)
  {
  }

  lemma FaultAllocOk(s: Sys, t: Sys, a: nat, v: nat, pte: Pte, n: nat)
    requires Inv(s) && s.PhaseOf(Space(a)) == Shared(v, pte) && n !in s.refs
    requires t == s.(mem := s.mem[n := ZeroPage()], refs := s.refs[n := 1],
                     phase := s.phase[Space(a) := Zeroed(v, pte, n)])
    ensures Inv(t)
  {
    hide PhaseOk;
    Unreferenced(s, n);
    assert Accounted(t) by { Recount(s, t, Slot(a, v), Space(a)); }
    assert forall k: Slot :: t.IsHidden(k) <==> s.IsHidden(k);
    forall o: Owner ensures PhaseOk(t, o) { FaultAllocPhase(s, t, a, v, pte, n, o); }
  }

  lemma FaultNoMemoryPhase(s: Sys, t: Sys, a: nat, o: Owner)
    requires PhaseOk(s, o) && s.PhaseOf(Space(a)).Shared? && t == s.(phase := s.phase - {Space(a)})
    ensures PhaseOk(t, o)
  {
  }

  lemma FaultNoMemoryOk(s: Sys, t: Sys, a: nat)
    requires Inv(s) && s.PhaseOf(Space(a)).Shared? && t == s.(phase := s.phase - {Space(a)})
    ensures Inv(t)
  {
    hide PhaseOk;
    assert Accounted(t) by { Recount(s, t, Slot(a, 0), Space(a)); }
    assert forall k: Slot :: t.IsHidden(k) <==> s.IsHidden(k);
    forall o: Owner ensures PhaseOk(t, o) { FaultNoMemoryPhase(s, t, a, o); }
  }

  lemma FaultCopyPhase(s: Sys, t: Sys, a: nat, v: nat, pte: Pte, n: nat, o: Owner)
    requires PhaseOk(s, o) && PhaseOk(s, Space(a)) && s.PhaseOf(Space(a)) == Zeroed(v, pte, n)
    requires pte.pfn in s.mem && OwnedBy(s, n, Space(a))
    requires t == s.(mem := s.mem[n := s.mem[pte.pfn]], phase := s.phase[Space(a) := Copied(v, pte, n)])
    ensures PhaseOk(t, o)
  {
  }

  lemma FaultCopyOk(s: Sys, t: Sys, a: nat, v: nat, pte: Pte, n: nat)
    requires Inv(s) && s.PhaseOf(Space(a)) == Zeroed(v, pte, n) && pte.pfn in s.mem
    requires t == s.(mem := s.mem[n := s.mem[pte.pfn]], phase := s.phase[Space(a) := Copied(v, pte, n)])
    ensures Inv(t)
  {
    assert PhaseOk(s, Space(a));
    HeldAlone(s, Space(a), n);
    hide PhaseOk;
    assert Accounted(t) by { Recount(s, t, Slot(a, v), Space(a)); }
    assert forall k: Slot :: t.IsHidden(k) <==> s.IsHidden(k);
    forall o: Owner ensures PhaseOk(t, o) { FaultCopyPhase(s, t, a, v, pte, n, o); }
  }

  lemma FaultRemapPhase(s: Sys, t: Sys, a: nat, v: nat, pte: Pte, p: Phase, o: Owner)
    requires PhaseOk(s, o) && s.PhaseOf(Space(a)).Copied? && p.Remapped?
    requires t == s.(pt := s.pt[Slot(a, v) := pte], phase := s.phase[Space(a) := p])
    ensures PhaseOk(t, o)
  {
  }

  lemma FaultRemapOk(s: Sys, t: Sys, a: nat, v: nat, pte: Pte, n: nat)
    requires Inv(s) && s.PhaseOf(Space(a)) == Copied(v, pte, n)
    requires t == s.(pt := s.pt[Slot(a, v) := Pte(n, pte.perms.FromCow())],
                     phase := s.phase[Space(a) := Remapped(pte.pfn)])
    ensures Inv(t)
  {
    assert PhaseOk(s, Space(a));
    HeldAlone(s, Space(a), n);
    hide PhaseOk;
    assert Accounted(t) by { Recount(s, t, Slot(a, v), Space(a)); }
    assert forall k: Slot :: t.IsHidden(k) <==> s.IsHidden(k);
    forall o: Owner ensures PhaseOk(t, o) {
      FaultRemapPhase(s, t, a, v, Pte(n, pte.perms.FromCow()), Remapped(pte.pfn), o);
    }
  }

  /** A count that goes down from above one is nobody's only reference. */
  lemma FaultDropPhase(s: Sys, t: Sys, a: nat, f: nat, o: Owner)
    requires PhaseOk(s, o) && s.PhaseOf(Space(a)) == Remapped(f) && s.RefOf(f) > 1
    requires t == s.(refs := s.refs[f := s.RefOf(f) - 1], phase := s.phase - {Space(a)})
    ensures PhaseOk(t, o)
  {
  }

  lemma FaultFreePhase(s: Sys, t: Sys, a: nat, f: nat, o: Owner)
    requires PhaseOk(s, o) && s.PhaseOf(Space(a)) == Remapped(f) && OwnedBy(s, f, Space(a))
    requires t == s.(refs := s.refs - {f}, mem := s.mem - {f}, phase := s.phase - {Space(a)})
    ensures PhaseOk(t, o)
  {
  }

  lemma FaultDropOk(s: Sys, t: Sys, a: nat, f: nat)
    requires Inv(s) && s.PhaseOf(Space(a)) == Remapped(f)
    requires t == if s.RefOf(f) > 1 then s.(refs := s.refs[f := s.RefOf(f) - 1], phase := s.phase - {Space(a)})
                  else s.(refs := s.refs - {f}, mem := s.mem - {f}, phase := s.phase - {Space(a)})
    ensures Inv(t)
  {
    hide PhaseOk;
    assert s.RefOf(f) >= 1 by { assert Space(a) in Holders(s.phase, f) && Accounts(s, f); }
    if s.RefOf(f) == 1 { HeldAlone(s, Space(a), f); }
    assert Accounted(t) by { Recount(s, t, Slot(a, 0), Space(a)); }
    assert forall k: Slot :: t.IsHidden(k) <==> s.IsHidden(k);
    forall o: Owner ensures PhaseOk(t, o) {
      if s.RefOf(f) > 1 { FaultDropPhase(s, t, a, f, o); } else { FaultFreePhase(s, t, a, f, o); }
    }
  }

  lemma CloneTakePhase(s: Sys, t: Sys, a: nat, b: nat, v: nat, f: nat, perms: Perms, o: Owner)
    requires PhaseOk(s, o) && a != b && s.Unlocked(a) && s.Unlocked(b) && !perms.write
    requires Slot(a, v) in s.pt && s.pt[Slot(a, v)].pfn == f && Slot(b, v) !in s.pt
    requires s.RefOf(f) == 1 ==>
      && (forall j | j in s.pt && s.pt[j].pfn == f :: j == Slot(a, v))
      && (forall c | c in s.phase :: !s.phase[c].Holds(f))
    requires t == s.(refs := s.refs[f := s.RefOf(f) + 1],
                     phase := s.phase[Space(a) := Cloning(v, f, b, perms)][Space(b) := Embryo(a)])
    ensures PhaseOk(t, o)
  {
  }

  lemma CloneTakeOk(s: Sys, t: Sys, a: nat, b: nat, v: nat, f: nat, perms: Perms)
    requires Inv(s) && a != b && s.Unlocked(a) && s.Unlocked(b) && !perms.write
    requires Slot(a, v) in s.pt && s.pt[Slot(a, v)].pfn == f && Slot(b, v) !in s.pt
    requires t == s.(refs := s.refs[f := s.RefOf(f) + 1],
                     phase := s.phase[Space(a) := Cloning(v, f, b, perms)][Space(b) := Embryo(a)])
    ensures Inv(t)
  {
    hide PhaseOk;
    MappedIsAllocated(s, Slot(a, v));
    if s.RefOf(f) == 1 { MappedAlone(s, Slot(a, v)); }
    CloneTakeAccounted(s, t, a, b, v, f, perms);
    assert SoleWriter(t) by {
      hide Accounted;
      assert forall k: Slot :: t.IsHidden(k) <==> s.IsHidden(k);
    }
    forall o: Owner ensures PhaseOk(t, o) { CloneTakePhase(s, t, a, b, v, f, perms, o); }
  }

  lemma CloneTakeAccounted(s: Sys, t: Sys, a: nat, b: nat, v: nat, f: nat, perms: Perms)
    requires Accounted(s) && a != b && s.Unlocked(a) && s.Unlocked(b) && f in s.refs
    requires t == s.(refs := s.refs[f := s.RefOf(f) + 1],
                     phase := s.phase[Space(a) := Cloning(v, f, b, perms)][Space(b) := Embryo(a)])
    ensures Accounted(t)
  {
    var u := t.(phase := t.phase - {Space(b)});
    Recount(s, u, Slot(a, v), Space(a));
    Recount(u, t, Slot(a, v), Space(b));
  }

  lemma CloneMapPhase(s: Sys, t: Sys, a: nat, b: nat, v: nat, f: nat, perms: Perms, o: Owner)
    requires PhaseOk(s, o) && PhaseOk(s, Space(a)) && s.PhaseOf(Space(a)) == Cloning(v, f, b, perms)
    requires t == s.(pt := s.pt[Slot(b, v) := Pte(f, perms)],
                     phase := s.phase[Space(a) := Cloned(v, f, b, perms)][Space(b) := Hidden(a, v)])
    ensures PhaseOk(t, o)
  {
  }

  lemma CloneMapOk(s: Sys, t: Sys, a: nat, b: nat, v: nat, f: nat, perms: Perms)
    requires Inv(s) && s.PhaseOf(Space(a)) == Cloning(v, f, b, perms)
    requires t == s.(pt := s.pt[Slot(b, v) := Pte(f, perms)],
                     phase := s.phase[Space(a) := Cloned(v, f, b, perms)][Space(b) := Hidden(a, v)])
    ensures Inv(t)
  {
    assert PhaseOk(s, Space(a));
    hide PhaseOk;
    CloneMapAccounted(s, t, a, b, v, f, perms);
    assert SoleWriter(t) by {
      hide Accounted;
      assert forall k: Slot :: t.IsHidden(k) <==> s.IsHidden(k) || k == Slot(b, v);
    }
    forall o: Owner ensures PhaseOk(t, o) { CloneMapPhase(s, t, a, b, v, f, perms, o); }
  }

  lemma CloneMapAccounted(s: Sys, t: Sys, a: nat, b: nat, v: nat, f: nat, perms: Perms)
    requires Accounted(s) && s.PhaseOf(Space(a)) == Cloning(v, f, b, perms) && a != b
    requires s.PhaseOf(Space(b)) == Embryo(a) && Slot(b, v) !in s.pt
    requires t == s.(pt := s.pt[Slot(b, v) := Pte(f, perms)],
                     phase := s.phase[Space(a) := Cloned(v, f, b, perms)][Space(b) := Hidden(a, v)])
    ensures Accounted(t)
  {
    var u := t.(phase := t.phase[Space(b) := Embryo(a)]);
    Recount(s, u, Slot(b, v), Space(a));
    Recount(u, t, Slot(b, v), Space(b));
  }

  lemma CloneProtectPhase(s: Sys, t: Sys, a: nat, b: nat, v: nat, f: nat, perms: Perms, o: Owner)
    requires PhaseOk(s, o) && PhaseOk(s, Space(a)) && s.PhaseOf(Space(a)) == Cloned(v, f, b, perms)
    requires t == s.(pt := s.pt[Slot(a, v) := Pte(f, perms)], phase := s.phase - {Space(a)} - {Space(b)})
    ensures PhaseOk(t, o)
  {
  }

  lemma CloneProtectOk(s: Sys, t: Sys, a: nat, b: nat, v: nat, f: nat, perms: Perms)
    requires Inv(s) && s.PhaseOf(Space(a)) == Cloned(v, f, b, perms)
    requires t == s.(pt := s.pt[Slot(a, v) := Pte(f, perms)], phase := s.phase - {Space(a)} - {Space(b)})
    ensures Inv(t)
  {
    assert PhaseOk(s, Space(a));
    hide PhaseOk;
    CloneProtectAccounted(s, t, a, b, v, f, perms);
    assert SoleWriter(t) by {
      hide Accounted;
      assert forall k: Slot :: t.IsHidden(k) <==> s.IsHidden(k) && k != Slot(b, v);
    }
    forall o: Owner ensures PhaseOk(t, o) { CloneProtectPhase(s, t, a, b, v, f, perms, o); }
  }

  lemma CloneProtectAccounted(s: Sys, t: Sys, a: nat, b: nat, v: nat, f: nat, perms: Perms)
    requires Accounted(s) && s.PhaseOf(Space(a)) == Cloned(v, f, b, perms) && a != b
    requires s.PhaseOf(Space(b)) == Hidden(a, v) && Slot(a, v) in s.pt && s.pt[Slot(a, v)].pfn == f
    requires t == s.(pt := s.pt[Slot(a, v) := Pte(f, perms)], phase := s.phase - {Space(a)} - {Space(b)})
    ensures Accounted(t)
  {
    var u := s.(pt := t.pt, phase := s.phase - {Space(b)});
    Recount(s, u, Slot(a, v), Space(b));
    Recount(u, t, Slot(a, v), Space(a));
  }

  // --------------------------------------------------------------- refinement

  lemma StepKeepsInv(s: Sys, st: Step)
    requires Inv(s) && Enabled(s, st)
    ensures Inv(Next(s, st))
  {
    var t := Next(s, st);
    match st
    case DemandAlloc(i, k, f, perms) => DemandAllocOk(s, t, Fault(i), k, f, perms);
    case DemandRead(i, page) => DemandReadOk(s, t, Fault(i), page);
    case DemandAbort(i) => DemandAbortOk(s, t, Fault(i), s.PhaseOf(Fault(i)).pfn);
    case DemandMap(i, k, _) =>
      var Demand(_, f, perms) := s.PhaseOf(Fault(i));
      if k in s.pt { DemandLeakOk(s, t, Fault(i), f); } else { DemandMapOk(s, t, Fault(i), k, f, perms); }
    case UserWrite(a, v, offset, byte) =>
      UserWriteOk(s, t, Slot(a, v), s.mem[s.pt[Slot(a, v)].pfn][offset := byte]);
    case _ => LockedStepKeepsInv(s, st);
  }

  lemma LockedStepKeepsInv(s: Sys, st: Step)
    requires Inv(s) && Enabled(s, st)
    requires !(st.DemandAlloc? || st.DemandRead? || st.DemandAbort? || st.DemandMap? || st.UserWrite?)
    ensures Inv(Next(s, st))
  {
    var t, p := Next(s, st), s.PhaseOf(Space(st.a));
    match st
    case FaultCheck(a, v) => FaultCheckOk(s, t, a, v, s.pt[Slot(a, v)], t.PhaseOf(Space(a)));
    case TakeOwnership(a) => TakeOwnershipOk(s, t, a, p.vpn, p.pte);
    case FaultAlloc(a, n) => FaultAllocOk(s, t, a, p.vpn, p.pte, n);
    case FaultNoMemory(a) => FaultNoMemoryOk(s, t, a);
    case FaultCopy(a) => FaultCopyOk(s, t, a, p.vpn, p.pte, p.copy);
    case FaultRemap(a) => FaultRemapOk(s, t, a, p.vpn, p.pte, p.copy);
    case FaultDrop(a) => FaultDropOk(s, t, a, p.source);
    case CloneTake(a, b, v, perms) => CloneTakeOk(s, t, a, b, v, s.pt[Slot(a, v)].pfn, perms);
    case CloneMap(a) => CloneMapOk(s, t, a, p.child, p.vpn, p.pfn, p.perms);
    case CloneProtect(a, b, v) => CloneProtectOk(s, t, a, b, v, p.pfn, p.perms);
  }

  lemma AllMappedInMem(s: Sys)
    requires Accounted(s)
    ensures forall k | k in s.pt :: s.pt[k].pfn in s.mem
  {
    forall k | k in s.pt ensures s.pt[k].pfn in s.mem { MappedIsAllocated(s, k); }
  }

  /** A step that only a fork or a program can observe. */
  predicate Visible(st: Step) { st.DemandMap? || st.UserWrite? || st.CloneProtect? }

  /** Changing only a frame that nothing maps is invisible. */
  lemma UnmappedInvisible(s: Sys, t: Sys, f: nat)
    requires Accounted(s) && t.pt == s.pt && t.mem - {f} == s.mem - {f}
    requires forall a: nat :: t.PhaseOf(Space(a)).Hidden? || s.PhaseOf(Space(a)).Hidden? ==>
      t.PhaseOf(Space(a)) == s.PhaseOf(Space(a))
    requires forall k | k in s.pt :: s.pt[k].pfn != f
    ensures View(t) == View(s)
  {
    AllMappedInMem(s);
    assert forall k: Slot :: t.IsHidden(k) <==> s.IsHidden(k);
    forall k | k in s.pt ensures s.pt[k].pfn in t.mem && t.mem[s.pt[k].pfn] == s.mem[s.pt[k].pfn] {
      assert s.pt[k].pfn in s.mem - {f};
    }
  }

  /** Pointing an entry at a frame with the same contents is invisible. */
  lemma RemapInvisible(s: Sys, t: Sys, k: Slot, pte: Pte)
    requires Accounted(s) && k in s.pt && t.pt == s.pt[k := pte] && t.mem == s.mem
    requires forall a: nat :: t.PhaseOf(Space(a)).Hidden? || s.PhaseOf(Space(a)).Hidden? ==>
      t.PhaseOf(Space(a)) == s.PhaseOf(Space(a))
    requires pte.pfn in s.mem && s.pt[k].pfn in s.mem && s.mem[pte.pfn] == s.mem[s.pt[k].pfn]
    ensures View(t) == View(s)
  {
    AllMappedInMem(s);
    assert forall j: Slot :: t.IsHidden(j) <==> s.IsHidden(j);
  }

  lemma PhaseInvisible(s: Sys, t: Sys)
    requires t.pt == s.pt && t.mem == s.mem
    requires forall a: nat :: t.PhaseOf(Space(a)).Hidden? || s.PhaseOf(Space(a)).Hidden? ==>
      t.PhaseOf(Space(a)) == s.PhaseOf(Space(a))
    ensures View(t) == View(s)
  {
    assert forall j: Slot :: t.IsHidden(j) <==> s.IsHidden(j);
  }

  /** Handling a copy-on-write fault is invisible at every one of its steps, and so are
      the allocation and the read of a missing page and the first two steps of a clone. */
  lemma FaultStepsAreInvisible(s: Sys, st: Step)
    requires Inv(s) && Enabled(s, st) && !Visible(st)
    ensures View(Next(s, st)) == View(s)
  {
    var t := Next(s, st);
    match st
    case DemandAlloc(_, _, f, _) => Unreferenced(s, f); UnmappedInvisible(s, t, f);
    case DemandRead(i, _) => DemandInvisible(s, t, i);
    case DemandAbort(i) => DemandInvisible(s, t, i);
    case CloneTake(_, _, _, _) => PhaseInvisible(s, t);
    case CloneMap(_) => CloneMapInvisible(s, st);
    case _ => CowFaultInvisible(s, st);
  }

  lemma DemandInvisible(s: Sys, t: Sys, i: nat)
    requires Inv(s) && s.PhaseOf(Fault(i)).Demand? && t.pt == s.pt
    requires t.mem - {s.PhaseOf(Fault(i)).pfn} == s.mem - {s.PhaseOf(Fault(i)).pfn}
    requires forall a: nat :: t.PhaseOf(Space(a)) == s.PhaseOf(Space(a))
    ensures View(t) == View(s)
  {
    assert PhaseOk(s, Fault(i));
    HeldAlone(s, Fault(i), s.PhaseOf(Fault(i)).pfn);
    UnmappedInvisible(s, t, s.PhaseOf(Fault(i)).pfn);
  }

  lemma CloneMapInvisible(s: Sys, st: Step)
    requires Inv(s) && Enabled(s, st) && st.CloneMap?
    ensures View(Next(s, st)) == View(s)
  {
    var t := Next(s, st);
    assert PhaseOk(s, Space(st.a));
    var Cloning(v, f, b, perms) := s.PhaseOf(Space(st.a));
    assert forall k: Slot :: t.IsHidden(k) <==> s.IsHidden(k) || k == Slot(b, v);
  }

  lemma CowFaultInvisible(s: Sys, st: Step)
    requires Inv(s) && Enabled(s, st)
    requires st.FaultCheck? || st.TakeOwnership? || st.FaultAlloc? || st.FaultNoMemory?
             || st.FaultCopy? || st.FaultRemap? || st.FaultDrop?
    ensures View(Next(s, st)) == View(s)
  {
    hide PhaseOk, SoleWriter, Accounted, View;
    var t, p := Next(s, st), s.PhaseOf(Space(st.a));
    match st
    case FaultCheck(_, _) => PhaseInvisible(s, t);
    case FaultNoMemory(_) => PhaseInvisible(s, t);
    case FaultAlloc(_, n) => Unreferenced(s, n); UnmappedInvisible(s, t, n);
    case TakeOwnership(_) => CowRemapInvisible(s, t, st.a, p.pte.pfn);
    case FaultRemap(_) => CowRemapInvisible(s, t, st.a, p.copy);
    case FaultCopy(_) => CowFrameInvisible(s, t, st.a, p.copy);
    case FaultDrop(_) => CowFrameInvisible(s, t, st.a, p.source);
  }

  /** The frame that a fault alone holds may change and go. */
  lemma CowFrameInvisible(s: Sys, t: Sys, a: nat, f: nat)
    requires Inv(s) && s.PhaseOf(Space(a)).Holds(f) && t.pt == s.pt && t.mem - {f} == s.mem - {f}
    requires t.mem == s.mem || s.PhaseOf(Space(a)).Zeroed? || s.RefOf(f) <= 1
    requires !t.PhaseOf(Space(a)).Hidden?
    requires forall c: nat :: c != a ==> t.PhaseOf(Space(c)) == s.PhaseOf(Space(c))
    ensures View(t) == View(s)
  {
    assert PhaseOk(s, Space(a)) && Space(a) in Holders(s.phase, f) && Accounts(s, f);
    hide View;
    if t.mem == s.mem {
      PhaseInvisible(s, t);
    } else {
      HeldAlone(s, Space(a), f);
      UnmappedInvisible(s, t, f);
    }
  }

  lemma CowRemapInvisible(s: Sys, t: Sys, a: nat, f: nat)
    requires Inv(s) && t.mem == s.mem && !t.PhaseOf(Space(a)).Hidden?
    requires var p := s.PhaseOf(Space(a));
      && ((p.Exclusive? && f == p.pte.pfn) || (p.Copied? && f == p.copy))
      && t.pt == s.pt[Slot(a, p.vpn) := Pte(f, p.pte.perms.FromCow())]
    requires forall c: nat :: c != a ==> t.PhaseOf(Space(c)) == s.PhaseOf(Space(c))
    ensures View(t) == View(s)
  {
    var p := s.PhaseOf(Space(a));
    assert PhaseOk(s, Space(a));
    hide View;
    MappedIsAllocated(s, Slot(a, p.vpn));
    RemapInvisible(s, t, Slot(a, p.vpn), Pte(f, p.pte.perms.FromCow()));
  }

  lemma WriteReachesOneSpace(s: Sys, st: Step)
    requires Inv(s) && Enabled(s, st) && st.UserWrite?
    ensures View(Next(s, st)) == EagerNext(View(s), st)
  {
    var k := Slot(st.a, st.vpn);
    WritableIsShown(s, k);
    hide PhaseOk;
    AllMappedInMem(s);
    WriteShows(s, Next(s, st), k, s.mem[s.pt[k].pfn][st.offset := st.byte]);
  }

  /** A page under construction in a child is never writable. */
  lemma WritableIsShown(s: Sys, k: Slot)
    requires Inv(s) && k in s.pt && s.pt[k].perms.write
    ensures !s.IsHidden(k)
  {
    assert PhaseOk(s, Space(k.space));
    if s.PhaseOf(Space(k.space)).Hidden? { assert PhaseOk(s, Space(s.PhaseOf(Space(k.space)).parent)); }
  }

  lemma WriteShows(s: Sys, t: Sys, k: Slot, page: Page)
    requires SoleWriter(s) && k in s.pt && s.pt[k].perms.write && !s.IsHidden(k)
    requires forall j | j in s.pt :: s.pt[j].pfn in s.mem
    requires t == s.(mem := s.mem[s.pt[k].pfn := page])
    ensures View(t) == View(s)[k := page]
  {
    assert forall j: Slot :: t.IsHidden(j) <==> s.IsHidden(j);
  }

  lemma DemandMapShowsPage(s: Sys, st: Step)
    requires Inv(s) && Enabled(s, st) && st.DemandMap?
    ensures View(Next(s, st)) == EagerNext(View(s), st)
  {
    AllMappedInMem(s);
    DemandHolds(s, Fault(st.i));
    hide PhaseOk, SoleWriter, Accounted, View;
    var Demand(k, f, perms) := s.PhaseOf(Fault(st.i));
    DemandShows(s, Next(s, st), k, Pte(f, perms));
  }

  /** After the check a fault claims its page exactly if the frame has no other reference,
      and needs a new frame, and may run out of memory, exactly if it has. */
  lemma CheckDecides(s: Sys, a: nat, v: nat, n: nat)
    requires Inv(s) && Enabled(s, FaultCheck(a, v)) && n !in s.refs
    ensures var u, f := Next(s, FaultCheck(a, v)), s.pt[Slot(a, v)].pfn;
      && (Enabled(u, TakeOwnership(a)) <==> |Mappers(s.pt, f)| + |Holders(s.phase, f)| + Pinned(s.pins, f) == 1)
      && (Enabled(u, FaultAlloc(a, n)) <==> |Mappers(s.pt, f)| + |Holders(s.phase, f)| + Pinned(s.pins, f) > 1)
      && (Enabled(u, FaultNoMemory(a)) <==> Enabled(u, FaultAlloc(a, n)))
  {
    MappedIsAllocated(s, Slot(a, v));
    assert Accounts(s, s.pt[Slot(a, v)].pfn);
    hide PhaseOk, SoleWriter;
  }

  /** Once a fault has claimed its page or mapped its copy, the mark is gone, the other
      permissions are as they were, and the store that faulted is enabled at every byte
      of the page that was there to see. */
  lemma ResolvedIsWritable(s: Sys, st: Step, offset: nat, byte: bv8)
    requires Inv(s) && Enabled(s, st) && (st.TakeOwnership? || st.FaultRemap?)
    ensures var u, k := Next(s, st), Slot(st.a, s.PhaseOf(Space(st.a)).vpn);
      && k in s.pt && k in u.pt && k in View(s)
      && s.pt[k].perms.cow && u.pt[k].perms == s.pt[k].perms.(write := true, cow := false)
      && (offset < |View(s)[k]| ==> Enabled(u, UserWrite(k.space, k.vpn, offset, byte)))
  {
    assert PhaseOk(s, Space(st.a));
    var k := Slot(st.a, s.PhaseOf(Space(st.a)).vpn);
    MappedIsAllocated(s, k);
    hide Accounted, SoleWriter;
  }

  /** Mapping a missing page in an unlocked space shows it; a page already mapped is shown
      as it is. */
  lemma DemandShows(s: Sys, t: Sys, k: Slot, pte: Pte)
    requires s.Unlocked(k.space) && pte.pfn in s.mem && t.mem == s.mem
    requires forall j | j in s.pt :: s.pt[j].pfn in s.mem
    requires t.pt == if k in s.pt then s.pt else s.pt[k := pte]
    requires forall a: nat :: t.PhaseOf(Space(a)) == s.PhaseOf(Space(a))
    ensures k in View(s) <==> k in s.pt
    ensures View(t) == if k in s.pt then View(s) else View(s)[k := s.mem[pte.pfn]]
  {
    assert forall j: Slot :: t.IsHidden(j) <==> s.IsHidden(j);
  }

  lemma ProtectShowsCopy(s: Sys, st: Step)
    requires Inv(s) && Enabled(s, st) && st.CloneProtect?
    ensures View(Next(s, st)) == EagerNext(View(s), st)
  {
    AllMappedInMem(s);
    assert PhaseOk(s, Space(st.a));
    hide View;
    ProtectShows(s, Next(s, st), st.a, st.child, st.vpn, s.PhaseOf(Space(st.a)).pfn, s.PhaseOf(Space(st.a)).perms);
  }

  lemma ProtectShows(s: Sys, t: Sys, a: nat, b: nat, v: nat, f: nat, perms: Perms)
    requires a != b && s.PhaseOf(Space(a)).Cloned? && s.PhaseOf(Space(b)) == Hidden(a, v)
    requires forall k | k in s.pt :: s.pt[k].pfn in s.mem
    requires Slot(a, v) in s.pt && s.pt[Slot(a, v)].pfn == f && Slot(b, v) in s.pt && s.pt[Slot(b, v)].pfn == f
    requires t == s.(pt := s.pt[Slot(a, v) := Pte(f, perms)], phase := s.phase - {Space(a)} - {Space(b)})
    ensures Slot(a, v) in View(s) && View(t) == View(s)[Slot(b, v) := View(s)[Slot(a, v)]]
  {
    assert forall k: Slot :: t.IsHidden(k) <==> s.IsHidden(k) && k != Slot(b, v);
  }

  /** Every step, wherever it falls between the steps of others, shows each space what
      the same step would show it had every page been copied at fork. */
  lemma StepRefinesEager(s: Sys, st: Step)
    requires Inv(s) && Enabled(s, st)
    ensures View(Next(s, st)) == EagerNext(View(s), st)
  {
    match st
    case DemandMap(_, _, _) => DemandMapShowsPage(s, st);
    case UserWrite(_, _, _, _) => WriteReachesOneSpace(s, st);
    case CloneProtect(_, _, _) => ProtectShowsCopy(s, st);
    case _ => FaultStepsAreInvisible(s, st);
  }

  ghost predicate Legal(s: Sys, run: seq<Step>)
    decreases |run|
  {
    run == [] || (Enabled(s, run[0]) && Legal(Next(s, run[0]), run[1..]))
  }

  ghost function Run(s: Sys, run: seq<Step>): Sys
    requires Legal(s, run)
    decreases |run|
  {
    if run == [] then s else Run(Next(s, run[0]), run[1..])
  }

  ghost function EagerRun(e: map<Slot, Page>, run: seq<Step>): map<Slot, Page>
    decreases |run|
  {
    if run == [] then e else EagerRun(EagerNext(e, run[0]), run[1..])
  }

  /** Copy-on-write fork refines eager-copy fork over every run and interleaving,
      and every reference stays accounted for. */
  lemma {:induction false} RunRefinesEager(s: Sys, run: seq<Step>)
    requires Inv(s) && Legal(s, run)
    ensures Inv(Run(s, run))
    ensures View(Run(s, run)) == EagerRun(View(s), run)
    decreases |run|
  {
    if run != [] {
      StepKeepsInv(s, run[0]);
      StepRefinesEager(s, run[0]);
      RunRefinesEager(Next(s, run[0]), run[1..]);
    }
  }

  /** Every mapped page is backed by an allocated frame; whoever may write a page is its
      only live mapping, and the mapping is not marked copy-on-write. */
  lemma MappedPagesAreSafe(s: Sys, run: seq<Step>, k: Slot)
    requires Inv(s) && Legal(s, run) && k in Run(s, run).pt
    ensures var t := Run(s, run);
      && t.pt[k].pfn in t.mem && t.RefOf(t.pt[k].pfn) >= |Mappers(t.pt, t.pt[k].pfn)| >= 1
      && (t.pt[k].perms.write ==>
            && !t.pt[k].perms.cow
            && forall j | j in t.pt && t.pt[j].pfn == t.pt[k].pfn && !t.IsHidden(j) :: j == k)
  {
    RunRefinesEager(s, run);
    var t := Run(s, run);
    MappedIsAllocated(t, k);
    assert k in Mappers(t.pt, t.pt[k].pfn) && Accounts(t, t.pt[k].pfn);
  }

  // ------------------------------------------------------------ the page that was read

  /** The step is one of missing-page fault `i`. */
  predicate OwnDemand(st: Step, i: nat) {
    (st.DemandAlloc? || st.DemandRead? || st.DemandAbort? || st.DemandMap?) && st.i == i
  }

  /** What a waiting fault is going to map. */
  ghost predicate WaitsWith(s: Sys, i: nat, page: Page) {
    && s.PhaseOf(Fault(i)).Demand? && s.PhaseOf(Fault(i)).pfn in s.mem
    && s.mem[s.PhaseOf(Fault(i)).pfn] == page
  }

  /** Nobody else writes the frame of a waiting fault. */
  lemma WaitingPageStays(s: Sys, st: Step, i: nat, page: Page)
    requires Inv(s) && Enabled(s, st) && WaitsWith(s, i, page) && !OwnDemand(st, i)
    ensures WaitsWith(Next(s, st), i, page)
  {
    hide PhaseOk, SoleWriter, Accounted;
    DemandHolds(s, Fault(i));
    if st.DemandRead? || st.DemandAbort? { DemandHolds(s, Fault(st.i)); }
    if st.FaultCopy? { assert s.PhaseOf(Space(st.a)).Holds(s.PhaseOf(Space(st.a)).copy); }
    if st.FaultDrop? { assert s.PhaseOf(Space(st.a)).Holds(s.PhaseOf(Space(st.a)).source); }
  }

  /** Whatever runs in between, a fault maps the page its last read gave it, or zeros if it
      has read nothing since it got its frame. */
  lemma MapsWhatItRead(s: Sys, st: Step, i: nat, run: seq<Step>, k: Slot, page: Page)
    requires Inv(s) && Enabled(s, st) && (st.DemandAlloc? || st.DemandRead?) && st.i == i
    requires Legal(Next(s, st), run) && forall x | x in run :: !OwnDemand(x, i)
    requires Enabled(Run(Next(s, st), run), DemandMap(i, k, page))
    ensures page == if st.DemandRead? then st.page else ZeroPage()
  {
    StepKeepsInv(s, st);
    var now := if st.DemandRead? then st.page else ZeroPage();
    assert WaitsWith(Next(s, st), i, now);
    WaitsThroughout(Next(s, st), run, i, now);
  }

  lemma {:induction false} WaitsThroughout(s: Sys, run: seq<Step>, i: nat, page: Page)
    requires Inv(s) && Legal(s, run) && WaitsWith(s, i, page) && forall x | x in run :: !OwnDemand(x, i)
    ensures WaitsWith(Run(s, run), i, page)
    decreases |run|
  {
    if run != [] {
      assert !OwnDemand(run[0], i);
      StepKeepsInv(s, run[0]);
      WaitingPageStays(s, run[0], i, page);
      WaitsThroughout(Next(s, run[0]), run[1..], i, page);
    }
  }

  // ------------------------------------------------------------------ lost frames

  /** Allocated, with nothing left that could map it or drop it. */
  ghost predicate Lost(s: Sys, f: nat) {
    && f in s.refs
    && (forall k | k in s.pt :: s.pt[k].pfn != f)
    && (forall o | o in s.phase :: !s.phase[o].Holds(f))
  }

  /** The step is a fault that finds its page mapped by another fault meanwhile. */
  predicate Leaks(s: Sys, st: Step, f: nat) {
    st.DemandMap? && st.slot in s.pt && s.PhaseOf(Fault(st.i)).Demand? && s.PhaseOf(Fault(st.i)).pfn == f
  }

  ghost predicate LeakedIn(s: Sys, run: seq<Step>, f: nat)
    requires Legal(s, run)
    decreases |run|
  {
    run != [] && (Leaks(s, run[0], f) || LeakedIn(Next(s, run[0]), run[1..], f))
  }

  /** A frame that is pinned at all has no other references. */
  ghost predicate PinsAlone(s: Sys) {
    forall g: nat :: Pinned(s.pins, g) > 0 ==> s.RefOf(g) == Pinned(s.pins, g)
  }

  lemma LostIsPinned(s: Sys, f: nat)
    requires Accounted(s) && PinsAlone(s)
    ensures Lost(s, f) <==> Pinned(s.pins, f) > 0
  {
    assert Accounts(s, f);
    if Lost(s, f) {
      assert Mappers(s.pt, f) == {} && Holders(s.phase, f) == {};
    }
    if Pinned(s.pins, f) > 0 {
      assert Mappers(s.pt, f) == {} && Holders(s.phase, f) == {};
      assert forall k | k in s.pt && s.pt[k].pfn == f :: k in Mappers(s.pt, f);
      assert forall o | o in s.phase && s.phase[o].Holds(f) :: o in Holders(s.phase, f);
    }
  }

  /** A frame that is mapped, or held, or free is not pinned. */
  lemma MappedIsNotPinned(s: Sys, k: Slot)
    requires Accounted(s) && PinsAlone(s) && k in s.pt
    ensures Pinned(s.pins, s.pt[k].pfn) == 0
  {
    LostIsPinned(s, s.pt[k].pfn);
  }

  lemma HeldIsNotPinned(s: Sys, o: Owner, f: nat)
    requires Accounted(s) && PinsAlone(s) && s.PhaseOf(o).Holds(f)
    ensures Pinned(s.pins, f) == 0
  {
    LostIsPinned(s, f);
  }

  lemma FreeIsNotPinned(s: Sys, f: nat)
    requires PinsAlone(s) && f !in s.refs
    ensures Pinned(s.pins, f) == 0
  {
  }

  /** A step that changes at most the count of one unpinned frame. */
  lemma UnpinnedStep(s: Sys, t: Sys, f: nat)
    requires PinsAlone(s) && t.pins == s.pins && (t.refs == s.refs || Pinned(s.pins, f) == 0)
    requires forall g: nat :: g != f ==> t.RefOf(g) == s.RefOf(g)
    ensures PinsAlone(t)
  {
  }

  lemma DemandMapPins(s: Sys, st: Step)
    requires Inv(s) && PinsAlone(s) && Enabled(s, st) && st.DemandMap?
    ensures PinsAlone(Next(s, st))
  {
    DemandHolds(s, Fault(st.i));
    HeldIsNotPinned(s, Fault(st.i), s.PhaseOf(Fault(st.i)).pfn);
    hide PhaseOk, SoleWriter, Accounted;
  }

  lemma StepKeepsPinsAlone(s: Sys, st: Step)
    requires Inv(s) && PinsAlone(s) && Enabled(s, st)
    ensures PinsAlone(Next(s, st))
  {
    hide PhaseOk, SoleWriter, Accounted, PinsAlone;
    var t := Next(s, st);
    match st
    case DemandAlloc(_, _, f, _) => FreeIsNotPinned(s, f); UnpinnedStep(s, t, f);
    case DemandAbort(i) =>
      var f := s.PhaseOf(Fault(i)).pfn;
      HeldIsNotPinned(s, Fault(i), f);
      UnpinnedStep(s, t, f);
    case DemandMap(_, _, _) => DemandMapPins(s, st);
    case FaultAlloc(_, n) => FreeIsNotPinned(s, n); UnpinnedStep(s, t, n);
    case FaultDrop(a) =>
      var f := s.PhaseOf(Space(a)).source;
      HeldIsNotPinned(s, Space(a), f);
      UnpinnedStep(s, t, f);
    case CloneTake(a, _, v, _) =>
      MappedIsNotPinned(s, Slot(a, v));
      UnpinnedStep(s, t, s.pt[Slot(a, v)].pfn);
    case _ => UnpinnedStep(s, t, 0);
  }

  /** A step loses a frame exactly when it leaks it, and a lost frame stays lost. */
  lemma LostExactly(s: Sys, st: Step, f: nat)
    requires Inv(s) && PinsAlone(s) && Enabled(s, st)
    ensures Lost(Next(s, st), f) <==> Lost(s, f) || Leaks(s, st, f)
  {
    StepKeepsInv(s, st);
    StepKeepsPinsAlone(s, st);
    LostIsPinned(s, f);
    LostIsPinned(Next(s, st), f);
  }

  /** Over every run and interleaving, a frame ends up lost exactly when some fault of the
      run came to map it and found the page mapped by another. */
  lemma {:induction false} LostOnlyByRacingFaults(s: Sys, run: seq<Step>, f: nat)
    requires Inv(s) && PinsAlone(s) && Legal(s, run)
    ensures Lost(Run(s, run), f) <==> Lost(s, f) || LeakedIn(s, run, f)
    decreases |run|
  {
    if run != [] {
      StepKeepsInv(s, run[0]);
      StepKeepsPinsAlone(s, run[0]);
      LostExactly(s, run[0], f);
      LostOnlyByRacingFaults(Next(s, run[0]), run[1..], f);
    }
  }

  lemma RunFrom(s: Sys, st: Step, rest: seq<Step>)
    requires Enabled(s, st) && Legal(Next(s, st), rest)
    ensures Legal(s, [st] + rest) && Run(s, [st] + rest) == Run(Next(s, st), rest)
  {
    assert ([st] + rest)[1..] == rest;
  }

  /** Two threads of one space fault on one page of a file: the frame of the second is
      lost. */
  lemma RacingFaultsExample(perms: Perms, page: Page)
    requires !perms.cow
    ensures var s, k := Sys(map[], map[], map[], map[], map[]), Slot(7, 3);
      var run := [DemandAlloc(0, k, 100, perms), DemandAlloc(1, k, 101, perms),
                  DemandRead(0, page), DemandRead(1, page), DemandMap(0, k, page), DemandMap(1, k, page)];
      Inv(s) && PinsAlone(s) && Legal(s, run) && Lost(Run(s, run), 101)
  {
    var s, k := Sys(map[], map[], map[], map[], map[]), Slot(7, 3);
    assert Inv(s) by { assert forall f: nat :: Mappers(map[], f) == {} && Holders(map[], f) == {}; }
    var run := [DemandAlloc(0, k, 100, perms), DemandAlloc(1, k, 101, perms),
                DemandRead(0, page), DemandRead(1, page), DemandMap(0, k, page), DemandMap(1, k, page)];
    var s1 := Next(s, run[0]);
    var s2 := Next(s1, run[1]);
    assert s2.phase == map[Fault(0) := Demand(k, 100, perms), Fault(1) := Demand(k, 101, perms)];
    RacingReads(s2, k, 100, 101, perms, page);
    RunFrom(s1, run[1], run[2..]);
    RunFrom(s, run[0], run[1..]);
  }

  /** From two faults under way on one page: both read, the first maps, the second loses. */
  lemma RacingReads(s: Sys, k: Slot, f: nat, g: nat, perms: Perms, page: Page)
    requires s.phase == map[Fault(0) := Demand(k, f, perms), Fault(1) := Demand(k, g, perms)]
    requires f != g && g in s.refs && k !in s.pt && forall j | j in s.pt :: s.pt[j].pfn != g
    ensures var run := [DemandRead(0, page), DemandRead(1, page), DemandMap(0, k, page), DemandMap(1, k, page)];
      Legal(s, run) && Lost(Run(s, run), g)
  {
    hide Lost, Legal, Run;
    var run := [DemandRead(0, page), DemandRead(1, page), DemandMap(0, k, page), DemandMap(1, k, page)];
    var s1 := Next(s, run[0]);
    var s2 := Next(s1, run[1]);
    assert run[2..] == [DemandMap(0, k, page), DemandMap(1, k, page)];
    RacingMaps(s2, k, f, g, perms, page);
    assert [run[1]] + run[2..] == run[1..] && [run[0]] + run[1..] == run;
    RunFrom(s1, run[1], run[2..]);
    RunFrom(s, run[0], run[1..]);
  }

  lemma RacingMaps(s: Sys, k: Slot, f: nat, g: nat, perms: Perms, page: Page)
    requires s.phase == map[Fault(0) := Demand(k, f, perms), Fault(1) := Demand(k, g, perms)]
    requires f != g && g in s.refs && k !in s.pt && forall j | j in s.pt :: s.pt[j].pfn != g
    requires f in s.mem && g in s.mem && s.mem[f] == s.mem[g] == page
    ensures var run := [DemandMap(0, k, page), DemandMap(1, k, page)];
      Legal(s, run) && Lost(Run(s, run), g)
  {
    var first, second := DemandMap(0, k, page), DemandMap(1, k, page);
    var s1 := Next(s, first);
    assert s1.phase == map[Fault(1) := Demand(k, g, perms)];
    var s2 := Next(s1, second);
    assert s2.phase == map[];
    assert Lost(s2, g);
    hide Lost;
    RunFrom(s1, second, []);
    RunFrom(s, first, [second]);
  }
}
