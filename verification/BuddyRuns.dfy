/** Runs of the allocator: every handle ever cloned, dropped, leaked or rebuilt
    from a leaked region is accounted for in the reference counts. */
module BuddyRuns {
  import opened PowersOfTwo
  import opened Buddy
  import opened BuddyTheorems

  /** The allocator with the handles that point at each block: those held as
      `PageAllocation` values and those leaked to page tables. */
  datatype System = System(mem: State, held: multiset<nat>, leaked: multiset<nat>)

  datatype Op =
    | AllocOp(order: nat)
    | CloneOp(p: nat)
    | DropOp(p: nat)
    | LeakOp(p: nat)
    | ReclaimOp(p: nat)

  /** Handles are exact: a block is allocated when some handle names it, and its
      reference count is the number of those handles. */
  ghost predicate Owned(y: System) {
    && WellFormed(y.mem)
    && (forall p: nat | y.held[p] + y.leaked[p] > 0 :: y.mem.In(p) && y.mem.At(p).AllocatedHead?)
    && (forall p: nat | y.mem.In(p) && y.mem.At(p).AllocatedHead? ::
          y.mem.At(p).refCount == y.held[p] + y.leaked[p])
  }

  /** A caller can only use a handle it has, and only reclaim a region it leaked. */
  predicate Enabled(y: System, op: Op) {
    match op
    case AllocOp(_) => true
    case CloneOp(p) => y.held[p] > 0
    case DropOp(p) => y.held[p] > 0
    case LeakOp(p) => y.held[p] > 0
    case ReclaimOp(p) => y.leaked[p] > 0
  }

  ghost function Step(y: System, op: Op): System
    requires Owned(y) && Enabled(y, op)
  {
    match op
    case AllocOp(k) =>
      var (t, r) := Alloc(y.mem, k);
      if r.Ok? then y.(mem := t, held := y.held + multiset{r.value}) else y.(mem := t)
    case CloneOp(p) => y.(mem := Clone(y.mem, p), held := y.held + multiset{p})
    case DropOp(p) => y.(mem := Drop(y.mem, p), held := y.held - multiset{p})
    case LeakOp(p) => y.(held := y.held - multiset{p}, leaked := y.leaked + multiset{p})
    case ReclaimOp(p) => y.(held := y.held + multiset{p}, leaked := y.leaked - multiset{p})
  }

  /** Handles stay exact when only block `p` and its handles change, together. */
  lemma Reowned(y: System, z: System, p: nat)
    requires Owned(y) && WellFormed(z.mem) && y.mem.In(p) && OthersKept(y.mem, z.mem, p)
    requires forall q: nat | q != p :: z.held[q] + z.leaked[q] == y.held[q] + y.leaked[q]
    requires z.held[p] + z.leaked[p] > 0 ==> z.mem.At(p).AllocatedHead?
    requires z.mem.At(p).AllocatedHead? ==> z.mem.At(p).refCount == z.held[p] + z.leaked[p]
    ensures Owned(z)
  {
  }

  lemma AllocKeepsOwned(y: System, k: nat)
    requires Owned(y)
    ensures Owned(Step(y, AllocOp(k)))
  {
    AllocKeepsWellFormed(y.mem, k);
    var (t, r) := Alloc(y.mem, k);
    if r.Ok? {
      assert y.held[r.value] + y.leaked[r.value] == 0;
      Reowned(y, Step(y, AllocOp(k)), r.value);
    }
  }

  lemma CloneKeepsOwned(y: System, p: nat)
    requires Owned(y) && y.held[p] > 0
    ensures Owned(Step(y, CloneOp(p)))
  {
    RecountOk(y.mem, Clone(y.mem, p), p, y.mem.At(p).refCount + 1);
    Reowned(y, Step(y, CloneOp(p)), p);
  }

  lemma DropKeepsOwned(y: System, p: nat)
    requires Owned(y) && y.held[p] > 0
    ensures Owned(Step(y, DropOp(p)))
  {
    DropKeepsWellFormed(y.mem, p);
    Reowned(y, Step(y, DropOp(p)), p);
  }

  /** A handle that is leaked or reclaimed still counts. */
  lemma HandleMoved(y: System, z: System, p: nat)
    requires Owned(y) && z.mem == y.mem && y.held[p] + y.leaked[p] > 0
    requires forall q: nat :: z.held[q] + z.leaked[q] == y.held[q] + y.leaked[q]
    ensures Owned(z)
  {
    hide WellFormed;
    Reowned(y, z, p);
  }

  lemma StepKeepsOwned(y: System, op: Op)
    requires Owned(y) && Enabled(y, op)
    ensures Owned(Step(y, op))
  {
    hide Owned;
    match op
    case AllocOp(k) => AllocKeepsOwned(y, k);
    case CloneOp(p) => CloneKeepsOwned(y, p);
    case DropOp(p) => DropKeepsOwned(y, p);
    case LeakOp(p) => HandleMoved(y, Step(y, op), p);
    case ReclaimOp(p) => HandleMoved(y, Step(y, op), p);
  }

  ghost predicate Legal(y: System, ops: seq<Op>)
    requires Owned(y)
    decreases |ops|
  {
    ops == [] ||
    (Enabled(y, ops[0]) && (StepKeepsOwned(y, ops[0]); Legal(Step(y, ops[0]), ops[1..])))
  }

  ghost function Run(y: System, ops: seq<Op>): System
    requires Owned(y) && Legal(y, ops)
    decreases |ops|
  {
    if ops == [] then y
    else
      StepKeepsOwned(y, ops[0]);
      Run(Step(y, ops[0]), ops[1..])
  }

  /** Safety over every run: blocks stay aligned, disjoint, listed and coalesced,
      the counter and the reference counts stay exact. */
  lemma {:induction false} RunKeepsOwned(y: System, ops: seq<Op>)
    requires Owned(y) && Legal(y, ops)
    ensures Owned(Run(y, ops))
    decreases |ops|
  {
    if ops != [] {
      StepKeepsOwned(y, ops[0]);
      RunKeepsOwned(Step(y, ops[0]), ops[1..]);
    }
  }

  /** In every reachable state a request fails exactly when no run of that size that starts
      at a multiple of it is free. */
  lemma ReachableCompleteness(y: System, ops: seq<Op>, k: nat)
    requires Owned(y) && Legal(y, ops)
    ensures Alloc(Run(y, ops).mem, k).1.Err? <==>
            k > MAX_ORDER || !exists p: nat :: FreeMultiple(Run(y, ops).mem, p, k)
  {
    RunKeepsOwned(y, ops);
    AllocFailsOnlyWhenItMust(Run(y, ops).mem, k);
  }

  /** A block stops being allocated in exactly one way: its last handle is dropped. */
  lemma FreedOnlyByLastDrop(y: System, op: Op, p: nat)
    requires Owned(y) && Enabled(y, op) && y.mem.In(p) && y.mem.At(p).AllocatedHead?
    ensures var t := Step(y, op).mem;
      && t.In(p)
      && (!(t.At(p).AllocatedHead? && t.At(p).order == y.mem.At(p).order) <==>
            op == DropOp(p) && y.held[p] + y.leaked[p] == 1)
  {
    hide WellFormed;
    match op
    case AllocOp(k) => AllocKeepsWellFormed(y.mem, k);
    case CloneOp(q) => RecountOk(y.mem, Clone(y.mem, q), q, y.mem.At(q).refCount + 1);
    case DropOp(q) => DropKeepsWellFormed(y.mem, q);
    case LeakOp(_) =>
    case ReclaimOp(_) =>
  }

  /** A new allocation overlaps no block that any handle still names. */
  lemma FreshBlockIsNobodyElses(y: System, k: nat, q: nat)
    requires Owned(y) && Alloc(y.mem, k).1.Ok?
    requires y.held[q] + y.leaked[q] > 0
    ensures var p := Alloc(y.mem, k).1.value;
      y.mem.In(q) && y.mem.At(q).AllocatedHead? &&
      (p + Pow2(k) <= q || q + Pow2(y.mem.At(q).order) <= p)
  {
    AllocKeepsWellFormed(y.mem, k);
    var (t, r) := Alloc(y.mem, k);
    assert t.At(q) == y.mem.At(q) && t.At(r.value).IsHead() && t.At(q).IsHead();
  }
}
