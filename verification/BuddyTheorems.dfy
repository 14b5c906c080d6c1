/** What the buddy allocator guarantees, for every well-formed state and over
    every run of allocation, sharing and release. */
module BuddyTheorems {
  import opened Common
  import opened PowersOfTwo
  import opened Buddy

  // ------------------------------------------------------- single operations

  /** Page `x` lies in a free block. */
  ghost predicate PageFree(s: State, x: int) {
    exists h | s.In(h) && s.At(h).Free? :: h <= x < h + Pow2(s.At(h).order)
  }

  /** [p, p + 2^k) is naturally aligned and every page of it is free. */
  ghost predicate FreeRun(s: State, p: nat, k: nat) {
    Aligned(p, k) && forall x | p <= x < p + Pow2(k) :: PageFree(s, x)
  }

  /** The same said with arithmetic: `p` is a multiple of 2^k. */
  ghost predicate FreeMultiple(s: State, p: nat, k: nat) {
    p % Pow2(k) == 0 && forall x | p <= x < p + Pow2(k) :: PageFree(s, x)
  }

  lemma FreeRunIsMultiple(s: State, p: nat, k: nat)
    ensures FreeRun(s, p, k) <==> FreeMultiple(s, p, k)
  {
    AlignedIsDivisible(p, k);
  }

  /** The references to every allocated block of `s` other than the one at `p`
      are the same in `t`. */
  ghost predicate OthersKept(s: State, t: State, p: int) {
    && t.base == s.base && |t.frames| == |s.frames|
    && (forall q | s.In(q) && q != p && (s.At(q).AllocatedHead? || t.At(q).AllocatedHead?) :: t.At(q) == s.At(q))
  }

  lemma FirstFitFree(s: State, k: nat, p: nat, j: nat)
    requires Core(s) && FirstFit(s, k) == Ok(j) && p == s.List(j)[0]
    ensures s.FreeAt(p, j) && k <= j <= MAX_ORDER && Remove(s.List(j), p) == s.List(j)[1..]
  {
    assert p in s.lists[j];
  }

  lemma AllocClaims(s: State, p: nat, j: nat, k: nat)
    requires Core(s) && s.FreeAt(p, j) && k <= j <= MAX_ORDER
    ensures var v := Split(s.Detach(p, j), p, j, k).Claim(p, k);
      && Core(v) && OthersKept(s, v, p) && v.At(p) == AllocatedHead(1, k)
      && FreeSum(v.frames) == FreeSum(s.frames) - Pow2(k)
  {
    var d := s.Detach(p, j);
    DetachOk(s, d, p, j);
    var u := Split(d, p, j, k);
    SplitOk(d, p, j, k);
    var v := u.Claim(p, k);
    ClaimOk(u, v, p, k);
    OutsideBlockKept(s, d, u, v, p, j, k);
  }

  /** A successful allocation hands out an aligned run whose pages were all free,
      takes exactly its pages off the counter, touches no other allocation and
      keeps the invariant; a failed one changes nothing. */
  lemma AllocKeepsWellFormed(s: State, k: nat)
    requires WellFormed(s)
    ensures var (t, r) := Alloc(s, k);
      && WellFormed(t)
      && (r.Err? ==> t == s)
      && (r.Ok? ==>
            && s.In(r.value) && !s.At(r.value).AllocatedHead? && FreeRun(s, r.value, k)
            && OthersKept(s, t, r.value) && t.At(r.value) == AllocatedHead(1, k)
            && t.freePages == s.freePages - Pow2(k) >= 0)
  {
    hide Core, FreeRun, OthersKept, FirstFit, Split;
    var fit := FirstFit(s, k);
    if k <= MAX_ORDER && fit.Ok? {
      var p := s.List(fit.value)[0];
      FirstFitFree(s, k, p, fit.value);
      AllocatedRunWasFree(s, p, fit.value, k);
      AllocClaims(s, p, fit.value, k);
      var v := Split(s.Detach(p, fit.value), p, fit.value, k).Claim(p, k);
      Recounted(s, v, Alloc(s, k).0, p);
    }
  }

  lemma Recounted(s: State, v: State, t: State, p: nat)
    requires Core(v) && s.In(p) && OthersKept(s, v, p) && t == v.(freePages := t.freePages)
    ensures Core(t) && OthersKept(s, t, p) && t.At(p) == v.At(p)
  {
    FreePagesOnly(v, t);
    assert forall q | t.In(q) :: t.At(q) == v.At(q);
  }

  /** The invariant does not mention the counter. */
  lemma FreePagesOnly(s: State, t: State)
    requires Core(s) && t == s.(freePages := t.freePages)
    ensures Core(t)
  {
    assert forall p | t.In(p) :: t.At(p) == s.At(p);
    assert forall p, o :: t.FreeAt(p, o) == s.FreeAt(p, o);
  }

  lemma AllocatedRunWasFree(s: State, p: nat, j: nat, k: nat)
    requires Core(s) && s.FreeAt(p, j) && k <= j
    ensures FreeRun(s, p, k)
  {
    Pow2Monotone(k, j);
    AlignedWeaken(p, j, k);
    assert s.In(p) && s.At(p).Free?;
  }

  lemma OutsideBlockKept(s: State, d: State, u: State, v: State, p: nat, j: nat, k: nat)
    requires Core(s) && s.FreeAt(p, j) && k <= j
    requires SameBut(s, d, p) && Carved(d, u, p, j) && SameOutside(u, v, p, k)
    requires forall q | p < q < p + Pow2(k) :: v.In(q) && v.At(q).AllocatedTail?
    ensures OthersKept(s, v, p)
  {
    Pow2Monotone(k, j);
    forall q | s.In(q) && q != p && (s.At(q).AllocatedHead? || v.At(q).AllocatedHead?)
      ensures v.At(q) == s.At(q)
    {
      if p < q < p + Pow2(j) {
        assert v.At(q).AllocatedTail? || v.At(q) == u.At(q);
        assert !s.At(q).IsHead();
      } else {
        assert v.At(q) == u.At(q) == d.At(q);
      }
    }
  }

  lemma DropMerges(s: State, p: nat)
    requires Core(s) && s.In(p) && s.At(p).AllocatedHead? && s.At(p).refCount == 1
    ensures var (v, q, m) := Merge(s.Put(p, Uninitialized), p, s.At(p).order);
      var w := v.Attach(q, m);
      && Core(w) && OthersKept(s, w, p) && !w.At(p).AllocatedHead? && FreeRun(w, p, s.At(p).order)
      && FreeSum(w.frames) == FreeSum(s.frames) + Pow2(s.At(p).order)
  {
    var o := s.At(p).order;
    var u := s.Put(p, Uninitialized);
    ReleaseOk(s, u, p);
    MergeOk(u, p, o);
    var (v, q, m) := Merge(u, p, o);
    HoleHasNoHead(v, q, m);
    var w := v.Attach(q, m);
    AttachOk(v, w, q, BuddyOf(q, m), m);
    DropFrees(s, u, v, w, p, q, m);
  }

  /** Releasing a reference keeps the invariant and every other allocation.  While
      other references remain only the count changes; the last release makes every
      page of the block free and returns exactly those pages to the counter. */
  lemma DropKeepsWellFormed(s: State, p: nat)
    requires WellFormed(s) && s.In(p) && s.At(p).AllocatedHead?
    ensures var t := Drop(s, p); var AllocatedHead(refs, o) := s.At(p);
      && WellFormed(t) && OthersKept(s, t, p)
      && (refs > 1 ==> t.At(p) == AllocatedHead(refs - 1, o) && t.lists == s.lists && t.freePages == s.freePages)
      && (refs == 1 ==> !t.At(p).AllocatedHead? && FreeRun(t, p, o) && t.freePages == s.freePages + Pow2(o))
  {
    var AllocatedHead(refs, o) := s.At(p);
    if refs > 1 {
      RecountOk(s, Drop(s, p), p, refs - 1);
    } else {
      DropMerges(s, p);
      var (v, q, m) := Merge(s.Put(p, Uninitialized), p, o);
      Recounted(s, v.Attach(q, m), Drop(s, p), p);
      FreeRunSame(v.Attach(q, m), Drop(s, p), p, o);
    }
  }

  lemma FreeRunSame(s: State, t: State, p: nat, k: nat)
    requires FreeRun(s, p, k) && t == s.(freePages := t.freePages)
    ensures FreeRun(t, p, k)
  {
    forall x | p <= x < p + Pow2(k)
      ensures PageFree(t, x)
    {
      assert PageFree(s, x);
      var h :| s.In(h) && s.At(h).Free? && h <= x < h + Pow2(s.At(h).order);
      assert t.In(h) && t.At(h) == s.At(h);
    }
  }

  lemma DropFrees(s: State, u: State, v: State, w: State, p: nat, q: nat, m: nat)
    requires Core(s) && s.In(p) && s.At(p).AllocatedHead?
    requires SameBut(s, u, p) && u.At(p) == Uninitialized
    requires Merged(u, p, s.At(p).order, v, q, m) && SameBut(v, w, q) && w.At(q) == Free(m) && !v.At(q).IsHead()
    ensures OthersKept(s, w, p) && !w.At(p).AllocatedHead? && FreeRun(w, p, s.At(p).order)
  {
    assert w.In(q) && w.At(q).Free?;
    forall x | s.In(x) && x != p && (s.At(x).AllocatedHead? || w.At(x).AllocatedHead?)
      ensures w.At(x) == s.At(x)
    {
      assert u.At(x) == s.At(x);
    }
  }

  /** Changing a reference count to another positive one keeps the invariant. */
  lemma RecountOk(s: State, t: State, p: nat, refs: nat)
    requires WellFormed(s) && s.In(p) && s.At(p).AllocatedHead? && refs >= 1
    requires t == s.Put(p, AllocatedHead(refs, s.At(p).order))
    ensures WellFormed(t) && OthersKept(s, t, p) && t.At(p) == AllocatedHead(refs, s.At(p).order)
  {
    assert SameBut(s, t, p);
    FreeSumUpdate(s.frames, p - s.base, t.At(p));
    assert Listed(t) by { ListedSame(s, t, p); }
    assert Coalesced(t) by { CoalescedLess(s, t, p); }
    RecountBlocks(s, t, p);
    RecountTails(s, t, p);
  }

  lemma RecountBlocks(s: State, t: State, p: nat)
    requires Placed(s) && Disjoint(s) && SameBut(s, t, p)
    requires s.At(p).AllocatedHead? && t.At(p).AllocatedHead? && t.At(p).order == s.At(p).order
    ensures Placed(t) && Disjoint(t)
  {
    assert forall q | t.In(q) && t.At(q).IsHead() :: s.At(q).IsHead() && s.At(q).order == t.At(q).order;
  }

  lemma RecountTails(s: State, t: State, p: nat)
    requires Named(s) && Rooted(s) && SameBut(s, t, p)
    requires s.At(p).AllocatedHead? && t.At(p).AllocatedHead?
    requires t.At(p).order == s.At(p).order && t.At(p).refCount >= 1
    ensures Named(t) && Rooted(t)
  {
    assert Rooted(t) by { hide Named; }
    forall h, q | t.In(h) && t.In(q) && t.At(h).AllocatedHead? && h < q < h + Pow2(t.At(h).order)
      ensures t.At(q) == AllocatedTail(h)
    {
      assert s.At(h).AllocatedHead? && s.At(h).order == t.At(h).order;
      assert s.At(q) == AllocatedTail(h);
    }
  }

  // ------------------------------------------------------------ completeness

  /** The free block at `h` contains [p, p + 2^k). */
  ghost predicate InFreeBlock(s: State, h: nat, p: nat, k: nat) {
    && s.In(h) && s.At(h).Free? && k <= s.At(h).order
    && h <= p && p + Pow2(k) <= h + Pow2(s.At(h).order)
  }

  /** Because buddies never stay apart, an aligned run of free pages lies in a
      single free block. */
  lemma {:induction false} FreeRunInOneBlock(s: State, p: nat, k: nat) returns (h: nat)
    requires Core(s) && k <= MAX_ORDER && FreeRun(s, p, k)
    ensures InFreeBlock(s, h, p, k)
    decreases k
  {
    if k == 0 {
      assert PageFree(s, p);
      h :| s.In(h) && s.At(h).Free? && h <= p < h + Pow2(s.At(h).order);
    } else {
      HalfRuns(s, p, k - 1);
      var lower := FreeRunInOneBlock(s, p, k - 1);
      var upper := FreeRunInOneBlock(s, p + Pow2(k - 1), k - 1);
      h := JoinHalves(s, p, k - 1, lower, upper);
    }
  }

  lemma HalfRuns(s: State, p: nat, o: nat)
    requires FreeRun(s, p, o + 1)
    ensures FreeRun(s, p, o) && FreeRun(s, p + Pow2(o), o)
  {
    AlignedWeaken(p, o + 1, o);
    AlignedShift(p, o);
  }

  /** If both halves of an aligned run lie in free blocks, one of the blocks holds it all:
      otherwise the halves would be two free buddies. */
  lemma JoinHalves(s: State, p: nat, o: nat, lower: nat, upper: nat) returns (h: nat)
    requires Placed(s) && Coalesced(s) && o < MAX_ORDER && Aligned(p, o + 1)
    requires InFreeBlock(s, lower, p, o) && InFreeBlock(s, upper, p + Pow2(o), o)
    ensures InFreeBlock(s, h, p, o + 1)
  {
    if o < s.At(lower).order {
      h := lower;
      WholeRunInside(s, h, p, p, o);
    } else if o < s.At(upper).order {
      h := upper;
      WholeRunInside(s, h, p, p + Pow2(o), o);
    } else {
      BuddiesNotBothFree(s, p, p + Pow2(o), o);
      assert false;
    }
  }

  /** A larger aligned block that holds half of an aligned run holds all of it. */
  lemma WholeRunInside(s: State, h: nat, p: nat, half: nat, o: nat)
    requires Placed(s) && InFreeBlock(s, h, half, o) && o + 1 <= s.At(h).order
    requires Aligned(p, o + 1) && (half == p || half == p + Pow2(o))
    ensures InFreeBlock(s, h, p, o + 1)
  {
    Laminar(p, o + 1, h, s.At(h).order);
  }

  lemma BuddiesNotBothFree(s: State, p: nat, b: nat, o: nat)
    requires Coalesced(s) && o < MAX_ORDER && Aligned(p, o + 1) && b == p + Pow2(o)
    ensures !(s.FreeAt(p, o) && s.FreeAt(b, o))
  {
    AlignedWeaken(p, o + 1, o);
    XorBit(p, o);
    assert b == BuddyOf(p, o);
  }

  /** Completeness: an order is refused as invalid exactly if it is too large, and a legal
      one for lack of memory exactly when there are no 2^k free pages in a row that start at
      a multiple of 2^k. */
  lemma AllocFailsOnlyWhenItMust(s: State, k: nat)
    requires WellFormed(s)
    ensures Alloc(s, k).1 == Err(InvalidValue) <==> k > MAX_ORDER
    ensures Alloc(s, k).1 == Err(NoMemory) <==> k <= MAX_ORDER && !exists p: nat :: FreeMultiple(s, p, k)
    ensures Alloc(s, k).1.Err? ==> Alloc(s, k).1.error in {InvalidValue, NoMemory}
  {
    hide PageFree;
    if Alloc(s, k).1.Ok? {
      AllocKeepsWellFormed(s, k);
      FreeRunIsMultiple(s, Alloc(s, k).1.value, k);
    }
    if p: nat :| k <= MAX_ORDER && FreeMultiple(s, p, k) {
      FreeRunIsMultiple(s, p, k);
      FreeRunIsFound(s, p, k);
    }
  }

  lemma FreeRunIsFound(s: State, p: nat, k: nat)
    requires Core(s) && k <= MAX_ORDER && FreeRun(s, p, k)
    ensures Alloc(s, k).1.Ok?
  {
    var h := FreeRunInOneBlock(s, p, k);
    assert h in s.List(s.At(h).order);
  }

  // ------------------------------------------------------------ conservation

  /** The pages of the free blocks that start in the first `n` frames. */
  ghost function FreePagesBelow(s: State, n: nat): set<int> {
    set x | s.base <= x < s.End() && StartsBelow(s, n, x)
  }

  ghost predicate StartsBelow(s: State, n: nat, x: int) {
    exists h | s.In(h) && h < s.base + n && s.At(h).Free? :: h <= x < h + Pow2(s.At(h).order)
  }

  ghost function Interval(lo: int, n: nat): set<int> {
    if n == 0 then {} else Interval(lo, n - 1) + {lo + n - 1}
  }

  lemma {:induction false} IntervalIs(lo: int, n: nat)
    ensures forall x :: x in Interval(lo, n) <==> lo <= x < lo + n
    ensures |Interval(lo, n)| == n
  {
    if n != 0 { IntervalIs(lo, n - 1); }
  }

  lemma {:induction false} FreeSumCounts(s: State, n: nat)
    requires Placed(s) && Disjoint(s) && n <= |s.frames|
    ensures FreeSum(s.frames[..n]) == |FreePagesBelow(s, n)|
  {
    if n == 0 {
      assert FreePagesBelow(s, 0) == {};
    } else {
      var m := n - 1;
      FreeSumCounts(s, m);
      assert s.frames[..n][..m] == s.frames[..m] && s.frames[..n][m] == s.At(s.base + m);
      FreePagesStep(s, m, s.base + m);
    }
  }

  lemma FreePagesStep(s: State, n: nat, h: nat)
    requires Placed(s) && Disjoint(s) && n < |s.frames| && h == s.base + n
    ensures |FreePagesBelow(s, n + 1)| == |FreePagesBelow(s, n)| + Weight(s.At(h))
  {
    var before, after := FreePagesBelow(s, n), FreePagesBelow(s, n + 1);
    if s.At(h).Free? {
      var block := Interval(h, Pow2(s.At(h).order));
      IntervalIs(h, Pow2(s.At(h).order));
      assert before !! block by { BlockIsNew(s, n, h); }
      assert after == before + block by { BlockIsAdded(s, n, h); }
    } else {
      assert after == before;
    }
  }

  lemma BlockIsNew(s: State, n: nat, h: nat)
    requires Disjoint(s) && n < |s.frames| && h == s.base + n && s.At(h).Free?
    ensures forall x | StartsBelow(s, n, x) :: x < h
  {
    forall x | StartsBelow(s, n, x)
      ensures x < h
    {
      var g :| s.In(g) && g < s.base + n && s.At(g).Free? && g <= x < g + Pow2(s.At(g).order);
      assert g + Pow2(s.At(g).order) <= h;
    }
  }

  lemma StartIs(s: State, n: nat, x: int, h: int)
    requires s.In(h) && h < s.base + n && s.At(h).Free? && h <= x < h + Pow2(s.At(h).order)
    ensures StartsBelow(s, n, x)
  {
  }

  lemma BlockIsAdded(s: State, n: nat, h: nat)
    requires n < |s.frames| && h == s.base + n && s.At(h).Free?
    requires h + Pow2(s.At(h).order) <= s.End()
    ensures forall x :: StartsBelow(s, n + 1, x) <==>
              StartsBelow(s, n, x) || h <= x < h + Pow2(s.At(h).order)
  {
    forall x
      ensures StartsBelow(s, n + 1, x) <==> StartsBelow(s, n, x) || h <= x < h + Pow2(s.At(h).order)
    {
      if StartsBelow(s, n, x) {
        var g :| s.In(g) && g < s.base + n && s.At(g).Free? && g <= x < g + Pow2(s.At(g).order);
        StartIs(s, n + 1, x, g);
      }
      if h <= x < h + Pow2(s.At(h).order) { StartIs(s, n + 1, x, h); }
      if StartsBelow(s, n + 1, x) {
        var g :| s.In(g) && g < s.base + n + 1 && s.At(g).Free? && g <= x < g + Pow2(s.At(g).order);
        if g != h { StartIs(s, n, x, g); }
      }
    }
  }

  /** Conservation: the counter is the number of pages that lie in free blocks. */
  lemma CounterCountsFreePages(s: State)
    requires WellFormed(s)
    ensures s.freePages == |set x | s.base <= x < s.End() && PageFree(s, x)|
  {
    var n := |s.frames|;
    FreeSumCounts(s, n);
    assert s.frames[..n] == s.frames;
    assert forall x :: PageFree(s, x) <==> StartsBelow(s, n, x);
    assert FreePagesBelow(s, n) == set x | s.base <= x < s.End() && PageFree(s, x);
  }

  // -------------------------------------------------------------- round trip

  /** `u` has the free lists and free frames of `s`. */
  ghost predicate SameFree(u: State, s: State) {
    && u.base == s.base && |u.frames| == |s.frames| && u.lists == s.lists
    && (forall x, o :: u.FreeAt(x, o) <==> s.FreeAt(x, o))
  }

  /** Merging upwards takes back, order by order, what splitting gave away. */
  lemma {:induction false} MergeUndoesSplit(s: State, u: State, p: nat, from: nat, to: nat) returns (v: State)
    requires Core(s) && Hole(s, p, from) && to <= from
    requires SameFree(u, Split(s, p, from, to))
    ensures SameFree(v, s) && Merge(u, p, to) == Merge(v, p, from) && v.freePages == u.freePages
    decreases from
  {
    if to == from {
      v := u;
    } else {
      var o := from - 1;
      var b := BuddyOf(p, o);
      var t := s.Attach(b, o);
      HalveOk(s, t, p, o);
      var w := MergeUndoesSplit(t, u, p, o, to);
      v := w.Detach(b, o);
      DetachUndoesAttach(s, t, w, b, o);
    }
  }

  lemma DetachUndoesAttach(s: State, t: State, w: State, b: nat, o: nat)
    requires o < |s.lists| && t == s.Attach(b, o)
    requires SameBut(s, t, b) && t.At(b) == Free(o) && !s.At(b).Free?
    requires SameFree(w, t)
    ensures w.FreeAt(b, o) && SameFree(w.Detach(b, o), s) && w.Detach(b, o).freePages == w.freePages
  {
    var v := w.Detach(b, o);
    assert t.FreeAt(b, o);
    assert v.lists == s.lists by {
      assert w.lists[o] == [b] + s.lists[o];
      assert Remove(w.lists[o], b) == s.lists[o];
    }
    assert SameBut(w, v, b) && v.At(b) == Uninitialized;
    FreeAgain(s, t, w, v, b);
  }

  lemma FreeAgain(s: State, t: State, w: State, v: State, b: nat)
    requires SameBut(s, t, b) && !s.At(b).Free? && SameFree(w, t)
    requires SameBut(w, v, b) && !v.At(b).Free?
    ensures forall x, r :: v.FreeAt(x, r) <==> s.FreeAt(x, r)
  {
    forall x, r
      ensures v.FreeAt(x, r) <==> s.FreeAt(x, r)
    {
      assert w.FreeAt(x, r) <==> t.FreeAt(x, r);
    }
  }

  /** Merging after a fresh allocation ends at the block the allocation took. */
  lemma MergeReturnsToStart(s: State, d: State, released: State, p: nat, j: nat, k: nat) returns (v: State)
    requires Core(s) && s.FreeAt(p, j) && d == s.Detach(p, j) && k <= j
    requires Core(d) && Hole(d, p, j) && SameFree(released, Split(d, p, j, k))
    ensures Merge(released, p, k) == (v, p, j) && v.lists == d.lists && v.freePages == released.freePages
  {
    v := MergeUndoesSplit(d, released, p, j, k);
    BuddyStaysTaken(s, d, v, p, BuddyOf(p, j), j);
  }

  lemma BuddyStaysTaken(s: State, d: State, v: State, p: nat, b: nat, j: nat)
    requires Coalesced(s) && s.FreeAt(p, j) && d == s.Detach(p, j) && SameFree(v, d) && b == BuddyOf(p, j)
    ensures j < MAX_ORDER ==> !v.FreeAt(b, j)
  {
    if d.FreeAt(b, j) { assert s.FreeAt(b, j); }
  }

  /** Round trip: dropping a fresh allocation at once restores every free list,
      element for element, and the counter, however many splits it took. */
  lemma AllocThenDropRestores(s: State, k: nat)
    requires WellFormed(s) && Alloc(s, k).1.Ok?
    ensures var (t, r) := Alloc(s, k);
      && t.In(r.value) && t.At(r.value) == AllocatedHead(1, k)
      && Drop(t, r.value).lists == s.lists && Drop(t, r.value).freePages == s.freePages
  {
    var (t, r) := Alloc(s, k);
    var p, j := r.value, FirstFit(s, k).value;
    AllocKeepsWellFormed(s, k);
    FirstFitFree(s, k, p, j);
    var d := s.Detach(p, j);
    var released := t.Put(p, Uninitialized);
    AllocReleased(s, d, t, released, p, j, k);
    var v := MergeReturnsToStart(s, d, released, p, j, k);
    PutBackFirst(s, d, v, p, j);
  }

  lemma AllocReleased(s: State, d: State, t: State, released: State, p: nat, j: nat, k: nat)
    requires Core(s) && s.FreeAt(p, j) && k <= j <= MAX_ORDER && d == s.Detach(p, j)
    requires t == Split(d, p, j, k).Claim(p, k).(freePages := t.freePages)
    requires released == t.Put(p, Uninitialized)
    ensures Core(d) && Hole(d, p, j) && SameFree(released, Split(d, p, j, k)) && released.freePages == t.freePages
  {
    DetachOk(s, d, p, j);
    SplitOk(d, p, j, k);
    ReleasedSameFree(Split(d, p, j, k), t, released, p, k);
  }

  lemma PutBackFirst(s: State, d: State, v: State, p: nat, j: nat)
    requires Listed(s) && j <= MAX_ORDER && s.lists[j] != [] && s.lists[j][0] == p
    requires d == s.Detach(p, j) && v.lists == d.lists
    ensures v.Attach(p, j).lists == s.lists
  {
    assert d.lists[j] == s.lists[j][1..];
    assert [p] + s.lists[j][1..] == s.lists[j];
    assert v.Attach(p, j).lists == d.lists[j := s.lists[j]] == s.lists;
  }

  lemma ReleasedSameFree(u: State, t: State, released: State, p: nat, k: nat)
    requires Hole(u, p, k) && t == u.Claim(p, k).(freePages := t.freePages)
    requires released == t.Put(p, Uninitialized)
    ensures SameFree(released, u) && released.freePages == t.freePages
  {
    HoleHasNoHead(u, p, k);
    forall x, o
      ensures released.FreeAt(x, o) <==> u.FreeAt(x, o)
    {
      if u.In(x) && !(p <= x < p + Pow2(k)) {
        assert released.At(x) == u.At(x);
      }
    }
  }

  // ------------------------------------------------------------------ start-up

  /** Metadata before any memory is handed to the allocator: no frame starts a block. */
  function Blank(base: nat, frames: seq<FrameState>): State {
    State(base, frames, seq(MAX_ORDER + 1, _ => []), 0)
  }

  /** Hands a first block of the given order to the allocator. */
  function CarveOne(s: State, p: nat, order: nat): State {
    s.Attach(p, order).(freePages := s.freePages + Pow2(order))
  }

  /** The state once `n` blocks in a row, from `p` up, have been given to the allocator. */
  function CarveMany(s: State, p: nat, n: nat, order: nat): State {
    if n == 0 then s else CarveOne(CarveMany(s, p, n - 1, order), p + (n - 1) * Pow2(order), order)
  }

  /** The first frames of `n` blocks in a row, last block first: the order the list holds them in. */
  function Starts(p: nat, n: nat, order: nat): seq<nat> {
    if n == 0 then [] else [p + (n - 1) * Pow2(order)] + Starts(p, n - 1, order)
  }

  lemma {:induction false} StartsAre(p: nat, n: nat, o: nat)
    ensures |Starts(p, n, o)| == n
    ensures forall i | 0 <= i < n :: Starts(p, n, o)[i] == p + (n - 1 - i) * Pow2(o)
  {
    if n > 0 { StartsAre(p, n - 1, o); }
  }

  /** `t` is `s` with the frames `heads` made free heads of order `o`, in front of that list. */
  ghost predicate Freed(s: State, t: State, heads: seq<nat>, o: nat) {
    && t.base == s.base && |t.frames| == |s.frames| && o < |s.lists|
    && (forall q | s.In(q) :: t.At(q) == if q in heads then Free(o) else s.At(q))
    && t.lists == s.lists[o := heads + s.lists[o]]
  }

  /** Carving frees exactly the blocks it walks over, those that start at p + i * 2^o for
      each i below n: each becomes a free head of the order, is counted and is listed, the
      newest first, and every other frame keeps its state. */
  lemma CarveManySpec(s: State, p: nat, n: nat, o: nat)
    requires s.base <= p && p + n * Pow2(o) <= s.End() && o < |s.lists|
    ensures Freed(s, CarveMany(s, p, n, o), Starts(p, n, o), o)
    ensures |Starts(p, n, o)| == n && forall i | 0 <= i < n :: Starts(p, n, o)[i] == p + (n - 1 - i) * Pow2(o)
    ensures CarveMany(s, p, n, o).freePages == s.freePages + n * Pow2(o)
  {
    hide Freed;
    CarveManyFrees(s, p, n, o);
    CarveManyCounts(s, p, n, o);
    StartsAre(p, n, o);
  }

  lemma {:induction false} CarveManyFrees(s: State, p: nat, n: nat, o: nat)
    requires s.base <= p && p + n * Pow2(o) <= s.End() && o < |s.lists|
    ensures Freed(s, CarveMany(s, p, n, o), Starts(p, n, o), o)
  {
    if n == 0 {
      assert Starts(p, 0, o) + s.lists[o] == s.lists[o];
    } else {
      hide Freed;
      MulStep(n, Pow2(o));
      CarveManyFrees(s, p, n - 1, o);
      CarvedNext(s, CarveMany(s, p, n - 1, o), p + (n - 1) * Pow2(o), Starts(p, n - 1, o), o);
    }
  }

  lemma {:induction false} CarveManyCounts(s: State, p: nat, n: nat, o: nat)
    ensures CarveMany(s, p, n, o).freePages == s.freePages + n * Pow2(o)
  {
    if n > 0 {
      MulStep(n, Pow2(o));
      CarveManyCounts(s, p, n - 1, o);
    }
  }

  lemma MulStep(n: nat, z: nat)
    requires n > 0
    ensures n * z == (n - 1) * z + z && (n - 1) * z >= 0
  {
  }

  lemma CarvedNext(s: State, t: State, b: nat, older: seq<nat>, o: nat)
    requires Freed(s, t, older, o) && s.In(b)
    ensures Freed(s, CarveOne(t, b, o), [b] + older, o)
  {
    assert [b] + (older + s.lists[o]) == [b] + older + s.lists[o];
  }

  lemma {:induction false} NoBlocksNoPages(fs: seq<FrameState>)
    requires forall i | 0 <= i < |fs| :: !fs[i].Free?
    ensures FreeSum(fs) == 0
  {
    if fs != [] { NoBlocksNoPages(fs[..|fs| - 1]); }
  }

  lemma BlankIsWellFormed(base: nat, frames: seq<FrameState>)
    requires forall i | 0 <= i < |frames| :: !frames[i].IsHead() && !frames[i].AllocatedTail?
    ensures WellFormed(Blank(base, frames))
  {
    NoBlocksNoPages(frames);
  }

  /** No block reaches into [p, end). */
  ghost predicate Unclaimed(s: State, p: nat, end: nat) {
    && s.base <= p && end <= s.End()
    && (forall q | s.In(q) && s.At(q).IsHead() :: q + Pow2(s.At(q).order) <= p || end <= q)
  }

  /** Start-up: freeing a top-order block of unclaimed frames keeps the invariant, and
      the frames behind it stay unclaimed. */
  lemma CarveOneOk(s: State, p: nat, end: nat, top: nat)
    requires WellFormed(s) && top == MAX_ORDER && Aligned(p, top) && Unclaimed(s, p, end) && p + Pow2(top) <= end
    ensures WellFormed(CarveOne(s, p, top)) && Aligned(p + Pow2(top), top)
    ensures Unclaimed(CarveOne(s, p, top), p + Pow2(top), end)
  {
    var t, u := s.Attach(p, top), CarveOne(s, p, top);
    assert Hole(s, p, top);
    AttachOk(s, t, p, BuddyOf(p, top), top);
    FreePagesOnly(t, u);
    AlignedShift(p, top);
    UnclaimedRest(s, t, u, p, end, top);
  }

  /** `t` is `s` after `n` blocks from `start` up were carved; `p` is where the next one goes. */
  ghost predicate CarvedUpTo(s: State, t: State, start: nat, n: nat, p: nat, end: nat, top: nat) {
    && top == MAX_ORDER && p == start + n * Pow2(top) && t == CarveMany(s, start, n, top)
    && WellFormed(t) && Aligned(p, top) && Unclaimed(t, p, end)
  }

  lemma CarveStep(s: State, t: State, u: State, start: nat, n: nat, p: nat, end: nat, top: nat)
    requires CarvedUpTo(s, t, start, n, p, end, top) && p + Pow2(top) <= end && u == CarveOne(t, p, top)
    ensures CarvedUpTo(s, u, start, n + 1, p + Pow2(top), end, top)
  {
    CarveOneOk(t, p, end, top);
    assert (n + 1) * Pow2(top) == n * Pow2(top) + Pow2(top);
  }

  lemma UnclaimedRest(s: State, t: State, u: State, p: nat, end: nat, top: nat)
    requires Unclaimed(s, p, end) && SameBut(s, t, p) && t.At(p) == Free(top)
    requires p + Pow2(top) <= end && u == t.(freePages := u.freePages)
    ensures Unclaimed(u, p + Pow2(top), end)
  {
    forall q | u.In(q) && u.At(q).IsHead()
      ensures q + Pow2(u.At(q).order) <= p + Pow2(top) || end <= q
    {
      assert u.At(q) == t.At(q);
      if q != p { assert t.At(q) == s.At(q); }
    }
  }

  // ------------------------------------------------------- is a page exclusive?

  /** Where the tail records from `p` lead. */
  ghost function Root(s: State, p: nat): (h: nat)
    requires Rooted(s) && s.In(p)
    ensures s.In(h) && h <= p && !s.At(h).AllocatedTail?
    decreases p
  {
    if s.At(p).AllocatedTail? then Root(s, s.At(p).head) else p
  }

  /** The head of an allocated block with a single reference. */
  predicate Sole(s: State, h: int) { s.In(h) && s.At(h).AllocatedHead? && s.At(h).refCount == 1 }

  ghost predicate InBlock(s: State, h: int, p: nat) {
    s.In(h) && s.At(h).AllocatedHead? && h <= p < h + Pow2(s.At(h).order)
  }

  /** Following the records tells whether a page lies in an allocated block with a single
      reference, unless the page lies in no allocated block and the record it has kept from
      an earlier one leads to such a block. */
  lemma ExclusiveIff(s: State, p: nat)
    requires Core(s) && s.In(p)
    ensures forall h | InBlock(s, h, p) :: Root(s, p) == h
    ensures (Sole(s, Root(s, p)) <==> exists h :: InBlock(s, h, p) && Sole(s, h)) <==>
            (exists h :: InBlock(s, h, p)) || !(s.At(p).AllocatedTail? && Sole(s, Root(s, s.At(p).head)))
  {
    forall h | InBlock(s, h, p) ensures Root(s, p) == h {
      if h < p { assert s.At(p) == AllocatedTail(h); }
    }
    if s.At(p).AllocatedHead? { assert InBlock(s, p, p); }
  }

  function FourFrames(frames: seq<FrameState>, l0: seq<nat>, l1: seq<nat>, l2: seq<nat>, free: nat): State {
    State(0, frames, [l0, l1, l2, [], [], [], [], [], [], [], []], free)
  }

  lemma FirstBuddies()
    ensures BuddyOf(0, 2) == 4 && BuddyOf(0, 1) == 2 && BuddyOf(0, 0) == 1
    ensures Pow2(0) == 1 && Pow2(1) == 2 && Pow2(2) == 4
  {
    XorBit(0, 2);
    XorBit(0, 1);
    XorBit(0, 0);
  }

  /** Four pages are allocated and freed, and the first is allocated again: the fourth is
      free, and its record still leads to the first. */
  lemma StaleTailExample()
    ensures var s := FourFrames([Free(2), Uninitialized, Uninitialized, Uninitialized], [], [], [0], 4);
      var (t, r) := Alloc(s, 2);
      && WellFormed(s) && r == Ok(0) && t.In(0) && t.At(0).AllocatedHead?
      && var (u, q) := Alloc(Drop(t, 0), 0);
         q == Ok(0) && u.In(3) && PageFree(u, 3) && u.At(3) == AllocatedTail(0) && Sole(u, 0)
  {
    var s := FourFrames([Free(2), Uninitialized, Uninitialized, Uninitialized], [], [], [0], 4);
    var t := FourFrames([AllocatedHead(1, 2), AllocatedTail(0), AllocatedTail(0), AllocatedTail(0)], [], [], [], 0);
    var d := FourFrames([Free(2), AllocatedTail(0), AllocatedTail(0), AllocatedTail(0)], [], [], [0], 4);
    FourFree(s);
    ClaimsFour(s, t);
    FreesFour(t, d);
    ClaimsFirst(d);
  }

  lemma BlankIsHole(frames: seq<FrameState>)
    requires |frames| == 4 && forall i | 0 <= i < 4 :: !frames[i].IsHead()
    ensures Hole(Blank(0, frames), 0, 2)
  {
    FirstBuddies();
  }

  lemma FourFree(s: State)
    requires s == FourFrames([Free(2), Uninitialized, Uninitialized, Uninitialized], [], [], [0], 4)
    ensures WellFormed(s)
  {
    hide Core, Hole, FreeSum;
    FirstBuddies();
    var frames := [Uninitialized, Uninitialized, Uninitialized, Uninitialized];
    var blank := Blank(0, frames);
    BlankIsWellFormed(0, frames);
    BlankIsHole(frames);
    var t := blank.Attach(0, 2);
    AttachOk(blank, t, 0, 4, 2);
    assert [0] + blank.List(2) == [0];
    assert t.lists == s.lists && t.frames == s.frames;
    FreePagesOnly(t, s);
  }

  lemma ClaimsFour(s: State, t: State)
    requires s == FourFrames([Free(2), Uninitialized, Uninitialized, Uninitialized], [], [], [0], 4)
    requires t == FourFrames([AllocatedHead(1, 2), AllocatedTail(0), AllocatedTail(0), AllocatedTail(0)], [], [], [], 0)
    ensures Alloc(s, 2) == (t, Ok(0))
  {
    FirstBuddies();
    var d := s.Detach(0, 2);
    assert d.lists == t.lists;
    assert Split(d, 0, 2, 2) == d;
    assert d.Claim(0, 2).frames == t.frames;
  }

  lemma FreesFour(t: State, d: State)
    requires t == FourFrames([AllocatedHead(1, 2), AllocatedTail(0), AllocatedTail(0), AllocatedTail(0)], [], [], [], 0)
    requires d == FourFrames([Free(2), AllocatedTail(0), AllocatedTail(0), AllocatedTail(0)], [], [], [0], 4)
    ensures Drop(t, 0) == d
  {
    FirstBuddies();
    var u := t.Put(0, Uninitialized);
    assert Merge(u, 0, 2) == (u, 0, 2);
    assert [0] + u.List(2) == [0];
    assert u.Attach(0, 2).lists == d.lists && u.Attach(0, 2).frames == d.frames;
  }

  lemma ClaimsFirst(s: State)
    requires s == FourFrames([Free(2), AllocatedTail(0), AllocatedTail(0), AllocatedTail(0)], [], [], [0], 4)
    ensures var (u, q) := Alloc(s, 0);
      q == Ok(0) && u.In(3) && PageFree(u, 3) && u.At(3) == AllocatedTail(0) && Sole(u, 0)
  {
    FirstBuddies();
    assert s.List(0) == [] && s.List(1) == [] && s.List(2) == [0];
    assert FirstFit(s, 0) == Ok(2);
    var d := s.Detach(0, 2);
    var t := Split(d, 0, 2, 0);
    SplitsFirst(d, t);
    var u := t.Claim(0, 0);
    assert u.frames == [AllocatedHead(1, 0), Free(0), Free(1), AllocatedTail(0)];
    var v := Alloc(s, 0).0;
    assert v.frames == u.frames && v.At(2).Free?;
  }

  lemma SplitsFirst(d: State, t: State)
    requires d.base == 0 && d.frames == [Uninitialized, AllocatedTail(0), AllocatedTail(0), AllocatedTail(0)]
    requires t == Split(d, 0, 2, 0)
    ensures t.base == 0 && t.frames == [Uninitialized, Free(0), Free(1), AllocatedTail(0)]
  {
    FirstBuddies();
    var e := d.Attach(2, 1);
    var f := e.Attach(1, 0);
    assert Split(f, 0, 0, 0) == f;
    assert Split(e, 0, 1, 0) == f;
    assert e.frames == [Uninitialized, AllocatedTail(0), Free(1), AllocatedTail(0)];
  }
}
