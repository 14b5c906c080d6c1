/** The buddy frame allocator as a value: frame states, free lists, the page
    counter, and the functions that allocate, share and release blocks.  The
    class that performs them in place is in `FrameAllocator`. */
module Buddy {
  import opened Common
  import opened PowersOfTwo

  const MAX_ORDER: nat := 10

  datatype FrameState =
    | Uninitialized
    | Free(order: nat)
    | AllocatedHead(refCount: nat, order: nat)
    | AllocatedTail(head: nat)
    | Reserved
    | Kernel
  {
    /** A frame that starts a block, free or allocated. */
    predicate IsHead() { Free? || AllocatedHead? }
  }


  /** `frames[i]` describes page frame `base + i`; `lists[o]` holds the first
      frame of each free block of 2^o pages, most recently freed first. */
  datatype State = State(base: nat, frames: seq<FrameState>, lists: seq<seq<nat>>, freePages: int) {

    /** One past the last managed frame. */
    function End(): nat { base + |frames| }

    predicate In(p: int) { base <= p < End() }

    function At(p: int): FrameState
      requires In(p)
    {
      frames[p - base]
    }

    predicate FreeAt(p: int, o: nat) { In(p) && At(p) == Free(o) }

    function Put(p: int, f: FrameState): State {
      if In(p) then this.(frames := frames[p - base := f]) else this
    }

    function List(o: nat): seq<nat> { if o < |lists| then lists[o] else [] }

    function SetList(o: nat, l: seq<nat>): State {
      if o < |lists| then this.(lists := lists[o := l]) else this
    }

    /** Takes a free block off its list and forgets it. */
    function Detach(p: nat, o: nat): State {
      Put(p, Uninitialized).SetList(o, Remove(List(o), p))
    }

    /** Marks a block free and pushes it on the front of its list. */
    function Attach(p: nat, o: nat): State {
      Put(p, Free(o)).SetList(o, [p] + List(o))
    }

    /** Marks [p, p + 2^o) as one allocated block with a single reference. */
    function Claim(p: nat, o: nat): State {
      this.(frames := seq(|frames|, i requires 0 <= i < |frames| =>
        if i == p - base then AllocatedHead(1, o)
        else if p - base < i < p - base + Pow2(o) then AllocatedTail(p)
        else frames[i]))
    }
  }

  function BuddyOf(p: nat, o: nat): nat { Xor(p, Pow2(o)) }

  // ---------------------------------------------------------------- operations

  /** The smallest order from `o` upwards whose list is not empty. */
  function FirstFit(s: State, o: nat): (r: Result<nat>)
    ensures r.Ok? ==> o <= r.value <= MAX_ORDER && s.List(r.value) != []
    ensures r.Ok? ==> forall k :: o <= k < r.value ==> s.List(k) == []
    ensures r.Err? ==> r.error == NoMemory && forall k :: o <= k <= MAX_ORDER ==> s.List(k) == []
    decreases MAX_ORDER + 1 - o
  {
    if o > MAX_ORDER then Err(NoMemory)
    else if s.List(o) != [] then Ok(o)
    else FirstFit(s, o + 1)
  }

  /** Halves the block at `p` from order `from` down to order `to`, freeing the
      upper half each time. */
  function Split(s: State, p: nat, from: nat, to: nat): State
    decreases from
  {
    if from <= to then s
    else Split(s.Attach(BuddyOf(p, from - 1), from - 1), p, from - 1, to)
  }

  function Alloc(s: State, order: nat): (State, Result<nat>) {
    if order > MAX_ORDER then (s, Err(InvalidValue))
    else
      var fit := FirstFit(s, order);
      if fit.Err? then (s, Err(NoMemory))
      else
        var p := s.List(fit.value)[0];
        var split := Split(s.Detach(p, fit.value), p, fit.value, order);
        (split.Claim(p, order).(freePages := s.freePages - Pow2(order)), Ok(p))
  }

  /** Absorbs free buddies into the block at `p`, upwards from order `o`. */
  function Merge(s: State, p: nat, o: nat): (State, nat, nat)
    decreases MAX_ORDER - o
  {
    var b := BuddyOf(p, o);
    if o < MAX_ORDER && s.FreeAt(b, o) then Merge(s.Detach(b, o), if b < p then b else p, o + 1)
    else (s, p, o)
  }

  function Drop(s: State, p: nat): State
    requires s.In(p) && s.At(p).AllocatedHead?
  {
    var AllocatedHead(refs, order) := s.At(p);
    if refs > 1 then s.Put(p, AllocatedHead(refs - 1, order))
    else
      var (merged, q, m) := Merge(s.Put(p, Uninitialized), p, order);
      merged.Attach(q, m).(freePages := s.freePages + Pow2(order))
  }

  function Clone(s: State, p: nat): State
    requires s.In(p) && s.At(p).AllocatedHead?
  {
    s.Put(p, AllocatedHead(s.At(p).refCount + 1, s.At(p).order))
  }

  // ----------------------------------------------------------------- invariant

  /** Every block is naturally aligned, lies in range and has a legal order. */
  ghost predicate Placed(s: State) {
    forall p | s.In(p) && s.At(p).IsHead() ::
      s.At(p).order <= MAX_ORDER && Aligned(p, s.At(p).order) && p + Pow2(s.At(p).order) <= s.End()
  }

  ghost predicate Disjoint(s: State) {
    forall p, q | s.In(p) && s.In(q) && p < q && s.At(p).IsHead() && s.At(q).IsHead() ::
      p + Pow2(s.At(p).order) <= q
  }

  /** The pages of an allocated block name its first frame. */
  ghost predicate Named(s: State) {
    forall p, q | s.In(p) && s.In(q) && s.At(p).AllocatedHead? && p < q < p + Pow2(s.At(p).order) ::
      s.At(q) == AllocatedTail(p)
  }

  /** Every tail record, stale or not, names a lower frame; allocations are referenced. */
  ghost predicate Rooted(s: State) {
    forall q | s.In(q) ::
      && (s.At(q).AllocatedTail? ==> s.base <= s.At(q).head < q)
      && (s.At(q).AllocatedHead? ==> s.At(q).refCount >= 1)
  }

  /** List `o` holds exactly the frames in state Free(o), each once. */
  ghost predicate Listed(s: State) {
    && |s.lists| == MAX_ORDER + 1
    && (forall o | 0 <= o <= MAX_ORDER :: NoDuplicates(s.lists[o]))
    && (forall o, p | 0 <= o <= MAX_ORDER :: p in s.lists[o] <==> s.FreeAt(p, o))
  }

  /** No two buddies below the top order are both free. */
  ghost predicate Coalesced(s: State) {
    forall p: nat, q: nat, o: nat | o < MAX_ORDER && s.FreeAt(p, o) && s.FreeAt(q, o) :: q != BuddyOf(p, o)
  }

  ghost predicate Core(s: State) {
    Placed(s) && Disjoint(s) && Named(s) && Rooted(s) && Listed(s) && Coalesced(s)
  }

  function Weight(f: FrameState): nat { if f.Free? then Pow2(f.order) else 0 }

  /** The pages in all free blocks. */
  function FreeSum(fs: seq<FrameState>): nat {
    if fs == [] then 0 else FreeSum(fs[..|fs| - 1]) + Weight(fs[|fs| - 1])
  }

  ghost predicate WellFormed(s: State) {
    Core(s) && s.freePages == FreeSum(s.frames)
  }

  /** [p, p + 2^o) is an aligned run in range that no block touches. */
  ghost predicate Hole(s: State, p: nat, o: nat) {
    && o <= MAX_ORDER && Aligned(p, o) && s.base <= p && p + Pow2(o) <= s.End()
    && (forall q | s.In(q) && s.At(q).IsHead() :: q + Pow2(s.At(q).order) <= p || p + Pow2(o) <= q)
  }

  // ------------------------------------------------------------- small lemmas

  lemma {:induction false} FreeSumUpdate(fs: seq<FrameState>, i: nat, f: FrameState)
    requires i < |fs|
    ensures FreeSum(fs[i := f]) == FreeSum(fs) - Weight(fs[i]) + Weight(f)
  {
    var n := |fs| - 1;
    if i == n {
      assert fs[i := f][..n] == fs[..n];
    } else {
      FreeSumUpdate(fs[..n], i, f);
      assert fs[i := f][..n] == fs[..n][i := f];
    }
  }

  lemma {:induction false} FreeSumSame(fs: seq<FrameState>, gs: seq<FrameState>)
    requires |fs| == |gs|
    requires forall i | 0 <= i < |fs| :: Weight(fs[i]) == Weight(gs[i])
    ensures FreeSum(fs) == FreeSum(gs)
  {
    if fs != [] {
      FreeSumSame(fs[..|fs| - 1], gs[..|gs| - 1]);
    }
  }

  /** The buddy relation is symmetric on aligned frames. */
  lemma BuddySymmetric(p: nat, o: nat)
    requires Aligned(p, o)
    ensures Aligned(BuddyOf(p, o), o)
    ensures BuddyOf(BuddyOf(p, o), o) == p
    ensures BuddyOf(p, o) == p + Pow2(o) || BuddyOf(p, o) == p - Pow2(o)
  {
    XorBit(p, o);
    XorBit(BuddyOf(p, o), o);
  }

  // ------------------------------------------------- steps between good states

  /** `t` differs from `s` in the state of frame `p` only. */
  ghost predicate SameBut(s: State, t: State, p: int) {
    && s.In(p) && t.base == s.base && |t.frames| == |s.frames|
    && (forall q | s.In(q) && q != p :: t.At(q) == s.At(q))
  }

  lemma BlocksLess(s: State, t: State, p: nat)
    requires Placed(s) && Disjoint(s) && SameBut(s, t, p) && !t.At(p).IsHead()
    ensures Placed(t) && Disjoint(t)
  {
    assert forall q | t.In(q) && t.At(q).IsHead() :: t.At(q) == s.At(q);
  }

  lemma BlocksMore(s: State, t: State, p: nat, o: nat)
    requires Placed(s) && Disjoint(s) && Hole(s, p, o) && SameBut(s, t, p)
    requires t.At(p).IsHead() && t.At(p).order == o
    ensures Placed(t) && Disjoint(t)
  {
    assert forall q | t.In(q) && t.At(q).IsHead() && q != p :: t.At(q) == s.At(q) && s.At(q).IsHead();
  }

  /** A page that is not inside an allocated block may take any non-allocated state. */
  lemma TailsUpdate(s: State, t: State, p: nat)
    requires Named(s) && Rooted(s) && SameBut(s, t, p)
    requires !t.At(p).AllocatedHead? && !t.At(p).AllocatedTail?
    requires forall h | s.In(h) && s.At(h).AllocatedHead? && h < p :: h + Pow2(s.At(h).order) <= p
    ensures Named(t) && Rooted(t)
  {
    assert forall q | t.In(q) && (t.At(q).AllocatedHead? || t.At(q).AllocatedTail?) ::
      q != p && t.At(q) == s.At(q);
  }

  lemma CoalescedLess(s: State, t: State, p: nat)
    requires Coalesced(s) && SameBut(s, t, p) && !t.At(p).Free?
    ensures Coalesced(t)
  {
    assert forall q: nat, o: nat | t.FreeAt(q, o) :: s.FreeAt(q, o);
  }

  lemma CoalescedMore(s: State, t: State, p: nat, o: nat)
    requires Coalesced(s) && Placed(s) && SameBut(s, t, p) && Aligned(p, o)
    requires t.At(p) == Free(o) && (o < MAX_ORDER ==> !s.FreeAt(BuddyOf(p, o), o))
    ensures Coalesced(t)
  {
    BuddySymmetric(p, o);
    forall q: nat, x: nat, r: nat | r < MAX_ORDER && t.FreeAt(q, r) && t.FreeAt(x, r)
      ensures x != BuddyOf(q, r)
    {
      if q != p && x != p {
        assert s.FreeAt(q, r) && s.FreeAt(x, r);
      } else if q != p {
        BuddySymmetric(q, r);
      }
    }
  }

  lemma ListedLess(s: State, t: State, p: nat, o: nat)
    requires Listed(s) && s.FreeAt(p, o) && o <= MAX_ORDER && SameBut(s, t, p) && !t.At(p).Free?
    requires t.lists == s.lists[o := Remove(s.lists[o], p)]
    ensures Listed(t)
  {
    RemoveOne(s.lists[o], p);
    forall r, q | 0 <= r <= MAX_ORDER
      ensures q in t.lists[r] <==> t.FreeAt(q, r)
    {
      assert q in s.lists[r] <==> s.FreeAt(q, r);
    }
  }

  lemma ListedMore(s: State, t: State, p: nat, o: nat)
    requires Listed(s) && SameBut(s, t, p) && !s.At(p).Free? && o <= MAX_ORDER
    requires t.At(p) == Free(o) && t.lists == s.lists[o := [p] + s.lists[o]]
    ensures Listed(t)
  {
    assert p !in s.lists[o];
    forall r, q | 0 <= r <= MAX_ORDER
      ensures q in t.lists[r] <==> t.FreeAt(q, r)
    {
      assert q in s.lists[r] <==> s.FreeAt(q, r);
      assert q in [p] + s.lists[o] <==> q == p || q in s.lists[o];
    }
  }

  lemma ListedSame(s: State, t: State, p: nat)
    requires Listed(s) && SameBut(s, t, p) && t.lists == s.lists && !s.At(p).Free? && !t.At(p).Free?
    ensures Listed(t)
  {
    forall r, q | 0 <= r <= MAX_ORDER
      ensures q in t.lists[r] <==> t.FreeAt(q, r)
    {
      assert q in s.lists[r] <==> s.FreeAt(q, r);
    }
  }

  /** A block that stops being one leaves a hole. */
  lemma HoleLeft(s: State, t: State, p: nat)
    requires Placed(s) && Disjoint(s) && SameBut(s, t, p) && s.At(p).IsHead() && !t.At(p).IsHead()
    ensures Hole(t, p, s.At(p).order)
  {
    assert forall q | t.In(q) && t.At(q).IsHead() :: q != p && t.At(q) == s.At(q);
  }

  /** A block's head lies inside no other block. */
  lemma HeadApart(s: State, p: nat)
    requires Placed(s) && Disjoint(s) && s.In(p) && s.At(p).IsHead()
    ensures s.At(p).order <= MAX_ORDER
    ensures forall h | s.In(h) && s.At(h).AllocatedHead? && h < p :: h + Pow2(s.At(h).order) <= p
  {
  }

  lemma DetachFrames(s: State, t: State, p: nat, o: nat)
    requires Listed(s) && s.FreeAt(p, o) && o <= MAX_ORDER && t == s.Detach(p, o)
    ensures SameBut(s, t, p) && t.At(p) == Uninitialized && t.freePages == s.freePages
    ensures t.lists == s.lists[o := Remove(s.lists[o], p)]
    ensures FreeSum(t.frames) + Pow2(o) == FreeSum(s.frames)
  {
    FreeSumUpdate(s.frames, p - s.base, Uninitialized);
  }

  /** A free block that leaves its list leaves a hole. */
  lemma DetachOk(s: State, t: State, p: nat, o: nat)
    requires Core(s) && s.FreeAt(p, o) && t == s.Detach(p, o)
    ensures Core(t) && Hole(t, p, o) && SameBut(s, t, p) && t.At(p) == Uninitialized
    ensures FreeSum(t.frames) + Pow2(o) == FreeSum(s.frames)
  {
    HeadApart(s, p);
    DetachFrames(s, t, p, o);
    assert Placed(t) && Disjoint(t) by { BlocksLess(s, t, p); }
    assert Coalesced(t) by { CoalescedLess(s, t, p); }
    assert Listed(t) by { ListedLess(s, t, p, o); }
    assert Named(t) && Rooted(t) by { TailsUpdate(s, t, p); }
    assert Hole(t, p, o) by { HoleLeft(s, t, p); }
  }

  /** The block of an allocation whose last reference goes becomes a hole. */
  lemma ReleaseOk(s: State, t: State, p: nat)
    requires Core(s) && s.In(p) && s.At(p).AllocatedHead? && t == s.Put(p, Uninitialized)
    ensures Core(t) && Hole(t, p, s.At(p).order) && SameBut(s, t, p) && t.At(p) == Uninitialized
    ensures FreeSum(t.frames) == FreeSum(s.frames)
  {
    HeadApart(s, p);
    hide Placed, Disjoint, Named, Rooted, Listed, Coalesced, Hole;
    FreeSumUpdate(s.frames, p - s.base, Uninitialized);
    BlocksLess(s, t, p);
    CoalescedLess(s, t, p);
    ListedSame(s, t, p);
    TailsUpdate(s, t, p);
    HoleLeft(s, t, p);
  }

  lemma HoleHasNoHead(s: State, p: nat, o: nat)
    requires Hole(s, p, o)
    ensures forall q | p <= q < p + Pow2(o) :: s.In(q) && !s.At(q).IsHead()
  {
  }

  lemma AttachFrames(s: State, t: State, p: nat, o: nat)
    requires Hole(s, p, o) && Listed(s) && t == s.Attach(p, o)
    ensures SameBut(s, t, p) && t.At(p) == Free(o) && !s.At(p).IsHead() && t.freePages == s.freePages
    ensures t.lists == s.lists[o := [p] + s.lists[o]]
    ensures FreeSum(t.frames) == FreeSum(s.frames) + Pow2(o)
  {
    HoleHasNoHead(s, p, o);
    FreeSumUpdate(s.frames, p - s.base, Free(o));
  }

  /** A hole whose buddy is not free may become a free block. */
  lemma AttachOk(s: State, t: State, p: nat, b: nat, o: nat)
    requires Core(s) && Hole(s, p, o) && t == s.Attach(p, o)
    requires b == BuddyOf(p, o) && (o < MAX_ORDER ==> !s.FreeAt(b, o))
    ensures Core(t) && SameBut(s, t, p) && t.At(p) == Free(o) && t.freePages == s.freePages
    ensures FreeSum(t.frames) == FreeSum(s.frames) + Pow2(o)
  {
    AttachFrames(s, t, p, o);
    assert Placed(t) && Disjoint(t) by { BlocksMore(s, t, p, o); }
    assert Coalesced(t) by { CoalescedMore(s, t, p, o); }
    assert Listed(t) by { ListedMore(s, t, p, o); }
    assert Named(t) && Rooted(t) by { TailsUpdate(s, t, p); }
  }

  /** A hole survives a change to a frame outside it that adds no block reaching in. */
  lemma HoleKept(s: State, t: State, p: nat, q: nat, r: nat)
    requires SameBut(s, t, p) && Hole(s, q, r)
    requires t.At(p).IsHead() ==> p + Pow2(t.At(p).order) <= q || q + Pow2(r) <= p
    ensures Hole(t, q, r)
  {
    assert forall x | t.In(x) && x != p :: t.At(x) == s.At(x);
  }

  /** Both halves of a hole are holes, and the upper half is the lower's buddy. */
  lemma HalveHole(s: State, p: nat, b: nat, o: nat)
    requires Hole(s, p, o + 1) && b == BuddyOf(p, o)
    ensures b == p + Pow2(o) && p == BuddyOf(b, o) && !s.FreeAt(p, o)
    ensures Hole(s, p, o) && Hole(s, b, o)
  {
    AlignedWeaken(p, o + 1, o);
    XorBit(p, o);
    BuddySymmetric(p, o);
    AlignedShift(p, o);
  }

  /** Two neighbouring holes that are buddies form one hole of the next order. */
  lemma JoinHoles(s: State, p: nat, b: nat, o: nat)
    requires Hole(s, p, o) && Hole(s, b, o) && o < MAX_ORDER && b == BuddyOf(p, o)
    ensures Hole(s, if b < p then b else p, o + 1)
  {
    XorBit(p, o);
    var lo := if b < p then b else p;
    forall q | s.In(q) && s.At(q).IsHead()
      ensures q + Pow2(s.At(q).order) <= lo || lo + Pow2(o + 1) <= q
    {
      assert q + Pow2(s.At(q).order) <= p || p + Pow2(o) <= q;
      assert q + Pow2(s.At(q).order) <= b || b + Pow2(o) <= q;
    }
  }

  /** `t` differs from `s` inside [p, p + 2^o) only. */
  ghost predicate SameOutside(s: State, t: State, p: int, o: nat) {
    && t.base == s.base && |t.frames| == |s.frames| && t.freePages == s.freePages
    && (forall q | s.In(q) && !(p <= q < p + Pow2(o)) :: t.At(q) == s.At(q))
  }

  /** Marking a hole allocated keeps the invariant. */
  lemma ClaimOk(s: State, t: State, p: nat, o: nat)
    requires Core(s) && Hole(s, p, o) && t == s.Claim(p, o)
    ensures Core(t) && SameOutside(s, t, p, o) && t.At(p) == AllocatedHead(1, o)
    ensures forall q | p < q < p + Pow2(o) :: t.In(q) && t.At(q) == AllocatedTail(p)
    ensures FreeSum(t.frames) == FreeSum(s.frames)
  {
    HoleHasNoHead(s, p, o);
    ClaimFrames(s, t, p, o);
    ClaimBlocks(s, t, p, o);
    ClaimNamed(s, t, p, o);
    ClaimRooted(s, t, p, o);
    ClaimListed(s, t, p, o);
    ClaimSum(s, t, p, o);
  }

  lemma ClaimFrames(s: State, t: State, p: nat, o: nat)
    requires Hole(s, p, o) && t == s.Claim(p, o)
    ensures SameOutside(s, t, p, o) && t.lists == s.lists && t.At(p) == AllocatedHead(1, o)
    ensures forall q | p < q < p + Pow2(o) :: t.In(q) && t.At(q) == AllocatedTail(p)
  {
  }

  lemma ClaimBlocks(s: State, t: State, p: nat, o: nat)
    requires Placed(s) && Disjoint(s) && Hole(s, p, o)
    requires SameOutside(s, t, p, o) && t.At(p) == AllocatedHead(1, o)
    requires forall q | p < q < p + Pow2(o) :: t.In(q) && t.At(q) == AllocatedTail(p)
    ensures Placed(t) && Disjoint(t)
  {
    assert forall q | t.In(q) && t.At(q).IsHead() && q != p :: t.At(q) == s.At(q) && s.At(q).IsHead();
  }

  lemma ClaimNamed(s: State, t: State, p: nat, o: nat)
    requires Named(s) && Hole(s, p, o)
    requires SameOutside(s, t, p, o) && t.At(p) == AllocatedHead(1, o)
    requires forall q | p < q < p + Pow2(o) :: t.In(q) && t.At(q) == AllocatedTail(p)
    ensures Named(t)
  {
    forall h, q | t.In(h) && t.In(q) && t.At(h).AllocatedHead? && h < q < h + Pow2(t.At(h).order)
      ensures t.At(q) == AllocatedTail(h)
    {
      if h != p {
        assert t.At(h) == s.At(h);
        assert h + Pow2(s.At(h).order) <= p || p + Pow2(o) <= h;
      }
    }
  }

  lemma ClaimRooted(s: State, t: State, p: nat, o: nat)
    requires Rooted(s) && s.base <= p && SameOutside(s, t, p, o)
    requires s.In(p) && t.At(p) == AllocatedHead(1, o)
    requires forall q | p < q < p + Pow2(o) :: t.In(q) && t.At(q) == AllocatedTail(p)
    ensures Rooted(t)
  {
    forall q | t.In(q)
      ensures t.At(q).AllocatedTail? ==> t.base <= t.At(q).head < q
      ensures t.At(q).AllocatedHead? ==> t.At(q).refCount >= 1
    {
      if !(p <= q < p + Pow2(o)) { assert t.At(q) == s.At(q); }
    }
  }

  lemma ClaimListed(s: State, t: State, p: nat, o: nat)
    requires Listed(s) && Coalesced(s) && SameOutside(s, t, p, o) && t.lists == s.lists
    requires forall q | p <= q < p + Pow2(o) :: s.In(q) && !s.At(q).Free? && !t.At(q).Free?
    ensures Listed(t) && Coalesced(t)
  {
    assert forall q, r :: t.FreeAt(q, r) <==> s.FreeAt(q, r);
  }

  lemma ClaimSum(s: State, t: State, p: nat, o: nat)
    requires SameOutside(s, t, p, o)
    requires forall q | p <= q < p + Pow2(o) :: s.In(q) && !s.At(q).Free? && !t.At(q).Free?
    ensures FreeSum(t.frames) == FreeSum(s.frames)
  {
    forall i | 0 <= i < |s.frames|
      ensures Weight(t.frames[i]) == Weight(s.frames[i])
    {
      assert s.At(s.base + i) == s.frames[i] && t.At(s.base + i) == t.frames[i];
    }
    FreeSumSame(t.frames, s.frames);
  }

  // ------------------------------------------------------------ split and merge

  /** One round of splitting: the upper half becomes a free block. */
  lemma HalveOk(s: State, t: State, p: nat, o: nat)
    requires Core(s) && Hole(s, p, o + 1) && t == s.Attach(BuddyOf(p, o), o)
    ensures BuddyOf(p, o) == p + Pow2(o)
    ensures Core(t) && Hole(t, p, o) && SameBut(s, t, p + Pow2(o)) && t.At(p + Pow2(o)) == Free(o)
    ensures t.freePages == s.freePages
    ensures FreeSum(t.frames) == FreeSum(s.frames) + Pow2(o)
  {
    var b := BuddyOf(p, o);
    HalveHole(s, p, b, o);
    AttachOk(s, t, b, p, o);
    assert Hole(t, p, o) by { HoleKept(s, t, b, p, o); }
  }

  /** What splitting does to the frames: inside the block some become free. */
  ghost predicate Carved(s: State, t: State, p: nat, o: nat) {
    && SameOutside(s, t, p, o)
    && (forall q | s.In(q) && !t.At(q).Free? :: t.At(q) == s.At(q))
  }

  ghost predicate SplitGood(s: State, p: nat, from: nat, to: nat, t: State) {
    && Core(t) && Hole(t, p, to) && Carved(s, t, p, from)
    && FreeSum(t.frames) + Pow2(to) == FreeSum(s.frames) + Pow2(from)
  }

  lemma {:induction false} SplitOk(s: State, p: nat, from: nat, to: nat)
    requires Core(s) && Hole(s, p, from) && to <= from
    ensures SplitGood(s, p, from, to, Split(s, p, from, to))
    decreases from
  {
    if to < from {
      var o := from - 1;
      var t := s.Attach(BuddyOf(p, o), o);
      HalveOk(s, t, p, o);
      SplitOk(t, p, o, to);
      SplitGoodStep(s, t, Split(t, p, o, to), p, o, to);
    }
  }

  lemma SplitGoodStep(s: State, t: State, u: State, p: nat, o: nat, to: nat)
    requires SameBut(s, t, p + Pow2(o)) && t.At(p + Pow2(o)).Free? && t.freePages == s.freePages
    requires FreeSum(t.frames) == FreeSum(s.frames) + Pow2(o)
    requires SplitGood(t, p, o, to, u)
    ensures SplitGood(s, p, o + 1, to, u)
  {
    CarvedStep(s, t, u, p, o);
  }

  lemma CarvedStep(s: State, t: State, u: State, p: nat, o: nat)
    requires SameBut(s, t, p + Pow2(o)) && t.At(p + Pow2(o)).Free? && t.freePages == s.freePages
    requires Carved(t, u, p, o)
    ensures Carved(s, u, p, o + 1)
  {
    assert u.At(p + Pow2(o)) == t.At(p + Pow2(o));
  }

  /** One round of merging: the free buddy is absorbed. */
  lemma AbsorbOk(s: State, t: State, p: nat, b: nat, o: nat)
    requires Core(s) && Hole(s, p, o) && o < MAX_ORDER
    requires b == BuddyOf(p, o) && s.FreeAt(b, o) && t == s.Detach(b, o)
    ensures Core(t) && Hole(t, if b < p then b else p, o + 1)
    ensures SameBut(s, t, b) && t.At(b) == Uninitialized && t.freePages == s.freePages
    ensures FreeSum(t.frames) + Pow2(o) == FreeSum(s.frames)
  {
    DetachOk(s, t, b, o);
    HoleKept(s, t, b, p, o);
    JoinHoles(t, p, b, o);
  }

  /** What merging achieves: everything it took in lies in the final block, no
      page is lost, and the final block has no free buddy. */
  ghost predicate Merged(s: State, p: nat, o: nat, t: State, q: nat, m: nat) {
    && SameOutside(s, t, q, m)
    && (m < MAX_ORDER ==> !t.FreeAt(BuddyOf(q, m), m))
    && FreeSum(t.frames) + Pow2(m) == FreeSum(s.frames) + Pow2(o)
    && q <= p && p + Pow2(o) <= q + Pow2(m)
    && (forall x | s.In(x) :: t.At(x) == s.At(x) || (s.At(x).Free? && t.At(x) == Uninitialized))
  }

  ghost predicate MergeGood(s: State, p: nat, o: nat, t: State, q: nat, m: nat) {
    Core(t) && Hole(t, q, m) && Merged(s, p, o, t, q, m)
  }

  lemma {:induction false} MergeOk(s: State, p: nat, o: nat)
    requires Core(s) && Hole(s, p, o)
    ensures var (t, q, m) := Merge(s, p, o); MergeGood(s, p, o, t, q, m)
    decreases MAX_ORDER - o
  {
    hide Core, MergeGood;
    var b := BuddyOf(p, o);
    assert b == p + Pow2(o) || p == b + Pow2(o) by { XorBit(p, o); }
    hide Hole;
    if o < MAX_ORDER && s.FreeAt(b, o) {
      var t := s.Detach(b, o);
      var lo := if b < p then b else p;
      AbsorbOk(s, t, p, b, o);
      MergeOk(t, lo, o + 1);
      var (u, q, m) := Merge(t, lo, o + 1);
      MergedStep(s, t, p, b, o, u, q, m);
    } else {
      MergeDone(s, p, o);
    }
  }

  lemma MergeDone(s: State, p: nat, o: nat)
    requires Core(s) && Hole(s, p, o) && (o < MAX_ORDER ==> !s.FreeAt(BuddyOf(p, o), o))
    ensures MergeGood(s, p, o, s, p, o)
  {
  }

  lemma MergedStep(s: State, t: State, p: nat, b: nat, o: nat, u: State, q: nat, m: nat)
    requires SameBut(s, t, b) && s.FreeAt(b, o) && t.At(b) == Uninitialized && t.freePages == s.freePages
    requires FreeSum(t.frames) + Pow2(o) == FreeSum(s.frames)
    requires b == p + Pow2(o) || p == b + Pow2(o)
    requires MergeGood(t, if b < p then b else p, o + 1, u, q, m)
    ensures MergeGood(s, p, o, u, q, m)
  {
    hide Core, Hole;
    assert Pow2(o + 1) == 2 * Pow2(o);
    hide Pow2, BuddyOf, FreeSum;
  }
}
