/** The frame allocator in place: an array of frame states, the free lists and the
    page counter, updated by loops.  Each method is proved equal to its function
    in `Buddy`, so the theorems about those functions are about this code. */
module FrameAllocator {
  import opened Common
  import opened PowersOfTwo
  import opened Buddy
  import opened BuddyTheorems

  class Allocator {
    const basePage: nat
    const totalPages: nat
    const pages: array<FrameState>
    var freePages: int
    var freeLists: seq<seq<nat>>

    ghost function Abs(): State
      reads this, pages
    {
      State(basePage, pages[..], freeLists, freePages)
    }

    ghost predicate Valid()
      reads this, pages
    {
      pages.Length == totalPages && WellFormed(Abs())
    }

    /** An allocator over any well-formed metadata. */
    constructor (base: nat, frames: array<FrameState>, lists: seq<seq<nat>>, free: int)
      requires WellFormed(State(base, frames[..], lists, free))
      ensures Valid() && pages == frames && Abs() == State(base, frames[..], lists, free)
    {
      basePage, totalPages, pages := base, frames.Length, frames;
      freeLists, freePages := lists, free;
    }

    /** Start-up: cuts an aligned stretch of frames that no block claims into top-order
        free blocks, as many as fit. */
    method CarveRegion(start: nat, end: nat) returns (blocks: nat)
      requires Valid() && Aligned(start, MAX_ORDER) && Unclaimed(Abs(), start, end)
      modifies this, pages
      ensures Valid() && Abs() == CarveMany(old(Abs()), start, blocks, MAX_ORDER)
      ensures start + blocks * Pow2(MAX_ORDER) <= end || blocks == 0
      ensures end < start + (blocks + 1) * Pow2(MAX_ORDER)
    {
      blocks := CarveBlocks(start, end, MAX_ORDER);
    }

    ghost predicate Carving(origin: State, start: nat, done: nat, pfn: nat, end: nat, top: nat)
      reads this, pages
    {
      pages.Length == totalPages && CarvedUpTo(origin, Abs(), start, done, pfn, end, top)
    }

    method CarveBlocks(start: nat, end: nat, top: nat) returns (blocks: nat)
      requires Valid() && top == MAX_ORDER && Aligned(start, top) && Unclaimed(Abs(), start, end)
      modifies this, pages
      ensures Valid() && Abs() == CarveMany(old(Abs()), start, blocks, top)
      ensures start + blocks * Pow2(top) <= end || blocks == 0
      ensures end < start + (blocks + 1) * Pow2(top)
    {
      hide WellFormed, Unclaimed;
      var size := Pow2(top);
      var current := start;
      blocks := 0;
      while current + size <= end
        invariant Carving(old(Abs()), start, blocks, current, end, top)
        invariant current <= end || blocks == 0
      {
        CarveBlock(old(Abs()), start, blocks, current, end, top);
        current, blocks := current + size, blocks + 1;
      }
      assert (blocks + 1) * size == blocks * size + size;
    }

    method CarveBlock(ghost origin: State, ghost start: nat, ghost done: nat, pfn: nat, ghost end: nat, top: nat)
      requires Carving(origin, start, done, pfn, end, top) && pfn + Pow2(top) <= end
      modifies this, pages
      ensures Carving(origin, start, done + 1, pfn + Pow2(top), end, top)
    {
      CarveStep(origin, Abs(), CarveOne(Abs(), pfn, top), start, done, pfn, end, top);
      SetFrame(pfn, Free(top));
      AddToFreeList(pfn, top);
      freePages := freePages + Pow2(top);
    }

    method SetFrame(pfn: nat, f: FrameState)
      requires basePage <= pfn < basePage + pages.Length
      modifies pages
      ensures Abs() == old(Abs()).Put(pfn, f)
    {
      pages[pfn - basePage] := f;
    }

    method AddToFreeList(pfn: nat, order: nat)
      requires order < |freeLists|
      modifies this`freeLists
      ensures Abs() == old(Abs()).SetList(order, [pfn] + old(Abs()).List(order))
    {
      freeLists := freeLists[order := [pfn] + freeLists[order]];
    }

    method RemoveFromFreeList(pfn: nat, order: nat)
      requires basePage <= pfn < basePage + pages.Length && order < |freeLists|
      modifies this`freeLists, pages
      ensures Abs() == old(Abs()).Detach(pfn, order)
    {
      freeLists := freeLists[order := Remove(freeLists[order], pfn)];
      SetFrame(pfn, Uninitialized);
    }

    /** Releases one reference to the block that starts at `head`. */
    method FreeFrames(head: nat)
      requires Valid() && Abs().In(head) && Abs().At(head).AllocatedHead?
      modifies this, pages
      ensures Valid() && Abs() == Drop(old(Abs()), head)
    {
      DropKeepsWellFormed(Abs(), head);
      var info := pages[head - basePage];
      if info.refCount > 1 {
        SetFrame(head, AllocatedHead(info.refCount - 1, info.order));
      } else {
        ReleaseBlock(head);
      }
    }

    /** Frees a block whose last reference goes. */
    method ReleaseBlock(head: nat)
      requires pages.Length == totalPages && Core(Abs())
      requires Abs().In(head) && Abs().At(head).AllocatedHead? && Abs().At(head).refCount <= 1
      modifies this, pages
      ensures Abs() == Drop(old(Abs()), head)
    {
      var order := pages[head - basePage].order;
      ReleaseOk(Abs(), Abs().Put(head, Uninitialized), head);
      SetFrame(head, Uninitialized);
      ghost var released := Abs();
      var current, merged := MergeUp(head, order);
      assert merged < |freeLists| && Abs().In(current);
      SetFrame(current, Free(merged));
      AddToFreeList(current, merged);
      freePages := freePages + Pow2(order);
      assert released == old(Abs()).Put(head, Uninitialized);
    }

    /** Absorbs free buddies into the block at `head`, one order at a time. */
    method MergeUp(head: nat, initialOrder: nat) returns (current: nat, merged: nat)
      requires pages.Length == totalPages && Core(Abs()) && Hole(Abs(), head, initialOrder)
      modifies this`freeLists, pages
      ensures Core(Abs()) && Hole(Abs(), current, merged)
      ensures Merge(old(Abs()), head, initialOrder) == (Abs(), current, merged)
    {
      ghost var goal := Merge(Abs(), head, initialOrder);
      assert initialOrder <= MAX_ORDER;
      hide Core, Hole;
      current, merged := head, initialOrder;
      while merged < MAX_ORDER
        invariant merged <= MAX_ORDER
        invariant Core(Abs()) && Hole(Abs(), current, merged)
        invariant goal == Merge(Abs(), current, merged)
        decreases MAX_ORDER - merged
      {
        var buddy := BuddyOf(current, merged);
        if buddy < basePage || buddy >= basePage + totalPages {
          break;
        }
        if pages[buddy - basePage] == Free(merged) {
          current := Absorb(current, buddy, merged);
          merged := merged + 1;
        } else {
          break;
        }
      }
    }

    /** Takes a free buddy off its list; the joint block starts at the lower frame. */
    method Absorb(current: nat, buddy: nat, order: nat) returns (lower: nat)
      requires pages.Length == totalPages && Core(Abs()) && Hole(Abs(), current, order)
      requires order < MAX_ORDER && buddy == BuddyOf(current, order) && Abs().FreeAt(buddy, order)
      modifies this`freeLists, pages
      ensures Core(Abs()) && Hole(Abs(), lower, order + 1)
      ensures Merge(old(Abs()), current, order) == Merge(Abs(), lower, order + 1)
    {
      AbsorbOk(Abs(), Abs().Detach(buddy, order), current, buddy, order);
      RemoveFromFreeList(buddy, order);
      lower := if buddy < current then buddy else current;
    }

    /** Allocates a block of 2^order pages and returns its first frame. */
    method AllocFrames(order: nat) returns (r: Result<nat>)
      requires Valid()
      modifies this, pages
      ensures Valid() && (Abs(), r) == Alloc(old(Abs()), order)
    {
      AllocKeepsWellFormed(Abs(), order);
      if order > MAX_ORDER {
        return Err(InvalidValue);
      }
      var found := FindOrder(order);
      if found > MAX_ORDER {
        return Err(NoMemory);
      }
      var block := TakeBlock(found, order);
      r := Ok(block);
    }

    /** Takes the first block of list `found` down to the requested order. */
    method TakeBlock(found: nat, order: nat) returns (block: nat)
      requires pages.Length == totalPages && Core(Abs()) && FirstFit(Abs(), order) == Ok(found)
      modifies this, pages
      ensures (Abs(), Ok(block)) == Alloc(old(Abs()), order)
    {
      hide Core, Hole, Split;
      block := PopBlock(found, order);
      CutBlock(block, found, order);
      freePages := freePages - Pow2(order);
    }

    method CutBlock(block: nat, found: nat, order: nat)
      requires pages.Length == totalPages && Core(Abs()) && Hole(Abs(), block, found) && order <= found
      modifies this`freeLists, pages
      ensures Abs() == Split(old(Abs()), block, found, order).Claim(block, order)
    {
      SplitDown(block, found, order);
      MarkAllocated(block, order);
    }

    method PopBlock(found: nat, ghost order: nat) returns (block: nat)
      requires pages.Length == totalPages && Core(Abs()) && FirstFit(Abs(), order) == Ok(found)
      modifies this`freeLists, pages
      ensures block == old(Abs()).List(found)[0] && Abs() == old(Abs()).Detach(block, found)
      ensures Core(Abs()) && Hole(Abs(), block, found)
    {
      ghost var s := Abs();
      block := freeLists[found][0];
      FirstFitFree(s, order, block, found);
      DetachOk(s, s.Detach(block, found), block, found);
      freeLists := freeLists[found := freeLists[found][1..]];
      SetFrame(block, Uninitialized);
    }

    /** The smallest order from `order` upwards whose list is not empty. */
    method FindOrder(order: nat) returns (found: nat)
      requires order <= MAX_ORDER && |freeLists| == MAX_ORDER + 1
      ensures found <= MAX_ORDER ==> FirstFit(Abs(), order) == Ok(found)
      ensures found > MAX_ORDER ==> FirstFit(Abs(), order).Err?
    {
      found := order;
      while found <= MAX_ORDER
        invariant order <= found <= MAX_ORDER + 1
        invariant FirstFit(Abs(), order) == FirstFit(Abs(), found)
      {
        if freeLists[found] != [] {
          return;
        }
        found := found + 1;
      }
    }

    /** Halves the block until it has the requested order. */
    method SplitDown(block: nat, from: nat, to: nat)
      requires pages.Length == totalPages && Core(Abs()) && Hole(Abs(), block, from) && to <= from
      modifies this`freeLists, pages
      ensures Core(Abs()) && Hole(Abs(), block, to) && Abs() == Split(old(Abs()), block, from, to)
    {
      ghost var goal := Split(Abs(), block, from, to);
      var current := from;
      while current > to
        invariant to <= current <= from
        invariant Core(Abs()) && Hole(Abs(), block, current)
        invariant goal == Split(Abs(), block, current, to)
      {
        current := current - 1;
        FreeUpperHalf(block, current, to);
      }
    }

    /** Frees the upper half of a block of order `order + 1`. */
    method FreeUpperHalf(block: nat, order: nat, ghost to: nat)
      requires pages.Length == totalPages && Core(Abs()) && Hole(Abs(), block, order + 1) && to <= order
      modifies this`freeLists, pages
      ensures Core(Abs()) && Hole(Abs(), block, order)
      ensures Split(old(Abs()), block, order + 1, to) == Split(Abs(), block, order, to)
    {
      var buddy := BuddyOf(block, order);
      HalveOk(Abs(), Abs().Attach(buddy, order), block, order);
      SetFrame(buddy, Free(order));
      AddToFreeList(buddy, order);
    }

    /** Writes the head record and the tail records of a new block. */
    method MarkAllocated(block: nat, order: nat)
      requires basePage <= block && block + Pow2(order) <= basePage + pages.Length
      modifies pages
      ensures Abs() == old(Abs()).Claim(block, order)
    {
      var idx, n := block - basePage, Pow2(order);
      pages[idx] := AllocatedHead(1, order);
      for i := 1 to n
        invariant forall j | 0 <= j < pages.Length ::
          pages[j] == if j == idx then AllocatedHead(1, order)
                      else if idx < j < idx + i then AllocatedTail(block)
                      else old(pages[j])
      {
        pages[idx + i] := AllocatedTail(block);
      }
      assert pages[..] == old(Abs()).Claim(block, order).frames;
    }

    /** Adds a reference to an allocated block. */
    method CloneAllocation(head: nat)
      requires Valid() && Abs().In(head) && Abs().At(head).AllocatedHead?
      modifies pages
      ensures Valid() && Abs() == Clone(old(Abs()), head)
    {
      RecountOk(Abs(), Clone(Abs(), head), head, Abs().At(head).refCount + 1);
      var info := pages[head - basePage];
      SetFrame(head, AllocatedHead(info.refCount + 1, info.order));
    }

    /** Follows tail records to their end.  On every page of an allocated block the answer
        says whether that block has a single reference; on any other page it says so of
        the block that a record left behind leads to, if it leads to one. */
    method IsAllocatedExclusive(page: nat) returns (exclusive: bool)
      requires Valid() && Abs().In(page)
      ensures exclusive <==> Sole(Abs(), Root(Abs(), page))
      ensures forall h | InBlock(Abs(), h, page) :: exclusive <==> Sole(Abs(), h)
    {
      ExclusiveIff(Abs(), page);
      var pfn := page;
      while true
        invariant Abs().In(pfn) && pfn <= page && Root(Abs(), pfn) == Root(Abs(), page)
        decreases pfn
      {
        var f := pages[pfn - basePage];
        assert f == Abs().At(pfn);
        if f.AllocatedTail? {
          pfn := f.head;
        } else {
          return f.AllocatedHead? && f.refCount == 1;
        }
      }
    }
  }
}
