/** Kernel ring buffers and the splice that moves data between two of them by copying
    slices directly, whatever the wrap-around of each. */
module Kbuf {
  import opened Common
  import opened WakerSets

  datatype Poll = Pending | Ready(moved: nat)

  /** Element `i` of a pair of slices: a first one at `lo`, the second at index 0. */
  function SliceIndex(lo: nat, headLen: nat, i: nat): nat {
    if i < headLen then lo + i else i - headLen
  }

  /** The slot of element `i` of a ring that starts at `start`. */
  function Wrap(start: nat, i: nat, capacity: nat): nat {
    if start + i < capacity then start + i else start + i - capacity
  }

  predicate InRing(start: nat, len: nat, capacity: nat) {
    len <= capacity && (start < capacity || (start == 0 && capacity == 0))
  }

  /** The elements of a ring, oldest first. */
  function Elements<T>(d: seq<T>, start: nat, len: nat): (s: seq<T>)
    requires InRing(start, len, |d|)
    ensures |s| == len && forall i | 0 <= i < len :: s[i] == d[Wrap(start, i, |d|)]
  {
    seq(len, i requires 0 <= i < len => d[Wrap(start, i, |d|)])
  }

  /** A ring over a fixed buffer: `len` elements from `start` on, wrapping at the end. */
  class Ring<T(0)> {
    const data: array<T>
    var start: nat
    var len: nat
    const readWaiters: WakerSet<nat>
    const writeWaiters: WakerSet<nat>

    ghost predicate Valid()
      reads this
    {
      InRing(start, len, data.Length)
    }

    ghost function Contents(): seq<T>
      reads this, data
      requires Valid()
    {
      Elements(data[..], start, len)
    }

    ghost predicate WaitersValid()
      reads readWaiters, writeWaiters
    {
      readWaiters.Valid() && writeWaiters.Valid() && readWaiters != writeWaiters
    }

    constructor (capacity: nat)
      ensures Valid() && fresh(data) && data.Length == capacity && Contents() == []
      ensures WaitersValid() && fresh(readWaiters) && fresh(writeWaiters)
    {
      data := new T[capacity];
      start, len := 0, 0;
      readWaiters := new WakerSet<nat>();
      writeWaiters := new WakerSet<nat>();
    }

    ghost function Vacant(): nat
      reads this
      requires Valid()
    {
      data.Length - len
    }

    /** The occupied elements up to the end of the buffer; the rest start at index 0. */
    function OccupiedHead(): nat
      reads this
      requires Valid()
    {
      Min(len, data.Length - start)
    }

    /** The first vacant index, and the vacant slots before the wrap; any others start
        at index 0. */
    function WriteIndex(): nat
      reads this
      requires Valid()
    {
      if start + len >= data.Length then start + len - data.Length else start + len
    }

    function VacantHead(): nat
      reads this
      requires Valid()
    {
      if start + len >= data.Length then data.Length - len else data.Length - (start + len)
    }
  }

  /** How many elements lie before the end of the buffer. */
  ghost function FirstUsed<T(0)>(ring: Ring<T>): int
    reads ring
  {
    if ring.start + ring.len <= ring.data.Length then ring.len else ring.data.Length - ring.start
  }

  /** How many free slots follow the last element before the end of the buffer or, once the
      elements wrap, before the first element. */
  ghost function FirstFree<T(0)>(ring: Ring<T>): int
    reads ring
  {
    if ring.start + ring.len < ring.data.Length then ring.data.Length - (ring.start + ring.len)
    else ring.data.Length - ring.len
  }

  /** How many elements the slice copy moves. */
  function Moved(amount: nat, srcHead: nat, dstHead: nat): nat {
    Min(amount, Max(srcHead, dstHead))
  }

  /** Copies `n` elements of one buffer into another. */
  method CopyRun<T>(src: array<T>, from: nat, dst: array<T>, at: nat, n: nat)
    requires src != dst && from + n <= src.Length && at + n <= dst.Length
    modifies dst
    ensures forall j | 0 <= j < dst.Length ::
      dst[j] == if at <= j < at + n then src[from + j - at] else old(dst[j])
  {
    forall i | 0 <= i < n { dst[at + i] := src[from + i]; }
  }

  /** Copies up to `amount` elements from a pair of source slices to a pair of target
      slices, in order.  The second source slice is never copied to the second target
      slice, so the copy stops early when both would be needed. */
  method CopySlices<T>(src: array<T>, srcLo: nat, srcHead: nat, srcTail: nat,
                       dst: array<T>, dstLo: nat, dstHead: nat, dstTail: nat, amount: nat) returns (copied: nat)
    requires src != dst
    requires srcLo + srcHead <= src.Length && srcTail <= src.Length && amount <= srcHead + srcTail
    requires dstLo + dstHead <= dst.Length && amount <= dstHead + dstTail
    requires dstTail > 0 ==> dstTail <= dstLo
    modifies dst
    ensures copied == if amount <= srcHead || amount <= dstHead then amount else Max(srcHead, dstHead)
    ensures forall j | 0 <= j < dst.Length ::
      dst[j] == if dstLo <= j < dstLo + Min(copied, dstHead) then src[SliceIndex(srcLo, srcHead, j - dstLo)]
                else if j < copied - dstHead then src[SliceIndex(srcLo, srcHead, dstHead + j)]
                else old(dst[j])
  {
    var left := amount;
    var n1 := Min(left, Min(srcHead, dstHead));
    CopyRun(src, srcLo, dst, dstLo, n1);
    left := left - n1;
    if left == 0 {
      return amount;
    }
    var n2 := Min(left, Min(srcHead - n1, dstTail));
    CopyRun(src, srcLo + n1, dst, 0, n2);
    left := left - n2;
    if left == 0 {
      return amount;
    }
    var n3 := Min(left, Min(srcTail, dstHead - n1));
    CopyRun(src, 0, dst, dstLo + n1, n3);
    left := left - n3;
    copied := amount - left;
  }

  /** Two rings that share nothing. */
  ghost predicate Apart<T(0)>(a: Ring<T>, b: Ring<T>) {
    && a.data != b.data
    && a.readWaiters != b.readWaiters && a.readWaiters != b.writeWaiters
    && a.writeWaiters != b.readWaiters && a.writeWaiters != b.writeWaiters
  }

  /** How much there is to move and room for. */
  ghost function Room<T(0)>(target: Ring<T>, source: Ring<T>, count: nat): nat
    requires target.Valid() && source.Valid()
    reads target, source
  {
    Min(count, Min(source.len, target.Vacant()))
  }

  /** One attempt to move up to `count` elements from `source` to `target`.  It waits
      exactly when there is nothing to take or no room, and is then registered for each of
      the two that holds it up; otherwise at least one element moves, the target gains the
      oldest elements of the source in order, the source loses exactly those, and one
      reader of the target and one writer of the source are woken.  It moves less than it
      could exactly when that exceeds the first slices of both rings. */
  method SpliceFrom<T(0)>(target: Ring<T>, source: Ring<T>, count: nat, waker: nat) returns (r: Poll, woken: seq<nat>)
    requires target.Valid() && source.Valid() && target.WaitersValid() && source.WaitersValid()
    requires target != source ==> Apart(target, source)
    modifies target`len, target.data, source`start, source`len
    modifies target.readWaiters, target.writeWaiters, source.readWaiters, source.writeWaiters
    ensures target.Valid() && source.Valid() && target.WaitersValid() && source.WaitersValid()
    ensures count == 0 || target == source ==> r == Ready(0)
    ensures count > 0 && target != source ==> (r.Pending? <==> old(source.len == 0 || target.Vacant() == 0))
    ensures count > 0 && target != source && r.Ready? ==>
      && 1 <= r.moved <= old(Room(target, source, count))
      && r.moved == old(Min(Min(count, Min(source.len, target.data.Length - target.len)),
                            Max(FirstUsed(source), FirstFree(target))))
      && (r.moved < old(Room(target, source, count)) <==>
            && old(source.OccupiedHead()) < old(Room(target, source, count))
            && old(target.VacantHead()) < old(Room(target, source, count)))
      && target.Contents() == old(target.Contents()) + old(source.Contents())[..r.moved]
      && source.Contents() == old(source.Contents())[r.moved..]
      && var readers, writers := old(target.readWaiters.Queue()), old(source.writeWaiters.Queue());
         && woken == readers[..Min(1, |readers|)] + writers[..Min(1, |writers|)]
         && target.readWaiters.Queue() == readers[Min(1, |readers|)..]
         && source.writeWaiters.Queue() == writers[Min(1, |writers|)..]
    ensures !(count > 0 && target != source && r.Ready?) ==>
      target.Contents() == old(target.Contents()) && source.Contents() == old(source.Contents()) && woken == []
    ensures r.Ready? ==> unchanged(source.readWaiters) && unchanged(target.writeWaiters)
    ensures r.Pending? ==> unchanged(target.readWaiters) && unchanged(source.writeWaiters)
    ensures r.Pending? ==>
      && source.readWaiters.Queue() ==
           old(source.readWaiters.Queue()) + (if old(source.len) == 0 then [waker] else [])
      && target.writeWaiters.Queue() ==
           old(target.writeWaiters.Queue()) + (if old(target.Vacant()) == 0 then [waker] else [])
  {
    woken := [];
    if count == 0 || target == source {
      return Ready(0), [];
    }
    var amount := Min(count, Min(source.len, target.data.Length - target.len));
    if amount == 0 {
      if source.len == 0 {
        var id := source.readWaiters.Register(waker);
      }
      if target.len == target.data.Length {
        var id := target.writeWaiters.Register(waker);
      }
      return Pending, [];
    }
    var moved := MoveSlices(target, source, amount);
    var reader := WakeFirst(target.readWaiters);
    var writer := WakeFirst(source.writeWaiters);
    return Ready(moved), reader + writer;
  }

  method WakeFirst(wakers: WakerSet<nat>) returns (woken: seq<nat>)
    requires wakers.Valid()
    modifies wakers
    ensures wakers.Valid()
    ensures var q := old(wakers.Queue()); woken == q[..Min(1, |q|)] && wakers.Queue() == q[Min(1, |q|)..]
  {
    var first := wakers.PopFirst();
    woken := if first.Some? then [first.value] else [];
  }

  method MoveSlices<T(0)>(target: Ring<T>, source: Ring<T>, amount: nat) returns (copied: nat)
    requires target.Valid() && source.Valid() && target != source && target.data != source.data
    requires 0 < amount <= source.len && amount <= target.data.Length - target.len
    modifies target`len, target.data, source`start, source`len
    ensures target.Valid() && source.Valid()
    ensures copied == Moved(amount, old(source.OccupiedHead()), old(target.VacantHead())) && 1 <= copied <= amount
    ensures target.Contents() == old(target.Contents()) + old(source.Contents())[..copied]
    ensures source.Contents() == old(source.Contents())[copied..]
  {
    var srcHead, dstHead := source.OccupiedHead(), target.VacantHead();
    copied := CopySlices(source.data, source.start, srcHead, source.len - srcHead,
                         target.data, target.WriteIndex(), dstHead, target.data.Length - target.len - dstHead, amount);
    Appended(old(target.data[..]), target.data[..], target.start, target.len,
             source.data[..], source.start, srcHead, source.len, copied);
    AdvanceRead(source, copied);
    target.len := target.len + copied;
  }

  /** Filling the vacant slices in order appends to a ring's elements. */
  lemma Appended<T>(before: seq<T>, after: seq<T>, start: nat, len: nat,
                    src: seq<T>, srcLo: nat, srcHead: nat, srcLen: nat, k: nat)
    requires InRing(start, len, |before|) && |after| == |before| && len + k <= |before|
    requires InRing(srcLo, srcLen, |src|) && k <= srcLen && srcHead == Min(srcLen, |src| - srcLo)
    requires var w, head := if start + len >= |before| then start + len - |before| else start + len,
                            if start + len >= |before| then |before| - len else |before| - (start + len);
      forall j | 0 <= j < |after| ::
        after[j] == if w <= j < w + Min(k, head) then src[SliceIndex(srcLo, srcHead, j - w)]
                    else if j < k - head then src[SliceIndex(srcLo, srcHead, head + j)]
                    else before[j]
    ensures Elements(after, start, len + k) == Elements(before, start, len) + Elements(src, srcLo, srcLen)[..k]
  {
    var all, want := Elements(after, start, len + k), Elements(before, start, len) + Elements(src, srcLo, srcLen)[..k];
    forall i | 0 <= i < len + k ensures all[i] == want[i] {
      var j := Wrap(start, i, |after|);
      assert all[i] == after[j];
      if i >= len { assert SliceIndex(srcLo, srcHead, i - len) == Wrap(srcLo, i - len, |src|); }
    }
  }

  /** Drops the `n` oldest elements. */
  method AdvanceRead<T(0)>(ring: Ring<T>, n: nat)
    requires ring.Valid() && n <= ring.len
    modifies ring`start, ring`len
    ensures ring.Valid() && ring.len == old(ring.len) - n && ring.Contents() == old(ring.Contents())[n..]
  {
    ring.start := if ring.start + n >= ring.data.Length then ring.start + n - ring.data.Length else ring.start + n;
    ring.len := ring.len - n;
  }

  /** Two elements could move and one does: both rings wrap after their first slice. */
  method ShortfallExample() returns (moved: nat)
    ensures moved == 1
  {
    var source := new Ring<int>(4);
    var target := new Ring<int>(4);
    source.start, source.len := 3, 2;
    target.start, target.len := 2, 1;
    var r, woken := SpliceFrom(target, source, 2, 0);
    moved := r.moved;
  }
}
