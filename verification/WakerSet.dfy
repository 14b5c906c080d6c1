/** The waker set: wakers kept in a map under increasing identifiers, taken out lowest
    first.  To its users it is a queue in the order of registration. */
module WakerSets {
  import opened Common

  ghost predicate Ascending(ids: seq<nat>) { forall i, j | 0 <= i < j < |ids| :: ids[i] < ids[j] }

  /** Taking one identifier out of an ascending list. */
  lemma {:induction false} RemoveAscending(ids: seq<nat>, x: nat)
    requires Ascending(ids)
    ensures Ascending(Remove(ids, x)) && forall y :: y in Remove(ids, x) <==> y in ids && y != x
    ensures x !in ids ==> Remove(ids, x) == ids
  {
    if ids != [] {
      RemoveAscending(ids[1..], x);
      assert ids == [ids[0]] + ids[1..];
      assert forall y | y in ids[1..] :: ids[0] < y;
      if ids[0] != x { AscendingCons(ids[0], Remove(ids[1..], x)); }
    }
  }

  lemma AscendingCons(x: nat, ids: seq<nat>)
    requires Ascending(ids) && forall y | y in ids :: x < y
    ensures Ascending([x] + ids)
  {
    assert forall i | 0 <= i < |ids| :: ids[i] in ids;
  }

  lemma FirstIn(ids: seq<nat>)
    ensures ids != [] ==> ids[0] in ids
  {
  }

  lemma WithoutFirst<W>(waiters: map<nat, W>, ids: seq<nat>)
    requires Ascending(ids) && ids != [] && forall id | id in ids :: id in waiters
    ensures Ascending(ids[1..]) && forall id :: id in ids[1..] <==> id in ids && id != ids[0]
    ensures WakersOf(waiters - {ids[0]}, ids[1..]) == WakersOf(waiters, ids)[1..]
  {
    AscendingTail(ids);
  }

  lemma AscendingTail(ids: seq<nat>)
    requires Ascending(ids) && ids != []
    ensures Ascending(ids[1..]) && forall id :: id in ids[1..] <==> id in ids && id != ids[0]
  {
    var rest := ids[1..];
    assert forall i | 0 <= i < |rest| :: rest[i] == ids[i + 1];
    assert ids == [ids[0]] + rest;
  }

  lemma AscendingSnoc(ids: seq<nat>, x: nat)
    requires Ascending(ids) && forall y | y in ids :: y < x
    ensures Ascending(ids + [x])
  {
    assert forall i | 0 <= i < |ids| :: ids[i] in ids;
  }

  /** The wakers of some identifiers, in their order. */
  ghost function WakersOf<W>(waiters: map<nat, W>, ids: seq<nat>): (ws: seq<W>)
    requires forall id | id in ids :: id in waiters
    ensures |ws| == |ids| && forall i | 0 <= i < |ids| :: ws[i] == waiters[ids[i]]
  {
    seq(|ids|, i requires 0 <= i < |ids| => waiters[ids[i]])
  }

  class WakerSet<W> {
    var waiters: map<nat, W>
    var nextId: nat
    ghost var order: seq<nat>

    ghost predicate Valid()
      reads this
    {
      && Ascending(order)
      && (forall id :: id in order <==> id in waiters)
      && (forall id | id in waiters :: id < nextId)
    }

    /** The wakers, longest registered first. */
    ghost function Queue(): seq<W>
      reads this
      requires Valid()
    {
      WakersOf(waiters, order)
    }

    constructor ()
      ensures Valid() && order == [] && Queue() == [] && nextId == 0
    {
      waiters, nextId, order := map[], 0, [];
    }

    /** Joins the queue at the back, under an identifier nobody has had. */
    method Register(waker: W) returns (id: nat)
      requires Valid()
      modifies this
      ensures Valid() && id == old(nextId) && nextId == id + 1 && id !in old(waiters)
      ensures waiters == old(waiters)[id := waker] && order == old(order) + [id]
      ensures Queue() == old(Queue()) + [waker]
    {
      id := nextId;
      AscendingSnoc(order, id);
      assert forall i | 0 <= i < |order| :: order[i] in order;
      nextId := nextId + 1;
      waiters := waiters[id := waker];
      order := order + [id];
    }

    /** Takes the waker out, wherever it stands; an identifier already taken is ignored. */
    method Unregister(id: nat)
      requires Valid()
      modifies this`waiters, this`order
      ensures Valid() && waiters == old(waiters) - {id} && order == Remove(old(order), id)
    {
      RemoveAscending(order, id);
      hide Ascending, Remove;
      waiters := waiters - {id};
      order := Remove(order, id);
    }

    /** The lowest identifier in use. */
    method LeastId() returns (least: nat)
      requires Valid() && waiters != map[]
      ensures least in waiters && order != [] && least == order[0]
    {
      least :| least in waiters;
      var left := waiters.Keys - {least};
      while left != {}
        invariant least in waiters && left <= waiters.Keys
        invariant forall id | id in waiters && id !in left :: least <= id
        decreases |left|
      {
        var id :| id in left;
        left := left - {id};
        if id < least {
          least := id;
        }
      }
      assert least in order && order[0] in waiters;
    }

    /** Takes out the waker at the front of the queue, if there is one. */
    method PopFirst() returns (waker: Option<W>)
      requires Valid()
      modifies this`waiters, this`order
      ensures Valid() && (waker.None? <==> old(Queue()) == []) && (waker.None? <==> old(waiters) == map[])
      ensures waker.None? ==> waiters == old(waiters) && order == old(order)
      ensures waker.Some? ==>
        && waker.value == old(Queue())[0] && Queue() == old(Queue())[1..]
        && order == old(order)[1..] && waiters == old(waiters) - {old(order)[0]}
    {
      if waiters == map[] {
        FirstIn(order);
        return None;
      }
      var id := LeastId();
      WithoutFirst(waiters, order);
      waker := Some(waiters[id]);
      waiters := waiters - {id};
      order := order[1..];
    }

    /** Empties the set and gives its wakers, front of the queue first. */
    method TakeAll() returns (wakers: seq<W>)
      requires Valid()
      modifies this`waiters, this`order
      ensures Valid() && wakers == old(Queue()) && waiters == map[] && order == []
    {
      hide Ascending, WakersOf;
      wakers := [];
      while waiters != map[]
        invariant Valid() && wakers + Queue() == old(Queue())
        decreases |order|
      {
        ghost var before := Queue();
        var first := PopFirst();
        assert before == [first.value] + Queue();
        wakers := wakers + [first.value];
      }
      FirstIn(order);
    }
  }
}
