/** The channel in place.  Wakers sit in a set under numbers, and a receive future knows
    its number and nothing else; each method is one step of `Mpsc`, where the set is a
    queue of futures and the numbers do not exist. */
module MpscChannel {
  import opened Common
  import opened Mpsc
  import opened WakerSets

  datatype PollResult<+T> = Pending | Ready(result: Option<T>)

  /** Every registered number belongs to the future it would wake, no two futures have had
      the same number, and a future has a number exactly if it has registered. */
  ghost predicate Linked<T>(tokens: map<nat, Option<nat>>, futures: map<nat, Future<T>>,
                            waiters: map<nat, nat>, nextId: nat) {
    && tokens.Keys == futures.Keys
    && (forall f | f in tokens :: tokens[f].Some? <==> futures[f].registered)
    && (forall f | f in tokens && tokens[f].Some? :: tokens[f].value < nextId)
    && (forall f, g | f in tokens && g in tokens && tokens[f].Some? && tokens[f] == tokens[g] :: f == g)
    && (forall id | id in waiters :: waiters[id] in tokens && tokens[waiters[id]] == Some(id))
  }

  lemma LinkedPut<T>(tokens: map<nat, Option<nat>>, futures: map<nat, Future<T>>,
                     waiters: map<nat, nat>, nextId: nat, f: nat)
    requires Linked(tokens, futures, waiters, nextId) && f in tokens && tokens[f].None?
    ensures Linked(tokens[f := Some(nextId)], futures[f := Waiting(true, false)], waiters[nextId := f], nextId + 1)
  {
  }

  /** What a first poll that finds nothing does, and that the numbers stay in step. */
  lemma FirstPend<T>(c: Channel<T>, tokens: map<nat, Option<nat>>, waiters: map<nat, nat>, nextId: nat, f: nat)
    requires Linked(tokens, c.futures, waiters, nextId) && f in tokens && tokens[f].None?
    requires f in c.futures && c.futures[f].Waiting? && c.data == [] && c.senders > 0
    ensures Next(c, Step.Poll(f)) == c.(queue := c.queue + [f], futures := c.futures[f := Waiting(true, false)])
    ensures Linked(tokens[f := Some(nextId)], c.futures[f := Waiting(true, false)], waiters[nextId := f], nextId + 1)
  {
    LinkedPut(tokens, c.futures, waiters, nextId, f);
  }

  lemma LinkedDrop<T>(tokens: map<nat, Option<nat>>, futures: map<nat, Future<T>>,
                      waiters: map<nat, nat>, fewer: map<nat, nat>, nextId: nat, f: nat)
    requires Linked(tokens, futures, waiters, nextId) && f in tokens
    requires fewer == if tokens[f].Some? then waiters - {tokens[f].value} else waiters
    ensures Linked(tokens - {f}, futures - {f}, fewer, nextId)
  {
  }

  /** A number in the set leads to one future, and only a registered future has one. */
  lemma LinkedIds<T>(tokens: map<nat, Option<nat>>, futures: map<nat, Future<T>>,
                     waiters: map<nat, nat>, nextId: nat, f: nat)
    requires Linked(tokens, futures, waiters, nextId) && f in tokens
    ensures f in futures && (tokens[f].None? ==> !futures[f].registered)
    ensures tokens[f].Some? ==> forall i | i in waiters :: waiters[i] == f <==> i == tokens[f].value
  {
  }

  /** Taking a future's number out of the set takes the future out of the queue. */
  lemma {:induction false} UnregisterRemoves(waiters: map<nat, nat>, ids: seq<nat>, id: nat, f: nat)
    requires Ascending(ids) && forall i | i in ids :: i in waiters && (waiters[i] == f <==> i == id)
    ensures forall i | i in Remove(ids, id) :: i in waiters - {id}
    ensures WakersOf(waiters - {id}, Remove(ids, id)) == Remove(WakersOf(waiters, ids), f)
  {
    hide Ascending;
    RemoveAscending(ids, id);
    if ids != [] {
      var x, rest := ids[0], ids[1..];
      assert ids == [x] + rest;
      WakersCons(waiters, x, rest);
      WithoutFirst(waiters, ids);
      if x == id {
        SameWakers(waiters, waiters - {id}, rest);
      } else {
        UnregisterRemoves(waiters, rest, id, f);
        WakersCons(waiters - {id}, x, Remove(rest, id));
      }
    }
  }

  lemma WakersCons(waiters: map<nat, nat>, x: nat, ids: seq<nat>)
    requires x in waiters && forall i | i in ids :: i in waiters
    ensures WakersOf(waiters, [x] + ids) == [waiters[x]] + WakersOf(waiters, ids)
  {
  }

  lemma SameWakers(waiters: map<nat, nat>, fewer: map<nat, nat>, ids: seq<nat>)
    requires forall i | i in ids :: i in waiters && i in fewer && waiters[i] == fewer[i]
    ensures WakersOf(fewer, ids) == WakersOf(waiters, ids)
  {
  }

  /** What the state before a poll says about its outcome. */
  lemma PollTells<T>(c: Channel<T>, f: nat)
    requires Inv(c) && c.IsWaiting(f)
    ensures c.received + c.data == c.sent
    ensures c.data != [] ==> |c.received| < |c.sent| && c.data[0] == c.sent[|c.received|]
    ensures c.data == [] ==> c.received == c.sent
  {
  }

  class Chan<T> {
    var data: seq<T>
    var senders: nat
    var recvGone: bool
    const wakers: WakerSet<nat>
    var tokens: map<nat, Option<nat>>
    ghost var futures: map<nat, Future<T>>
    ghost var sent: seq<T>
    ghost var received: seq<T>

    ghost function Abs(): Channel<T>
      reads this, wakers
      requires wakers.Valid()
    {
      Channel(data, senders, recvGone, wakers.Queue(), futures, sent, received)
    }

    ghost predicate Valid()
      reads this, wakers
    {
      wakers.Valid() && Inv(Abs()) && Linked(tokens, futures, wakers.waiters, wakers.nextId)
    }

    constructor ()
      ensures Valid() && fresh(wakers) && Abs() == New()
    {
      data, senders, recvGone, tokens := [], 1, false, map[];
      futures, sent, received := map[], [], [];
      wakers := new WakerSet<nat>();
    }

    /** Wakes the future that has been registered longest. */
    method WakeOne()
      requires wakers.Valid() && Linked(tokens, futures, wakers.waiters, wakers.nextId)
      modifies this`futures, wakers
      ensures wakers.Valid() && Linked(tokens, futures, wakers.waiters, wakers.nextId)
      ensures Abs() == old(Abs()).WakeOne()
    {
      var first := wakers.PopFirst();
      if first.Some? {
        assert old(wakers.Queue())[..1] == [first.value];
        futures := Woken(futures, [first.value]);
      }
    }

    /** Empties the waker set, then calls every waker it held. */
    method WakeAll()
      requires wakers.Valid() && Linked(tokens, futures, wakers.waiters, wakers.nextId)
      modifies this`futures, wakers
      ensures wakers.Valid() && Linked(tokens, futures, wakers.waiters, wakers.nextId)
      ensures Abs() == old(Abs()).WakeAll()
    {
      var all := wakers.TakeAll();
      futures := Woken(futures, all);
    }

    /** The value joins the back of the queue, unless the receiver is gone. */
    method Send(value: T)
      requires Valid() && senders > 0
      modifies this, wakers
      ensures Valid() && Abs() == Next(old(Abs()), Step.Send(value))
      ensures sent == if old(recvGone) then old(sent) else old(sent) + [value]
    {
      StepKeepsInv(Abs(), Step.Send(value));
      if recvGone {
        return;
      }
      data := data + [value];
      sent := sent + [value];
      WakeOne();
    }

    method CloneSender()
      requires Valid() && senders > 0
      modifies this`senders
      ensures Valid() && Abs() == Next(old(Abs()), Step.CloneSender) && senders == old(senders) + 1
    {
      StepKeepsInv(Abs(), Step.CloneSender);
      senders := senders + 1;
    }

    /** The last sender to go wakes every future. */
    method DropSender()
      requires Valid() && senders > 0
      modifies this, wakers
      ensures Valid() && Abs() == Next(old(Abs()), Step.DropSender) && senders == old(senders) - 1
      ensures senders == 0 ==> forall f | f in futures :: !Asleep(Abs(), f) || Stranded(old(Abs()), f)
    {
      StepKeepsInv(Abs(), Step.DropSender);
      senders := senders - 1;
      if senders == 0 {
        WakeAll();
      }
    }

    method StartRecv(f: nat)
      requires Valid() && f !in tokens && !recvGone
      modifies this`tokens, this`futures
      ensures Valid() && Abs() == Next(old(Abs()), Step.StartRecv(f))
    {
      StepKeepsInv(Abs(), Step.StartRecv(f));
      tokens := tokens[f := None];
      futures := futures[f := Waiting(false, false)];
    }

    /** Polls a receive future.  A value is the oldest one sent and not yet received; the
        end comes only when no sender is left and everything sent has been received; and
        it pends only when neither is to be had, with the future registered by then. */
    method Poll(f: nat) returns (r: PollResult<T>)
      requires Valid() && f in tokens && futures[f].Waiting?
      modifies this, wakers
      ensures Valid() && Abs() == Next(old(Abs()), Step.Poll(f))
      ensures r.Pending? <==> !old(Abs()).CanFinish()
      ensures r.Ready? && r.result.Some? ==>
        && |old(received)| < |sent| && r.result.value == sent[|old(received)|]
        && received == old(received) + [r.result.value]
      ensures r == Ready(None) ==> senders == 0 && received == sent
      ensures r.Pending? ==> tokens[f].Some?
    {
      hide Inv;
      PollTells(Abs(), f);
      if data != [] {
        var v := Deliver(f);
        r := Ready(Some(v));
      } else if senders == 0 {
        TellEnd(f);
        r := Ready(None);
      } else {
        Pend(f);
        r := Pending;
      }
    }

    method Deliver(f: nat) returns (v: T)
      requires Valid() && f in tokens && futures[f].Waiting? && data != []
      modifies this`data, this`futures, this`received
      ensures Valid() && Abs() == Next(old(Abs()), Step.Poll(f)) && v == old(data)[0]
    {
      hide Inv;
      StepKeepsInv(Abs(), Step.Poll(f));
      v := data[0];
      futures := futures[f := Finished(futures[f].registered, Some(v))];
      received := received + [v];
      data := data[1..];
    }

    method TellEnd(f: nat)
      requires Valid() && f in tokens && futures[f].Waiting? && data == [] && senders == 0
      modifies this`futures
      ensures Valid() && Abs() == Next(old(Abs()), Step.Poll(f))
    {
      hide Inv;
      StepKeepsInv(Abs(), Step.Poll(f));
      futures := futures[f := Finished(futures[f].registered, None)];
    }

    /** Registers the future's waker, unless it did so in an earlier poll. */
    method Pend(f: nat)
      requires Valid() && f in tokens && futures[f].Waiting? && data == [] && senders > 0
      modifies this`tokens, this`futures, wakers
      ensures Valid() && Abs() == Next(old(Abs()), Step.Poll(f)) && f in tokens && tokens[f].Some?
    {
      hide Inv, WakersOf;
      if tokens[f].None? {
        PendFirst(f);
      } else {
        StepKeepsInv(Abs(), Step.Poll(f));
        futures := futures[f := Waiting(true, false)];
      }
    }

    method PendFirst(f: nat)
      requires Valid() && f in tokens && futures[f].Waiting? && data == [] && senders > 0 && tokens[f].None?
      modifies this`tokens, this`futures, wakers
      ensures Valid() && Abs() == Next(old(Abs()), Step.Poll(f)) && f in tokens && tokens[f].Some?
    {
      hide Inv, WakersOf, Next, Linked;
      LinkedIds(tokens, futures, wakers.waiters, wakers.nextId, f);
      FirstPend(Abs(), tokens, wakers.waiters, wakers.nextId, f);
      StepKeepsInv(Abs(), Step.Poll(f));
      var id := wakers.Register(f);
      tokens := tokens[f := Some(id)];
      futures := futures[f := Waiting(true, false)];
    }

    /** Dropping a future, finished or not, takes its waker out of the set. */
    method DropFuture(f: nat)
      requires Valid() && f in tokens
      modifies this`tokens, this`futures, wakers
      ensures Valid() && Abs() == Next(old(Abs()), Step.DropFuture(f))
    {
      hide Inv, WakersOf, Ascending, Linked, Remove;
      LinkedIds(tokens, futures, wakers.waiters, wakers.nextId, f);
      NotQueued(Abs(), f);
      StepKeepsInv(Abs(), Step.DropFuture(f));
      ForgetWaker(f);
      LinkedDrop(tokens, futures, old(wakers.waiters), wakers.waiters, wakers.nextId, f);
      tokens := tokens - {f};
      futures := futures - {f};
    }

    /** Takes the future's waker out of the set, if it ever registered. */
    method ForgetWaker(f: nat)
      requires wakers.Valid() && f in tokens
      requires tokens[f].None? ==> f !in wakers.Queue()
      requires tokens[f].Some? ==> forall i | i in wakers.waiters :: wakers.waiters[i] == f <==> i == tokens[f].value
      modifies wakers
      ensures wakers.Valid() && wakers.nextId == old(wakers.nextId)
      ensures wakers.Queue() == Remove(old(wakers.Queue()), f)
      ensures wakers.waiters ==
        if tokens[f].Some? then old(wakers.waiters) - {tokens[f].value} else old(wakers.waiters)
    {
      hide Ascending, WakersOf;
      if tokens[f].Some? {
        UnregisterRemoves(wakers.waiters, wakers.order, tokens[f].value, f);
        wakers.Unregister(tokens[f].value);
      } else {
        RemoveAbsent(wakers.Queue(), f);
      }
    }

    method DropReceiver()
      requires Valid() && tokens == map[] && !recvGone
      modifies this`data, this`recvGone
      ensures Valid() && Abs() == Next(old(Abs()), Step.DropReceiver)
    {
      assert futures == map[] by { assert futures.Keys == {}; }
      StepKeepsInv(Abs(), Step.DropReceiver);
      data := [];
      recvGone := true;
    }
  }

  lemma NotQueued<T>(c: Channel<T>, f: nat)
    requires Inv(c) && f in c.futures
    ensures !c.futures[f].registered ==> f !in c.queue
  {
  }

  lemma {:induction false} RemoveAbsent(l: seq<nat>, x: nat)
    requires x !in l
    ensures Remove(l, x) == l
  {
    if l != [] { RemoveAbsent(l[1..], x); }
  }
}
