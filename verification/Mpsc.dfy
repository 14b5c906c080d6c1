/** The channel as a protocol: each step is one critical section of a sender, of a
    receive future or of a drop, in any order.  There is one receiver, but it lends itself
    to any number of receive futures at a time. */
module Mpsc {
  import opened Common

  /** A receive future: whether it has ever registered a waker, and whether that waker has
      been called since the last poll; or, once finished, its result. */
  datatype Future<T> = Waiting(registered: bool, woken: bool) | Finished(registered: bool, result: Option<T>)

  /** The locked state, the futures whose wakers are registered (longest first), all live
      futures, and what has been accepted from senders and handed out so far. */
  datatype Channel<T> = Channel(
    data: seq<T>, senders: nat, recvGone: bool,
    queue: seq<nat>, futures: map<nat, Future<T>>,
    sent: seq<T>, received: seq<T>)
  {
    /** A poll now would finish. */
    predicate CanFinish() { data != [] || senders == 0 }

    predicate IsWaiting(f: nat) { f in futures && futures[f].Waiting? }

    /** Calls the longest registered waker, if any, and forgets it. */
    function WakeOne(): Channel<T> {
      if queue == [] then this else this.(queue := queue[1..], futures := Woken(futures, queue[..1]))
    }

    function WakeAll(): Channel<T> { this.(queue := [], futures := Woken(futures, queue)) }
  }

  /** Calling the wakers of some futures. */
  function Woken<T>(futures: map<nat, Future<T>>, called: seq<nat>): map<nat, Future<T>> {
    map f | f in futures ::
      if f in called && futures[f].Waiting? then Waiting(futures[f].registered, true) else futures[f]
  }

  function New<T>(): Channel<T> { Channel([], 1, false, [], map[], [], []) }

  datatype Step<T> =
    | Send(value: T)
    | CloneSender
    | DropSender
    | StartRecv(f: nat)
    | Poll(f: nat)
    | DropFuture(f: nat)
    | DropReceiver

  /** Senders act through a live handle; futures borrow the receiver. */
  predicate Enabled<T>(c: Channel<T>, st: Step<T>) {
    match st
    case Send(_) => c.senders > 0
    case CloneSender => c.senders > 0
    case DropSender => c.senders > 0
    case StartRecv(f) => f !in c.futures && !c.recvGone
    case Poll(f) => c.IsWaiting(f)
    case DropFuture(f) => f in c.futures
    case DropReceiver => c.futures == map[] && !c.recvGone
  }

  function Next<T>(c: Channel<T>, st: Step<T>): Channel<T>
    requires Enabled(c, st)
  {
    match st
    case Send(v) =>
      if c.recvGone then c else c.(data := c.data + [v], sent := c.sent + [v]).WakeOne()
    case CloneSender => c.(senders := c.senders + 1)
    case DropSender =>
      var d := c.(senders := c.senders - 1);
      if d.senders == 0 then d.WakeAll() else d
    case StartRecv(f) => c.(futures := c.futures[f := Waiting(false, false)])
    case Poll(f) =>
      var registered := c.futures[f].registered;
      if c.data != [] then
        c.(data := c.data[1..], received := c.received + [c.data[0]],
           futures := c.futures[f := Finished(registered, Some(c.data[0]))])
      else if c.senders == 0 then
        c.(futures := c.futures[f := Finished(registered, None)])
      else
        c.(queue := if registered then c.queue else c.queue + [f], futures := c.futures[f := Waiting(true, false)])
    case DropFuture(f) => c.(queue := Remove(c.queue, f), futures := c.futures - {f})
    case DropReceiver => c.(data := [], recvGone := true)
  }

  // ---------------------------------------------------------------- invariant

  /** Values come out in the order they went in, none lost while the receiver lives, and
      the end is told only when there is no sender and nothing left. */
  ghost predicate Fifo<T>(c: Channel<T>) {
    && c.received <= c.sent
    && (!c.recvGone ==> c.received + c.data == c.sent)
    && (c.recvGone ==> c.data == [] && c.futures == map[])
    && (forall f | f in c.futures && c.futures[f].Finished? && c.futures[f].result.None? ::
          c.senders == 0 && c.data == [])
  }

  /** The queue holds live futures that have registered and have not been woken since. */
  ghost predicate Queued<T>(c: Channel<T>) {
    && NoDuplicates(c.queue)
    && (forall f | f in c.queue :: f in c.futures && c.futures[f].registered)
    && (forall f | c.IsWaiting(f) && c.futures[f].woken :: c.futures[f].registered && f !in c.queue)
    && (c.senders == 0 ==> c.queue == [])
  }

  ghost predicate Inv<T>(c: Channel<T>) { Fifo(c) && Queued(c) }

  lemma SendKeepsInv<T>(c: Channel<T>, v: T)
    requires Inv(c) && c.senders > 0
    ensures Inv(Next(c, Send(v)))
  {
    assert c.received + (c.data + [v]) == (c.received + c.data) + [v];
    if c.queue != [] {
      assert c.queue == [c.queue[0]] + c.queue[1..];
      assert forall i | 0 <= i < |c.queue[1..]| :: c.queue[1..][i] == c.queue[i + 1];
    }
  }

  lemma PollKeepsInv<T>(c: Channel<T>, f: nat)
    requires Inv(c) && c.IsWaiting(f)
    ensures Inv(Next(c, Poll(f)))
  {
    if c.data != [] {
      assert c.received + c.data == (c.received + [c.data[0]]) + c.data[1..];
    }
  }

  lemma StepKeepsInv<T>(c: Channel<T>, st: Step<T>)
    requires Inv(c) && Enabled(c, st)
    ensures Inv(Next(c, st))
  {
    match st
    case Send(v) => SendKeepsInv(c, v);
    case Poll(f) => PollKeepsInv(c, f);
    case DropFuture(f) => RemoveOne(c.queue, f);
    case _ =>
  }

  // ------------------------------------------------------------------ lost wake-ups

  /** Waiting, registered once, and not woken since its last poll. */
  predicate Asleep<T>(c: Channel<T>, f: nat) {
    c.IsWaiting(f) && c.futures[f].registered && !c.futures[f].woken
  }

  /** Asleep with no waker in the set: no send will ever wake it. */
  predicate Stranded<T>(c: Channel<T>, f: nat) { Asleep(c, f) && f !in c.queue }

  /** A poll that finds nothing although the future's waker has been called: some other
      future took the value, and a future does not register twice. */
  predicate Strands<T>(c: Channel<T>, st: Step<T>, f: nat) {
    st == Poll(f) && c.IsWaiting(f) && c.futures[f].registered && f !in c.queue && !c.CanFinish()
  }

  /** A future is stranded exactly by such a poll; only its own drop, or a poll of its own
      that happens to find something, ends that. */
  lemma StrandedExactly<T>(c: Channel<T>, st: Step<T>, f: nat)
    requires Inv(c) && Enabled(c, st)
    ensures Stranded(Next(c, st), f) <==>
      || Strands(c, st, f)
      || (Stranded(c, f) && st != DropFuture(f) && !(st == Poll(f) && c.CanFinish()))
  {
    match st
    case Send(_) =>
      if !c.recvGone && c.queue != [] {
        assert c.queue == [c.queue[0]] + c.queue[1..];
      }
    case DropFuture(g) => RemoveOne(c.queue, g);
    case _ =>
  }

  /** With one future at a time, a waiting one that has registered is still registered and
      has nothing to do, or has been woken and can finish. */
  ghost predicate Solo<T>(c: Channel<T>) {
    && (forall f, g | f in c.futures && g in c.futures :: f == g)
    && (forall f | c.IsWaiting(f) && c.futures[f].registered ::
          if f in c.queue then !c.CanFinish() else c.CanFinish() && c.futures[f].woken)
  }

  lemma SoloStep<T>(c: Channel<T>, st: Step<T>)
    requires Inv(c) && Solo(c) && Enabled(c, st) && (st.StartRecv? ==> c.futures == map[])
    ensures Solo(Next(c, st))
  {
    match st
    case Send(_) =>
      if c.queue != [] {
        assert c.queue == [c.queue[0]] + c.queue[1..];
        assert forall i | 1 <= i < |c.queue| :: c.queue[i] in c.queue && c.queue[0] in c.queue;
      }
    case DropFuture(f) => RemoveOne(c.queue, f);
    case _ =>
  }

  /** The futures that have been woken and not polled since. */
  ghost function Awake<T>(c: Channel<T>): set<nat> {
    set f | f in c.futures && c.futures[f].Waiting? && c.futures[f].woken
  }

  /** While anyone is registered, every queued value has a woken future to come for it. */
  ghost predicate Covered<T>(c: Channel<T>) { c.queue != [] ==> |c.data| <= |Awake(c)| }

  /** A wake-up that no poll follows: the waker of a finished future is called, or a woken
      future is dropped before it is polled. */
  predicate Wasted<T>(c: Channel<T>, st: Step<T>) {
    match st
    case Send(_) => !c.recvGone && c.queue != [] && c.queue[0] in c.futures && c.futures[c.queue[0]].Finished?
    case DropFuture(f) => c.IsWaiting(f) && c.futures[f].woken
    case _ => false
  }

  lemma SendCovered<T>(c: Channel<T>, v: T)
    requires Inv(c) && Covered(c) && c.senders > 0 && !Wasted(c, Send(v))
    ensures Covered(Next(c, Send(v)))
  {
    if !c.recvGone && c.queue != [] {
      var d, g := Next(c, Send(v)), c.queue[0];
      assert g in c.queue && g !in Awake(c);
      assert Awake(d) == Awake(c) + {g};
    }
  }

  lemma PollCovered<T>(c: Channel<T>, f: nat)
    requires Inv(c) && Covered(c) && c.IsWaiting(f)
    ensures Covered(Next(c, Poll(f)))
  {
    if c.data != [] { assert Awake(Next(c, Poll(f))) == Awake(c) - {f}; }
  }

  lemma DropCovered<T>(c: Channel<T>, f: nat)
    requires Inv(c) && Covered(c) && f in c.futures && !Wasted(c, DropFuture(f))
    ensures Covered(Next(c, DropFuture(f)))
  {
    RemoveOne(c.queue, f);
    assert Awake(Next(c, DropFuture(f))) == Awake(c);
  }

  lemma CoveredStep<T>(c: Channel<T>, st: Step<T>)
    requires Inv(c) && Covered(c) && Enabled(c, st) && !Wasted(c, st)
    ensures Covered(Next(c, st))
  {
    match st
    case Send(v) => SendCovered(c, v);
    case Poll(f) => PollCovered(c, f);
    case DropFuture(f) => DropCovered(c, f);
    case StartRecv(_) => assert Awake(Next(c, st)) == Awake(c);
    case _ => SenderCovered(c, st);
  }

  lemma SenderCovered<T>(c: Channel<T>, st: Step<T>)
    requires Covered(c) && Enabled(c, st) && (st.CloneSender? || st.DropSender? || st.DropReceiver?)
    ensures Covered(Next(c, st))
  {
    assert Next(c, st).futures == c.futures ==> Awake(Next(c, st)) == Awake(c);
  }

  // --------------------------------------------------------------------- runs

  ghost predicate Legal<T>(c: Channel<T>, run: seq<Step<T>>)
    decreases |run|
  {
    run == [] || (Enabled(c, run[0]) && Legal(Next(c, run[0]), run[1..]))
  }

  ghost function Run<T>(c: Channel<T>, run: seq<Step<T>>): Channel<T>
    requires Legal(c, run)
    decreases |run|
  {
    if run == [] then c else Run(Next(c, run[0]), run[1..])
  }

  /** No future is started while another lives. */
  ghost predicate OneAtATime<T>(c: Channel<T>, run: seq<Step<T>>)
    requires Legal(c, run)
    decreases |run|
  {
    run == [] || ((run[0].StartRecv? ==> c.futures == map[]) && OneAtATime(Next(c, run[0]), run[1..]))
  }

  ghost predicate NoneWasted<T>(c: Channel<T>, run: seq<Step<T>>)
    requires Legal(c, run)
    decreases |run|
  {
    run == [] || (!Wasted(c, run[0]) && NoneWasted(Next(c, run[0]), run[1..]))
  }

  lemma {:induction false} RunKeepsInv<T>(c: Channel<T>, run: seq<Step<T>>)
    requires Inv(c) && Legal(c, run)
    ensures Inv(Run(c, run))
    ensures Solo(c) && OneAtATime(c, run) ==> Solo(Run(c, run))
    ensures Covered(c) && NoneWasted(c, run) ==> Covered(Run(c, run))
    decreases |run|
  {
    if run != [] {
      StepKeepsInv(c, run[0]);
      if Solo(c) && OneAtATime(c, run) { SoloStep(c, run[0]); }
      if Covered(c) && NoneWasted(c, run) { CoveredStep(c, run[0]); }
      RunKeepsInv(Next(c, run[0]), run[1..]);
    }
  }

  // What a run does, read off its steps and off what the futures are told.

  function Clones<T>(run: seq<Step<T>>): nat {
    if run == [] then 0 else (if run[0].CloneSender? then 1 else 0) + Clones(run[1..])
  }

  function Drops<T>(run: seq<Step<T>>): nat {
    if run == [] then 0 else (if run[0].DropSender? then 1 else 0) + Drops(run[1..])
  }

  /** The values sent before the receiver is dropped. */
  function Offered<T>(run: seq<Step<T>>): seq<T> {
    if run == [] || run[0].DropReceiver? then []
    else (if run[0].Send? then [run[0].value] else []) + Offered(run[1..])
  }

  /** The values that the polls of the run answer with. */
  ghost function Delivered<T>(c: Channel<T>, run: seq<Step<T>>): seq<T>
    requires Legal(c, run)
    decreases |run|
  {
    if run == [] then [] else Answer(Next(c, run[0]), run[0]) + Delivered(Next(c, run[0]), run[1..])
  }

  function Answer<T>(after: Channel<T>, st: Step<T>): seq<T> {
    if st.Poll? && st.f in after.futures && after.futures[st.f].Finished? && after.futures[st.f].result.Some?
    then [after.futures[st.f].result.value] else []
  }

  /** The counter is the number of handles: those there were and those cloned, without
      those dropped. */
  lemma {:induction false} SendersAreHandles<T>(c: Channel<T>, run: seq<Step<T>>)
    requires Legal(c, run)
    ensures Run(c, run).senders + Drops(run) == c.senders + Clones(run)
    decreases |run|
  {
    if run != [] { SendersAreHandles(Next(c, run[0]), run[1..]); }
  }

  lemma SentStep<T>(c: Channel<T>, st: Step<T>)
    requires Enabled(c, st)
    ensures var d := Next(c, st);
      && (d.recvGone <==> c.recvGone || st.DropReceiver?)
      && d.sent == c.sent + if st.Send? && !c.recvGone then [st.value] else []
  {
  }

  lemma RunFirst<T>(c: Channel<T>, run: seq<Step<T>>)
    requires Legal(c, run) && run != []
    ensures Enabled(c, run[0]) && Legal(Next(c, run[0]), run[1..]) && Run(c, run) == Run(Next(c, run[0]), run[1..])
  {
  }

  lemma OfferedFirst<T>(run: seq<Step<T>>)
    requires run != []
    ensures Offered(run) ==
      if run[0].DropReceiver? then [] else (if run[0].Send? then [run[0].value] else []) + Offered(run[1..])
  {
  }

  lemma Chain<T>(x: seq<T>, y: seq<T>, z: seq<T>)
    ensures x + y + z == x + (y + z) && x + [] == x && x + y + [] == x + y
  {
  }

  lemma {:induction false} SentIsOffered<T>(c: Channel<T>, run: seq<Step<T>>)
    requires Legal(c, run)
    ensures Run(c, run).sent == c.sent + if c.recvGone then [] else Offered(run)
    decreases |run|
  {
    if run != [] {
      hide Legal, Run, Next, Offered;
      RunFirst(c, run);
      OfferedFirst(run);
      var d, rest := Next(c, run[0]), run[1..];
      var now := if run[0].Send? then [run[0].value] else [];
      SentStep(c, run[0]);
      SentIsOffered(d, rest);
      Chain(c.sent, now, Offered(rest));
    }
  }

  lemma {:induction false} ReceivedIsDelivered<T>(c: Channel<T>, run: seq<Step<T>>)
    requires Legal(c, run)
    ensures Run(c, run).received == c.received + Delivered(c, run)
    decreases |run|
  {
    if run != [] {
      var d := Next(c, run[0]);
      assert d.received == c.received + Answer(d, run[0]);
      ReceivedIsDelivered(d, run[1..]);
    }
  }

  /** Over every interleaving of any number of futures: what the futures were told is a
      prefix of what was sent before the receiver went, in order; while the receiver lives
      the rest is queued; and a future has been told the end only if every handle ever made
      has been dropped, nothing is queued and everything sent has been told. */
  lemma ChannelSafety<T>(run: seq<Step<T>>)
    requires Legal(New<T>(), run)
    ensures var c, told := Run(New<T>(), run), Delivered(New<T>(), run);
      && told <= Offered(run) && (!c.recvGone ==> told + c.data == Offered(run))
      && Drops(run) <= 1 + Clones(run)
      && (forall f | f in c.futures && c.futures[f].Finished? && c.futures[f].result.None? ::
            Drops(run) == 1 + Clones(run) && c.data == [] && told == Offered(run))
  {
    var c := Run(New<T>(), run);
    RunKeepsInv(New<T>(), run);
    SendersAreHandles(New<T>(), run);
    SentIsOffered(New<T>(), run);
    ReceivedIsDelivered(New<T>(), run);
    assert c.sent == Offered(run) && c.received == Delivered(New<T>(), run);
  }

  /** A value that is accepted wakes the future registered longest, and the last sender to
      go wakes every registered one; nothing else wakes anybody. */
  lemma WakesExactly<T>(c: Channel<T>, st: Step<T>, f: nat)
    requires Enabled(c, st) && c.IsWaiting(f) && st != DropFuture(f)
    ensures !c.futures[f].woken ==>
      (f in Next(c, st).futures && Next(c, st).IsWaiting(f) && Next(c, st).futures[f].woken <==>
         || (st.Send? && !c.recvGone && c.queue != [] && c.queue[0] == f)
         || (st.DropSender? && c.senders == 1 && f in c.queue))
    ensures c.futures[f].woken && st != Poll(f) ==> Next(c, st).IsWaiting(f) && Next(c, st).futures[f].woken
  {
  }

  /** With one future at a time, as the name of the channel promises, nobody is ever
      stranded, and a future that is asleep is registered and has nothing to do. */
  lemma SingleConsumerNeverMisses<T>(run: seq<Step<T>>, f: nat)
    requires Legal(New<T>(), run) && OneAtATime(New<T>(), run) && Asleep(Run(New<T>(), run), f)
    ensures var c := Run(New<T>(), run); f in c.queue && c.data == [] && c.senders > 0
  {
    RunKeepsInv(New<T>(), run);
  }

  /** With any number of futures, if no wake-up is wasted, a future that is registered
      and asleep shares the channel with enough woken ones to take every queued value. */
  lemma QueuedValuesAreComeFor<T>(run: seq<Step<T>>, f: nat)
    requires Legal(New<T>(), run) && NoneWasted(New<T>(), run) && f in Run(New<T>(), run).queue
    ensures var c := Run(New<T>(), run); c.senders > 0 && |c.data| <= |Awake(c)|
  {
    RunKeepsInv(New<T>(), run);
  }

  lemma RunFrom<T>(c: Channel<T>, st: Step<T>, rest: seq<Step<T>>)
    requires Enabled(c, st) && Legal(Next(c, st), rest)
    ensures Legal(c, [st] + rest) && Run(c, [st] + rest) == Run(Next(c, st), rest)
  {
    assert ([st] + rest)[1..] == rest;
  }

  /** Two futures at a time: the second takes the value the first was woken for, and the
      first sleeps on through the next value although no future is left to take it. */
  lemma StolenWakeupExample<T>(v: T, w: T)
    ensures var run := [StartRecv(0), Poll(0), StartRecv(1), Send(v), Poll(1), Poll(0), Send(w)];
      && Legal(New<T>(), run)
      && var c := Run(New<T>(), run); Stranded(c, 0) && c.data == [w] && !c.IsWaiting(1)
  {
    hide Legal, Run;
    var run := [StartRecv(0), Poll(0), StartRecv(1), Send(v), Poll(1), Poll(0), Send(w)];
    var c0 := New<T>();
    var c1 := Next(c0, run[0]);
    var c2 := Next(c1, run[1]);
    var c3 := Next(c2, run[2]);
    assert run[3..] == [Send(v), Poll(1), Poll(0), Send(w)];
    StolenValue(c3, v, w);
    assert [run[2]] + run[3..] == run[2..] && [run[1]] + run[2..] == run[1..] && [run[0]] + run[1..] == run;
    RunFrom(c2, run[2], run[3..]);
    RunFrom(c1, run[1], run[2..]);
    RunFrom(c0, run[0], run[1..]);
  }

  lemma StolenValue<T>(c: Channel<T>, v: T, w: T)
    requires c.data == [] && c.senders > 0 && !c.recvGone && c.queue == [0]
    requires c.futures == map[0 := Waiting(true, false), 1 := Waiting(false, false)]
    ensures var run := [Send(v), Poll(1), Poll(0), Send(w)];
      Legal(c, run) && var d := Run(c, run); Stranded(d, 0) && d.data == [w] && !d.IsWaiting(1)
  {
    var c1 := Next(c, Send(v));
    var c2 := Next(c1, Poll(1));
    var c3 := Next(c2, Poll(0));
    RunFrom(c3, Send(w), []);
    RunFrom(c2, Poll(0), [Send(w)]);
    RunFrom(c1, Poll(1), [Poll(0), Send(w)]);
    RunFrom(c, Send(v), [Poll(1), Poll(0), Send(w)]);
  }
}
