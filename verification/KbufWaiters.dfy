/** One side of a kernel ring as a protocol: the readers, who wait for elements, or the
    writers, who wait for free slots.  Whoever finds none registers its task and sleeps;
    whoever supplies some wakes the task registered longest.  A waiting future registers
    once and takes its registration back when it is dropped.  A splice registers again at
    every poll that finds this side short, and takes nothing back. */
module KbufWaiters {
  import opened Common

  /** A registration: its number, the task it wakes, and whether a splice made it. */
  datatype Entry = Entry(id: nat, task: nat, splice: bool)

  /** What a task has to do with this side: its future waits, for something or, with an
      empty buffer, for nothing, and knows the number of its registration; it waits as a
      splice, which knows whether its last poll found this side short; or its future has
      been served and is still to be dropped. */
  datatype Wait =
    | Waiter(wants: bool, token: Option<nat>, woken: bool)
    | Splice(blocked: bool, woken: bool)
    | Served(token: Option<nat>)
  {
    predicate Waiting() { !Served? }

    function Wake(): Wait { if Waiting() then this.(woken := true) else this }

    function Token(): Option<nat> { if Splice? then None else token }
  }

  /** The number of elements or free slots, the registrations in order, the tasks that deal
      with this side, and the next number. */
  datatype Side = Side(stock: nat, queue: seq<Entry>, tasks: map<nat, Wait>, nextId: nat) {

    predicate Waits(a: nat) { a in tasks && tasks[a].Waiting() }

    predicate Awake(a: nat) { Waits(a) && tasks[a].woken }

    predicate Asleep(a: nat) { Waits(a) && !tasks[a].woken }

    function Wake(a: nat): Side { if a in tasks then this.(tasks := tasks[a := tasks[a].Wake()]) else this }

    function WakeOne(): Side {
      if queue == [] then this else this.(queue := queue[1..]).Wake(queue[0].task)
    }

    function WakeIf(pass: bool): Side { if pass then WakeOne() else this }

    function SetTask(a: nat, w: Wait): Side { this.(tasks := tasks[a := w]) }

    function Register(a: nat, splice: bool): Side {
      this.(queue := queue + [Entry(nextId, a, splice)], nextId := nextId + 1)
    }

    function Deregister(token: Option<nat>): Side {
      if token.Some? then this.(queue := WithoutId(queue, token.value)) else this
    }
  }

  /** The registrations without the one of the given number. */
  function WithoutId(queue: seq<Entry>, id: nat): seq<Entry> {
    if queue == [] then []
    else if queue[0].id == id then queue[1..]
    else [queue[0]] + WithoutId(queue[1..], id)
  }

  function New(): Side { Side(0, [], map[], 0) }

  datatype Step =
    | Supply(n: nat)
    | Use(n: nat)
    | Start(a: nat, wants: bool)
    | Serve(a: nat, n: nat, pass: bool)
    | Pend(a: nat, pass: bool)
    | Drop(a: nat)
    | StartSplice(a: nat)
    | SpliceMoves(a: nat, n: nat)
    | SpliceBlocks(a: nat)
    | SpliceStalls(a: nat)
    | DropSplice(a: nat)
    | WakeElsewhere(a: nat)

  /** Any future may be polled at any time, woken or not.  The poll of a waiting future
      serves it, or leaves it pending when there is nothing or it wants nothing; a writer
      that leaves room wakes the next one, `pass`.  A poll of a splice moves something, or
      finds this side short, or finds only its other ring short. */
  predicate Enabled(s: Side, st: Step) {
    match st
    case Supply(n) => n > 0
    case Use(n) => 0 < n <= s.stock
    case Start(a, _) => a !in s.tasks
    case Serve(a, n, pass) =>
      a in s.tasks && s.tasks[a].Waiter? && s.tasks[a].wants && s.stock > 0 && n <= s.stock && (pass ==> n < s.stock)
    case Pend(a, pass) =>
      a in s.tasks && s.tasks[a].Waiter? && (s.tasks[a].wants ==> s.stock == 0) && (pass ==> s.stock > 0)
    case Drop(a) => a in s.tasks && !s.tasks[a].Splice?
    case StartSplice(a) => a !in s.tasks
    case SpliceMoves(a, n) => a in s.tasks && s.tasks[a].Splice? && 0 < n <= s.stock
    case SpliceBlocks(a) => a in s.tasks && s.tasks[a].Splice? && s.stock == 0
    case SpliceStalls(a) => a in s.tasks && s.tasks[a].Splice? && s.stock > 0
    case DropSplice(a) => a in s.tasks && s.tasks[a].Splice?
    case WakeElsewhere(a) => a in s.tasks
  }

  function Next(s: Side, st: Step): Side
    requires Enabled(s, st)
  {
    match st
    case Supply(n) => s.(stock := s.stock + n).WakeOne()
    case Use(n) => s.(stock := s.stock - n)
    case Start(a, wants) => s.SetTask(a, Waiter(wants, None, false))
    case Serve(a, n, pass) => s.(stock := s.stock - n).WakeIf(pass).SetTask(a, Served(s.tasks[a].token))
    case Pend(a, pass) =>
      var Waiter(wants, token, _) := s.tasks[a];
      if token.Some? then s.WakeIf(pass).SetTask(a, Waiter(wants, token, false))
      else s.WakeIf(pass).Register(a, false).SetTask(a, Waiter(wants, Some(s.nextId), false))
    case Drop(a) => s.Deregister(s.tasks[a].token).(tasks := s.tasks - {a})
    case StartSplice(a) => s.SetTask(a, Splice(false, false))
    case SpliceMoves(a, n) => s.(stock := s.stock - n, tasks := s.tasks - {a})
    case SpliceBlocks(a) => s.Register(a, true).SetTask(a, Splice(true, false))
    case SpliceStalls(a) => s.SetTask(a, Splice(false, false))
    case DropSplice(a) => s.(tasks := s.tasks - {a})
    case WakeElsewhere(a) => s.Wake(a)
  }

  /** The step takes the front registration out. */
  predicate Pops(st: Step) { st.Supply? || ((st.Serve? || st.Pend?) && st.pass) }

  // ---------------------------------------------------------------- invariant

  /** Registrations are numbered in order. */
  ghost predicate Ascending(queue: seq<Entry>) { forall i, j | 0 <= i < j < |queue| :: queue[i].id < queue[j].id }

  /** Some registration of `a` is in the queue. */
  ghost predicate Queued(s: Side, a: nat) { exists e :: e in s.queue && e.task == a }

  /** A waiting future's registration is known to it for as long as it is in the queue. */
  ghost predicate EntryOk(s: Side, e: Entry) {
    e in s.queue ==>
      e.id < s.nextId && (!e.splice ==> e.task in s.tasks && s.tasks[e.task].Token() == Some(e.id))
  }

  /** The number a task knows is in the queue only as its own. */
  ghost predicate TokenOk(s: Side, a: nat) {
    a in s.tasks && s.tasks[a].Token().Some? ==>
      && s.tasks[a].Token().value < s.nextId
      && forall e | e in s.queue && e.id == s.tasks[a].Token().value :: !e.splice && e.task == a
  }

  /** A splice that found this side short is in the queue or has been woken. */
  ghost predicate SpliceOk(s: Side, a: nat) {
    a in s.tasks && s.tasks[a].Splice? && s.tasks[a].blocked && !s.tasks[a].woken ==> Queued(s, a)
  }

  ghost predicate Inv(s: Side) {
    && Ascending(s.queue) && (forall e: Entry :: EntryOk(s, e))
    && (forall a: nat :: TokenOk(s, a)) && (forall a: nat :: SpliceOk(s, a))
  }

  lemma {:induction false} WithoutIdSpec(queue: seq<Entry>, id: nat)
    requires Ascending(queue)
    ensures Ascending(WithoutId(queue, id))
    ensures forall e :: e in WithoutId(queue, id) <==> e in queue && e.id != id
  {
    if queue != [] {
      AscendingTail(queue);
      assert queue == [queue[0]] + queue[1..];
      WithoutIdSpec(queue[1..], id);
      if queue[0].id != id { AscendingCons(queue[0], WithoutId(queue[1..], id)); }
    }
  }

  lemma AscendingTail(queue: seq<Entry>)
    requires Ascending(queue) && queue != []
    ensures Ascending(queue[1..]) && forall e | e in queue[1..] :: queue[0].id < e.id
  {
    assert forall i | 0 <= i < |queue[1..]| :: queue[1..][i] == queue[i + 1];
  }

  lemma AscendingCons(e: Entry, rest: seq<Entry>)
    requires Ascending(rest) && forall d | d in rest :: e.id < d.id
    ensures Ascending([e] + rest)
  {
    assert forall i | 0 <= i < |rest| :: rest[i] in rest;
  }

  lemma AscendingSnoc(queue: seq<Entry>, e: Entry)
    requires Ascending(queue) && forall d | d in queue :: d.id < e.id
    ensures Ascending(queue + [e])
  {
    assert forall i | 0 <= i < |queue| :: queue[i] in queue;
  }

  /** Waking the front: its registration goes, and nobody's number changes. */
  lemma WakeOneKeepsInv(s: Side)
    requires Inv(s)
    ensures Inv(s.WakeOne())
    ensures forall e :: e in s.WakeOne().queue <==> e in s.queue && e != s.queue[0]
  {
    var u := s.WakeOne();
    if s.queue != [] {
      AscendingTail(s.queue);
      assert s.queue == [s.queue[0]] + u.queue;
      forall e: Entry ensures EntryOk(u, e) { assert EntryOk(s, e); }
      forall a: nat ensures TokenOk(u, a) { assert TokenOk(s, a); }
      forall a: nat ensures SpliceOk(u, a) { WokenOrQueued(s, a); }
    }
  }

  lemma WokenOrQueued(s: Side, a: nat)
    requires SpliceOk(s, a)
    ensures SpliceOk(s.WakeOne(), a)
  {
    if s.queue != [] && Queued(s, a) && s.queue[0].task != a {
      var e :| e in s.queue && e.task == a;
      assert s.queue == [s.queue[0]] + s.queue[1..];
      assert e in s.WakeOne().queue;
    }
  }

  /** A writer that passes the wake-up on does so first. */
  lemma PassFirst(s: Side, st: Step)
    requires Enabled(s, st) && (st.Serve? || st.Pend?) && st.pass
    ensures Enabled(s.WakeOne(), st.(pass := false))
    ensures Next(s, st) == Next(s.WakeOne(), st.(pass := false))
  {
  }

  /** The queue after a step that pops nothing. */
  lemma QueueStep(s: Side, st: Step)
    requires Inv(s) && Enabled(s, st) && !Pops(st)
    ensures var u := Next(s, st); Ascending(u.queue) && s.nextId <= u.nextId
    ensures st.Drop? ==> forall e :: e in Next(s, st).queue <==> e in s.queue && Some(e.id) != s.tasks[st.a].token
    ensures !st.Drop? ==> s.queue <= Next(s, st).queue
    ensures forall e | e in Next(s, st).queue && e !in s.queue :: e.id == s.nextId
  {
    match st
    case Pend(a, _) => RegisterAscends(s, a, false);
    case SpliceBlocks(a) => RegisterAscends(s, a, true);
    case Drop(a) => if s.tasks[a].token.Some? { WithoutIdSpec(s.queue, s.tasks[a].token.value); }
    case _ =>
  }

  lemma RegisterAscends(s: Side, a: nat, splice: bool)
    requires Inv(s)
    ensures Ascending(s.Register(a, splice).queue)
  {
    forall e | e in s.queue ensures e.id < s.nextId { assert EntryOk(s, e); }
    AscendingSnoc(s.queue, Entry(s.nextId, a, splice));
  }

  lemma EntryStep(s: Side, st: Step, e: Entry)
    requires Inv(s) && Enabled(s, st) && !Pops(st)
    ensures EntryOk(Next(s, st), e)
  {
    QueueStep(s, st);
    assert EntryOk(s, e);
    hide TokenOk, SpliceOk, Ascending;
  }

  lemma TokenStep(s: Side, st: Step, a: nat)
    requires Inv(s) && Enabled(s, st) && !Pops(st)
    ensures TokenOk(Next(s, st), a)
  {
    QueueStep(s, st);
    assert TokenOk(s, a);
    forall e | e in s.queue ensures e.id < s.nextId { assert EntryOk(s, e); }
    hide EntryOk, SpliceOk, Ascending;
  }

  /** Without a pop, only a future that is dropped takes a registration out, its own. */
  lemma PlainLeaves(s: Side, st: Step, e: Entry)
    requires Inv(s) && Enabled(s, st) && !Pops(st) && e in s.queue
    ensures e !in Next(s, st).queue <==> st.Drop? && !e.splice && st.a == e.task
  {
    QueueStep(s, st);
    assert EntryOk(s, e) && (st.Drop? ==> TokenOk(s, st.a));
    hide SpliceOk, Ascending;
  }

  lemma SpliceStep(s: Side, st: Step, a: nat)
    requires Inv(s) && Enabled(s, st) && !Pops(st)
    ensures SpliceOk(Next(s, st), a)
  {
    var u := Next(s, st);
    if a in u.tasks && u.tasks[a].Splice? && u.tasks[a].blocked && !u.tasks[a].woken {
      if st == SpliceBlocks(a) {
        assert u.queue[|s.queue|].task == a;
      } else {
        assert SpliceOk(s, a) && s.tasks[a] == u.tasks[a];
        var e :| e in s.queue && e.task == a;
        PlainLeaves(s, st, e);
        hide EntryOk, TokenOk, Ascending;
        assert e in u.queue;
      }
    }
  }

  lemma PlainKeepsInv(s: Side, st: Step)
    requires Inv(s) && Enabled(s, st) && !Pops(st)
    ensures Inv(Next(s, st))
  {
    QueueStep(s, st);
    forall e: Entry ensures EntryOk(Next(s, st), e) { EntryStep(s, st, e); }
    forall a: nat ensures TokenOk(Next(s, st), a) { TokenStep(s, st, a); }
    forall a: nat ensures SpliceOk(Next(s, st), a) { SpliceStep(s, st, a); }
  }

  /** The stock is no part of it. */
  lemma StockKeepsInv(s: Side, t: Side)
    requires Inv(s) && t == s.(stock := t.stock)
    ensures Inv(t)
  {
    forall e: Entry ensures EntryOk(t, e) { assert EntryOk(s, e); }
    forall a: nat ensures TokenOk(t, a) { assert TokenOk(s, a); }
    forall a: nat ensures SpliceOk(t, a) { assert SpliceOk(s, a); }
  }

  /** Every step of anybody keeps the registrations in order: in particular a splice that
      found this side short stays registered until it is woken. */
  lemma StepKeepsInv(s: Side, st: Step)
    requires Inv(s) && Enabled(s, st)
    ensures Inv(Next(s, st))
  {
    hide Inv;
    if st.Supply? {
      StockKeepsInv(s, s.(stock := s.stock + st.n));
      WakeOneKeepsInv(s.(stock := s.stock + st.n));
    } else if Pops(st) {
      PassFirst(s, st);
      WakeOneKeepsInv(s);
      PlainKeepsInv(s.WakeOne(), st.(pass := false));
    } else {
      PlainKeepsInv(s, st);
    }
  }

  // ----------------------------------------------------------- who a wake-up reaches

  /** Somebody is registered, and yet the next wake-up reaches nobody that waits. */
  predicate Swallows(s: Side) { s.queue != [] && !s.Waits(s.queue[0].task) }

  /** A wake-up reaches the waiting task of the front registration and nobody else. */
  lemma WakeReaches(s: Side, a: nat)
    ensures var u := s.WakeOne();
      && (u.Waits(a) <==> s.Waits(a))
      && (u.Awake(a) <==> s.Awake(a) || (s.Waits(a) && s.queue != [] && s.queue[0].task == a))
  {
  }

  /** A wake-up is swallowed exactly if the front registration is that of a splice whose task
      waits here no more, or that of a future which has been served and is not dropped. */
  lemma SwallowsIff(s: Side)
    requires Inv(s)
    ensures Swallows(s) <==>
      && s.queue != []
      && var e := s.queue[0];
         if e.splice then !s.Waits(e.task) else e.task in s.tasks && s.tasks[e.task].Served?
  {
    if s.queue != [] { assert EntryOk(s, s.queue[0]); }
  }

  /** A registration leaves the queue by being popped; that of a waiting future, also by the
      drop of the future; that of a splice, in no other way. */
  lemma EntryLeaves(s: Side, st: Step, e: Entry)
    requires Inv(s) && Enabled(s, st) && e in s.queue
    ensures e !in Next(s, st).queue <==>
      (Pops(st) && e == s.queue[0]) || (st.Drop? && !e.splice && st.a == e.task)
  {
    if st.Supply? {
      var t := s.(stock := s.stock + st.n);
      StockKeepsInv(s, t);
      WakeOneKeepsInv(t);
    } else if Pops(st) {
      PassFirst(s, st);
      WakeOneKeepsInv(s);
      assert EntryOk(s, e);
      hide EntryOk, TokenOk, SpliceOk, Ascending;
      QueueStep(s.WakeOne(), st.(pass := false));
      if e in s.WakeOne().queue { PlainLeaves(s.WakeOne(), st.(pass := false), e); }
    } else {
      PlainLeaves(s, st, e);
    }
  }

  /** A pending poll leaves its future asleep; the first one puts its task at the back of the
      queue, and later ones register nothing.  A splice registers at every poll that finds
      this side short. */
  lemma PollRegisters(s: Side, st: Step)
    requires Enabled(s, st) && (st.Pend? || st.SpliceBlocks?)
    ensures var u, rest := Next(s, st), s.WakeIf(st.Pend? && st.pass).queue;
      && u.Asleep(st.a) && u.stock == s.stock
      && (u.queue == if st.Pend? && s.tasks[st.a].token.Some? then rest
                     else rest + [Entry(s.nextId, st.a, st.SpliceBlocks?)])
      && (st.Pend? ==> u.tasks[st.a].Waiter? && u.tasks[st.a].token.Some?)
  {
  }

  /** The step ends the wait of `a`. */
  predicate Ends(st: Step, a: nat) {
    match st
    case Serve(b, _, _) => a == b
    case Drop(b) => a == b
    case SpliceMoves(b, _) => a == b
    case DropSplice(b) => a == b
    case _ => false
  }

  predicate Starts(st: Step, a: nat) { (st.Start? || st.StartSplice?) && st.a == a }

  lemma WaitsAfter(s: Side, st: Step, a: nat)
    requires Enabled(s, st) && !Pops(st)
    ensures !Next(s, st).Waits(a) <==> Ends(st, a) || (!s.Waits(a) && !Starts(st, a))
  {
  }

  /** A registration turns useless exactly when the wait of its task ends with it in the
      queue, and of use again exactly when the task waits here once more. */
  lemma UselessExactly(s: Side, st: Step, e: Entry)
    requires Enabled(s, st) && e in s.queue && e in Next(s, st).queue
    ensures !Next(s, st).Waits(e.task) <==> Ends(st, e.task) || (!s.Waits(e.task) && !Starts(st, e.task))
  {
    if st.Supply? {
      WakeReaches(s.(stock := s.stock + st.n), e.task);
    } else if Pops(st) {
      PassFirst(s, st);
      WakeReaches(s, e.task);
      WaitsAfter(s.WakeOne(), st.(pass := false), e.task);
    } else {
      WaitsAfter(s, st, e.task);
    }
  }

  // --------------------------------------------------------------------------- runs

  ghost predicate Legal(s: Side, run: seq<Step>)
    decreases |run|
  {
    run == [] || (Enabled(s, run[0]) && Legal(Next(s, run[0]), run[1..]))
  }

  ghost function Run(s: Side, run: seq<Step>): Side
    requires Legal(s, run)
    decreases |run|
  {
    if run == [] then s else Run(Next(s, run[0]), run[1..])
  }

  /** In the run, a wake-up takes `e` out. */
  ghost predicate PoppedIn(s: Side, run: seq<Step>, e: Entry)
    requires Legal(s, run)
    decreases |run|
  {
    run != [] && ((Pops(run[0]) && s.queue != [] && s.queue[0] == e) || PoppedIn(Next(s, run[0]), run[1..], e))
  }

  lemma {:induction false} RunKeepsInv(s: Side, run: seq<Step>)
    requires Inv(s) && Legal(s, run)
    ensures Inv(Run(s, run))
    decreases |run|
  {
    if run != [] {
      StepKeepsInv(s, run[0]);
      RunKeepsInv(Next(s, run[0]), run[1..]);
    }
  }

  /** A number is not used twice. */
  lemma NewNumbers(s: Side, st: Step, e: Entry)
    requires Inv(s) && Enabled(s, st)
    ensures s.nextId <= Next(s, st).nextId
    ensures e in Next(s, st).queue && e !in s.queue ==> e.id >= s.nextId
  {
    if st.Supply? {
      var t := s.(stock := s.stock + st.n);
      StockKeepsInv(s, t);
      WakeOneKeepsInv(t);
    } else if Pops(st) {
      PassFirst(s, st);
      WakeOneKeepsInv(s);
      hide EntryOk, TokenOk, SpliceOk, Ascending;
      QueueStep(s.WakeOne(), st.(pass := false));
    } else {
      QueueStep(s, st);
    }
  }

  lemma {:induction false} GoneForGood(s: Side, run: seq<Step>, e: Entry)
    requires Inv(s) && Legal(s, run) && e !in s.queue && e.id < s.nextId
    ensures e !in Run(s, run).queue && !PoppedIn(s, run, e)
    decreases |run|
  {
    if run != [] {
      StepKeepsInv(s, run[0]);
      NewNumbers(s, run[0], e);
      GoneForGood(Next(s, run[0]), run[1..], e);
    }
  }

  /** Over every run and interleaving, the registration of a splice stays until a wake-up
      takes it out, whatever becomes of the splice. */
  lemma {:induction false} SpliceEntryStays(s: Side, run: seq<Step>, e: Entry)
    requires Inv(s) && Legal(s, run) && e in s.queue && e.splice
    ensures e in Run(s, run).queue <==> !PoppedIn(s, run, e)
    decreases |run|
  {
    if run != [] {
      var t := Next(s, run[0]);
      StepKeepsInv(s, run[0]);
      EntryLeaves(s, run[0], e);
      if e in t.queue {
        SpliceEntryStays(t, run[1..], e);
      } else {
        NewNumbers(s, run[0], e);
        assert EntryOk(s, e);
        GoneForGood(t, run[1..], e);
      }
    }
  }

  /** One of the first `k` registrations is of task `a`. */
  ghost predicate Among(queue: seq<Entry>, k: nat, a: nat)
    requires k <= |queue|
  {
    exists i :: 0 <= i < k && queue[i].task == a
  }

  lemma AmongNext(queue: seq<Entry>, k: nat, a: nat)
    requires k < |queue|
    ensures Among(queue, k + 1, a) <==> queue[0].task == a || Among(queue[1..], k, a)
    ensures queue[1..][k..] == queue[k + 1..]
  {
    if i :| 0 <= i < k + 1 && queue[i].task == a {
      if i > 0 { assert queue[1..][i - 1].task == a; }
    }
    if i :| 0 <= i < k && queue[1..][i].task == a { assert queue[i + 1].task == a; }
  }

  ghost predicate AllSupply(run: seq<Step>) { forall st | st in run :: st.Supply? }

  /** Supplies in a row wake exactly the waiting tasks of as many registrations from the
      front, so each useless one there costs a wake-up. */
  lemma {:induction false} SuppliesReach(s: Side, run: seq<Step>, a: nat)
    requires Legal(s, run) && AllSupply(run)
    ensures var u, k := Run(s, run), Min(|run|, |s.queue|);
      && u.queue == s.queue[k..] && (u.Waits(a) <==> s.Waits(a))
      && (u.Awake(a) <==> s.Awake(a) || (s.Waits(a) && Among(s.queue, k, a)))
    decreases |run|
  {
    if run != [] {
      var t, rest := Next(s, run[0]), run[1..];
      assert Legal(t, rest) && Run(s, run) == Run(t, rest) && AllSupply(rest) && run[0].Supply?;
      hide Legal, Run, AllSupply;
      SupplyReaches(s, run[0].n, t, a);
      SuppliesReach(t, rest, a);
      if s.queue != [] {
        hide Among;
        AmongNext(s.queue, Min(|rest|, |t.queue|), a);
      }
    }
  }

  lemma SupplyReaches(s: Side, n: nat, t: Side, a: nat)
    requires n > 0 && t == Next(s, Supply(n))
    ensures t.queue == if s.queue == [] then [] else s.queue[1..]
    ensures t.Waits(a) <==> s.Waits(a)
    ensures t.Awake(a) <==> s.Awake(a) || (s.Waits(a) && s.queue != [] && s.queue[0].task == a)
  {
    WakeReaches(s.(stock := s.stock + n), a);
  }

  /** Behind `k` useless registrations a sleeping task is woken by supply `k + 1` and by none
      before. */
  lemma SwallowedSupplies(s: Side, run: seq<Step>, k: nat)
    requires Legal(s, run) && AllSupply(run)
    requires k < |s.queue| && s.Asleep(s.queue[k].task)
    requires forall i | 0 <= i < k :: !s.Waits(s.queue[i].task)
    ensures Run(s, run).Awake(s.queue[k].task) <==> |run| > k
    ensures |run| <= k ==> forall a: nat :: Run(s, run).Awake(a) <==> s.Awake(a)
  {
    SuppliesReach(s, run, s.queue[k].task);
    if |run| <= k {
      forall a: nat ensures Run(s, run).Awake(a) <==> s.Awake(a) { SuppliesReach(s, run, a); }
    }
  }

  ghost predicate NoSplice(s: Side) {
    && (forall e | e in s.queue :: !e.splice)
    && (forall a | a in s.tasks :: !s.tasks[a].Splice?)
  }

  /** Over every run from the start: a splice that found this side short sleeps only while it
      is registered; and if nobody splices, a wake-up is swallowed only by a future that has
      been served and is not dropped yet. */
  lemma WaiterSafety(run: seq<Step>)
    requires Legal(New(), run)
    ensures var s := Run(New(), run);
      && (forall a: nat | a in s.tasks && s.tasks[a].Splice? && s.tasks[a].blocked && s.Asleep(a) :: Queued(s, a))
      && ((forall i | 0 <= i < |run| :: !run[i].StartSplice?) ==>
            (Swallows(s) <==>
               s.queue != [] && s.queue[0].task in s.tasks && s.tasks[s.queue[0].task].Served?))
  {
    var s := Run(New(), run);
    RunKeepsInv(New(), run);
    SwallowsIff(s);
    forall a: nat | a in s.tasks && s.tasks[a].Splice? && s.tasks[a].blocked && s.Asleep(a) ensures Queued(s, a) {
      assert SpliceOk(s, a);
    }
    if forall i | 0 <= i < |run| :: !run[i].StartSplice? {
      RunWithoutSplice(New(), run);
    }
  }

  lemma WakeWithoutSplice(s: Side)
    requires NoSplice(s)
    ensures NoSplice(s.WakeOne())
  {
    if s.queue != [] { assert s.queue == [s.queue[0]] + s.queue[1..]; }
  }

  lemma PlainWithoutSplice(s: Side, st: Step)
    requires Inv(s) && NoSplice(s) && Enabled(s, st) && !st.StartSplice? && !Pops(st)
    ensures NoSplice(Next(s, st))
  {
    if st.Drop? { QueueStep(s, st); }
    hide Inv;
  }

  /** How much the run puts in, and how much it takes out. */
  function Supplied(run: seq<Step>): nat {
    if run == [] then 0 else (if run[0].Supply? then run[0].n else 0) + Supplied(run[1..])
  }

  function Taken(run: seq<Step>): nat {
    if run == [] then 0
    else (if run[0].Use? || run[0].Serve? || run[0].SpliceMoves? then run[0].n else 0) + Taken(run[1..])
  }

  /** Nothing is lost or made up: the stock is what there was and what was supplied, without
      what was used, served or spliced away. */
  lemma {:induction false} StockIsConserved(s: Side, run: seq<Step>)
    requires Legal(s, run)
    ensures Run(s, run).stock + Taken(run) == s.stock + Supplied(run)
    decreases |run|
  {
    if run != [] {
      StockStep(s, run[0]);
      StockIsConserved(Next(s, run[0]), run[1..]);
    }
  }

  lemma StockStep(s: Side, st: Step)
    requires Enabled(s, st)
    ensures Next(s, st).stock ==
      if st.Supply? then s.stock + st.n
      else if st.Use? || st.Serve? || st.SpliceMoves? then s.stock - st.n else s.stock
  {
  }

  /** A step of the splice of task `a`. */
  predicate OwnSplice(st: Step, a: nat) {
    (st.SpliceMoves? || st.SpliceBlocks? || st.SpliceStalls? || st.DropSplice?) && st.a == a
  }

  /** From a poll that found this side short until the next step of the splice, whatever
      others do, its task waits and is awake or registered. */
  lemma BlockedSpliceIsReachable(s: Side, a: nat, run: seq<Step>)
    requires Inv(s) && Enabled(s, SpliceBlocks(a)) && Legal(Next(s, SpliceBlocks(a)), run)
    requires forall st | st in run :: !OwnSplice(st, a)
    ensures var u := Run(Next(s, SpliceBlocks(a)), run); u.Waits(a) && (u.Awake(a) || Queued(u, a))
  {
    var t := Next(s, SpliceBlocks(a));
    StepKeepsInv(s, SpliceBlocks(a));
    RunKeepsInv(t, run);
    StaysBlocked(t, run, a);
    assert SpliceOk(Run(t, run), a);
  }

  lemma {:induction false} StaysBlocked(s: Side, run: seq<Step>, a: nat)
    requires Legal(s, run) && a in s.tasks && s.tasks[a].Splice? && s.tasks[a].blocked
    requires forall st | st in run :: !OwnSplice(st, a)
    ensures var u := Run(s, run); a in u.tasks && u.tasks[a].Splice? && u.tasks[a].blocked
    decreases |run|
  {
    if run != [] {
      assert !OwnSplice(run[0], a);
      StaysBlocked(Next(s, run[0]), run[1..], a);
    }
  }

  lemma StepWithoutSplice(s: Side, st: Step)
    requires Inv(s) && NoSplice(s) && Enabled(s, st) && !st.StartSplice?
    ensures NoSplice(Next(s, st))
  {
    if st.Supply? {
      WakeWithoutSplice(s.(stock := s.stock + st.n));
    } else if Pops(st) {
      PassFirst(s, st);
      WakeOneKeepsInv(s);
      WakeWithoutSplice(s);
      PlainWithoutSplice(s.WakeOne(), st.(pass := false));
    } else {
      PlainWithoutSplice(s, st);
    }
  }

  lemma {:induction false} RunWithoutSplice(s: Side, run: seq<Step>)
    requires Inv(s) && NoSplice(s) && Legal(s, run) && forall i | 0 <= i < |run| :: !run[i].StartSplice?
    ensures NoSplice(Run(s, run))
    decreases |run|
  {
    if run != [] {
      StepKeepsInv(s, run[0]);
      StepWithoutSplice(s, run[0]);
      RunWithoutSplice(Next(s, run[0]), run[1..]);
    }
  }

  lemma RunFrom(s: Side, st: Step, rest: seq<Step>)
    requires Enabled(s, st) && Legal(Next(s, st), rest)
    ensures Legal(s, [st] + rest) && Run(s, [st] + rest) == Run(Next(s, st), rest)
  {
    assert ([st] + rest)[1..] == rest;
  }

  /** A splice is given up on an empty ring; a reader then finds it empty too.  The element
      that comes next wakes nobody: the reader sleeps on beside it. */
  lemma AbandonedSpliceExample()
    ensures var run := [StartSplice(0), SpliceBlocks(0), DropSplice(0), Start(1, true), Pend(1, false), Supply(1)];
      && Legal(New(), run)
      && var s := Run(New(), run); s.stock == 1 && s.Asleep(1) && forall a: nat :: !s.Awake(a)
  {
    hide Legal, Run;
    var run := [StartSplice(0), SpliceBlocks(0), DropSplice(0), Start(1, true), Pend(1, false), Supply(1)];
    var s1 := Next(New(), run[0]);
    var s2 := Next(s1, run[1]);
    var s3 := Next(s2, run[2]);
    assert run[3..] == [Start(1, true), Pend(1, false), Supply(1)];
    ReaderBehindSplice(s3);
    assert [run[2]] + run[3..] == run[2..] && [run[1]] + run[2..] == run[1..] && [run[0]] + run[1..] == run;
    RunFrom(s2, run[2], run[3..]);
    RunFrom(s1, run[1], run[2..]);
    RunFrom(New(), run[0], run[1..]);
  }

  lemma ReaderBehindSplice(s: Side)
    requires s == Side(0, [Entry(0, 0, true)], map[], 1)
    ensures var run := [Start(1, true), Pend(1, false), Supply(1)];
      && Legal(s, run)
      && var u := Run(s, run); u.stock == 1 && u.Asleep(1) && forall a: nat :: !u.Awake(a)
  {
    var s1 := Next(s, Start(1, true));
    var s2 := Next(s1, Pend(1, false));
    RunFrom(s2, Supply(1), []);
    RunFrom(s1, Pend(1, false), [Supply(1)]);
    RunFrom(s, Start(1, true), [Pend(1, false), Supply(1)]);
  }
}
