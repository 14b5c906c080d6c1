/** The process tree: parent links and children sets under clone and exit, each of which
    takes its locks one after the other, so that the sections of several processes may
    interleave. */
module ProcessTree {
  import opened Common

  const IDLE: nat := 0
  const INIT: nat := 1

  datatype Flags = Flags(thread: bool, sighand: bool, vm: bool, cloneParent: bool)

  /** How far a process is through its life.  It is built before its parent lists it.  At
      exit it reads its parent first, and still uses that reading, `up`, when it leaves the
      parent's children in the end. */
  datatype Stage = Building | Active | Leaving(up: nat) | Marked(up: nat) | Emptied(up: nat) | Gone {

    predicate Running() { Active? || Leaving? }

    /** Put among its parent's children, and not out of there yet. */
    predicate Placed() { !Building? && !Gone? }

    /** Its children have been handed to init; nobody will move a later one. */
    predicate HandedOver() { Emptied? || Gone? }

    predicate InExit() { Leaving? || Marked? || Emptied? }
  }

  /** Parent links once init has taken in the orphans. */
  function Adopted(parent: map<nat, nat>, orphans: set<nat>): map<nat, nat> {
    map c | c in parent :: if c in orphans then INIT else parent[c]
  }

  /** Children sets once `p` has handed the orphans to init. */
  function Handed(children: map<nat, set<nat>>, p: nat, orphans: set<nat>): map<nat, set<nat>>
    requires INIT in children
  {
    children[p := {}][INIT := children[INIT] + orphans]
  }

  /** A clone under way: it has chosen the parent, or built the child as well. */
  datatype Birth = Chosen(parent: nat) | Built(parent: nat, child: nat)

  /** Every process created so far: its parent (idle and init have none), its children
      and its stage; the clones under way; the next identifier. */
  datatype Tree = Tree(parent: map<nat, nat>, children: map<nat, set<nat>>, stage: map<nat, Stage>,
                       clones: map<nat, Birth>, next: nat) {

    function ChildrenOf(p: nat): set<nat> { if p in children then children[p] else {} }

    function StageOf(p: nat): Stage { if p in stage then stage[p] else Gone }

    /** `c` is in its own parent's children set. */
    predicate Listed(c: nat) { c in parent && c in ChildrenOf(parent[c]) }

    /** A new process whose parent is `p`. */
    function Build(p: nat): Tree {
      this.(parent := parent[next := p], children := children[next := {}], stage := stage[next := Building],
            next := next + 1)
    }

    /** `p` lists the new process. */
    function Insert(p: nat, c: nat): Tree {
      this.(children := children[p := ChildrenOf(p) + {c}], stage := stage[c := Active])
    }

    function NewChild(p: nat): Tree { Build(p).Insert(p, next) }

    /** `p` hands its children to init. */
    function HandOver(p: nat): Tree
      requires INIT in children && StageOf(p).Marked?
    {
      this.(parent := Adopted(parent, ChildrenOf(p)), children := Handed(children, p, ChildrenOf(p)),
            stage := stage[p := Emptied(stage[p].up)])
    }

    /** `p` leaves the children of the parent it read at the start. */
    function Leave(p: nat): Tree
      requires StageOf(p).Emptied?
    {
      var up := stage[p].up;
      this.(children := children[up := ChildrenOf(up) - {p}], stage := stage[p := Gone])
    }
  }

  /** Boot: the idle process and init, neither with a parent. */
  function Boot(): Tree {
    Tree(map[], map[IDLE := {}, INIT := {}], map[IDLE := Active, INIT := Active], map[], 2)
  }

  datatype Op =
    | CloneBegin(i: nat, caller: nat, cloneParent: bool)
    | CloneBuild(i: nat)
    | CloneInsert(i: nat)
    | ExitBegin(p: nat)
    | ExitMark(p: nat)
    | ExitHandOver(p: nat)
    | ExitLeave(p: nat)

  /** Clones and exits are started by running processes other than idle; init never
      exits and has no parent to clone under. */
  predicate Enabled(t: Tree, op: Op) {
    match op
    case CloneBegin(i, caller, cloneParent) =>
      i !in t.clones && caller >= INIT && t.StageOf(caller).Running() && (cloneParent ==> caller in t.parent)
    case CloneBuild(i) => i in t.clones && t.clones[i].Chosen?
    case CloneInsert(i) => i in t.clones && t.clones[i].Built?
    case ExitBegin(p) => t.StageOf(p).Running() && p in t.parent
    case ExitMark(p) => t.StageOf(p).Leaving?
    case ExitHandOver(p) => t.StageOf(p).Marked? && INIT in t.children
    case ExitLeave(p) => t.StageOf(p).Emptied?
  }

  function Next(t: Tree, op: Op): Tree
    requires Enabled(t, op)
  {
    match op
    case CloneBegin(i, caller, cloneParent) =>
      t.(clones := t.clones[i := Chosen(if cloneParent then t.parent[caller] else caller)])
    case CloneBuild(i) =>
      var p := t.clones[i].parent;
      t.Build(p).(clones := t.clones[i := Built(p, t.next)])
    case CloneInsert(i) => t.Insert(t.clones[i].parent, t.clones[i].child).(clones := t.clones - {i})
    case ExitBegin(p) => t.(stage := t.stage[p := Leaving(t.parent[p])])
    case ExitMark(p) => t.(stage := t.stage[p := Marked(t.stage[p].up)])
    case ExitHandOver(p) => t.HandOver(p)
    case ExitLeave(p) => t.Leave(p)
  }

  // ---------------------------------------------------------------------- invariant

  /** Identifiers are below the next one, a parent's is below its child's, and nobody has a
      parent that is still being built. */
  ghost predicate Numbered(t: Tree, c: nat) {
    && (c in t.stage <==> c < t.next)
    && (c in t.children <==> c < t.next)
    && (c in t.parent <==> 2 <= c < t.next)
    && (c in t.parent ==> INIT <= t.parent[c] < c && !t.StageOf(t.parent[c]).Building?)
  }

  /** Nobody is in the children set of a process that is not its parent, or in any while
      being built. */
  ghost predicate NoStranger(t: Tree, c: nat) {
    forall p: nat | c in t.ChildrenOf(p) :: c in t.parent && t.parent[c] == p && !t.StageOf(c).Building?
  }

  /** The parent an exiting process has read is its parent still, or was until it handed
      its children to init. */
  ghost predicate ReadOk(t: Tree, p: nat) {
    p in t.parent && t.StageOf(p).InExit() ==>
      var up := t.StageOf(p).up;
      INIT <= up < p && (t.parent[p] == up || (t.parent[p] == INIT && t.StageOf(up).HandedOver()))
  }

  /** Gone, and yet still among the children of its parent. */
  ghost predicate Lingers(t: Tree, c: nat) { t.StageOf(c).Gone? && t.Listed(c) }

  /** One process: its links are sound, its parent lists it from when it is placed until it
      has finished its exit, and if it lingers it does so under init. */
  ghost predicate ProcessOk(t: Tree, c: nat) {
    && Numbered(t, c) && NoStranger(t, c) && ReadOk(t, c)
    && (c in t.parent && t.StageOf(c).Placed() ==> t.Listed(c))
    && (Lingers(t, c) ==> t.parent[c] == INIT)
  }

  /** One clone: its parent exists, and a child it has built still has that parent, is
      still being built, and is no other clone's. */
  ghost predicate CloneOk(t: Tree, i: nat) {
    i in t.clones ==>
      && INIT <= t.clones[i].parent < t.next && !t.StageOf(t.clones[i].parent).Building?
      && (t.clones[i].Built? ==>
            var Built(p, c) := t.clones[i];
            && c in t.parent && t.parent[c] == p && t.StageOf(c).Building?
            && forall j: nat | j in t.clones && t.clones[j].Built? && t.clones[j].child == c :: j == i)
  }

  ghost predicate WellFormed(t: Tree) {
    && t.next >= 2 && t.StageOf(IDLE) == Active && t.StageOf(INIT) == Active
    && (forall c: nat :: ProcessOk(t, c))
    && (forall i: nat :: CloneOk(t, i))
  }

  /** Under a parent that has handed its children over and will never do so again. */
  ghost predicate Stranded(t: Tree, c: nat) { t.Listed(c) && t.StageOf(t.parent[c]).HandedOver() }

  /** The parent that `p` leaves is no longer its parent. */
  predicate Stale(t: Tree, op: Op, p: nat) {
    op == ExitLeave(p) && t.StageOf(p).Emptied? && p in t.parent && t.StageOf(p).up != t.parent[p]
  }

  /** The child is put under a parent that has handed its children over. */
  predicate Late(t: Tree, op: Op, c: nat) {
    && op.CloneInsert? && op.i in t.clones && t.clones[op.i].Built? && t.clones[op.i].child == c
    && t.StageOf(t.clones[op.i].parent).HandedOver()
  }

  /** How a section changes the disorder around `c`. */
  ghost predicate Disorder(t: Tree, op: Op, u: Tree, c: nat) {
    && (Lingers(u, c) <==> Lingers(t, c) || Stale(t, op, c))
    && (Stranded(u, c) <==> (Stranded(t, c) && op != ExitLeave(c)) || Late(t, op, c))
  }

  // Each section: what it leaves of one process, then the whole invariant.

  lemma ChoiceOk(t: Tree, i: nat, p: nat, u: Tree)
    requires WellFormed(t) && i !in t.clones && INIT <= p < t.next && !t.StageOf(p).Building?
    requires u == t.(clones := t.clones[i := Chosen(p)])
    ensures WellFormed(u)
  {
    forall c: nat ensures ProcessOk(u, c) {
      hide CloneOk;
      assert ProcessOk(t, c);
      SameProcess(t, u, c);
    }
    forall j: nat ensures CloneOk(u, j) {
      hide ProcessOk;
      assert CloneOk(t, j);
    }
  }

  lemma SameProcess(t: Tree, u: Tree, c: nat)
    requires ProcessOk(t, c) && u == t.(clones := u.clones)
    ensures ProcessOk(u, c)
  {
    assert forall p: nat :: u.ChildrenOf(p) == t.ChildrenOf(p);
  }

  lemma BeginCloneOk(t: Tree, op: Op, u: Tree)
    requires WellFormed(t) && op.CloneBegin? && Enabled(t, op) && u == Next(t, op)
    ensures WellFormed(u)
  {
    assert ProcessOk(t, op.caller);
    hide ProcessOk, CloneOk;
    ChoiceOk(t, op.i, u.clones[op.i].parent, u);
  }

  lemma BuildProcess(t: Tree, p: nat, u: Tree, c: nat)
    requires ProcessOk(t, c) && ProcessOk(t, t.next) && t.next >= 2
    requires INIT <= p < t.next && !t.StageOf(p).Building? && u == t.Build(p).(clones := u.clones)
    ensures ProcessOk(u, c)
    ensures (Lingers(u, c) <==> Lingers(t, c)) && (Stranded(u, c) <==> Stranded(t, c))
  {
    assert forall q: nat | q != t.next :: u.ChildrenOf(q) == t.ChildrenOf(q);
  }

  lemma BuildClone(t: Tree, i: nat, u: Tree, j: nat)
    requires CloneOk(t, i) && CloneOk(t, j) && i in t.clones && t.clones[i].Chosen?
    requires u == t.Build(t.clones[i].parent).(clones := t.clones[i := Built(t.clones[i].parent, t.next)])
    requires forall k: nat | k in t.clones && t.clones[k].Built? :: t.clones[k].child < t.next
    ensures CloneOk(u, j)
  {
  }

  lemma BuildOk(t: Tree, i: nat, u: Tree)
    requires WellFormed(t) && Enabled(t, CloneBuild(i)) && u == Next(t, CloneBuild(i))
    ensures WellFormed(u)
  {
    assert CloneOk(t, i);
    forall k: nat | k in t.clones && t.clones[k].Built? ensures t.clones[k].child < t.next {
      assert CloneOk(t, k) && ProcessOk(t, t.clones[k].child);
    }
    hide ProcessOk, CloneOk;
    forall c: nat ensures ProcessOk(u, c) { BuildProcess(t, t.clones[i].parent, u, c); }
    forall j: nat ensures CloneOk(u, j) { BuildClone(t, i, u, j); }
  }

  lemma InsertProcess(t: Tree, p: nat, n: nat, u: Tree, c: nat)
    requires ProcessOk(t, c) && p < t.next && n in t.parent && t.parent[n] == p && t.StageOf(n).Building?
    requires Numbered(t, p) && u == t.Insert(p, n).(clones := u.clones)
    ensures ProcessOk(u, c)
    ensures Lingers(u, c) <==> Lingers(t, c)
    ensures Stranded(u, c) <==> Stranded(t, c) || (c == n && t.StageOf(p).HandedOver())
  {
    assert forall q: nat :: u.ChildrenOf(q) == t.ChildrenOf(q) + if q == p then {n} else {};
  }

  lemma InsertClone(t: Tree, i: nat, u: Tree, j: nat)
    requires CloneOk(t, i) && CloneOk(t, j) && Enabled(t, CloneInsert(i)) && u == Next(t, CloneInsert(i))
    ensures CloneOk(u, j)
  {
  }

  lemma InsertOk(t: Tree, i: nat, u: Tree)
    requires WellFormed(t) && Enabled(t, CloneInsert(i)) && u == Next(t, CloneInsert(i))
    ensures WellFormed(u)
  {
    var Built(p, n) := t.clones[i];
    assert CloneOk(t, i) && Numbered(t, p) by { assert ProcessOk(t, p); }
    assert p < t.next && n in t.parent && t.parent[n] == p && t.StageOf(n).Building?;
    hide ProcessOk, CloneOk;
    forall c: nat ensures ProcessOk(u, c) { InsertProcess(t, p, n, u, c); }
    forall j: nat ensures CloneOk(u, j) { InsertClone(t, i, u, j); }
  }

  lemma InsertDisorder(t: Tree, i: nat, u: Tree, c: nat)
    requires WellFormed(t) && Enabled(t, CloneInsert(i)) && u == Next(t, CloneInsert(i))
    ensures Disorder(t, CloneInsert(i), u, c)
  {
    var Built(p, n) := t.clones[i];
    assert CloneOk(t, i) && ProcessOk(t, p) && ProcessOk(t, c);
    InsertProcess(t, p, n, u, c);
  }

  /** A stage of the exit in which the process still has its children. */
  predicate StepsTo(t: Tree, p: nat, next: Stage) {
    && p in t.parent && t.StageOf(p).Running() && (next.Leaving? || next.Marked?)
    && (next.up == t.parent[p] || (t.StageOf(p).Leaving? && next.up == t.StageOf(p).up))
  }

  lemma StageProcess(t: Tree, p: nat, next: Stage, u: Tree, c: nat)
    requires ProcessOk(t, c) && ProcessOk(t, p) && StepsTo(t, p, next) && u == t.(stage := t.stage[p := next])
    ensures ProcessOk(u, c)
  {
    assert forall q: nat :: u.ChildrenOf(q) == t.ChildrenOf(q);
    assert forall q: nat :: u.StageOf(q).HandedOver() <==> t.StageOf(q).HandedOver();
  }

  /** The stage of a process that is not being built is no matter to clones. */
  lemma StageClone(t: Tree, p: nat, next: Stage, u: Tree, i: nat)
    requires CloneOk(t, i) && !t.StageOf(p).Building? && !next.Building?
    requires u.stage == t.stage[p := next] && u.clones == t.clones && u.next == t.next
    requires forall c: nat | c in t.parent && t.StageOf(c).Building? :: c in u.parent && u.parent[c] == t.parent[c]
    ensures CloneOk(u, i)
  {
  }

  lemma StageOk(t: Tree, p: nat, next: Stage, u: Tree)
    requires WellFormed(t) && StepsTo(t, p, next) && u == t.(stage := t.stage[p := next])
    ensures WellFormed(u)
  {
    assert p >= 2 by { assert ProcessOk(t, p); }
    hide ProcessOk, CloneOk;
    forall c: nat ensures ProcessOk(u, c) { StageProcess(t, p, next, u, c); }
    forall i: nat ensures CloneOk(u, i) { StageClone(t, p, next, u, i); }
  }

  lemma HandOverListed(t: Tree, p: nat, u: Tree, c: nat)
    requires NoStranger(t, c) && t.StageOf(p).Marked? && p != INIT && INIT in t.children && u == t.HandOver(p)
    ensures u.Listed(c) <==> t.Listed(c)
    ensures forall q: nat | c in u.ChildrenOf(q) :: c in u.parent && u.parent[c] == q
  {
    var orphans := t.ChildrenOf(p);
    assert forall q: nat ::
      u.ChildrenOf(q) == (if q == p then {} else if q == INIT then t.ChildrenOf(q) + orphans else t.ChildrenOf(q));
  }

  lemma HandOverProcess(t: Tree, p: nat, u: Tree, c: nat)
    requires ProcessOk(t, c) && ProcessOk(t, p) && t.StageOf(INIT) == Active && t.next >= 2
    requires t.StageOf(p).Marked? && INIT in t.children && u == t.HandOver(p)
    ensures ProcessOk(u, c)
  {
    HandOverListed(t, p, u, c);
    if c in t.parent && t.parent[c] == p && t.StageOf(c).InExit() { assert t.Listed(c); }
  }

  lemma HandOverDisorder(t: Tree, p: nat, u: Tree, c: nat)
    requires WellFormed(t) && Enabled(t, ExitHandOver(p)) && u == t.HandOver(p)
    ensures Disorder(t, ExitHandOver(p), u, c)
  {
    assert ProcessOk(t, c);
    HandOverListed(t, p, u, c);
  }

  lemma HandOverOk(t: Tree, p: nat, u: Tree)
    requires WellFormed(t) && Enabled(t, ExitHandOver(p)) && u == t.HandOver(p)
    ensures WellFormed(u)
  {
    forall c: nat | c in t.parent && t.StageOf(c).Building? ensures u.parent[c] == t.parent[c] {
      assert ProcessOk(t, c);
    }
    hide ProcessOk, CloneOk;
    forall c: nat ensures ProcessOk(u, c) { HandOverProcess(t, p, u, c); }
    forall i: nat ensures CloneOk(u, i) { StageClone(t, p, Emptied(t.stage[p].up), u, i); }
  }

  lemma LeaveProcess(t: Tree, p: nat, u: Tree, c: nat)
    requires ProcessOk(t, c) && ProcessOk(t, p) && p in t.parent && t.StageOf(p).Emptied? && u == t.Leave(p)
    requires t.StageOf(INIT) == Active
    ensures ProcessOk(u, c)
    ensures Disorder(t, ExitLeave(p), u, c)
  {
    assert forall q: nat :: u.ChildrenOf(q) == t.ChildrenOf(q) - if q == t.StageOf(p).up then {p} else {};
    assert forall q: nat :: u.StageOf(q).HandedOver() <==> t.StageOf(q).HandedOver();
  }

  lemma LeaveDisorder(t: Tree, p: nat, u: Tree, c: nat)
    requires WellFormed(t) && Enabled(t, ExitLeave(p)) && u == t.Leave(p)
    ensures Disorder(t, ExitLeave(p), u, c)
  {
    assert ProcessOk(t, p) && ProcessOk(t, c);
    LeaveProcess(t, p, u, c);
  }

  lemma LeaveOk(t: Tree, p: nat, u: Tree)
    requires WellFormed(t) && Enabled(t, ExitLeave(p)) && u == t.Leave(p)
    ensures WellFormed(u)
  {
    assert p in t.parent by { assert ProcessOk(t, p); }
    hide ProcessOk, CloneOk;
    forall c: nat ensures ProcessOk(u, c) { LeaveProcess(t, p, u, c); }
    forall i: nat ensures CloneOk(u, i) { StageClone(t, p, Gone, u, i); }
  }

  /** Every section, wherever it falls between those of other processes, keeps the tree
      well formed. */
  lemma StepKeeps(t: Tree, op: Op)
    requires WellFormed(t) && Enabled(t, op)
    ensures WellFormed(Next(t, op))
  {
    var u := Next(t, op);
    match op
    case CloneBegin(_, _, _) => BeginCloneOk(t, op, u);
    case CloneBuild(i) => BuildOk(t, i, u);
    case CloneInsert(i) => InsertOk(t, i, u);
    case ExitBegin(p) => StageOk(t, p, u.stage[p], u);
    case ExitMark(p) => assert ProcessOk(t, p); StageOk(t, p, u.stage[p], u);
    case ExitHandOver(p) => HandOverOk(t, p, u);
    case ExitLeave(p) => LeaveOk(t, p, u);
  }

  /** A process comes to linger exactly by a stale leave, and then for good; it comes to be
      stranded exactly by a late insertion, and until it leaves. */
  lemma DisorderExactly(t: Tree, op: Op, c: nat)
    requires WellFormed(t) && Enabled(t, op)
    ensures Disorder(t, op, Next(t, op), c)
  {
    var u := Next(t, op);
    match op
    case CloneBuild(i) =>
      assert ProcessOk(t, c) && ProcessOk(t, t.next) && CloneOk(t, i);
      BuildProcess(t, t.clones[i].parent, u, c);
    case CloneInsert(i) => InsertDisorder(t, i, u, c);
    case ExitHandOver(p) => HandOverDisorder(t, p, u, c);
    case ExitLeave(p) => LeaveDisorder(t, p, u, c);
    case _ =>
  }

  /** A leave is stale only because the parent it read has handed its children to init
      meanwhile: the process is now a child of init. */
  lemma StaleMeans(t: Tree, p: nat)
    requires WellFormed(t) && Stale(t, ExitLeave(p), p)
    ensures t.parent[p] == INIT && t.StageOf(t.StageOf(p).up).HandedOver()
    ensures Lingers(t.Leave(p), p) && p in t.Leave(p).ChildrenOf(INIT)
  {
    LeaveDisorder(t, p, t.Leave(p), p);
    assert ProcessOk(t, p);
  }

  // --------------------------------------------------------------------------- runs

  ghost predicate Legal(t: Tree, run: seq<Op>)
    decreases |run|
  {
    run == [] || (Enabled(t, run[0]) && Legal(Next(t, run[0]), run[1..]))
  }

  ghost function Run(t: Tree, run: seq<Op>): Tree
    requires Legal(t, run)
    decreases |run|
  {
    if run == [] then t else Run(Next(t, run[0]), run[1..])
  }

  /** In the run, `c` leaves a parent that is no longer its own. */
  ghost predicate StaleIn(t: Tree, run: seq<Op>, c: nat)
    requires Legal(t, run)
    decreases |run|
  {
    run != [] && (Stale(t, run[0], c) || StaleIn(Next(t, run[0]), run[1..], c))
  }

  /** In the run, `c` is inserted under a parent that has handed its children over. */
  ghost predicate LateIn(t: Tree, run: seq<Op>, c: nat)
    requires Legal(t, run)
    decreases |run|
  {
    run != [] && (Late(t, run[0], c) || LateIn(Next(t, run[0]), run[1..], c))
  }

  lemma {:induction false} RunKeeps(t: Tree, run: seq<Op>)
    requires WellFormed(t) && Legal(t, run)
    ensures WellFormed(Run(t, run))
    decreases |run|
  {
    if run != [] {
      StepKeeps(t, run[0]);
      RunKeeps(Next(t, run[0]), run[1..]);
    }
  }

  lemma PlacedForGood(t: Tree, op: Op, c: nat)
    requires WellFormed(t) && Enabled(t, op) && c < t.next && !t.StageOf(c).Building?
    ensures var u := Next(t, op); c < u.next && !u.StageOf(c).Building? && !Late(t, op, c)
    ensures t.StageOf(c).Gone? ==> Next(t, op).StageOf(c).Gone?
  {
    assert ProcessOk(t, c) && (op.CloneInsert? ==> CloneOk(t, op.i));
  }

  /** A process that has been placed is not placed again, and once gone stays gone. */
  lemma {:induction false} ExistsForGood(t: Tree, run: seq<Op>, c: nat)
    requires WellFormed(t) && Legal(t, run) && c < t.next && !t.StageOf(c).Building?
    ensures !LateIn(t, run, c)
    ensures t.StageOf(c).Gone? ==> Run(t, run).StageOf(c).Gone?
    decreases |run|
  {
    if run != [] {
      StepKeeps(t, run[0]);
      PlacedForGood(t, run[0], c);
      ExistsForGood(Next(t, run[0]), run[1..], c);
    }
  }

  /** Over every run and interleaving: a process lingers exactly if its leave was stale,
      and is stranded exactly if its insertion was late and it has not left yet. */
  lemma {:induction false} RunDisorder(t: Tree, run: seq<Op>, c: nat)
    requires WellFormed(t) && Legal(t, run)
    ensures Lingers(Run(t, run), c) <==> Lingers(t, c) || StaleIn(t, run, c)
    ensures Stranded(Run(t, run), c) <==> (Stranded(t, c) || LateIn(t, run, c)) && !Run(t, run).StageOf(c).Gone?
    decreases |run|
  {
    if run == [] {
      assert ProcessOk(t, c);
    } else {
      var u := Next(t, run[0]);
      StepKeeps(t, run[0]);
      DisorderExactly(t, run[0], c);
      RunDisorder(u, run[1..], c);
      if run[0] == ExitLeave(c) {
        assert ProcessOk(t, c);
        ExistsForGood(u, run[1..], c);
      }
    }
  }

  // --------------------------------------------------------------- whose child it is

  /** The step is one of the later sections of clone `i`. */
  predicate Advances(op: Op, i: nat) { op == CloneBuild(i) || op == CloneInsert(i) }

  /** What others do leaves a clone under way as it is. */
  lemma {:induction false} BirthStays(t: Tree, run: seq<Op>, i: nat)
    requires Legal(t, run) && i in t.clones && forall op | op in run :: !Advances(op, i)
    ensures i in Run(t, run).clones && Run(t, run).clones[i] == t.clones[i]
    decreases |run|
  {
    if run != [] {
      assert !Advances(run[0], i);
      BirthStays(Next(t, run[0]), run[1..], i);
    }
  }

  /** Whatever runs between the sections of a clone, the new process ends with the caller as
      its parent or, on request, the parent the caller had when the clone began, is active,
      and is listed there and nowhere else. */
  lemma CloneEndsUnder(t: Tree, i: nat, caller: nat, cloneParent: bool, before: seq<Op>, between: seq<Op>)
    requires WellFormed(t) && Enabled(t, CloneBegin(i, caller, cloneParent))
    requires var t1 := Next(t, CloneBegin(i, caller, cloneParent));
      && Legal(t1, before) && (forall op | op in before :: !Advances(op, i))
      && var t2 := Run(t1, before);
         && Enabled(t2, CloneBuild(i)) && Legal(Next(t2, CloneBuild(i)), between)
         && (forall op | op in between :: !Advances(op, i))
    ensures var p := if cloneParent then t.parent[caller] else caller;
      var t2 := Run(Next(t, CloneBegin(i, caller, cloneParent)), before);
      var t3 := Run(Next(t2, CloneBuild(i)), between);
      var c := t2.next;
      && Enabled(t3, CloneInsert(i))
      && var u := Next(t3, CloneInsert(i));
         && c in u.parent && u.parent[c] == p && u.StageOf(c) == Active && c !in t2.stage
         && forall q: nat :: c in u.ChildrenOf(q) <==> q == p
  {
    hide WellFormed, Legal, Run, Advances;
    var t1 := Next(t, CloneBegin(i, caller, cloneParent));
    var t2 := Run(t1, before);
    var built := Next(t2, CloneBuild(i));
    var t3 := Run(built, between);
    StepKeeps(t, CloneBegin(i, caller, cloneParent));
    RunKeeps(t1, before);
    BirthStays(t1, before, i);
    StepKeeps(t2, CloneBuild(i));
    RunKeeps(built, between);
    BirthStays(built, between, i);
    StepKeeps(t3, CloneInsert(i));
    Unused(t2);
    InsertPlaces(t3, i);
  }

  lemma Unused(t: Tree)
    requires WellFormed(t)
    ensures t.next !in t.stage
  {
    assert ProcessOk(t, t.next);
  }

  lemma InsertPlaces(t: Tree, i: nat)
    requires WellFormed(t) && Enabled(t, CloneInsert(i)) && WellFormed(Next(t, CloneInsert(i)))
    ensures var u, p, c := Next(t, CloneInsert(i)), t.clones[i].parent, t.clones[i].child;
      && c in u.parent && u.parent[c] == p && u.StageOf(c) == Active
      && forall q: nat :: c in u.ChildrenOf(q) <==> q == p
  {
    assert CloneOk(t, i) && ProcessOk(Next(t, CloneInsert(i)), t.clones[i].child);
  }

  /** A process changes parents in one way only: its parent hands its children over while it
      is among them, and it becomes a child of init. */
  lemma ParentMoves(t: Tree, op: Op, c: nat)
    requires WellFormed(t) && Enabled(t, op) && c in t.parent
    ensures var u := Next(t, op);
      c in u.parent && u.parent[c] == if op == ExitHandOver(t.parent[c]) && t.Listed(c) then INIT else t.parent[c]
  {
    assert ProcessOk(t, c) && ProcessOk(t, t.next);
  }

  // ------------------------------------------------------------------- what it means

  ghost predicate ChildOf(t: Tree, c: nat, p: nat) {
    c in t.parent && t.parent[c] == p && t.StageOf(c).Placed()
  }

  /** `path` climbs from `c` to init by parent links, each to a process that lists the
      one below and still has to hand its children over. */
  ghost predicate ClimbsToInit(t: Tree, c: nat, path: seq<nat>)
    decreases |path|
  {
    && path != [] && path[0] == c
    && (if c == INIT then path == [INIT]
        else t.Listed(c) && !t.StageOf(t.parent[c]).HandedOver() && ClimbsToInit(t, t.parent[c], path[1..]))
  }

  lemma {:induction false} Climb(t: Tree, c: nat) returns (path: seq<nat>)
    requires WellFormed(t) && t.StageOf(c).Placed() && c >= INIT
    requires forall d: nat :: !Stranded(t, d)
    ensures ClimbsToInit(t, c, path)
    decreases c
  {
    if c == INIT {
      path := [INIT];
    } else {
      assert ProcessOk(t, c) && !Stranded(t, c);
      var rest := Climb(t, t.parent[c]);
      path := [c] + rest;
      assert path[1..] == rest;
    }
  }

  /** Children sets hold exactly the processes placed and not gone, under their parents. */
  ghost predicate Mirrored(t: Tree) { forall p: nat, c: nat :: c in t.ChildrenOf(p) <==> ChildOf(t, c, p) }

  /** Every process placed and not gone climbs to init. */
  ghost predicate AllClimb(t: Tree) { forall c: nat | t.StageOf(c).Placed() && c >= INIT :: Climbs(t, c) }

  ghost predicate Climbs(t: Tree, c: nat) { exists path :: ClimbsToInit(t, c, path) }

  /** Over every run from boot: children sets and parent links agree if and only if no leave
      was stale, and every process placed and not gone climbs to init if and only if no
      process inserted late is still there. */
  lemma TreeSafety(run: seq<Op>)
    requires Legal(Boot(), run)
    ensures Mirrored(Run(Boot(), run)) <==> forall c: nat :: !StaleIn(Boot(), run, c)
    ensures AllClimb(Run(Boot(), run)) <==>
            forall c: nat | LateIn(Boot(), run, c) :: Run(Boot(), run).StageOf(c).Gone?
  {
    hide Mirrored, AllClimb, WellFormed, Lingers, Stranded;
    var t := Run(Boot(), run);
    BootOk();
    RunKeeps(Boot(), run);
    MirroredIff(t);
    ClimbsIff(t);
    if Mirrored(t) {
      forall c: nat ensures !StaleIn(Boot(), run, c) { FromBoot(run, c); }
    } else {
      var c: nat :| Lingers(t, c);
      FromBoot(run, c);
    }
    if AllClimb(t) {
      forall c: nat | LateIn(Boot(), run, c) ensures t.StageOf(c).Gone? { FromBoot(run, c); }
    } else {
      var c: nat :| Stranded(t, c);
      FromBoot(run, c);
    }
  }

  lemma FromBoot(run: seq<Op>, c: nat)
    requires Legal(Boot(), run)
    ensures Lingers(Run(Boot(), run), c) <==> StaleIn(Boot(), run, c)
    ensures Stranded(Run(Boot(), run), c) <==> LateIn(Boot(), run, c) && !Run(Boot(), run).StageOf(c).Gone?
  {
    BootOk();
    RunDisorder(Boot(), run, c);
  }

  lemma BootOk()
    ensures WellFormed(Boot()) && forall c: nat :: !Lingers(Boot(), c) && !Stranded(Boot(), c)
  {
  }

  lemma MirroredIff(t: Tree)
    requires WellFormed(t)
    ensures Mirrored(t) <==> forall c: nat :: !Lingers(t, c)
  {
    if c: nat :| Lingers(t, c) {
      assert ProcessOk(t, c) && c in t.ChildrenOf(t.parent[c]) && !ChildOf(t, c, t.parent[c]);
    }
    if forall c: nat :: !Lingers(t, c) {
      forall p: nat, c: nat ensures c in t.ChildrenOf(p) <==> ChildOf(t, c, p) {
        assert ProcessOk(t, c) && !Lingers(t, c);
      }
    }
  }

  lemma ClimbsIff(t: Tree)
    requires WellFormed(t)
    ensures AllClimb(t) <==> forall c: nat :: !Stranded(t, c)
  {
    if c: nat :| Stranded(t, c) {
      assert ProcessOk(t, c) && t.parent[c] != INIT;
      assert !Climbs(t, c);
    }
    if forall c: nat :: !Stranded(t, c) {
      forall c: nat | t.StageOf(c).Placed() && c >= INIT ensures Climbs(t, c) {
        var path := Climb(t, c);
      }
    }
  }

  // -------------------------------------------------------------------- the two races

  lemma RunFrom(t: Tree, op: Op, rest: seq<Op>)
    requires Enabled(t, op) && Legal(Next(t, op), rest)
    ensures Legal(t, [op] + rest) && Run(t, [op] + rest) == Run(Next(t, op), rest)
  {
    assert ([op] + rest)[1..] == rest;
  }

  lemma {:induction false} RunConcat(t: Tree, first: seq<Op>, second: seq<Op>)
    requires Legal(t, first) && Legal(Run(t, first), second)
    ensures Legal(t, first + second) && Run(t, first + second) == Run(Run(t, first), second)
    decreases |first|
  {
    if first == [] {
      assert first + second == second;
    } else {
      assert (first + second)[1..] == first[1..] + second;
      RunConcat(Next(t, first[0]), first[1..], second);
    }
  }

  /** The child reads its parent; the parent then hands it to init. */
  lemma ParentHandsOver(t: Tree, p: nat, q: nat)
    requires WellFormed(t) && p in t.parent && t.parent[p] == q && q != INIT
    requires t.StageOf(p) == Active && t.StageOf(q) == Active
    ensures var run := [ExitBegin(p), ExitBegin(q), ExitMark(q), ExitHandOver(q)];
      && Legal(t, run)
      && var u := Run(t, run);
         p in u.parent && u.parent[p] == INIT && p in u.ChildrenOf(INIT) && p !in u.ChildrenOf(p)
         && u.StageOf(p) == Leaving(q) && INIT in u.children
  {
    var run := [ExitBegin(p), ExitBegin(q), ExitMark(q), ExitHandOver(q)];
    assert ProcessOk(t, p) && ProcessOk(t, q) && ProcessOk(t, INIT);
    assert p !in t.ChildrenOf(p);
    var t1 := Next(t, run[0]);
    var t2 := Next(t1, run[1]);
    var t3 := Next(t2, run[2]);
    var t4 := Next(t3, run[3]);
    RunFrom(t3, run[3], []);
    RunFrom(t2, run[2], run[3..]);
    RunFrom(t1, run[1], run[2..]);
    RunFrom(t, run[0], run[1..]);
  }

  /** A process that init has adopted leaves the parent it read before. */
  lemma LeavesOldParent(t: Tree, p: nat, q: nat)
    requires p in t.parent && t.parent[p] == INIT && p in t.ChildrenOf(INIT) && p !in t.ChildrenOf(p)
    requires t.StageOf(p) == Leaving(q) && q != INIT && p != INIT && INIT in t.children
    ensures var run := [ExitMark(p), ExitHandOver(p), ExitLeave(p)];
      Legal(t, run) && Lingers(Run(t, run), p)
  {
    var run := [ExitMark(p), ExitHandOver(p), ExitLeave(p)];
    var t1 := Next(t, run[0]);
    var t2 := Next(t1, run[1]);
    var t3 := Next(t2, run[2]);
    RunFrom(t2, run[2], []);
    RunFrom(t1, run[1], run[2..]);
    RunFrom(t, run[0], run[1..]);
  }

  /** Any process and its parent, other than init, exiting side by side: if the parent
      hands its children over after the child has read it, the child lingers. */
  lemma RacingExitsLinger(t: Tree, p: nat)
    requires WellFormed(t) && p in t.parent && t.parent[p] != INIT
    requires t.StageOf(p) == Active && t.StageOf(t.parent[p]) == Active
    ensures var q := t.parent[p];
      var run := [ExitBegin(p), ExitBegin(q), ExitMark(q), ExitHandOver(q), ExitMark(p), ExitHandOver(p), ExitLeave(p)];
      Legal(t, run) && Lingers(Run(t, run), p)
  {
    var q := t.parent[p];
    var first, second := [ExitBegin(p), ExitBegin(q), ExitMark(q), ExitHandOver(q)],
                         [ExitMark(p), ExitHandOver(p), ExitLeave(p)];
    ParentHandsOver(t, p, q);
    LeavesOldParent(Run(t, first), p, q);
    RunConcat(t, first, second);
    assert first + second ==
      [ExitBegin(p), ExitBegin(q), ExitMark(q), ExitHandOver(q), ExitMark(p), ExitHandOver(p), ExitLeave(p)];
  }

  /** A clone under the caller's parent, while that parent exits: if the parent hands its
      children over before the new process is put among them, it is stranded, although it
      was built with that parent before the exit began. */
  lemma RacingCloneStrands(t: Tree, i: nat, caller: nat)
    requires WellFormed(t) && caller in t.parent && t.parent[caller] != INIT && i !in t.clones
    requires t.StageOf(caller) == Active && t.StageOf(t.parent[caller]) == Active
    ensures var q := t.parent[caller];
      var run := [CloneBegin(i, caller, true), CloneBuild(i),
                  ExitBegin(q), ExitMark(q), ExitHandOver(q), CloneInsert(i)];
      Legal(t, run) && Stranded(Run(t, run), t.next)
  {
    var q := t.parent[caller];
    var first, second := [CloneBegin(i, caller, true), CloneBuild(i)],
                         [ExitBegin(q), ExitMark(q), ExitHandOver(q), CloneInsert(i)];
    assert ProcessOk(t, caller) && ProcessOk(t, q) && ProcessOk(t, INIT) && ProcessOk(t, t.next);
    var t1 := Next(t, first[0]);
    RunFrom(t1, first[1], []);
    RunFrom(t, first[0], first[1..]);
    LateInsertion(Run(t, first), i, q, t.next);
    RunConcat(t, first, second);
    assert first + second ==
      [CloneBegin(i, caller, true), CloneBuild(i), ExitBegin(q), ExitMark(q), ExitHandOver(q), CloneInsert(i)];
  }

  lemma LateInsertion(t: Tree, i: nat, q: nat, n: nat)
    requires i in t.clones && t.clones[i] == Built(q, n) && n in t.parent && t.parent[n] == q && n != q
    requires t.StageOf(q) == Active && q in t.parent && INIT in t.children && n !in t.ChildrenOf(q)
    ensures var run := [ExitBegin(q), ExitMark(q), ExitHandOver(q), CloneInsert(i)];
      Legal(t, run) && Stranded(Run(t, run), n)
  {
    var run := [ExitBegin(q), ExitMark(q), ExitHandOver(q), CloneInsert(i)];
    var t1 := Next(t, run[0]);
    var t2 := Next(t1, run[1]);
    var t3 := Next(t2, run[2]);
    var t4 := Next(t3, run[3]);
    assert Stranded(t4, n);
    RunFrom(t3, run[3], []);
    RunFrom(t2, run[2], run[3..]);
    RunFrom(t1, run[1], run[2..]);
    RunFrom(t, run[0], run[1..]);
  }

  // ----------------------------------------------------------------------- in place

  lemma HandOne(children: map<nat, set<nat>>, p: nat, orphans: set<nat>, c: nat)
    requires INIT in children
    ensures var h := Handed(children, p, orphans);
      h[INIT := h[INIT] + {c}] == Handed(children, p, orphans + {c})
  {
    assert children[INIT] + orphans + {c} == children[INIT] + (orphans + {c});
  }

  lemma AdoptOne(parent: map<nat, nat>, orphans: set<nat>, c: nat)
    requires c in parent
    ensures Adopted(parent, orphans)[c := INIT] == Adopted(parent, orphans + {c})
  {
  }

  /** The sections of a clone, with nothing in between. */
  lemma NewChildOk(t: Tree, p: nat)
    requires WellFormed(t) && t.clones == map[] && INIT <= p < t.next && !t.StageOf(p).Building?
    ensures WellFormed(t.NewChild(p)) && p in t.children && p != t.next && t.next !in t.stage
  {
    assert ProcessOk(t, p) && ProcessOk(t, t.next);
    hide ProcessOk, CloneOk;
    var chosen := t.(clones := map[0 := Chosen(p)]);
    ChoiceOk(t, 0, p, chosen);
    var built := Next(chosen, CloneBuild(0));
    BuildOk(chosen, 0, built);
    InsertOk(built, 0, Next(built, CloneInsert(0)));
    assert Next(built, CloneInsert(0)) == t.NewChild(p);
  }

  /** The four sections of an exit, with nothing in between: the tree stays well formed,
      the process is in no children set, and nobody comes to linger. */
  lemma ExitRun(t: Tree, p: nat, marked: Tree, u: Tree)
    requires WellFormed(t) && t.StageOf(p).Running() && p in t.parent && INIT in t.children
    requires marked == t.(stage := t.stage[p := Marked(t.parent[p])]) && u == marked.HandOver(p).Leave(p)
    ensures WellFormed(u) && forall c: nat :: Lingers(u, c) <==> Lingers(t, c)
    ensures u.stage == t.stage[p := Gone] && forall q: nat :: p !in u.ChildrenOf(q)
  {
    var emptied := marked.HandOver(p);
    assert p != INIT && p !in t.ChildrenOf(p) by { assert ProcessOk(t, p); }
    assert emptied.parent[p] == t.parent[p];
    hide ProcessOk, CloneOk;
    StageOk(t, p, Marked(t.parent[p]), marked);
    HandOverOk(marked, p, emptied);
    LeaveOk(emptied, p, u);
    forall c: nat ensures Lingers(u, c) <==> Lingers(t, c) {
      HandOverDisorder(marked, p, emptied, c);
      LeaveDisorder(emptied, p, u, c);
    }
    assert u.stage == t.stage[p := Gone];
    NowhereListed(u, p);
  }

  /** What an exit relies on to find its way. */
  lemma ExitLinks(t: Tree, p: nat)
    requires WellFormed(t) && p in t.parent
    ensures p in t.stage && p in t.children && p != INIT && INIT in t.children
    ensures t.parent[p] in t.children && t.parent[p] != p
    ensures forall c | c in t.children[p] :: c in t.parent && c != p
  {
    assert ProcessOk(t, p) && ProcessOk(t, t.parent[p]) && ProcessOk(t, INIT);
    forall c | c in t.children[p] ensures c in t.parent && c != p {
      assert c in t.ChildrenOf(p) && ProcessOk(t, c);
    }
  }

  lemma NowhereListed(t: Tree, p: nat)
    requires WellFormed(t) && t.StageOf(p).Gone? && !Lingers(t, p)
    ensures forall q: nat :: p !in t.ChildrenOf(q)
  {
    assert ProcessOk(t, p);
  }

  class Processes {
    var parent: map<nat, nat>
    var children: map<nat, set<nat>>
    var stage: map<nat, Stage>
    var nextTgid: nat

    ghost function Abs(): Tree
      reads this
    {
      Tree(parent, children, stage, map[], nextTgid)
    }

    constructor ()
      ensures WellFormed(Abs()) && Abs() == Boot()
    {
      parent, children := map[], map[IDLE := {}, INIT := {}];
      stage, nextTgid := map[IDLE := Active, INIT := Active], 2;
      new;
      BootOk();
    }

    method AddChild(p: nat) returns (tgid: nat)
      requires WellFormed(Abs()) && INIT <= p < nextTgid && !Abs().StageOf(p).Building?
      modifies this
      ensures WellFormed(Abs()) && Abs() == old(Abs()).NewChild(p)
      ensures tgid == old(nextTgid) && nextTgid == tgid + 1 && tgid !in old(stage) && p in old(children)
      ensures parent == old(parent)[tgid := p] && stage == old(stage)[tgid := Active]
      ensures children == old(children)[tgid := {}][p := old(children)[p] + {tgid}]
    {
      hide WellFormed;
      NewChildOk(Abs(), p);
      tgid := nextTgid;
      nextTgid := nextTgid + 1;
      parent := parent[tgid := p];
      children := children[tgid := {}];
      stage := stage[tgid := Building];
      children := children[p := children[p] + {tgid}];
      stage := stage[tgid := Active];
    }

    /** Clone by a running process.  A thread adds no process.  Otherwise the child's
        parent is the caller or, on request, the caller's parent, which init lacks.  The
        child is linked before its memory is copied, so it stays if that copy fails. */
    method Clone(caller: nat, flags: Flags, memoryOk: bool) returns (r: Result<nat>)
      requires WellFormed(Abs()) && INIT <= caller && Abs().StageOf(caller).Running()
      modifies this
      ensures WellFormed(Abs())
      ensures flags.thread ==>
        Abs() == old(Abs()) && r == if flags.sighand && flags.vm then Ok(caller) else Err(InvalidValue)
      ensures !flags.thread && flags.cloneParent && caller == INIT ==> Abs() == old(Abs()) && r == Err(InvalidValue)
      ensures !flags.thread && !(flags.cloneParent && caller == INIT) ==>
        && (flags.cloneParent ==> caller in old(parent))
        && var p, c := if flags.cloneParent then old(parent)[caller] else caller, old(nextTgid);
           && p in old(children) && c !in old(stage) && nextTgid == c + 1
           && parent == old(parent)[c := p] && stage == old(stage)[c := Active]
           && children == old(children)[c := {}][p := old(children)[p] + {c}]
           && r == if flags.vm || memoryOk then Ok(c) else Err(NoMemory)
    {
      if flags.thread {
        if !(flags.sighand && flags.vm) {
          return Err(InvalidValue);
        }
        return Ok(caller);
      }
      assert ProcessOk(Abs(), caller);
      hide ProcessOk, CloneOk;
      var p := caller;
      if flags.cloneParent {
        if caller !in parent {
          return Err(InvalidValue);
        }
        p := parent[caller];
      }
      var tgid := AddChild(p);
      if !flags.vm && !memoryOk {
        return Err(NoMemory);
      }
      return Ok(tgid);
    }

    /** The whole group of `p` exits, section by section.  A second exit of the same group
        does nothing. */
    method ExitGroup(p: nat)
      requires WellFormed(Abs()) && p in parent
      modifies this
      ensures WellFormed(Abs())
      ensures !old(Abs()).StageOf(p).Running() ==> Abs() == old(Abs())
      ensures old(Abs()).StageOf(p).Running() ==>
        && stage == old(stage)[p := Gone] && nextTgid == old(nextTgid)
        && (forall q: nat :: p !in Abs().ChildrenOf(q))
        && parent.Keys == old(parent).Keys
        && (forall c | c in parent :: parent[c] == if c in old(Abs()).ChildrenOf(p) then INIT else old(parent)[c])
        && (forall q: nat :: Abs().ChildrenOf(q) ==
              (if q == p then {} else if q == INIT then old(Abs()).ChildrenOf(q) + old(Abs()).ChildrenOf(p)
               else old(Abs()).ChildrenOf(q)) - {p})
        && (forall c: nat :: Lingers(Abs(), c) <==> Lingers(old(Abs()), c))
    {
      ghost var t := Abs();
      ExitLinks(t, p);
      hide WellFormed, Lingers;
      var up := parent[p];
      if !stage[p].Running() {
        return;
      }
      stage := stage[p := Marked(up)];
      ghost var marked := Abs();
      Reparent(p);
      stage := stage[p := Emptied(up)];
      assert Abs() == marked.HandOver(p);
      children := children[up := children[up] - {p}];
      stage := stage[p := Gone];
      ExitRun(t, p, marked, Abs());
    }

    /** Hands every child of `p` to init. */
    method Reparent(p: nat)
      requires p in children && INIT in children && p != INIT
      requires forall c | c in children[p] :: c in parent
      modifies this`parent, this`children
      ensures parent == Adopted(old(parent), old(children)[p])
      ensures parent.Keys == old(parent).Keys
      ensures forall c | c in parent :: parent[c] == if c in old(children)[p] then INIT else old(parent)[c]
      ensures children == Handed(old(children), p, old(children)[p])
      ensures children == old(children)[p := {}][INIT := old(children)[INIT] + old(children)[p]]
    {
      var ours := children[p];
      children := children[p := {}];
      var moved: set<nat> := {};
      while moved != ours
        invariant moved <= ours
        invariant parent == Adopted(old(parent), moved)
        invariant children == Handed(old(children), p, moved)
        decreases |ours - moved|
      {
        assert ours - moved != {};
        var child :| child in ours && child !in moved;
        AdoptOne(old(parent), moved, child);
        parent := parent[child := INIT];
        HandOne(old(children), p, moved, child);
        children := children[INIT := children[INIT] + {child}];
        assert ours - (moved + {child}) == (ours - moved) - {child};
        moved := moved + {child};
      }
    }
  }
}
