/** The file descriptor table: a growing vector of entries with a search hint. */
module FdTable {
  import opened Common

  const MAX_FDS: nat := 8192

  datatype Entry = Entry(file: nat, cloexec: bool)

  /** The lowest free descriptor from `from` on; one past the end if none is free. */
  function Search(entries: seq<Option<Entry>>, from: nat): (fd: nat)
    requires from <= |entries|
    ensures from <= fd <= |entries| && (fd < |entries| ==> entries[fd].None?)
    ensures forall i | from <= i < fd :: entries[i].Some?
    decreases |entries| - from
  {
    if from == |entries| || entries[from].None? then from else Search(entries, from + 1)
  }

  datatype Table = Table(entries: seq<Option<Entry>>, hint: nat) {

    /** Nothing below the hint is free. */
    ghost predicate Valid() {
      hint <= |entries| && forall i | 0 <= i < hint :: entries[i].Some?
    }

    function Get(fd: int): Option<Entry> { if 0 <= fd < |entries| then entries[fd] else None }

    predicate Has(fd: int) { Get(fd).Some? }

    /** The entries with one placed at `fd`, the table growing with free slots as needed. */
    function Placed(fd: nat, entry: Entry): seq<Option<Entry>> {
      (if fd < |entries| then entries else entries + seq(fd + 1 - |entries|, _ => None))[fd := Some(entry)]
    }

    function Insert(file: nat): (Table, Result<nat>)
      requires hint <= |entries|
    {
      var fd := Search(entries, hint);
      if fd == |entries| && fd >= MAX_FDS then (this, Err(TooManyFiles))
      else (Table(Placed(fd, Entry(file, false)), fd + 1), Ok(fd))
    }

    /** Frees one descriptor and no other. */
    function Remove(fd: int): (u: Table)
      ensures forall i :: u.Get(i) == if i == fd then None else Get(i)
    {
      if Has(fd) then Table(entries[fd := None], if hint <= fd then hint else fd) else this
    }

    function Dup(fd: int): (Table, Result<nat>)
      requires hint <= |entries|
    {
      if Has(fd) then Insert(entries[fd].value.file) else (this, Err(BadFd))
    }

    /** Points one descriptor, open or not, at another's file. */
    function Dup3(oldFd: int, newFd: nat, cloexec: bool, otherFlags: bool): (r: (Table, Result<nat>))
      ensures r.1.Ok? <==> oldFd != newFd && !otherFlags && Has(oldFd)
      ensures r.1.Err? ==> r.0 == this
      ensures r.1.Ok? ==> r.1.value == newFd && r.0.Get(newFd) == Some(Entry(Get(oldFd).value.file, cloexec))
      ensures r.1.Ok? ==> |r.0.entries| == Max(|entries|, newFd + 1)
      ensures forall i | i != newFd :: r.0.Get(i) == Get(i)
    {
      if oldFd == newFd || otherFlags then (this, Err(InvalidValue))
      else if !Has(oldFd) then (this, Err(BadFd))
      else (Table(Placed(newFd, Entry(entries[oldFd].value.file, cloexec)), hint), Ok(newFd))
    }

    /** Keeps exactly the descriptors that are not close-on-exec, under their numbers. */
    function CloneForExec(): (u: Table)
      ensures forall i :: u.Get(i) == if Has(i) && Get(i).value.cloexec then None else Get(i)
    {
      Table(seq(|entries|, i requires 0 <= i < |entries| =>
              if entries[i].Some? && !entries[i].value.cloexec then entries[i] else None), 0)
    }
  }

  /** A search that starts where everything below is taken finds what a search from zero
      finds. */
  lemma {:induction false} SkipTaken(entries: seq<Option<Entry>>, from: nat)
    requires from <= |entries| && forall i | 0 <= i < from :: entries[i].Some?
    ensures Search(entries, 0) == Search(entries, from)
    decreases from
  {
    if from > 0 { SkipTaken(entries, from - 1); }
  }

  /** The descriptor a new file must get: the lowest that is not in use. */
  ghost predicate LowestFree(t: Table, fd: nat) { !t.Has(fd) && forall i: nat | i < fd :: t.Has(i) }

  /** Insertion finds the lowest free descriptor, changes no other, and is refused exactly
      when every slot is taken and the table has reached its limit. */
  lemma InsertTakesLowest(t: Table, file: nat)
    requires t.Valid()
    ensures var (u, r) := t.Insert(file);
      && u.Valid()
      && (r.Err? <==> (forall i | 0 <= i < |t.entries| :: t.entries[i].Some?) && |t.entries| >= MAX_FDS)
      && (r.Err? ==> u == t && r == Err(TooManyFiles))
      && (r.Ok? ==>
            && LowestFree(t, r.value) && u.Get(r.value) == Some(Entry(file, false))
            && |u.entries| == Max(|t.entries|, r.value + 1)
            && (forall i | i != r.value :: u.Get(i) == t.Get(i)))
  {
    SkipTaken(t.entries, t.hint);
  }

  /** Duplicating is refused exactly for a descriptor that is not open and for a table with
      no slot left; otherwise it gives the lowest free descriptor, for the same file. */
  lemma DupTakesLowest(t: Table, fd: int)
    requires t.Valid()
    ensures var (u, r) := t.Dup(fd);
      && (r == Err(BadFd) <==> !t.Has(fd))
      && (r == Err(TooManyFiles) <==>
            t.Has(fd) && (forall i | 0 <= i < |t.entries| :: t.entries[i].Some?) && |t.entries| >= MAX_FDS)
      && (r.Err? ==> u == t && r.error in {BadFd, TooManyFiles})
      && (r.Ok? ==>
            && LowestFree(t, r.value) && u.Get(r.value) == Some(Entry(t.Get(fd).value.file, false))
            && (forall i | i != r.value :: u.Get(i) == t.Get(i)))
  {
    if t.Has(fd) { InsertTakesLowest(t, t.entries[fd].value.file); }
  }

  datatype Op =
    | InsertOp(file: nat)
    | RemoveOp(fd: int)
    | DupOp(fd: int)
    | Dup3Op(oldFd: int, newFd: nat, cloexec: bool, otherFlags: bool)
    | CloneOp

  function Next(t: Table, op: Op): Table
    requires t.hint <= |t.entries|
  {
    match op
    case InsertOp(file) => t.Insert(file).0
    case RemoveOp(fd) => t.Remove(fd)
    case DupOp(fd) => t.Dup(fd).0
    case Dup3Op(o, n, cloexec, other) => t.Dup3(o, n, cloexec, other).0
    case CloneOp => t.CloneForExec()
  }

  lemma StepKeepsValid(t: Table, op: Op)
    requires t.Valid()
    ensures Next(t, op).Valid()
  {
    match op
    case InsertOp(file) => InsertTakesLowest(t, file);
    case DupOp(fd) => if t.Has(fd) { InsertTakesLowest(t, t.entries[fd].value.file); }
    case _ =>
  }

  ghost function Run(t: Table, run: seq<Op>): (u: Table)
    requires t.Valid()
    ensures u.Valid()
    decreases |run|
  {
    if run == [] then t
    else
      StepKeepsValid(t, run[0]);
      Run(Next(t, run[0]), run[1..])
  }

  /** After any run of operations from an empty table, the next descriptor handed out is
      the lowest free one, as a linear search from zero would find. */
  lemma HintedSearchIsLinear(run: seq<Op>, file: nat)
    ensures var t := Run(Table([], 0), run);
      && Search(t.entries, t.hint) == Search(t.entries, 0)
      && (t.Insert(file).1.Ok? ==> LowestFree(t, t.Insert(file).1.value))
      && (t.Insert(file).1.Err? ==> |t.entries| >= MAX_FDS && forall i: nat | i < |t.entries| :: t.Has(i))
  {
    var t := Run(Table([], 0), run);
    SkipTaken(t.entries, t.hint);
    InsertTakesLowest(t, file);
  }

  // ---------------------------------------------------------------------- in place

  /** The descriptors in use, whatever vector holds them. */
  ghost function Open(t: Table): map<nat, Entry> {
    map fd: nat | fd < |t.entries| && t.entries[fd].Some? :: t.entries[fd].value
  }

  ghost predicate LowestUnused(open: map<nat, Entry>, fd: nat) { fd !in open && forall i: nat | i < fd :: i in open }

  /** Two tables that agree at every descriptor but one. */
  lemma OpenPut(t: Table, u: Table, fd: nat, entry: Entry)
    requires u.Get(fd) == Some(entry) && forall i | i != fd :: u.Get(i) == t.Get(i)
    ensures Open(u) == Open(t)[fd := entry]
  {
    assert forall i: nat :: i in Open(u) <==> u.Get(i).Some?;
    assert forall i: nat :: i in Open(t) <==> t.Get(i).Some?;
    forall i: nat | i in Open(u) ensures Open(u)[i] == Open(t)[fd := entry][i] {
      assert u.Get(i) == Some(Open(u)[i]);
    }
  }

  lemma OpenDrop(t: Table, fd: int)
    ensures Open(t.Remove(fd)) == map i: nat | i in Open(t) && i != fd :: Open(t)[i]
  {
    var u := t.Remove(fd);
    assert forall i: nat :: i in Open(u) <==> u.Get(i).Some?;
    assert forall i: nat :: i in Open(t) <==> t.Get(i).Some?;
    forall i: nat | i in Open(u) ensures Open(u)[i] == Open(t)[i] {
      assert u.Get(i) == Some(Open(u)[i]);
    }
  }

  /** What a process sees of an insertion. */
  lemma InsertOpens(t: Table, file: nat)
    requires t.Valid()
    ensures var (u, r) := t.Insert(file);
      && (r.Ok? ==> LowestUnused(Open(t), r.value) && Open(u) == Open(t)[r.value := Entry(file, false)])
      && (r.Err? <==> |t.entries| >= MAX_FDS && |Open(t)| == |t.entries|)
      && (r.Err? ==> u == t && r == Err(TooManyFiles))
  {
    InsertTakesLowest(t, file);
    var (u, r) := t.Insert(file);
    assert forall i: nat :: i in Open(t) <==> t.Get(i).Some?;
    AllOpen(t);
    if r.Ok? { OpenPut(t, u, r.value, Entry(file, false)); }
  }

  ghost function OpenBelow(t: Table, n: nat): set<nat>
    requires n <= |t.entries|
  {
    set fd: nat | fd < n && t.entries[fd].Some?
  }

  lemma OpenBelowNext(t: Table, n: nat)
    requires n < |t.entries|
    ensures |OpenBelow(t, n + 1)| == |OpenBelow(t, n)| + if t.entries[n].Some? then 1 else 0
  {
    assert OpenBelow(t, n + 1) == OpenBelow(t, n) + if t.entries[n].Some? then {n} else {};
  }

  lemma {:induction false} OpenBelowCount(t: Table, n: nat)
    requires n <= |t.entries|
    ensures |OpenBelow(t, n)| <= n
    ensures |OpenBelow(t, n)| == n <==> forall i | 0 <= i < n :: t.entries[i].Some?
  {
    if n > 0 {
      hide OpenBelow;
      OpenBelowCount(t, n - 1);
      OpenBelowNext(t, n - 1);
    }
  }

  /** A table is full exactly when it has as many open descriptors as slots. */
  lemma AllOpen(t: Table)
    ensures |Open(t)| <= |t.entries|
    ensures |Open(t)| == |t.entries| <==> forall i | 0 <= i < |t.entries| :: t.entries[i].Some?
  {
    OpenBelowCount(t, |t.entries|);
    assert Open(t).Keys == OpenBelow(t, |t.entries|);
  }

  class Descriptors {
    var entries: seq<Option<Entry>>
    var nextFdHint: nat

    ghost function Abs(): Table
      reads this
    {
      Table(entries, nextFdHint)
    }

    ghost predicate Valid()
      reads this
    {
      Abs().Valid()
    }

    constructor ()
      ensures Valid() && Abs() == Table([], 0) && Open(Abs()) == map[]
    {
      entries, nextFdHint := [], 0;
    }

    method FindFreeFd() returns (r: Result<nat>)
      requires nextFdHint <= |entries|
      modifies this`nextFdHint
      ensures var fd := Search(entries, old(nextFdHint));
        if fd == |entries| && fd >= MAX_FDS then r == Err(TooManyFiles) && nextFdHint == old(nextFdHint)
        else r == Ok(fd) && nextFdHint == fd + 1
    {
      for i := nextFdHint to |entries|
        invariant nextFdHint == old(nextFdHint) && Search(entries, old(nextFdHint)) == Search(entries, i)
      {
        if entries[i].None? {
          nextFdHint := i + 1;
          return Ok(i);
        }
      }
      var next := |entries|;
      if next >= MAX_FDS {
        return Err(TooManyFiles);
      }
      nextFdHint := next + 1;
      return Ok(next);
    }

    method InsertAt(fd: nat, entry: Entry) returns (replaced: Option<Entry>)
      modifies this`entries
      ensures entries == old(Abs()).Placed(fd, entry)
      ensures replaced == if fd < old(|entries|) then old(entries)[fd] else None
      ensures |entries| == Max(old(|entries|), fd + 1)
    {
      if fd >= |entries| {
        entries := entries + seq(fd + 1 - |entries|, _ => None);
      }
      replaced := entries[fd];
      entries := entries[fd := Some(entry)];
    }

    /** Opens a file under the lowest unused descriptor; refused exactly when the table has
        reached its limit and every slot is in use. */
    method Insert(file: nat) returns (r: Result<nat>)
      requires Valid()
      modifies this
      ensures Valid() && r == old(Abs()).Insert(file).1
      ensures r.Ok? ==> LowestUnused(old(Open(Abs())), r.value)
      ensures r.Ok? ==> Open(Abs()) == old(Open(Abs()))[r.value := Entry(file, false)]
      ensures r.Err? <==> old(|entries|) >= MAX_FDS && |old(Open(Abs()))| == old(|entries|)
      ensures r.Err? ==> r == Err(TooManyFiles) && Abs() == old(Abs())
    {
      InsertTakesLowest(Abs(), file);
      InsertOpens(Abs(), file);
      r := FindFreeFd();
      if r.Ok? {
        var replaced := InsertAt(r.value, Entry(file, false));
      }
    }

    /** Closes one descriptor and no other. */
    method Remove(fd: int) returns (file: Option<nat>)
      requires Valid()
      modifies this
      ensures Valid() && Open(Abs()) == map i: nat | i in old(Open(Abs())) && i != fd :: old(Open(Abs()))[i]
      ensures file == if fd >= 0 && fd in old(Open(Abs())) then Some(old(Open(Abs()))[fd].file) else None
    {
      OpenDrop(Abs(), fd);
      if 0 <= fd < |entries| && entries[fd].Some? {
        file := Some(entries[fd].value.file);
        entries := entries[fd := None];
        nextFdHint := if nextFdHint <= fd then nextFdHint else fd;
      } else {
        file := None;
      }
    }

    /** A second descriptor for an open file, the lowest unused one. */
    method Dup(fd: int) returns (r: Result<nat>)
      requires Valid()
      modifies this
      ensures Valid() && (r == Err(BadFd) <==> !(fd >= 0 && fd in old(Open(Abs()))))
      ensures r == Err(TooManyFiles) <==>
        fd >= 0 && fd in old(Open(Abs())) && old(|entries|) >= MAX_FDS && |old(Open(Abs()))| == old(|entries|)
      ensures r.Err? ==> Abs() == old(Abs()) && r.error in {BadFd, TooManyFiles}
      ensures r.Ok? ==>
        && LowestUnused(old(Open(Abs())), r.value)
        && Open(Abs()) == old(Open(Abs()))[r.value := Entry(old(Open(Abs()))[fd].file, false)]
    {
      if !(0 <= fd < |entries| && entries[fd].Some?) {
        return Err(BadFd);
      }
      r := Insert(entries[fd].value.file);
    }

    /** Points the descriptor `newFd`, open or not, at the file of `oldFd`. */
    method Dup3(oldFd: int, newFd: nat, cloexec: bool, otherFlags: bool) returns (r: Result<nat>)
      requires Valid()
      modifies this`entries
      ensures Valid() && (r == Err(InvalidValue) <==> oldFd == newFd || otherFlags)
      ensures r == Err(BadFd) <==> oldFd != newFd && !otherFlags && !(oldFd >= 0 && oldFd in old(Open(Abs())))
      ensures r.Err? ==> Abs() == old(Abs()) && r.error in {InvalidValue, BadFd}
      ensures r.Ok? ==>
        && r.value == newFd
        && Open(Abs()) == old(Open(Abs()))[newFd := Entry(old(Open(Abs()))[oldFd].file, cloexec)]
    {
      if oldFd == newFd || otherFlags {
        return Err(InvalidValue);
      }
      if !(0 <= oldFd < |entries| && entries[oldFd].Some?) {
        return Err(BadFd);
      }
      var entry := Entry(entries[oldFd].value.file, cloexec);
      var replaced := InsertAt(newFd, entry);
      OpenPut(old(Abs()), Abs(), newFd, entry);
      return Ok(newFd);
    }
  }
}
