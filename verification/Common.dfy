/** What the other modules share: optional values, the kernel's error results, bytes and
    pages, and a few functions on numbers and lists. */
module Common {

  datatype Option<+T> = None | Some(value: T) {
    predicate IsFailure() { None? }

    function PropagateFailure<U>(): Option<U>
      requires None?
    {
      None
    }

    function Extract(): T
      requires Some?
    {
      value
    }
  }

  datatype Error = InvalidValue | NoMemory | NoMemRegion | TooLarge | TooManyFiles | BadFd | AlreadyMapped | ReadFailed

  datatype Result<+T> = Ok(value: T) | Err(error: Error)

  type Byte = x: int | 0 <= x < 256

  const PAGE_SIZE: nat := 4096

  function Min(a: int, b: int): int { if a <= b then a else b }
  function Max(a: int, b: int): int { if a >= b then a else b }

  /** The list without the first occurrence of `x`. */
  function Remove(l: seq<nat>, x: nat): seq<nat> {
    if l == [] then []
    else if l[0] == x then l[1..]
    else [l[0]] + Remove(l[1..], x)
  }

  ghost predicate NoDuplicates(l: seq<nat>) { forall i, j | 0 <= i < j < |l| :: l[i] != l[j] }

  /** A list without duplicates loses the one element removed and nothing else. */
  lemma {:induction false} RemoveOne(l: seq<nat>, x: nat)
    requires NoDuplicates(l)
    ensures NoDuplicates(Remove(l, x)) && forall y :: y in Remove(l, x) <==> y in l && y != x
  {
    if l != [] {
      assert l == [l[0]] + l[1..];
      assert forall i | 0 <= i < |l[1..]| :: l[1..][i] == l[i + 1] != l[0];
      RemoveOne(l[1..], x);
      if l[0] != x {
        var rest := Remove(l[1..], x);
        assert l[0] !in l[1..];
        assert forall i | 0 <= i < |rest| :: rest[i] in rest && rest[i] != l[0];
      }
    }
  }
}
