/** The free list of chunk ids, threaded through an array of bytes in shared memory. */
module IdPool {
  import opened Basics
  import opened DzFlatWire

  /** large_msg_cache: the number of ids of a pool, and the mark of the list's end. */
  const COUNT: nat := 32

  /** The head of a list of ids. */
  function Head(free: seq<nat>): nat {
    if free == [] then COUNT else free[0]
  }

  /** Following `next` from `cursor` runs through `free` and ends at the mark. */
  predicate Threaded(next: seq<byte>, cursor: byte, free: seq<nat>)
    requires |next| == COUNT
  {
    && (forall i :: 0 <= i < |free| ==> free[i] < COUNT)
    && cursor == Head(free)
    && forall i :: 0 <= i < |free| ==> next[free[i]] == Head(free[i + 1..])
  }

  function Range(a: nat, b: nat): (s: seq<nat>)
    requires a <= b
    ensures |s| == b - a && forall i :: 0 <= i < |s| ==> s[i] == a + i
  {
    seq(b - a, i => a + i)
  }

  class Pool {
    const next: array<byte>
    var cursor: byte
    var prepared: bool
    /** The list as a stack, its top first. */
    ghost var free: seq<nat>

    ghost predicate Valid()
      reads this, next
    {
      next.Length == COUNT && Distinct(free) && Threaded(next[..], cursor, free)
    }

    /** Fresh shared memory is all zero. */
    constructor ()
      ensures fresh(next) && next.Length == COUNT && !prepared && cursor == 0
      ensures forall i :: 0 <= i < COUNT ==> next[i] == 0
    {
      next := new byte[COUNT](_ => 0);
      cursor, prepared, free := 0, false, [];
    }

    /** Thread all ids in order, the first time the pool is used. */
    method Prepare()
      requires next.Length == COUNT && (prepared ==> Valid())
      requires !prepared ==> cursor == 0 && forall i :: 0 <= i < COUNT ==> next[i] == 0
      modifies this, next
      ensures prepared && Valid()
      ensures free == if old(prepared) then old(free) else Range(0, COUNT)
    {
      if !prepared {
        var i := 0;
        while i < COUNT
          invariant i <= COUNT && cursor == 0 && !prepared && next.Length == COUNT
          invariant forall k :: 0 <= k < i ==> next[k] == k + 1
        {
          next[i] := i + 1;
          i := i + 1;
        }
        free := Range(0, COUNT);
      }
      prepared := true;
    }

    /** The top of the stack; None stands for -1. */
    method Acquire() returns (id: Option<nat>)
      requires Valid()
      modifies this
      ensures Valid() && prepared == old(prepared)
      ensures old(free) == [] ==> id == None && free == []
      ensures old(free) != [] ==> id == Some(old(free)[0]) && free == old(free)[1..]
    {
      if cursor == COUNT { return None; }
      id := Some(cursor);
      cursor := next[cursor];
      free := free[1..];
    }

    /** Push an id back. Nothing here notices an id that is already in. */
    method Release(id: nat)
      requires Valid() && id < COUNT
      modifies this, next
      ensures next[..] == old(next[..])[id := old(cursor)] && cursor == id && prepared == old(prepared)
      ensures id !in old(free) ==> Valid() && free == [id] + old(free)
    {
      ghost var was := free;
      next[id] := cursor;
      cursor := id;
      free := [id] + free;
      if id !in was {
        forall i | 0 <= i < |free| ensures next[free[i]] == Head(free[i + 1..]) {
          if i > 0 { assert free[i] == was[i - 1] && free[i + 1..] == was[i..]; } else { assert free[1..] == was; }
        }
      }
    }
  }

  // ---------------------------------------------------------------- releasing twice

  /** Following the links `n` times. */
  function Follow(next: seq<byte>, at: byte, n: nat): byte
    requires |next| == COUNT
    decreases n
  {
    if n == 0 || at >= COUNT then at else Follow(next, next[at], n - 1)
  }

  /** A sound list ends: after as many links as it has ids the mark is reached. */
  lemma {:induction false} ThreadedEnds(next: seq<byte>, cursor: byte, free: seq<nat>)
    requires |next| == COUNT && Threaded(next, cursor, free)
    ensures Follow(next, cursor, |free|) == COUNT
    decreases |free|
  {
    if free != [] {
      var rest := free[1..];
      forall i | 0 <= i < |rest| ensures next[rest[i]] == Head(rest[i + 1..]) {
        assert rest[i + 1..] == free[i + 2..] && rest[i] == free[i + 1];
      }
      ThreadedEnds(next, next[cursor], rest);
    }
  }

  /** Releasing an id that is in the list closes a ring: from then on the list never ends, and the ids
      below that one are lost. Released twice in a row, every acquire gives the same id. */
  lemma {:induction false} ReleasedTwiceNeverEnds(next: seq<byte>, cursor: byte, free: seq<nat>, j: nat, n: nat)
    requires |next| == COUNT && Distinct(free) && Threaded(next, cursor, free) && j < |free|
    ensures var next' := next[free[j] := cursor];
            && Follow(next', free[j], n) in free[..j + 1]
            && (j == 0 ==> Follow(next', free[j], n) == free[j])
    decreases n
  {
    RingStays(next, cursor, free, j, j, n);
    assert j == 0 ==> free[..1] == [free[0]];
  }

  lemma RingNext(next: seq<byte>, cursor: byte, free: seq<nat>, j: nat, k: nat)
    requires |next| == COUNT && Distinct(free) && Threaded(next, cursor, free) && k <= j < |free|
    ensures next[free[j] := cursor][free[k]] == free[if k == j then 0 else k + 1]
  {
    assert k < j ==> next[free[k]] == Head(free[k + 1..]);
  }

  lemma {:induction false} RingStays(next: seq<byte>, cursor: byte, free: seq<nat>, j: nat, k: nat, n: nat)
    requires |next| == COUNT && Distinct(free) && Threaded(next, cursor, free) && k <= j < |free|
    ensures Follow(next[free[j] := cursor], free[k], n) in free[..j + 1]
    decreases n
  {
    hide Threaded, Distinct;
    assert free[k] == free[..j + 1][k];
    if n > 0 {
      RingNext(next, cursor, free, j, k);
      RingStays(next, cursor, free, j, if k == j then 0 else k + 1, n - 1);
    }
  }
}
