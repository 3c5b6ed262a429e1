/** The ring in shared memory and a process's handle on it, updated in place. */
module Channel {
  import opened Basics
  import opened BroadcastRing
  import Fifo

  /** The lowest free connection bit at or above `k`. */
  function LowestFree(cc: set<Reader>, k: nat): (r: nat)
    requires k <= MAX_READERS
    ensures k <= r <= MAX_READERS
    ensures r < MAX_READERS ==> r !in cc
    ensures forall q :: k <= q < r ==> q in cc
    decreases MAX_READERS - k
  {
    if k == MAX_READERS || k !in cc then k else LowestFree(cc, k + 1)
  }

  class Elems {
    var cc: set<Reader>
    var wt: nat
    var epoch: nat
    const slots: array<Slot>

    ghost predicate Valid()
      reads this
    {
      slots.Length == SLOTS
    }

    ghost function Contents(): (g: Ring)
      reads this, slots
      requires Valid()
    {
      Ring(cc, wt, epoch, slots[..])
    }

    constructor ()
      ensures Valid() && fresh(slots)
      ensures Contents().cc == {} && Contents().wt == 0 && Contents().epoch == 0
      ensures forall i :: 0 <= i < SLOTS ==> Contents().slots[i] == Slot(0, {}, None)
    {
      cc, wt, epoch := {}, 0, 0;
      slots := new Slot[SLOTS](_ => Slot(0, {}, None));
    }

    method ConnectReceiver() returns (r: Option<Reader>)
      requires Valid()
      modifies this`cc
      ensures r.None? ==> cc == old(cc) && forall q :: 0 <= q < MAX_READERS ==> q in cc
      ensures r.Some? ==> r.value < MAX_READERS && r.value !in old(cc) && cc == old(cc) + {r.value}
      ensures r.Some? ==> forall q :: 0 <= q < r.value ==> q in old(cc)
    {
      var bit := LowestFree(cc, 0);
      if bit == MAX_READERS {
        r := None;
      } else {
        cc := cc + {bit};
        r := Some(bit);
      }
    }

    /** `lost` is handed to the overwrite callback: the readers that will never see the old message. */
    method Push(body: Body) returns (ok: bool, lost: set<Reader>)
      requires Valid()
      modifies this, slots
      ensures Valid()
      ensures ok == (old(cc) != {} && !Refuses(old(Contents())))
      ensures Contents() == if ok then Written(old(Contents()), body, false) else old(Contents())
      ensures ok ==> lost == Target(old(Contents())).rem
    {
      lost := {};
      if cc == {} { return false, lost; }
      var i := IndexOf(wt);
      if cc * slots[i].rem != {} && slots[i].ep == epoch { return false, lost; }
      lost := slots[i].rem;
      slots[i] := Slot(epoch, cc, Some(Msg(wt, body)));
      wt := wt + 1;
      ok := true;
    }

    method ForcePush(body: Body) returns (ok: bool, lost: set<Reader>)
      requires Valid()
      modifies this, slots
      ensures Valid()
      ensures ok == (old(cc) != {})
      ensures Contents() == if ok then Written(old(Contents()), body, true) else Bump(old(Contents()))
      ensures ok ==> lost == Target(old(Contents())).rem
    {
      lost := {};
      epoch := epoch + 1;
      if cc == {} { return false, lost; }
      var i := IndexOf(wt);
      lost := slots[i].rem;
      slots[i] := Slot(epoch, cc, Some(Msg(wt, body)));
      wt := wt + 1;
      ok := true;
    }

    /** The scan of `pop`: from the resynchronised cursor to the first slot that still has the
        reader's bit. */
    method Pop(r: Reader, from: nat) returns (p: Fifo.PopResult)
      requires Valid() && from <= wt
      modifies slots
      ensures Valid()
      ensures p == Fifo.Pop(old(Contents()), r, from)
      ensures Contents() == Fifo.AfterPop(old(Contents()), r, p)
    {
      var cur := if from + SLOTS < wt then wt - SLOTS else from;
      while cur != wt
        invariant cur <= wt
        invariant slots[..] == old(slots[..])
        invariant Fifo.Pop(old(Contents()), r, from) == Fifo.PopFrom(old(Contents()), r, cur)
        decreases wt - cur
      {
        var i := IndexOf(cur);
        cur := cur + 1;
        var sl := slots[i];
        if r in sl.rem {
          slots[i] := sl.(rem := sl.rem - {r});
          return Fifo.Popped(cur, i, sl.msg, sl.rem - {r} == {});
        }
      }
      p := Fifo.Empty(cur);
    }
  }

  class Queue {
    const elems: Elems
    var connected: Option<Reader>
    var cursor: nat

    ghost predicate Valid()
      reads this, elems
    {
      elems.Valid() && cursor <= elems.wt
    }

    constructor (elems: Elems)
      requires elems.Valid()
      ensures this.elems == elems && Valid() && connected == None
    {
      this.elems := elems;
      connected, cursor := None, 0;
    }

    /** A new receiver starts at the write index; connecting twice changes nothing. */
    method Connect() returns (ok: bool)
      requires Valid()
      modifies this, elems`cc
      ensures Valid()
      ensures old(connected.Some? && connected.value in elems.cc) ==>
                ok && cursor == old(cursor) && connected == old(connected) && elems.cc == old(elems.cc)
      ensures !old(connected.Some? && connected.value in elems.cc) && ok ==>
                && connected.Some? && connected.value < MAX_READERS && connected.value !in old(elems.cc)
                && elems.cc == old(elems.cc) + {connected.value} && cursor == elems.wt
      ensures !ok ==> forall q :: 0 <= q < MAX_READERS ==> q in elems.cc
    {
      if connected.Some? && connected.value in elems.cc { return true; }
      connected := elems.ConnectReceiver();
      if connected.None? { return false; }
      cursor := elems.wt;
      ok := true;
    }

    /** One `pop` of a connected receiver moves its cursor as the step relation says. */
    method Pop() returns (p: Fifo.PopResult)
      requires Valid() && connected.Some?
      modifies this`cursor, elems.slots
      ensures Valid()
      ensures p == Fifo.Pop(old(elems.Contents()), connected.value, old(cursor)) && cursor == p.cur
      ensures elems.Contents() == Fifo.AfterPop(old(elems.Contents()), connected.value, p)
    {
      p := elems.Pop(connected.value, cursor);
      cursor := p.cur;
    }
  }
}
