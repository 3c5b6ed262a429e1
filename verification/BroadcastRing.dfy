/** The single-writer broadcast ring: 256 slots, each with a word made of an epoch and the set of
    readers that still have to read it. Bitmaps are sets of bit positions, counters are unbounded
    (two lemmas say when the 32-bit write index and cursors of the program give the same answers). */
module BroadcastRing {
  import opened Basics

  const SLOTS: nat := 256
  const MAX_READERS: nat := 32

  /** Machine words in one slot payload: a copy moves them one at a time. */
  const WORDS: nat := 10

  type Reader = nat

  /** What a slot carries: bytes of its own, or the id of a chunk that holds a large message. */
  datatype Body = Inline(tag: int) | Stored(chunk: nat)

  /** `pos` is the value of the write index when the message was pushed: it tells messages apart. */
  datatype Msg = Msg(pos: nat, body: Body)

  datatype Slot = Slot(ep: nat, rem: set<Reader>, msg: Option<Msg>)

  datatype Ring = Ring(cc: set<Reader>, wt: nat, epoch: nat, slots: seq<Slot>)

  function IndexOf(c: nat): (i: nat)
    ensures i < SLOTS
  {
    c % SLOTS
  }

  /** The slot the next message goes to. */
  function Target(g: Ring): Slot
    requires |g.slots| == SLOTS
  {
    g.slots[IndexOf(g.wt)]
  }

  /** `push` gives up when a connected reader still holds the slot in the current epoch. */
  predicate Refuses(g: Ring)
    requires |g.slots| == SLOTS
  {
    g.cc * Target(g).rem != {} && Target(g).ep == g.epoch
  }

  /** Claim the slot, write the payload, advance the write index. */
  function Overwrite(g: Ring, body: Body): (h: Ring)
    requires |g.slots| == SLOTS
  {
    g.(wt := g.wt + 1,
       slots := g.slots[IndexOf(g.wt) := Slot(g.epoch, g.cc, Some(Msg(g.wt, body)))])
  }

  function Bump(g: Ring): Ring {
    g.(epoch := g.epoch + 1)
  }

  /** The ring after a successful `push` (`force` false) or `force_push` (`force` true). */
  function Written(g: Ring, body: Body, force: bool): Ring
    requires |g.slots| == SLOTS
  {
    Overwrite(if force then Bump(g) else g, body)
  }

  /** Reader `r` clears its own bit in slot `i`. */
  function ClearBit(g: Ring, i: nat, r: Reader): Ring
    requires i < |g.slots|
  {
    g.(slots := g.slots[i := g.slots[i].(rem := g.slots[i].rem - {r})])
  }

  predicate SlotOk(g: Ring, hist: seq<Body>, i: nat)
    requires i < |g.slots|
  {
    var sl := g.slots[i];
    && sl.ep <= g.epoch
    && sl.rem <= g.cc
    && (sl.msg.None? ==> sl.rem == {})
    && (sl.msg.Some? ==>
          var m := sl.msg.value;
          m.pos < |hist| && IndexOf(m.pos) == i && m.body == hist[m.pos])
  }

  /** Every slot is consistent with the sequence of messages pushed so far. */
  ghost predicate SlotsOk(g: Ring, hist: seq<Body>) {
    && |g.slots| == SLOTS
    && |hist| == g.wt
    && forall i :: 0 <= i < SLOTS ==> SlotOk(g, hist, i)
  }

  /** 256 divides 2^32: a write index cut to 32 bits names the same slot. */
  lemma IndexSurvivesWrap(c: nat)
    ensures IndexOf(c % U32) == IndexOf(c)
  {
    assert c == c / U32 * U32 + c % U32;
    assert U32 == 0x100_0000 * SLOTS;
  }

  /** A cursor less than 2^32 behind compares, and is subtracted, alike on 32 bits. */
  lemma LagSurvivesWrap(cur: nat, wt: nat)
    requires cur <= wt < cur + U32
    ensures cur % U32 == wt % U32 <==> cur == wt
    ensures (wt % U32 - cur % U32 + U32) % U32 == wt - cur
  {
    var d := wt - cur;
    assert wt % U32 == (if cur % U32 + d < U32 then cur % U32 + d else cur % U32 + d - U32);
  }

  lemma WrittenKeepsSlots(g: Ring, hist: seq<Body>, body: Body, force: bool)
    requires SlotsOk(g, hist)
    ensures SlotsOk(Written(g, body, force), hist + [body])
  {
    var h := Written(g, body, force);
    forall i | 0 <= i < SLOTS ensures SlotOk(h, hist + [body], i) {
      assert SlotOk(g, hist, i);
    }
  }

  lemma ClearBitKeepsSlots(g: Ring, hist: seq<Body>, i: nat, r: Reader)
    requires SlotsOk(g, hist) && i < SLOTS
    ensures SlotsOk(ClearBit(g, i, r), hist)
  {
    var h := ClearBit(g, i, r);
    forall j | 0 <= j < SLOTS ensures SlotOk(h, hist, j) {
      assert SlotOk(g, hist, j);
    }
  }
}
