/** Sender and receivers of one broadcast channel, interleaved at the granularity of single atomic
    accesses, together with the chunk pool of one size class. */
module Ownership {
  import opened Basics
  import opened BroadcastRing

  /** Chunks in one size class (`large_msg_cache`). */
  const CHUNKS: nat := 32

  /** Where a receiver is inside `recv`/`pop`. A copied word is recorded as the message it was
      copied from, so a torn copy is a buffer with words of different messages. */
  datatype Pc =
    | Joining
    | Idle
    | Resync
    | Scan
    | Load(i: nat)
    | Copy(i: nat, ep0: nat, buf: seq<Option<Msg>>)
    | Recheck(i: nat, ep0: nat, buf: seq<Option<Msg>>)
    | Clear(i: nat, ep0: nat, buf: seq<Option<Msg>>)
    | Cas(i: nat, ep0: nat, buf: seq<Option<Msg>>, seen: set<Reader>)
    | Got(buf: seq<Option<Msg>>)

  /** `pop` returned true with these words, having cleared its bit on message `pos`. */
  datatype Delivery = Delivery(pos: nat, buf: seq<Option<Msg>>)

  /** `held` maps each chunk whose buffer the receiver still has to the connection bitmap that
      `recv` captured for it; `releasing` are the chunks this receiver found itself last on. */
  datatype RState = RState(cur: nat, pc: Pc, log: seq<Delivery>,
                           held: map<nat, set<Reader>>, releasing: set<nat>)

  /** Bookkeeping only: no step reads it. `Live(home)` remembers the slot of the publication. */
  datatype Phase = Free | Loaned | Live(home: nat) | Releasing(party: Reader)

  datatype State = State(g: Ring, hist: seq<Body>, free: seq<nat>, conns: seq<set<Reader>>,
                         loans: set<nat>, readers: map<Reader, RState>, phase: seq<Phase>)

  datatype Action =
    | Connect(r: Reader)                  // connect_receiver: take a free bit
    | LoadCursor(r: Reader)               // cursor_ = elems->cursor()
    | Loan(seen: set<Reader>)             // acquire_storage with the bitmap loaded before it
    | DiscardLoan(c: nat)
    | Publish(c: nat, force: bool)
    | SendInline(tag: int, force: bool)
    | StartPop(r: Reader)
    | DoResync(r: Reader)
    | Check(r: Reader)
    | LoadRc(r: Reader)
    | CopyWord(r: Reader)
    | Reload(r: Reader)
    | ClearLoad(r: Reader)
    | ClearCas(r: Reader, spurious: bool) // a weak compare-exchange may fail for no reason
    | Finish(r: Reader)                   // recv: capture the bitmap, build the buffer
    | Recycle(r: Reader, c: nat)          // buffer destroyed: sub_rc
    | Release(r: Reader, c: nat)          // id back to the pool

  // ---------------------------------------------------------------- steps

  predicate Shape(s: State) {
    && |s.g.slots| == SLOTS
    && |s.conns| == CHUNKS
    && |s.phase| == CHUNKS
    && s.readers.Keys == s.g.cc
  }

  /** The chunk id `recv` reads out of the copied words: the flag is in word 1, the id in word 2. */
  function StorageOf(buf: seq<Option<Msg>>): Option<nat> {
    if |buf| == WORDS && buf[1].Some? && buf[1].value.body.Stored?
                      && buf[2].Some? && buf[2].value.body.Stored?
    then Some(buf[2].value.body.chunk)
    else None
  }

  function WithReader(s: State, r: Reader, rs: RState): State {
    s.(readers := s.readers[r := rs])
  }

  function WithPc(s: State, r: Reader, pc: Pc): State
    requires r in s.readers
  {
    WithReader(s, r, s.readers[r].(pc := pc))
  }

  /** `clear_message`: the chunk of an overwritten message loses the bits of the readers that will
      never come for it, and goes back to the pool if nobody is left. */
  function Discarded(s: State, was: Slot): State
    requires Shape(s)
  {
    if was.msg.Some? && was.msg.value.body.Stored? && was.msg.value.body.chunk < CHUNKS && was.rem != {} then
      var c := was.msg.value.body.chunk;
      var left := s.conns[c] - was.rem;
      if left == {} then
        s.(conns := s.conns[c := left], free := [c] + s.free, phase := s.phase[c := Free])
      else
        s.(conns := s.conns[c := left])
    else s
  }

  function Send(s: State, body: Body, force: bool): State
    requires Shape(s)
  {
    Discarded(s, Target(s.g)).(g := Written(s.g, body, force), hist := s.hist + [body])
  }

  function SetPhase(s: State, c: nat, p: Phase): State
    requires c < |s.phase|
  {
    s.(phase := s.phase[c := p])
  }

  function Delivered(s: State, r: Reader, i: nat, buf: seq<Option<Msg>>): State
    requires r in s.readers && i < |s.g.slots|
  {
    var rs := s.readers[r];
    var pos := if s.g.slots[i].msg.Some? then s.g.slots[i].msg.value.pos else 0;
    WithReader(s, r, rs.(pc := Got(buf), log := rs.log + [Delivery(pos, buf)]))
  }

  /** `sub_rc` on the broadcast flag. */
  function Recycled(s: State, r: Reader, c: nat): State
    requires Shape(s) && r in s.readers && c in s.readers[r].held && c < CHUNKS
  {
    var rs := s.readers[r];
    var left := s.conns[c] * (rs.held[c] - {r});
    var rs' := rs.(held := rs.held - {c});
    if left == {} then
      WithReader(s.(conns := s.conns[c := left], phase := s.phase[c := Releasing(r)]), r,
                 rs'.(releasing := rs.releasing + {c}))
    else
      WithReader(s.(conns := s.conns[c := left]), r, rs')
  }

  predicate Enabled(s: State, a: Action)
    requires Shape(s)
  {
    match a
    case Connect(r) => r < MAX_READERS && r !in s.g.cc
    case LoadCursor(r) => r in s.readers && s.readers[r].pc.Joining?
    case Loan(seen) => seen != {} && seen <= s.g.cc && s.free != [] && s.free[0] < CHUNKS
    case DiscardLoan(c) => c in s.loans && c < CHUNKS
    case Publish(c, force) => c in s.loans && c < CHUNKS && (force || !Refuses(s.g))
    case SendInline(_, force) => force || !Refuses(s.g)
    case StartPop(r) => r in s.readers && s.readers[r].pc.Idle?
    case DoResync(r) => r in s.readers && s.readers[r].pc.Resync? && SLOTS <= s.g.wt
    case Check(r) => r in s.readers && s.readers[r].pc.Scan?
    case LoadRc(r) => r in s.readers && s.readers[r].pc.Load? && s.readers[r].pc.i < SLOTS
    case CopyWord(r) => r in s.readers && s.readers[r].pc.Copy? && s.readers[r].pc.i < SLOTS
    case Reload(r) => r in s.readers && s.readers[r].pc.Recheck? && s.readers[r].pc.i < SLOTS
    case ClearLoad(r) => r in s.readers && s.readers[r].pc.Clear? && s.readers[r].pc.i < SLOTS
    case ClearCas(r, _) => r in s.readers && s.readers[r].pc.Cas? && s.readers[r].pc.i < SLOTS
    case Finish(r) => r in s.readers && s.readers[r].pc.Got?
    case Recycle(r, c) => r in s.readers && c in s.readers[r].held && c < CHUNKS
    case Release(r, c) => r in s.readers && c in s.readers[r].releasing && c < CHUNKS
  }

  function Next(s: State, a: Action): (t: State)
    requires Shape(s) && Enabled(s, a)
    ensures Shape(t)
  {
    match a
    case Connect(r) =>
      s.(g := s.g.(cc := s.g.cc + {r}),
         readers := s.readers[r := RState(0, Joining, [], map[], {})])
    case LoadCursor(r) => WithReader(s, r, s.readers[r].(cur := s.g.wt, pc := Idle))
    case Loan(seen) =>
      var c := s.free[0];
      s.(free := s.free[1..], conns := s.conns[c := seen], loans := s.loans + {c},
         phase := s.phase[c := Loaned])
    case DiscardLoan(c) =>
      s.(free := [c] + s.free, loans := s.loans - {c}, phase := s.phase[c := Free])
    case Publish(c, force) =>
      SetPhase(Send(s, Stored(c), force), c, Live(IndexOf(s.g.wt))).(loans := s.loans - {c})
    case SendInline(tag, force) => Send(s, Inline(tag), force)
    case StartPop(r) => WithPc(s, r, if s.readers[r].cur + SLOTS < s.g.wt then Resync else Scan)
    case DoResync(r) => WithReader(s, r, s.readers[r].(cur := s.g.wt - SLOTS, pc := Scan))
    case Check(r) =>
      var rs := s.readers[r];
      if rs.cur == s.g.wt then WithPc(s, r, Idle)
      else WithReader(s, r, rs.(cur := rs.cur + 1, pc := Load(IndexOf(rs.cur))))
    case LoadRc(r) =>
      var i := s.readers[r].pc.i;
      WithPc(s, r, if r !in s.g.slots[i].rem then Scan else Copy(i, s.g.slots[i].ep, []))
    case CopyWord(r) =>
      var pc := s.readers[r].pc;
      var buf := pc.buf + [s.g.slots[pc.i].msg];
      WithPc(s, r, if |buf| < WORDS then Copy(pc.i, pc.ep0, buf) else Recheck(pc.i, pc.ep0, buf))
    case Reload(r) =>
      var pc := s.readers[r].pc;
      WithPc(s, r, if s.g.slots[pc.i].ep != pc.ep0 then Scan else Clear(pc.i, pc.ep0, pc.buf))
    case ClearLoad(r) =>
      var pc := s.readers[r].pc;
      var sl := s.g.slots[pc.i];
      if sl.ep != pc.ep0 then WithPc(s, r, Scan)
      else if sl.rem == {} then Delivered(s, r, pc.i, pc.buf)
      else WithPc(s, r, Cas(pc.i, pc.ep0, pc.buf, sl.rem))
    case ClearCas(r, spurious) =>
      var pc := s.readers[r].pc;
      var sl := s.g.slots[pc.i];
      if !spurious && sl.ep == pc.ep0 && sl.rem == pc.seen
      then Delivered(s.(g := ClearBit(s.g, pc.i, r)), r, pc.i, pc.buf)
      else WithPc(s, r, Clear(pc.i, pc.ep0, pc.buf))
    case Finish(r) =>
      var rs := s.readers[r];
      var c := StorageOf(rs.pc.buf);
      WithReader(s, r, rs.(pc := Idle, held := if c.Some? then rs.held[c.value := s.g.cc] else rs.held))
    case Recycle(r, c) => Recycled(s, r, c)
    case Release(r, c) =>
      WithReader(s.(free := [c] + s.free, phase := s.phase[c := Free]), r,
                 s.readers[r].(releasing := s.readers[r].releasing - {c}))
  }
}
