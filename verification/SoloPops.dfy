/** `pop` taken apart: the atomic accesses of a receiver that runs alone do what `pop` as one step does. */
module SoloPops {
  import opened Basics
  import opened BroadcastRing
  import opened Ownership
  import opened DeliverySafety
  import Fifo

  /** The step is one of receiver `r`. */
  predicate By(a: Action, r: Reader) {
    (PopStep(a) || OtherReaderStep(a)) && a.r == r
  }

  /** Some sequence of enabled steps, all of receiver `r`, leads from `s` to `t`. */
  ghost predicate Alone(r: Reader, s: State, t: State)
    requires Shape(s)
  {
    exists acts :: Exec(s, acts) == Some(t) && forall a <- acts :: By(a, r)
  }

  lemma StepAlone(r: Reader, s: State, a: Action, t: State)
    requires Shape(s) && Enabled(s, a) && Next(s, a) == t && By(a, r)
    ensures Alone(r, s, t)
  {
    var acts := [a];
    assert acts[..0] == [];
    assert Exec(s, acts) == Some(t);
  }

  lemma {:induction false} ExecConcat(s: State, xs: seq<Action>, t: State, ys: seq<Action>)
    requires Shape(s) && Exec(s, xs) == Some(t)
    ensures Exec(s, xs + ys) == Exec(t, ys)
  {
    if ys == [] {
      assert xs + ys == xs;
    } else {
      ExecConcat(s, xs, t, ys[..|ys| - 1]);
      assert (xs + ys)[..|xs + ys| - 1] == xs + ys[..|ys| - 1];
    }
  }

  lemma Chain(r: Reader, s: State, t: State, u: State)
    requires Shape(s) && Alone(r, s, t) && Shape(t) && Alone(r, t, u)
    ensures Alone(r, s, u)
  {
    var xs :| Exec(s, xs) == Some(t) && forall a <- xs :: By(a, r);
    var ys :| Exec(t, ys) == Some(u) && forall a <- ys :: By(a, r);
    ExecConcat(s, xs, t, ys);
    assert forall a <- xs + ys :: By(a, r);
  }

  function Words(m: Option<Msg>, n: nat): seq<Option<Msg>> {
    seq(n, _ => m)
  }

  // ---------------------------------------------------------------- one receiver running alone

  /** A step that only moves receiver `r` from private state `a` to `b`. */
  lemma Moves(s: State, r: Reader, a: RState, act: Action, b: RState)
    requires Shape(s) && r in s.readers
    requires Enabled(WithReader(s, r, a), act)
    requires By(act, r) && Next(WithReader(s, r, a), act) == WithReader(WithReader(s, r, a), r, b)
    ensures Alone(r, WithReader(s, r, a), WithReader(s, r, b))
  {
    assert s.readers[r := a][r := b] == s.readers[r := b];
    StepAlone(r, WithReader(s, r, a), act, WithReader(s, r, b));
  }

  lemma SoloCheck(s: State, r: Reader, a: RState, b: RState)
    requires Shape(s) && r in s.readers && a.pc.Scan? && a.cur < s.g.wt
    requires b == a.(cur := a.cur + 1, pc := Load(IndexOf(a.cur)))
    ensures Alone(r, WithReader(s, r, a), WithReader(s, r, b))
  {
    Moves(s, r, a, Check(r), b);
  }

  lemma SoloLoad(s: State, r: Reader, a: RState, i: nat, b: RState)
    requires Shape(s) && r in s.readers && a.pc == Load(i) && i < SLOTS && r in s.g.slots[i].rem
    requires b == a.(pc := Copy(i, s.g.slots[i].ep, []))
    ensures Alone(r, WithReader(s, r, a), WithReader(s, r, b))
  {
    Moves(s, r, a, LoadRc(r), b);
  }

  lemma {:induction false} SoloCopy(s: State, r: Reader, a: RState, i: nat, ep: nat, n: nat, b: RState)
    requires Shape(s) && r in s.readers && i < SLOTS && n < WORDS
    requires a.pc == Copy(i, ep, Words(s.g.slots[i].msg, n))
    requires b == a.(pc := Recheck(i, ep, Words(s.g.slots[i].msg, WORDS)))
    ensures Alone(r, WithReader(s, r, a), WithReader(s, r, b))
    decreases WORDS - n
  {
    var m := s.g.slots[i].msg;
    assert Words(m, n) + [m] == Words(m, n + 1);
    if n + 1 < WORDS {
      var c := a.(pc := Copy(i, ep, Words(m, n + 1)));
      Moves(s, r, a, CopyWord(r), c);
      SoloCopy(s, r, c, i, ep, n + 1, b);
      Chain(r, WithReader(s, r, a), WithReader(s, r, c), WithReader(s, r, b));
    } else {
      Moves(s, r, a, CopyWord(r), b);
    }
  }

  lemma SoloReload(s: State, r: Reader, a: RState, i: nat, buf: seq<Option<Msg>>, b: RState)
    requires Shape(s) && r in s.readers && i < SLOTS && a.pc == Recheck(i, s.g.slots[i].ep, buf)
    requires b == a.(pc := Clear(i, s.g.slots[i].ep, buf))
    ensures Alone(r, WithReader(s, r, a), WithReader(s, r, b))
  {
    Moves(s, r, a, Reload(r), b);
  }

  lemma SoloClearLoad(s: State, r: Reader, a: RState, i: nat, buf: seq<Option<Msg>>, b: RState)
    requires Shape(s) && r in s.readers && i < SLOTS && a.pc == Clear(i, s.g.slots[i].ep, buf)
    requires s.g.slots[i].rem != {} && b == a.(pc := Cas(i, s.g.slots[i].ep, buf, s.g.slots[i].rem))
    ensures Alone(r, WithReader(s, r, a), WithReader(s, r, b))
  {
    Moves(s, r, a, ClearLoad(r), b);
  }

  lemma SoloCas(s: State, r: Reader, a: RState, i: nat, m: Msg, buf: seq<Option<Msg>>, b: RState)
    requires Shape(s) && r in s.readers && i < SLOTS && s.g.slots[i].msg == Some(m)
    requires a.pc == Cas(i, s.g.slots[i].ep, buf, s.g.slots[i].rem)
    requires b == a.(pc := Got(buf), log := a.log + [Delivery(m.pos, buf)])
    ensures Alone(r, WithReader(s, r, a), WithReader(s.(g := ClearBit(s.g, i, r)), r, b))
  {
    var t := WithReader(s, r, a);
    assert s.readers[r := a][r := b] == s.readers[r := b];
    StepAlone(r, t, ClearCas(r, false), WithReader(s.(g := ClearBit(s.g, i, r)), r, b));
  }

  lemma SoloFinish(s: State, r: Reader, a: RState, b: RState)
    requires Shape(s) && r in s.readers && a.pc.Got?
    requires var c := StorageOf(a.pc.buf);
             b == a.(pc := Idle, held := if c.Some? then a.held[c.value := s.g.cc] else a.held)
    ensures Alone(r, WithReader(s, r, a), WithReader(s, r, b))
  {
    Moves(s, r, a, Finish(r), b);
  }

  /** The receiver after `pop` has come to the result `p`: the cursor moved on, and of a message found the
      delivery is logged; the buffer of a large one is held with the bitmap of the moment. */
  function Taken(cc: set<Reader>, a: RState, p: Fifo.PopResult): RState {
    if p.Popped? && p.msg.Some? then
      var m := p.msg.value;
      RState(p.cur, Idle, a.log + [Delivery(m.pos, Words(Some(m), WORDS))],
             if m.body.Stored? then a.held[m.body.chunk := cc] else a.held, a.releasing)
    else a.(cur := p.cur, pc := Idle)
  }

  /** The state after receiver `r`, in private state `a`, has popped with result `p`. */
  function Handed(s: State, r: Reader, a: RState, p: Fifo.PopResult): State
    requires p.Popped? ==> p.i < |s.g.slots|
  {
    WithReader(s.(g := Fifo.AfterPop(s.g, r, p)), r, Taken(s.g.cc, a, p))
  }

  /** From the load of the slot word to the end of the copy. */
  lemma SoloFront(s: State, r: Reader, a: RState, i: nat, m: Msg, b: RState)
    requires Shape(s) && r in s.readers && i < SLOTS && a.pc == Load(i)
    requires s.g.slots[i].msg == Some(m) && r in s.g.slots[i].rem
    requires b == a.(pc := Recheck(i, s.g.slots[i].ep, Words(Some(m), WORDS)))
    ensures Alone(r, WithReader(s, r, a), WithReader(s, r, b))
  {
    var c := a.(pc := Copy(i, s.g.slots[i].ep, []));
    SoloLoad(s, r, a, i, c);
    assert Words(Some(m), 0) == [];
    SoloCopy(s, r, c, i, s.g.slots[i].ep, 0, b);
    Chain(r, WithReader(s, r, a), WithReader(s, r, c), WithReader(s, r, b));
  }

  /** From the end of the copy to the finished `recv`. */
  lemma SoloBack(s: State, r: Reader, a: RState, i: nat, m: Msg)
    requires Shape(s) && r in s.readers && i < SLOTS
    requires s.g.slots[i].msg == Some(m) && r in s.g.slots[i].rem
    requires a.pc == Recheck(i, s.g.slots[i].ep, Words(Some(m), WORDS))
    ensures forall last :: Alone(r, WithReader(s, r, a), Handed(s, r, a, Fifo.Popped(a.cur, i, Some(m), last)))
  {
    var buf := Words(Some(m), WORDS);
    var a1 := a.(pc := Clear(i, s.g.slots[i].ep, buf));
    var a2 := a.(pc := Cas(i, s.g.slots[i].ep, buf, s.g.slots[i].rem));
    var a3 := a.(pc := Got(buf), log := a.log + [Delivery(m.pos, buf)]);
    var b := Taken(s.g.cc, a, Fifo.Popped(a.cur, i, Some(m), false));
    var t := s.(g := ClearBit(s.g, i, r));
    SoloReload(s, r, a, i, buf, a1);
    SoloClearLoad(s, r, a1, i, buf, a2);
    Chain(r, WithReader(s, r, a), WithReader(s, r, a1), WithReader(s, r, a2));
    SoloCas(s, r, a2, i, m, buf, a3);
    Chain(r, WithReader(s, r, a), WithReader(s, r, a2), WithReader(t, r, a3));
    SoloFinish(t, r, a3, b);
    Chain(r, WithReader(s, r, a), WithReader(t, r, a3), WithReader(t, r, b));
  }

  /** The scan, slot after slot. */
  lemma {:induction false} SoloScan(s: State, r: Reader, a: RState)
    requires Shape(s) && r in s.readers && a.pc.Scan? && a.cur <= s.g.wt
    requires var p := Fifo.PopFrom(s.g, r, a.cur); p.Popped? ==> p.msg.Some?
    ensures Alone(r, WithReader(s, r, a), Handed(s, r, a, Fifo.PopFrom(s.g, r, a.cur)))
    decreases s.g.wt - a.cur
  {
    if a.cur == s.g.wt {
      Moves(s, r, a, Check(r), a.(pc := Idle));
    } else {
      var i := IndexOf(a.cur);
      var a1 := a.(cur := a.cur + 1, pc := Load(i));
      SoloCheck(s, r, a, a1);
      if r in s.g.slots[i].rem {
        SoloFound(s, r, a1, i);
        Chain(r, WithReader(s, r, a), WithReader(s, r, a1), Handed(s, r, a, Fifo.PopFrom(s.g, r, a.cur)));
      } else {
        var a2 := a1.(pc := Scan);
        Moves(s, r, a1, LoadRc(r), a2);
        Chain(r, WithReader(s, r, a), WithReader(s, r, a1), WithReader(s, r, a2));
        SoloScan(s, r, a2);
        Chain(r, WithReader(s, r, a), WithReader(s, r, a2), Handed(s, r, a, Fifo.PopFrom(s.g, r, a.cur)));
      }
    }
  }

  lemma SoloFound(s: State, r: Reader, a: RState, i: nat)
    requires Shape(s) && r in s.readers && i < SLOTS && a.pc == Load(i)
    requires r in s.g.slots[i].rem && s.g.slots[i].msg.Some?
    ensures forall last :: Alone(r, WithReader(s, r, a), Handed(s, r, a, Fifo.Popped(a.cur, i, s.g.slots[i].msg, last)))
  {
    var m := s.g.slots[i].msg.value;
    var b := a.(pc := Recheck(i, s.g.slots[i].ep, Words(Some(m), WORDS)));
    SoloFront(s, r, a, i, m, b);
    SoloBack(s, r, b, i, m);
    forall last
      ensures Alone(r, WithReader(s, r, a), Handed(s, r, a, Fifo.Popped(a.cur, i, s.g.slots[i].msg, last)))
    {
      var p := Fifo.Popped(a.cur, i, s.g.slots[i].msg, last);
      assert Handed(s, r, a, p) == Handed(s, r, b, p);
      Chain(r, WithReader(s, r, a), WithReader(s, r, b), Handed(s, r, a, p));
    }
  }

  /** The start: a receiver more than a lap behind first moves its cursor to the oldest slot. */
  lemma SoloStart(s: State, r: Reader, a: RState)
    requires Shape(s) && r in s.readers && a.pc.Idle?
    ensures Alone(r, WithReader(s, r, a), WithReader(s, r, a.(cur := Fifo.Resynced(s.g, a.cur), pc := Scan)))
  {
    hide Next, Enabled, Alone;
    if a.cur + SLOTS < s.g.wt {
      SoloLapped(s, r, a);
    } else {
      SoloUnlapped(s, r, a);
      assert a.(pc := Scan) == a.(cur := a.cur, pc := Scan);
    }
  }

  lemma SoloUnlapped(s: State, r: Reader, a: RState)
    requires Shape(s) && r in s.readers && a.pc.Idle? && s.g.wt <= a.cur + SLOTS
    ensures Alone(r, WithReader(s, r, a), WithReader(s, r, a.(pc := Scan)))
  {
    Moves(s, r, a, StartPop(r), a.(pc := Scan));
  }

  lemma SoloLapped(s: State, r: Reader, a: RState)
    requires Shape(s) && r in s.readers && a.pc.Idle? && a.cur + SLOTS < s.g.wt
    ensures Alone(r, WithReader(s, r, a), WithReader(s, r, a.(cur := s.g.wt - SLOTS, pc := Scan)))
  {
    var c := a.(pc := Resync);
    Moves(s, r, a, StartPop(r), c);
    SoloResync(s, r, c);
    Chain(r, WithReader(s, r, a), WithReader(s, r, c), WithReader(s, r, c.(cur := s.g.wt - SLOTS, pc := Scan)));
  }

  lemma SoloResync(s: State, r: Reader, a: RState)
    requires Shape(s) && r in s.readers && a.pc.Resync? && SLOTS <= s.g.wt
    ensures Alone(r, WithReader(s, r, a), WithReader(s, r, a.(cur := s.g.wt - SLOTS, pc := Scan)))
  {
    Moves(s, r, a, DoResync(r), a.(cur := s.g.wt - SLOTS, pc := Scan));
  }

  /** `recv` of a receiver that runs alone ends with exactly the result and the ring of `pop` as one step. */
  lemma SoloPop(s: State, r: Reader)
    requires Shape(s) && r in s.readers && s.readers[r].pc.Idle? && s.readers[r].cur <= s.g.wt
    requires var p := Fifo.Pop(s.g, r, s.readers[r].cur); p.Popped? ==> p.msg.Some?
    ensures Alone(r, s, Handed(s, r, s.readers[r], Fifo.Pop(s.g, r, s.readers[r].cur)))
  {
    var a := s.readers[r];
    var b := a.(cur := Fifo.Resynced(s.g, a.cur), pc := Scan);
    var p := Fifo.Pop(s.g, r, a.cur);
    assert WithReader(s, r, a) == s by { assert s.readers[r := a] == s.readers; }
    SoloStart(s, r, a);
    SoloScan(s, r, b);
    assert Handed(s, r, a, p) == Handed(s, r, b, p);
    Chain(r, s, WithReader(s, r, b), Handed(s, r, b, p));
  }

  // ---------------------------------------------------------------- at any point of any run

  ghost predicate CursorsBehind(s: State) {
    forall r <- s.readers :: s.readers[r].cur <= s.g.wt && (s.readers[r].pc.Resync? ==> SLOTS <= s.g.wt)
  }

  lemma StepKeepsCursors(s: State, a: Action)
    requires Shape(s) && CursorsBehind(s) && Enabled(s, a)
    ensures CursorsBehind(Next(s, a))
  {
    hide Next;
    forall r | r in Next(s, a).readers
      ensures Next(s, a).readers[r].cur <= Next(s, a).g.wt
      ensures Next(s, a).readers[r].pc.Resync? ==> SLOTS <= Next(s, a).g.wt
    {
      StepKeepsCursor(s, a, r);
    }
  }

  lemma StepKeepsCursor(s: State, a: Action, r: Reader)
    requires Shape(s) && CursorsBehind(s) && Enabled(s, a) && r in Next(s, a).readers
    ensures Next(s, a).readers[r].cur <= Next(s, a).g.wt
    ensures Next(s, a).readers[r].pc.Resync? ==> SLOTS <= Next(s, a).g.wt
  {
  }

  lemma {:induction false} RunKeepsCursors(s: State, acts: seq<Action>, t: State)
    requires Init(s) && Exec(s, acts) == Some(t)
    ensures CursorsBehind(t)
  {
    if acts != [] {
      var u := Exec(s, acts[..|acts| - 1]).value;
      RunKeepsCursors(s, acts[..|acts| - 1], u);
      StepKeepsCursors(u, acts[|acts| - 1]);
    }
  }

  lemma {:induction false} FoundHasMessage(s: State, r: Reader, cur: nat)
    requires RingInv(s) && cur <= s.g.wt
    ensures var p := Fifo.PopFrom(s.g, r, cur); p.Popped? ==> p.msg.Some?
    decreases s.g.wt - cur
  {
    if cur < s.g.wt {
      assert SlotOk(s.g, s.hist, IndexOf(cur));
      FoundHasMessage(s, r, cur + 1);
    }
  }

  /** From every state a run can come to, a receiver between two calls that is left to run alone, lapped
      or not, gets what `pop` as one step gives it, and leaves the ring that step leaves. */
  lemma PopRefinesOneStep(s: State, acts: seq<Action>, t: State, r: Reader)
    requires Init(s) && Exec(s, acts) == Some(t) && r in t.readers && t.readers[r].pc.Idle?
    ensures t.readers[r].cur <= t.g.wt
    ensures Alone(r, t, Handed(t, r, t.readers[r], Fifo.Pop(t.g, r, t.readers[r].cur)))
  {
    RunKeeps(s, acts, t);
    RunKeepsCursors(s, acts, t);
    FoundHasMessage(t, r, Fifo.Resynced(t.g, t.readers[r].cur));
    SoloPop(t, r);
  }

  /** A receiver that has just joined has nothing to read. */
  lemma NewcomerReadsNothing(s: State, r: Reader)
    requires Shape(s) && Enabled(s, LoadCursor(r))
    ensures var u := Next(s, LoadCursor(r));
            u.readers[r].pc.Idle? && Fifo.Pop(u.g, r, u.readers[r].cur) == Fifo.Empty(u.g.wt)
  {
  }

  // ---------------------------------------------------------------- nobody waits for anybody

  /** The next access of a receiver, no exchange failing spuriously. */
  function OwnStep(r: Reader, pc: Pc): Action {
    match pc
    case Joining => LoadCursor(r)
    case Idle => StartPop(r)
    case Resync => DoResync(r)
    case Scan => Check(r)
    case Load(_) => LoadRc(r)
    case Copy(_, _, _) => CopyWord(r)
    case Recheck(_, _, _) => Reload(r)
    case Clear(_, _, _) => ClearLoad(r)
    case Cas(_, _, _, _) => ClearCas(r, false)
    case Got(_) => Finish(r)
  }

  /** Accesses left before the cursor moves on, at most. */
  function Rank(g: Ring, pc: Pc): nat {
    match pc
    case Joining => 1
    case Idle => 0
    case Resync => 40
    case Scan => 1
    case Load(_) => 30
    case Copy(_, _, buf) => 10 + if |buf| < WORDS then WORDS - |buf| else 0
    case Recheck(_, _, _) => 9
    case Clear(_, _, _) => 7
    case Cas(i, ep0, _, seen) => if i < |g.slots| && g.slots[i].ep == ep0 && g.slots[i].rem == seen then 6 else 8
    case Got(_) => 5
  }

  lemma OwnStepMoves(s: State, r: Reader)
    requires Shape(s) && r in s.readers && PcOk(s.g, r, s.readers[r].pc) && !s.readers[r].pc.Idle?
    requires s.readers[r].cur <= s.g.wt && (s.readers[r].pc.Resync? ==> SLOTS <= s.g.wt)
    ensures var a := OwnStep(r, s.readers[r].pc);
            && By(a, r) && Enabled(s, a)
            && var u := Next(s, a);
               && r in u.readers && u.g.wt == s.g.wt && u.readers[r].cur <= u.g.wt && !u.readers[r].pc.Resync?
               && (|| s.readers[r].pc.Resync? || s.readers[r].pc.Joining? || u.readers[r].cur > s.readers[r].cur
                   || (u.readers[r].cur == s.readers[r].cur
                       && Rank(u.g, u.readers[r].pc) < Rank(s.g, s.readers[r].pc)))
               && !u.readers[r].pc.Joining? && (s.readers[r].pc.Joining? ==> u.readers[r].pc.Idle?)
  {
  }

  /** Where a receiver stands in the middle of a call, it comes to the end of it alone. */
  lemma {:induction false} ComesBack(s: State, r: Reader) returns (u: State)
    requires RingInv(s) && r in s.readers
    requires s.readers[r].cur <= s.g.wt && (s.readers[r].pc.Resync? ==> SLOTS <= s.g.wt)
    ensures Alone(r, s, u) && r in u.readers && u.readers[r].pc.Idle?
    decreases s.readers[r].pc.Resync? || s.readers[r].pc.Joining?, s.g.wt - s.readers[r].cur,
              Rank(s.g, s.readers[r].pc)
  {
    hide SlotsOk, LogOk, Next, Enabled, Rank;
    if s.readers[r].pc.Idle? {
      u := s;
      assert Exec(s, []) == Some(s);
    } else {
      var a := OwnStep(r, s.readers[r].pc);
      assert ReaderOk(s.g, s.hist, r, s.readers[r]);
      OwnStepMoves(s, r);
      var n := Next(s, a);
      StepKeeps(s, a);
      StepAlone(r, s, a, n);
      u := ComesBack(n, r);
      Chain(r, s, n, u);
    }
  }

  lemma CursorOf(s: State, r: Reader)
    requires CursorsBehind(s) && r in s.readers
    ensures s.readers[r].cur <= s.g.wt && (s.readers[r].pc.Resync? ==> SLOTS <= s.g.wt)
  {
  }

  lemma SenderMay(s: State)
    requires RingInv(s)
    ensures forall tag, force :: Enabled(s, SendInline(tag, force)) <==> force || !Refuses(s.g)
    ensures forall c, force :: c in s.loans && c < CHUNKS ==>
                                 (Enabled(s, Publish(c, force)) <==> force || !Refuses(s.g))
  {
  }

  /** At any point of any run nobody can be held up: a receiver in the middle of `pop` or of joining ends that
      call by its own steps, whatever the others are in the middle of; the sender can always `force_push`, and
      `push` unless it is refused; a chunk is to be had whenever the pool has one. */
  lemma NobodyIsHeldUp(s: State, acts: seq<Action>, t: State)
    requires Init(s) && Exec(s, acts) == Some(t)
    ensures forall r <- t.readers :: exists u :: Alone(r, t, u) && r in u.readers && u.readers[r].pc.Idle?
    ensures forall tag, force :: Enabled(t, SendInline(tag, force)) <==> force || !Refuses(t.g)
    ensures forall c, force :: c in t.loans && c < CHUNKS ==>
                                 (Enabled(t, Publish(c, force)) <==> force || !Refuses(t.g))
  {
    hide Alone, RingInv, CursorsBehind, Next, Exec, Init;
    RunKeeps(s, acts, t);
    RunKeepsCursors(s, acts, t);
    forall r | r in t.readers ensures exists u :: Alone(r, t, u) && r in u.readers && u.readers[r].pc.Idle? {
      CursorOf(t, r);
      var u := ComesBack(t, r);
    }
    SenderMay(t);
  }
}
