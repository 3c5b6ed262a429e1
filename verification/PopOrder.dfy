/** In which order an interleaved `pop` delivers: the cursor fixes the slot, not the message in it. */
module PopOrder {
  import opened Basics
  import opened BroadcastRing
  import opened Ownership
  import opened DeliverySafety
  import opened SoloPops
  import opened LateJoiner
  import Fifo

  /** Every position of the last lap is in its slot. */
  ghost predicate LastLap(g: Ring)
    requires |g.slots| == SLOTS
  {
    forall k: nat {:trigger IndexOf(k)} :: k < g.wt <= k + SLOTS ==>
      g.slots[IndexOf(k)].msg.Some? && g.slots[IndexOf(k)].msg.value.pos == k
  }

  /** Between the choice of a slot and the end of the attempt on it. */
  predicate OnSlot(pc: Pc) {
    pc.Load? || pc.Copy? || pc.Recheck? || pc.Clear? || pc.Cas?
  }

  /** The slot a receiver is at is the one of the position its cursor has just left. */
  predicate AtCursor(g: Ring, rs: RState) {
    && rs.cur <= g.wt
    && (rs.pc.Resync? ==> rs.cur + SLOTS < g.wt)
    && (OnSlot(rs.pc) ==> 0 < rs.cur && rs.pc.i == IndexOf(rs.cur - 1))
  }

  ghost predicate CursorInv(s: State)
    requires Shape(s)
  {
    LastLap(s.g) && forall r <- s.readers :: AtCursor(s.g, s.readers[r])
  }

  lemma WrittenKeepsLap(g: Ring, body: Body, force: bool)
    requires |g.slots| == SLOTS && LastLap(g)
    ensures LastLap(Written(g, body, force))
  {
    var h := Written(g, body, force);
    forall k: nat {:trigger IndexOf(k)} | k < h.wt <= k + SLOTS
      ensures h.slots[IndexOf(k)].msg.Some? && h.slots[IndexOf(k)].msg.value.pos == k
    {
      if k < g.wt && IndexOf(k) == IndexOf(g.wt) { Fifo.SameSlot(k, g.wt, h.wt); }
    }
  }

  lemma StepKeepsReader(s: State, a: Action, r: Reader)
    requires Shape(s) && Enabled(s, a) && CursorInv(s) && r in Next(s, a).readers
    ensures AtCursor(Next(s, a).g, Next(s, a).readers[r])
  {
    hide LastLap;
    if r in s.readers {
      assert AtCursor(s.g, s.readers[r]);
      if (PopStep(a) || OtherReaderStep(a)) && a.r == r {
        OwnKeepsCursor(s, a);
      } else {
        OthersLeaveReaderAlone(s, a, r);
        IndexOnlyGrows(s, a);
      }
    }
  }

  lemma IndexOnlyGrows(s: State, a: Action)
    requires Shape(s) && Enabled(s, a)
    ensures s.g.wt <= Next(s, a).g.wt
  {
  }

  lemma OwnKeepsCursor(s: State, a: Action)
    requires Shape(s) && Enabled(s, a) && (PopStep(a) || OtherReaderStep(a)) && AtCursor(s.g, s.readers[a.r])
    ensures AtCursor(Next(s, a).g, Next(s, a).readers[a.r])
  {
  }

  lemma RingStep(s: State, a: Action)
    requires Shape(s) && Enabled(s, a) && LastLap(s.g)
    ensures LastLap(Next(s, a).g)
  {
    if a.Publish? {
      WrittenKeepsLap(s.g, Stored(a.c), a.force);
    } else if a.SendInline? {
      WrittenKeepsLap(s.g, Inline(a.tag), a.force);
    } else {
      SameMessages(s, a);
    }
  }

  lemma SameMessages(s: State, a: Action)
    requires Shape(s) && Enabled(s, a) && !a.Publish? && !a.SendInline?
    ensures Next(s, a).g.wt == s.g.wt
    ensures forall i :: 0 <= i < SLOTS ==> Next(s, a).g.slots[i].msg == s.g.slots[i].msg
  {
  }

  lemma {:induction false} RunKeepsCursor(s: State, acts: seq<Action>, t: State)
    requires Init(s) && Exec(s, acts) == Some(t)
    ensures CursorInv(t)
  {
    hide Next, Enabled, AtCursor, LastLap;
    if acts == [] {
      InitCursor(s);
    } else {
      var u := Exec(s, acts[..|acts| - 1]).value;
      var a := acts[|acts| - 1];
      RunKeepsCursor(s, acts[..|acts| - 1], u);
      RingStep(u, a);
      forall r | r in t.readers ensures AtCursor(t.g, t.readers[r]) { StepKeepsReader(u, a, r); }
    }
  }

  lemma InitCursor(s: State)
    requires Init(s)
    ensures CursorInv(s)
  {
  }

  /** The writer has not gone round past the position a receiver is at. */
  predicate NotLapped(s: State, r: Reader)
    requires r in s.readers
  {
    s.g.wt < s.readers[r].cur + SLOTS
  }

  /** What a delivering step delivers: a message of the slot at the cursor, and the one of the cursor's own
      position if and only if the writer has not gone round since; otherwise a later one. */
  lemma DeliversAtCursorIff(s: State, acts: seq<Action>, t: State, a: Action)
    requires Init(s) && Exec(s, acts) == Some(t) && Enabled(t, a) && Clears(t, a)
    ensures var u := Next(t, a); var (was, log) := (t.readers[a.r], u.readers[a.r].log);
            && log[..|log| - 1] == was.log && 0 < was.cur
            && var pos := log[|log| - 1].pos;
               && IndexOf(pos) == IndexOf(was.cur - 1) && pos >= was.cur - 1 && t.g.wt <= pos + SLOTS
               && (pos == was.cur - 1 <==> t.g.wt < was.cur + SLOTS)
  {
    hide Next, ReaderOk, SlotsOk, LastLap;
    RunKeeps(s, acts, t);
    RunKeepsCursor(s, acts, t);
    var was := t.readers[a.r];
    ClearsDelivers(t, a);
    assert AtCursor(t.g, was);
    var i := was.pc.i;
    InLap(t.g, t.hist, i);
    var pos := t.g.slots[i].msg.value.pos;
    if was.cur - 1 + SLOTS < t.g.wt { assert pos > was.cur - 1; } else { Fifo.SameSlot(pos, was.cur - 1, t.g.wt); }
  }

  lemma ClearsDelivers(t: State, a: Action)
    requires RingInv(t) && Enabled(t, a) && Clears(t, a)
    ensures var (was, log) := (t.readers[a.r], Next(t, a).readers[a.r].log); var m := t.g.slots[was.pc.i].msg;
            was.pc.Cas? && m.Some? && log == was.log + [Delivery(m.value.pos, was.pc.buf)]
  {
    assert ReaderOk(t.g, t.hist, a.r, t.readers[a.r]) && SlotOk(t.g, t.hist, t.readers[a.r].pc.i);
  }

  /** A slot holds the latest of its positions. */
  lemma InLap(g: Ring, hist: seq<Body>, i: nat)
    requires SlotsOk(g, hist) && LastLap(g) && i < SLOTS && g.slots[i].msg.Some?
    ensures var pos := g.slots[i].msg.value.pos; IndexOf(pos) == i && pos < g.wt <= pos + SLOTS
  {
    assert SlotOk(g, hist, i);
    var pos := g.slots[i].msg.value.pos;
    var k := pos + (g.wt - 1 - pos) / SLOTS * SLOTS;
    assert IndexOf(k) == i;
  }

  // ---------------------------------------------------------------- in order, when not lapped inside a call

  /** Deliveries in the order of their positions, all below `bound`. */
  predicate Increasing(log: seq<Delivery>, bound: nat) {
    && (forall k :: 0 <= k < |log| ==> log[k].pos < bound)
    && (forall j, k :: 0 <= j < k < |log| ==> log[j].pos < log[k].pos)
  }

  predicate LogBehind(rs: RState) {
    if OnSlot(rs.pc) then 0 < rs.cur && Increasing(rs.log, rs.cur - 1) else Increasing(rs.log, rs.cur)
  }

  /** Receiver `r` was never lapped in the middle of a call that delivers. */
  ghost predicate UnlappedRun(s: State, acts: seq<Action>, r: Reader)
    requires Shape(s)
  {
    forall k :: 0 <= k < |acts| && Exec(s, acts[..k]).Some? ==> UnlappedStep(Exec(s, acts[..k]).value, acts[k], r)
  }

  predicate UnlappedStep(s: State, a: Action, r: Reader)
    requires Shape(s)
  {
    Clears(s, a) && a.r == r ==> NotLapped(s, r)
  }

  lemma QuietKeepsLog(s: State, a: Action, r: Reader)
    requires RingInv(s) && Enabled(s, a) && r in s.readers && AtCursor(s.g, s.readers[r]) && LogBehind(s.readers[r])
    requires !(Clears(s, a) && a.r == r)
    ensures LogBehind(Next(s, a).readers[r])
  {
    hide ReaderOk, SlotsOk;
    if (PopStep(a) || OtherReaderStep(a)) && a.r == r {
      OwnKeepsLog(s, a);
    } else {
      OthersLeaveReaderAlone(s, a, r);
    }
  }

  lemma OwnKeepsLog(s: State, a: Action)
    requires RingInv(s) && Enabled(s, a) && (PopStep(a) || OtherReaderStep(a)) && !Clears(s, a)
    requires AtCursor(s.g, s.readers[a.r]) && LogBehind(s.readers[a.r])
    ensures LogBehind(Next(s, a).readers[a.r])
  {
    hide ReaderOk, SlotsOk, Increasing;
    var (was, now) := (s.readers[a.r], Next(s, a).readers[a.r]);
    OnlyClearingDelivers(s, a, a.r);
    assert now.log == was.log;
    Wider(was.log, if OnSlot(was.pc) then was.cur - 1 else was.cur, if OnSlot(now.pc) then now.cur - 1 else now.cur);
  }

  lemma Wider(log: seq<Delivery>, low: nat, high: int)
    requires Increasing(log, low) && low <= high
    ensures Increasing(log, high)
  {
  }

  lemma {:induction false} UnlappedKeepsLog(s: State, acts: seq<Action>, t: State, r: Reader)
    requires Init(s) && Exec(s, acts) == Some(t) && UnlappedRun(s, acts, r) && r in t.readers
    ensures LogBehind(t.readers[r])
  {
    hide Next, Enabled, RingInv, AtCursor, LastLap, LogBehind;
    if acts == [] {
      StartsBehind(s, r);
    } else {
      var n := |acts| - 1;
      var u := Exec(s, acts[..n]).value;
      forall k | 0 <= k < n && Exec(s, acts[..n][..k]).Some?
        ensures UnlappedStep(Exec(s, acts[..n][..k]).value, acts[..n][k], r)
      {
        assert acts[..n][..k] == acts[..k];
      }
      if r in u.readers {
        UnlappedKeepsLog(s, acts[..n], u, r);
        RunKeeps(s, acts[..n], u);
        RunKeepsCursor(s, acts[..n], u);
        if Clears(u, acts[n]) && acts[n].r == r {
          assert UnlappedStep(u, acts[n], r);
          ClearKeepsLog(s, acts[..n], u, acts[n]);
        } else {
          QuietKeepsLog(u, acts[n], r);
        }
      } else {
        NewBehind(u, acts[n], r);
      }
    }
  }

  lemma StartsBehind(s: State, r: Reader)
    requires Init(s) && r in s.readers
    ensures LogBehind(s.readers[r])
  {
  }

  lemma NewBehind(s: State, a: Action, r: Reader)
    requires Shape(s) && Enabled(s, a) && r !in s.readers && r in Next(s, a).readers
    ensures LogBehind(Next(s, a).readers[r])
  {
  }

  lemma ClearKeepsLog(s: State, acts: seq<Action>, t: State, a: Action)
    requires Init(s) && Exec(s, acts) == Some(t) && Enabled(t, a) && Clears(t, a) && NotLapped(t, a.r)
    requires LogBehind(t.readers[a.r])
    ensures LogBehind(Next(t, a).readers[a.r])
  {
    DeliversAtCursorIff(s, acts, t, a);
    var (was, now) := (t.readers[a.r], Next(t, a).readers[a.r]);
    assert now.cur == was.cur && now.pc.Got?;
  }

  /** A receiver that no call of which was lapped before it delivered gets strictly later and later messages,
      in every interleaving. */
  lemma InOrderUnlessLapped(s: State, acts: seq<Action>, t: State, r: Reader)
    requires Init(s) && Exec(s, acts) == Some(t) && r in t.readers && UnlappedRun(s, acts, r)
    ensures forall j, k :: 0 <= j < k < |t.readers[r].log| ==> t.readers[r].log[j].pos < t.readers[r].log[k].pos
  {
    UnlappedKeepsLog(s, acts, t, r);
  }

  // ---------------------------------------------------------------- out of order, when lapped inside a call

  predicate ChunkIn(g: Ring, i: nat)
    requires i < |g.slots|
  {
    g.slots[i].msg.Some? && g.slots[i].msg.value.body.Stored?
  }

  /** Receiver 0, the only one, has taken nothing of the last lap, and no message is in a chunk. */
  ghost predicate UnreadRing(g: Ring) {
    && |g.slots| == SLOTS && g.cc == {0} && (forall i :: 0 <= i < SLOTS ==> !ChunkIn(g, i))
    && forall k: nat {:trigger IndexOf(k)} :: k < g.wt <= k + SLOTS ==>
         g.slots[IndexOf(k)].rem == {0} && g.slots[IndexOf(k)].msg == Some(Msg(k, Inline(0)))
  }

  ghost predicate Unread(s: State) {
    Shape(s) && UnreadRing(s.g)
  }

  lemma WriteUnread(g: Ring)
    requires UnreadRing(g)
    ensures UnreadRing(Written(g, Inline(0), true))
  {
    var h := Written(g, Inline(0), true);
    forall i | 0 <= i < SLOTS ensures !ChunkIn(h, i) {
      assert !ChunkIn(g, i);
    }
    forall k: nat {:trigger IndexOf(k)} | k < h.wt <= k + SLOTS
      ensures h.slots[IndexOf(k)].rem == {0} && h.slots[IndexOf(k)].msg == Some(Msg(k, Inline(0)))
    {
      if k < g.wt && IndexOf(k) == IndexOf(g.wt) { Fifo.SameSlot(k, g.wt, h.wt); }
    }
  }

  lemma SendOne(s: State) returns (t: State)
    requires Unread(s)
    ensures Reaches(s, t) && Unread(t) && t.g.wt == s.g.wt + 1 && t.readers == s.readers
  {
    t := Next(s, SendInline(0, true));
    assert t == s.(g := Written(s.g, Inline(0), true), hist := s.hist + [Inline(0)]) by {
      assert !ChunkIn(s.g, IndexOf(s.g.wt));
    }
    StepReaches(s, SendInline(0, true), t);
    WriteUnread(s.g);
  }

  lemma {:induction false} SendMany(s: State, n: nat) returns (t: State)
    requires Unread(s)
    ensures Reaches(s, t) && Unread(t) && t.g.wt == s.g.wt + n && t.readers == s.readers
  {
    hide Next, Enabled, Unread, Reaches;
    if n == 0 {
      t := s;
      UnreadShape(s);
      ReachesItself(s);
    } else {
      var u := SendMany(s, n - 1);
      UnreadShape(s);
      UnreadShape(u);
      t := SendOne(u);
      Transitive(s, u, t);
    }
  }

  lemma ReachesItself(s: State)
    requires Shape(s)
    ensures Reaches(s, s)
  {
    assert Exec(s, []) == Some(s);
  }

  lemma UnreadShape(s: State)
    requires Unread(s)
    ensures Shape(s) && s.g.cc == {0}
  {
  }

  /** The receiver chooses slot 0 for message 0. */
  lemma ChooseSlot(s: State) returns (t: State)
    requires Unread(s) && s.g.wt == 1 && s.readers == map[0 := FRESH]
    ensures Reaches(s, t) && t == s.(readers := map[0 := RState(1, Load(0), [], map[], {})])
  {
    var u := Next(s, StartPop(0));
    StepReaches(s, StartPop(0), u);
    t := Next(u, Check(0));
    StepReaches(u, Check(0), t);
    Transitive(s, u, t);
  }

  /** At slot 0 for message 0, but a lap later. */
  lemma TakesLater(s: State) returns (t: State)
    requires Unread(s) && s.g.wt == SLOTS + 1 && s.readers == map[0 := RState(1, Load(0), [], map[], {})]
    ensures Reaches(s, t) && Shape(t) && t.g == ClearBit(s.g, 0, 0)
    ensures 0 in t.readers
    ensures t.readers[0] == RState(1, Idle, [Delivery(SLOTS, Words(s.g.slots[0].msg, WORDS))], map[], {})
  {
    var a := s.readers[0];
    assert IndexOf(SLOTS) == 0;
    SoloFound(s, 0, a, 0);
    var p := Fifo.Popped(1, 0, s.g.slots[0].msg, true);
    t := Handed(s, 0, a, p);
    assert WithReader(s, 0, a) == s by { assert s.readers[0 := a] == s.readers; }
    AloneReaches(0, s, t);
  }

  /** The next call is not a whole lap behind, and takes what its cursor says. */
  lemma TakesEarlier(s: State, g: Ring) returns (t: State)
    requires Shape(s) && 0 in s.readers && |g.slots| == SLOTS && s.g == ClearBit(g, 0, 0)
    requires g.wt == SLOTS + 1 && 0 in g.slots[1].rem && g.slots[1].msg == Some(Msg(1, Inline(0)))
    requires s.readers[0].pc.Idle? && s.readers[0].cur == 1
    ensures Reaches(s, t) && 0 in t.readers && |t.readers[0].log| == |s.readers[0].log| + 1
    ensures t.readers[0].log[..|s.readers[0].log|] == s.readers[0].log && t.readers[0].log[|s.readers[0].log|].pos == 1
  {
    var p := Fifo.Pop(s.g, 0, 1);
    assert IndexOf(1) == 1 && s.g.slots[1] == g.slots[1];
    assert p == Fifo.Popped(2, 1, Some(Msg(1, Inline(0))), p.last);
    SoloPop(s, 0);
    t := Handed(s, 0, s.readers[0], p);
    AloneReaches(0, s, t);
  }

  /** A receiver that is lapped after it has chosen a slot gets message 256 first and message 1 after it. */
  lemma LappedOutOfOrder() returns (t: State)
    ensures Init(Start()) && Reaches(Start(), t) && 0 in t.readers
    ensures |t.readers[0].log| == 2 && t.readers[0].log[0].pos == 256 && t.readers[0].log[1].pos == 1
  {
    hide Next, Enabled, Exec, Reaches, UnreadRing;
    var s0 := Start();
    StartIsInit();
    var s1 := SendMany(s0, 1);
    var s2 := ChooseSlot(s1);
    UnreadShape(s1);
    Transitive(s0, s1, s2);
    SameChunks(s1, s2);
    var s3 := SendMany(s2, SLOTS);
    UnreadShape(s2);
    UnreadShape(s3);
    Transitive(s0, s2, s3);
    var s4 := TakesLater(s3);
    Transitive(s0, s3, s4);
    SlotOne(s3);
    t := TakesEarlier(s4, s3.g);
    Transitive(s0, s4, t);
  }

  lemma SlotOne(s: State)
    requires Unread(s) && s.g.wt == SLOTS + 1
    ensures s.g.slots[1].rem == {0} && s.g.slots[1].msg == Some(Msg(1, Inline(0)))
  {
    assert IndexOf(1) == 1;
  }

  lemma SameChunks(s: State, t: State)
    requires Unread(s) && Shape(t) && t.g == s.g
    ensures Unread(t)
  {
  }

  lemma StartIsInit()
    ensures Init(Start()) && Unread(Start()) && Start().readers == map[0 := FRESH] && Start().g.wt == 0
  {
    var t := LoanStep();
  }
}
