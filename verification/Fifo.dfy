/** Order and completeness of delivery, with `push`, `force_push`, `connect` and `pop` as single steps. */
module Fifo {
  import opened Basics
  import opened BroadcastRing

  /** What `pop` reports: nothing, or the message, the cursor it leaves behind, the slot whose bit it
      cleared and whether it was the last reader of that slot. */
  datatype PopResult = Empty(cur: nat) | Popped(cur: nat, i: nat, msg: Option<Msg>, last: bool)

  /** The scan of `pop` from cursor `cur`: slots without the reader's bit are stepped over. */
  function PopFrom(g: Ring, r: Reader, cur: nat): (p: PopResult)
    requires |g.slots| == SLOTS && cur <= g.wt
    ensures cur <= p.cur <= g.wt
    ensures p.Popped? ==> p.i < SLOTS && r in g.slots[p.i].rem
    decreases g.wt - cur
  {
    if cur == g.wt then Empty(cur)
    else
      var i := IndexOf(cur);
      if r !in g.slots[i].rem then PopFrom(g, r, cur + 1)
      else Popped(cur + 1, i, g.slots[i].msg, g.slots[i].rem - {r} == {})
  }

  /** A reader more than one lap behind first moves to the oldest slot still in the ring. */
  function Resynced(g: Ring, cur: nat): nat {
    if cur + SLOTS < g.wt then g.wt - SLOTS else cur
  }

  function Pop(g: Ring, r: Reader, cur: nat): (p: PopResult)
    requires |g.slots| == SLOTS && cur <= g.wt
    ensures cur <= p.cur <= g.wt
    ensures p.Popped? ==> p.i < SLOTS && r in g.slots[p.i].rem
  {
    PopFrom(g, r, Resynced(g, cur))
  }

  function AfterPop(g: Ring, r: Reader, p: PopResult): Ring
    requires p.Popped? ==> p.i < |g.slots|
  {
    if p.Popped? then ClearBit(g, p.i, r) else g
  }

  // ---------------------------------------------------------------- runs

  datatype Delivery = Delivery(msg: Option<Msg>, last: bool)

  /** A connected receiver: write index when it connected, cursor, deliveries so far. */
  datatype View = View(start: nat, cur: nat, log: seq<Delivery>)

  datatype State = State(g: Ring, hist: seq<Body>, readers: map<Reader, View>)

  datatype Action = Connect(r: Reader) | Push(body: Body) | ForcePush(body: Body) | TryPop(r: Reader)

  predicate Shape(s: State) {
    && |s.g.slots| == SLOTS
    && s.readers.Keys == s.g.cc
    && forall r <- s.readers :: s.readers[r].cur <= s.g.wt
  }

  predicate Enabled(s: State, a: Action)
    requires Shape(s)
  {
    match a
    case Connect(r) => r < MAX_READERS && r !in s.g.cc
    case Push(_) => s.g.cc != {} && !Refuses(s.g)
    case ForcePush(_) => true
    case TryPop(r) => r in s.readers
  }

  function Next(s: State, a: Action): State
    requires Shape(s) && Enabled(s, a)
  {
    match a
    case Connect(r) => s.(g := s.g.(cc := s.g.cc + {r}), readers := s.readers[r := View(s.g.wt, s.g.wt, [])])
    case Push(body) => s.(g := Written(s.g, body, false), hist := s.hist + [body])
    case ForcePush(body) =>
      if s.g.cc == {} then s.(g := Bump(s.g)) else s.(g := Written(s.g, body, true), hist := s.hist + [body])
    case TryPop(r) =>
      var v := s.readers[r];
      var p := Pop(s.g, r, v.cur);
      if p.Empty? then s.(readers := s.readers[r := v.(cur := p.cur)])
      else s.(g := AfterPop(s.g, r, p),
              readers := s.readers[r := v.(cur := p.cur, log := v.log + [Delivery(p.msg, p.last)])])
  }

  ghost predicate Init(s: State) {
    && Shape(s)
    && s.g.wt == 0 && s.g.epoch == 0 && s.hist == []
    && (forall i :: 0 <= i < SLOTS ==> s.g.slots[i] == Slot(0, {}, None))
    && (forall r <- s.readers :: s.readers[r] == View(0, 0, []))
  }

  /** `ss` are the states of a run that takes the steps `acts`. */
  ghost predicate Trace(ss: seq<State>, acts: seq<Action>) {
    && |ss| == |acts| + 1
    && Init(ss[0])
    && forall j :: 0 <= j < |acts| ==> Shape(ss[j]) && Enabled(ss[j], acts[j]) && ss[j + 1] == Next(ss[j], acts[j])
  }

  // ---------------------------------------------------------------- invariant

  /** Position `k` is still in the ring. */
  predicate InWindow(s: State, k: nat) {
    k < s.g.wt <= k + SLOTS
  }

  /** The slot of a position still in the ring holds the message pushed there, and exactly the
      readers that connected before it and have not got past it still have their bit set. */
  ghost predicate SlotHolds(s: State, k: nat)
    requires |s.g.slots| == SLOTS
  {
    InWindow(s, k) ==>
      && k < |s.hist|
      && s.g.slots[IndexOf(k)].msg == Some(Msg(k, s.hist[k]))
      && s.g.slots[IndexOf(k)].rem <= s.g.cc
      && forall r <- s.readers :: (r in s.g.slots[IndexOf(k)].rem <==> s.readers[r].cur <= k && s.readers[r].start <= k)
  }

  /** Deliveries are the pushed messages, at strictly increasing positions below the cursor. */
  ghost predicate ViewOk(s: State, v: View) {
    && v.start <= v.cur <= s.g.wt
    && (forall j :: 0 <= j < |v.log| ==>
          && v.log[j].msg.Some?
          && v.start <= v.log[j].msg.value.pos < v.cur
          && v.log[j].msg.value.pos < |s.hist|
          && v.log[j].msg.value.body == s.hist[v.log[j].msg.value.pos])
    && (forall i, j :: 0 <= i < j < |v.log| ==> v.log[i].msg.value.pos < v.log[j].msg.value.pos)
  }

  ghost predicate Inv(s: State) {
    && Shape(s)
    && |s.hist| == s.g.wt
    && (forall i :: 0 <= i < SLOTS && s.g.wt <= i ==> s.g.slots[i].rem == {})
    && (forall k: nat :: SlotHolds(s, k))
    && (forall r <- s.readers :: ViewOk(s, s.readers[r]))
  }

  lemma SameSlot(j: nat, k: nat, wt: nat)
    requires IndexOf(j) == IndexOf(k) && j < wt <= j + SLOTS && k < wt <= k + SLOTS
    ensures j == k
  {
  }

  /** With the invariant, `pop` never steps over a slot: it takes the message at the cursor, or at
      the oldest position still in the ring when the reader has been lapped. */
  lemma PopTakesCursor(s: State, r: Reader)
    requires Inv(s) && r in s.readers
    ensures var c := Resynced(s.g, s.readers[r].cur); var p := Pop(s.g, r, s.readers[r].cur);
            if s.readers[r].cur == s.g.wt then p == Empty(s.g.wt)
            else c < s.g.wt && p == Popped(c + 1, IndexOf(c), Some(Msg(c, s.hist[c])), s.g.slots[IndexOf(c)].rem == {r})
  {
    var v := s.readers[r];
    assert ViewOk(s, v);
    if v.cur < s.g.wt {
      var c := Resynced(s.g, v.cur);
      assert SlotHolds(s, c);
      assert s.g.slots[IndexOf(c)].rem - {r} == {} <==> s.g.slots[IndexOf(c)].rem == {r};
    }
  }

  lemma WriteKeeps(s: State, body: Body, force: bool)
    requires Inv(s)
    ensures Inv(s.(g := Written(s.g, body, force), hist := s.hist + [body]))
  {
    var t := s.(g := Written(s.g, body, force), hist := s.hist + [body]);
    forall k: nat ensures SlotHolds(t, k) {
      assert SlotHolds(s, k);
      if InWindow(t, k) && k < s.g.wt && IndexOf(k) == IndexOf(s.g.wt) {
        SameSlot(k, s.g.wt, s.g.wt + 1);
      }
      if k == s.g.wt {
        forall r | r in t.readers ensures t.readers[r].cur <= k && t.readers[r].start <= k {
          assert ViewOk(s, s.readers[r]);
        }
      }
    }
    forall r | r in t.readers ensures ViewOk(t, t.readers[r]) {
      assert ViewOk(s, s.readers[r]);
    }
  }

  /** `force_push` with nobody connected moves the epoch and fails. */
  lemma BumpKeeps(s: State)
    requires Inv(s)
    ensures Inv(s.(g := Bump(s.g)))
  {
    var t := s.(g := Bump(s.g));
    forall k: nat ensures SlotHolds(t, k) {
      assert SlotHolds(s, k);
    }
    forall r | r in t.readers ensures ViewOk(t, t.readers[r]) {
      assert ViewOk(s, s.readers[r]);
    }
  }

  lemma ConnectKeeps(s: State, r: Reader)
    requires Inv(s) && Enabled(s, Connect(r))
    ensures Inv(Next(s, Connect(r)))
  {
    var t := Next(s, Connect(r));
    forall k: nat ensures SlotHolds(t, k) {
      assert SlotHolds(s, k);
    }
    forall q | q in t.readers ensures ViewOk(t, t.readers[q]) {
      if q != r {
        assert ViewOk(s, s.readers[q]);
      }
    }
  }

  /** The state after a `pop` that delivers. */
  lemma PopNext(s: State, r: Reader)
    requires Inv(s) && r in s.readers
    ensures var v := s.readers[r]; var t := Next(s, TryPop(r));
            if v.cur == s.g.wt then t == s
            else
              var c := Resynced(s.g, v.cur);
              && InWindow(s, c) && v.cur <= c
              && r in s.g.slots[IndexOf(c)].rem
              && t == s.(g := ClearBit(s.g, IndexOf(c), r),
                         readers := s.readers[r := View(v.start, c + 1,
                           v.log + [Delivery(Some(Msg(c, s.hist[c])), s.g.slots[IndexOf(c)].rem == {r})])])
  {
    assert ViewOk(s, s.readers[r]);
    PopTakesCursor(s, r);
    if s.readers[r].cur == s.g.wt {
      assert s.readers[r := s.readers[r]] == s.readers;
    } else {
      assert SlotHolds(s, Resynced(s.g, s.readers[r].cur));
    }
  }

  lemma PopKeepsSlots(s: State, r: Reader, k: nat)
    requires Inv(s) && r in s.readers
    ensures SlotHolds(Next(s, TryPop(r)), k)
  {
    PopNext(s, r);
    assert SlotHolds(s, k);
    var c := Resynced(s.g, s.readers[r].cur);
    if s.readers[r].cur < s.g.wt && InWindow(s, k) && IndexOf(k) == IndexOf(c) {
      SameSlot(k, c, s.g.wt);
    }
  }

  lemma PopKeeps(s: State, r: Reader)
    requires Inv(s) && r in s.readers
    ensures Inv(Next(s, TryPop(r)))
  {
    var t := Next(s, TryPop(r));
    forall k: nat ensures SlotHolds(t, k) {
      PopKeepsSlots(s, r, k);
    }
    PopNext(s, r);
    forall q | q in t.readers ensures ViewOk(t, t.readers[q]) { PopKeepsView(s, r, q); }
  }

  lemma PopKeepsView(s: State, r: Reader, q: Reader)
    requires Inv(s) && r in s.readers && q in s.readers
    ensures var t := Next(s, TryPop(r)); q in t.readers && ViewOk(t, t.readers[q])
  {
    PopNext(s, r);
    assert ViewOk(s, s.readers[q]);
  }

  lemma StepKeeps(s: State, a: Action)
    requires Inv(s) && Enabled(s, a)
    ensures Inv(Next(s, a))
  {
    match a
    case Connect(r) => ConnectKeeps(s, r);
    case Push(body) => WriteKeeps(s, body, false);
    case ForcePush(body) => if s.g.cc == {} { BumpKeeps(s); } else { WriteKeeps(s, body, true); }
    case TryPop(r) => PopKeeps(s, r);
  }

  lemma {:induction false} TraceKeeps(ss: seq<State>, acts: seq<Action>, n: nat)
    requires Trace(ss, acts) && n < |ss|
    ensures Inv(ss[n])
  {
    if n == 0 {
      forall k: nat ensures SlotHolds(ss[0], k) {
      }
    } else {
      TraceKeeps(ss, acts, n - 1);
      StepKeeps(ss[n - 1], acts[n - 1]);
    }
  }

  // ---------------------------------------------------------------- delivery in the presence of laps

  /** Every delivery is the message pushed at its position, and positions only grow: a receiver gets
      a strictly increasing subsequence of what was pushed. */
  lemma DeliveriesAreASubsequence(ss: seq<State>, acts: seq<Action>, r: Reader)
    requires Trace(ss, acts) && r in ss[|acts|].readers
    ensures ViewOk(ss[|acts|], ss[|acts|].readers[r])
  {
    TraceKeeps(ss, acts, |acts|);
  }

  predicate Received(v: View, k: nat) {
    exists j :: 0 <= j < |v.log| && v.log[j].msg.Some? && v.log[j].msg.value.pos == k
  }

  /** Step `j` carried the receiver's cursor past position `k`. */
  predicate PassedAt(ss: seq<State>, r: Reader, k: nat, j: nat) {
    && j + 1 < |ss|
    && r in ss[j].readers && r in ss[j + 1].readers
    && ss[j].readers[r].cur <= k < ss[j + 1].readers[r].cur
  }

  /** One step: a cursor only moves in a `pop`, and of the positions it moves past exactly those at
      most 256 behind the writer are delivered. */
  lemma StepDelivers(s: State, a: Action, r: Reader, k: nat)
    requires Inv(s) && Enabled(s, a) && r in s.readers && r in Next(s, a).readers
    ensures var v := s.readers[r]; var w := Next(s, a).readers[r];
            && v.start == w.start && v.cur <= w.cur
            && (v.cur <= k < w.cur ==> a == TryPop(r) && (Received(w, k) <==> s.g.wt <= k + SLOTS))
            && (!(v.cur <= k < w.cur) ==> (Received(w, k) <==> Received(v, k)))
  {
    var v := s.readers[r];
    var w := Next(s, a).readers[r];
    assert ViewOk(s, v);
    if a == TryPop(r) && v.cur < s.g.wt {
      PopTakesCursor(s, r);
      var d := Delivery(Pop(s.g, r, v.cur).msg, Pop(s.g, r, v.cur).last);
      assert w.log == v.log + [d];
      assert w.log[|v.log|] == d;
      assert forall j :: 0 <= j < |v.log| ==> w.log[j] == v.log[j];
    } else if a == TryPop(r) {
      PopTakesCursor(s, r);
    }
  }

  /** What is missed, exactly: a position the receiver has got past since it connected was passed by
      one step of the run, and it was delivered if and only if the writer was at most one lap
      (256 messages) ahead of it at that step. */
  lemma {:induction false} MissedExactlyWhenLapped(ss: seq<State>, acts: seq<Action>, n: nat, r: Reader, k: nat)
    returns (j: nat)
    requires Trace(ss, acts) && n < |ss| && r in ss[n].readers
    requires ss[n].readers[r].start <= k < ss[n].readers[r].cur
    ensures j < n && PassedAt(ss, r, k, j) && (forall i: nat :: i < n && PassedAt(ss, r, k, i) ==> i == j)
    ensures Received(ss[n].readers[r], k) <==> ss[j].g.wt <= k + SLOTS
  {
    hide Inv, Next, Enabled;
    var m := n - 1;
    TraceKeeps(ss, acts, m);
    assert ss[n] == Next(ss[m], acts[m]);
    ConnectedBefore(ss[m], acts[m], r);
    StepDelivers(ss[m], acts[m], r, k);
    if PassedAt(ss, r, k, m) {
      j := m;
      forall i: nat | i < m && PassedAt(ss, r, k, i) ensures false {
        CursorGrows(ss, acts, i + 1, m, r);
      }
      NotYetReceived(ss[m], r, k);
    } else {
      j := MissedExactlyWhenLapped(ss, acts, m, r, k);
    }
  }

  lemma ConnectedBefore(s: State, a: Action, r: Reader)
    requires Shape(s) && Enabled(s, a) && r in Next(s, a).readers
    requires Next(s, a).readers[r].start < Next(s, a).readers[r].cur
    ensures r in s.readers
  {
  }

  lemma CursorStep(s: State, a: Action, r: Reader)
    requires Shape(s) && Enabled(s, a) && r in s.readers
    ensures r in Next(s, a).readers && s.readers[r].cur <= Next(s, a).readers[r].cur
  {
  }

  lemma NotYetReceived(s: State, r: Reader, k: nat)
    requires Inv(s) && r in s.readers && s.readers[r].cur <= k
    ensures !Received(s.readers[r], k)
  {
    assert ViewOk(s, s.readers[r]);
  }

  lemma {:induction false} CursorGrows(ss: seq<State>, acts: seq<Action>, i: nat, n: nat, r: Reader)
    requires Trace(ss, acts) && i <= n < |ss| && r in ss[i].readers
    ensures r in ss[n].readers && ss[i].readers[r].cur <= ss[n].readers[r].cur
  {
    if i < n {
      CursorGrows(ss, acts, i, n - 1, r);
      assert ss[n] == Next(ss[n - 1], acts[n - 1]);
      CursorStep(ss[n - 1], acts[n - 1], r);
    }
  }

  // ---------------------------------------------------------------- when push is refused

  /** Some receiver that was connected in time has yet to take position `k`. */
  predicate Pending(s: State, k: nat) {
    exists r <- s.readers :: s.readers[r].start <= k && s.readers[r].cur <= k
  }

  /** A `force_push` came after the message at position `k` was pushed. */
  predicate ForcedSince(ss: seq<State>, acts: seq<Action>, n: nat, k: nat)
    requires n <= |acts| < |ss|
  {
    exists i :: 0 <= i < n && acts[i].ForcePush? && ss[i].g.wt > k
  }

  lemma {:induction false} IndexGrows(ss: seq<State>, acts: seq<Action>, i: nat, n: nat)
    requires Trace(ss, acts) && i <= n < |ss|
    ensures ss[i].g.wt <= ss[n].g.wt
  {
    if i < n {
      IndexGrows(ss, acts, i, n - 1);
      assert ss[n] == Next(ss[n - 1], acts[n - 1]);
    }
  }

  lemma {:induction false} ForcedBefore(ss: seq<State>, acts: seq<Action>, n: nat, k: nat)
    requires Trace(ss, acts) && 0 < n < |ss|
    ensures ForcedSince(ss, acts, n, k) <==>
            ForcedSince(ss, acts, n - 1, k) || (acts[n - 1].ForcePush? && ss[n - 1].g.wt > k)
  {
  }

  /** One step and the epoch of the slot of a position that stays in the ring. */
  lemma EpochStep(s: State, a: Action, k: nat)
    requires Inv(s) && Enabled(s, a) && InWindow(Next(s, a), k)
    ensures var t := Next(s, a); var i := IndexOf(k);
            && k <= s.g.wt
            && (k == s.g.wt ==> t.g.slots[i].ep == t.g.epoch)
            && (k < s.g.wt ==> InWindow(s, k) && t.g.slots[i].ep == s.g.slots[i].ep
                               && t.g.epoch == s.g.epoch + if a.ForcePush? then 1 else 0)
  {
    if a.TryPop? { PopNext(s, a.r); }
    if a.Push? || a.ForcePush? {
      if k < s.g.wt && IndexOf(k) == IndexOf(s.g.wt) && s.g.cc != {} { SameSlot(k, s.g.wt, s.g.wt + 1); }
    }
  }

  /** The slot of a position still in the ring has the present epoch unless a `force_push` came since. */
  lemma {:induction false} EpochTells(ss: seq<State>, acts: seq<Action>, n: nat, k: nat)
    requires Trace(ss, acts) && n < |ss| && |ss[n].g.slots| == SLOTS && InWindow(ss[n], k)
    ensures ss[n].g.slots[IndexOf(k)].ep <= ss[n].g.epoch
    ensures ss[n].g.slots[IndexOf(k)].ep == ss[n].g.epoch <==> !ForcedSince(ss, acts, n, k)
  {
    hide Inv, Next, Enabled;
    if n > 0 {
      var s := ss[n - 1];
      TraceKeeps(ss, acts, n - 1);
      assert ss[n] == Next(s, acts[n - 1]);
      EpochStep(s, acts[n - 1], k);
      ForcedBefore(ss, acts, n, k);
      if k < s.g.wt {
        ShapeOf(s);
        EpochTells(ss, acts, n - 1, k);
      } else {
        forall i | 0 <= i < n - 1 && acts[i].ForcePush? ensures ss[i].g.wt <= k { IndexGrows(ss, acts, i, n - 1); }
      }
    }
  }

  lemma ShapeOf(s: State)
    requires Inv(s)
    ensures Shape(s)
  {
  }

  /** When `push` is refused, exactly: some connected receiver has yet to take the message 256 positions
      back, and no `force_push` came after that message was pushed. */
  lemma RefusedExactly(ss: seq<State>, acts: seq<Action>, n: nat)
    requires Trace(ss, acts) && n < |ss|
    ensures Shape(ss[n])
    ensures Refuses(ss[n].g) <==>
            && SLOTS <= ss[n].g.wt && Pending(ss[n], ss[n].g.wt - SLOTS)
            && !ForcedSince(ss, acts, n, ss[n].g.wt - SLOTS)
  {
    var s := ss[n];
    TraceKeeps(ss, acts, n);
    if SLOTS <= s.g.wt {
      var k := s.g.wt - SLOTS;
      assert SlotHolds(s, k) && IndexOf(k) == IndexOf(s.g.wt);
      EpochTells(ss, acts, n, k);
      assert Pending(s, k) <==> s.g.cc * Target(s.g).rem != {} by { HeldIffPending(s, k); }
    }
  }

  lemma HeldIffPending(s: State, k: nat)
    requires Inv(s) && InWindow(s, k)
    ensures Pending(s, k) <==> s.g.cc * s.g.slots[IndexOf(k)].rem != {}
  {
    var rem := s.g.slots[IndexOf(k)].rem;
    assert SlotHolds(s, k);
    if Pending(s, k) {
      var r :| r in s.readers && s.readers[r].start <= k && s.readers[r].cur <= k;
      assert r in s.g.cc * rem;
    }
    if s.g.cc * rem != {} {
      var r :| r in s.g.cc * rem;
      assert r in s.readers;
    }
  }

  /** So after a `force_push` no message from before it makes a `push` fail: a whole lap goes through,
      whatever the receivers do. */
  lemma ForceUnblocks(ss: seq<State>, acts: seq<Action>, i: nat, n: nat, body: Body)
    requires Trace(ss, acts) && i < n < |ss| && acts[i].ForcePush?
    requires ss[n].g.cc != {} && ss[n].g.wt < ss[i].g.wt + SLOTS
    ensures Shape(ss[n]) && Enabled(ss[n], Push(body))
  {
    RefusedExactly(ss, acts, n);
  }

  // ---------------------------------------------------------------- delivery without force_push

  predicate NoForce(acts: seq<Action>) {
    forall j :: 0 <= j < |acts| ==> !acts[j].ForcePush?
  }

  predicate Told(v: View, k: nat) {
    v.start <= k < v.cur && k - v.start < |v.log| && v.log[k - v.start].last
  }

  /** No reader is lapped and the log of each is gap-free. */
  predicate Gapless(s: State, v: View) {
    && s.g.wt <= v.cur + SLOTS
    && |v.log| == v.cur - v.start
    && forall j :: 0 <= j < |v.log| ==> v.log[j].msg.Some? && v.log[j].msg.value.pos == v.start + j
  }

  /** Once nobody still has to read position `k`, one receiver and no other was told it was the last. */
  ghost predicate OneTold(s: State, k: nat) {
    && (Pending(s, k) ==> forall r <- s.readers :: !Told(s.readers[r], k))
    && (!Pending(s, k) ==> exists r <- s.readers :: Told(s.readers[r], k))
    && (forall q, r :: q in s.readers && r in s.readers && Told(s.readers[q], k) && Told(s.readers[r], k) ==> q == r)
  }

  ghost predicate CalmInv(s: State) {
    && Inv(s)
    && (forall i :: 0 <= i < SLOTS ==> s.g.slots[i].ep == 0)
    && s.g.epoch == 0
    && (forall r <- s.readers :: Gapless(s, s.readers[r]))
    && (forall k :: 0 <= k < s.g.wt ==> OneTold(s, k))
  }

  lemma CalmPushGapless(s: State, body: Body, r: Reader)
    requires CalmInv(s) && Enabled(s, Push(body)) && r in s.readers
    ensures Gapless(Next(s, Push(body)), s.readers[r])
  {
    var v := s.readers[r];
    assert ViewOk(s, v) && Gapless(s, v) && SlotHolds(s, v.cur);
    assert r !in s.g.cc * Target(s.g).rem;
  }

  lemma CalmPushTold(s: State, body: Body, k: nat)
    requires CalmInv(s) && Enabled(s, Push(body)) && k <= s.g.wt
    ensures OneTold(Next(s, Push(body)), k)
  {
    var t := Next(s, Push(body));
    assert t.readers == s.readers;
    if k == s.g.wt {
      forall q | q in t.readers ensures !Told(t.readers[q], k) && t.readers[q].cur <= k && t.readers[q].start <= k {
        assert ViewOk(s, s.readers[q]);
      }
      var r :| r in s.g.cc;
      assert Pending(t, k) by { assert r in t.readers; }
    } else {
      assert OneTold(s, k);
    }
  }

  lemma CalmPush(s: State, body: Body)
    requires CalmInv(s) && Enabled(s, Push(body))
    ensures CalmInv(Next(s, Push(body)))
  {
    var t := Next(s, Push(body));
    StepKeeps(s, Push(body));
    forall r | r in t.readers ensures Gapless(t, t.readers[r]) {
      CalmPushGapless(s, body, r);
    }
    forall k | 0 <= k < t.g.wt ensures OneTold(t, k) {
      CalmPushTold(s, body, k);
    }
  }

  /** A receiver state change that neither reads nor skips position `k` leaves its verdict alone. */
  lemma SameVerdict(s: State, t: State, r: Reader, k: nat)
    requires OneTold(s, k) && r in t.readers
    requires t.readers == s.readers[r := t.readers[r]]
    requires if r in s.readers
             then (Told(s.readers[r], k) <==> Told(t.readers[r], k))
                  && (s.readers[r].start <= k && s.readers[r].cur <= k <==>
                      t.readers[r].start <= k && t.readers[r].cur <= k)
             else t.readers[r].start > k
    ensures OneTold(t, k)
  {
    if Pending(t, k) {
      var q :| q in t.readers && t.readers[q].start <= k && t.readers[q].cur <= k;
      assert q in s.readers && s.readers[q].start <= k && s.readers[q].cur <= k;
      assert Pending(s, k);
    } else {
      forall q | q in s.readers ensures !(s.readers[q].start <= k && s.readers[q].cur <= k) {
        assert q in t.readers;
      }
      var q :| q in s.readers && Told(s.readers[q], k);
      assert q in t.readers && Told(t.readers[q], k);
    }
  }

  lemma CalmConnect(s: State, r: Reader)
    requires CalmInv(s) && Enabled(s, Connect(r))
    ensures CalmInv(Next(s, Connect(r)))
  {
    var t := Next(s, Connect(r));
    StepKeeps(s, Connect(r));
    forall q | q in t.readers ensures Gapless(t, t.readers[q]) {
      if q != r {
        assert Gapless(s, s.readers[q]);
      }
    }
    forall k | 0 <= k < t.g.wt ensures OneTold(t, k) {
      assert OneTold(s, k);
      SameVerdict(s, t, r, k);
    }
  }

  /** The reader that takes the position at its cursor is told it was the last if it alone had the bit;
      until then nobody was told. */
  lemma TakesCursor(s: State, r: Reader)
    requires CalmInv(s) && r in s.readers && s.readers[r].cur < s.g.wt
    ensures var t := Next(s, TryPop(r)); var k := s.readers[r].cur; var rem := s.g.slots[IndexOf(k)].rem;
            && t.readers.Keys == s.readers.Keys && r in rem
            && t.readers[r].cur == k + 1 && (Told(t.readers[r], k) <==> rem == {r})
            && (forall q <- s.readers :: q != r ==> t.readers[q] == s.readers[q])
            && (forall q <- s.readers :: !Told(s.readers[q], k))
            && (forall q <- rem :: q in s.readers)
            && (forall q <- s.readers :: q in rem <==> s.readers[q].start <= k && s.readers[q].cur <= k)
  {
    var v := s.readers[r];
    PopNext(s, r);
    assert OneTold(s, v.cur) && ViewOk(s, v) && Gapless(s, v) && SlotHolds(s, v.cur);
    assert Pending(s, v.cur);
  }

  lemma TakesVerdict(s: State, r: Reader)
    requires CalmInv(s) && r in s.readers && s.readers[r].cur < s.g.wt
    ensures OneTold(Next(s, TryPop(r)), s.readers[r].cur)
  {
    hide Next, ViewOk, Gapless, SlotHolds, Told;
    var t := Next(s, TryPop(r));
    var k := s.readers[r].cur;
    var rem := s.g.slots[IndexOf(k)].rem;
    TakesCursor(s, r);
    if rem != {r} {
      var q :| q in rem && q != r;
      assert q in t.readers && t.readers[q].start <= k && t.readers[q].cur <= k;
    } else {
      assert r in t.readers;
    }
  }

  lemma CalmPopTold(s: State, r: Reader, k: nat)
    requires CalmInv(s) && r in s.readers && k < s.g.wt
    ensures OneTold(Next(s, TryPop(r)), k)
  {
    var v := s.readers[r];
    PopNext(s, r);
    assert OneTold(s, k) && ViewOk(s, v) && Gapless(s, v);
    if v.cur < s.g.wt && k == v.cur {
      TakesVerdict(s, r);
    } else if v.cur < s.g.wt {
      SameVerdict(s, Next(s, TryPop(r)), r, k);
    }
  }

  lemma CalmPopGapless(s: State, r: Reader, q: Reader)
    requires CalmInv(s) && r in s.readers && q in s.readers
    ensures var t := Next(s, TryPop(r)); q in t.readers && Gapless(t, t.readers[q])
  {
    PopNext(s, r);
    assert Gapless(s, s.readers[q]) && ViewOk(s, s.readers[q]);
  }

  lemma CalmPop(s: State, r: Reader)
    requires CalmInv(s) && r in s.readers
    ensures CalmInv(Next(s, TryPop(r)))
  {
    var t := Next(s, TryPop(r));
    PopKeeps(s, r);
    assert t.g.wt == s.g.wt && t.g.epoch == s.g.epoch
           && forall i :: 0 <= i < SLOTS ==> t.g.slots[i].ep == s.g.slots[i].ep;
    forall k | 0 <= k < s.g.wt ensures OneTold(t, k) {
      CalmPopTold(s, r, k);
    }
    forall q | q in t.readers ensures Gapless(t, t.readers[q]) {
      CalmPopGapless(s, r, q);
    }
  }

  lemma {:induction false} TraceCalm(ss: seq<State>, acts: seq<Action>, n: nat)
    requires Trace(ss, acts) && NoForce(acts) && n < |ss|
    ensures CalmInv(ss[n])
  {
    if n == 0 {
      TraceKeeps(ss, acts, 0);
    } else {
      TraceCalm(ss, acts, n - 1);
      match acts[n - 1]
      case Connect(r) => CalmConnect(ss[n - 1], r);
      case Push(body) => CalmPush(ss[n - 1], body);
      case TryPop(r) => CalmPop(ss[n - 1], r);
    }
  }

  /** Without `force_push` nobody is ever lapped and every receiver gets every message pushed since
      it connected, in order and without gaps. */
  lemma EverythingArrivesInOrder(ss: seq<State>, acts: seq<Action>, r: Reader)
    requires Trace(ss, acts) && NoForce(acts) && r in ss[|acts|].readers
    ensures var s := ss[|acts|]; var v := s.readers[r];
            && s.g.wt - v.cur <= SLOTS
            && |v.log| == v.cur - v.start && v.start + |v.log| <= |s.hist|
            && forall j :: 0 <= j < |v.log| ==> v.log[j].msg == Some(Msg(v.start + j, s.hist[v.start + j]))
  {
    TraceCalm(ss, acts, |acts|);
    assert Gapless(ss[|acts|], ss[|acts|].readers[r]) && ViewOk(ss[|acts|], ss[|acts|].readers[r]);
  }

  /** Without `force_push`, for every message that all its receivers have taken, exactly one of them
      was told that it was the last; while one has yet to take it, none was. */
  lemma ExactlyOneIsToldLast(ss: seq<State>, acts: seq<Action>, k: nat)
    requires Trace(ss, acts) && NoForce(acts) && k < ss[|acts|].g.wt
    ensures OneTold(ss[|acts|], k)
  {
    TraceCalm(ss, acts, |acts|);
  }
}
