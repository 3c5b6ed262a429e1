/** What happens when a receiver connects between the acquisition and the publication of a chunk. */
module LateJoiner {
  import opened Basics
  import opened BroadcastRing
  import opened Ownership
  import opened DeliverySafety
  import opened ChunkSafety
  import opened SoloPops
  import Fifo

  /** Some sequence of enabled steps leads from `s` to `t`. */
  ghost predicate Reaches(s: State, t: State)
    requires Shape(s)
  {
    exists acts :: Exec(s, acts) == Some(t)
  }

  lemma StepReaches(s: State, a: Action, t: State)
    requires Shape(s) && Enabled(s, a) && Next(s, a) == t
    ensures Reaches(s, t)
  {
    var acts := [a];
    assert acts[..0] == [];
    assert Exec(s, acts) == Some(t);
  }

  lemma Transitive(s: State, t: State, u: State)
    requires Shape(s) && Reaches(s, t) && Shape(t) && Reaches(t, u)
    ensures Reaches(s, u)
  {
    var xs :| Exec(s, xs) == Some(t);
    var ys :| Exec(t, ys) == Some(u);
    ExecConcat(s, xs, t, ys);
  }

  lemma AloneReaches(r: Reader, s: State, t: State)
    requires Shape(s) && Alone(r, s, t)
    ensures Reaches(s, t)
  {
  }

  /** The receiver after it has popped chunk message `m` in slot `i` undisturbed. */
  function Popped(s: State, r: Reader, i: nat, m: Msg): State
    requires r in s.readers && i < |s.g.slots| && m.body.Stored?
  {
    Handed(s, r, s.readers[r], Fifo.Popped(s.readers[r].cur + 1, i, Some(m), false))
  }

  /** A receiver running alone gets the message at its cursor. */
  lemma PopAtCursor(s: State, r: Reader, i: nat, m: Msg)
    requires Shape(s) && r in s.readers && s.readers[r].pc.Idle?
    requires s.readers[r].cur < s.g.wt <= s.readers[r].cur + SLOTS && i == IndexOf(s.readers[r].cur)
    requires s.g.slots[i].msg == Some(m) && m.body.Stored? && r in s.g.slots[i].rem
    ensures Reaches(s, Popped(s, r, i, m))
  {
    var p := Fifo.Pop(s.g, r, s.readers[r].cur);
    assert p == Fifo.Popped(s.readers[r].cur + 1, i, Some(m), p.last);
    SoloPop(s, r);
    AloneReaches(r, s, Popped(s, r, i, m));
  }

  // ---------------------------------------------------------------- the run

  const FRESH := RState(0, Idle, [], map[], {})

  /** One receiver, number 0; every chunk free. */
  function Start(): State {
    State(Ring({0}, 0, 0, seq(SLOTS, _ => Slot(0, {}, None))), [], seq(CHUNKS, c => c), seq(CHUNKS, _ => {}),
          {}, map[0 := FRESH], seq(CHUNKS, _ => Free))
  }

  /** Chunk 0 published to receivers 0 and 1 with a bitmap that only has receiver 0. */
  predicate Exposed(s: State) {
    && Shape(s)
    && s.g.cc == {0, 1} && s.g.wt == 1 && s.conns[0] == {0} && s.free == seq(CHUNKS - 1, k => k + 1)
    && s.g.slots[0] == Slot(0, {0, 1}, Some(Msg(0, Stored(0))))
    && s.readers == map[0 := FRESH, 1 := FRESH]
  }

  lemma LoanStep() returns (t: State)
    ensures Init(Start()) && Reaches(Start(), t)
    ensures t == Start().(free := seq(CHUNKS - 1, k => k + 1), conns := Start().conns[0 := {0}],
                          loans := {0}, phase := Start().phase[0 := Loaned])
  {
    var s := Start();
    assert s.free[0] == 0 && s.free[1..] == seq(CHUNKS - 1, k => k + 1);
    assert s.loans + {0} == {0};
    forall c | 0 <= c < CHUNKS ensures c in s.free {
      assert s.free[c] == c;
    }
    t := Next(s, Loan({0}));
    StepReaches(s, Loan({0}), t);
  }

  /** Receiver 1 joins after chunk 0 is acquired for receiver 0 and before it is published. */
  lemma JoinsInBetween() returns (s4: State)
    ensures Init(Start()) && Reaches(Start(), s4) && Exposed(s4)
  {
    var s := Start();
    var s1 := LoanStep();
    var s2 := s1.(g := s1.g.(cc := {0, 1}), readers := map[0 := FRESH, 1 := RState(0, Joining, [], map[], {})]);
    JoinStep(s1, s2);
    Transitive(s, s1, s2);
    var s3 := s2.(readers := map[0 := FRESH, 1 := FRESH]);
    CursorStep(s2, s3);
    Transitive(s, s2, s3);
    s4 := PublishStep(s3);
    Transitive(s, s3, s4);
  }

  lemma CursorStep(s: State, t: State)
    requires Shape(s) && s.g.wt == 0 && s.readers == map[0 := FRESH, 1 := RState(0, Joining, [], map[], {})]
    requires t == s.(readers := map[0 := FRESH, 1 := FRESH])
    ensures Reaches(s, t)
  {
    StepReaches(s, LoadCursor(1), t);
  }

  lemma JoinStep(s: State, t: State)
    requires Shape(s) && s.g.cc == {0} && s.readers == map[0 := FRESH]
    requires t == s.(g := s.g.(cc := {0, 1}), readers := map[0 := FRESH, 1 := RState(0, Joining, [], map[], {})])
    ensures Reaches(s, t)
  {
    StepReaches(s, Connect(1), t);
  }

  lemma PublishStep(s: State) returns (t: State)
    requires Shape(s) && s.loans == {0} && s.g.cc == {0, 1} && s.g.wt == 0 && s.g.epoch == 0
    requires s.g.slots[0] == Slot(0, {}, None) && s.conns[0] == {0} && s.free == seq(CHUNKS - 1, k => k + 1)
    requires s.readers == map[0 := FRESH, 1 := FRESH]
    ensures Reaches(s, t) && Exposed(t)
  {
    t := Next(s, Publish(0, false));
    StepReaches(s, Publish(0, false), t);
  }

  /** A receiver that the chunk's bitmap no longer covers anyone else for gives the chunk back. */
  lemma GiveBack(s: State, r: Reader) returns (t: State)
    requires Shape(s) && r in s.readers && s.conns[0] <= {r} && 0 in s.readers[r].held
    ensures Reaches(s, t) && t.free == [0] + s.free && t.conns == s.conns[0 := {}] && t.g == s.g
    ensures forall q <- s.readers :: q != r ==> t.readers[q] == s.readers[q]
  {
    assert s.conns[0] * (s.readers[r].held[0] - {r}) == {};
    var u := Next(s, Recycle(r, 0));
    StepReaches(s, Recycle(r, 0), u);
    t := GiveBackEnd(u, r);
    Transitive(s, u, t);
  }

  lemma GiveBackEnd(s: State, r: Reader) returns (t: State)
    requires Shape(s) && r in s.readers && 0 in s.readers[r].releasing
    ensures Reaches(s, t) && t.free == [0] + s.free && t.conns == s.conns && t.g == s.g
    ensures forall q <- s.readers :: q != r ==> t.readers[q] == s.readers[q]
  {
    t := Next(s, Release(r, 0));
    StepReaches(s, Release(r, 0), t);
  }

  /** Receiver 0 gives chunk 0 back while receiver 1 can still come for it; receiver 1 then holds a
      chunk that is in the pool, and when it is done the pool contains the same id twice. */
  lemma LateJoinerBreaksOwnership() returns (t: State, u: State)
    ensures Init(Start())
    ensures Reaches(Start(), t) && 1 in t.readers && Holds(t.readers[1], 0) && 0 in t.free && !Owned(t)
    ensures Reaches(Start(), u) && multiset(u.free)[0] == 2
  {
    var m := Msg(0, Stored(0));
    var s := JoinsInBetween();
    PopAtCursor(s, 0, 0, m);
    var s1 := Popped(s, 0, 0, m);
    Transitive(Start(), s, s1);
    var s2 := GiveBack(s1, 0);
    Transitive(Start(), s1, s2);
    PopAtCursor(s2, 1, 0, m);
    t := Popped(s2, 1, 0, m);
    Transitive(Start(), s2, t);
    NotOwned(t);
    u := GiveBack(t, 1);
    Transitive(Start(), t, u);
    assert u.free == [0] + ([0] + s.free);
    assert multiset(u.free) == multiset([0]) + (multiset([0]) + multiset(s.free));
    assert 0 !in s.free;
  }

  lemma NotOwned(t: State)
    requires Shape(t) && 1 in t.readers && Holds(t.readers[1], 0) && 0 in t.free
    ensures !Owned(t)
  {
    assert 1 in Holders(t, 0);
    assert !(InPool(t, 0) || OnLoan(t, 0) || InUse(t, 0) || OnItsWayBack(t, 0));
  }
}
