/** How a chunk passes from one owner to the next, step by step. */
module ChunkLife {
  import opened Basics
  import opened BroadcastRing
  import opened Ownership
  import opened DeliverySafety
  import opened ChunkSafety

  lemma LoanMoves(s: State, seen: set<Reader>)
    requires RingInv(s) && OwnInv(s) && Enabled(s, Loan(seen))
    ensures OnLoan(Next(s, Loan(seen)), s.free[0])
  {
    hide SlotsOk, ReaderOk, OwnInv, OnLoan, InPool, InUse, OnItsWayBack;
    StepKeepsOwn(s, Loan(seen));
    OwnerOf(Next(s, Loan(seen)), s.free[0]);
  }

  lemma GivenBack(s: State, a: Action)
    requires RingInv(s) && OwnInv(s) && Enabled(s, a) && (a.DiscardLoan? || a.Release?)
    ensures InPool(Next(s, a), a.c)
  {
    hide SlotsOk, ReaderOk, OwnInv, OnLoan, InPool, InUse, OnItsWayBack;
    StepKeepsOwn(s, a);
    OwnerOf(Next(s, a), a.c);
  }

  lemma PublishMoves(s: State, c: nat, force: bool)
    requires RingInv(s) && OwnInv(s) && Enabled(s, Publish(c, force)) && s.conns[c] == s.g.cc
    ensures var u := Next(s, Publish(c, force)); InUse(u, c) && SlotReaders(u, c) == u.g.cc && Holders(u, c) == {}
  {
    hide SlotsOk, ReaderOk, OwnInv, Holds, Vacated;
    var u := Next(s, Publish(c, force));
    StepKeepsOwn(s, Publish(c, force));
    OwnerOf(u, c);
    PublishBits(s, c, force);
    PublishKeepsHolders(s, c, force);
    assert Holders(u, c) == {};
  }

  lemma RecycleMoves(s: State, r: Reader, c: nat)
    requires RingInv(s) && OwnInv(s) && Enabled(s, Recycle(r, c))
    ensures var u := Next(s, Recycle(r, c));
            && r in s.conns[c] && u.conns[c] == s.conns[c] - {r}
            && (if s.conns[c] == {r} then OnItsWayBack(u, c) && Releasers(u, c) == {r} else InUse(u, c))
  {
    hide SlotsOk, ReaderOk, OwnInv, OnLoan, InPool, InUse, OnItsWayBack;
    StepKeepsOwn(s, Recycle(r, c));
    OwnerOf(Next(s, Recycle(r, c)), c);
    RecycledExactly(s, r, c);
  }

  /** Neither the publication of another chunk nor an inline message leaves a bit on the message they
      overwrite. */
  lemma OverwriteBits(s: State, a: Action, c: nat)
    requires RingInv(s) && OwnInv(s) && Enabled(s, a) && (a.Publish? || a.SendInline?) && Lost(s, c)
    ensures var u := Next(s, a);
            && c < CHUNKS && u.conns[c] == Vacated(s).conns[c] && u.phase[c] == Vacated(s).phase[c]
            && forall i: nat, r: Reader :: i < SLOTS ==> !Bit(u.g, i, r, c)
  {
    hide HolderOk, ChunkOk, SlotsOk, ReaderOk, Vacated, PoolOk;
    LostChunk(s, c);
    VacatedBits(s);
    VacatedShape(s);
    var v := Vacated(s);
    assert forall i: nat, r: Reader :: i < SLOTS ==> !Bit(v.g, i, r, c);
    if a.Publish? {
      PublishBits(s, a.c, a.force);
      assert a.c != c;
    } else {
      InlineBits(s, a.tag, a.force, c);
    }
  }

  lemma InlineBits(s: State, tag: int, force: bool, c: nat)
    requires Shape(s) && Shape(Vacated(s))
    ensures var (u, v) := (Send(s, Inline(tag), force), Vacated(s));
            && u.conns == v.conns && u.phase == v.phase
            && forall i: nat, r: Reader :: i < SLOTS && Bit(u.g, i, r, c) ==> Bit(v.g, i, r, c)
  {
    SendIsVacateThenWrite(s, Inline(tag), force);
  }

  /** A message overwritten before everybody came for it. */
  lemma OverwriteMoves(s: State, a: Action, c: nat)
    requires RingInv(s) && OwnInv(s) && Enabled(s, a) && Settled(s, a) && (a.Publish? || a.SendInline?) && Lost(s, c)
    ensures c < CHUNKS
    ensures var u := Next(s, a); SlotReaders(u, c) == {} && if Holders(s, c) == {} then InPool(u, c) else InUse(u, c)
  {
    hide SlotsOk, ReaderOk, OwnInv, OnLoan, InPool, InUse, OnItsWayBack, Holds, Vacated, Next;
    var u := Next(s, a);
    StepKeepsOwn(s, a);
    LostChunk(s, c);
    VacatedShape(s);
    OverwriteBits(s, a, c);
    OwnerOf(u, c);
    assert Vacated(s).conns[c] <= s.g.cc by { VacatedInside(s, c); }
    assert Vacated(s).conns[c] == Holders(s, c);
  }

  lemma VacatedShape(s: State)
    requires Shape(s)
    ensures Shape(Vacated(s))
  {
  }

  lemma VacatedInside(s: State, c: nat)
    requires RingInv(s) && OwnInv(s) && c < CHUNKS && Lost(s, c)
    ensures Vacated(s).conns[c] <= s.g.cc
  {
    LostChunk(s, c);
    assert ChunkOk(s, c);
  }

  /** The way of a chunk through the system, exactly: the step a chunk is taken by, published, dropped,
      recycled or given back in decides who has it next. In particular none is lost on the way: the last
      receiver to destroy its buffer has the chunk to give back, and one that is given back is in the pool. */
  lemma ChunkLifeCycle(s: State, acts: seq<Action>, t: State, a: Action)
    requires Init(s) && Exec(s, acts) == Some(t) && SettledRun(s, acts) && Enabled(t, a) && Settled(t, a)
    ensures var u := Next(t, a);
            && (a.Loan? ==> OnLoan(u, t.free[0]))
            && (a.DiscardLoan? || a.Release? ==> InPool(u, a.c))
            && (a.Publish? ==> InUse(u, a.c) && SlotReaders(u, a.c) == u.g.cc && Holders(u, a.c) == {})
            && (a.Recycle? ==>
                  if SlotReaders(t, a.c) + Holders(t, a.c) == {a.r}
                  then OnItsWayBack(u, a.c) && Releasers(u, a.c) == {a.r}
                  else InUse(u, a.c) && SlotReaders(u, a.c) + Holders(u, a.c)
                                        == SlotReaders(t, a.c) + Holders(t, a.c) - {a.r})
            && (a.Publish? || a.SendInline? ==> forall c :: 0 <= c < CHUNKS && Lost(t, c) ==>
                  SlotReaders(u, c) == {} && if Holders(t, c) == {} then InPool(u, c) else InUse(u, c))
  {
    hide SlotsOk, ReaderOk, OwnInv, OnLoan, InPool, OnItsWayBack, Holds, Next, SlotReaders, Holders, SlotsOk, ReaderOk;
    RunKeepsOwn(s, acts, t);
    if a.Loan? {
      LoanMoves(t, a.seen);
    } else if a.DiscardLoan? || a.Release? {
      GivenBack(t, a);
    } else if a.Recycle? {
      RecycleMoves(t, a.r, a.c);
      HeldInUse(t, a.r, a.c);
    } else if a.Publish? || a.SendInline? {
      if a.Publish? { PublishMoves(t, a.c, a.force); }
      forall c | 0 <= c < CHUNKS && Lost(t, c)
        ensures SlotReaders(Next(t, a), c) == {} && if Holders(t, c) == {} then InPool(Next(t, a), c)
                                                    else InUse(Next(t, a), c)
      {
        OverwriteMoves(t, a, c);
      }
    }
  }

  lemma HeldInUse(s: State, r: Reader, c: nat)
    requires RingInv(s) && OwnInv(s) && Enabled(s, Recycle(r, c))
    ensures InUse(s, c)
  {
    RecycledExactly(s, r, c);
    OwnerOf(s, c);
  }
}
