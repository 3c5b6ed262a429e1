/** Who owns a chunk id: the pool, the sender, the ring together with the receivers, or one party on
    its way to give it back. */
module ChunkSafety {
  import opened Basics
  import opened BroadcastRing
  import opened Ownership
  import opened DeliverySafety

  // ---------------------------------------------------------------- ownership, read off the state

  predicate SlotStores(g: Ring, i: nat, c: nat)
    requires i < |g.slots|
  {
    g.slots[i].msg.Some? && g.slots[i].msg.value.body == Stored(c)
  }

  /** Reader `r` still has to pop the message in slot `i`, whose payload is in chunk `c`. */
  predicate Bit(g: Ring, i: nat, r: Reader, c: nat)
    requires i < |g.slots|
  {
    SlotStores(g, i, c) && r in g.slots[i].rem
  }

  /** The receiver has popped the chunk's message and not yet destroyed its buffer. */
  predicate Holds(rs: RState, c: nat) {
    c in rs.held || (rs.pc.Got? && StorageOf(rs.pc.buf) == Some(c))
  }

  ghost function SlotReaders(s: State, c: nat): set<Reader>
    requires Shape(s)
  {
    set r | r in s.g.cc && exists i :: 0 <= i < SLOTS && Bit(s.g, i, r, c)
  }

  function Holders(s: State, c: nat): set<Reader>
    requires Shape(s)
  {
    set r | r in s.g.cc && Holds(s.readers[r], c)
  }

  function Releasers(s: State, c: nat): set<Reader>
    requires Shape(s)
  {
    set r | r in s.g.cc && c in s.readers[r].releasing
  }

  /** The bitmap in the chunk header is the disjoint union of the readers still to come and the
      receivers with a buffer, and somebody is left. */
  ghost predicate LiveChunk(s: State, c: nat)
    requires Shape(s) && c < CHUNKS
  {
    && s.conns[c] != {}
    && s.conns[c] == SlotReaders(s, c) + Holders(s, c)
    && SlotReaders(s, c) !! Holders(s, c)
  }

  /** Nobody but the pool or the sender refers to the chunk. */
  ghost predicate Unshared(s: State, c: nat)
    requires Shape(s)
  {
    SlotReaders(s, c) == {} && Holders(s, c) == {}
  }

  /** The four owners; the clauses of any two of them exclude each other. */
  ghost predicate InPool(s: State, c: nat)
    requires Shape(s) && c < CHUNKS
  {
    multiset(s.free)[c] == 1 && c !in s.loans && Releasers(s, c) == {} && Unshared(s, c)
  }

  ghost predicate OnLoan(s: State, c: nat)
    requires Shape(s) && c < CHUNKS
  {
    c !in s.free && c in s.loans && Releasers(s, c) == {} && Unshared(s, c)
  }

  ghost predicate InUse(s: State, c: nat)
    requires Shape(s) && c < CHUNKS
  {
    c !in s.free && c !in s.loans && Releasers(s, c) == {} && LiveChunk(s, c)
  }

  ghost predicate OnItsWayBack(s: State, c: nat)
    requires Shape(s) && c < CHUNKS
  {
    c !in s.free && c !in s.loans && |Releasers(s, c)| == 1 && Unshared(s, c)
  }

  /** Every chunk has exactly one owner. */
  ghost predicate Owned(s: State)
    requires Shape(s)
  {
    forall c :: 0 <= c < CHUNKS ==> InPool(s, c) || OnLoan(s, c) || InUse(s, c) || OnItsWayBack(s, c)
  }

  // ---------------------------------------------------------------- inductive form

  ghost predicate PoolOk(s: State)
    requires Shape(s)
  {
    && Distinct(s.free)
    && (forall c <- s.free :: c < CHUNKS)
    && (forall c <- s.loans :: c < CHUNKS)
    && (forall c :: 0 <= c < CHUNKS ==> (c in s.free <==> s.phase[c].Free?))
    && (forall c :: 0 <= c < CHUNKS ==> (c in s.loans <==> s.phase[c].Loaned?))
  }

  /** Only the slot of the last publication can carry bits for a chunk. */
  ghost predicate BitsOk(s: State)
    requires Shape(s)
  {
    forall i: nat, r: Reader, c: nat {:trigger Bit(s.g, i, r, c)} :: 0 <= i < SLOTS && Bit(s.g, i, r, c) ==>
      c < CHUNKS && s.phase[c] == Live(i)
  }

  /** A buffer's captured bitmap covers what is left of the chunk's. */
  ghost predicate HolderOk(s: State, r: Reader)
    requires Shape(s) && r in s.readers
  {
    var rs := s.readers[r];
    && (forall c: nat {:trigger Holds(rs, c)} :: Holds(rs, c) ==> c < CHUNKS && s.phase[c].Live?)
    && (forall c <- rs.held :: c < CHUNKS && s.conns[c] <= rs.held[c])
    && (rs.pc.Got? && StorageOf(rs.pc.buf).Some? ==> StorageOf(rs.pc.buf).value !in rs.held)
    && (forall c <- rs.releasing :: c < CHUNKS)
    && (forall c :: 0 <= c < CHUNKS ==> (c in rs.releasing <==> s.phase[c] == Releasing(r)))
  }

  predicate RightfulBit(s: State, r: Reader, c: nat)
    requires Shape(s) && c < CHUNKS && s.phase[c].Live? && r in s.readers
  {
    var bit := s.phase[c].home < SLOTS && Bit(s.g, s.phase[c].home, r, c);
    && (r in s.conns[c] <==> bit || Holds(s.readers[r], c))
    && !(bit && Holds(s.readers[r], c))
  }

  ghost predicate LiveOk(s: State, c: nat)
    requires Shape(s) && c < CHUNKS
  {
    s.phase[c].Live? ==>
      && s.conns[c] != {}
      && s.conns[c] <= s.g.cc
      && s.phase[c].home < SLOTS
      && forall r <- s.readers :: RightfulBit(s, r, c)
  }

  /** A chunk on its way back belongs to a connected receiver. */
  ghost predicate ReleasingOk(s: State, c: nat)
    requires Shape(s) && c < CHUNKS
  {
    s.phase[c].Releasing? ==> s.phase[c].party in s.readers
  }

  ghost predicate LoanOk(s: State, c: nat)
    requires Shape(s) && c < CHUNKS
  {
    s.phase[c].Loaned? ==> s.conns[c] != {} && s.conns[c] <= s.g.cc
  }

  ghost predicate ChunkOk(s: State, c: nat)
    requires Shape(s) && c < CHUNKS
  {
    LiveOk(s, c) && ReleasingOk(s, c) && LoanOk(s, c)
  }

  ghost predicate OwnInv(s: State) {
    && Shape(s)
    && PoolOk(s)
    && BitsOk(s)
    && (forall r <- s.readers :: HolderOk(s, r))
    && (forall c :: 0 <= c < CHUNKS ==> ChunkOk(s, c))
  }

  // ---------------------------------------------------------------- inductive form implies ownership

  lemma DistinctCounts<T>(xs: seq<T>, x: T)
    requires Distinct(xs)
    ensures multiset(xs)[x] == if x in xs then 1 else 0
  {
    if xs != [] {
      DistinctCounts(xs[1..], x);
      assert xs == [xs[0]] + xs[1..];
    }
  }

  lemma OwnInvImpliesOwned(s: State)
    requires OwnInv(s)
    ensures Owned(s)
  {
    forall c | 0 <= c < CHUNKS ensures InPool(s, c) || OnLoan(s, c) || InUse(s, c) || OnItsWayBack(s, c) {
      OwnerOf(s, c);
    }
  }

  lemma OwnerOf(s: State, c: nat)
    requires OwnInv(s) && c < CHUNKS
    ensures match s.phase[c]
            case Free => InPool(s, c)
            case Loaned => OnLoan(s, c)
            case Live(_) => InUse(s, c)
            case Releasing(r) => OnItsWayBack(s, c) && Releasers(s, c) == {r}
  {
    DistinctCounts(s.free, c);
    assert ChunkOk(s, c);
    forall r | r in s.readers
      ensures c in s.readers[r].releasing <==> s.phase[c] == Releasing(r)
      ensures !s.phase[c].Live? ==> !Holds(s.readers[r], c)
    {
      assert HolderOk(s, r);
    }
    if s.phase[c].Releasing? {
      assert Releasers(s, c) == {s.phase[c].party};
    }
    if s.phase[c].Live? {
      forall r | r in s.readers ensures r in SlotReaders(s, c) <==> Bit(s.g, s.phase[c].home, r, c) {
      }
      forall r | r in s.readers ensures RightfulBit(s, r, c) {
      }
      assert s.conns[c] == SlotReaders(s, c) + Holders(s, c);
    }
  }

  // ---------------------------------------------------------------- preservation

  /** Same bitmap, phase, bits and holders: nothing about the chunk has changed. */
  ghost predicate Untouched(s: State, t: State, c: nat)
    requires Shape(s) && Shape(t) && c < CHUNKS
  {
    && s.conns[c] == t.conns[c] && s.phase[c] == t.phase[c]
    && s.g.cc == t.g.cc
    && (forall r <- s.readers :: Holds(s.readers[r], c) <==> Holds(t.readers[r], c))
    && (forall i, r :: 0 <= i < SLOTS && r in s.readers ==> (Bit(s.g, i, r, c) <==> Bit(t.g, i, r, c)))
  }

  lemma UntouchedKeeps(s: State, t: State, c: nat)
    requires Shape(s) && Shape(t) && c < CHUNKS && ChunkOk(s, c) && Untouched(s, t, c)
    ensures ChunkOk(t, c)
  {
    if t.phase[c].Live? {
      forall r | r in t.readers ensures RightfulBit(t, r, c) {
        assert RightfulBit(s, r, c);
      }
    }
  }

  /** A receiver step that neither delivers nor touches buffers. */
  lemma QuietKeeps(s: State, t: State, r: Reader)
    requires OwnInv(s) && Shape(t) && r in s.readers && r in t.readers
    requires t == s.(readers := s.readers[r := t.readers[r]])
    requires !s.readers[r].pc.Got? && !t.readers[r].pc.Got?
    requires t.readers[r].held == s.readers[r].held && t.readers[r].releasing == s.readers[r].releasing
    ensures OwnInv(t)
  {
    forall q | q in t.readers ensures HolderOk(t, q) {
      assert HolderOk(s, q);
      assert forall c: nat :: Holds(t.readers[q], c) <==> Holds(s.readers[q], c);
    }
    forall c | 0 <= c < CHUNKS ensures ChunkOk(t, c) {
      UntouchedKeeps(s, t, c);
    }
  }

  /** Clearing the bit and getting hold of the chunk are one and the same step. */
  lemma ClearMovesBit(s: State, a: Action)
    requires RingInv(s) && OwnInv(s) && Enabled(s, a) && Clears(s, a)
    ensures var t := Next(s, a); var r := a.r; var i := s.readers[r].pc.i;
            && (forall c: nat :: Holds(t.readers[r], c) <==> Holds(s.readers[r], c) || SlotStores(s.g, i, c))
            && (forall c: nat :: SlotStores(s.g, i, c) ==>
                  c < CHUNKS && s.phase[c] == Live(i) && Bit(s.g, i, r, c) && c !in s.readers[r].held)
            && (forall j: nat, q: Reader, c: nat :: j < SLOTS ==>
                  (Bit(t.g, j, q, c) <==> Bit(s.g, j, q, c) && !(j == i && q == r)))
  {
    var r := a.r;
    var i := s.readers[r].pc.i;
    assert ReaderOk(s.g, s.hist, r, s.readers[r]);
    forall c: nat | SlotStores(s.g, i, c)
      ensures c < CHUNKS && s.phase[c] == Live(i) && Bit(s.g, i, r, c) && c !in s.readers[r].held
    {
      assert Bit(s.g, i, r, c);
      assert ChunkOk(s, c) && RightfulBit(s, r, c);
    }
  }

  lemma ClearKeepsHolder(s: State, a: Action, q: Reader)
    requires RingInv(s) && OwnInv(s) && Enabled(s, a) && Clears(s, a) && q in s.readers
    ensures q in Next(s, a).readers && HolderOk(Next(s, a), q)
  {
    ClearMovesBit(s, a);
    assert HolderOk(s, q);
  }

  lemma ClearKeepsOwn(s: State, a: Action)
    requires RingInv(s) && OwnInv(s) && Enabled(s, a) && Clears(s, a)
    ensures OwnInv(Next(s, a))
  {
    var t := Next(s, a);
    ClearMovesBit(s, a);
    forall q | q in t.readers ensures HolderOk(t, q) { ClearKeepsHolder(s, a, q); }
    forall c | 0 <= c < CHUNKS ensures ChunkOk(t, c) {
      assert ChunkOk(s, c);
      if t.phase[c].Live? {
        forall q | q in t.readers ensures RightfulBit(t, q, c) {
          assert RightfulBit(s, q, c);
        }
      }
    }
  }

  lemma FinishKeepsOwn(s: State, r: Reader)
    requires OwnInv(s) && Enabled(s, Finish(r))
    ensures OwnInv(Next(s, Finish(r)))
  {
    var t := Next(s, Finish(r));
    var got := StorageOf(s.readers[r].pc.buf);
    assert HolderOk(s, r);
    if got.Some? {
      assert Holds(s.readers[r], got.value) && ChunkOk(s, got.value);
    }
    forall c: nat ensures Holds(t.readers[r], c) <==> Holds(s.readers[r], c) {
    }
    forall q | q in t.readers ensures HolderOk(t, q) {
      assert HolderOk(s, q);
    }
    forall c | 0 <= c < CHUNKS ensures ChunkOk(t, c) {
      UntouchedKeeps(s, t, c);
    }
  }

  /** Destroying a buffer takes exactly the receiver's own bit off the chunk. */
  lemma RecycledExactly(s: State, r: Reader, c: nat)
    requires OwnInv(s) && Enabled(s, Recycle(r, c))
    ensures var t := Next(s, Recycle(r, c));
            && s.phase[c].Live? && r in s.conns[c]
            && t.conns == s.conns[c := s.conns[c] - {r}]
            && (forall d: nat :: Holds(t.readers[r], d) <==> Holds(s.readers[r], d) && d != c)
  {
    assert HolderOk(s, r) && Holds(s.readers[r], c) && ChunkOk(s, c) && RightfulBit(s, r, c);
    assert s.conns[c] * (s.readers[r].held[c] - {r}) == s.conns[c] - {r};
  }

  /** With no bit left in the chunk, no slot and no receiver refers to it. */
  lemma LastOneOut(s: State, r: Reader, c: nat)
    requires RingInv(s) && OwnInv(s) && c < CHUNKS && s.phase[c].Live?
    requires r in s.readers && Holds(s.readers[r], c) && s.conns[c] <= {r}
    ensures forall q <- s.readers :: q != r ==> !Holds(s.readers[q], c)
    ensures forall i: nat, q: Reader :: i < SLOTS ==> !Bit(s.g, i, q, c)
  {
    assert ChunkOk(s, c) && RightfulBit(s, r, c);
    forall q | q in s.readers && q != r ensures !Holds(s.readers[q], c) {
      assert RightfulBit(s, q, c);
    }
    forall i: nat, q: Reader | i < SLOTS ensures !Bit(s.g, i, q, c) {
      assert SlotOk(s.g, s.hist, i);
      assert q in s.readers ==> RightfulBit(s, q, c);
    }
  }

  lemma RecycleKeepsChunk(s: State, r: Reader, c: nat)
    requires RingInv(s) && OwnInv(s) && Enabled(s, Recycle(r, c))
    ensures ChunkOk(Next(s, Recycle(r, c)), c)
  {
    var t := Next(s, Recycle(r, c));
    RecycledExactly(s, r, c);
    assert ChunkOk(s, c);
    if t.phase[c].Live? {
      forall q | q in t.readers ensures RightfulBit(t, q, c) {
        assert RightfulBit(s, q, c);
      }
    }
  }

  lemma RecycleKeepsHolders(s: State, r: Reader, c: nat)
    requires RingInv(s) && OwnInv(s) && Enabled(s, Recycle(r, c))
    ensures forall q <- s.readers :: HolderOk(Next(s, Recycle(r, c)), q)
  {
    forall q | q in s.readers ensures HolderOk(Next(s, Recycle(r, c)), q) { RecycleKeepsHolder(s, r, c, q); }
  }

  lemma RecycleKeepsHolder(s: State, r: Reader, c: nat, q: Reader)
    requires RingInv(s) && OwnInv(s) && Enabled(s, Recycle(r, c)) && q in s.readers
    ensures HolderOk(Next(s, Recycle(r, c)), q)
  {
    hide LiveOk, LoanOk, BitsOk, PoolOk, RingInv;
    var t := Next(s, Recycle(r, c));
    RecycledExactly(s, r, c);
    if t.conns[c] == {} {
      assert HolderOk(s, r) && Holds(s.readers[r], c);
      LastOneOut(s, r, c);
    }
    assert HolderOk(s, q);
  }

  lemma RecycleKeepsOwn(s: State, r: Reader, c: nat)
    requires RingInv(s) && OwnInv(s) && Enabled(s, Recycle(r, c))
    ensures OwnInv(Next(s, Recycle(r, c)))
  {
    var t := Next(s, Recycle(r, c));
    RecycledExactly(s, r, c);
    RecycleKeepsChunk(s, r, c);
    RecycleKeepsHolders(s, r, c);
    if t.conns[c] == {} {
      assert HolderOk(s, r) && Holds(s.readers[r], c);
      LastOneOut(s, r, c);
    }
    forall d | 0 <= d < CHUNKS && d != c ensures ChunkOk(t, d) {
      UntouchedKeeps(s, t, d);
    }
  }

  lemma ReleaseKeepsOwn(s: State, r: Reader, c: nat)
    requires OwnInv(s) && Enabled(s, Release(r, c))
    ensures OwnInv(Next(s, Release(r, c)))
  {
    var t := Next(s, Release(r, c));
    assert HolderOk(s, r);
    forall q | q in t.readers ensures HolderOk(t, q) {
      assert HolderOk(s, q);
      assert forall d: nat :: Holds(t.readers[q], d) <==> Holds(s.readers[q], d);
    }
    forall d | 0 <= d < CHUNKS ensures ChunkOk(t, d) {
      if d != c {
        UntouchedKeeps(s, t, d);
      }
    }
  }

  lemma LoanKeepsOwn(s: State, seen: set<Reader>)
    requires OwnInv(s) && Enabled(s, Loan(seen))
    ensures OwnInv(Next(s, Loan(seen)))
  {
    var t := Next(s, Loan(seen));
    var c := s.free[0];
    assert s.free == [c] + t.free;
    assert forall d <- t.free :: d in s.free;
    forall q | q in t.readers ensures HolderOk(t, q) {
      assert HolderOk(s, q);
      assert c in s.readers[q].held ==> Holds(s.readers[q], c);
    }
    forall d | 0 <= d < CHUNKS ensures ChunkOk(t, d) {
      if d != c {
        UntouchedKeeps(s, t, d);
      }
    }
  }

  lemma DiscardLoanKeepsOwn(s: State, c: nat)
    requires OwnInv(s) && Enabled(s, DiscardLoan(c))
    ensures OwnInv(Next(s, DiscardLoan(c)))
  {
    var t := Next(s, DiscardLoan(c));
    forall q | q in t.readers ensures HolderOk(t, q) {
      assert HolderOk(s, q);
    }
    forall d | 0 <= d < CHUNKS ensures ChunkOk(t, d) {
      if d != c {
        UntouchedKeeps(s, t, d);
      }
    }
  }

  lemma ConnectKeepsOwn(s: State, r: Reader)
    requires RingInv(s) && OwnInv(s) && Enabled(s, Connect(r))
    ensures OwnInv(Next(s, Connect(r)))
  {
    var t := Next(s, Connect(r));
    assert forall i: nat, q: Reader, c: nat :: i < SLOTS ==> (Bit(t.g, i, q, c) <==> Bit(s.g, i, q, c));
    forall q | q in t.readers ensures HolderOk(t, q) {
      if q != r {
        assert HolderOk(s, q);
      } else {
        forall c | 0 <= c < CHUNKS ensures s.phase[c] != Releasing(r) {
          assert ChunkOk(s, c);
        }
      }
    }
    forall c | 0 <= c < CHUNKS ensures ChunkOk(t, c) {
      assert ChunkOk(s, c);
      if t.phase[c].Live? {
        var i := s.phase[c].home;
        assert SlotOk(s.g, s.hist, i);
        forall q | q in t.readers ensures RightfulBit(t, q, c) {
          if q != r {
            assert RightfulBit(s, q, c);
          }
        }
      }
    }
  }

  // ---------------------------------------------------------------- sending

  /** First half of an overwrite: the lost readers are taken off the slot and off the chunk. */
  function Vacated(s: State): State
    requires Shape(s)
  {
    var w := IndexOf(s.g.wt);
    Discarded(s, Target(s.g)).(g := s.g.(slots := s.g.slots[w := Target(s.g).(rem := {})]))
  }

  lemma VacatedBits(s: State)
    requires Shape(s)
    ensures forall i: nat, r: Reader, c: nat :: i < SLOTS ==>
              (Bit(Vacated(s).g, i, r, c) <==> Bit(s.g, i, r, c) && i != IndexOf(s.g.wt))
  {
  }

  /** The chunk of the overwritten message, when there are readers that will never come for it. */
  predicate Lost(s: State, c: nat)
    requires Shape(s)
  {
    SlotStores(s.g, IndexOf(s.g.wt), c) && Target(s.g).rem != {}
  }

  lemma LostChunk(s: State, c: nat)
    requires RingInv(s) && OwnInv(s) && Lost(s, c)
    ensures c < CHUNKS && s.phase[c] == Live(IndexOf(s.g.wt)) && ChunkOk(Vacated(s), c)
    ensures forall r <- s.readers :: r in Vacated(s).conns[c] <==> Holds(s.readers[r], c)
    ensures Vacated(s).conns[c] == {} ==> Vacated(s).phase[c] == Free && Vacated(s).free == [c] + s.free
    ensures Vacated(s).conns[c] != {} ==> Vacated(s).phase[c] == s.phase[c] && Vacated(s).free == s.free
  {
    var w := IndexOf(s.g.wt);
    var r0 :| r0 in Target(s.g).rem;
    assert Bit(s.g, w, r0, c);
    assert ChunkOk(s, c);
    VacatedBits(s);
    forall r | r in s.readers ensures r in Vacated(s).conns[c] <==> Holds(s.readers[r], c) {
      assert RightfulBit(s, r, c);
    }
  }

  lemma VacatedKeepsOwn(s: State)
    requires RingInv(s) && OwnInv(s)
    ensures OwnInv(Vacated(s))
  {
    var t := Vacated(s);
    VacatedBits(s);
    var lost := exists c: nat :: Lost(s, c);
    if lost {
      var c: nat :| Lost(s, c);
      LostChunk(s, c);
      forall r | r in t.readers ensures HolderOk(t, r) {
        assert HolderOk(s, r);
      }
    } else {
      var m := Target(s.g).msg;
      assert m.Some? && m.value.body.Stored? ==> !Lost(s, m.value.body.chunk);
      forall r | r in t.readers ensures HolderOk(t, r) {
        assert HolderOk(s, r);
      }
    }
    forall d | 0 <= d < CHUNKS ensures ChunkOk(t, d) {
      if Lost(s, d) {
        LostChunk(s, d);
      } else {
        UntouchedKeeps(s, t, d);
      }
    }
  }

  /** Second half: the vacated slot takes the new message. */
  lemma SendIsVacateThenWrite(s: State, body: Body, force: bool)
    requires Shape(s)
    ensures Send(s, body, force) ==
            Vacated(s).(g := Written(Vacated(s).g, body, force), hist := s.hist + [body])
  {
    var w := IndexOf(s.g.wt);
    var x := Slot(if force then s.g.epoch + 1 else s.g.epoch, s.g.cc, Some(Msg(s.g.wt, body)));
    assert s.g.slots[w := Target(s.g).(rem := {})][w := x] == s.g.slots[w := x];
  }

  lemma SendInlineKeepsOwn(s: State, tag: int, force: bool)
    requires RingInv(s) && OwnInv(s)
    ensures OwnInv(Send(s, Inline(tag), force))
  {
    var u := Vacated(s);
    var t := Send(s, Inline(tag), force);
    VacatedKeepsOwn(s);
    SendIsVacateThenWrite(s, Inline(tag), force);
    assert forall i: nat, r: Reader, c: nat :: i < SLOTS ==> (Bit(t.g, i, r, c) <==> Bit(u.g, i, r, c));
    forall r | r in t.readers ensures HolderOk(t, r) {
      assert HolderOk(u, r);
    }
    forall c | 0 <= c < CHUNKS ensures ChunkOk(t, c) {
      UntouchedKeeps(u, t, c);
    }
  }

  /** A publication sets the bit of every connected reader on the chunk's new slot. */
  lemma PublishBits(s: State, c: nat, force: bool)
    requires RingInv(s) && OwnInv(s) && Enabled(s, Publish(c, force))
    ensures var t := Next(s, Publish(c, force)); var u := Vacated(s);
            && OwnInv(u) && u.conns[c] == s.conns[c] && u.phase[c] == Loaned
            && t == u.(g := t.g, hist := t.hist, loans := u.loans - {c},
                       phase := u.phase[c := Live(IndexOf(s.g.wt))])
            && t.g.cc == u.g.cc
            && (forall i: nat, r: Reader, d: nat :: i < SLOTS ==>
                  (Bit(t.g, i, r, d) <==>
                     Bit(u.g, i, r, d) || (i == IndexOf(s.g.wt) && d == c && r in s.g.cc)))
  {
    VacatedKeepsOwn(s);
    SendIsVacateThenWrite(s, Stored(c), force);
    if Lost(s, c) {
      LostChunk(s, c);
    }
  }

  lemma PublishKeepsHolders(s: State, c: nat, force: bool)
    requires RingInv(s) && OwnInv(s) && Enabled(s, Publish(c, force))
    ensures var t := Next(s, Publish(c, force));
            forall r <- t.readers :: HolderOk(t, r) && !Holds(t.readers[r], c)
  {
    var t := Next(s, Publish(c, force));
    PublishBits(s, c, force);
    forall r | r in t.readers ensures HolderOk(t, r) && !Holds(t.readers[r], c) {
      assert HolderOk(Vacated(s), r);
    }
  }

  /** A publication whose chunk was acquired for exactly the readers now connected. */
  lemma PublishKeepsOwn(s: State, c: nat, force: bool)
    requires RingInv(s) && OwnInv(s) && Enabled(s, Publish(c, force))
    requires s.conns[c] == s.g.cc
    ensures OwnInv(Next(s, Publish(c, force)))
  {
    var t := Next(s, Publish(c, force));
    PublishBits(s, c, force);
    PublishKeepsHolders(s, c, force);
    assert ChunkOk(t, c);
    forall d | 0 <= d < CHUNKS && d != c ensures ChunkOk(t, d) {
      UntouchedKeeps(Vacated(s), t, d);
    }
  }

  /** The whole step relation, with the one condition it needs. */
  predicate Settled(s: State, a: Action)
    requires Shape(s)
  {
    a.Publish? && a.c < CHUNKS ==> s.conns[a.c] == s.g.cc
  }

  lemma StepKeepsOwn(s: State, a: Action)
    requires RingInv(s) && OwnInv(s) && Enabled(s, a) && Settled(s, a)
    ensures OwnInv(Next(s, a))
  {
    if a.Connect? {
      ConnectKeepsOwn(s, a.r);
    } else if a.Publish? {
      PublishKeepsOwn(s, a.c, a.force);
    } else if a.SendInline? {
      SendInlineKeepsOwn(s, a.tag, a.force);
    } else if a.Loan? {
      LoanKeepsOwn(s, a.seen);
    } else if a.DiscardLoan? {
      DiscardLoanKeepsOwn(s, a.c);
    } else if a.Finish? {
      FinishKeepsOwn(s, a.r);
    } else if a.Recycle? {
      RecycleKeepsOwn(s, a.r, a.c);
    } else if a.Release? {
      ReleaseKeepsOwn(s, a.r, a.c);
    } else {
      PopKeepsOwn(s, a);
    }
  }

  lemma PopKeepsOwn(s: State, a: Action)
    requires RingInv(s) && OwnInv(s) && Enabled(s, a)
    requires PopStep(a) || a.LoadCursor? || a.StartPop? || a.DoResync? || a.Check?
    ensures OwnInv(Next(s, a))
  {
    if Clears(s, a) {
      ClearKeepsOwn(s, a);
    } else {
      assert ReaderOk(s.g, s.hist, a.r, s.readers[a.r]);
      QuietKeeps(s, Next(s, a), a.r);
    }
  }

  // ---------------------------------------------------------------- main results

  /** No receiver joined between the acquisition of a chunk and its publication, all along a run. */
  ghost predicate SettledRun(s: State, acts: seq<Action>)
    requires Shape(s)
  {
    forall k :: 0 <= k < |acts| && Exec(s, acts[..k]).Some? ==> Settled(Exec(s, acts[..k]).value, acts[k])
  }

  lemma InitOwned(s: State)
    requires Init(s)
    ensures OwnInv(s)
  {
    forall r | r in s.readers ensures HolderOk(s, r) {
    }
    forall i: nat, r: Reader, c: nat | i < SLOTS ensures !Bit(s.g, i, r, c) {
      assert s.g.slots[i] == Slot(0, {}, None);
    }
  }

  lemma {:induction false} RunKeepsOwn(s: State, acts: seq<Action>, t: State)
    requires Init(s) && Exec(s, acts) == Some(t) && SettledRun(s, acts)
    ensures RingInv(t) && OwnInv(t)
  {
    RunKeeps(s, acts, t);
    if acts == [] {
      InitOwned(s);
    } else {
      var n := |acts| - 1;
      var u := Exec(s, acts[..n]).value;
      forall k | 0 <= k < n && Exec(s, acts[..n][..k]).Some?
        ensures Settled(Exec(s, acts[..n][..k]).value, acts[..n][k])
      {
        assert acts[..n][..k] == acts[..k];
      }
      RunKeepsOwn(s, acts[..n], u);
      StepKeepsOwn(u, acts[n]);
    }
  }

  /** In every interleaving of the sender with any number of receivers, every chunk has exactly one
      owner, provided no receiver joins between a chunk's acquisition and its publication. */
  lemma EveryChunkHasOneOwner(s: State, acts: seq<Action>, t: State)
    requires Init(s) && Exec(s, acts) == Some(t) && SettledRun(s, acts)
    ensures Owned(t)
  {
    RunKeepsOwn(s, acts, t);
    OwnInvImpliesOwned(t);
  }

  /** So a chunk handed to the sender is one that no receiver holds or can still come for, and
      giving an id back never duplicates it in the pool. */
  lemma AcquireAndReleaseAreSafe(s: State, acts: seq<Action>, t: State, a: Action)
    requires Init(s) && Exec(s, acts) == Some(t) && SettledRun(s, acts)
    requires Enabled(t, a) && Settled(t, a)
    ensures a.Loan? ==> Unshared(t, t.free[0]) && Releasers(t, t.free[0]) == {}
    ensures a.Release? ==> a.c !in t.free && Unshared(t, a.c) && Releasers(t, a.c) == {a.r}
    ensures forall c :: 0 <= c < CHUNKS ==> multiset(Next(t, a).free)[c] <= 1
  {
    RunKeepsOwn(s, acts, t);
    StepKeepsOwn(t, a);
    OwnInvImpliesOwned(Next(t, a));
    if a.Loan? {
      OwnerOf(t, t.free[0]);
    }
    if a.Release? {
      assert HolderOk(t, a.r);
      OwnerOf(t, a.c);
    }
    forall c | 0 <= c < CHUNKS ensures multiset(Next(t, a).free)[c] <= 1 {
      DistinctCounts(Next(t, a).free, c);
    }
  }

  /** Ownership in every state a run goes through. */
  ghost predicate OwnedRun(s: State, acts: seq<Action>)
    requires Shape(s)
  {
    forall k :: 0 <= k <= |acts| && Exec(s, acts[..k]).Some? ==> Owned(Exec(s, acts[..k]).value)
  }

  lemma OwnedPrefix(s: State, acts: seq<Action>, n: nat)
    requires Shape(s) && n <= |acts|
    ensures OwnedRun(s, acts) ==> OwnedRun(s, acts[..n])
    ensures SettledRun(s, acts) ==> SettledRun(s, acts[..n])
  {
    hide Owned, Settled, Exec;
    forall k | 0 <= k <= n ensures acts[..n][..k] == acts[..k] {
    }
  }

  lemma {:induction false} SettledIfOwned(s: State, acts: seq<Action>, t: State)
    requires Init(s) && Exec(s, acts) == Some(t) && OwnedRun(s, acts)
    ensures SettledRun(s, acts)
  {
    hide Owned, OwnInv, RingInv, Settled, Enabled, Next;
    if acts != [] {
      var n := |acts| - 1;
      var u := Exec(s, acts[..n]).value;
      OwnedPrefix(s, acts, n);
      SettledIfOwned(s, acts[..n], u);
      RunKeepsOwn(s, acts[..n], u);
      assert acts[..|acts|] == acts;
      LastIsSettled(u, acts[n]);
      forall k | 0 <= k < |acts| && Exec(s, acts[..k]).Some? ensures Settled(Exec(s, acts[..k]).value, acts[k]) {
        if k < n { assert acts[..n][..k] == acts[..k] && acts[..n][k] == acts[k]; }
      }
    }
  }

  lemma LastIsSettled(u: State, a: Action)
    requires RingInv(u) && OwnInv(u) && Enabled(u, a) && Owned(Next(u, a))
    ensures Settled(u, a)
  {
    hide Owned, OwnInv, RingInv, Next;
    if a.Publish? { PublishKeepsOwnershipIff(u, a.c, a.force); }
  }

  /** Every chunk has exactly one owner all along a run if and only if no receiver joined between a chunk's
      acquisition and its publication. */
  lemma OwnedAllAlongIff(s: State, acts: seq<Action>)
    requires Init(s) && Exec(s, acts).Some?
    ensures OwnedRun(s, acts) <==> SettledRun(s, acts)
  {
    hide Owned, OwnInv, RingInv, Settled, Enabled, Next;
    if OwnedRun(s, acts) { SettledIfOwned(s, acts, Exec(s, acts).value); }
    if SettledRun(s, acts) {
      forall k | 0 <= k <= |acts| && Exec(s, acts[..k]).Some? ensures Owned(Exec(s, acts[..k]).value) {
        OwnedPrefix(s, acts, k);
        EveryChunkHasOneOwner(s, acts[..k], Exec(s, acts[..k]).value);
      }
    }
  }

  /** Exactly when a publication keeps ownership intact: the bitmap stored at acquisition must equal
      the receivers connected when the slot is claimed. */
  lemma PublishKeepsOwnershipIff(s: State, c: nat, force: bool)
    requires RingInv(s) && OwnInv(s) && Enabled(s, Publish(c, force))
    ensures Owned(Next(s, Publish(c, force))) <==> s.conns[c] == s.g.cc
  {
    var t := Next(s, Publish(c, force));
    if s.conns[c] == s.g.cc {
      PublishKeepsOwn(s, c, force);
      OwnInvImpliesOwned(t);
    } else {
      PublishBits(s, c, force);
      PublishKeepsHolders(s, c, force);
      assert SlotReaders(t, c) == s.g.cc by {
        forall r | r in s.g.cc ensures Bit(t.g, IndexOf(s.g.wt), r, c) {
        }
      }
      assert Holders(t, c) == {};
      assert c !in t.free && c !in t.loans;
      assert Releasers(t, c) == {} by {
        forall r | r in t.readers ensures c !in t.readers[r].releasing {
          assert HolderOk(t, r);
        }
      }
      assert !(InPool(t, c) || OnLoan(t, c) || InUse(t, c) || OnItsWayBack(t, c));
    }
  }
}
