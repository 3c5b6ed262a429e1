/** What `pop` delivers when writers may overwrite a slot between any two of its accesses. */
module DeliverySafety {
  import opened Basics
  import opened BroadcastRing
  import opened Ownership

  // ---------------------------------------------------------------- runs

  /** The state after a sequence of steps, or None when some step was not enabled. */
  function Exec(s: State, acts: seq<Action>): (t: Option<State>)
    requires Shape(s)
    ensures t.Some? ==> Shape(t.value)
  {
    if acts == [] then Some(s)
    else
      match Exec(s, acts[..|acts| - 1])
      case None => None
      case Some(t) => var a := acts[|acts| - 1]; if Enabled(t, a) then Some(Next(t, a)) else None
  }

  /** A new channel: zeroed slots, some receivers already connected and idle, every chunk free. */
  ghost predicate Init(s: State) {
    && Shape(s)
    && s.g.cc != {}
    && (forall r <- s.g.cc :: r < MAX_READERS)
    && s.g.wt == 0 && s.g.epoch == 0 && s.hist == [] && s.loans == {}
    && (forall i :: 0 <= i < SLOTS ==> s.g.slots[i] == Slot(0, {}, None))
    && |s.free| == CHUNKS && Distinct(s.free) && (forall c :: 0 <= c < CHUNKS ==> c in s.free)
    && (forall c <- s.free :: c < CHUNKS)
    && (forall c :: 0 <= c < CHUNKS ==> s.phase[c] == Free)
    && (forall r <- s.readers :: s.readers[r] == RState(0, Idle, [], map[], {}))
  }

  // ---------------------------------------------------------------- invariant

  /** While the slot still has the epoch seen before the copy, the reader's bit is set and the
      copied words are the slot's. */
  predicate Copied(g: Ring, r: Reader, i: nat, ep0: nat, buf: seq<Option<Msg>>) {
    && i < |g.slots|
    && |buf| <= WORDS
    && ep0 <= g.slots[i].ep
    && (g.slots[i].ep == ep0 ==>
          && r in g.slots[i].rem
          && forall k :: 0 <= k < |buf| ==> buf[k] == g.slots[i].msg)
  }

  predicate PcOk(g: Ring, r: Reader, pc: Pc) {
    match pc
    case Load(i) => i < SLOTS
    case Copy(i, ep0, buf) => Copied(g, r, i, ep0, buf) && |buf| < WORDS
    case Recheck(i, ep0, buf) => Copied(g, r, i, ep0, buf) && |buf| == WORDS
    case Clear(i, ep0, buf) => Copied(g, r, i, ep0, buf) && |buf| == WORDS
    case Cas(i, ep0, buf, _) => Copied(g, r, i, ep0, buf) && |buf| == WORDS
    case _ => true
  }

  /** A delivery is the untorn value of the message pushed at `pos`. */
  predicate Untorn(hist: seq<Body>, d: Delivery) {
    && d.pos < |hist|
    && |d.buf| == WORDS
    && forall k :: 0 <= k < WORDS ==> d.buf[k] == Some(Msg(d.pos, hist[d.pos]))
  }

  /** The reader's bit on the message is gone from the ring. */
  predicate Consumed(g: Ring, r: Reader, pos: nat)
    requires |g.slots| == SLOTS
  {
    var sl := g.slots[IndexOf(pos)];
    sl.msg.Some? && sl.msg.value.pos == pos ==> r !in sl.rem
  }

  ghost predicate LogOk(g: Ring, hist: seq<Body>, r: Reader, log: seq<Delivery>)
    requires |g.slots| == SLOTS
  {
    && (forall k :: 0 <= k < |log| ==> Untorn(hist, log[k]) && Consumed(g, r, log[k].pos))
    && (forall j, k :: 0 <= j < k < |log| ==> log[j].pos != log[k].pos)
  }

  /** A value handed to `recv` is the reader's latest delivery. */
  ghost predicate ReaderOk(g: Ring, hist: seq<Body>, r: Reader, rs: RState)
    requires |g.slots| == SLOTS
  {
    && PcOk(g, r, rs.pc)
    && LogOk(g, hist, r, rs.log)
    && (rs.pc.Got? ==> |rs.log| > 0 && rs.pc.buf == rs.log[|rs.log| - 1].buf)
  }

  ghost predicate RingInv(s: State) {
    && Shape(s)
    && s.g.cc != {}
    && SlotsOk(s.g, s.hist)
    && forall r <- s.readers :: ReaderOk(s.g, s.hist, r, s.readers[r])
  }

  // ---------------------------------------------------------------- preservation

  /** An overwrite under a reader's feet always changes the epoch of the slot. */
  lemma WriteKeepsReader(g: Ring, hist: seq<Body>, body: Body, force: bool, r: Reader, rs: RState)
    requires SlotsOk(g, hist) && r in g.cc && (force || !Refuses(g))
    requires ReaderOk(g, hist, r, rs)
    ensures ReaderOk(Written(g, body, force), hist + [body], r, rs)
  {
    var h := Written(g, body, force);
    var w := IndexOf(g.wt);
    assert SlotOk(g, hist, w);
    assert r in g.slots[w].rem ==> h.slots[w].ep > g.slots[w].ep by {
      if r in g.slots[w].rem && !force {
        assert r in g.cc * Target(g).rem;
      }
    }
    assert PcOk(h, r, rs.pc);
    forall k | 0 <= k < |rs.log|
      ensures Untorn(hist + [body], rs.log[k]) && Consumed(h, r, rs.log[k].pos)
    {
      assert Untorn(hist, rs.log[k]) && Consumed(g, r, rs.log[k].pos);
    }
  }

  lemma ClearKeepsOthers(g: Ring, hist: seq<Body>, i: nat, q: Reader, r: Reader, rs: RState)
    requires SlotsOk(g, hist) && i < SLOTS && q != r
    requires ReaderOk(g, hist, r, rs)
    ensures ReaderOk(ClearBit(g, i, q), hist, r, rs)
  {
    var h := ClearBit(g, i, q);
    assert PcOk(h, r, rs.pc);
    forall k | 0 <= k < |rs.log| ensures Untorn(hist, rs.log[k]) && Consumed(h, r, rs.log[k].pos) {
      assert Untorn(hist, rs.log[k]) && Consumed(g, r, rs.log[k].pos);
    }
  }

  lemma SendKeeps(s: State, body: Body, force: bool)
    requires RingInv(s) && (force || !Refuses(s.g))
    ensures RingInv(Send(s, body, force))
  {
    var t := Send(s, body, force);
    WrittenKeepsSlots(s.g, s.hist, body, force);
    forall r | r in t.readers ensures ReaderOk(t.g, t.hist, r, t.readers[r]) {
      WriteKeepsReader(s.g, s.hist, body, force, r, s.readers[r]);
    }
  }

  /** The successful clear: the slot still has the epoch of the copy, so the words are its own, and
      the bit being set shows the message was not delivered before. */
  lemma CasKeeps(s: State, r: Reader)
    requires RingInv(s) && Enabled(s, ClearCas(r, false))
    requires s.g.slots[s.readers[r].pc.i].ep == s.readers[r].pc.ep0
    ensures RingInv(Delivered(s.(g := ClearBit(s.g, s.readers[r].pc.i, r)), r, s.readers[r].pc.i, s.readers[r].pc.buf))
  {
    var rs := s.readers[r];
    var i := rs.pc.i;
    var h := ClearBit(s.g, i, r);
    var t := Delivered(s.(g := h), r, i, rs.pc.buf);
    assert SlotOk(s.g, s.hist, i);
    ClearBitKeepsSlots(s.g, s.hist, i, r);
    var pos := s.g.slots[i].msg.value.pos;
    var log := t.readers[r].log;
    forall k | 0 <= k < |log| ensures Untorn(s.hist, log[k]) && Consumed(h, r, log[k].pos) {
      if k < |rs.log| {
        assert Untorn(s.hist, rs.log[k]) && Consumed(s.g, r, rs.log[k].pos);
      }
    }
    forall j, k | 0 <= j < k < |log| ensures log[j].pos != log[k].pos {
      assert j < |rs.log| && Consumed(s.g, r, rs.log[j].pos);
    }
    forall q | q in t.readers ensures ReaderOk(t.g, t.hist, q, t.readers[q]) {
      if q != r {
        ClearKeepsOthers(s.g, s.hist, i, r, q, s.readers[q]);
      }
    }
  }

  /** The one receiver step that changes the ring: the compare-exchange that clears the bit. */
  predicate Clears(s: State, a: Action)
    requires Shape(s)
  {
    && Enabled(s, a) && a.ClearCas? && !a.spurious
    && s.g.slots[s.readers[a.r].pc.i].ep == s.readers[a.r].pc.ep0
    && s.g.slots[s.readers[a.r].pc.i].rem == s.readers[a.r].pc.seen
  }

  predicate PopStep(a: Action) {
    a.LoadRc? || a.CopyWord? || a.Reload? || a.ClearLoad? || a.ClearCas?
  }

  predicate OtherReaderStep(a: Action) {
    a.LoadCursor? || a.StartPop? || a.DoResync? || a.Check? || a.Finish? || a.Recycle? || a.Release?
  }

  /** A step of one receiver that leaves the ring alone only has to re-establish that receiver. */
  lemma LocalKeeps(s: State, t: State, r: Reader)
    requires RingInv(s) && Shape(t) && r in s.readers
    requires t.g == s.g && t.hist == s.hist
    requires r in t.readers && t.readers == s.readers[r := t.readers[r]]
    requires ReaderOk(s.g, s.hist, r, t.readers[r])
    ensures RingInv(t)
  {
  }

  lemma PopStepKeeps(s: State, a: Action)
    requires RingInv(s) && Enabled(s, a) && PopStep(a) && !Clears(s, a)
    ensures RingInv(Next(s, a))
    ensures Next(s, a).g == s.g && Next(s, a).readers[a.r].log == s.readers[a.r].log
  {
    hide LogOk, SlotsOk;
    var t := Next(s, a);
    var rs := s.readers[a.r];
    assert ReaderOk(s.g, s.hist, a.r, rs);
    assert PcOk(s.g, a.r, t.readers[a.r].pc);
    LocalKeeps(s, t, a.r);
  }

  lemma OtherReaderStepKeeps(s: State, a: Action)
    requires RingInv(s) && Enabled(s, a) && OtherReaderStep(a)
    ensures RingInv(Next(s, a))
    ensures Next(s, a).g == s.g && Next(s, a).readers[a.r].log == s.readers[a.r].log
  {
    hide LogOk, SlotsOk;
    var t := Next(s, a);
    assert ReaderOk(s.g, s.hist, a.r, s.readers[a.r]);
    assert PcOk(s.g, a.r, t.readers[a.r].pc);
    LocalKeeps(s, t, a.r);
  }

  lemma ConnectKeeps(s: State, r: Reader)
    requires RingInv(s) && Enabled(s, Connect(r))
    ensures RingInv(Next(s, Connect(r)))
  {
    var t := Next(s, Connect(r));
    forall i | 0 <= i < SLOTS ensures SlotOk(t.g, t.hist, i) {
      assert SlotOk(s.g, s.hist, i);
    }
    forall q | q in t.readers ensures ReaderOk(t.g, t.hist, q, t.readers[q]) {
      if q != r {
        var rs := s.readers[q];
        assert ReaderOk(s.g, s.hist, q, rs);
        forall k | 0 <= k < |rs.log| ensures Untorn(t.hist, rs.log[k]) && Consumed(t.g, q, rs.log[k].pos) {
          assert Untorn(s.hist, rs.log[k]) && Consumed(s.g, q, rs.log[k].pos);
        }
      }
    }
  }

  lemma StepKeeps(s: State, a: Action)
    requires RingInv(s) && Enabled(s, a)
    ensures RingInv(Next(s, a))
  {
    if a.Connect? {
      ConnectKeeps(s, a.r);
    } else if a.Publish? {
      SendKeeps(s, Stored(a.c), a.force);
    } else if a.SendInline? {
      SendKeeps(s, Inline(a.tag), a.force);
    } else if Clears(s, a) {
      CasKeeps(s, a.r);
    } else if PopStep(a) {
      PopStepKeeps(s, a);
    } else if OtherReaderStep(a) {
      OtherReaderStepKeeps(s, a);
    }
  }

  /** Neither the sender nor a newcomer touches the private state of a connected receiver. */
  lemma OthersLeaveReaderAlone(s: State, a: Action, r: Reader)
    requires Shape(s) && Enabled(s, a) && r in s.readers
    requires (PopStep(a) || OtherReaderStep(a)) ==> a.r != r
    ensures Next(s, a).readers[r] == s.readers[r]
  {
  }

  /** Only the clearing compare-exchange delivers: a receiver that copied the slot and still finds
      its epoch also finds its own bit, so the empty-bitmap exit of the loop is never taken. */
  lemma OnlyClearingDelivers(s: State, a: Action, r: Reader)
    requires RingInv(s) && Enabled(s, a) && r in s.readers
    ensures Next(s, a).readers[r].log != s.readers[r].log ==> Clears(s, a) && a.r == r
  {
    if (PopStep(a) || OtherReaderStep(a)) && a.r == r {
      if PopStep(a) {
        if !Clears(s, a) {
          PopStepKeeps(s, a);
        }
      } else {
        OtherReaderStepKeeps(s, a);
      }
    } else {
      OthersLeaveReaderAlone(s, a, r);
    }
  }

  lemma InitKeeps(s: State)
    requires Init(s)
    ensures RingInv(s)
  {
    forall i | 0 <= i < SLOTS ensures SlotOk(s.g, s.hist, i) {
      assert s.g.slots[i] == Slot(0, {}, None);
    }
  }

  lemma {:induction false} RunKeeps(s: State, acts: seq<Action>, t: State)
    requires Init(s) && Exec(s, acts) == Some(t)
    ensures RingInv(t)
  {
    if acts == [] {
      InitKeeps(s);
    } else {
      var u := Exec(s, acts[..|acts| - 1]).value;
      RunKeeps(s, acts[..|acts| - 1], u);
      StepKeeps(u, acts[|acts| - 1]);
    }
  }

  // ---------------------------------------------------------------- main results

  /** In every interleaving, whatever a receiver was given is word for word the message at the
      position whose bit it cleared, and no receiver is given one position twice. */
  lemma DeliveriesAreUntornAndUnique(s: State, acts: seq<Action>, t: State, r: Reader)
    requires Init(s) && Exec(s, acts) == Some(t) && r in t.readers
    ensures forall k :: 0 <= k < |t.readers[r].log| ==> Untorn(t.hist, t.readers[r].log[k])
    ensures forall j, k :: 0 <= j < k < |t.readers[r].log| ==> t.readers[r].log[j].pos != t.readers[r].log[k].pos
  {
    RunKeeps(s, acts, t);
    assert ReaderOk(t.g, t.hist, r, t.readers[r]);
  }

  /** The step that makes `pop` return true takes the reader's bit off exactly the message whose
      value it hands over, and touches nothing else in the ring. */
  lemma DeliveryClearsItsOwnBit(s: State, acts: seq<Action>, t: State, a: Action, r: Reader)
    requires Init(s) && Exec(s, acts) == Some(t) && Enabled(t, a) && r in t.readers
    requires |Next(t, a).readers[r].log| > |t.readers[r].log|
    ensures var u := Next(t, a);
            var d := u.readers[r].log[|u.readers[r].log| - 1];
            var i := IndexOf(d.pos);
            && u.readers[r].log == t.readers[r].log + [d]
            && Untorn(t.hist, d)
            && t.g.slots[i].msg == Some(Msg(d.pos, t.hist[d.pos]))
            && r in t.g.slots[i].rem
            && u.g == ClearBit(t.g, i, r)
            && u.readers == t.readers[r := u.readers[r]]
  {
    RunKeeps(s, acts, t);
    OnlyClearingDelivers(t, a, r);
    CasKeeps(t, r);
    var i := t.readers[r].pc.i;
    assert ReaderOk(t.g, t.hist, r, t.readers[r]);
    assert SlotOk(t.g, t.hist, i);
    var u := Next(t, a);
    assert ReaderOk(u.g, u.hist, r, u.readers[r]);
  }
}
