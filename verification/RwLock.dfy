/** The reader/writer spin lock: one 32-bit word, any number of threads, every atomic access a step. */
module RwLock {

  type Tid = nat

  /** The top bit of the word marks a writer, the bits below count the readers. */
  const W_FLAG: nat := 0x8000_0000

  predicate Flagged(word: nat) {
    word >= W_FLAG
  }

  function Low(word: nat): nat {
    if Flagged(word) then word - W_FLAG else word
  }

  /** Where a thread is: `Trying(seen)` is before the compare-and-swap with the value it read. */
  datatype Pc = Idle | Spinning | Draining | Writing | Loading | Trying(seen: nat) | Reading

  datatype State = State(word: nat, pcs: map<Tid, Pc>)

  datatype Action =
    | CallLock(t: Tid) | FetchOr(t: Tid) | SeeDrained(t: Tid) | Unlock(t: Tid)
    | CallShared(t: Tid) | Load(t: Tid) | TryCas(t: Tid, weak: bool) | UnlockShared(t: Tid)

  predicate At(s: State, t: Tid, pc: Pc) {
    t in s.pcs && s.pcs[t] == pc
  }

  predicate Enabled(s: State, a: Action) {
    match a
    case CallLock(t) => At(s, t, Idle)
    case FetchOr(t) => At(s, t, Spinning)
    case SeeDrained(t) => At(s, t, Draining) && Low(s.word) == 0
    case Unlock(t) => At(s, t, Writing)
    case CallShared(t) => At(s, t, Idle)
    case Load(t) => At(s, t, Loading)
    case TryCas(t, _) => t in s.pcs && s.pcs[t].Trying?
    case UnlockShared(t) => At(s, t, Reading)
  }

  function Moved(s: State, t: Tid, word: nat, pc: Pc): State {
    State(word, s.pcs[t := pc])
  }

  /** `fetch_sub(1)` on 32 bits. */
  function Minus1(word: nat): nat {
    if word == 0 then 0xFFFF_FFFF else word - 1
  }

  function Next(s: State, a: Action): State
    requires Enabled(s, a)
  {
    match a
    case CallLock(t) => Moved(s, t, s.word, Spinning)
    case FetchOr(t) =>
      if s.word == 0 then Moved(s, t, W_FLAG, Writing)
      else if !Flagged(s.word) then Moved(s, t, s.word + W_FLAG, Draining)
      else s
    case SeeDrained(t) => Moved(s, t, s.word, Writing)
    case Unlock(t) => Moved(s, t, 0, Idle)
    case CallShared(t) => Moved(s, t, s.word, Loading)
    case Load(t) => Moved(s, t, s.word, Trying(s.word))
    case TryCas(t, weak) =>
      var seen := s.pcs[t].seen;
      if Flagged(seen) then Moved(s, t, s.word, Loading)
      else if s.word == seen && !weak then Moved(s, t, seen + 1, Reading)
      else Moved(s, t, s.word, Trying(s.word))
    case UnlockShared(t) => Moved(s, t, Minus1(s.word), Idle)
  }

  ghost function Readers(s: State): set<Tid> {
    set t | t in s.pcs && s.pcs[t] == Reading
  }

  /** Threads that hold the lock for writing or wait for the readers to leave. */
  ghost function Writers(s: State): set<Tid> {
    set t | t in s.pcs && (s.pcs[t] == Writing || s.pcs[t] == Draining)
  }

  /** Every thread idle, the word zero; there are fewer threads than the reader count can hold. */
  ghost predicate Init(s: State) {
    s.word == 0 && |s.pcs| < W_FLAG && forall t <- s.pcs :: s.pcs[t] == Idle
  }

  ghost predicate Inv(s: State) {
    && |s.pcs| < W_FLAG
    && s.word == |Readers(s)| + (if Writers(s) == {} then 0 else W_FLAG)
    && (forall t, u :: t in Writers(s) && u in Writers(s) ==> t == u)
    && (forall t <- s.pcs :: s.pcs[t] == Writing ==> Readers(s) == {})
  }

  lemma SubsetSize(a: set<Tid>, b: set<Tid>)
    requires a <= b
    ensures |a| <= |b|
  {
    if a != {} {
      var x :| x in a;
      SubsetSize(a - {x}, b - {x});
    }
  }

  /** The flag and the count do not run into each other. */
  lemma WordReads(s: State)
    requires Inv(s)
    ensures Low(s.word) == |Readers(s)| && (Flagged(s.word) <==> Writers(s) != {})
    ensures |Readers(s)| < W_FLAG
  {
    SubsetSize(Readers(s), s.pcs.Keys);
  }

  lemma Sets(s: State, t: Tid, word: nat, pc: Pc)
    requires t in s.pcs
    ensures var s' := Moved(s, t, word, pc);
            && Readers(s') == (if pc == Reading then Readers(s) + {t} else Readers(s) - {t})
            && Writers(s') == (if pc == Writing || pc == Draining then Writers(s) + {t} else Writers(s) - {t})
            && s'.pcs.Keys == s.pcs.Keys
  {
    assert s.pcs[t := pc].Keys == s.pcs.Keys;
  }

  /** A thread that writes is one of the writers, and nobody reads. */
  lemma WriterAlone(s: State, t: Tid)
    requires Inv(s) && At(s, t, Writing)
    ensures Writers(s) == {t} && Readers(s) == {}
  {
    assert t in Writers(s);
  }

  /** A step of thread `t` that changes neither set of threads and not the word. */
  lemma Elsewhere(s: State, t: Tid, pc: Pc)
    requires Inv(s) && t in s.pcs && !s.pcs[t].Writing? && !s.pcs[t].Draining? && !s.pcs[t].Reading?
    requires !pc.Writing? && !pc.Draining? && !pc.Reading?
    ensures Inv(Moved(s, t, s.word, pc))
  {
    var s' := Moved(s, t, s.word, pc);
    Sets(s, t, s.word, pc);
    assert Readers(s') == Readers(s) && Writers(s') == Writers(s);
    assert |s'.pcs| == |s'.pcs.Keys|;
  }

  lemma ReaderEnters(s: State, t: Tid)
    requires Inv(s) && t in s.pcs && s.pcs[t].Trying? && !Flagged(s.word)
    ensures Inv(Moved(s, t, s.word + 1, Reading))
  {
    var s' := Moved(s, t, s.word + 1, Reading);
    WordReads(s);
    Sets(s, t, s.word + 1, Reading);
    assert Writers(s') == {} && |Readers(s')| == |Readers(s)| + 1;
    assert |s'.pcs| == |s'.pcs.Keys|;
    forall u | u in s'.pcs ensures s'.pcs[u] != Writing { assert u !in Writers(s'); }
  }

  lemma ReaderLeaves(s: State, t: Tid)
    requires Inv(s) && At(s, t, Reading)
    ensures Inv(Moved(s, t, Minus1(s.word), Idle))
  {
    var s' := Moved(s, t, Minus1(s.word), Idle);
    Sets(s, t, Minus1(s.word), Idle);
    assert t in Readers(s) && Readers(s') == Readers(s) - {t} && Writers(s') == Writers(s);
    assert |s'.pcs| == |s'.pcs.Keys|;
  }

  lemma WriterAnnounces(s: State, t: Tid)
    requires Inv(s) && At(s, t, Spinning) && !Flagged(s.word)
    ensures Inv(Moved(s, t, s.word + W_FLAG, if s.word == 0 then Writing else Draining))
  {
    var pc := if s.word == 0 then Writing else Draining;
    var s' := Moved(s, t, s.word + W_FLAG, pc);
    WordReads(s);
    Sets(s, t, s.word + W_FLAG, pc);
    assert Writers(s') == {t} && Readers(s') == Readers(s);
    assert |s'.pcs| == |s'.pcs.Keys|;
    hide Low, Flagged, Readers;
    forall u | u in s'.pcs && s'.pcs[u] == Writing ensures Readers(s') == {} { assert u in Writers(s'); }
  }

  lemma WriterMoves(s: State, t: Tid, a: Action)
    requires Inv(s) && Enabled(s, a) && (a == SeeDrained(t) || a == Unlock(t))
    ensures Inv(Next(s, a))
  {
    var s' := Next(s, a);
    WordReads(s);
    Sets(s, t, s'.word, s'.pcs[t]);
    assert t in Writers(s);
    assert Writers(s) == {t};
    if a.Unlock? { WriterAlone(s, t); }
    assert Readers(s') == {} && Writers(s') == if a.Unlock? then {} else {t};
    assert |s'.pcs| == |s'.pcs.Keys|;
    forall u | u in s'.pcs && s'.pcs[u] == Writing ensures a.SeeDrained? { assert u in Writers(s'); }
  }

  lemma StepKeepsInv(s: State, a: Action)
    requires Inv(s) && Enabled(s, a)
    ensures Inv(Next(s, a))
  {
    hide Inv;
    var t, s' := a.t, Next(s, a);
    if a.FetchOr? {
      if s' != s { WriterAnnounces(s, t); }
    } else if a.SeeDrained? || a.Unlock? {
      WriterMoves(s, t, a);
    } else if a.TryCas? && s'.pcs[t] == Reading {
      ReaderEnters(s, t);
    } else if a.UnlockShared? {
      ReaderLeaves(s, t);
    } else {
      Elsewhere(s, t, s'.pcs[t]);
    }
  }

  function After(s: State, acts: seq<Action>): (r: (State, bool))
  {
    if acts == [] then (s, true)
    else
      var (m, ok) := After(s, acts[..|acts| - 1]);
      if ok && Enabled(m, acts[|acts| - 1]) then (Next(m, acts[|acts| - 1]), true) else (m, false)
  }

  lemma {:induction false} RunKeepsInv(s: State, acts: seq<Action>)
    requires Init(s)
    ensures Inv(After(s, acts).0)
  {
    if acts == [] {
      assert Readers(s) == {} && Writers(s) == {};
    } else {
      RunKeepsInv(s, acts[..|acts| - 1]);
      var (m, ok) := After(s, acts[..|acts| - 1]);
      if ok && Enabled(m, acts[|acts| - 1]) { StepKeepsInv(m, acts[|acts| - 1]); }
    }
  }

  /** In every state of every run: the low bits are the number of readers, the flag is set exactly while
      one thread writes or drains, and a thread that writes is alone. */
  lemma MutualExclusion(s: State, acts: seq<Action>)
    requires Init(s)
    ensures var m := After(s, acts).0;
            && Low(m.word) == |Readers(m)| && (Flagged(m.word) <==> |Writers(m)| == 1) && |Writers(m)| <= 1
            && forall t, u :: At(m, t, Writing) && t != u ==> !At(m, u, Reading) && !At(m, u, Writing)
  {
    RunKeepsInv(s, acts);
    var m := After(s, acts).0;
    WordReads(m);
    if Writers(m) != {} {
      var w :| w in Writers(m);
      assert Writers(m) == {w};
    }
    forall t, u | At(m, t, Writing) && t != u
      ensures !At(m, u, Reading) && !At(m, u, Writing)
    {
      WriterAlone(m, t);
      assert u !in Readers(m) && u !in Writers(m);
    }
  }

  /** Once a writer has announced itself no reader gets in, so the readers it waits for only leave. */
  lemma DrainingOnlyShrinks(s: State, a: Action)
    requires Inv(s) && Enabled(s, a) && Writers(s) != {} && !a.Unlock?
    ensures Readers(Next(s, a)) <= Readers(s) && Writers(Next(s, a)) == Writers(s)
  {
    WordReads(s);
    if Next(s, a) != s { Sets(s, a.t, Next(s, a).word, Next(s, a).pcs[a.t]); }
  }

  /** And when they have left it can go on. */
  lemma DrainedWriterEnters(s: State, t: Tid)
    requires Inv(s) && At(s, t, Draining)
    ensures Enabled(s, SeeDrained(t)) <==> Readers(s) == {}
  {
    WordReads(s);
  }

  // ---------------------------------------------------------------- getting in

  lemma Announces(m: State, t: Tid)
    requires Inv(m) && At(m, t, Spinning)
    ensures var n := Next(m, FetchOr(t));
            && Readers(n) == Readers(m)
            && (Writers(m) == {} ==>
                  Writers(n) == {t} && Flagged(n.word)
                  && At(n, t, if Readers(m) == {} then Writing else Draining))
            && (Writers(m) != {} ==> n == m)
  {
    WordReads(m);
    if Writers(m) == {} { Sets(m, t, m.word + W_FLAG, if m.word == 0 then Writing else Draining); }
  }

  /** `lock`'s access while no other writer is inside always makes the caller the writer, whoever reads:
      it holds the lock at once if nobody does, and otherwise waits for the readers with the flag set, so that
      no other gets in after it. With a writer inside the access changes nothing. */
  lemma WriterGetsIn(s: State, acts: seq<Action>, t: Tid)
    requires Init(s) && At(After(s, acts).0, t, Spinning)
    ensures var m := After(s, acts).0; var n := Next(m, FetchOr(t));
            && Readers(n) == Readers(m)
            && (Writers(m) == {} ==>
                  Writers(n) == {t} && Flagged(n.word)
                  && At(n, t, if Readers(m) == {} then Writing else Draining))
            && (Writers(m) != {} ==> n == m)
  {
    RunKeepsInv(s, acts);
    Announces(After(s, acts).0, t);
  }

  /** A reader that has seen the present word gets in if and only if no writer is inside or waiting, unless
      its exchange fails spuriously; other readers are no obstacle. */
  lemma ReaderGetsIn(s: State, acts: seq<Action>, t: Tid)
    requires Init(s) && At(After(s, acts).0, t, Trying(After(s, acts).0.word))
    ensures var m := After(s, acts).0; var n := Next(m, TryCas(t, false));
            && (Writers(m) == {} ==> Readers(n) == Readers(m) + {t} && n.word == m.word + 1)
            && (Writers(m) != {} ==> n == Moved(m, t, m.word, Loading))
  {
    RunKeepsInv(s, acts);
    var m := After(s, acts).0;
    WordReads(m);
    if Writers(m) == {} { Sets(m, t, m.word + 1, Reading); }
  }

  /** A reader that lost the race has the present word in hand for the next try. */
  lemma FailedReaderRetries(s: State, t: Tid, weak: bool)
    requires t in s.pcs && s.pcs[t].Trying? && !Flagged(s.pcs[t].seen) && (weak || s.word != s.pcs[t].seen)
    ensures At(Next(s, TryCas(t, weak)), t, Trying(s.word)) && Next(s, TryCas(t, weak)).word == s.word
  {
  }

  /** The readers inside leave, one after the other, in some order. */
  ghost predicate Leaving(acts: seq<Action>, rs: set<Tid>) {
    forall a <- acts :: a.UnlockShared? && a.t in rs
  }

  /** Once the readers it waits for have left, which they can at any point, the waiting writer writes. */
  lemma {:induction false} DrainingEnds(m: State, t: Tid) returns (acts: seq<Action>)
    requires Inv(m) && At(m, t, Draining)
    ensures Leaving(acts, Readers(m)) && |acts| == |Readers(m)|
    ensures var (n, ok) := After(m, acts + [SeeDrained(t)]);
            ok && At(n, t, Writing) && Readers(n) == {} && Writers(n) == {t}
    decreases |Readers(m)|
  {
    hide Inv, After;
    WordReads(m);
    assert t in Writers(m) && Writers(m) == {t} by { OnlyWriter(m, t); }
    if Readers(m) == {} {
      acts := [];
      AfterStep(m, SeeDrained(t), []);
      AfterNil(Next(m, SeeDrained(t)));
      Sets(m, t, m.word, Writing);
      assert acts + [SeeDrained(t)] == [SeeDrained(t)] + [];
    } else {
      var r :| r in Readers(m);
      var n := Next(m, UnlockShared(r));
      StepKeepsInv(m, UnlockShared(r));
      Sets(m, r, n.word, Idle);
      var rest := DrainingEnds(n, t);
      AfterStep(m, UnlockShared(r), rest + [SeeDrained(t)]);
      acts := [UnlockShared(r)] + rest;
      assert acts + [SeeDrained(t)] == [UnlockShared(r)] + (rest + [SeeDrained(t)]);
    }
  }

  lemma OnlyWriter(m: State, t: Tid)
    requires Inv(m) && At(m, t, Draining)
    ensures Writers(m) == {t}
  {
    assert t in Writers(m);
  }

  lemma AfterNil(s: State)
    ensures After(s, []) == (s, true)
  {
  }

  lemma {:induction false} AfterStep(s: State, a: Action, rest: seq<Action>)
    requires Enabled(s, a)
    ensures After(s, [a] + rest) == After(Next(s, a), rest)
  {
    if rest == [] {
      assert [a] + rest == [a] && [a][..0] == [];
    } else {
      AfterStep(s, a, rest[..|rest| - 1]);
      assert ([a] + rest)[..|[a] + rest| - 1] == [a] + rest[..|rest| - 1];
    }
  }

  lemma TakenFrom(m: State, t: Tid) returns (leaves: seq<Action>)
    requires Inv(m) && At(m, t, Spinning) && Writers(m) == {}
    ensures var (n, ok) := After(m, [FetchOr(t)] + leaves);
            && ok && At(n, t, Writing) && Readers(n) == {} && Writers(n) == {t}
            && forall a <- leaves :: a == SeeDrained(t) || (a.UnlockShared? && a.t in Readers(m))
  {
    hide After, Inv, Flagged;
    Announces(m, t);
    StepKeepsInv(m, FetchOr(t));
    var n := Next(m, FetchOr(t));
    if Readers(m) == {} {
      leaves := [];
      AfterNil(n);
    } else {
      var rest := DrainingEnds(n, t);
      leaves := rest + [SeeDrained(t)];
    }
    AfterStep(m, FetchOr(t), leaves);
  }

  /** In any run: a thread that calls `lock` while no other writer is inside ends up writing by its own steps
      and the leaving of the readers that were in before it; and when it unlocks, the lock is as free as at
      first. */
  lemma LockIsTaken(s: State, acts: seq<Action>, t: Tid) returns (leaves: seq<Action>)
    requires Init(s) && At(After(s, acts).0, t, Idle) && Writers(After(s, acts).0) == {}
    ensures var m := After(s, acts).0;
            var (n, ok) := After(m, [CallLock(t)] + ([FetchOr(t)] + leaves));
            && ok && At(n, t, Writing) && Next(n, Unlock(t)).word == 0
            && Readers(Next(n, Unlock(t))) == {} && Writers(Next(n, Unlock(t))) == {}
            && forall a <- leaves :: a == SeeDrained(t) || (a.UnlockShared? && a.t in Readers(m))
  {
    hide After, Inv, Flagged;
    var m := After(s, acts).0;
    RunKeepsInv(s, acts);
    StepKeepsInv(m, CallLock(t));
    Sets(m, t, m.word, Spinning);
    leaves := TakenFrom(Next(m, CallLock(t)), t);
    AfterStep(m, CallLock(t), [FetchOr(t)] + leaves);
    Sets(After(m, [CallLock(t)] + ([FetchOr(t)] + leaves)).0, t, 0, Idle);
  }

  lemma SharedSteps(m: State, t: Tid)
    requires At(m, t, Idle) && !Flagged(m.word)
    ensures After(m, [CallShared(t)] + ([Load(t)] + ([TryCas(t, false)] + [])))
            == (Moved(m, t, m.word + 1, Reading), true)
  {
    hide After, Flagged;
    var c := Next(m, CallShared(t));
    var l := Next(c, Load(t));
    AfterStep(m, CallShared(t), [Load(t)] + ([TryCas(t, false)] + []));
    AfterStep(c, Load(t), [TryCas(t, false)] + []);
    AfterStep(l, TryCas(t, false), []);
    AfterNil(Next(l, TryCas(t, false)));
    assert m.pcs[t := Loading][t := Trying(m.word)][t := Reading] == m.pcs[t := Reading];
  }

  /** A thread that calls `lock_shared` while no writer is inside or waiting is in after three accesses of its
      own, and `unlock_shared` leaves everything as it was. */
  lemma SharedIsTaken(s: State, acts: seq<Action>, t: Tid)
    requires Init(s) && At(After(s, acts).0, t, Idle) && Writers(After(s, acts).0) == {}
    ensures var m := After(s, acts).0;
            var (n, ok) := After(m, [CallShared(t)] + ([Load(t)] + ([TryCas(t, false)] + [])));
            ok && At(n, t, Reading) && Readers(n) == Readers(m) + {t} && Next(n, UnlockShared(t)) == m
  {
    hide After, Inv, Flagged;
    var m := After(s, acts).0;
    RunKeepsInv(s, acts);
    WordReads(m);
    SharedSteps(m, t);
    Sets(m, t, m.word + 1, Reading);
    assert m.pcs[t := Reading][t := Idle] == m.pcs;
  }
}
