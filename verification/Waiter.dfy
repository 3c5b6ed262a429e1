/** The condition waiter: threads that wait until a predicate on shared state turns false, and threads
    that change that state and then call `broadcast`. The count of waiters lets a broadcaster skip the
    call into the condition variable; no wakeup is lost by that. */
module Waiter {
  import opened Basics

  type Tid = nat

  /** Where a thread is. A waiter remembers the version of the watched state it tested last, a
      broadcaster the version it produced. */
  datatype Pc =
    | Idle
    | WaitLock                 // `wait_if`, before the mutex
    | Testing                  // holds the mutex, before the predicate
    | Tested(seen: nat)        // holds the mutex, the predicate said wait
    | Counted(seen: nat)       // holds the mutex, counted as a waiter
    | Blocked(seen: nat)       // inside the condition variable
    | Woken                    // about to take the mutex again
    | Returned                 // holds the mutex, still counted
    | Changed(made: nat)       // has changed the watched state
    | Bumped(made: nat)        // has bumped the sequence number
    | InLock(made: nat)        // holds the mutex, before the look at the count
    | Calling(made: nat)       // will call the condition variable

  /** `version` counts the changes of what the predicate looks at, the quit flag included. */
  datatype State = State(version: nat, waiters: nat, lock: Option<Tid>, pcs: map<Tid, Pc>)

  datatype Action =
    | EnterWait(t: Tid) | TakeLock(t: Tid) | Test(t: Tid, wait: bool)
    | CountIn(t: Tid) | Block(t: Tid) | Wake(t: Tid) | Retake(t: Tid) | CountOut(t: Tid, again: bool)
    | Change(t: Tid) | Bump(t: Tid) | LookLock(t: Tid) | Look(t: Tid) | Broadcast(t: Tid)

  predicate Enabled(s: State, a: Action) {
    a.t in s.pcs &&
    match a
    case EnterWait(t) => s.pcs[t].Idle?
    case TakeLock(t) => s.pcs[t].WaitLock? && s.lock == None
    case Test(t, _) => s.pcs[t].Testing?
    case CountIn(t) => s.pcs[t].Tested?
    case Block(t) => s.pcs[t].Counted?
    case Wake(t) => s.pcs[t].Blocked?
    case Retake(t) => s.pcs[t].Woken? && s.lock == None
    case CountOut(t, _) => s.pcs[t].Returned?
    case Change(t) => s.pcs[t].Idle?
    case Bump(t) => s.pcs[t].Changed?
    case LookLock(t) => s.pcs[t].Bumped? && s.lock == None
    case Look(t) => s.pcs[t].InLock?
    case Broadcast(t) => s.pcs[t].Calling?
  }

  function Roused(pc: Pc): Pc {
    if pc.Blocked? then Woken else pc
  }

  /** `Wake` is a timeout or a spurious wakeup; `CountOut` without `again` is the timeout's return. */
  function Next(s: State, a: Action): State
    requires Enabled(s, a)
  {
    match a
    case EnterWait(t) => s.(pcs := s.pcs[t := WaitLock])
    case TakeLock(t) => s.(lock := Some(t), pcs := s.pcs[t := Testing])
    case Test(t, wait) =>
      if wait then s.(pcs := s.pcs[t := Tested(s.version)]) else s.(lock := None, pcs := s.pcs[t := Idle])
    case CountIn(t) => s.(waiters := s.waiters + 1, pcs := s.pcs[t := Counted(s.pcs[t].seen)])
    case Block(t) => s.(lock := None, pcs := s.pcs[t := Blocked(s.pcs[t].seen)])
    case Wake(t) => s.(pcs := s.pcs[t := Woken])
    case Retake(t) => s.(lock := Some(t), pcs := s.pcs[t := Returned])
    case CountOut(t, again) =>
      var n := if s.waiters == 0 then 0xFFFF_FFFF else s.waiters - 1;
      if again then s.(waiters := n, pcs := s.pcs[t := Testing])
      else s.(waiters := n, lock := None, pcs := s.pcs[t := Idle])
    case Change(t) => s.(version := s.version + 1, pcs := s.pcs[t := Changed(s.version + 1)])
    case Bump(t) => s.(pcs := s.pcs[t := Bumped(s.pcs[t].made)])
    case LookLock(t) => s.(lock := Some(t), pcs := s.pcs[t := InLock(s.pcs[t].made)])
    case Look(t) => s.(lock := None, pcs := s.pcs[t := if s.waiters == 0 then Idle else Calling(s.pcs[t].made)])
    case Broadcast(t) => s.(pcs := map u | u in s.pcs :: if u == t then Idle else Roused(s.pcs[u]))
  }

  // ---------------------------------------------------------------- the invariant

  predicate Holding(pc: Pc) {
    pc.Testing? || pc.Tested? || pc.Counted? || pc.Returned? || pc.InLock?
  }

  predicate CountedIn(pc: Pc) {
    pc.Counted? || pc.Blocked? || pc.Woken? || pc.Returned?
  }

  predicate Pending(pc: Pc) {
    pc.Changed? || pc.Bumped? || pc.InLock? || pc.Calling?
  }

  /** A waiter that has decided to wait and not been woken. */
  predicate Sleepy(pc: Pc) {
    pc.Tested? || pc.Counted? || pc.Blocked?
  }

  ghost function Waiting(s: State): set<Tid> {
    set t | t in s.pcs && CountedIn(s.pcs[t])
  }

  /** Somebody who made change `k` has not notified yet. */
  ghost predicate Owed(s: State, k: nat) {
    exists b :: b in s.pcs && Pending(s.pcs[b]) && s.pcs[b].made == k
  }

  ghost predicate LockOk(s: State) {
    forall t <- s.pcs :: Holding(s.pcs[t]) <==> s.lock == Some(t)
  }

  ghost predicate CountOk(s: State) {
    s.waiters == |Waiting(s)|
  }

  predicate VersionsOk(s: State) {
    forall t <- s.pcs ::
      && (Sleepy(s.pcs[t]) ==> s.pcs[t].seen <= s.version)
      && (Pending(s.pcs[t]) ==> s.pcs[t].made <= s.version)
  }

  /** All changes a sleeper has not seen are still owed a notification. */
  ghost predicate OwedOk(s: State) {
    forall t, k :: t in s.pcs && Sleepy(s.pcs[t]) && s.pcs[t].seen < k <= s.version ==> Owed(s, k)
  }

  /** Whoever is about to call found his change already seen by any waiter on the way into the wait. */
  predicate CallersOk(s: State) {
    forall w, b :: w in s.pcs && b in s.pcs && (s.pcs[w].Tested? || s.pcs[w].Counted?) && s.pcs[b].Calling? ==>
      s.pcs[b].made <= s.pcs[w].seen
  }

  ghost predicate Inv(s: State) {
    LockOk(s) && CountOk(s) && VersionsOk(s) && OwedOk(s) && CallersOk(s)
  }

  ghost predicate Init(s: State) {
    s.waiters == 0 && s.lock == None && forall t <- s.pcs :: s.pcs[t].Idle?
  }

  lemma StepKeepsLock(s: State, a: Action)
    requires LockOk(s) && Enabled(s, a)
    ensures LockOk(Next(s, a))
  {
  }

  lemma StepKeepsCount(s: State, a: Action)
    requires CountOk(s) && Enabled(s, a)
    ensures CountOk(Next(s, a))
  {
    var t, s' := a.t, Next(s, a);
    if a.Broadcast? {
      assert Waiting(s') == Waiting(s);
    } else {
      MoveCounts(s, s', t, s'.pcs[t]);
      assert t in Waiting(s) <==> CountedIn(s.pcs[t]);
    }
  }

  /** One thread moves. */
  lemma MoveCounts(s: State, s': State, t: Tid, pc: Pc)
    requires t in s.pcs && s'.pcs == s.pcs[t := pc]
    ensures |Waiting(s')| == |Waiting(s)| + (if CountedIn(pc) then 1 else 0) - (if CountedIn(s.pcs[t]) then 1 else 0)
  {
    var rest := Waiting(s) - {t};
    assert Waiting(s) == if CountedIn(s.pcs[t]) then rest + {t} else rest;
    assert Waiting(s') == if CountedIn(pc) then rest + {t} else rest;
  }

  lemma StepKeepsVersions(s: State, a: Action)
    requires VersionsOk(s) && Enabled(s, a)
    ensures VersionsOk(Next(s, a))
  {
  }

  lemma StepKeepsCallers(s: State, a: Action)
    requires LockOk(s) && VersionsOk(s) && CallersOk(s) && Enabled(s, a)
    ensures CallersOk(Next(s, a))
  {
  }

  /** With the mutex and a count of zero in hand, nobody sleeps. */
  lemma NobodySleeps(s: State, b: Tid, w: Tid)
    requires LockOk(s) && CountOk(s) && b in s.pcs && s.pcs[b].InLock? && s.waiters == 0 && w in s.pcs
    ensures !Sleepy(s.pcs[w])
  {
    assert Waiting(s) == {};
    assert w !in Waiting(s);
  }

  lemma OwedStays(s: State, a: Action, k: nat)
    requires Enabled(s, a) && Owed(s, k)
    requires !(Pending(s.pcs[a.t]) && s.pcs[a.t].made == k && Next(s, a).pcs[a.t].Idle?)
    ensures Owed(Next(s, a), k)
  {
    var b :| b in s.pcs && Pending(s.pcs[b]) && s.pcs[b].made == k;
    assert b in Next(s, a).pcs && Pending(Next(s, a).pcs[b]) && Next(s, a).pcs[b].made == k;
  }

  /** A sleeper after the step was one before it, or has just tested the present version. */
  lemma SleeperWas(s: State, a: Action, w: Tid)
    requires Enabled(s, a) && w in Next(s, a).pcs && Sleepy(Next(s, a).pcs[w])
    ensures w in s.pcs
    ensures a == Test(w, true) || (Sleepy(s.pcs[w]) && s.pcs[w].seen == Next(s, a).pcs[w].seen)
    ensures a == Test(w, true) ==> Next(s, a).pcs[w].seen == s.version == Next(s, a).version
  {
  }

  lemma StepKeepsOwed(s: State, a: Action)
    requires Inv(s) && Enabled(s, a)
    ensures OwedOk(Next(s, a))
  {
    hide Inv, Owed;
    var s' := Next(s, a);
    forall w, k | w in s'.pcs && Sleepy(s'.pcs[w]) && s'.pcs[w].seen < k <= s'.version ensures Owed(s', k) {
      SleeperWas(s, a, w);
      SleeperIsOwed(s, a, w, k);
    }
  }

  lemma SleeperIsOwed(s: State, a: Action, w: Tid, k: nat)
    requires Inv(s) && Enabled(s, a)
    requires w in s.pcs && w in Next(s, a).pcs && Sleepy(s.pcs[w]) && Sleepy(Next(s, a).pcs[w])
    requires s.pcs[w].seen < k <= Next(s, a).version
    ensures Owed(Next(s, a), k)
  {
    var s' := Next(s, a);
    if k > s.version {
      assert a.Change?;
      assert s'.pcs[a.t] == Changed(k);
    } else {
      assert Owed(s, k);
      if a.Look? && s.waiters == 0 {
        NobodySleeps(s, a.t, w);
      } else if a.Broadcast? {
        assert s.pcs[w].Tested? || s.pcs[w].Counted?;
        OwedStays(s, a, k);
      } else {
        OwedStays(s, a, k);
      }
    }
  }

  lemma StepKeepsInv(s: State, a: Action)
    requires Inv(s) && Enabled(s, a)
    ensures Inv(Next(s, a))
  {
    hide LockOk, CountOk, VersionsOk, OwedOk, CallersOk;
    StepKeepsLock(s, a);
    StepKeepsCount(s, a);
    StepKeepsVersions(s, a);
    StepKeepsCallers(s, a);
    StepKeepsOwed(s, a);
  }

  /** A run; actions that are not enabled do nothing. */
  function After(s: State, acts: seq<Action>): State {
    if acts == [] then s
    else
      var m := After(s, acts[..|acts| - 1]);
      if Enabled(m, acts[|acts| - 1]) then Next(m, acts[|acts| - 1]) else m
  }

  lemma {:induction false} RunKeepsInv(s: State, acts: seq<Action>)
    requires Init(s)
    ensures Inv(After(s, acts))
  {
    hide Next, Enabled;
    if acts == [] {
      assert Waiting(s) == {};
    } else {
      RunKeepsInv(s, acts[..|acts| - 1]);
      var m := After(s, acts[..|acts| - 1]);
      if Enabled(m, acts[|acts| - 1]) { StepKeepsInv(m, acts[|acts| - 1]); }
    }
  }

  // ---------------------------------------------------------------- no wakeup is lost

  /** At any point of any run: if a thread is blocked and the state has changed since it last tested its
      predicate, somebody who made such a change, the latest one, has yet to notify. */
  lemma NoLostWakeup(s: State, acts: seq<Action>, w: Tid)
    requires Init(s) && w in After(s, acts).pcs && After(s, acts).pcs[w].Blocked?
    ensures var m := After(s, acts);
            m.pcs[w].seen < m.version ==>
              exists b :: b in m.pcs && Pending(m.pcs[b]) && m.pcs[b].made == m.version
  {
    RunKeepsInv(s, acts);
    var m := After(s, acts);
    if m.pcs[w].seen < m.version { assert Owed(m, m.version); }
  }

  /** And he does: while anybody is blocked, the look at the count decides for the call, and the call
      wakes everybody who is blocked. */
  lemma PendingDelivers(s: State, acts: seq<Action>, w: Tid, b: Tid)
    requires Init(s) && w in After(s, acts).pcs && After(s, acts).pcs[w].Blocked?
    requires b in After(s, acts).pcs && Pending(After(s, acts).pcs[b])
    ensures var m := After(s, acts);
            && (m.pcs[b].InLock? ==> Next(m, Look(b)).pcs[b].Calling?)
            && (m.pcs[b].Calling? ==> forall u <- m.pcs :: m.pcs[u].Blocked? ==> Next(m, Broadcast(b)).pcs[u].Woken?)
  {
    RunKeepsInv(s, acts);
    var m := After(s, acts);
    assert w in Waiting(m);
  }

  // ---------------------------------------------------------------- the debt is paid

  lemma {:induction false} AfterConcat(s: State, xs: seq<Action>, ys: seq<Action>)
    ensures After(s, xs + ys) == After(After(s, xs), ys)
  {
    if ys == [] {
      assert xs + ys == xs;
    } else {
      AfterConcat(s, xs, ys[..|ys| - 1]);
      assert (xs + ys)[..|xs + ys| - 1] == xs + ys[..|ys| - 1];
    }
  }

  lemma AfterOne(s: State, a: Action, rest: seq<Action>)
    requires Enabled(s, a)
    ensures After(s, [a] + rest) == After(Next(s, a), rest)
  {
    assert [a][..0] == [];
    AfterConcat(s, [a], rest);
  }

  /** The threads blocked in `s` have been woken in `n`, and thread `b` is done. */
  predicate Paid(s: State, n: State, b: Tid) {
    && n.pcs.Keys == s.pcs.Keys && b in n.pcs && n.pcs[b].Idle?
    && forall u <- s.pcs :: s.pcs[u].Blocked? ==> n.pcs[u].Woken?
  }

  /** What a notifier has still to do, when the mutex is free for him. */
  function StepsOf(s: State, b: Tid): seq<Action>
    requires b in s.pcs
  {
    match s.pcs[b]
    case Changed(_) => [Bump(b), LookLock(b), Look(b), Broadcast(b)]
    case Bumped(_) => [LookLock(b), Look(b), Broadcast(b)]
    case InLock(_) => [Look(b), Broadcast(b)]
    case _ => [Broadcast(b)]
  }

  lemma Called(s: State, b: Tid)
    requires b in s.pcs && s.pcs[b].Calling?
    ensures Paid(s, After(s, [Broadcast(b)]), b)
  {
    AfterOne(s, Broadcast(b), []);
    assert [Broadcast(b)] + [] == [Broadcast(b)];
  }

  lemma Looked(s: State, b: Tid)
    requires Inv(s) && b in s.pcs && s.pcs[b].InLock?
    ensures Paid(s, After(s, [Look(b), Broadcast(b)]), b)
  {
    var n := Next(s, Look(b));
    AfterOne(s, Look(b), [Broadcast(b)]);
    if s.waiters == 0 {
      forall w | w in s.pcs ensures !s.pcs[w].Blocked? { NobodySleeps(s, b, w); }
      AfterNone(n, Broadcast(b));
    } else {
      Called(n, b);
    }
  }

  lemma AfterNone(s: State, a: Action)
    requires !Enabled(s, a)
    ensures After(s, [a]) == s
  {
    assert [a][..0] == [];
  }

  /** Whoever owes a notification can pay it: once the mutex is free, his own remaining steps end with him
      done and every thread that was blocked woken. */
  lemma DebtIsPaid(s: State, acts: seq<Action>, b: Tid)
    requires Init(s) && b in After(s, acts).pcs && Pending(After(s, acts).pcs[b])
    requires After(s, acts).lock == None || After(s, acts).pcs[b].InLock? || After(s, acts).pcs[b].Calling?
    ensures var m := After(s, acts);
            && (forall a <- StepsOf(m, b) :: a.t == b)
            && Paid(m, After(s, acts + StepsOf(m, b)), b)
  {
    hide Inv, After, Paid;
    var m := After(s, acts);
    RunKeepsInv(s, acts);
    AfterConcat(s, acts, StepsOf(m, b));
    PaidFrom(m, b);
  }

  lemma PaidFrom(m: State, b: Tid)
    requires Inv(m) && b in m.pcs && Pending(m.pcs[b])
    requires m.lock == None || m.pcs[b].InLock? || m.pcs[b].Calling?
    ensures Paid(m, After(m, StepsOf(m, b)), b)
    decreases if m.pcs[b].Changed? then 1 else 0
  {
    hide Inv, After;
    if m.pcs[b].Calling? {
      Called(m, b);
    } else if m.pcs[b].InLock? {
      Looked(m, b);
    } else if m.pcs[b].Bumped? {
      var n := Next(m, LookLock(b));
      StepKeepsInv(m, LookLock(b));
      AfterOne(m, LookLock(b), [Look(b), Broadcast(b)]);
      Looked(n, b);
      assert StepsOf(m, b) == [LookLock(b)] + [Look(b), Broadcast(b)];
    } else {
      var n := Next(m, Bump(b));
      StepKeepsInv(m, Bump(b));
      AfterOne(m, Bump(b), StepsOf(n, b));
      PaidFrom(n, b);
      assert StepsOf(m, b) == [Bump(b)] + StepsOf(n, b);
    }
  }

  /** The look at the count saves the call exactly when no thread is counted in, that is, between the decision
      to wait and the test that follows. */
  lemma LookDecides(s: State, acts: seq<Action>, b: Tid)
    requires Init(s) && b in After(s, acts).pcs && After(s, acts).pcs[b].InLock?
    ensures var m := After(s, acts);
            Next(m, Look(b)).pcs[b].Idle? <==> forall t <- m.pcs :: !CountedIn(m.pcs[t])
  {
    RunKeepsInv(s, acts);
    var m := After(s, acts);
    if m.waiters > 0 {
      var t :| t in Waiting(m);
    } else {
      forall t | t in m.pcs ensures !CountedIn(m.pcs[t]) { assert t !in Waiting(m); }
    }
  }

  // ---------------------------------------------------------------- calls of wait_if

  predicate InWait(pc: Pc) {
    pc.WaitLock? || pc.Testing? || pc.Tested? || pc.Counted? || pc.Blocked? || pc.Woken? || pc.Returned?
  }

  /** A call of `wait_if` returns only in the step in which its predicate says stop, or by timeout; and a
      blocked thread is woken only by a broadcast, a timeout or spuriously. */
  lemma HowWaitEnds(s: State, a: Action, t: Tid)
    requires Enabled(s, a) && t in s.pcs && InWait(s.pcs[t])
    ensures t in Next(s, a).pcs
    ensures !InWait(Next(s, a).pcs[t]) ==> Next(s, a).pcs[t].Idle? && (a == Test(t, false) || a == CountOut(t, false))
    ensures s.pcs[t].Blocked? && !Next(s, a).pcs[t].Blocked? ==>
              Next(s, a).pcs[t].Woken? && (a.Broadcast? || a == Wake(t))
  {
  }

  /** One thread alone in `wait_if`: a predicate that says stop leaves everything as it was, one that says
      wait leaves the thread blocked, counted, and the mutex free. */
  lemma SoloWait(s: State, t: Tid)
    requires t in s.pcs && s.pcs[t].Idle? && s.lock == None
    ensures After(s, [EnterWait(t), TakeLock(t), Test(t, false)]) == s
    ensures After(s, [EnterWait(t), TakeLock(t), Test(t, true), CountIn(t), Block(t)])
            == s.(waiters := s.waiters + 1, pcs := s.pcs[t := Blocked(s.version)])
  {
    var n := Next(Next(s, EnterWait(t)), TakeLock(t));
    AfterOne(n, Test(t, false), []);
    AfterOne(n, Test(t, true), [CountIn(t)] + [Block(t)]);
    var k := Next(n, Test(t, true));
    AfterOne(k, CountIn(t), [Block(t)]);
    AfterOne(Next(k, CountIn(t)), Block(t), []);
    AfterTwo(s, EnterWait(t), TakeLock(t), [Test(t, false)] + []);
    AfterTwo(s, EnterWait(t), TakeLock(t), [Test(t, true)] + ([CountIn(t)] + [Block(t)]));
    assert s.pcs[t := WaitLock][t := Testing][t := Idle] == s.pcs;
    assert [EnterWait(t), TakeLock(t)] + ([Test(t, false)] + []) == [EnterWait(t), TakeLock(t), Test(t, false)];
    assert [EnterWait(t), TakeLock(t)] + ([Test(t, true)] + ([CountIn(t)] + [Block(t)]))
        == [EnterWait(t), TakeLock(t), Test(t, true), CountIn(t), Block(t)];
    assert [Block(t)] + [] == [Block(t)];
  }

  lemma AfterTwo(s: State, a: Action, b: Action, rest: seq<Action>)
    requires Enabled(s, a) && Enabled(Next(s, a), b)
    ensures After(s, [a, b] + rest) == After(Next(Next(s, a), b), rest)
  {
    AfterOne(s, a, [b] + rest);
    AfterOne(Next(s, a), b, rest);
    assert [a, b] + rest == [a] + ([b] + rest);
  }

  /** A woken thread alone tests its predicate again, and if that says stop it is out and no longer counted. */
  lemma WokenTestsAgain(s: State, acts: seq<Action>, t: Tid)
    requires Init(s) && t in After(s, acts).pcs && After(s, acts).pcs[t].Woken? && After(s, acts).lock == None
    ensures var m := After(s, acts);
            && m.waiters > 0
            && After(m, [Retake(t), CountOut(t, true)])
               == m.(waiters := m.waiters - 1, lock := Some(t), pcs := m.pcs[t := Testing])
            && After(m, [Retake(t), CountOut(t, true), Test(t, false)])
               == m.(waiters := m.waiters - 1, pcs := m.pcs[t := Idle])
  {
    RunKeepsInv(s, acts);
    var m := After(s, acts);
    assert t in Waiting(m);
    AfterTwo(m, Retake(t), CountOut(t, true), []);
    AfterTwo(m, Retake(t), CountOut(t, true), [Test(t, false)] + []);
    var n := Next(Next(m, Retake(t)), CountOut(t, true));
    AfterOne(n, Test(t, false), []);
    assert [Retake(t), CountOut(t, true)] + [] == [Retake(t), CountOut(t, true)];
    assert [Retake(t), CountOut(t, true)] + ([Test(t, false)] + []) == [Retake(t), CountOut(t, true), Test(t, false)];
  }

  /** A blocked thread whose time is over is out after three steps of its own, and no longer counted. */
  lemma TimeoutReturns(s: State, acts: seq<Action>, t: Tid)
    requires Init(s) && t in After(s, acts).pcs && After(s, acts).pcs[t].Blocked? && After(s, acts).lock == None
    ensures var m := After(s, acts);
            && m.waiters > 0
            && After(m, [Wake(t), Retake(t)] + [CountOut(t, false)])
               == m.(waiters := m.waiters - 1, pcs := m.pcs[t := Idle])
  {
    RunKeepsInv(s, acts);
    var m := After(s, acts);
    assert t in Waiting(m);
    var n := Next(Next(m, Wake(t)), Retake(t));
    AfterTwo(m, Wake(t), Retake(t), [CountOut(t, false)]);
    AfterOne(n, CountOut(t, false), []);
    assert [CountOut(t, false)] + [] == [CountOut(t, false)];
    assert m.pcs[t := Woken][t := Returned][t := Idle] == m.pcs[t := Idle];
  }

  /** A thread that changes the watched state and then notifies, alone while the mutex is free, wakes every
      thread that was blocked, and each of them had last tested an older state. */
  lemma ChangeWakesAll(s: State, acts: seq<Action>, b: Tid)
    requires Init(s) && b in After(s, acts).pcs && After(s, acts).pcs[b].Idle? && After(s, acts).lock == None
    ensures var m := After(s, acts); var c := After(s, acts + [Change(b)]);
            && c.version == m.version + 1 && c.pcs == m.pcs[b := Changed(c.version)]
            && Paid(c, After(s, acts + [Change(b)] + StepsOf(c, b)), b)
            && forall u <- c.pcs :: c.pcs[u].Blocked? ==> c.pcs[u].seen < c.version
  {
    hide After, Inv, Paid;
    var m := After(s, acts);
    RunKeepsInv(s, acts);
    AfterConcat(s, acts, [Change(b)]);
    AfterOne(m, Change(b), []);
    AfterItself(Next(m, Change(b)));
    assert [Change(b)] + [] == [Change(b)];
    SleepersBehind(m);
    DebtIsPaid(s, acts + [Change(b)], b);
  }

  lemma AfterItself(s: State)
    ensures After(s, []) == s
  {
  }

  lemma SleepersBehind(s: State)
    requires Inv(s)
    ensures forall u <- s.pcs :: s.pcs[u].Blocked? ==> s.pcs[u].seen <= s.version
  {
  }
}
