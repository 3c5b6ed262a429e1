/** A call that runs alone in the ring with commit flags comes to its end. */
module CommitSolo {
  import opened Basics
  import opened BroadcastRing
  import opened CommitRing

  /** Up to `n` accesses of thread `t`, no exchange failing spuriously. */
  function SoloRun(s: State, t: Tid, n: nat): State
    requires Shape(s)
    decreases n
  {
    if n == 0 || !Enabled(s, Run(t, false)) then s else SoloRun(Next(s, Run(t, false)), t, n - 1)
  }

  ghost predicate Finishes(s: State, t: Tid)
    requires Shape(s)
  {
    exists n: nat :: t in SoloRun(s, t, n).threads && SoloRun(s, t, n).threads[t].Idle?
  }

  lemma OneMore(s: State, t: Tid)
    requires Shape(s) && Enabled(s, Run(t, false)) && Finishes(Next(s, Run(t, false)), t)
    ensures Finishes(s, t)
  {
    var u := Next(s, Run(t, false));
    var n: nat :| t in SoloRun(u, t, n).threads && SoloRun(u, t, n).threads[t].Idle?;
    assert SoloRun(s, t, n + 1) == SoloRun(u, t, n);
  }

  /** What a thread has loaded is current as long as nobody else moves. */
  predicate UpToDate(s: State, t: Tid)
    requires Shape(s) && t in s.threads
  {
    match s.threads[t]
    case PLoadRd(_, cur) => cur == s.ct
    case PCas(_, cur) => cur == s.ct
    case CLoadWt(r) => r == s.rd
    case CDecide(r, w) => r == s.rd && w == s.wt && IndexOf(r) == IndexOf(w)
    case CTake(w) => w == s.wt && CellOf(s, w).flag == Some(w)
    case CCopy(r, _) => r == s.rd
    case CCas(r, _) => r == s.rd
    case _ => true
  }

  /** Accesses left before the next advance of the write index, at most. */
  function Rank(pc: Pc): nat {
    match pc
    case Idle => 0
    case PLoadCt(_) => 52
    case PLoadRd(_, _) => 51
    case PCas(_, _) => 50
    case PWrite(_, _, done) => 20 + if done < WORDS then WORDS - done else 0
    case PFlag(_) => 20
    case PLoop(_) => 5
    case PLoadWt(_, _) => 4
    case PTake(_) => 3
    case PStore(_) => 2
    case CLoadRd => 30
    case CLoadWt(_) => 29
    case CDecide(_, _) => 28
    case CTake(_) => 27
    case CStore(_) => 26
    case CCopy(_, buf) => 2 + if |buf| < WORDS then WORDS - |buf| else 0
    case CCas(_, _) => 1
  }

  predicate Unclaimed(pc: Pc) {
    pc.PLoadCt? || pc.PLoadRd? || pc.PCas?
  }

  predicate Closer(s: State, u: State, t: Tid)
    requires t in s.threads && t in u.threads
  {
    var (pc, pc') := (s.threads[t], u.threads[t]);
    || (Unclaimed(pc) && !Unclaimed(pc'))
    || (Unclaimed(pc) == Unclaimed(pc') && s.ct == u.ct && s.wt < u.wt)
    || (Unclaimed(pc) == Unclaimed(pc') && s.ct == u.ct && s.wt == u.wt && Rank(pc') < Rank(pc))
  }

  lemma StepsCloser(s: State, t: Tid)
    requires Inv(s) && t in s.threads && !s.threads[t].Idle? && UpToDate(s, t)
    ensures Enabled(s, Run(t, false))
    ensures var u := Next(s, Run(t, false)); t in u.threads && UpToDate(u, t) && Closer(s, u, t)
  {
    hide FlagOk, IndexOk, OutOk, MoverOk, UpToDate, Closer, RunStep;
    assert ThreadOk(s, t, s.threads[t]);
    var pc := s.threads[t];
    if InPush(pc) {
      PushCloser(s, t);
    } else if InPop(pc) {
      PopCloser(s, t);
    } else {
      WriteCloser(s, t);
    }
  }

  lemma PushCloser(s: State, t: Tid)
    requires Shape(s) && t in s.threads && InPush(s.threads[t]) && UpToDate(s, t)
    ensures var u := Next(s, Run(t, false)); t in u.threads && UpToDate(u, t) && Closer(s, u, t)
  {
    hide FlagOk, IndexOk, OutOk, MoverOk;
  }

  lemma PopCloser(s: State, t: Tid)
    requires Shape(s) && t in s.threads && InPop(s.threads[t]) && UpToDate(s, t)
    requires Inv(s) && t in s.threads && !s.threads[t].Idle? && UpToDate(s, t)
    requires s.threads[t].CCopy? ==> |s.threads[t].buf| < WORDS
    ensures var u := Next(s, Run(t, false)); t in u.threads && UpToDate(u, t) && Closer(s, u, t)
  {
    hide FlagOk, IndexOk, OutOk, MoverOk;
  }

  lemma WriteCloser(s: State, t: Tid)
    requires Inv(s) && t in s.threads && Enabled(s, Run(t, false)) && UpToDate(s, t)
    requires !InPush(s.threads[t]) && !InPop(s.threads[t])
    ensures var u := Next(s, Run(t, false)); t in u.threads && UpToDate(u, t) && Closer(s, u, t)
  {
    hide FlagOk, IndexOk, OutOk, MoverOk;
    assert ThreadOk(s, t, s.threads[t]);
  }

  lemma {:induction false} SoloEnds(s: State, t: Tid)
    requires Inv(s) && t in s.threads && UpToDate(s, t)
    ensures Finishes(s, t)
    decreases Unclaimed(s.threads[t]), s.ct - s.wt, Rank(s.threads[t])
  {
    if s.threads[t].Idle? {
      assert SoloRun(s, t, 0) == s;
    } else {
      var u := Next(s, Run(t, false));
      StepsCloser(s, t);
      StepKeeps(s, Run(t, false));
      SoloEnds(u, t);
      OneMore(s, t);
    }
  }

  /** At any point of any run, a `push` or a `pop` called now and left to run alone ends. */
  lemma CallsEnd(ss: seq<State>, acts: seq<Action>, n: nat, t: Tid, a: Action)
    requires Trace(ss, acts) && n < |ss| && (a.StartPush? || a.StartPop?) && a.t == t && Enabled(ss[n], a)
    ensures Shape(ss[n]) && Finishes(Next(ss[n], a), t)
  {
    TraceKeeps(ss, acts, n);
    StepKeeps(ss[n], a);
    SoloEnds(Next(ss[n], a), t);
  }
}
