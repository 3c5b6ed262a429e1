/** The multi-producer multi-consumer ring with commit flags: any number of threads, each access to
    a shared word a step of its own, payloads written and copied one word at a time. */
module CommitRing {
  import opened Basics
  import opened BroadcastRing

  type Tid = nat

  /** `flag == Some(k)` is the stored `~k`; `None` is the cleared flag 0. */
  datatype Cell = Cell(words: seq<int>, flag: Option<nat>)

  /** Program points of `push` (P...) and `pop` (C...), with the values loaded so far. */
  datatype Pc =
    | Idle
    | PLoadCt(v: seq<int>)
    | PLoadRd(v: seq<int>, cur: nat)
    | PCas(v: seq<int>, cur: nat)
    | PWrite(v: seq<int>, cur: nat, done: nat)
    | PFlag(cur: nat)
    | PLoop(cur: nat)
    | PLoadWt(cur: nat, seen: Option<nat>)
    | PTake(cur: nat)
    | PStore(cur: nat)
    | CLoadRd
    | CLoadWt(r: nat)
    | CDecide(r: nat, w: nat)
    | CTake(w: nat)
    | CStore(w: nat)
    | CCopy(r: nat, buf: seq<int>)
    | CCas(r: nat, buf: seq<int>)

  /** `claims[k]` and `owner[k]` record who claimed index `k` with which payload, `mover` the thread
      between taking the flag at the write index and storing the new index, `out` what `pop`
      returned: none of the four is read by a step. */
  datatype State = State(rd: nat, wt: nat, ct: nat, cells: seq<Cell>, threads: map<Tid, Pc>,
                         claims: seq<seq<int>>, owner: seq<Tid>, mover: Option<Tid>,
                         out: seq<(nat, seq<int>)>)

  datatype Action =
    | StartPush(t: Tid, v: seq<int>)
    | StartPop(t: Tid)
    | Run(t: Tid, spurious: bool)   // the next access of thread t; weak exchanges may fail

  predicate Shape(s: State) {
    |s.cells| == SLOTS && forall i :: 0 <= i < SLOTS ==> |s.cells[i].words| == WORDS
  }

  function CellOf(s: State, k: nat): Cell
    requires |s.cells| == SLOTS
  {
    s.cells[IndexOf(k)]
  }

  function At(s: State, t: Tid, pc: Pc): State {
    s.(threads := s.threads[t := pc])
  }

  function SetFlag(s: State, k: nat, f: Option<nat>): State
    requires |s.cells| == SLOTS
  {
    s.(cells := s.cells[IndexOf(k) := s.cells[IndexOf(k)].(flag := f)])
  }

  function WriteWord(s: State, k: nat, j: nat, x: int): State
    requires |s.cells| == SLOTS && j < |CellOf(s, k).words|
  {
    s.(cells := s.cells[IndexOf(k) := s.cells[IndexOf(k)].(words := s.cells[IndexOf(k)].words[j := x])])
  }

  predicate Enabled(s: State, a: Action) {
    match a
    case StartPush(t, v) => t in s.threads && s.threads[t].Idle? && |v| == WORDS
    case StartPop(t) => t in s.threads && s.threads[t].Idle?
    case Run(t, _) =>
      && t in s.threads && !s.threads[t].Idle?
      && (s.threads[t].PWrite? ==> s.threads[t].done < WORDS == |s.threads[t].v|)
      && (s.threads[t].CCopy? ==> |s.threads[t].buf| < WORDS)
  }

  function Next(s: State, a: Action): (u: State)
    requires Shape(s) && Enabled(s, a)
    ensures Shape(u)
  {
    match a
    case StartPush(t, v) => At(s, t, PLoadCt(v))
    case StartPop(t) => At(s, t, CLoadRd)
    case Run(t, spurious) => RunStep(s, t, s.threads[t], spurious)
  }

  function RunStep(s: State, t: Tid, pc: Pc, spurious: bool): (u: State)
    requires Shape(s)
    requires pc.PWrite? ==> pc.done < WORDS == |pc.v|
    requires pc.CCopy? ==> |pc.buf| < WORDS
    ensures Shape(u)
  {
    match pc
    case Idle => s
    case PLoadCt(v) => At(s, t, PLoadRd(v, s.ct))
    case PLoadRd(v, cur) =>
      At(s, t, if IndexOf(cur + 1) == IndexOf(s.rd) then Idle else PCas(v, cur))
    case PCas(v, cur) =>
      if s.ct == cur && !spurious
      then At(s.(ct := cur + 1, claims := s.claims + [v], owner := s.owner + [t]), t, PWrite(v, cur, 0))
      else At(s, t, PLoadCt(v))
    case PWrite(v, cur, done) =>
      At(WriteWord(s, cur, done, v[done]), t, if done + 1 < WORDS then PWrite(v, cur, done + 1) else PFlag(cur))
    case PFlag(cur) => At(SetFlag(s, cur, Some(cur)), t, PLoop(cur))
    case PLoop(cur) => At(s, t, PLoadWt(cur, CellOf(s, cur).flag))
    case PLoadWt(cur, seen) => At(s, t, if cur != s.wt || seen != Some(cur) then Idle else PTake(cur))
    case PTake(cur) =>
      if CellOf(s, cur).flag == Some(cur)
      then At(SetFlag(s, cur, None).(mover := Some(t)), t, PStore(cur))
      else At(s, t, Idle)
    case PStore(cur) => At(s.(wt := cur + 1, mover := None), t, PLoop(cur + 1))
    case CLoadRd => At(s, t, CLoadWt(s.rd))
    case CLoadWt(r) => At(s, t, if IndexOf(r) == IndexOf(s.wt) then CDecide(r, s.wt) else CCopy(r, []))
    case CDecide(r, w) => At(s, t, if CellOf(s, w).flag != Some(w) then Idle else CTake(w))
    case CTake(w) =>
      if CellOf(s, w).flag == Some(w) && !spurious
      then At(SetFlag(s, w, None).(mover := Some(t)), t, CStore(w))
      else At(s, t, CLoadRd)
    case CStore(w) => At(s.(wt := w + 1, mover := None), t, CLoadRd)
    case CCopy(r, buf) =>
      var b := buf + [CellOf(s, r).words[|buf|]];
      At(s, t, if |b| < WORDS then CCopy(r, b) else CCas(r, b))
    case CCas(r, buf) =>
      if s.rd == r && !spurious then At(s.(rd := r + 1, out := s.out + [(r, buf)]), t, Idle)
      else At(s, t, CLoadRd)
  }

  // ---------------------------------------------------------------- invariant

  /** The producer of index `k` is still writing, or has yet to raise its flag. */
  predicate Writing(s: State, k: nat) {
    && k < |s.owner| && s.owner[k] in s.threads
    && var pc := s.threads[s.owner[k]];
       (pc.PWrite? && pc.cur == k) || (pc.PFlag? && pc.cur == k)
  }

  predicate Filled(s: State, k: nat)
    requires |s.cells| == SLOTS
  {
    k < |s.claims| && CellOf(s, k).words == s.claims[k]
  }

  predicate IndexOk(s: State, k: nat)
    requires |s.cells| == SLOTS
  {
    && (s.rd <= k < s.wt ==> Filled(s, k))
    && (s.wt <= k < s.ct ==> Writing(s, k) || CellOf(s, k).flag == Some(k) || (k == s.wt && s.mover.Some?))
  }

  predicate FlagOk(s: State, i: nat)
    requires |s.cells| == SLOTS && i < SLOTS
  {
    s.cells[i].flag.Some? ==>
      var k := s.cells[i].flag.value;
      && s.wt <= k < s.ct && IndexOf(k) == i && Filled(s, k) && !Writing(s, k)
      && (k == s.wt ==> s.mover.None?)
  }

  predicate ThreadOk(s: State, t: Tid, pc: Pc)
    requires |s.cells| == SLOTS
  {
    match pc
    case PLoadCt(v) => |v| == WORDS
    case PLoadRd(v, cur) => |v| == WORDS && cur <= s.ct
    case PCas(v, cur) => |v| == WORDS && cur <= s.ct && (cur == s.ct ==> cur + 1 < s.rd + SLOTS)
    case PWrite(v, cur, done) =>
      && s.wt <= cur < s.ct && |s.owner| == s.ct && s.owner[cur] == t
      && cur < |s.claims| && v == s.claims[cur] && |v| == WORDS && done < WORDS
      && |CellOf(s, cur).words| == WORDS && CellOf(s, cur).words[..done] == v[..done]
      && (cur == s.wt ==> s.mover.None?)
    case PFlag(cur) =>
      && s.wt <= cur < s.ct && |s.owner| == s.ct && s.owner[cur] == t
      && Filled(s, cur)
      && (cur == s.wt ==> s.mover.None?)
    case PTake(cur) => cur <= s.wt
    case PStore(cur) => s.mover == Some(t) && cur == s.wt < s.ct && Filled(s, cur)
    case CLoadWt(r) => r <= s.rd
    case CDecide(r, w) => r <= s.rd && r <= w <= s.wt && IndexOf(r) == IndexOf(w)
    case CTake(w) => w <= s.wt
    case CStore(w) => s.mover == Some(t) && w == s.wt < s.ct && Filled(s, w)
    case CCopy(r, buf) =>
      && r <= s.rd && |buf| < WORDS
      && (r == s.rd ==> r < s.wt && Filled(s, r) && |s.claims[r]| == WORDS && buf == s.claims[r][..|buf|])
    case CCas(r, buf) => r <= s.rd && (r == s.rd ==> r < s.wt && r < |s.claims| && buf == s.claims[r])
    case _ => true
  }

  ghost predicate MoverOk(s: State) {
    s.mover.Some? ==>
      && s.mover.value in s.threads
      && (s.threads[s.mover.value].PStore? || s.threads[s.mover.value].CStore?)
  }

  ghost predicate OutOk(s: State) {
    && |s.out| == s.rd
    && s.rd <= |s.claims|
    && forall j :: 0 <= j < s.rd ==> s.out[j] == (j, s.claims[j])
  }

  ghost predicate Counters(s: State) {
    && Shape(s)
    && |s.claims| == s.ct && |s.owner| == s.ct
    && (forall k :: 0 <= k < s.ct ==> |s.claims[k]| == WORDS)
    && s.rd <= s.wt <= s.ct < s.rd + SLOTS
  }

  ghost predicate Inv(s: State) {
    && Counters(s)
    && OutOk(s)
    && MoverOk(s)
    && (forall k: nat :: IndexOk(s, k))
    && (forall i :: 0 <= i < SLOTS ==> FlagOk(s, i))
    && (forall t <- s.threads :: ThreadOk(s, t, s.threads[t]))
  }

  /** Indices that are at most a lap apart and share a cell are equal. */
  lemma SameCell(j: nat, k: nat, rd: nat)
    requires rd <= j < rd + SLOTS && rd <= k < rd + SLOTS && IndexOf(j) == IndexOf(k)
    ensures j == k
  {
  }

  // ---------------------------------------------------------------- preservation

  /** Steps that only move a thread that is not writing and not moving the write index. */
  lemma MoveKeeps(s: State, t: Tid, pc: Pc)
    requires Inv(s) && t in s.threads && ThreadOk(s, t, pc)
    requires !s.threads[t].PWrite? && !s.threads[t].PFlag? && !s.threads[t].PStore? && !s.threads[t].CStore?
    requires !pc.PWrite? && !pc.PFlag? && !pc.PStore? && !pc.CStore?
    ensures Inv(At(s, t, pc))
  {
    var u := At(s, t, pc);
    assert forall k: nat :: Writing(u, k) <==> Writing(s, k);
    forall k: nat ensures IndexOk(u, k) { assert IndexOk(s, k); }
    forall i | 0 <= i < SLOTS ensures FlagOk(u, i) { assert FlagOk(s, i); }
    forall q | q in u.threads ensures ThreadOk(u, q, u.threads[q]) { MoveKeepsThread(s, t, pc, q); }
  }

  lemma MoveKeepsThread(s: State, t: Tid, pc: Pc, q: Tid)
    requires Inv(s) && t in s.threads && ThreadOk(s, t, pc) && q in s.threads
    ensures var u := At(s, t, pc); ThreadOk(u, q, u.threads[q])
  {
    hide FlagOk, IndexOk, OutOk;
    if q != t { assert ThreadOk(s, q, s.threads[q]); }
  }

  lemma ClaimKeeps(s: State, t: Tid, v: seq<int>)
    requires Inv(s) && t in s.threads && s.threads[t] == PCas(v, s.ct)
    ensures Inv(RunStep(s, t, s.threads[t], false))
  {
    var u := RunStep(s, t, s.threads[t], false);
    assert ThreadOk(s, t, s.threads[t]);
    assert forall k: nat :: k < s.ct ==> u.owner[k] == s.owner[k] && u.claims[k] == s.claims[k];
    forall k: nat ensures k < s.ct ==> (Writing(u, k) <==> Writing(s, k)) {
      assert k < s.ct && Writing(s, k) ==> s.owner[k] != t;
    }
    forall k: nat ensures IndexOk(u, k) {
      assert IndexOk(s, k);
    }
    forall i | 0 <= i < SLOTS ensures FlagOk(u, i) { assert FlagOk(s, i); }
    forall q | q in u.threads ensures ThreadOk(u, q, u.threads[q]) { ClaimKeepsThread(s, t, v, q); }
  }

  lemma ClaimKeepsThread(s: State, t: Tid, v: seq<int>, q: Tid)
    requires Inv(s) && t in s.threads && s.threads[t] == PCas(v, s.ct) && q in s.threads
    ensures var u := RunStep(s, t, s.threads[t], false); ThreadOk(u, q, u.threads[q])
  {
    hide FlagOk, IndexOk, OutOk;
    assert ThreadOk(s, t, s.threads[t]) && ThreadOk(s, q, s.threads[q]);
    assert s.ct == s.wt ==> s.mover.None? by {
      if s.mover.Some? { assert ThreadOk(s, s.mover.value, s.threads[s.mover.value]); }
    }
  }

  /** A word written by a producer lands in a cell nobody else looks at. */
  lemma WriteWordFacts(s: State, t: Tid)
    requires Inv(s) && t in s.threads && s.threads[t].PWrite?
    ensures var pc := s.threads[t]; var u := RunStep(s, t, pc, false);
            && ThreadOk(s, t, pc)
            && (forall k: nat :: Writing(u, k) <==> Writing(s, k))
            && (forall k: nat :: s.rd <= k < s.ct && k != pc.cur ==> CellOf(u, k) == CellOf(s, k))
            && (forall i :: 0 <= i < SLOTS ==> u.cells[i].flag == s.cells[i].flag)
            && CellOf(s, pc.cur).flag.None?
  {
    var pc := s.threads[t];
    var u := RunStep(s, t, pc, false);
    var c := pc.cur;
    assert ThreadOk(s, t, pc);
    forall k: nat ensures s.rd <= k < s.ct && k != c ==> CellOf(u, k) == CellOf(s, k) {
      if s.rd <= k < s.ct && IndexOf(k) == IndexOf(c) { SameCell(k, c, s.rd); }
    }
    assert FlagOk(s, IndexOf(c));
    if CellOf(s, c).flag.Some? { SameCell(CellOf(s, c).flag.value, c, s.rd); }
  }

  lemma PrefixGrows(words: seq<int>, v: seq<int>, n: nat)
    requires |words| == |v| && n < |v| && words[..n] == v[..n]
    ensures words[n := v[n]][..n + 1] == v[..n + 1]
    ensures n + 1 == |v| ==> words[n := v[n]] == v
  {
    var w := words[n := v[n]];
    assert w[..n + 1] == words[..n] + [v[n]];
    assert v[..n + 1] == v[..n] + [v[n]];
    if n + 1 == |v| { assert w == w[..n + 1] && v == v[..n + 1]; }
  }

  lemma WriteKeepsOwn(s: State, t: Tid)
    requires Inv(s) && t in s.threads && s.threads[t].PWrite?
    ensures var u := RunStep(s, t, s.threads[t], false); ThreadOk(u, t, u.threads[t])
  {
    hide FlagOk, IndexOk, OutOk;
    var pc := s.threads[t];
    var u := RunStep(s, t, pc, false);
    assert ThreadOk(s, t, pc);
    PrefixGrows(CellOf(s, pc.cur).words, pc.v, pc.done);
  }

  lemma WriteKeeps(s: State, t: Tid)
    requires Inv(s) && t in s.threads && s.threads[t].PWrite?
    ensures Inv(RunStep(s, t, s.threads[t], false))
  {
    var u := RunStep(s, t, s.threads[t], false);
    WriteWordFacts(s, t);
    WriteKeepsOwn(s, t);
    forall k: nat ensures IndexOk(u, k) { assert IndexOk(s, k); }
    forall i | 0 <= i < SLOTS ensures FlagOk(u, i) { assert FlagOk(s, i); }
    forall q | q in u.threads ensures ThreadOk(u, q, u.threads[q]) {
      if q != t { WriteKeepsThread(s, t, q); }
    }
  }

  lemma WriteKeepsThread(s: State, t: Tid, q: Tid)
    requires Inv(s) && t in s.threads && s.threads[t].PWrite? && q in s.threads && q != t
    ensures var u := RunStep(s, t, s.threads[t], false); ThreadOk(u, q, u.threads[q])
  {
    hide FlagOk, IndexOk, OutOk;
    WriteWordFacts(s, t);
    assert ThreadOk(s, t, s.threads[t]) && ThreadOk(s, q, s.threads[q]);
  }

  lemma FlagKeeps(s: State, t: Tid)
    requires Inv(s) && t in s.threads && s.threads[t].PFlag?
    ensures Inv(RunStep(s, t, s.threads[t], false))
  {
    var c := s.threads[t].cur;
    var u := RunStep(s, t, s.threads[t], false);
    assert ThreadOk(s, t, s.threads[t]);
    forall k: nat ensures Writing(u, k) <==> Writing(s, k) && k != c {
    }
    forall k: nat ensures s.rd <= k < s.ct && k != c ==> CellOf(u, k) == CellOf(s, k) {
      if s.rd <= k < s.ct && IndexOf(k) == IndexOf(c) { SameCell(k, c, s.rd); }
    }
    forall k: nat ensures IndexOk(u, k) { assert IndexOk(s, k); }
    forall i | 0 <= i < SLOTS ensures FlagOk(u, i) { assert FlagOk(s, i); }
    forall q | q in u.threads ensures ThreadOk(u, q, u.threads[q]) { FlagKeepsThread(s, t, q); }
  }

  lemma FlagKeepsThread(s: State, t: Tid, q: Tid)
    requires Inv(s) && t in s.threads && s.threads[t].PFlag? && q in s.threads
    ensures var u := RunStep(s, t, s.threads[t], false); ThreadOk(u, q, u.threads[q])
  {
    hide FlagOk, IndexOk, OutOk;
    assert ThreadOk(s, t, s.threads[t]) && ThreadOk(s, q, s.threads[q]);
  }

  /** Taking the flag: only ever the one at the write index. */
  lemma TakeKeeps(s: State, t: Tid, c: nat, pc: Pc)
    requires Inv(s) && t in s.threads && (s.threads[t] == PTake(c) || s.threads[t] == CTake(c))
    requires CellOf(s, c).flag == Some(c) && (pc == PStore(c) || pc == CStore(c))
    ensures Inv(At(SetFlag(s, c, None).(mover := Some(t)), t, pc))
  {
    var u := At(SetFlag(s, c, None).(mover := Some(t)), t, pc);
    TakeFacts(s, t, c);
    forall k: nat ensures Writing(u, k) <==> Writing(s, k) {
    }
    forall k: nat ensures s.rd <= k < s.ct && k != c ==> CellOf(u, k) == CellOf(s, k) {
      if s.rd <= k < s.ct && IndexOf(k) == IndexOf(c) { SameCell(k, c, s.rd); }
    }
    forall k: nat ensures IndexOk(u, k) { assert IndexOk(s, k); }
    forall i | 0 <= i < SLOTS ensures FlagOk(u, i) { assert FlagOk(s, i); }
    forall q | q in u.threads ensures ThreadOk(u, q, u.threads[q]) { TakeKeepsThread(s, t, c, pc, q); }
  }

  lemma TakeFacts(s: State, t: Tid, c: nat)
    requires Inv(s) && t in s.threads && (s.threads[t] == PTake(c) || s.threads[t] == CTake(c))
    requires CellOf(s, c).flag == Some(c)
    ensures c == s.wt < s.ct && Filled(s, c) && !Writing(s, c) && s.mover.None?
  {
    hide IndexOk, OutOk, MoverOk;
    assert ThreadOk(s, t, s.threads[t]) && FlagOk(s, IndexOf(c));
  }

  /** Taking a flag while no thread is the mover leaves the other threads as they are, if none of them
      is still writing at the write index. */
  lemma SameWords(s: State, u: State, c: nat, q: Tid)
    requires Inv(s) && q in s.threads && q in u.threads && s.mover.None? && c == s.wt && !Writing(s, c)
    requires u == SetFlag(s, c, None).(mover := u.mover, threads := u.threads) && u.threads[q] == s.threads[q]
    ensures ThreadOk(u, q, u.threads[q])
  {
    hide FlagOk, IndexOk, OutOk, MoverOk;
    assert ThreadOk(s, q, s.threads[q]);
    assert forall i :: 0 <= i < SLOTS ==> u.cells[i].words == s.cells[i].words;
  }

  lemma TakeKeepsThread(s: State, t: Tid, c: nat, pc: Pc, q: Tid)
    requires Inv(s) && t in s.threads && (s.threads[t] == PTake(c) || s.threads[t] == CTake(c)) && q in s.threads
    requires CellOf(s, c).flag == Some(c) && (pc == PStore(c) || pc == CStore(c))
    ensures var u := At(SetFlag(s, c, None).(mover := Some(t)), t, pc); ThreadOk(u, q, u.threads[q])
  {
    hide IndexOk, OutOk, MoverOk;
    TakeFacts(s, t, c);
    if q != t { SameWords(s, At(SetFlag(s, c, None).(mover := Some(t)), t, pc), c, q); }
  }

  lemma StoreKeeps(s: State, t: Tid, c: nat, pc: Pc)
    requires Inv(s) && t in s.threads && (s.threads[t] == PStore(c) || s.threads[t] == CStore(c))
    requires pc == PLoop(c + 1) || pc == CLoadRd
    ensures Inv(At(s.(wt := c + 1, mover := None), t, pc))
  {
    var u := At(s.(wt := c + 1, mover := None), t, pc);
    assert ThreadOk(s, t, s.threads[t]);
    forall k: nat ensures Writing(u, k) <==> Writing(s, k) {
    }
    forall k: nat ensures IndexOk(u, k) { assert IndexOk(s, k); }
    forall i | 0 <= i < SLOTS ensures FlagOk(u, i) { assert FlagOk(s, i); }
    forall q | q in u.threads ensures ThreadOk(u, q, u.threads[q]) { StoreKeepsThread(s, t, c, pc, q); }
  }

  lemma StoreKeepsThread(s: State, t: Tid, c: nat, pc: Pc, q: Tid)
    requires Inv(s) && t in s.threads && (s.threads[t] == PStore(c) || s.threads[t] == CStore(c)) && q in s.threads
    requires pc == PLoop(c + 1) || pc == CLoadRd
    ensures var u := At(s.(wt := c + 1, mover := None), t, pc); ThreadOk(u, q, u.threads[q])
  {
    hide FlagOk, IndexOk, OutOk;
    assert ThreadOk(s, t, s.threads[t]) && ThreadOk(s, q, s.threads[q]);
  }

  lemma ConsumeKeeps(s: State, t: Tid, buf: seq<int>)
    requires Inv(s) && t in s.threads && s.threads[t] == CCas(s.rd, buf)
    ensures Inv(RunStep(s, t, s.threads[t], false))
  {
    var u := RunStep(s, t, s.threads[t], false);
    assert ThreadOk(s, t, s.threads[t]);
    forall k: nat ensures Writing(u, k) <==> Writing(s, k) {
    }
    forall k: nat ensures IndexOk(u, k) { assert IndexOk(s, k); }
    forall i | 0 <= i < SLOTS ensures FlagOk(u, i) { assert FlagOk(s, i); }
    forall q | q in u.threads ensures ThreadOk(u, q, u.threads[q]) { ConsumeKeepsThread(s, t, buf, q); }
  }

  lemma ConsumeKeepsThread(s: State, t: Tid, buf: seq<int>, q: Tid)
    requires Inv(s) && t in s.threads && s.threads[t] == CCas(s.rd, buf) && q in s.threads
    ensures var u := RunStep(s, t, s.threads[t], false); ThreadOk(u, q, u.threads[q])
  {
    hide FlagOk, IndexOk, OutOk;
    assert ThreadOk(s, t, s.threads[t]) && ThreadOk(s, q, s.threads[q]);
  }

  lemma RunKeeps(s: State, t: Tid, spurious: bool)
    requires Inv(s) && Enabled(s, Run(t, spurious))
    ensures Inv(Next(s, Run(t, spurious)))
  {
    hide FlagOk, IndexOk, OutOk, MoverOk;
    var pc := s.threads[t];
    var u := Next(s, Run(t, spurious));
    assert ThreadOk(s, t, pc);
    if pc.PCas? && s.ct == pc.cur && !spurious {
      ClaimKeeps(s, t, pc.v);
    } else if pc.PWrite? {
      WriteKeeps(s, t);
    } else if pc.PFlag? {
      FlagKeeps(s, t);
    } else if pc.PTake? && CellOf(s, pc.cur).flag == Some(pc.cur) {
      TakeKeeps(s, t, pc.cur, PStore(pc.cur));
    } else if pc.CTake? && CellOf(s, pc.w).flag == Some(pc.w) && !spurious {
      TakeKeeps(s, t, pc.w, CStore(pc.w));
    } else if pc.PStore? {
      StoreKeeps(s, t, pc.cur, PLoop(pc.cur + 1));
    } else if pc.CStore? {
      StoreKeeps(s, t, pc.w, CLoadRd);
    } else if pc.CCas? && s.rd == pc.r && !spurious {
      ConsumeKeeps(s, t, pc.buf);
    } else {
      LocalRunKeeps(s, t, spurious);
    }
  }

  /** The steps of `RunKeeps` that change nothing but the thread's own program point. */
  predicate IsLocal(s: State, t: Tid, spurious: bool)
    requires Shape(s) && t in s.threads
  {
    var pc := s.threads[t];
    && !(pc.PCas? && s.ct == pc.cur && !spurious) && !pc.PWrite? && !pc.PFlag?
    && !(pc.PTake? && CellOf(s, pc.cur).flag == Some(pc.cur))
    && !(pc.CTake? && CellOf(s, pc.w).flag == Some(pc.w) && !spurious)
    && !pc.PStore? && !pc.CStore? && !(pc.CCas? && s.rd == pc.r && !spurious)
  }

  lemma CopyKeeps(s: State, t: Tid)
    requires Inv(s) && Enabled(s, Run(t, false)) && s.threads[t].CCopy?
    ensures ThreadOk(s, t, RunStep(s, t, s.threads[t], false).threads[t])
  {
    var pc := s.threads[t];
    assert ThreadOk(s, t, pc);
    if pc.r == s.rd {
      assert s.claims[pc.r][..|pc.buf| + 1] == s.claims[pc.r][..|pc.buf|] + [s.claims[pc.r][|pc.buf|]];
      assert s.claims[pc.r][..WORDS] == s.claims[pc.r];
    }
  }

  lemma FindKeeps(s: State, t: Tid)
    requires Inv(s) && Enabled(s, Run(t, false)) && s.threads[t].CLoadWt?
    ensures ThreadOk(s, t, RunStep(s, t, s.threads[t], false).threads[t])
  {
    var pc := s.threads[t];
    assert ThreadOk(s, t, pc);
    assert IndexOk(s, s.rd);
    if pc.r == s.rd < s.wt {
      assert s.claims[pc.r][..0] == [];
    }
  }

  predicate InPush(pc: Pc) {
    pc.PLoadCt? || pc.PLoadRd? || pc.PCas? || pc.PLoop? || pc.PLoadWt? || pc.PTake?
  }

  lemma LocalPushOk(s: State, t: Tid, spurious: bool)
    requires Inv(s) && Enabled(s, Run(t, spurious)) && IsLocal(s, t, spurious) && InPush(s.threads[t])
    ensures var to := RunStep(s, t, s.threads[t], spurious).threads[t];
            RunStep(s, t, s.threads[t], spurious) == At(s, t, to) && ThreadOk(s, t, to) && (InPush(to) || to.Idle?)
  {
    hide FlagOk, IndexOk, MoverOk, OutOk;
    assert ThreadOk(s, t, s.threads[t]);
  }

  predicate InPop(pc: Pc) {
    pc.CLoadRd? || pc.CLoadWt? || pc.CDecide? || pc.CTake? || pc.CCopy? || pc.CCas?
  }

  lemma LocalPopOk(s: State, t: Tid, spurious: bool)
    requires Inv(s) && Enabled(s, Run(t, spurious)) && IsLocal(s, t, spurious) && InPop(s.threads[t])
    ensures var to := RunStep(s, t, s.threads[t], spurious).threads[t];
            RunStep(s, t, s.threads[t], spurious) == At(s, t, to) && ThreadOk(s, t, to) && (InPop(to) || to.Idle?)
  {
    assert ThreadOk(s, t, s.threads[t]);
    if s.threads[t].CCopy? {
      CopyKeeps(s, t);
    } else if s.threads[t].CLoadWt? {
      FindKeeps(s, t);
    }
  }

  lemma LocalRunKeeps(s: State, t: Tid, spurious: bool)
    requires Inv(s) && Enabled(s, Run(t, spurious)) && IsLocal(s, t, spurious)
    ensures Inv(Next(s, Run(t, spurious)))
  {
    if InPush(s.threads[t]) {
      LocalPushOk(s, t, spurious);
    } else {
      LocalPopOk(s, t, spurious);
    }
    MoveKeeps(s, t, RunStep(s, t, s.threads[t], spurious).threads[t]);
  }

  lemma StepKeeps(s: State, a: Action)
    requires Inv(s) && Enabled(s, a)
    ensures Inv(Next(s, a))
  {
    match a
    case StartPush(t, v) => MoveKeeps(s, t, PLoadCt(v));
    case StartPop(t) => MoveKeeps(s, t, CLoadRd);
    case Run(t, spurious) => RunKeeps(s, t, spurious);
  }

  // ---------------------------------------------------------------- runs

  ghost predicate Init(s: State) {
    && Shape(s)
    && s.rd == 0 && s.wt == 0 && s.ct == 0
    && s.claims == [] && s.owner == [] && s.mover == None && s.out == []
    && (forall i :: 0 <= i < SLOTS ==> s.cells[i].flag == None)
    && (forall t <- s.threads :: s.threads[t] == Idle)
  }

  ghost predicate Trace(ss: seq<State>, acts: seq<Action>) {
    && |ss| == |acts| + 1
    && Init(ss[0])
    && forall j :: 0 <= j < |acts| ==> Shape(ss[j]) && Enabled(ss[j], acts[j]) && ss[j + 1] == Next(ss[j], acts[j])
  }

  lemma {:induction false} TraceKeeps(ss: seq<State>, acts: seq<Action>, n: nat)
    requires Trace(ss, acts) && n < |ss|
    ensures Inv(ss[n])
  {
    if n == 0 {
      forall k: nat ensures IndexOk(ss[0], k) {
      }
      forall i | 0 <= i < SLOTS ensures FlagOk(ss[0], i) {
        assert ss[0].cells[i].flag == None;
      }
    } else {
      TraceKeeps(ss, acts, n - 1);
      StepKeeps(ss[n - 1], acts[n - 1]);
    }
  }

  // ---------------------------------------------------------------- main results

  /** In every interleaving, what `pop` returned so far is index 0, 1, 2, ..., each once, each with
      the whole payload of the producer that claimed the index. */
  lemma ConsumedInClaimOrder(ss: seq<State>, acts: seq<Action>, n: nat)
    requires Trace(ss, acts) && n < |ss|
    ensures |ss[n].out| == ss[n].rd <= |ss[n].claims|
    ensures forall j :: 0 <= j < |ss[n].out| ==> ss[n].out[j] == (j, ss[n].claims[j])
  {
    TraceKeeps(ss, acts, n);
  }

  /** The write index advances one at a time, and only past an index whose producer has written its
      whole payload and raised its flag. */
  lemma WriteIndexPassesCommitted(ss: seq<State>, acts: seq<Action>, n: nat)
    requires Trace(ss, acts) && n < |acts| && ss[n + 1].wt != ss[n].wt
    ensures ss[n + 1].wt == ss[n].wt + 1
    ensures Filled(ss[n], ss[n].wt) && !Writing(ss[n], ss[n].wt)
  {
    TraceKeeps(ss, acts, n);
    var s := ss[n];
    assert acts[n].Run? && ThreadOk(s, acts[n].t, s.threads[acts[n].t]);
  }

  /** The three counters never overtake each other and at most 255 indices are outstanding. */
  lemma NeverOverfull(ss: seq<State>, acts: seq<Action>, n: nat)
    requires Trace(ss, acts) && n < |ss|
    ensures ss[n].rd <= ss[n].wt <= ss[n].ct < ss[n].rd + SLOTS
  {
    TraceKeeps(ss, acts, n);
  }

  /** Nobody else is inside `push` or `pop`. */
  predicate AloneInside(s: State, t: Tid) {
    forall q <- s.threads :: q != t ==> s.threads[q].Idle?
  }

  /** Empty means empty: a `pop` that runs while nobody else is inside the ring reports "nothing to
      read" only when every claimed index has been consumed. */
  lemma {:induction false} EmptyOnlyWhenDrained(ss: seq<State>, acts: seq<Action>, m: nat, n: nat, t: Tid)
    requires Trace(ss, acts) && m < n < |acts| && acts[m] == StartPop(t)
    requires forall k :: m < k <= n ==> acts[k].Run? && acts[k].t == t
    requires forall k :: m < k <= n ==> t in ss[k].threads && !ss[k].threads[t].Idle?
    requires AloneInside(ss[m], t) && t in ss[n + 1].threads && ss[n + 1].threads[t].Idle?
    ensures ss[n + 1].out == ss[n].out ==> ss[n].rd == ss[n].ct
    ensures ss[n + 1].out != ss[n].out ==> ss[n].rd < ss[n].ct
  {
    SoloPopState(ss, acts, m, n, t);
    TraceKeeps(ss, acts, n);
    var s := ss[n];
    var pc := s.threads[t];
    assert ThreadOk(s, t, pc);
    if pc.CDecide? {
      assert IndexOk(s, s.wt);
      SameCell(s.rd, s.wt, s.rd);
      assert !Writing(s, s.wt);
      assert s.mover.None?;
    }
  }

  /** While it runs alone, the counters a `pop` has loaded stay current. */
  predicate Current(s: State, t: Tid)
    requires t in s.threads
  {
    match s.threads[t]
    case CLoadRd => true
    case CLoadWt(r) => r == s.rd
    case CDecide(r, w) => r == s.rd && w == s.wt
    case CTake(w) => true
    case CStore(w) => true
    case CCopy(r, _) => true
    case CCas(r, _) => true
    case _ => false
  }

  lemma {:induction false} SoloPopState(ss: seq<State>, acts: seq<Action>, m: nat, n: nat, t: Tid)
    requires Trace(ss, acts) && m < n < |acts| && acts[m] == StartPop(t)
    requires forall k :: m < k <= n ==> acts[k].Run? && acts[k].t == t
    requires forall k :: m < k <= n ==> t in ss[k].threads && !ss[k].threads[t].Idle?
    requires AloneInside(ss[m], t)
    ensures AloneInside(ss[n], t) && Current(ss[n], t)
  {
    assert ss[n] == Next(ss[n - 1], acts[n - 1]);
    if n > m + 1 {
      SoloPopState(ss, acts, m, n - 1, t);
    }
  }

  /** How far a `push` of `v` that runs alone has come since it was called in `s`. */
  predicate PushFollows(s: State, v: seq<int>, u: State, t: Tid)
    requires t in u.threads
  {
    var waits := u.claims == s.claims && u.ct == s.ct;
    var claimed := u.claims == s.claims + [v] && u.ct == s.ct + 1 && s.ct + 1 < s.rd + SLOTS;
    && u.rd == s.rd && u.out == s.out
    && match u.threads[t]
       case PLoadCt(w) => waits && w == v
       case PLoadRd(w, cur) => waits && w == v && cur == s.ct
       case PCas(w, cur) => waits && w == v && cur == s.ct
       case Idle => claimed || (waits && s.ct + 1 == s.rd + SLOTS)
       case pc => claimed && (pc.PWrite? || pc.PFlag? || pc.PLoop? || pc.PLoadWt? || pc.PTake? || pc.PStore?)
  }

  lemma PushStep(s: State, v: seq<int>, u: State, t: Tid, spurious: bool)
    requires Inv(u) && Enabled(u, Run(t, spurious)) && PushFollows(s, v, u, t)
    ensures PushFollows(s, v, Next(u, Run(t, spurious)), t)
  {
    hide FlagOk, IndexOk, MoverOk, OutOk;
    assert ThreadOk(u, t, u.threads[t]);
  }

  lemma {:induction false} SoloPushState(ss: seq<State>, acts: seq<Action>, m: nat, n: nat, t: Tid, v: seq<int>)
    requires Trace(ss, acts) && m < n < |ss| && acts[m] == StartPush(t, v)
    requires forall k :: m < k < n ==> acts[k].Run? && acts[k].t == t
    requires AloneInside(ss[m], t)
    ensures AloneInside(ss[n], t) && t in ss[n].threads && PushFollows(ss[m], v, ss[n], t)
  {
    hide PushFollows, Inv, Next, Enabled;
    assert ss[n] == Next(ss[n - 1], acts[n - 1]);
    if n > m + 1 {
      SoloPushState(ss, acts, m, n - 1, t, v);
      AloneStays(ss[n - 1], t, acts[n - 1]);
      TraceKeeps(ss, acts, n - 1);
      PushStep(ss[m], v, ss[n - 1], t, acts[n - 1].spurious);
    } else {
      AloneStays(ss[m], t, acts[m]);
      PushStarts(ss[m], t, v);
    }
  }

  lemma AloneStays(s: State, t: Tid, a: Action)
    requires Shape(s) && Enabled(s, a) && a.t == t && AloneInside(s, t)
    ensures t in Next(s, a).threads && AloneInside(Next(s, a), t)
  {
    hide Next, Enabled;
    MovesOnly(s, a);
  }

  /** Nobody else's program point moves. */
  predicate OnlyMoves(s: State, u: State, t: Tid) {
    && t in u.threads && u.threads.Keys == s.threads.Keys
    && forall q <- s.threads :: q != t ==> u.threads[q] == s.threads[q]
  }

  lemma MovesOnly(s: State, a: Action)
    requires Shape(s) && Enabled(s, a)
    ensures OnlyMoves(s, Next(s, a), a.t)
  {
    hide CellOf, OnlyMoves;
    var u := Next(s, a);
    assert u.threads == s.threads[a.t := u.threads[a.t]];
    OneMoved(s, u, a.t);
  }

  lemma OneMoved(s: State, u: State, t: Tid)
    requires t in s.threads && t in u.threads && u.threads == s.threads[t := u.threads[t]]
    ensures OnlyMoves(s, u, t)
  {
  }

  lemma PushStarts(s: State, t: Tid, v: seq<int>)
    requires Shape(s) && Enabled(s, StartPush(t, v))
    ensures PushFollows(s, v, Next(s, StartPush(t, v)), t)
  {
  }

  /** The same for the write index, when everything claimed before the call had been passed by it. */
  predicate PushAdvances(s: State, u: State, t: Tid)
    requires t in u.threads && Shape(u)
  {
    match u.threads[t]
    case PWrite(_, cur, _) => cur == s.ct == u.wt
    case PFlag(cur) => cur == s.ct == u.wt
    case PLoop(cur) => (cur == s.ct == u.wt && CellOf(u, cur).flag == Some(cur)) || cur == s.ct + 1 == u.wt
    case PLoadWt(cur, seen) =>
      || (cur == s.ct == u.wt && seen == Some(cur) && CellOf(u, cur).flag == Some(cur))
      || (cur == s.ct + 1 == u.wt && seen != Some(cur))
    case PTake(cur) => cur == s.ct == u.wt && CellOf(u, cur).flag == Some(cur)
    case PStore(cur) => cur == s.ct == u.wt
    case _ => u.wt == u.ct
  }

  lemma AdvanceStep(s: State, v: seq<int>, u: State, t: Tid, spurious: bool)
    requires Inv(u) && Enabled(u, Run(t, spurious)) && PushFollows(s, v, u, t)
    requires PushAdvances(s, u, t)
    ensures PushAdvances(s, Next(u, Run(t, spurious)), t)
  {
    hide IndexOk, MoverOk, OutOk;
    var pc := u.threads[t];
    assert ThreadOk(u, t, pc);
    if pc.PLoop? { assert FlagOk(u, IndexOf(pc.cur)); }
  }

  lemma {:induction false} SoloPushAdvances(ss: seq<State>, acts: seq<Action>, m: nat, n: nat, t: Tid, v: seq<int>)
    requires Trace(ss, acts) && m < n < |ss| && acts[m] == StartPush(t, v) && ss[m].wt == ss[m].ct
    requires forall k :: m < k < n ==> acts[k].Run? && acts[k].t == t
    requires AloneInside(ss[m], t)
    ensures t in ss[n].threads && Shape(ss[n]) && PushAdvances(ss[m], ss[n], t)
  {
    hide PushFollows, PushAdvances, Inv;
    assert ss[n] == Next(ss[n - 1], acts[n - 1]);
    if n > m + 1 {
      SoloPushAdvances(ss, acts, m, n - 1, t, v);
      SoloPushState(ss, acts, m, n - 1, t, v);
      TraceKeeps(ss, acts, n - 1);
      AdvanceStep(ss[m], v, ss[n - 1], t, acts[n - 1].spurious);
    } else {
      AdvanceStarts(ss[m], t, v);
    }
  }

  lemma AdvanceStarts(s: State, t: Tid, v: seq<int>)
    requires Shape(s) && Enabled(s, StartPush(t, v)) && s.wt == s.ct
    ensures PushAdvances(s, Next(s, StartPush(t, v)), t)
  {
  }

  /** Full means full: a `push` that runs while nobody else is inside the ring is refused if and only if 255
      indices are outstanding; otherwise its payload is claimed next, whole and committed, and the write
      index passes it if it had passed everything before. */
  lemma RefusedOnlyWhenFull(ss: seq<State>, acts: seq<Action>, m: nat, n: nat, t: Tid, v: seq<int>)
    requires Trace(ss, acts) && m < n < |ss| && acts[m] == StartPush(t, v)
    requires forall k :: m < k < n ==> acts[k].Run? && acts[k].t == t
    requires AloneInside(ss[m], t) && t in ss[n].threads && ss[n].threads[t].Idle?
    ensures Shape(ss[n]) && ss[n].rd == ss[m].rd && ss[n].out == ss[m].out
    ensures ss[m].ct - ss[m].rd == SLOTS - 1 ==> ss[n].claims == ss[m].claims && ss[n].ct == ss[m].ct
    ensures ss[m].ct - ss[m].rd < SLOTS - 1 ==>
              && ss[n].claims == ss[m].claims + [v] && ss[n].ct == ss[m].ct + 1
              && !Writing(ss[n], ss[m].ct) && Filled(ss[n], ss[m].ct)
    ensures ss[m].wt == ss[m].ct ==> ss[n].wt == ss[n].ct
  {
    SoloPushState(ss, acts, m, n, t, v);
    NeverOverfull(ss, acts, m);
    TraceKeeps(ss, acts, m);
    TraceKeeps(ss, acts, n);
    Committed(ss[n], ss[m].ct);
    if ss[m].wt == ss[m].ct { SoloPushAdvances(ss, acts, m, n, t, v); }
  }

  /** With nobody inside, every claimed index not yet consumed is filled. */
  lemma Committed(s: State, k: nat)
    requires Inv(s) && forall q <- s.threads :: s.threads[q].Idle?
    ensures !Writing(s, k) && (s.rd <= k < s.ct ==> Filled(s, k))
  {
    assert IndexOk(s, k) && s.mover.None?;
    if s.wt <= k < s.ct { assert FlagOk(s, IndexOf(k)); }
  }

  // ---------------------------------------------------------------- one thread at a time

  /** The flags of a ring nobody is inside: up for exactly the claimed indices the write index has
      not passed. */
  ghost predicate FlagsUp(flags: seq<Option<nat>>, wt: nat, ct: nat) {
    && |flags| == SLOTS
    && (forall k {:trigger IndexOf(k)} :: wt <= k < ct ==> flags[IndexOf(k)] == Some(k))
    && (forall i :: 0 <= i < SLOTS && flags[i].Some? ==> wt <= flags[i].value < ct && IndexOf(flags[i].value) == i)
  }

  lemma RaiseFlag(flags: seq<Option<nat>>, wt: nat, ct: nat)
    requires FlagsUp(flags, wt, ct) && wt <= ct && ct + 1 < wt + SLOTS + 1
    ensures FlagsUp(flags[IndexOf(ct) := Some(ct)], wt, ct + 1)
  {
    forall k | wt <= k < ct ensures IndexOf(k) != IndexOf(ct) {
      if IndexOf(k) == IndexOf(ct) { SameCell(k, ct, wt); }
    }
  }

  lemma LowerFlag(flags: seq<Option<nat>>, wt: nat, ct: nat)
    requires FlagsUp(flags, wt, ct) && wt < ct < wt + SLOTS
    ensures FlagsUp(flags[IndexOf(wt) := None], wt + 1, ct)
  {
    forall k | wt < k < ct ensures IndexOf(k) != IndexOf(wt) {
      if IndexOf(k) == IndexOf(wt) { SameCell(k, wt, wt); }
    }
  }

  /** The payloads waiting between two indices. */
  function Waiting(words: seq<seq<int>>, rd: nat, ct: nat): (q: seq<seq<int>>)
    requires |words| == SLOTS && rd <= ct
    ensures |q| == ct - rd
  {
    seq(ct - rd, j requires 0 <= j < ct - rd => words[IndexOf(rd + j)])
  }

  lemma OtherCell(j: nat, k: nat, rd: nat)
    requires rd <= j < k < rd + SLOTS
    ensures IndexOf(j) != IndexOf(k)
  {
  }

  lemma Append(words: seq<seq<int>>, rd: nat, ct: nat, v: seq<int>)
    requires |words| == SLOTS && rd <= ct && ct + 1 < rd + SLOTS + 1
    ensures Waiting(words[IndexOf(ct) := v], rd, ct + 1) == Waiting(words, rd, ct) + [v]
  {
    forall j | 0 <= j < ct - rd
      ensures Waiting(words[IndexOf(ct) := v], rd, ct + 1)[j] == Waiting(words, rd, ct)[j]
    {
      OtherCell(rd + j, ct, rd);
    }
  }

  /** The same ring updated in place by a thread that runs undisturbed. */
  class Elems {
    var rd: nat
    var wt: nat
    var ct: nat
    const words: array<seq<int>>
    const flags: array<Option<nat>>

    ghost predicate Valid()
      reads this, words, flags
    {
      && words.Length == SLOTS && flags.Length == SLOTS
      && rd <= wt <= ct < rd + SLOTS
      && FlagsUp(flags[..], wt, ct)
    }

    ghost function Contents(): (q: seq<seq<int>>)
      reads this, words
      requires words.Length == SLOTS && rd <= ct
    {
      Waiting(words[..], rd, ct)
    }

    constructor ()
      ensures Valid() && Contents() == [] && fresh(words) && fresh(flags)
    {
      rd, wt, ct := 0, 0, 0;
      words := new seq<int>[SLOTS](_ => []);
      flags := new Option<nat>[SLOTS](_ => None);
    }

    /** Take the flag at the write index and pass the index. */
    method PassOne()
      requires Valid() && wt < ct
      modifies this`wt, flags
      ensures Valid() && wt == old(wt) + 1
    {
      LowerFlag(flags[..], wt, ct);
      flags[IndexOf(wt)] := None;
      wt := wt + 1;
    }

    /** Refused exactly when 255 payloads are waiting; otherwise the payload goes to the end. */
    method Push(v: seq<int>) returns (ok: bool)
      requires Valid()
      modifies this, words, flags
      ensures Valid()
      ensures ok == (|old(Contents())| < SLOTS - 1)
      ensures Contents() == if ok then old(Contents()) + [v] else old(Contents())
    {
      var cur := ct;
      assert ct - rd < SLOTS - 1 <==> IndexOf(cur + 1) != IndexOf(rd);
      if IndexOf(cur + 1) == IndexOf(rd) { return false; }
      Append(words[..], rd, ct, v);
      RaiseFlag(flags[..], wt, ct);
      ct := cur + 1;
      words[IndexOf(cur)] := v;
      flags[IndexOf(cur)] := Some(cur);
      while true
        invariant Valid() && rd == old(rd) && ct == old(ct) + 1
        invariant Contents() == old(Contents()) + [v]
        decreases ct - wt
      {
        var seen := flags[IndexOf(cur)];
        if cur != wt || seen != Some(cur) { return true; }
        PassOne();
        cur := cur + 1;
      }
    }

    /** Reports empty exactly when nothing is waiting; otherwise takes the payload at the front. */
    method Pop() returns (v: Option<seq<int>>)
      requires Valid()
      modifies this, flags
      ensures Valid()
      ensures v == if old(Contents()) == [] then None else Some(old(Contents())[0])
      ensures Contents() == if old(Contents()) == [] then [] else old(Contents())[1..]
    {
      while true
        invariant Valid() && rd == old(rd) && ct == old(ct)
        invariant Contents() == old(Contents())
        decreases ct - wt
      {
        assert IndexOf(rd) == IndexOf(wt) <==> rd == wt;
        if IndexOf(rd) == IndexOf(wt) {
          if flags[IndexOf(wt)] != Some(wt) { return None; }
          PassOne();
        } else {
          v := Some(words[IndexOf(rd)]);
          rd := rd + 1;
          return v;
        }
      }
    }
  }
}
