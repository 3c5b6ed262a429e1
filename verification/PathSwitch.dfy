/** Switching a service channel from the socket to shared memory and back. Either role runs a
    supervisor thread beside the callers; the route is guarded by a mutex, everything else moves in
    between: the peer may come and go, and the thread may be told to stop, at any point. */
module PathSwitch {
  import opened Basics

  datatype Role = Server | Client

  /** What the mutex guards: which legs exist, the route flag, and whether the socket carries data. */
  datatype Route = Route(socket: bool, leg: bool, flag: bool, plane: bool)

  datatype Leg = Shm | Socket

  datatype Phase =
    | Probe | Negotiate
    | Waiting      // the client, for the server's word
    | Establish    // an attempt is in flight
    | GaveUp       // withdrawn, the fallback not yet counted
    | Active
    | Lost         // a runtime loss withdrawn, not yet counted
    | Done | Closed

  datatype State = State(
    role: Role, allow: bool,
    running: bool, up: bool, legUp: bool,
    route: Route,
    phase: Phase, attempted: bool,
    attempts: nat, successes: nat, fallbacks: nat,
    losses: nat,       // fallbacks of a path that had been switched
    connection: nat,   // connections seen
    tried: nat)        // attempts in this connection

  // ---------------------------------------------------------------- critical sections

  /** The new leg is there; nothing goes over it yet. */
  function Installed(r: Route): Route {
    r.(leg := true)
  }

  /** Old leg stopped, flag flipped. */
  function Switched(r: Route): Route {
    r.(plane := r.plane && !r.socket, flag := true)
  }

  function Withdrawn(r: Route): Route {
    r.(leg := false, plane := r.socket || r.plane, flag := false)
  }

  function TornDown(r: Route): Route {
    Route(false, false, false, false)
  }

  /** Which leg `send_request` hands a request to. */
  function Handed(r: Route): Option<Leg> {
    if r.flag then (if r.leg then Some(Shm) else None)
    else if r.socket then Some(Socket) else None
  }

  // ---------------------------------------------------------------- steps

  datatype Action =
    | PeerUp | PeerDown | LegUp | LegDown | Stop
    | Connect | Skip | NoEvidence | Refuse | Attempt
    | Await | PeerReady | PeerRejects | WaitOver
    | Install | Confirm | GiveUp | CountGiveUp
    | PeerGone | LegLost | CountLoss
    | Quit | TearDown

  /** The switch is allowed and has not been tried on this connection. */
  predicate MayTry(s: State) {
    s.phase == Negotiate && s.allow && !s.attempted
  }

  predicate Enabled(s: State, a: Action) {
    match a
    case PeerUp => true
    case PeerDown => true
    case LegUp => true
    case LegDown => true
    case Stop => true
    case Connect => s.phase == Probe && s.running && s.up
    case Skip => s.phase == Negotiate && !MayTry(s)
    case NoEvidence => MayTry(s)
    case Refuse => MayTry(s) && s.role == Server
    case Attempt => MayTry(s) && s.role == Server
    case Await => MayTry(s) && s.role == Client
    case PeerReady => s.phase == Waiting
    case PeerRejects => s.phase == Waiting
    case WaitOver => s.phase == Waiting
    case Install => s.phase == Establish && !s.route.leg
    case Confirm => s.phase == Establish && s.route.leg
    case GiveUp => s.phase == Establish
    case CountGiveUp => s.phase == GaveUp
    case PeerGone => s.phase == Active && !s.up
    case LegLost => s.phase == Active && s.route.flag && (!s.route.leg || !s.legUp)
    case CountLoss => s.phase == Lost
    case Quit => (s.phase == Probe || s.phase == Active) && !s.running
    case TearDown => s.phase == Done
  }

  function Next(s: State, a: Action): State
    requires Enabled(s, a)
  {
    match a
    case PeerUp => s.(up := true)
    case PeerDown => s.(up := false)
    case LegUp => s.(legUp := true)
    case LegDown => s.(legUp := false)
    case Stop => s.(running := false)
    case Connect => s.(phase := Negotiate, connection := s.connection + 1, tried := 0)
    case Skip => s.(phase := Active)
    case NoEvidence => s.(phase := Active)
    case Refuse => s.(phase := Active, attempted := true, attempts := s.attempts + 1,
                      fallbacks := s.fallbacks + 1, tried := s.tried + 1)
    case Attempt => s.(phase := Establish, attempted := true, attempts := s.attempts + 1, tried := s.tried + 1)
    case Await => s.(phase := Waiting, attempted := true)
    case PeerReady => s.(phase := Establish, attempts := s.attempts + 1, tried := s.tried + 1)
    case PeerRejects => s.(phase := Active, attempts := s.attempts + 1, fallbacks := s.fallbacks + 1,
                           tried := s.tried + 1)
    case WaitOver => s.(phase := Active)
    case Install => s.(route := Installed(s.route))
    case Confirm => s.(phase := Active, route := Switched(s.route), successes := s.successes + 1)
    case GiveUp => s.(phase := GaveUp, route := Withdrawn(s.route))
    case CountGiveUp => s.(phase := Active, fallbacks := s.fallbacks + 1)
    case PeerGone => s.(phase := Probe, route := Withdrawn(s.route), attempted := false)
    case LegLost => s.(phase := Lost, route := Withdrawn(s.route))
    case CountLoss => s.(phase := Active, fallbacks := s.fallbacks + 1, losses := s.losses + 1)
    case Quit => s.(phase := Done)
    case TearDown => s.(phase := Closed, route := TornDown(s.route))
  }

  /** Right after `InitChannel`: the socket leg alone, carrying data. */
  predicate Init(s: State) {
    && s.route == Route(true, false, false, true) && s.phase == Probe && !s.attempted && s.running
    && s.attempts == s.successes == s.fallbacks == s.losses == s.connection == s.tried == 0
  }

  predicate Allowed(s: State, acts: seq<Action>)
    decreases |acts|, 0
  {
    acts == [] || (Allowed(s, acts[..|acts| - 1]) && Enabled(After(s, acts[..|acts| - 1]), acts[|acts| - 1]))
  }

  function After(s: State, acts: seq<Action>): State
    requires Allowed(s, acts)
    decreases |acts|, 1
  {
    if acts == [] then s else Next(After(s, acts[..|acts| - 1]), acts[|acts| - 1])
  }

  // ---------------------------------------------------------------- the invariant

  predicate RouteOk(s: State) {
    if s.phase == Closed then s.route == Route(false, false, false, false)
    else
      && s.route.socket
      && (s.route.flag ==> s.route.leg)
      && (s.route.plane <==> !s.route.flag)
      && (s.phase != Establish && s.route.leg ==> s.route.flag)
      && (s.phase !in {Active, Done} ==> !s.route.flag)
  }

  predicate InFlight(s: State) {
    s.phase == Establish || s.phase == GaveUp
  }

  predicate Balanced(s: State) {
    s.attempts + s.losses == s.successes + s.fallbacks + (if InFlight(s) then 1 else 0)
  }

  predicate LossesCovered(s: State) {
    s.losses + (if s.route.flag || s.phase == Lost then 1 else 0) <= s.successes
  }

  predicate GuardOk(s: State) {
    && (s.phase == Probe || s.phase == Negotiate ==> !s.attempted)
    && (s.phase == Waiting || s.phase == Establish ==> s.attempted)
  }

  predicate OnceOk(s: State) {
    && s.tried <= 1
    && (s.phase == Negotiate || s.phase == Waiting ==> s.tried == 0)
    && (s.connection == 0 ==> s.tried == 0 && s.phase in {Probe, Done, Closed})
    && s.attempts <= (if s.connection == 0 then 0 else s.connection - 1 + s.tried)
  }

  predicate Inv(s: State) {
    RouteOk(s) && Balanced(s) && LossesCovered(s) && GuardOk(s) && OnceOk(s)
  }

  lemma StepKeepsRoute(s: State, a: Action)
    requires RouteOk(s) && Enabled(s, a)
    ensures RouteOk(Next(s, a))
  {
  }

  lemma StepKeepsBalance(s: State, a: Action)
    requires Balanced(s) && Enabled(s, a)
    ensures Balanced(Next(s, a))
  {
  }

  lemma StepKeepsCover(s: State, a: Action)
    requires RouteOk(s) && LossesCovered(s) && Enabled(s, a)
    ensures LossesCovered(Next(s, a))
  {
  }

  lemma StepKeepsGuard(s: State, a: Action)
    requires GuardOk(s) && Enabled(s, a)
    ensures GuardOk(Next(s, a))
  {
  }

  lemma StepKeepsOnce(s: State, a: Action)
    requires OnceOk(s) && Enabled(s, a)
    ensures OnceOk(Next(s, a))
  {
  }

  lemma StepKeepsInv(s: State, a: Action)
    requires Inv(s) && Enabled(s, a)
    ensures Inv(Next(s, a))
  {
    hide RouteOk, Balanced, LossesCovered, GuardOk, OnceOk, Next, Enabled;
    StepKeepsRoute(s, a);
    StepKeepsBalance(s, a);
    StepKeepsCover(s, a);
    StepKeepsGuard(s, a);
    StepKeepsOnce(s, a);
  }

  lemma StartsInv(s: State)
    requires Init(s)
    ensures Inv(s)
  {
  }

  lemma {:induction false} RunKeepsInv(s: State, acts: seq<Action>)
    requires Init(s) && Allowed(s, acts)
    ensures Inv(After(s, acts))
  {
    hide Next, Enabled, RouteOk, Balanced, LossesCovered, GuardOk, OnceOk;
    if acts == [] {
      StartsInv(s);
    } else {
      RunKeepsInv(s, acts[..|acts| - 1]);
      StepKeepsInv(After(s, acts[..|acts| - 1]), acts[|acts| - 1]);
    }
  }

  // ---------------------------------------------------------------- what it means

  /** With the mutex free, at any point of any run: a set flag means the shared-memory leg is there and
      the socket carries nothing; outside an attempt the leg is there only then; and a request goes to
      one leg, the one that is carrying data, until the channel is torn down. */
  lemma OneLegCarries(s: State, acts: seq<Action>)
    requires Init(s) && Allowed(s, acts)
    ensures var t := After(s, acts);
            && (t.route.flag ==> t.route.leg && !t.route.plane)
            && (t.phase != Establish ==> (t.route.leg <==> t.route.flag))
            && (t.phase != Closed ==> Handed(t.route) == Some(if t.route.plane then Socket else Shm))
            && (t.phase == Closed ==> Handed(t.route) == None)
  {
    RunKeepsInv(s, acts);
  }

  /** At most one attempt on a connection, and the counters balance whenever none is in flight. */
  lemma CountersBalance(s: State, acts: seq<Action>)
    requires Init(s) && Allowed(s, acts)
    ensures var t := After(s, acts);
            && t.tried <= 1 && t.attempts <= t.connection
            && t.losses <= t.successes
            && (!InFlight(t) ==> t.attempts + t.losses == t.successes + t.fallbacks)
            && (InFlight(t) ==> t.attempts + t.losses == t.successes + t.fallbacks + 1)
  {
    RunKeepsInv(s, acts);
  }

  /** How many of the steps are of one kind. */
  function Times(acts: seq<Action>, a: Action): nat {
    if acts == [] then 0 else Times(acts[..|acts| - 1], a) + if acts[|acts| - 1] == a then 1 else 0
  }

  /** The counters are so many events of each kind. */
  predicate Tallied(t: State, acts: seq<Action>) {
    && t.connection == Times(acts, Connect)
    && t.attempts == Times(acts, Refuse) + Times(acts, Attempt) + Times(acts, PeerReady) + Times(acts, PeerRejects)
    && t.successes == Times(acts, Confirm)
    && t.losses == Times(acts, CountLoss)
    && t.fallbacks == Times(acts, Refuse) + Times(acts, PeerRejects) + Times(acts, CountGiveUp)
                      + Times(acts, CountLoss)
  }

  /** Each counter is the number of the events it stands for: every decision for an attempt, refused ones
      included, counts once, and so does every way back to the socket. */
  lemma {:induction false} CountersCount(s: State, acts: seq<Action>)
    requires Init(s) && Allowed(s, acts)
    ensures Tallied(After(s, acts), acts)
  {
    hide Enabled, Next, Allowed, After, Tallied;
    LastStep(s, acts);
    if acts == [] {
      NoneTallied(s);
    } else {
      CountersCount(s, acts[..|acts| - 1]);
      StepTallies(After(s, acts[..|acts| - 1]), acts);
    }
  }

  lemma NoneTallied(s: State)
    requires Init(s)
    ensures Tallied(s, [])
  {
  }

  lemma StepTallies(s: State, acts: seq<Action>)
    requires acts != [] && Tallied(s, acts[..|acts| - 1]) && Enabled(s, acts[|acts| - 1])
    ensures Tallied(Next(s, acts[|acts| - 1]), acts)
  {
    hide Enabled, Next, Times;
    LastTimes(acts);
    StepCounts(s, acts[|acts| - 1]);
  }

  lemma LastTimes(acts: seq<Action>)
    ensures acts == [] ==> forall a :: Times(acts, a) == 0
    ensures acts != [] ==>
              forall a :: Times(acts, a) == Times(acts[..|acts| - 1], a) + if acts[|acts| - 1] == a then 1 else 0
  {
  }

  lemma LastStep(s: State, acts: seq<Action>)
    requires Allowed(s, acts)
    ensures acts == [] ==> After(s, acts) == s
    ensures acts != [] ==>
              var (was, a) := (acts[..|acts| - 1], acts[|acts| - 1]);
              Allowed(s, was) && Enabled(After(s, was), a) && After(s, acts) == Next(After(s, was), a)
  {
  }

  /** One step and the counters: connections, attempts, successes, fallbacks, losses. */
  predicate Counted(s: State, t: State, c: nat, at: nat, su: nat, fb: nat, lo: nat) {
    && t.connection == s.connection + c && t.attempts == s.attempts + at && t.successes == s.successes + su
    && t.fallbacks == s.fallbacks + fb && t.losses == s.losses + lo
  }

  lemma StepCounts(s: State, a: Action)
    requires Enabled(s, a)
    ensures match a
            case Connect => Counted(s, Next(s, a), 1, 0, 0, 0, 0)
            case Refuse => Counted(s, Next(s, a), 0, 1, 0, 1, 0)
            case Attempt => Counted(s, Next(s, a), 0, 1, 0, 0, 0)
            case PeerReady => Counted(s, Next(s, a), 0, 1, 0, 0, 0)
            case PeerRejects => Counted(s, Next(s, a), 0, 1, 0, 1, 0)
            case Confirm => Counted(s, Next(s, a), 0, 0, 1, 0, 0)
            case CountGiveUp => Counted(s, Next(s, a), 0, 0, 0, 1, 0)
            case CountLoss => Counted(s, Next(s, a), 0, 0, 0, 1, 1)
            case _ => Counted(s, Next(s, a), 0, 0, 0, 0, 0)
  {
  }

  /** The guard against a second attempt never refuses one: by the time the supervisor asks, it has
      been cleared. What bounds the attempts is that the question is asked once per connection. */
  lemma GuardIsNeverUsed(s: State, acts: seq<Action>)
    requires Init(s) && Allowed(s, acts) && After(s, acts).phase == Negotiate
    ensures MayTry(After(s, acts)) <==> s.allow
  {
    RunKeepsInv(s, acts);
    AllowStays(s, acts);
  }

  predicate SameTerms(s: State, t: State) {
    t.allow == s.allow && t.role == s.role
  }

  lemma StepKeepsRole(s: State, a: Action)
    requires Enabled(s, a)
    ensures SameTerms(s, Next(s, a))
  {
    hide Enabled, MayTry, Installed, Switched, Withdrawn, TornDown;
  }

  lemma {:induction false} AllowStays(s: State, acts: seq<Action>)
    requires Allowed(s, acts)
    ensures After(s, acts).allow == s.allow && After(s, acts).role == s.role
  {
    hide Next, Enabled;
    if acts != [] {
      AllowStays(s, acts[..|acts| - 1]);
      StepKeepsRole(After(s, acts[..|acts| - 1]), acts[|acts| - 1]);
    }
  }

  /** Whatever happened, an attempt in flight can end, and either end leaves one leg carrying data. */
  lemma AttemptCanEnd(s: State, acts: seq<Action>)
    requires Init(s) && Allowed(s, acts) && After(s, acts).phase == Establish
    ensures var t := After(s, acts);
            && Enabled(t, GiveUp) && Handed(Next(t, GiveUp).route) == Some(Socket) && Next(t, GiveUp).route.plane
            && (Enabled(t, Confirm) ==> Handed(Next(t, Confirm).route) == Some(Shm) && !Next(t, Confirm).route.plane)
  {
    RunKeepsInv(s, acts);
  }

  /** While a server serves a connection, the flag says whether an attempt was decided on it. */
  predicate FlagMeans(s: State) {
    s.role == Server && s.phase !in {Probe, Done, Closed} ==> s.phase != Waiting && (s.attempted <==> s.tried == 1)
  }

  lemma StepKeepsFlag(s: State, a: Action)
    requires FlagMeans(s) && GuardOk(s) && OnceOk(s) && Enabled(s, a)
    ensures FlagMeans(Next(s, a))
  {
  }

  lemma {:induction false} AttemptedMeansTried(s: State, acts: seq<Action>)
    requires Init(s) && Allowed(s, acts)
    ensures FlagMeans(After(s, acts))
  {
    hide Next, Enabled, RouteOk, Balanced, LossesCovered, GuardOk, OnceOk, FlagMeans;
    if acts == [] {
      StartsFlag(s);
    } else {
      AttemptedMeansTried(s, acts[..|acts| - 1]);
      RunKeepsInv(s, acts[..|acts| - 1]);
      StepKeepsFlag(After(s, acts[..|acts| - 1]), acts[|acts| - 1]);
    }
  }

  lemma StartsFlag(s: State)
    requires Init(s)
    ensures FlagMeans(s)
  {
  }

  /** What the peer, the leg and the owner of the thread do, not the supervisor. */
  predicate FromOutside(a: Action) {
    a.PeerUp? || a.PeerDown? || a.LegUp? || a.LegDown? || a.Stop?
  }

  /** Running, the peer there, and so is the leg if requests are handed to it. */
  predicate Healthy(s: State) {
    s.running && s.up && (Handed(s.route) == Some(Shm) ==> s.legUp)
  }

  /** While a path is active: it falls back to the socket exactly when requests go over shared memory and that
      leg has lost its peer, and starts over exactly when the peer is gone; a healthy path is left alone. */
  lemma FallsBackExactly(s: State, acts: seq<Action>)
    requires Init(s) && Allowed(s, acts) && After(s, acts).phase == Active
    ensures var t := After(s, acts);
            && (Enabled(t, LegLost) <==> Handed(t.route) == Some(Shm) && !t.legUp)
            && (Enabled(t, PeerGone) <==> !t.up)
            && (Healthy(t) <==> forall a :: Enabled(t, a) ==> FromOutside(a))
  {
    RunKeepsInv(s, acts);
    var t := After(s, acts);
    if !Healthy(t) {
      assert Enabled(t, LegLost) || Enabled(t, PeerGone) || Enabled(t, Quit);
    }
  }

  /** After either of them the socket carries data and gets the requests; a lost leg is counted and not tried
      again on this connection, a lost peer leaves the next connection free to try. */
  lemma AfterFallingBack(s: State, acts: seq<Action>)
    requires Init(s) && Allowed(s, acts) && After(s, acts).phase == Active
    ensures var t := After(s, acts);
            && (Enabled(t, LegLost) ==>
                  var l := Next(t, LegLost);
                  && Enabled(l, CountLoss)
                  && var u := Next(l, CountLoss);
                     && u.route == Route(true, false, false, true) && u.phase == Active
                     && u.fallbacks == t.fallbacks + 1 && u.losses == t.losses + 1 && !MayTry(u))
            && (Enabled(t, PeerGone) ==>
                  var u := Next(t, PeerGone);
                  u.route == Route(true, false, false, true) && u.phase == Probe && !u.attempted)
  {
    RunKeepsInv(s, acts);
  }

  /** The supervisor waits for the others only where it is meant to: for a peer to appear, or while a path is
      active and healthy. Otherwise it has a step of its own until the channel is closed. */
  lemma NeverStuck(s: State, acts: seq<Action>)
    requires Init(s) && Allowed(s, acts)
    ensures var t := After(s, acts);
            (forall a :: Enabled(t, a) ==> FromOutside(a))
            <==> t.phase == Closed || (t.phase == Probe && t.running && !t.up) || (t.phase == Active && Healthy(t))
  {
    hide Next, Enabled, After, FromOutside, Healthy;
    var t := After(s, acts);
    if t.phase == Active {
      FallsBackExactly(s, acts);
    } else if t.phase == Closed || (t.phase == Probe && t.running && !t.up) {
      WaitsOutside(t);
    } else {
      var a := OwnStep(t);
    }
  }

  lemma WaitsOutside(s: State)
    requires s.phase == Closed || (s.phase == Probe && s.running && !s.up)
    ensures forall a :: Enabled(s, a) ==> FromOutside(a)
  {
  }

  lemma OwnStep(s: State) returns (a: Action)
    requires s.phase !in {Active, Closed} && (s.phase == Probe ==> s.up || !s.running)
    ensures Enabled(s, a) && !FromOutside(a)
  {
    a := match s.phase
      case Probe => if s.running then Connect else Quit
      case Negotiate => if MayTry(s) then NoEvidence else Skip
      case Waiting => WaitOver
      case Establish => GiveUp
      case GaveUp => CountGiveUp
      case Lost => CountLoss
      case _ => TearDown;
  }

  /** The shortest way out of each phase. */
  function Leave(p: Phase): Action {
    match p
    case Negotiate => NoEvidence
    case Waiting => WaitOver
    case Establish => GiveUp
    case GaveUp => CountGiveUp
    case Lost => CountLoss
    case Done => TearDown
    case _ => Quit
  }

  function Distance(p: Phase): nat {
    match p
    case Closed => 0
    case Done => 1
    case Probe => 2
    case Active => 2
    case Establish => 4
    case _ => 3
  }

  lemma LeaveStep(s: State)
    requires s.phase != Closed && !s.running && (s.phase == Negotiate ==> MayTry(s))
    ensures var a := Leave(s.phase);
            Enabled(s, a) && !FromOutside(a) && !Next(s, a).running && Distance(Next(s, a).phase) < Distance(s.phase)
            && Next(s, a).phase != Negotiate
  {
  }

  /** Told to stop, the supervisor can come to the end by steps of its own, whatever it was in the middle of:
      the channel is closed and every leg gone. */
  lemma {:induction false} StopCloses(s: State, acts: seq<Action>) returns (own: seq<Action>)
    requires Init(s) && Allowed(s, acts) && !After(s, acts).running
    ensures (forall a <- own :: !FromOutside(a)) && Allowed(s, acts + own)
    ensures After(s, acts + own).phase == Closed && After(s, acts + own).route == Route(false, false, false, false)
    decreases After(s, acts).phase == Negotiate, Distance(After(s, acts).phase)
  {
    hide Enabled, Next, Allowed, After, FromOutside, MayTry;
    var t := After(s, acts);
    if t.phase == Closed {
      own := [];
      RunKeepsInv(s, acts);
      assert acts + [] == acts;
    } else {
      var a := if t.phase == Negotiate && !MayTry(t) then Skip else Leave(t.phase);
      if a == Skip { SkipStep(t); } else { LeaveStep(t); }
      AfterNext(s, acts, a);
      var rest := StopCloses(s, acts + [a]);
      own := [a] + rest;
      assert acts + own == acts + [a] + rest;
    }
  }

  lemma SkipStep(s: State)
    requires s.phase == Negotiate && !MayTry(s) && !s.running
    ensures Enabled(s, Skip) && !FromOutside(Skip) && Next(s, Skip).phase == Active && !Next(s, Skip).running
  {
  }

  lemma AfterNext(s: State, acts: seq<Action>, a: Action)
    requires Allowed(s, acts) && Enabled(After(s, acts), a)
    ensures Allowed(s, acts + [a]) && After(s, acts + [a]) == Next(After(s, acts), a)
  {
    assert (acts + [a])[..|acts + [a]| - 1] == acts;
  }

  /** How a connection gets to shared memory. */
  function WayToShm(role: Role): seq<Action> {
    if role == Server then [Connect, Attempt, Install, Confirm] else [Connect, Await, PeerReady, Install, Confirm]
  }

  /** Whatever happened on earlier connections, a new one can be switched when that is allowed: the steps of
      either role end with requests handed to shared memory, the socket silent, one more attempt and success. */
  lemma SwitchGoesThrough(s: State, acts: seq<Action>)
    requires Init(s) && Allowed(s, acts) && s.allow
    requires After(s, acts).phase == Probe && After(s, acts).running && After(s, acts).up
    ensures Allowed(s, acts + WayToShm(s.role))
    ensures var (t, u) := (After(s, acts), After(s, acts + WayToShm(s.role)));
            && u.phase == Active && Handed(u.route) == Some(Shm) && !u.route.plane
            && u.attempts == t.attempts + 1 && u.successes == t.successes + 1 && u.fallbacks == t.fallbacks
  {
    hide Allowed, After;
    RunKeepsInv(s, acts);
    AllowStays(s, acts);
    var c := acts + [Connect];
    AfterNext(s, acts, Connect);
    if s.role == Server {
      var d := c + [Attempt];
      AfterNext(s, c, Attempt);
      SwitchEnds(s, d);
      assert acts + WayToShm(s.role) == d + [Install] + [Confirm];
    } else {
      var d := c + [Await] + [PeerReady];
      AfterNext(s, c, Await);
      AfterNext(s, c + [Await], PeerReady);
      SwitchEnds(s, d);
      assert acts + WayToShm(s.role) == d + [Install] + [Confirm];
    }
  }

  lemma SwitchEnds(s: State, acts: seq<Action>)
    requires Allowed(s, acts) && After(s, acts).phase == Establish && !After(s, acts).route.leg
    requires After(s, acts).route.socket
    ensures Allowed(s, acts + [Install] + [Confirm])
    ensures var (t, u) := (After(s, acts), After(s, acts + [Install] + [Confirm]));
            && u.phase == Active && Handed(u.route) == Some(Shm) && !u.route.plane
            && u.attempts == t.attempts && u.successes == t.successes + 1 && u.fallbacks == t.fallbacks
  {
    hide Allowed, After;
    AfterNext(s, acts, Install);
    AfterNext(s, acts + [Install], Confirm);
  }

  // ---------------------------------------------------------------- the guarded object

  /** The fields under the mutex and the bodies of the sections that hold it. */
  class Channel {
    var useShm: bool
    var shmLeg: bool
    var socketLeg: bool
    var dataPlane: bool
    /** Requests handed to each leg. */
    var viaShm: nat
    var viaSocket: nat

    ghost function Model(): Route
      reads this
    {
      Route(socketLeg, shmLeg, useShm, dataPlane)
    }

    /** What holds whenever the mutex is free: requests routed to shared memory find a leg there, and
        the socket carries data exactly when they are not. */
    ghost predicate Valid()
      reads this
    {
      (useShm ==> shmLeg) && (dataPlane ==> socketLeg) && (socketLeg ==> (dataPlane <==> !useShm))
    }

    constructor ()
      ensures Valid() && Model() == Route(true, false, false, true) && viaShm == 0 && viaSocket == 0
    {
      useShm, shmLeg, socketLeg, dataPlane, viaShm, viaSocket := false, false, true, true, 0, 0;
    }

    /** A leg that is only there yet changes nothing for the callers. */
    method InstallLeg()
      requires Valid()
      modifies this
      ensures Valid() && Handed(Model()) == old(Handed(Model())) && shmLeg
      ensures Model() == Installed(old(Model())) && viaShm == old(viaShm) && viaSocket == old(viaSocket)
    {
      shmLeg := true;
    }

    /** From here on requests go to the new leg, and the old one is silent: no request can be handed to
        both, and none is lost between them. */
    method SwitchToShm()
      requires Valid() && shmLeg
      modifies this
      ensures Valid() && Handed(Model()) == Some(Shm) && !dataPlane
      ensures Model() == Switched(old(Model())) && viaShm == old(viaShm) && viaSocket == old(viaSocket)
    {
      if socketLeg { dataPlane := false; }
      useShm := true;
    }

    /** Whatever the state of an attempt: no leg is left behind that would occupy the channel for the
        next connection, and requests go to a socket that carries data again. */
    method WithdrawToSocket()
      requires Valid()
      modifies this
      ensures Valid() && !shmLeg
      ensures socketLeg ==> Handed(Model()) == Some(Socket) && dataPlane
      ensures Model() == Withdrawn(old(Model())) && viaShm == old(viaShm) && viaSocket == old(viaSocket)
    {
      shmLeg := false;
      if socketLeg && !dataPlane { dataPlane := true; }
      useShm := false;
    }

    method TeardownAll()
      requires Valid()
      modifies this
      ensures Valid() && Handed(Model()) == None && !shmLeg && !dataPlane
      ensures Model() == TornDown(old(Model())) && viaShm == old(viaShm) && viaSocket == old(viaSocket)
    {
      shmLeg := false;
      socketLeg, dataPlane := false, false;
      useShm := false;
    }

    /** A request is handed to the leg the model names and to no other; without one it fails. */
    method SendRequest() returns (handed: bool)
      modifies this`viaShm, this`viaSocket
      ensures handed == Handed(Model()).Some?
      ensures viaShm == old(viaShm) + (if Handed(Model()) == Some(Shm) then 1 else 0)
      ensures viaSocket == old(viaSocket) + (if Handed(Model()) == Some(Socket) then 1 else 0)
    {
      if useShm {
        if shmLeg {
          viaShm := viaShm + 1;
          return true;
        }
        return false;
      }
      if socketLeg {
        viaSocket := viaSocket + 1;
        return true;
      }
      return false;
    }
  }
}
