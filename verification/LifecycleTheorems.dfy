/** The promises of the server's lifecycle, for every run. */
module LifecycleTheorems {
  import opened Bytes
  import opened Lifecycle
  import opened LifecycleSafety
  import opened LifecycleSteps
  import opened LifecycleRuns

  // ---- permits ----

  /** Connections served by an HTTP task, of whatever generation. */
  function HttpTasks(s: State): set<ConnId> {
    set c | c in s.conns && s.conns[c].HttpAlive()
  }

  /** Detached sessions, of whatever generation. */
  function Sessions(s: State): set<ConnId> {
    set c | c in s.conns && s.conns[c].phase.Session?
  }

  /** Every permit accounted for, owner by owner. */
  function PermitsCounted(s: State): nat {
    s.available + (if s.accept.HoldingPermit? then 1 else 0) + |Found(s)| + |HttpTasks(s)| + |Sessions(s)| + s.drainHeld
  }

  datatype Kind = RecoveredKind | TaskKind | SessionKind

  function OwnerOf(kind: Kind, c: ConnId): Holder {
    match kind
    case RecoveredKind => Recovered(c)
    case TaskKind => HttpTask(c)
    case SessionKind => SessionTask(c)
  }

  function OwnersOf(kind: Kind, ids: set<ConnId>): set<Holder> {
    set c | c in ids :: OwnerOf(kind, c)
  }

  lemma {:induction false} OneOwnerEach(kind: Kind, ids: set<ConnId>)
    ensures |OwnersOf(kind, ids)| == |ids|
    decreases ids
  {
    if ids != {} {
      var c :| c in ids;
      var rest := ids - {c};
      OneOwnerEach(kind, rest);
      assert OwnersOf(kind, ids) == OwnersOf(kind, rest) + {OwnerOf(kind, c)};
      assert OwnerOf(kind, c) !in OwnersOf(kind, rest);
    }
  }

  function Ids(xs: seq<ConnId>): set<ConnId> {
    set c | c in xs
  }

  lemma {:induction false} DistinctSize(xs: seq<ConnId>)
    requires Distinct(xs)
    ensures |Ids(xs)| == |xs|
  {
    if xs != [] {
      var n := |xs| - 1;
      DistinctSize(xs[..n]);
      assert xs == xs[..n] + [xs[n]];
      assert Ids(xs) == Ids(xs[..n]) + {xs[n]};
      assert xs[n] !in Ids(xs[..n]);
    }
  }

  function AcceptOwner(s: State): set<Holder> {
    if s.accept.HoldingPermit? then {AcceptFuture} else {}
  }

  function AllOwners(s: State): set<Holder> {
    AcceptOwner(s) + OwnersOf(RecoveredKind, Ids(Found(s))) + OwnersOf(TaskKind, HttpTasks(s))
    + OwnersOf(SessionKind, Sessions(s))
  }

  lemma OwnersListed(s: State)
    requires OwnersExact(s)
    ensures s.holders == AllOwners(s)
  {
    forall h ensures h in s.holders <==> h in AllOwners(s) {
      match h
      case AcceptFuture =>
      case Recovered(c) => assert OwnerOf(RecoveredKind, c) == h;
      case HttpTask(c) => assert OwnerOf(TaskKind, c) == h;
      case SessionTask(c) => assert OwnerOf(SessionKind, c) == h;
    }
  }

  lemma OwnersCounted(s: State)
    requires OwnersExact(s)
    ensures |s.holders| == |AcceptOwner(s)| + |Found(s)| + |HttpTasks(s)| + |Sessions(s)|
  {
    OwnersListed(s);
    DistinctSize(Found(s));
    OneOwnerEach(RecoveredKind, Ids(Found(s)));
    OneOwnerEach(TaskKind, HttpTasks(s));
    OneOwnerEach(SessionKind, Sessions(s));
    Disjoint4(AcceptOwner(s), OwnersOf(RecoveredKind, Ids(Found(s))), OwnersOf(TaskKind, HttpTasks(s)),
              OwnersOf(SessionKind, Sessions(s)));
  }

  lemma Disjoint4<T>(a: set<T>, b: set<T>, c: set<T>, d: set<T>)
    requires a !! b && a !! c && a !! d && b !! c && b !! d && c !! d
    ensures |a + b + c + d| == |a| + |b| + |c| + |d|
  {
  }

  /**
    In every reachable state the free permits, the one of the accept in flight,
    those of recovered connections, of HTTP tasks and of sessions of all
    generations, and those of the final drain, are exactly the configured ones.
   */
  lemma PermitConservation(cfg: Config, s: State)
    requires Reachable(cfg, s)
    ensures PermitsCounted(s) == if cfg.maxConnections == 0 then 1 else cfg.maxConnections
    ensures |HttpTasks(s)| + |Sessions(s)| <= if cfg.maxConnections == 0 then 1 else cfg.maxConnections
    ensures |s.conns| >= |HttpTasks(s)| + |Sessions(s)| && HttpTasks(s) !! Sessions(s)
  {
    hide GensWell;
    hide CommandsWell;
    hide FinalWell;
    hide OwnersExact;
    hide Reachable;
    ReachableInv(cfg, s);
    OwnersCounted(s);
    var live := HttpTasks(s) + Sessions(s);
    assert live <= s.conns.Keys;
    LiveWithinKnown(live, s.conns.Keys);
  }

  lemma LiveWithinKnown<T>(xs: set<T>, ys: set<T>)
    requires xs <= ys
    ensures |xs| <= |ys|
  {
    assert ys == xs + (ys - xs);
  }

  /** A rebind recovers at most 1024 connections from the old backlog. */
  lemma RecoveryIsBounded(cfg: Config, s: State)
    requires Reachable(cfg, s)
    ensures |Found(s)| <= 1024
  {
    hide Reachable;
    hide GensWell;
    hide CommandsWell;
    hide FinalWell;
    ReachableInv(cfg, s);
  }

  /** A connection that ended has given its permit back once: it never owns one again. */
  lemma NeverReleasedTwice(cfg: Config, s: State, s': State, c: ConnId)
    requires Reachable(cfg, s) && Leads(cfg, s, s') && HasPhase(s, c, Gone)
    ensures c !in HttpTasks(s') && c !in Sessions(s') && c !in Found(s')
    ensures HttpTask(c) !in s'.holders && SessionTask(c) !in s'.holders && Recovered(c) !in s'.holders
  {
    hide GensWell;
    hide CommandsWell;
    hide FinalWell;
    hide PermitsConserved;
    hide GensForward;
    hide CommandsForward;
    hide Reachable;
    hide Leads;
    LaterStates(cfg, s, s');
  }

  // ---- cancellation ----

  /** The connection's generation is over: replaced by a rebind, shut down, or abandoned by the caller. */
  predicate GenerationOver(s: State, g: GenId) {
    g < |s.gens| && (g < |s.gens| - 1 || CancelIsFired(s.pc) || s.pc.Abandoned?)
  }

  /**
    A generation that is over observes its cancel, now and in every later state;
    or it was retired, and its drain task's first step, ready to run, fires it.
   */
  lemma CancelCoverage(cfg: Config, s: State, g: GenId)
    requires Reachable(cfg, s) && GenerationOver(s, g)
    ensures g < |s.gens| - 1 ==> s.gens[g].flag
    ensures var fire := ByDrain(DrainFire(g));
            s.gens[g].CancelObserved() || (Enabled(cfg, s, fire) && Apply(cfg, s, fire).gens[g].fired)
    ensures forall s' :: Leads(cfg, s, s') && s.gens[g].CancelObserved() ==>
              g < |s'.gens| && s'.gens[g].CancelObserved()
  {
    hide PermitsWell;
    hide CommandsWell;
    hide FinalWell;
    hide Reachable;
    hide Leads;
    hide DrainEnabled;
    hide DrainApply;
    hide Forward;
    ReachableInv(cfg, s);
    CoveredNow(s, g);
    forall s' | Leads(cfg, s, s') && s.gens[g].CancelObserved()
      ensures g < |s'.gens| && s'.gens[g].CancelObserved()
    {
      LaterStates(cfg, s, s');
      ObservedStays(s, s', g);
    }
  }

  lemma CoveredNow(s: State, g: GenId)
    requires GensWell(s) && GenerationOver(s, g)
    ensures g < |s.gens| - 1 ==> s.gens[g].flag
    ensures s.gens[g].CancelObserved() || (DrainEnabled(s, DrainFire(g)) && DrainApply(s, DrainFire(g)).gens[g].fired)
  {
  }

  lemma ObservedStays(s: State, s': State, g: GenId)
    requires Forward(s, s') && g < |s.gens| && s.gens[g].CancelObserved()
    ensures g < |s'.gens| && s'.gens[g].CancelObserved()
  {
  }

  /** A retired generation gets no connection any more: those it has later, it has now. */
  lemma RetiredAcceptsNothing(cfg: Config, s: State, s': State, c: ConnId)
    requires Reachable(cfg, s) && Leads(cfg, s, s')
    requires c in s'.conns && s'.conns[c].gen < |s.gens| - 1
    ensures c in s.conns && s.conns[c].gen == s'.conns[c].gen
    ensures Told(s', s'.conns[c].gen)
  {
    hide PermitsWell;
    hide CommandsWell;
    hide FinalWell;
    hide CommandsForward;
    hide Reachable;
    hide Leads;
    LaterStates(cfg, s, s');
  }

  /** Once its generation is told to stop, a connection not yet past the check is never upgraded. */
  lemma NoUpgradeAfterFlag(cfg: Config, s: State, s': State, c: ConnId)
    requires Reachable(cfg, s) && Leads(cfg, s, s')
    requires HasPhase(s, c, Serving) && Told(s, s.conns[c].gen)
    ensures HasPhase(s', c, Serving) || HasPhase(s', c, Gone)
  {
    hide PermitsWell;
    hide GensWell;
    hide CommandsWell;
    hide FinalWell;
    hide GensForward;
    hide CommandsForward;
    hide Reachable;
    hide Leads;
    LaterStates(cfg, s, s');
  }

  /** A connection recovered from the old backlog is never upgraded. */
  lemma RecoveredNeverUpgrades(cfg: Config, s: State, c: ConnId)
    requires Reachable(cfg, s) && c in s.conns && s.conns[c].recovered
    ensures Told(s, s.conns[c].gen)
    ensures !s.conns[c].phase.Checked? && !s.conns[c].phase.Session?
  {
    hide PermitsWell;
    hide CommandsWell;
    hide FinalWell;
    hide Reachable;
    ReachableInv(cfg, s);
  }

  /** A task is aborted only once its generation was told to stop and has observed its cancel. */
  lemma AbortedOnlyAfterCancel(cfg: Config, s: State, c: ConnId)
    requires Reachable(cfg, s) && ConnEnabled(s, AbortTask(c))
    ensures Told(s, s.conns[c].gen) && s.gens[s.conns[c].gen].fired
  {
    hide Reachable;
    hide PermitsWell;
    hide CommandsWell;
    hide FinalWell;
    ReachableInv(cfg, s);
  }

  /** Every generation whose drain has finished has no HTTP task left. */
  predicate DrainsHonest(s: State) {
    forall g :: 0 <= g < |s.gens| && s.gens[g].drain.Finished? ==> s.NoTasks(g)
  }

  /** A drain that has finished after a step had finished before, or the step found no task left. */
  ghost predicate DrainsKept(s: State, s': State) {
    forall g :: 0 <= g < |s'.gens| && s'.gens[g].drain.Finished? ==>
      g < |s.gens| - 1 && (s.gens[g].drain.Finished? || (s.NoTasks(g) && s'.conns == s.conns))
  }

  lemma DrainsStill(s: State, s': State)
    requires GensWell(s) && s'.gens == s.gens
    ensures DrainsKept(s, s')
  {
  }

  lemma RebindDrains(s: State, a: RebindAction)
    requires GensWell(s) && RebindEnabled(s, a)
    ensures DrainsKept(s, RebindApply(s, a))
  {
  }

  lemma FinalDrains(cfg: Config, s: State, a: FinalAction)
    requires GensWell(s) && FinalEnabled(cfg, s, a)
    ensures DrainsKept(s, FinalApply(cfg, s, a))
  {
    hide DropAccept;
    hide Config.DrainTotal;
    DropAcceptFrame(s);
  }

  lemma DrainDrains(s: State, a: DrainAction)
    requires GensWell(s) && DrainEnabled(s, a)
    ensures DrainsKept(s, DrainApply(s, a))
  {
  }

  lemma DrainsMove(cfg: Config, s: State, a: Action)
    requires GensWell(s) && Enabled(cfg, s, a)
    ensures DrainsKept(s, Apply(cfg, s, a))
  {
    hide GensWell;
    hide DrainsKept;
    hide CallerApply;
    hide RaceApply;
    hide RebindApply;
    hide DrainApply;
    hide ConnApply;
    hide FinalApply;
    match a
    case ByCaller(b) => CallerFrame(s, b); DrainsStill(s, CallerApply(s, b));
    case ByRace(b) => RaceFrame(s, b); DrainsStill(s, RaceApply(s, b));
    case ByRebind(b) => RebindDrains(s, b);
    case ByDrain(b) => DrainDrains(s, b);
    case ByConn(b) => ConnFrame(s, b); DrainsStill(s, ConnApply(s, b));
    case ByFinal(b) => FinalDrains(cfg, s, b);
  }

  lemma DrainsStayHonest(cfg: Config, s: State, a: Action)
    requires Inv(cfg, s) && DrainsHonest(s) && Enabled(cfg, s, a)
    ensures DrainsHonest(Apply(cfg, s, a))
  {
    hide PermitsWell;
    hide CommandsWell;
    hide FinalWell;
    hide Enabled;
    hide Apply;
    DrainsMove(cfg, s, a);
    StepForward(cfg, s, a);
  }

  lemma {:induction false} RunsKeepDrainsHonest(cfg: Config, actions: seq<Action>)
    requires Run(cfg, Init(cfg), actions).Some?
    ensures Inv(cfg, Run(cfg, Init(cfg), actions).value) && DrainsHonest(Run(cfg, Init(cfg), actions).value)
  {
    hide Inv;
    hide DrainsHonest;
    hide Enabled;
    hide Apply;
    InitInv(cfg);
    RunInv(cfg, Init(cfg), actions);
    if actions == [] {
      FreshDrains(cfg);
    } else {
      RunsKeepDrainsHonest(cfg, actions[..|actions| - 1]);
      DrainsStayHonest(cfg, Run(cfg, Init(cfg), actions[..|actions| - 1]).value, actions[|actions| - 1]);
    }
  }

  lemma FreshDrains(cfg: Config)
    ensures DrainsHonest(Init(cfg))
  {
  }

  /** A drain that has finished has left no HTTP task of its generation, now or later. */
  lemma FinishedMeansDrained(cfg: Config, s: State, g: GenId)
    requires Reachable(cfg, s) && g < |s.gens| && s.gens[g].drain.Finished?
    ensures s.NoTasks(g)
  {
    hide Inv;
    var actions: seq<Action> :| Run(cfg, Init(cfg), actions) == Some(s);
    RunsKeepDrainsHonest(cfg, actions);
  }

  // ---- rebind ----

  /** Commands are installed in the order in which they were sent, none skipped. */
  lemma InstallsInChannelOrder(cfg: Config, s: State)
    requires Reachable(cfg, s)
    ensures s.installed <= s.taken <= s.sent
    ensures |s.sent| <= |s.installed| + 2 || s.channelClosed
    ensures Distinct(s.installed)
  {
    hide PermitsWell;
    hide GensWell;
    hide FinalWell;
    hide Reachable;
    ReachableInv(cfg, s);
  }

  /** A call that has returned returned Ok exactly if its listener was installed. */
  lemma OkMeansInstalled(cfg: Config, s: State, cmd: CmdId)
    requires Reachable(cfg, s)
    requires HasStatus(s, cmd, ReturnedOk) || HasStatus(s, cmd, ReturnedErr)
    ensures HasStatus(s, cmd, ReturnedOk) <==> cmd in s.installed
    ensures forall s' :: Leads(cfg, s, s') ==> (cmd in s'.installed <==> cmd in s.installed)
  {
    hide PermitsWell;
    hide GensWell;
    hide FinalWell;
    hide Reachable;
    hide Leads;
    hide GensForward;
    hide ConnsForward;
    ReachableInv(cfg, s);
    forall s' | Leads(cfg, s, s') ensures cmd in s'.installed <==> cmd in s.installed {
      LaterStates(cfg, s, s');
    }
  }

  /** A failed bind concerns its caller alone: nothing else changes, and it is never installed. */
  lemma FailedBindChangesNothing(cfg: Config, s: State, cmd: CmdId, s': State)
    requires Reachable(cfg, s) && Enabled(cfg, s, ByCaller(BindFails(cmd)))
    requires Leads(cfg, Apply(cfg, s, ByCaller(BindFails(cmd))), s')
    ensures Apply(cfg, s, ByCaller(BindFails(cmd))).(cmds := s.cmds) == s
    ensures HasStatus(s', cmd, ReturnedErr) && cmd !in s'.installed
  {
    hide Leads;
    hide Inv;
    hide Forward;
    ReachableStep(cfg, s, ByCaller(BindFails(cmd)));
    LaterStates(cfg, Apply(cfg, s, ByCaller(BindFails(cmd))), s');
    ErrorStays(cfg, Apply(cfg, s, ByCaller(BindFails(cmd))), s', cmd);
  }

  lemma ErrorStays(cfg: Config, s: State, s': State, cmd: CmdId)
    requires Inv(cfg, s') && Forward(s, s') && HasStatus(s, cmd, ReturnedErr)
    ensures HasStatus(s', cmd, ReturnedErr) && cmd !in s'.installed
  {
  }

  /**
    After shutdown has won the race (or the caller has gone) nothing is installed
    any more; a call still waiting, or started later, can only end in an error,
    and the step that gives it that error is ready to run.
   */
  lemma NothingInstalledAfterShutdown(cfg: Config, s: State, s': State, cmd: CmdId)
    requires Reachable(cfg, s) && Leads(cfg, s, s') && PastShutdown(s.pc)
    ensures s'.installed == s.installed
    ensures cmd !in s.cmds && cmd in s'.cmds ==> HasStatus(s', cmd, Sending) || HasStatus(s', cmd, ReturnedErr)
    ensures HasStatus(s, cmd, Sending) || HasStatus(s, cmd, Queued) ==>
              HasStatus(s', cmd, ReturnedErr) || HasStatus(s', cmd, s.cmds[cmd])
    ensures HasStatus(s', cmd, Sending) ==> Enabled(cfg, s', ByCaller(SendFails(cmd)))
    ensures HasStatus(s', cmd, Queued) ==> Enabled(cfg, s', ByCaller(ReplyDropped(cmd)))
    ensures !HasStatus(s', cmd, Taken)
  {
    hide Leads;
    hide PermitsWell;
    hide GensWell;
    hide FinalWell;
    hide CommandsWell;
    hide GensForward;
    hide ConnsForward;
    hide CommandsForward;
    LaterStates(cfg, s, s');
    ShutdownStaysPast(s, s');
    ClosedForGood(s, s', cmd);
    NothingUnderway(s', cmd);
  }

  lemma ShutdownStaysPast(s: State, s': State)
    requires CommandsWell(s) && CommandsWell(s') && CommandsForward(s, s') && PastShutdown(s.pc)
    ensures PastShutdown(s'.pc) && s.channelClosed && s'.channelClosed
  {
  }

  lemma ClosedForGood(s: State, s': State, cmd: CmdId)
    requires CommandsForward(s, s') && s.channelClosed
    ensures s'.installed == s.installed
    ensures cmd !in s.cmds && cmd in s'.cmds ==> HasStatus(s', cmd, Sending) || HasStatus(s', cmd, ReturnedErr)
    ensures HasStatus(s, cmd, Sending) || HasStatus(s, cmd, Queued) ==>
              HasStatus(s', cmd, ReturnedErr) || HasStatus(s', cmd, s.cmds[cmd])
  {
  }

  lemma NothingUnderway(s: State, cmd: CmdId)
    requires CommandsWell(s) && PastShutdown(s.pc)
    ensures !HasStatus(s, cmd, Taken)
  {
  }

  // ---- the final drain ----

  /** Every connection of every generation has ended. */
  predicate NothingAlive(s: State) {
    forall c :: c in s.conns ==> s.conns[c].phase.Gone?
  }

  /** A clean return leaves no task and no session of any generation, now or later. */
  lemma FinalDrainComplete(cfg: Config, s: State, s': State)
    requires Reachable(cfg, s) && s.pc == Returned(true) && cfg.Permits() <= U32_MAX && Leads(cfg, s, s')
    ensures NothingAlive(s')
    ensures s'.available == cfg.Permits()
  {
    hide GensWell;
    hide CommandsWell;
    hide GensForward;
    hide ConnsForward;
    hide CommandsForward;
    hide Reachable;
    hide Leads;
    LaterStates(cfg, s, s');
    forall c | c in s'.conns ensures s'.conns[c].phase.Gone? {
      assert HttpTask(c) !in s'.holders && SessionTask(c) !in s'.holders;
    }
  }

  /** Clean or not, a return leaves no HTTP task of the current generation. */
  lemma ReturnLeavesNoTask(cfg: Config, s: State)
    requires Reachable(cfg, s) && s.pc.Returned?
    ensures s.gens != [] && s.NoTasks(s.Current())
    ensures s.gens[s.Current()].flag && s.gens[s.Current()].fired
  {
    hide PermitsWell;
    hide CommandsWell;
    hide Reachable;
    ReachableInv(cfg, s);
  }

  lemma ReachableStep(cfg: Config, s: State, a: Action)
    requires Reachable(cfg, s) && Enabled(cfg, s, a)
    ensures Reachable(cfg, Apply(cfg, s, a))
  {
    hide Enabled;
    hide Apply;
    var actions: seq<Action> :| Run(cfg, Init(cfg), actions) == Some(s);
    var longer := actions + [a];
    assert longer[..|longer| - 1] == actions;
    assert Run(cfg, Init(cfg), longer) == Some(Apply(cfg, s, a));
  }

  /** A state with one connection, in `phase`, its permit held by `owner`. */
  function OneConnection(cfg: Config, pc: Pc, phase: ConnPhase, owner: Holder, gen: Generation, stopping: bool): State {
    State(pc, WaitingForPermit, cfg.Permits() - 1, {owner}, 0, [gen], map[0 := Conn(0, false, phase)],
          stopping, stopping && !pc.Race?, [], map[], [], [], [])
  }

  lemma ConnectionArrives(cfg: Config)
    ensures Reachable(cfg, OneConnection(cfg, Race(PollShutdown), Serving, HttpTask(0), FreshGeneration, false))
  {
    hide Reachable;
    var s0 := Init(cfg);
    InitReachable(cfg);
    ReachableStep(cfg, s0, ByRace(ShutdownNotReady));
    var s1 := Apply(cfg, s0, ByRace(ShutdownNotReady));
    ReachableStep(cfg, s1, ByRace(NoRebind));
    var s2 := Apply(cfg, s1, ByRace(NoRebind));
    ReachableStep(cfg, s2, ByRace(AcquirePermit));
    var s3 := Apply(cfg, s2, ByRace(AcquirePermit));
    ReachableStep(cfg, s3, ByRace(AcceptClient(0)));
    var s4 := OneConnection(cfg, Race(PollShutdown), Serving, HttpTask(0), FreshGeneration, false);
    assert s4.holders == s3.holders - {AcceptFuture} + {HttpTask(0)};
    assert Apply(cfg, s3, ByRace(AcceptClient(0))) == s4;
  }

  lemma InitReachable(cfg: Config)
    ensures Reachable(cfg, Init(cfg))
  {
    assert Run(cfg, Init(cfg), []) == Some(Init(cfg));
  }

  lemma ConnectionUpgrades(cfg: Config)
    ensures Reachable(cfg, OneConnection(cfg, Race(PollShutdown), Session, SessionTask(0), FreshGeneration, true))
  {
    hide Reachable;
    ConnectionArrives(cfg);
    var s0 := OneConnection(cfg, Race(PollShutdown), Serving, HttpTask(0), FreshGeneration, false);
    ReachableStep(cfg, s0, ByConn(CheckFlag(0)));
    var s1 := OneConnection(cfg, Race(PollShutdown), Checked, HttpTask(0), FreshGeneration, false);
    assert Apply(cfg, s0, ByConn(CheckFlag(0))) == s1;
    ReachableStep(cfg, s1, ByConn(Delegate(0)));
    var s2 := OneConnection(cfg, Race(PollShutdown), Session, SessionTask(0), FreshGeneration, false);
    assert s2.holders == s1.holders - {HttpTask(0)} + {SessionTask(0)};
    assert Apply(cfg, s1, ByConn(Delegate(0))) == s2;
    ReachableStep(cfg, s2, ByCaller(ShutdownSignal));
  }

  /** Shutdown wins while that connection is alive. */
  lemma ShutdownMeanwhile(cfg: Config, phase: ConnPhase, owner: Holder)
    requires Reachable(cfg, OneConnection(cfg, Race(PollShutdown), phase, owner, FreshGeneration, true))
    ensures Reachable(cfg, OneConnection(cfg, WaitingForPermits, phase, owner, StoppedGeneration, true))
  {
    hide Reachable;
    var s0 := OneConnection(cfg, Race(PollShutdown), phase, owner, FreshGeneration, true);
    ReachableStep(cfg, s0, ByRace(ShutdownWins));
    var s1 := OneConnection(cfg, ShutdownFlag, phase, owner, FreshGeneration, true);
    assert Apply(cfg, s0, ByRace(ShutdownWins)) == s1;
    ReachableStep(cfg, s1, ByFinal(SetFinalFlag));
    var s2 := OneConnection(cfg, ShutdownFire, phase, owner, FreshGeneration.(flag := true), true);
    assert Apply(cfg, s1, ByFinal(SetFinalFlag)) == s2;
    ReachableStep(cfg, s2, ByFinal(FireFinal));
    var s3 := OneConnection(cfg, DroppingListener, phase, owner, StoppedGeneration, true);
    assert Apply(cfg, s2, ByFinal(FireFinal)) == s3;
    ReachableStep(cfg, s3, ByFinal(DropListener));
  }

  const StoppedGeneration: Generation := Generation(true, true, false, NotSpawned)

  lemma SessionAwaitsDrain(cfg: Config)
    ensures Reachable(cfg, OneConnection(cfg, WaitingForPermits, Session, SessionTask(0), StoppedGeneration, true))
  {
    hide Reachable;
    ConnectionUpgrades(cfg);
    ShutdownMeanwhile(cfg, Session, SessionTask(0));
  }

  lemma TaskAwaitsDrain(cfg: Config)
    ensures Reachable(cfg, OneConnection(cfg, WaitingForPermits, Serving, HttpTask(0), StoppedGeneration, true))
  {
    hide Reachable;
    ConnectionArrives(cfg);
    var s := OneConnection(cfg, Race(PollShutdown), Serving, HttpTask(0), FreshGeneration, false);
    ReachableStep(cfg, s, ByCaller(ShutdownSignal));
    assert Apply(cfg, s, ByCaller(ShutdownSignal))
        == OneConnection(cfg, Race(PollShutdown), Serving, HttpTask(0), FreshGeneration, true);
    ShutdownMeanwhile(cfg, Serving, HttpTask(0));
  }

  /** With more permits than the drain can ask for, a clean return may leave a session behind. */
  lemma SessionOutlivesCleanReturn(cfg: Config) returns (s: State)
    requires cfg.Permits() > U32_MAX
    ensures Reachable(cfg, s) && s.pc == Returned(true) && !NothingAlive(s)
  {
    hide Reachable;
    SessionAwaitsDrain(cfg);
    var s0 := OneConnection(cfg, WaitingForPermits, Session, SessionTask(0), StoppedGeneration, true);
    ReachableStep(cfg, s0, ByFinal(AllPermitsBack));
    var s1 := Apply(cfg, s0, ByFinal(AllPermitsBack));
    ReachableStep(cfg, s1, ByFinal(FinalJoined));
    s := Apply(cfg, s1, ByFinal(FinalJoined));
    assert HasPhase(s, 0, Session);
  }

  /** When the grace period runs out, a session may be left behind whatever the configuration. */
  lemma SessionOutlivesGrace(cfg: Config) returns (s: State)
    ensures Reachable(cfg, s) && s.pc == Returned(false) && !NothingAlive(s)
  {
    hide Reachable;
    SessionAwaitsDrain(cfg);
    var s0 := OneConnection(cfg, WaitingForPermits, Session, SessionTask(0), StoppedGeneration, true);
    ReachableStep(cfg, s0, ByFinal(GraceOver));
    var s1 := Apply(cfg, s0, ByFinal(GraceOver));
    ReachableStep(cfg, s1, ByFinal(FinalAborted));
    s := Apply(cfg, s1, ByFinal(FinalAborted));
    assert HasPhase(s, 0, Session);
  }

  /** Every clean return leaves nothing alive exactly when the permits fit the 32-bit request. */
  lemma CleanReturnIsCompleteExactlyWhen(cfg: Config)
    ensures (forall s :: Reachable(cfg, s) && s.pc == Returned(true) ==> NothingAlive(s))
        <==> cfg.maxConnections <= 0xFFFF_FFFF
  {
    hide Reachable;
    hide NothingAlive;
    if cfg.maxConnections <= U32_MAX {
      forall s | Reachable(cfg, s) && s.pc == Returned(true) ensures NothingAlive(s) {
        LeadsToItself(cfg, s);
        FinalDrainComplete(cfg, s, s);
      }
    } else {
      var s := SessionOutlivesCleanReturn(cfg);
    }
  }

  lemma LeadsToItself(cfg: Config, s: State)
    ensures Leads(cfg, s, s)
  {
    assert Run(cfg, s, []) == Some(s);
  }
}
