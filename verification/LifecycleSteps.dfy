/** Every action keeps the invariant: one group of actions after the other. */
module LifecycleSteps {
  import opened Bytes
  import opened Lifecycle
  import opened LifecycleSafety

  // ---- callers ----

  /** Callers touch only their own status and the channel. */
  lemma CallerFrame(s: State, a: CallerAction)
    requires CallerEnabled(s, a)
    ensures var s' := CallerApply(s, a);
            s' == s.(shutdownReady := s'.shutdownReady, cmds := s'.cmds, queue := s'.queue, sent := s'.sent)
  {
  }

  lemma CallerCommands(s: State, a: CallerAction)
    requires CommandsWell(s) && CallerEnabled(s, a)
    ensures CommandsWell(CallerApply(s, a))
  {
    hide CommandsWell;
    match a
    case ShutdownSignal => CommandsUntouched(s, CallerApply(s, a));
    case BindFails(cmd) => CallerFails(s, cmd);
    case CallRebind(cmd) => CallerStarts(s, cmd);
    case SendFails(cmd) => CallerFails(s, cmd);
    case ReplyDropped(cmd) => CallerFails(s, cmd);
    case CallReturns(cmd) => CallerSucceeds(s, cmd);
    case Send(cmd) => CommandSent(s, cmd); assert s.queue + [cmd] == [cmd];
  }

  lemma CallerInv(cfg: Config, s: State, a: CallerAction)
    requires Inv(cfg, s) && CallerEnabled(s, a)
    ensures Inv(cfg, CallerApply(s, a))
  {
    hide PermitsWell;
    hide GensWell;
    hide CommandsWell;
    hide FinalWell;
    hide CallerApply;
    var s' := CallerApply(s, a);
    CallerFrame(s, a);
    PermitsUntouched(cfg, s, s');
    GensUntouched(s, s');
    CallerCommands(s, a);
    FinalUntouched(cfg, s, s');
  }

  // ---- the race ----

  lemma RacePermits(cfg: Config, s: State, a: RaceAction)
    requires PermitsWell(cfg, s) && RaceEnabled(s, a)
    ensures PermitsWell(cfg, RaceApply(s, a))
  {
    hide PermitsWell;
    hide DropAccept;
    DropAcceptFrame(s);
    var s' := RaceApply(s, a);
    match a
    case AcquirePermit => PermitAcquired(cfg, s);
    case AcceptClient(c) => ClientAccepted(cfg, s, c);
    case AcceptError => AcceptFailed(cfg, s);
    case BackoffEnds => BackoffOver(cfg, s, s');
    case ShutdownWins => AcceptDropped(cfg, s, s');
    case TakeRebind => AcceptDropped(cfg, s, s');
    case _ => PermitsUntouched(cfg, s, s');
  }

  /** What the race leaves alone. */
  lemma RaceFrame(s: State, a: RaceAction)
    requires RaceEnabled(s, a)
    ensures var s' := RaceApply(s, a);
            && s'.gens == s.gens && s'.drainHeld == s.drainHeld && s'.installed == s.installed
            && (if a.AcceptClient? then s'.conns == s.conns[a.c := Conn(s.Current(), false, Serving)]
                else s'.conns == s.conns)
            && (s'.pc.Race? || s'.pc.SettingFlag? || s'.pc.ShutdownFlag?)
  {
    hide DropAccept;
    DropAcceptFrame(s);
  }

  lemma RaceGens(s: State, a: RaceAction)
    requires GensWell(s) && RaceEnabled(s, a)
    ensures GensWell(RaceApply(s, a))
  {
    hide GensWell;
    RaceFrame(s, a);
    if a.AcceptClient? {
      ConnectionJoins(s, RaceApply(s, a), a.c, false);
    } else {
      hide RaceApply;
      GensUntouched(s, RaceApply(s, a));
    }
  }

  lemma RaceCommands(s: State, a: RaceAction)
    requires CommandsWell(s) && RaceEnabled(s, a)
    ensures CommandsWell(RaceApply(s, a))
  {
    hide CommandsWell;
    hide DropAccept;
    DropAcceptFrame(s);
    var s' := RaceApply(s, a);
    match a
    case TakeRebind => CommandTaken(s, s');
    case ShutdownWins => ChannelCloses(s, s');
    case _ => CommandsUntouched(s, s');
  }

  lemma RaceInv(cfg: Config, s: State, a: RaceAction)
    requires Inv(cfg, s) && RaceEnabled(s, a)
    ensures Inv(cfg, RaceApply(s, a))
  {
    hide PermitsWell;
    hide GensWell;
    hide CommandsWell;
    hide FinalWell;
    hide RaceApply;
    RacePermits(cfg, s, a);
    RaceGens(s, a);
    RaceCommands(s, a);
    RaceFrame(s, a);
    DrainHeldOnlyWhenJoining(cfg, s);
    FinalElsewhere(cfg, s, RaceApply(s, a));
  }

  // ---- rebind ----

  lemma RebindPermits(cfg: Config, s: State, a: RebindAction)
    requires PermitsWell(cfg, s) && RebindEnabled(s, a)
    ensures PermitsWell(cfg, RebindApply(s, a))
  {
    hide PermitsWell;
    match a
    case RecoverOne(c) => ConnectionRecovered(cfg, s, c);
    case SpawnRecovered => RecoveredSpawned(cfg, s);
    case _ => PermitsUntouched(cfg, s, RebindApply(s, a));
  }

  lemma RebindGens(s: State, a: RebindAction)
    requires GensWell(s) && RebindEnabled(s, a)
    ensures GensWell(RebindApply(s, a))
  {
    hide GensWell;
    var s' := RebindApply(s, a);
    match a
    case SetFlag => CurrentTold(s, s', s.gens[s.Current()].(flag := true));
    case SpawnRecovered => ConnectionJoins(s, s', s.pc.found[0], true);
    case Retire => CurrentRetires(s, s');
    case _ => GensUntouched(s, s');
  }

  lemma RebindCommands(s: State, a: RebindAction)
    requires CommandsWell(s) && RebindEnabled(s, a)
    ensures CommandsWell(RebindApply(s, a))
  {
    hide CommandsWell;
    var s' := RebindApply(s, a);
    match a
    case Swap => CommandInstalled(s, s');
    case Reply => CommandAnswered(s, s');
    case _ => CommandsUntouched(s, s');
  }

  lemma RebindFrame(s: State, a: RebindAction)
    requires RebindEnabled(s, a)
    ensures var s' := RebindApply(s, a);
            && !s.pc.Joining? && s'.drainHeld == s.drainHeld && !s'.pc.Joining? && !s'.pc.Returned?
            && s'.channelClosed == s.channelClosed
            && (if a.SpawnRecovered? then s'.conns == s.conns[s.pc.found[0] := Conn(s.Current(), true, Serving)]
                else s'.conns == s.conns)
            && (!a.SetFlag? && !a.Retire? ==> s'.gens == s.gens)
            && (!a.Reply? ==> s'.cmds == s.cmds)
            && (!a.Swap? ==> s'.installed == s.installed)
  {
  }

  lemma RebindInv(cfg: Config, s: State, a: RebindAction)
    requires Inv(cfg, s) && RebindEnabled(s, a)
    ensures Inv(cfg, RebindApply(s, a))
  {
    hide PermitsWell;
    hide GensWell;
    hide CommandsWell;
    hide FinalWell;
    hide RebindApply;
    RebindPermits(cfg, s, a);
    RebindGens(s, a);
    RebindCommands(s, a);
    RebindFrame(s, a);
    DrainHeldOnlyWhenJoining(cfg, s);
    FinalElsewhere(cfg, s, RebindApply(s, a));
  }

  // ---- background drains ----

  /** A drain task touches only its own generation. */
  lemma DrainFrame(s: State, a: DrainAction)
    requires DrainEnabled(s, a)
    ensures DrainApply(s, a) == s.(gens := DrainApply(s, a).gens) && |DrainApply(s, a).gens| == |s.gens|
  {
  }

  lemma DrainGens(s: State, a: DrainAction)
    requires GensWell(s) && DrainEnabled(s, a)
    ensures GensWell(DrainApply(s, a))
  {
    hide GensWell;
    DrainProgresses(s, a.g, DrainApply(s, a).gens[a.g]);
  }

  lemma DrainInv(cfg: Config, s: State, a: DrainAction)
    requires Inv(cfg, s) && DrainEnabled(s, a)
    ensures Inv(cfg, DrainApply(s, a))
  {
    hide PermitsWell;
    hide GensWell;
    hide CommandsWell;
    hide FinalWell;
    hide DrainApply;
    var s' := DrainApply(s, a);
    DrainFrame(s, a);
    DrainGens(s, a);
    PermitsUntouched(cfg, s, s');
    CommandsUntouched(s, s');
    FinalUntouched(cfg, s, s');
  }

  // ---- connections ----

  /** The phase a connection's action leads to. */
  function NextPhase(a: ConnAction): ConnPhase {
    if a.CheckFlag? then Checked else if a.Delegate? then Session else Gone
  }

  /** A connection touches only itself and its permit. */
  lemma ConnFrame(s: State, a: ConnAction)
    requires ConnEnabled(s, a)
    ensures var s' := ConnApply(s, a);
            && s' == s.(conns := s'.conns, holders := s'.holders, available := s'.available)
            && a.c in s.conns && s'.conns == SetPhase(s, a.c, NextPhase(a)).conns
  {
  }

  lemma ConnPermits(cfg: Config, s: State, a: ConnAction)
    requires PermitsWell(cfg, s) && ConnEnabled(s, a)
    ensures PermitsWell(cfg, ConnApply(s, a))
  {
    hide PermitsWell;
    match a
    case CheckFlag(c) => FlagChecked(cfg, s, c);
    case Delegate(c) => HandOver(cfg, s, c);
    case EndHttp(c) => TaskEnds(cfg, s, c);
    case AbortTask(c) => TaskEnds(cfg, s, c);
    case EndSession(c) => SessionEnds(cfg, s, c);
  }

  lemma ConnGens(s: State, a: ConnAction)
    requires GensWell(s) && ConnEnabled(s, a)
    ensures GensWell(ConnApply(s, a))
  {
    hide GensWell;
    hide ConnApply;
    ConnFrame(s, a);
    PhaseMoves(s, ConnApply(s, a), a.c, NextPhase(a));
  }

  lemma ConnFinal(cfg: Config, s: State, a: ConnAction)
    requires FinalWell(cfg, s) && OwnersExact(s) && ConnEnabled(s, a)
    ensures FinalWell(cfg, ConnApply(s, a))
  {
    hide FinalWell;
    hide OwnersExact;
    hide ConnApply;
    ConnFrame(s, a);
    FinalConnection(cfg, s, ConnApply(s, a), a.c, NextPhase(a));
  }

  lemma ConnInv(cfg: Config, s: State, a: ConnAction)
    requires Inv(cfg, s) && ConnEnabled(s, a)
    ensures Inv(cfg, ConnApply(s, a))
  {
    hide PermitsConserved;
    hide OwnersExact;
    hide GensWell;
    hide CommandsWell;
    hide FinalWell;
    hide ConnApply;
    hide ConnEnabled;
    ConnFrame(s, a);
    ConnPermits(cfg, s, a);
    ConnGens(s, a);
    CommandsUntouched(s, ConnApply(s, a));
    ConnFinal(cfg, s, a);
  }

  // ---- the final shutdown ----

  lemma FinalPermits(cfg: Config, s: State, a: FinalAction)
    requires PermitsWell(cfg, s) && FinalWell(cfg, s) && FinalEnabled(cfg, s, a)
    ensures PermitsWell(cfg, FinalApply(cfg, s, a))
  {
    hide PermitsWell;
    hide DropAccept;
    hide Config.DrainTotal;
    DropAcceptFrame(s);
    var s' := FinalApply(cfg, s, a);
    match a
    case AllPermitsBack => HeldMoves(cfg, s, s');
    case FinalJoined => HeldMoves(cfg, s, s');
    case Abandon => Abandonment(cfg, s, s');
    case _ => PermitsUntouched(cfg, s, s');
  }

  lemma FinalGens(cfg: Config, s: State, a: FinalAction)
    requires GensWell(s) && FinalEnabled(cfg, s, a)
    ensures GensWell(FinalApply(cfg, s, a))
  {
    hide GensWell;
    hide DropAccept;
    var s' := FinalApply(cfg, s, a);
    match a
    case SetFinalFlag => CurrentTold(s, s', s.gens[s.Current()].(flag := true));
    case FireFinal => CurrentTold(s, s', s.gens[s.Current()].(fired := true));
    case Abandon =>
      DropAcceptFrame(s);
      CurrentTold(s, s', s.gens[s.Current()].(dropped := true));
    case _ => GensUntouched(s, s');
  }

  lemma FinalCommands(cfg: Config, s: State, a: FinalAction)
    requires CommandsWell(s) && FinalEnabled(cfg, s, a)
    ensures CommandsWell(FinalApply(cfg, s, a))
  {
    hide CommandsWell;
    hide DropAccept;
    var s' := FinalApply(cfg, s, a);
    if a.Abandon? {
      DropAcceptFrame(s);
      ChannelCloses(s, s');
    } else {
      CommandsUntouched(s, s');
    }
  }

  /** The final shutdown leaves connections and commands alone. */
  lemma FinalFrame(cfg: Config, s: State, a: FinalAction)
    requires FinalEnabled(cfg, s, a)
    ensures var s' := FinalApply(cfg, s, a);
            s'.conns == s.conns && s'.cmds == s.cmds && s'.installed == s.installed
  {
    hide DropAccept;
    hide Config.DrainTotal;
    DropAcceptFrame(s);
  }

  lemma FinalFinal(cfg: Config, s: State, a: FinalAction)
    requires FinalWell(cfg, s) && PermitsConserved(cfg, s) && FinalEnabled(cfg, s, a)
    ensures FinalWell(cfg, FinalApply(cfg, s, a))
  {
    hide Config.Permits;
    hide Config.DrainTotal;
    hide DropAccept;
    if a.AllPermitsBack? && cfg.Permits() <= U32_MAX {
      AllBack(cfg, s);
    }
  }

  lemma FinalInv(cfg: Config, s: State, a: FinalAction)
    requires Inv(cfg, s) && FinalEnabled(cfg, s, a)
    ensures Inv(cfg, FinalApply(cfg, s, a))
  {
    hide PermitsConserved;
    hide OwnersExact;
    hide GensWell;
    hide CommandsWell;
    hide FinalWell;
    hide FinalApply;
    hide FinalEnabled;
    FinalPermits(cfg, s, a);
    FinalGens(cfg, s, a);
    FinalCommands(cfg, s, a);
    FinalFinal(cfg, s, a);
  }

  // ---- all of them ----

  lemma StepInv(cfg: Config, s: State, a: Action)
    requires Inv(cfg, s) && Enabled(cfg, s, a)
    ensures Inv(cfg, Apply(cfg, s, a))
  {
    hide Inv;
    hide CallerApply;
    hide RaceApply;
    hide RebindApply;
    hide DrainApply;
    hide ConnApply;
    hide FinalApply;
    match a
    case ByCaller(b) => CallerInv(cfg, s, b);
    case ByRace(b) => RaceInv(cfg, s, b);
    case ByRebind(b) => RebindInv(cfg, s, b);
    case ByDrain(b) => DrainInv(cfg, s, b);
    case ByConn(b) => ConnInv(cfg, s, b);
    case ByFinal(b) => FinalInv(cfg, s, b);
  }

  /** Every run keeps the invariant. */
  lemma {:induction false} RunInv(cfg: Config, s: State, actions: seq<Action>)
    requires Inv(cfg, s) && Run(cfg, s, actions).Some?
    ensures Inv(cfg, Run(cfg, s, actions).value)
  {
    hide Inv;
    hide Enabled;
    hide Apply;
    if actions != [] {
      RunInv(cfg, s, actions[..|actions| - 1]);
      StepInv(cfg, Run(cfg, s, actions[..|actions| - 1]).value, actions[|actions| - 1]);
    }
  }

  lemma ReachableInv(cfg: Config, s: State)
    requires Reachable(cfg, s)
    ensures Inv(cfg, s)
  {
    hide Inv;
    var actions: seq<Action> :| Run(cfg, Init(cfg), actions) == Some(s);
    InitInv(cfg);
    RunInv(cfg, Init(cfg), actions);
  }
}
