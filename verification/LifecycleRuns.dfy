/** What never goes back along a run of the server: the relation between a state and any later one. */
module LifecycleRuns {
  import opened Bytes
  import opened Lifecycle
  import opened LifecycleSafety
  import opened LifecycleSteps

  /** Generations are only added, and what one has been told stays told. */
  ghost predicate GensForward(s: State, s': State) {
    && |s.gens| <= |s'.gens|
    && (forall g :: 0 <= g < |s.gens| ==>
          && (s.gens[g].flag ==> s'.gens[g].flag)
          && (s.gens[g].CancelObserved() ==> s'.gens[g].CancelObserved()))
  }

  /** What may become of a connection of a generation that was (`told`) to stop or not. */
  predicate ConnForward(told: bool, conn: Conn, conn': Conn) {
    && conn'.gen == conn.gen && conn'.recovered == conn.recovered
    && (conn.phase.Gone? ==> conn'.phase.Gone?)
    && (conn.phase.Session? ==> conn'.phase.Session? || conn'.phase.Gone?)
    && (conn.phase.Serving? && told ==> conn'.phase.Serving? || conn'.phase.Gone?)
  }

  predicate Told(s: State, g: GenId) {
    g < |s.gens| && s.gens[g].flag
  }

  /** Connections keep their generation and never come back; retired generations get no new one. */
  ghost predicate ConnsForward(s: State, s': State) {
    && (forall c :: c in s.conns ==> c in s'.conns && ConnForward(Told(s, s.conns[c].gen), s.conns[c], s'.conns[c]))
    && (forall c :: c in s'.conns && s'.conns[c].gen < |s.gens| - 1 ==> c in s.conns)
  }

  /** A call that returned has returned; a closed channel leaves a waiting call only the error. */
  predicate StatusForward(closed: bool, status: CmdStatus, status': CmdStatus) {
    && (status.ReturnedErr? || status.ReturnedOk? ==> status' == status)
    && (closed && (status.Sending? || status.Queued?) ==> status' == status || status'.ReturnedErr?)
  }

  ghost predicate CommandsForward(s: State, s': State) {
    && s.installed <= s'.installed
    && (s.channelClosed ==> s'.channelClosed && s'.installed == s.installed)
    && (forall cmd :: cmd in s.cmds ==> cmd in s'.cmds && StatusForward(s.channelClosed, s.cmds[cmd], s'.cmds[cmd]))
    && (s.channelClosed ==>
          forall cmd :: cmd in s'.cmds && cmd !in s.cmds ==> s'.cmds[cmd].Sending? || s'.cmds[cmd].ReturnedErr?)
  }

  ghost predicate Forward(s: State, s': State) {
    && GensForward(s, s') && ConnsForward(s, s') && CommandsForward(s, s')
    && (s.pc.Returned? ==> s'.pc == s.pc)
  }

  lemma ForwardTransitive(s: State, s': State, s'': State)
    requires Forward(s, s') && Forward(s', s'')
    ensures Forward(s, s'')
  {
    GensTransitive(s, s', s'');
    ConnsTransitive(s, s', s'');
    CommandsTransitive(s, s', s'');
  }

  lemma GensTransitive(s: State, s': State, s'': State)
    requires GensForward(s, s') && GensForward(s', s'')
    ensures GensForward(s, s'')
  {
  }

  lemma ConnsTransitive(s: State, s': State, s'': State)
    requires GensForward(s, s') && ConnsForward(s, s') && ConnsForward(s', s'')
    ensures ConnsForward(s, s'')
  {
  }

  lemma CommandsTransitive(s: State, s': State, s'': State)
    requires CommandsForward(s, s') && CommandsForward(s', s'')
    ensures CommandsForward(s, s'')
  {
  }

  // ---- changes of state that go forward ----

  lemma GensStill(s: State, s': State)
    requires s'.gens == s.gens
    ensures GensForward(s, s')
  {
  }

  lemma GensMove(s: State, s': State, g: GenId, gen: Generation)
    requires g < |s.gens| && (s'.gens == s.gens[g := gen] || s'.gens == s.gens[g := gen] + [FreshGeneration])
    requires (s.gens[g].flag ==> gen.flag) && (s.gens[g].CancelObserved() ==> gen.CancelObserved())
    ensures GensForward(s, s')
  {
  }

  lemma ConnsStill(s: State, s': State)
    requires s'.conns == s.conns
    ensures ConnsForward(s, s')
  {
  }

  lemma ConnMoves(s: State, s': State, c: ConnId, conn: Conn)
    requires s'.conns == s.conns[c := conn]
    requires if c in s.conns then ConnForward(Told(s, s.conns[c].gen), s.conns[c], conn) else conn.gen >= |s.gens| - 1
    ensures ConnsForward(s, s')
  {
  }

  lemma SpawnedIsNew(s: State)
    requires OwnersExact(s) && s.pc.Spawning? && s.pc.found != []
    ensures s.pc.found[0] !in s.conns
  {
    assert s.pc.found[0] in Found(s);
  }

  lemma StatusMoves(s: State, s': State, cmd: CmdId, status: CmdStatus)
    requires s'.cmds == s.cmds[cmd := status] && s'.installed == s.installed && s.channelClosed == s'.channelClosed
    requires cmd in s.cmds ==> StatusForward(s.channelClosed, s.cmds[cmd], status)
    requires cmd !in s.cmds ==> status.Sending? || status.ReturnedErr?
    ensures CommandsForward(s, s')
  {
  }

  lemma CommandsStill(s: State, s': State)
    requires s'.cmds == s.cmds && s.installed <= s'.installed && (s.channelClosed ==> s'.channelClosed)
    requires s'.installed == s.installed || !s.channelClosed
    ensures CommandsForward(s, s')
  {
  }

  /** While the loop works on a command the channel is open and the command is unanswered. */
  lemma UnderwayIsTaken(s: State, cmd: CmdId)
    requires CommandsWell(s) && cmd in Underway(s.pc)
    ensures !s.channelClosed && HasStatus(s, cmd, Taken)
  {
  }

  lemma HeadIsQueued(s: State)
    requires CommandsWell(s) && s.queue != []
    ensures !s.channelClosed && HasStatus(s, s.queue[0], Queued)
  {
    assert s.queue[0] in s.queue;
  }

  // ---- one step ----

  lemma CallerForward(s: State, a: CallerAction)
    requires CallerEnabled(s, a)
    ensures Forward(s, CallerApply(s, a))
  {
    hide GensForward;
    hide ConnsForward;
    hide CommandsForward;
    var s' := CallerApply(s, a);
    CallerFrame(s, a);
    GensStill(s, s');
    ConnsStill(s, s');
    if a.ShutdownSignal? {
      CommandsStill(s, s');
    } else {
      StatusMoves(s, s', a.cmd, s'.cmds[a.cmd]);
    }
  }

  lemma RaceForward(s: State, a: RaceAction)
    requires CommandsWell(s) && RaceEnabled(s, a)
    ensures Forward(s, RaceApply(s, a))
  {
    hide CommandsWell;
    hide GensForward;
    hide ConnsForward;
    hide CommandsForward;
    hide DropAccept;
    DropAcceptFrame(s);
    RaceFrame(s, a);
    var s' := RaceApply(s, a);
    GensStill(s, s');
    if a.AcceptClient? {
      ConnMoves(s, s', a.c, Conn(s.Current(), false, Serving));
    } else {
      ConnsStill(s, s');
    }
    if a.TakeRebind? {
      HeadIsQueued(s);
      StatusMoves(s, s', s.queue[0], Taken);
    } else {
      CommandsStill(s, s');
    }
  }

  lemma RebindGensForward(s: State, a: RebindAction)
    requires RebindEnabled(s, a)
    ensures GensForward(s, RebindApply(s, a))
  {
    hide GensForward;
    var s' := RebindApply(s, a);
    if a.SetFlag? || a.Retire? {
      GensMove(s, s', s.Current(), s'.gens[s.Current()]);
    } else {
      GensStill(s, s');
    }
  }

  lemma RebindConnsForward(s: State, a: RebindAction)
    requires OwnersExact(s) && RebindEnabled(s, a)
    ensures ConnsForward(s, RebindApply(s, a))
  {
    hide ConnsForward;
    hide OwnersExact;
    var s' := RebindApply(s, a);
    if a.SpawnRecovered? {
      SpawnedIsNew(s);
      ConnMoves(s, s', s.pc.found[0], Conn(s.Current(), true, Serving));
    } else {
      ConnsStill(s, s');
    }
  }

  lemma RebindCommandsForward(s: State, a: RebindAction)
    requires CommandsWell(s) && RebindEnabled(s, a)
    ensures CommandsForward(s, RebindApply(s, a))
  {
    hide CommandsWell;
    hide CommandsForward;
    var s' := RebindApply(s, a);
    match a
    case Swap => UnderwayIsTaken(s, s.pc.cmd); CommandsStill(s, s');
    case Reply => UnderwayIsTaken(s, s.pc.cmd); StatusMoves(s, s', s.pc.cmd, Answered);
    case _ => CommandsStill(s, s');
  }

  lemma RebindForward(s: State, a: RebindAction)
    requires OwnersExact(s) && CommandsWell(s) && RebindEnabled(s, a)
    ensures Forward(s, RebindApply(s, a))
  {
    hide GensForward;
    hide ConnsForward;
    hide CommandsForward;
    hide OwnersExact;
    hide CommandsWell;
    hide RebindApply;
    RebindGensForward(s, a);
    RebindConnsForward(s, a);
    RebindCommandsForward(s, a);
  }

  lemma DrainForward(s: State, a: DrainAction)
    requires DrainEnabled(s, a)
    ensures Forward(s, DrainApply(s, a))
  {
    hide GensForward;
    hide ConnsForward;
    hide CommandsForward;
    var s' := DrainApply(s, a);
    DrainFrame(s, a);
    GensMove(s, s', a.g, s'.gens[a.g]);
    ConnsStill(s, s');
    CommandsStill(s, s');
  }

  lemma ConnActionForward(s: State, a: ConnAction)
    requires ConnEnabled(s, a)
    ensures Forward(s, ConnApply(s, a))
  {
    hide GensForward;
    hide ConnsForward;
    hide CommandsForward;
    hide ConnApply;
    var s' := ConnApply(s, a);
    ConnFrame(s, a);
    GensStill(s, s');
    ConnMoves(s, s', a.c, s.conns[a.c].(phase := NextPhase(a)));
    CommandsStill(s, s');
  }

  lemma FinalForward(cfg: Config, s: State, a: FinalAction)
    requires FinalEnabled(cfg, s, a)
    ensures Forward(s, FinalApply(cfg, s, a))
  {
    hide GensForward;
    hide ConnsForward;
    hide CommandsForward;
    hide DropAccept;
    DropAcceptFrame(s);
    var s' := FinalApply(cfg, s, a);
    ConnsStill(s, s');
    CommandsStill(s, s');
    if a.SetFinalFlag? || a.FireFinal? || a.Abandon? {
      GensMove(s, s', s.Current(), s'.gens[s.Current()]);
    } else {
      GensStill(s, s');
    }
  }

  lemma StepForward(cfg: Config, s: State, a: Action)
    requires Inv(cfg, s) && Enabled(cfg, s, a)
    ensures Forward(s, Apply(cfg, s, a))
  {
    hide Forward;
    hide OwnersExact;
    hide PermitsConserved;
    hide GensWell;
    hide CommandsWell;
    hide FinalWell;
    hide CallerApply;
    hide RaceApply;
    hide RebindApply;
    hide DrainApply;
    hide ConnApply;
    hide FinalApply;
    match a
    case ByCaller(b) => CallerForward(s, b);
    case ByRace(b) => RaceForward(s, b);
    case ByRebind(b) => RebindForward(s, b);
    case ByDrain(b) => DrainForward(s, b);
    case ByConn(b) => ConnActionForward(s, b);
    case ByFinal(b) => FinalForward(cfg, s, b);
  }

  lemma ForwardReflexive(s: State)
    ensures Forward(s, s)
  {
  }

  // ---- runs, and runs put together ----

  lemma {:induction false} RunAppend(cfg: Config, s: State, xs: seq<Action>, ys: seq<Action>)
    ensures Run(cfg, s, xs + ys) ==
              match Run(cfg, s, xs)
              case None => None
              case Some(s') => Run(cfg, s', ys)
    decreases |ys|
  {
    hide Enabled;
    hide Apply;
    if ys == [] {
      assert xs + ys == xs;
    } else {
      var n := |ys| - 1;
      RunAppend(cfg, s, xs, ys[..n]);
      assert (xs + ys)[..|xs + ys| - 1] == xs + ys[..n];
      assert (xs + ys)[|xs + ys| - 1] == ys[n];
    }
  }

  lemma RunOne(cfg: Config, s: State, a: Action)
    ensures Run(cfg, s, [a]) == if Enabled(cfg, s, a) then Some(Apply(cfg, s, a)) else None
  {
    hide Enabled;
    hide Apply;
    assert [a][..0] == [];
  }

  /** Every run moves forward only. */
  lemma {:induction false} RunForward(cfg: Config, s: State, actions: seq<Action>)
    requires Inv(cfg, s) && Run(cfg, s, actions).Some?
    ensures Forward(s, Run(cfg, s, actions).value)
  {
    hide Inv;
    hide Forward;
    hide Enabled;
    hide Apply;
    if actions == [] {
      ForwardReflexive(s);
    } else {
      var before := Run(cfg, s, actions[..|actions| - 1]).value;
      RunForward(cfg, s, actions[..|actions| - 1]);
      RunInv(cfg, s, actions[..|actions| - 1]);
      StepForward(cfg, before, actions[|actions| - 1]);
      ForwardTransitive(s, before, Run(cfg, s, actions).value);
    }
  }

  /** A state that comes after a reachable one keeps the invariant and is forward of it. */
  lemma LaterStates(cfg: Config, s: State, s': State)
    requires Reachable(cfg, s) && Leads(cfg, s, s')
    ensures Inv(cfg, s) && Inv(cfg, s') && Forward(s, s')
  {
    hide Inv;
    hide Forward;
    ReachableInv(cfg, s);
    var actions: seq<Action> :| Run(cfg, s, actions) == Some(s');
    RunInv(cfg, s, actions);
    RunForward(cfg, s, actions);
  }
}
