/**
  Returning from shutdown without anybody's cooperation: when the server's own
  steps, with the forced closing of tasks after the grace period, suffice.
 */
module LifecycleReturn {
  import opened Bytes
  import opened Lifecycle
  import opened LifecycleSafety
  import opened LifecycleSteps
  import opened LifecycleRuns
  import opened LifecycleTheorems

  /** Steps of the shutting-down loop, and the abortion of a task it waits for. */
  predicate OwnAction(a: Action) {
    match a
    case ByFinal(b) =>
      b.SetFinalFlag? || b.FireFinal? || b.DropListener? || b.GraceOver? || b.FinalJoined? || b.FinalAborted?
    case ByConn(b) => b.AbortTask?
    case _ => false
  }

  predicate AllOwn(actions: seq<Action>) {
    forall a :: a in actions ==> OwnAction(a)
  }

  /** Shutdown has won and the caller still waits. */
  predicate ShuttingDown(s: State) {
    PastShutdown(s.pc) && !s.pc.Abandoned?
  }

  /** The server can return by its own steps, whatever connections and clients do or do not do. */
  ghost predicate CanReturnAlone(cfg: Config, s: State) {
    exists actions: seq<Action> :: AllOwn(actions) && ReturnsBy(cfg, s, actions)
  }

  predicate ReturnsBy(cfg: Config, s: State, actions: seq<Action>) {
    var s' := Run(cfg, s, actions);
    s'.Some? && s'.value.pc.Returned?
  }

  // ---- the measure ----

  /** Tasks of the current generation still running. */
  function CurrentTasks(s: State): set<ConnId>
    requires s.gens != []
  {
    set c | c in s.conns && s.conns[c].gen == s.Current() && s.conns[c].HttpAlive()
  }

  function Stage(pc: Pc): nat {
    match pc
    case ShutdownFlag => 5
    case ShutdownFire => 4
    case DroppingListener => 3
    case WaitingForPermits => 2
    case FinalAborting => 1
    case Joining => 1
    case _ => 0
  }

  /** A bound on the steps left. */
  function StepsLeft(s: State): nat
    requires s.gens != []
  {
    Stage(s.pc) + |CurrentTasks(s)|
  }

  lemma StageStep(cfg: Config, s: State, a: FinalAction)
    requires FinalEnabled(cfg, s, a)
    requires a.SetFinalFlag? || a.FireFinal? || a.DropListener? || a.GraceOver?
    ensures var s' := FinalApply(cfg, s, a);
            && ShuttingDown(s') && !s'.pc.Joining? && !s'.pc.Returned?
            && Stage(s'.pc) == Stage(s.pc) - 1
            && s'.conns == s.conns && |s'.gens| == |s.gens|
  {
  }

  lemma StageCounts(s: State, s': State)
    requires s.gens != [] && s'.conns == s.conns && |s'.gens| == |s.gens|
    ensures CurrentTasks(s') == CurrentTasks(s)
  {
  }

  lemma AbortStep(cfg: Config, s: State, c: ConnId)
    requires s.gens != [] && s.pc.FinalAborting? && c in CurrentTasks(s)
    ensures ConnEnabled(s, AbortTask(c))
    ensures var s' := ConnApply(s, AbortTask(c));
            s'.pc == s.pc && s'.gens == s.gens && CurrentTasks(s') == CurrentTasks(s) - {c}
  {
  }

  lemma LastStep(cfg: Config, s: State, a: FinalAction)
    requires s.gens != [] && CurrentTasks(s) == {} && (s.pc.FinalAborting? || s.pc.Joining?)
    requires a == if s.pc.Joining? then FinalJoined else FinalAborted
    ensures FinalEnabled(cfg, s, a) && FinalApply(cfg, s, a).pc.Returned?
  {
    forall c | c in s.conns && s.conns[c].gen == s.Current() ensures !s.conns[c].HttpAlive() {
      assert c !in CurrentTasks(s);
    }
  }

  /** With every permit back, no task is left to join. */
  lemma NothingToJoin(cfg: Config, s: State)
    requires Inv(cfg, s) && s.pc.Joining? && cfg.maxConnections <= U32_MAX
    ensures s.gens != [] && CurrentTasks(s) == {}
  {
    forall c | c in s.conns ensures !s.conns[c].HttpAlive() {
      assert HttpTask(c) !in s.holders;
    }
  }

  function StageAction(pc: Pc): FinalAction {
    match pc
    case ShutdownFlag => SetFinalFlag
    case ShutdownFire => FireFinal
    case DroppingListener => DropListener
    case _ => GraceOver
  }

  lemma StageActionEnabled(cfg: Config, s: State)
    requires s.gens != [] && Stage(s.pc) >= 2
    ensures FinalEnabled(cfg, s, StageAction(s.pc))
  {
  }

  lemma StagesOfShutdown(s: State)
    requires ShuttingDown(s) && !s.pc.Returned?
    ensures Stage(s.pc) >= 2 || s.pc.FinalAborting? || s.pc.Joining?
  {
  }

  /** From every point of a shutdown, at most `StepsLeft` own steps lead to the return. */
  lemma {:induction false} ReturnsAlone(cfg: Config, s: State) returns (actions: seq<Action>)
    requires s.gens != [] && ShuttingDown(s) && (s.pc.Joining? ==> CurrentTasks(s) == {})
    ensures AllOwn(actions) && ReturnsBy(cfg, s, actions) && |actions| <= StepsLeft(s)
    decreases StepsLeft(s)
  {
    hide FinalEnabled;
    hide FinalApply;
    hide ConnEnabled;
    hide ConnApply;
    hide Run;
    hide CurrentTasks;
    if s.pc.Returned? {
      actions := [];
      RunNone(cfg, s);
      return;
    }
    StagesOfShutdown(s);
    var a: Action;
    if Stage(s.pc) >= 2 {
      a := ByFinal(StageAction(s.pc));
      StageActionEnabled(cfg, s);
      StageStep(cfg, s, StageAction(s.pc));
      StageCounts(s, Apply(cfg, s, a));
    } else if CurrentTasks(s) == {} {
      var last := if s.pc.Joining? then FinalJoined else FinalAborted;
      a := ByFinal(last);
      LastStep(cfg, s, last);
      RunOne(cfg, s, a);
      actions := [a];
      return;
    } else {
      var c :| c in CurrentTasks(s);
      a := ByConn(AbortTask(c));
      AbortStep(cfg, s, c);
    }
    var rest := ReturnsAlone(cfg, Apply(cfg, s, a));
    RunOne(cfg, s, a);
    RunAppend(cfg, s, [a], rest);
    actions := [a] + rest;
  }

  lemma RunNone(cfg: Config, s: State)
    ensures Run(cfg, s, []) == Some(s)
  {
  }

  // ---- when it cannot ----

  /** With more permits than the drain asks for, the join may wait for a task that nobody aborts. */
  lemma JoinWithoutEnd(cfg: Config) returns (s: State)
    requires cfg.maxConnections > U32_MAX
    ensures Reachable(cfg, s) && ShuttingDown(s) && !s.pc.Returned?
    ensures forall a :: OwnAction(a) ==> !Enabled(cfg, s, a)
  {
    hide Reachable;
    TaskAwaitsDrain(cfg);
    var s0 := OneConnection(cfg, WaitingForPermits, Serving, HttpTask(0), StoppedGeneration, true);
    ReachableStep(cfg, s0, ByFinal(AllPermitsBack));
    s := Apply(cfg, s0, ByFinal(AllPermitsBack));
    assert s.conns[0].HttpAlive() && s.conns[0].gen == s.Current();
  }

  lemma StuckCannotReturn(cfg: Config, s: State, actions: seq<Action>)
    requires !s.pc.Returned? && AllOwn(actions) && forall a :: OwnAction(a) ==> !Enabled(cfg, s, a)
    ensures !ReturnsBy(cfg, s, actions)
  {
    hide Enabled;
    hide Apply;
    if actions != [] {
      RunOne(cfg, s, actions[0]);
      RunAppend(cfg, s, [actions[0]], actions[1..]);
      assert [actions[0]] + actions[1..] == actions;
      assert actions[0] in actions;
    }
  }

  /** Every shutdown can return by the server's own steps exactly when the permits fit the 32-bit request. */
  lemma ShutdownReturnsExactlyWhen(cfg: Config)
    ensures (forall s :: Reachable(cfg, s) && ShuttingDown(s) ==> CanReturnAlone(cfg, s))
        <==> cfg.maxConnections <= 0xFFFF_FFFF
  {
    hide Reachable;
    hide ReturnsBy;
    hide Inv;
    if cfg.maxConnections <= U32_MAX {
      forall s | Reachable(cfg, s) && ShuttingDown(s) ensures CanReturnAlone(cfg, s) {
        ReachableInv(cfg, s);
        HasGeneration(cfg, s);
        if s.pc.Joining? {
          NothingToJoin(cfg, s);
        }
        var actions := ReturnsAlone(cfg, s);
      }
    } else {
      var s := JoinWithoutEnd(cfg);
      forall actions: seq<Action> | AllOwn(actions) ensures !ReturnsBy(cfg, s, actions) {
        StuckCannotReturn(cfg, s, actions);
      }
    }
  }

  lemma HasGeneration(cfg: Config, s: State)
    requires Inv(cfg, s)
    ensures s.gens != []
  {
  }
}
