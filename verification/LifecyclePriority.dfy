/** The order of the race: shutdown before rebind before accept. */
module LifecyclePriority {
  import opened Bytes
  import opened Lifecycle
  import opened LifecycleSafety
  import opened LifecycleSteps
  import opened LifecycleRuns

  /** A step of `run_until` itself. */
  predicate LoopAction(a: Action) {
    a.ByRace? || a.ByRebind? || a.ByFinal?
  }

  /**
    When the shutdown signal is there at the start of a poll, the loop can only
    take it; when a command is there at its turn, the loop can only take that;
    unless its future is dropped.
   */
  lemma RacePriorities(cfg: Config, s: State, a: Action)
    requires Enabled(cfg, s, a) && LoopAction(a) && a != ByFinal(Abandon)
    ensures s.pc == Race(PollShutdown) && s.shutdownReady ==> a == ByRace(ShutdownWins)
    ensures s.pc == Race(PollRebind) && s.queue != [] ==> a == ByRace(TakeRebind)
    ensures a == ByRace(ShutdownWins) ==> s.shutdownReady
    ensures a.ByRace? && a.race.AcceptClient? ==> s.pc == Race(PollAccept)
  {
  }

  /** The signal is there, and the loop polls it next or has already taken it. */
  predicate ShutdownDue(s: State) {
    s.shutdownReady && (s.pc == Race(PollShutdown) || PastShutdown(s.pc))
  }

  /** Nothing is installed and no connection joins. */
  predicate NothingNew(s: State, s': State) {
    s'.installed == s.installed && s'.conns.Keys == s.conns.Keys
  }

  lemma RaceDue(s: State, a: RaceAction)
    requires ShutdownDue(s) && RaceEnabled(s, a)
    ensures ShutdownDue(RaceApply(s, a)) && NothingNew(s, RaceApply(s, a))
  {
    hide DropAccept;
    DropAcceptFrame(s);
  }

  lemma FinalDue(cfg: Config, s: State, a: FinalAction)
    requires ShutdownDue(s) && FinalEnabled(cfg, s, a)
    ensures ShutdownDue(FinalApply(cfg, s, a)) && NothingNew(s, FinalApply(cfg, s, a))
  {
    hide DropAccept;
    hide Config.DrainTotal;
    DropAcceptFrame(s);
  }

  lemma CallerDue(s: State, a: CallerAction)
    requires ShutdownDue(s) && CallerEnabled(s, a)
    ensures ShutdownDue(CallerApply(s, a)) && NothingNew(s, CallerApply(s, a))
  {
    CallerFrame(s, a);
  }

  lemma StepDue(cfg: Config, s: State, a: Action)
    requires ShutdownDue(s) && Enabled(cfg, s, a)
    ensures ShutdownDue(Apply(cfg, s, a)) && NothingNew(s, Apply(cfg, s, a))
  {
    hide CallerApply;
    hide RaceApply;
    hide RebindApply;
    hide DrainApply;
    hide ConnApply;
    hide FinalApply;
    match a
    case ByCaller(b) => CallerDue(s, b);
    case ByRace(b) => RaceDue(s, b);
    case ByRebind(b) => assert false;
    case ByDrain(b) => DrainFrame(s, b);
    case ByConn(b) => ConnFrame(s, b);
    case ByFinal(b) => FinalDue(cfg, s, b);
  }

  lemma {:induction false} RunDue(cfg: Config, s: State, actions: seq<Action>)
    requires ShutdownDue(s) && Run(cfg, s, actions).Some?
    ensures var s' := Run(cfg, s, actions).value; ShutdownDue(s') && NothingNew(s, s')
  {
    hide Enabled;
    hide Apply;
    if actions != [] {
      RunDue(cfg, s, actions[..|actions| - 1]);
      StepDue(cfg, Run(cfg, s, actions[..|actions| - 1]).value, actions[|actions| - 1]);
    }
  }

  /**
    Once the signal is there when the loop begins to poll, no queued command is
    installed and no connection is accepted any more, in any run.
   */
  lemma ShutdownBeatsRebindAndAccept(cfg: Config, s: State, s': State)
    requires ShutdownDue(s) && Leads(cfg, s, s')
    ensures s'.installed == s.installed && s'.conns.Keys == s.conns.Keys
    ensures s'.pc == Race(PollShutdown) || PastShutdown(s'.pc)
  {
    var actions: seq<Action> :| Run(cfg, s, actions) == Some(s');
    RunDue(cfg, s, actions);
  }
}
