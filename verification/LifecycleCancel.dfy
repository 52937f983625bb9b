/** The cancel cells of the generations, driven by the steps of a run. */
module LifecycleCancel {
  import opened Bytes
  import opened Lifecycle
  import opened LifecycleSafety
  import opened LifecycleSteps
  import opened LifecycleRuns
  import opened LifecycleTheorems
  import opened Cancellation

  /** What an action does to the cell of generation `g`. */
  function OpsOf(cfg: Config, s: State, a: Action, g: GenId): seq<Op>
    requires Enabled(cfg, s, a)
  {
    match a
    case ByRace(AcceptClient(_)) => if g == s.Current() then [Subscribe] else []
    case ByRebind(SpawnRecovered) => if g == s.Current() then [Subscribe] else []
    case ByDrain(DrainFire(h)) => if g == h then [Fire] else []
    case ByDrain(DrainJoined(h)) => if g == h then [DropSender] else []
    case ByConn(b) => if NextPhase(b).Gone? && s.conns[b.c].gen == g then [Unsubscribe] else []
    case ByFinal(FireFinal) => if g == s.Current() then [Fire] else []
    case ByFinal(Abandon) => if g == s.Current() then [DropSender] else []
    case _ => []
  }

  /** What a whole run has done to the cell of generation `g`. */
  function OpsIn(cfg: Config, actions: seq<Action>, g: GenId): seq<Op>
    requires Run(cfg, Init(cfg), actions).Some?
  {
    if actions == [] then []
    else
      var n := |actions| - 1;
      OpsIn(cfg, actions[..n], g) + OpsOf(cfg, Run(cfg, Init(cfg), actions[..n]).value, actions[n], g)
  }

  /** The generation exists and its receivers see it cancelled. */
  predicate Observed(s: State, g: GenId) {
    g < |s.gens| && s.gens[g].CancelObserved()
  }

  // ---- one step ----

  lemma StepCell(cfg: Config, s: State, a: Action, g: GenId)
    requires s.gens != [] && Enabled(cfg, s, a)
    ensures Observed(Apply(cfg, s, a), g) <==> Observed(s, g) || Cancelled(OpsOf(cfg, s, a, g))
  {
    hide CallerApply;
    hide RaceApply;
    hide RebindApply;
    hide ConnApply;
    match a
    case ByCaller(b) => CallerFrame(s, b);
    case ByRace(b) => RaceFrame(s, b);
    case ByRebind(b) => RebindCell(s, b, g);
    case ByDrain(b) =>
    case ByConn(b) => ConnFrame(s, b);
    case ByFinal(b) => FinalCell(cfg, s, b, g);
  }

  lemma RebindCell(s: State, a: RebindAction, g: GenId)
    requires s.gens != [] && RebindEnabled(s, a)
    ensures Observed(RebindApply(s, a), g) <==> Observed(s, g)
  {
  }

  lemma FinalCell(cfg: Config, s: State, a: FinalAction, g: GenId)
    requires FinalEnabled(cfg, s, a)
    ensures Observed(FinalApply(cfg, s, a), g) <==>
              Observed(s, g) || (g == s.Current() && (a.FireFinal? || a.Abandon?))
  {
    hide DropAccept;
    hide Config.DrainTotal;
    DropAcceptFrame(s);
  }

  /** A connection that is there after a step was there before it, or the step subscribed it. */
  lemma StepSubscribes(cfg: Config, s: State, a: Action, c: ConnId)
    requires Enabled(cfg, s, a) && c in Apply(cfg, s, a).conns
    ensures var g := Apply(cfg, s, a).conns[c].gen;
            (c in s.conns && s.conns[c].gen == g) || Subscribe in OpsOf(cfg, s, a, g)
  {
    hide CallerApply;
    hide RaceApply;
    hide RebindApply;
    hide DrainApply;
    hide ConnApply;
    hide FinalApply;
    match a
    case ByCaller(b) => CallerFrame(s, b);
    case ByRace(b) => RaceFrame(s, b);
    case ByRebind(b) => RebindFrame(s, b);
    case ByDrain(b) => DrainFrame(s, b);
    case ByConn(b) => ConnFrame(s, b);
    case ByFinal(b) => FinalFrame(cfg, s, b);
  }

  // ---- whole runs ----

  /** A generation's cell was cancelled by the run exactly if the generation counts as cancelled. */
  lemma {:induction false} CellFollowsRun(cfg: Config, actions: seq<Action>, g: GenId)
    requires Run(cfg, Init(cfg), actions).Some?
    ensures Cancelled(OpsIn(cfg, actions, g)) <==> Observed(Run(cfg, Init(cfg), actions).value, g)
  {
    hide Enabled;
    hide Apply;
    hide OpsOf;
    if actions != [] {
      var n := |actions| - 1;
      var before := Run(cfg, Init(cfg), actions[..n]).value;
      CellFollowsRun(cfg, actions[..n], g);
      RunHasGeneration(cfg, actions[..n]);
      StepCell(cfg, before, actions[n], g);
    }
  }

  lemma RunHasGeneration(cfg: Config, actions: seq<Action>)
    requires Run(cfg, Init(cfg), actions).Some?
    ensures Run(cfg, Init(cfg), actions).value.gens != []
  {
    InitInv(cfg);
    RunInv(cfg, Init(cfg), actions);
  }

  /** Every connection subscribed to the cell of its own generation. */
  lemma {:induction false} ConnectionsSubscribe(cfg: Config, actions: seq<Action>, c: ConnId)
    requires Run(cfg, Init(cfg), actions).Some? && c in Run(cfg, Init(cfg), actions).value.conns
    ensures Subscribe in OpsIn(cfg, actions, Run(cfg, Init(cfg), actions).value.conns[c].gen)
  {
    hide Enabled;
    hide Apply;
    hide OpsOf;
    if actions != [] {
      var n := |actions| - 1;
      var before := Run(cfg, Init(cfg), actions[..n]).value;
      StepSubscribes(cfg, before, actions[n], c);
      if c in before.conns {
        ConnectionsSubscribe(cfg, actions[..n], c);
      }
    }
  }

  /**
    A handle on the cell of generation `g` resolves, after any run and wherever in
    it the subscription was made, exactly if the generation's cancel is observed;
    and once the generation is over it resolves now, or after the drain task's
    first step, which is ready to run.
   */
  lemma SessionsResolve(cfg: Config, actions: seq<Action>, g: GenId, handle: Handle)
    requires Run(cfg, Init(cfg), actions).Some? && handle.Subscribed?
    ensures var s := Run(cfg, Init(cfg), actions).value;
            var longer := actions + [ByDrain(DrainFire(g))];
            && (Resolves(After(OpsIn(cfg, actions, g)), handle) <==> Observed(s, g))
            && (GenerationOver(s, g) ==>
                  || Resolves(After(OpsIn(cfg, actions, g)), handle)
                  || (Run(cfg, Init(cfg), longer).Some? && Resolves(After(OpsIn(cfg, longer, g)), handle)))
  {
    hide OpsIn;
    hide OpsOf;
    hide GenerationOver;
    hide Run;
    var s := Run(cfg, Init(cfg), actions).value;
    var longer := actions + [ByDrain(DrainFire(g))];
    CellFollowsRun(cfg, actions, g);
    HandlesResolveExactly(OpsIn(cfg, actions, g), handle);
    if GenerationOver(s, g) && !Observed(s, g) {
      RunReaches(cfg, actions);
      OverMeans(s, g);
      CancelCoverage(cfg, s, g);
      RunOne(cfg, s, ByDrain(DrainFire(g)));
      RunAppend(cfg, Init(cfg), actions, [ByDrain(DrainFire(g))]);
      CellFollowsRun(cfg, longer, g);
      HandlesResolveExactly(OpsIn(cfg, longer, g), handle);
    }
  }

  lemma OverMeans(s: State, g: GenId)
    requires GenerationOver(s, g)
    ensures g < |s.gens|
  {
  }

  lemma RunReaches(cfg: Config, actions: seq<Action>)
    requires Run(cfg, Init(cfg), actions).Some?
    ensures Reachable(cfg, Run(cfg, Init(cfg), actions).value)
  {
  }
}
