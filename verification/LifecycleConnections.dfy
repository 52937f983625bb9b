/**
  The server's life and the connection loop put together: the loop of a
  connection sees the shutdown flag of its generation as the run sets it.
 */
module LifecycleConnections {
  import opened Bytes
  import opened Lifecycle
  import opened LifecycleSafety
  import opened LifecycleSteps
  import opened LifecycleRuns
  import Loop = ConnectionLoop
  import Traces = ConnectionTraces

  /** The state after the first `k` actions. */
  function StateAt(cfg: Config, actions: seq<Action>, k: nat): State
    requires k <= |actions| && Run(cfg, Init(cfg), actions[..k]).Some?
  {
    Run(cfg, Init(cfg), actions[..k]).value
  }

  ghost predicate RunsThrough(cfg: Config, actions: seq<Action>) {
    forall k :: 0 <= k <= |actions| ==> Run(cfg, Init(cfg), actions[..k]).Some?
  }

  lemma PrefixesRun(cfg: Config, actions: seq<Action>)
    requires Run(cfg, Init(cfg), actions).Some?
    ensures RunsThrough(cfg, actions)
  {
    hide Run;
    forall k | 0 <= k <= |actions| ensures Run(cfg, Init(cfg), actions[..k]).Some? {
      RunAppend(cfg, Init(cfg), actions[..k], actions[k..]);
      assert actions[..k] + actions[k..] == actions;
    }
  }

  /** Between two points of a run the state moves forward only. */
  lemma BetweenStates(cfg: Config, actions: seq<Action>, k: nat, j: nat)
    requires RunsThrough(cfg, actions) && k <= j <= |actions|
    ensures Inv(cfg, StateAt(cfg, actions, k)) && Forward(StateAt(cfg, actions, k), StateAt(cfg, actions, j))
  {
    hide Run;
    hide Inv;
    hide Forward;
    var s := StateAt(cfg, actions, k);
    InitInv(cfg);
    RunInv(cfg, Init(cfg), actions[..k]);
    RunAppend(cfg, Init(cfg), actions[..k], actions[k..j]);
    assert actions[..k] + actions[k..j] == actions[..j];
    RunForward(cfg, s, actions[k..j]);
  }

  /**
    `life` is the life of connection `c` in this run: its task is spawned by step
    `k`, and it reads its generation's flag as the run has it. The clock may tick
    in any way: `at(j)` is the reading after step `j`.
   */
  ghost predicate LifeInRun(cfg: Config, actions: seq<Action>, c: ConnId, at: nat -> nat, k: nat, life: Loop.Life) {
    && RunsThrough(cfg, actions)
    && 0 < k <= |actions|
    && c in StateAt(cfg, actions, k).conns && c !in StateAt(cfg, actions, k - 1).conns
    && life.start == at(k)
    && (forall j {:trigger at(j)} :: k <= j <= |actions| ==>
          (life.Flag(at(j)) <==> Told(StateAt(cfg, actions, j), StateAt(cfg, actions, k).conns[c].gen)))
  }

  /** A connection recovered from the old backlog starts its loop under a set flag. */
  lemma RecoveredStartsTold(cfg: Config, actions: seq<Action>, c: ConnId, at: nat -> nat, k: nat, life: Loop.Life)
    requires LifeInRun(cfg, actions, c, at, k, life)
    requires var s := StateAt(cfg, actions, |actions|); c in s.conns && s.conns[c].recovered
    ensures life.Flag(life.start)
  {
    hide Run;
    BetweenStates(cfg, actions, k, |actions|);
    StartsTold(cfg, StateAt(cfg, actions, k), StateAt(cfg, actions, |actions|), c);
  }

  lemma StartsTold(cfg: Config, s: State, s': State, c: ConnId)
    requires Inv(cfg, s) && Forward(s, s') && c in s.conns && c in s'.conns && s'.conns[c].recovered
    ensures Told(s, s.conns[c].gen)
  {
  }

  /**
    In every run of the server, a connection recovered from the backlog of a
    replaced listener serves at most one request and is never delegated.
   */
  lemma RecoveredServesAtMostOne(
    cfg: Config, actions: seq<Action>, c: ConnId, at: nat -> nat, k: nat, life: Loop.Life, loop: Loop.Config,
    trace: seq<Loop.Event>, i: nat)
    requires LifeInRun(cfg, actions, c, at, k, life)
    requires var s := StateAt(cfg, actions, |actions|); c in s.conns && s.conns[c].recovered
    requires Traces.Accepted(loop, life, trace) && i < |trace|
    ensures Traces.Reads(trace) <= 1
    ensures !trace[i].Delegate?
  {
    RecoveredStartsTold(cfg, actions, c, at, k, life);
    hide LifeInRun;
    hide Run;
    hide Traces.Accepted;
    Traces.RecoveredConnectionServesAtMostOne(loop, life, trace, i);
  }

  /**
    In every run, a request read once the connection's generation has been told to
    stop is answered without keep-alive, is never delegated, and is the only one.
   */
  lemma ToldConnectionDrains(
    cfg: Config, actions: seq<Action>, c: ConnId, at: nat -> nat, k: nat, life: Loop.Life, loop: Loop.Config,
    trace: seq<Loop.Event>, j: nat, i: nat, r: nat)
    requires LifeInRun(cfg, actions, c, at, k, life) && k <= j <= |actions|
    requires Told(StateAt(cfg, actions, j), StateAt(cfg, actions, k).conns[c].gen)
    requires Traces.Accepted(loop, life, trace) && i < r < |trace|
    requires trace[i].ReadDone? && at(j) <= trace[i].clock
    ensures !trace[r].ReadDone?
    ensures trace[r].Response? && !trace[r].kind.ErrorReply? && trace[r].req == trace[i].req ==> !trace[r].keepAlive
    ensures !(trace[r].Delegate? && trace[r].req == trace[i].req)
  {
    hide Run;
    assert life.Flag(at(j));
    hide LifeInRun;
    Traces.DrainContract(loop, life, trace, i, r);
    Traces.NoReadAfterLate(loop, life, trace, i, r);
  }

  /** Every connection of every run has such a life, by the clock that counts the steps. */
  lemma LifeExists(cfg: Config, actions: seq<Action>, c: ConnId, env: nat -> Loop.Turn)
    returns (k: nat, life: Loop.Life)
    requires Run(cfg, Init(cfg), actions).Some? && c in Run(cfg, Init(cfg), actions).value.conns
    ensures LifeInRun(cfg, actions, c, n => n, k, life) && life.env == env
  {
    hide Run;
    hide Inv;
    PrefixesRun(cfg, actions);
    assert actions[..|actions|] == actions;
    StartsEmpty(cfg, actions);
    k := 1;
    while c !in StateAt(cfg, actions, k).conns
      invariant 0 < k <= |actions| && c !in StateAt(cfg, actions, k - 1).conns
      decreases |actions| - k
    {
      k := k + 1;
    }
    var g := StateAt(cfg, actions, k).conns[c].gen;
    var told := k;
    while told <= |actions| && !Told(StateAt(cfg, actions, told), g)
      invariant k <= told <= |actions| + 1
      invariant forall j :: k <= j < told ==> !Told(StateAt(cfg, actions, j), g)
      decreases |actions| + 1 - told
    {
      told := told + 1;
    }
    life := Loop.Life(k, Some(told), env);
    forall j | k <= j <= |actions| ensures life.Flag(j) <==> Told(StateAt(cfg, actions, j), g) {
      if told <= j {
        BetweenStates(cfg, actions, told, j);
        StaysTold(StateAt(cfg, actions, told), StateAt(cfg, actions, j), g);
      }
    }
  }

  lemma StartsEmpty(cfg: Config, actions: seq<Action>)
    requires RunsThrough(cfg, actions)
    ensures StateAt(cfg, actions, 0).conns == map[]
  {
    assert actions[..0] == [];
  }

  lemma StaysTold(s: State, s': State, g: GenId)
    requires Forward(s, s') && Told(s, g)
    ensures Told(s', g)
  {
  }
}
