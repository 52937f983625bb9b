/**
  The server's life as a transition system: the accept loop with its race of
  shutdown, rebind and accept; generations of connections, retired by a rebind
  and drained in the background; upgraded sessions detached from their
  generation; the final drain. One action per atomic step; every interleaving of
  actions is a run.
 */
module Lifecycle {
  import opened Bytes

  const REBIND_BACKLOG_DRAIN_LIMIT: nat := 1024

  datatype Config = Config(maxConnections: nat) {
    /** Permits of the semaphore: at least one. */
    function Permits(): nat {
      Max(maxConnections, 1)
    }

    /** Permits the final drain asks for: a 32-bit number. */
    function DrainTotal(): nat {
      Min(Permits(), U32_MAX)
    }
  }

  type GenId = nat
  type ConnId = nat
  type CmdId = nat

  /** Background drain of a retired generation. */
  datatype DrainTask = NotSpawned | Pending | Draining | Aborting | Finished

  /**
    One generation: its shutdown flag, its cancel cell (`fired`, or its sender
    `dropped`, which receivers take for cancelled too), its drain task.
   */
  datatype Generation = Generation(flag: bool, fired: bool, dropped: bool, drain: DrainTask) {
    predicate CancelObserved() {
      fired || dropped
    }
  }

  const FreshGeneration: Generation := Generation(false, false, false, NotSpawned)

  /**
    A connection: served by an HTTP task, with the flag checked for an upgrade,
    handed over to a detached session, or gone.
   */
  datatype ConnPhase = Serving | Checked | Session | Gone

  datatype Conn = Conn(gen: GenId, recovered: bool, phase: ConnPhase) {
    predicate HttpAlive() {
      phase.Serving? || phase.Checked?
    }
  }

  /** Who owns a permit. */
  datatype Holder = AcceptFuture | Recovered(c: ConnId) | HttpTask(c: ConnId) | SessionTask(c: ConnId)

  datatype Accept = WaitingForPermit | HoldingPermit | BackingOff

  /** A call of `rebind`: waiting to send, in the channel, taken by the loop, answered, returned. */
  datatype CmdStatus = Sending | Queued | Taken | Answered | ReturnedOk | ReturnedErr

  datatype Stage = PollShutdown | PollRebind | PollAccept

  /** Where `run_until` stands. */
  datatype Pc =
    | Race(stage: Stage)
    | SettingFlag(cmd: CmdId)
    | Recovering(cmd: CmdId, found: seq<ConnId>)
    | Spawning(cmd: CmdId, found: seq<ConnId>)
    | Retiring(cmd: CmdId)
    | Replying(cmd: CmdId)
    | ShutdownFlag
    | ShutdownFire
    | DroppingListener
    | WaitingForPermits
    | Joining
    | FinalAborting
    | Returned(clean: bool)
    | Abandoned

  datatype State = State(
    pc: Pc, accept: Accept, available: nat, holders: set<Holder>, drainHeld: nat,
    gens: seq<Generation>, conns: map<ConnId, Conn>,
    shutdownReady: bool, channelClosed: bool, queue: seq<CmdId>, cmds: map<CmdId, CmdStatus>,
    sent: seq<CmdId>, taken: seq<CmdId>, installed: seq<CmdId>)
  {
    function Current(): GenId
      requires gens != []
    {
      |gens| - 1
    }

    /** No HTTP task of this generation is left in its task set. */
    predicate NoTasks(g: GenId) {
      forall c :: c in conns && conns[c].gen == g ==> !conns[c].HttpAlive()
    }
  }

  function Init(cfg: Config): State {
    State(Race(PollShutdown), WaitingForPermit, cfg.Permits(), {}, 0, [FreshGeneration], map[],
          false, false, [], map[], [], [], [])
  }

  // ---- actions ----

  /** Callers of `rebind`, and the shutdown signal. */
  datatype CallerAction =
    | ShutdownSignal
    | BindFails(cmd: CmdId)
    | CallRebind(cmd: CmdId)
    | Send(cmd: CmdId)
    | SendFails(cmd: CmdId)
    | ReplyDropped(cmd: CmdId)
    | CallReturns(cmd: CmdId)

  /** The race of shutdown, rebind and accept. */
  datatype RaceAction =
    | ShutdownNotReady
    | ShutdownWins
    | NoRebind
    | TakeRebind
    | AcceptPending
    | AcquirePermit
    | AcceptClient(c: ConnId)
    | AcceptError
    | BackoffEnds

  /** The loop working on a rebind command. */
  datatype RebindAction =
    | SetFlag
    | RecoverOne(c: ConnId)
    | RecoverStop
    | SpawnRecovered
    | Swap
    | Retire
    | Reply

  /** The background drain of a retired generation. */
  datatype DrainAction = DrainFire(g: GenId) | DrainGraceOver(g: GenId) | DrainJoined(g: GenId)

  /** A connection's own task or session. */
  datatype ConnAction =
    | CheckFlag(c: ConnId)
    | Delegate(c: ConnId)
    | EndHttp(c: ConnId)
    | EndSession(c: ConnId)
    | AbortTask(c: ConnId)

  /** The final shutdown, and the loop's future being dropped. */
  datatype FinalAction =
    | SetFinalFlag
    | FireFinal
    | DropListener
    | AllPermitsBack
    | GraceOver
    | FinalJoined
    | FinalAborted
    | Abandon

  datatype Action =
    | ByCaller(caller: CallerAction)
    | ByRace(race: RaceAction)
    | ByRebind(rebind: RebindAction)
    | ByDrain(drain: DrainAction)
    | ByConn(conn: ConnAction)
    | ByFinal(final: FinalAction)

  predicate FreshConn(s: State, c: ConnId) {
    && c !in s.conns
    && (s.pc.Recovering? || s.pc.Spawning? ==> c !in s.pc.found)
  }

  predicate HasStatus(s: State, cmd: CmdId, status: CmdStatus) {
    cmd in s.cmds && s.cmds[cmd] == status
  }

  predicate HasPhase(s: State, c: ConnId, phase: ConnPhase) {
    c in s.conns && s.conns[c].phase == phase
  }

  /** The HTTP task of `c` is being aborted: by its generation's drain or by the final shutdown. */
  predicate Abortable(s: State, c: ConnId) {
    && c in s.conns && s.conns[c].HttpAlive() && s.conns[c].gen < |s.gens|
    && (s.gens[s.conns[c].gen].drain.Aborting?
        || (s.pc.FinalAborting? && s.gens != [] && s.conns[c].gen == s.Current()))
  }

  predicate CallerEnabled(s: State, a: CallerAction) {
    match a
    case ShutdownSignal => true
    case BindFails(cmd) => cmd !in s.cmds
    case CallRebind(cmd) => cmd !in s.cmds
    case Send(cmd) => HasStatus(s, cmd, Sending) && !s.channelClosed && s.queue == []
    case SendFails(cmd) => HasStatus(s, cmd, Sending) && s.channelClosed
    case ReplyDropped(cmd) => HasStatus(s, cmd, Queued) && s.channelClosed
    case CallReturns(cmd) => HasStatus(s, cmd, Answered)
  }

  predicate RaceEnabled(s: State, a: RaceAction) {
    match a
    case ShutdownNotReady => s.pc == Race(PollShutdown) && !s.shutdownReady
    case ShutdownWins => s.pc == Race(PollShutdown) && s.shutdownReady
    case NoRebind => s.pc == Race(PollRebind) && s.queue == []
    case TakeRebind => s.pc == Race(PollRebind) && s.queue != []
    case AcceptPending => s.pc == Race(PollAccept)
    case AcquirePermit => s.pc == Race(PollAccept) && s.accept.WaitingForPermit? && s.available > 0
    case AcceptClient(c) =>
      s.pc == Race(PollAccept) && s.accept.HoldingPermit? && FreshConn(s, c) && s.gens != []
    case AcceptError => s.pc == Race(PollAccept) && s.accept.HoldingPermit?
    case BackoffEnds => s.pc == Race(PollAccept) && s.accept.BackingOff?
  }

  predicate RebindEnabled(s: State, a: RebindAction) {
    match a
    case SetFlag => s.pc.SettingFlag? && s.gens != []
    case RecoverOne(c) =>
      s.pc.Recovering? && |s.pc.found| < REBIND_BACKLOG_DRAIN_LIMIT && s.available > 0 && FreshConn(s, c)
    case RecoverStop => s.pc.Recovering?
    case SpawnRecovered => s.pc.Spawning? && s.pc.found != [] && s.gens != []
    case Swap => s.pc.Spawning? && s.pc.found == []
    case Retire => s.pc.Retiring? && s.gens != []
    case Reply => s.pc.Replying?
  }

  predicate DrainEnabled(s: State, a: DrainAction) {
    && a.g < |s.gens|
    && var drain := s.gens[a.g].drain;
       match a
       case DrainFire(_) => drain.Pending?
       case DrainGraceOver(_) => drain.Draining?
       case DrainJoined(g) => (drain.Draining? || drain.Aborting?) && s.NoTasks(g)
  }

  predicate ConnEnabled(s: State, a: ConnAction) {
    match a
    case CheckFlag(c) => HasPhase(s, c, Serving) && s.conns[c].gen < |s.gens| && !s.gens[s.conns[c].gen].flag
    case Delegate(c) => HasPhase(s, c, Checked)
    case EndHttp(c) => c in s.conns && s.conns[c].HttpAlive()
    case EndSession(c) => HasPhase(s, c, Session)
    case AbortTask(c) => Abortable(s, c)
  }

  predicate FinalEnabled(cfg: Config, s: State, a: FinalAction) {
    && s.gens != []
    && match a
       case SetFinalFlag => s.pc.ShutdownFlag?
       case FireFinal => s.pc.ShutdownFire?
       case DropListener => s.pc.DroppingListener?
       case AllPermitsBack => s.pc.WaitingForPermits? && s.available >= cfg.DrainTotal()
       case GraceOver => s.pc.WaitingForPermits?
       case FinalJoined => s.pc.Joining? && s.NoTasks(s.Current())
       case FinalAborted => s.pc.FinalAborting? && s.NoTasks(s.Current())
       case Abandon => s.pc.Race? || s.pc.WaitingForPermits? || s.pc.Joining? || s.pc.FinalAborting?
  }

  predicate Enabled(cfg: Config, s: State, a: Action) {
    match a
    case ByCaller(b) => CallerEnabled(s, b)
    case ByRace(b) => RaceEnabled(s, b)
    case ByRebind(b) => RebindEnabled(s, b)
    case ByDrain(b) => DrainEnabled(s, b)
    case ByConn(b) => ConnEnabled(s, b)
    case ByFinal(b) => FinalEnabled(cfg, s, b)
  }

  /** The accept future is dropped; a permit it holds goes back. */
  function DropAccept(s: State): State {
    if s.accept.HoldingPermit?
    then s.(accept := WaitingForPermit, available := s.available + 1, holders := s.holders - {AcceptFuture})
    else s.(accept := WaitingForPermit)
  }

  /** A permit changes hands. */
  function Move(s: State, owner: Holder, owner': Holder): State {
    s.(holders := s.holders - {owner} + {owner'})
  }

  /** A permit goes back to the semaphore. */
  function Release(s: State, owner: Holder): State {
    s.(holders := s.holders - {owner}, available := s.available + 1)
  }

  function SetPhase(s: State, c: ConnId, phase: ConnPhase): State
    requires c in s.conns
  {
    s.(conns := s.conns[c := s.conns[c].(phase := phase)])
  }

  function SetStatus(s: State, cmd: CmdId, status: CmdStatus): State {
    s.(cmds := s.cmds[cmd := status])
  }

  function SetGen(s: State, g: GenId, gen: Generation): State
    requires g < |s.gens|
  {
    s.(gens := s.gens[g := gen])
  }

  /** A connection's HTTP task joins the current generation. */
  function Spawned(s: State, c: ConnId, recovered: bool): State
    requires s.gens != []
  {
    s.(conns := s.conns[c := Conn(s.Current(), recovered, Serving)])
  }

  /** The current generation gets a drain task and a fresh one takes its place. */
  function RetireCurrent(s: State): State
    requires s.gens != []
  {
    s.(gens := s.gens[s.Current() := s.gens[s.Current()].(drain := Pending)] + [FreshGeneration])
  }

  /** The receiving end of the rebind channel is dropped, and what it holds with it. */
  function CloseChannel(s: State): State {
    s.(channelClosed := true, queue := [])
  }

  /** The caller drops the whole future: the accept, the permits of the final drain, the cancel sender. */
  function DropAll(s: State): State
    requires s.gens != []
  {
    var s' := DropAccept(s);
    SetGen(s', s.Current(), s.gens[s.Current()].(dropped := true))
      .(available := s'.available + s.drainHeld, drainHeld := 0)
  }

  function CallerApply(s: State, a: CallerAction): State
    requires CallerEnabled(s, a)
  {
    match a
    case ShutdownSignal => s.(shutdownReady := true)
    case BindFails(cmd) => SetStatus(s, cmd, ReturnedErr)
    case CallRebind(cmd) => SetStatus(s, cmd, Sending)
    case Send(cmd) => SetStatus(s, cmd, Queued).(queue := s.queue + [cmd], sent := s.sent + [cmd])
    case SendFails(cmd) => SetStatus(s, cmd, ReturnedErr)
    case ReplyDropped(cmd) => SetStatus(s, cmd, ReturnedErr)
    case CallReturns(cmd) => SetStatus(s, cmd, ReturnedOk)
  }

  function RaceApply(s: State, a: RaceAction): State
    requires RaceEnabled(s, a)
  {
    match a
    case ShutdownNotReady => s.(pc := Race(PollRebind))
    case ShutdownWins => CloseChannel(DropAccept(s)).(pc := ShutdownFlag)
    case NoRebind => s.(pc := Race(PollAccept))
    case TakeRebind =>
      SetStatus(DropAccept(s), s.queue[0], Taken)
        .(pc := SettingFlag(s.queue[0]), queue := s.queue[1..], taken := s.taken + [s.queue[0]])
    case AcceptPending => s.(pc := Race(PollShutdown))
    case AcquirePermit =>
      s.(accept := HoldingPermit, available := s.available - 1, holders := s.holders + {AcceptFuture})
    case AcceptClient(c) =>
      Spawned(Move(s, AcceptFuture, HttpTask(c)), c, false).(accept := WaitingForPermit, pc := Race(PollShutdown))
    case AcceptError => Release(s, AcceptFuture).(accept := BackingOff)
    case BackoffEnds => s.(accept := WaitingForPermit, pc := Race(PollShutdown))
  }

  function RebindApply(s: State, a: RebindAction): State
    requires RebindEnabled(s, a)
  {
    match a
    case SetFlag => SetGen(s, s.Current(), s.gens[s.Current()].(flag := true)).(pc := Recovering(s.pc.cmd, []))
    case RecoverOne(c) =>
      s.(available := s.available - 1, holders := s.holders + {Recovered(c)},
         pc := Recovering(s.pc.cmd, s.pc.found + [c]))
    case RecoverStop => s.(pc := Spawning(s.pc.cmd, s.pc.found))
    case SpawnRecovered =>
      var c := s.pc.found[0];
      Spawned(Move(s, Recovered(c), HttpTask(c)), c, true).(pc := Spawning(s.pc.cmd, s.pc.found[1..]))
    case Swap => s.(pc := Retiring(s.pc.cmd), installed := s.installed + [s.pc.cmd])
    case Retire => RetireCurrent(s).(pc := Replying(s.pc.cmd))
    case Reply => SetStatus(s, s.pc.cmd, Answered).(pc := Race(PollShutdown))
  }

  function DrainApply(s: State, a: DrainAction): State
    requires DrainEnabled(s, a)
  {
    var gen := s.gens[a.g];
    SetGen(s, a.g,
      match a
      case DrainFire(_) => gen.(fired := true, drain := Draining)
      case DrainGraceOver(_) => gen.(drain := Aborting)
      case DrainJoined(_) => gen.(drain := Finished, dropped := true))
  }

  function ConnApply(s: State, a: ConnAction): State
    requires ConnEnabled(s, a)
  {
    match a
    case CheckFlag(c) => SetPhase(s, c, Checked)
    case Delegate(c) => Move(SetPhase(s, c, Session), HttpTask(c), SessionTask(c))
    case EndHttp(c) => Release(SetPhase(s, c, Gone), HttpTask(c))
    case EndSession(c) => Release(SetPhase(s, c, Gone), SessionTask(c))
    case AbortTask(c) => Release(SetPhase(s, c, Gone), HttpTask(c))
  }

  function FinalApply(cfg: Config, s: State, a: FinalAction): State
    requires FinalEnabled(cfg, s, a)
  {
    match a
    case SetFinalFlag => SetGen(s, s.Current(), s.gens[s.Current()].(flag := true)).(pc := ShutdownFire)
    case FireFinal => SetGen(s, s.Current(), s.gens[s.Current()].(fired := true)).(pc := DroppingListener)
    case DropListener => s.(pc := WaitingForPermits)
    case AllPermitsBack =>
      s.(pc := Joining, available := s.available - cfg.DrainTotal(), drainHeld := cfg.DrainTotal())
    case GraceOver => s.(pc := FinalAborting)
    case FinalJoined => s.(pc := Returned(true), available := s.available + s.drainHeld, drainHeld := 0)
    case FinalAborted => s.(pc := Returned(false))
    case Abandon => CloseChannel(DropAll(s)).(pc := Abandoned)
  }

  function Apply(cfg: Config, s: State, a: Action): State
    requires Enabled(cfg, s, a)
  {
    match a
    case ByCaller(b) => CallerApply(s, b)
    case ByRace(b) => RaceApply(s, b)
    case ByRebind(b) => RebindApply(s, b)
    case ByDrain(b) => DrainApply(s, b)
    case ByConn(b) => ConnApply(s, b)
    case ByFinal(b) => FinalApply(cfg, s, b)
  }

  // ---- runs ----

  /** The state after a list of actions from `s`, if each was enabled in its turn. */
  function Run(cfg: Config, s: State, actions: seq<Action>): Option<State> {
    if actions == [] then Some(s)
    else
      var before := Run(cfg, s, actions[..|actions| - 1]);
      var a := actions[|actions| - 1];
      if before.Some? && Enabled(cfg, before.value, a) then Some(Apply(cfg, before.value, a)) else None
  }

  /** `s'` comes after `s` in some run. */
  ghost predicate Leads(cfg: Config, s: State, s': State) {
    exists actions: seq<Action> :: Run(cfg, s, actions) == Some(s')
  }

  /** `s` can be reached by some run. */
  ghost predicate Reachable(cfg: Config, s: State) {
    Leads(cfg, Init(cfg), s)
  }
}
