/**
  What holds in every reachable state of the server: the invariant, part by part,
  and the changes of state that keep each part. LifecycleSteps.dfy shows that every
  action is such a change.
 */
module LifecycleSafety {
  import opened Bytes
  import opened Lifecycle

  // ---- permits ----

  /** Connections recovered from the old backlog, accepted but not yet spawned. */
  function Found(s: State): seq<ConnId> {
    if s.pc.Recovering? || s.pc.Spawning? then s.pc.found else []
  }

  predicate Distinct<T(==)>(xs: seq<T>) {
    forall i, j :: 0 <= i < j < |xs| ==> xs[i] != xs[j]
  }

  /** Every permit is free, held by exactly one owner, or held by the final drain. */
  ghost predicate PermitsConserved(cfg: Config, s: State) {
    s.available + |s.holders| + s.drainHeld == cfg.Permits()
  }

  /** The owners are exactly the accept in flight, the recovered connections, live tasks and live sessions. */
  ghost predicate OwnersExact(s: State) {
    && (AcceptFuture in s.holders <==> s.accept.HoldingPermit?)
    && (forall c :: Recovered(c) in s.holders <==> c in Found(s))
    && (forall c :: HttpTask(c) in s.holders <==> c in s.conns && s.conns[c].HttpAlive())
    && (forall c :: SessionTask(c) in s.holders <==> HasPhase(s, c, Session))
    && Distinct(Found(s)) && |Found(s)| <= REBIND_BACKLOG_DRAIN_LIMIT
    && (forall c :: c in Found(s) ==> c !in s.conns)
    && (s.accept.HoldingPermit? ==> s.pc.Race?)
  }

  lemma Removed<T>(xs: set<T>, x: T)
    requires x in xs
    ensures |xs - {x}| == |xs| - 1
  {
  }

  lemma Added<T>(xs: set<T>, x: T)
    requires x !in xs
    ensures |xs + {x}| == |xs| + 1
  {
  }

  lemma Swapped<T>(xs: set<T>, x: T, y: T)
    requires x in xs && y !in xs
    ensures |xs - {x} + {y}| == |xs|
  {
    Removed(xs, x);
    Added(xs - {x}, y);
  }

  lemma DropAcceptKeeps(cfg: Config, s: State)
    requires PermitsConserved(cfg, s) && OwnersExact(s)
    ensures PermitsConserved(cfg, DropAccept(s)) && OwnersExact(DropAccept(s))
    ensures var d := DropAccept(s); d == s.(accept := d.accept, available := d.available, holders := d.holders)
    ensures !DropAccept(s).accept.HoldingPermit?
  {
    if s.accept.HoldingPermit? {
      Removed(s.holders, AcceptFuture);
    }
  }

  /** Dropping the accept future touches nothing but its permit. */
  lemma DropAcceptFrame(s: State)
    ensures var d := DropAccept(s); d == s.(accept := d.accept, available := d.available, holders := d.holders)
  {
  }

  ghost predicate PermitsWell(cfg: Config, s: State) {
    PermitsConserved(cfg, s) && OwnersExact(s)
  }

  lemma TaskEnds(cfg: Config, s: State, c: ConnId)
    requires PermitsWell(cfg, s) && c in s.conns && s.conns[c].HttpAlive()
    ensures PermitsWell(cfg, Release(SetPhase(s, c, Gone), HttpTask(c)))
  {
    assert HttpTask(c) in s.holders;
    Removed(s.holders, HttpTask(c));
  }

  lemma SessionEnds(cfg: Config, s: State, c: ConnId)
    requires PermitsWell(cfg, s) && HasPhase(s, c, Session)
    ensures PermitsWell(cfg, Release(SetPhase(s, c, Gone), SessionTask(c)))
  {
    assert SessionTask(c) in s.holders;
    Removed(s.holders, SessionTask(c));
  }

  /** The hand-over to a session moves the permit: neither released nor duplicated. */
  lemma HandOver(cfg: Config, s: State, c: ConnId)
    requires PermitsWell(cfg, s) && HasPhase(s, c, Checked)
    ensures PermitsWell(cfg, Move(SetPhase(s, c, Session), HttpTask(c), SessionTask(c)))
  {
    assert HttpTask(c) in s.holders && SessionTask(c) !in s.holders;
    Swapped(s.holders, HttpTask(c), SessionTask(c));
  }

  lemma FlagChecked(cfg: Config, s: State, c: ConnId)
    requires PermitsWell(cfg, s) && HasPhase(s, c, Serving)
    ensures PermitsWell(cfg, SetPhase(s, c, Checked))
  {
    assert HttpTask(c) in s.holders;
  }

  lemma ClientAccepted(cfg: Config, s: State, c: ConnId)
    requires PermitsWell(cfg, s) && s.accept.HoldingPermit? && c !in s.conns && s.gens != []
    ensures PermitsWell(cfg, Spawned(Move(s, AcceptFuture, HttpTask(c)), c, false)
                               .(accept := WaitingForPermit, pc := Race(PollShutdown)))
  {
    assert HttpTask(c) !in s.holders;
    Swapped(s.holders, AcceptFuture, HttpTask(c));
  }

  lemma PermitAcquired(cfg: Config, s: State)
    requires PermitsWell(cfg, s) && s.accept.WaitingForPermit? && s.available > 0 && s.pc.Race?
    ensures PermitsWell(cfg, s.(accept := HoldingPermit, available := s.available - 1,
                                holders := s.holders + {AcceptFuture}))
  {
    Added(s.holders, AcceptFuture);
  }

  lemma AcceptFailed(cfg: Config, s: State)
    requires PermitsWell(cfg, s) && s.accept.HoldingPermit?
    ensures PermitsWell(cfg, Release(s, AcceptFuture).(accept := BackingOff))
  {
    Removed(s.holders, AcceptFuture);
  }

  lemma ConnectionRecovered(cfg: Config, s: State, c: ConnId)
    requires PermitsWell(cfg, s) && s.pc.Recovering? && s.available > 0 && c !in s.pc.found && c !in s.conns
    requires |s.pc.found| < REBIND_BACKLOG_DRAIN_LIMIT
    ensures PermitsWell(cfg, s.(available := s.available - 1, holders := s.holders + {Recovered(c)},
                                pc := Recovering(s.pc.cmd, s.pc.found + [c])))
  {
    assert c !in Found(s);
    Added(s.holders, Recovered(c));
  }

  lemma RecoveredSpawned(cfg: Config, s: State)
    requires PermitsWell(cfg, s) && s.pc.Spawning? && s.pc.found != [] && s.gens != []
    ensures var c := s.pc.found[0];
            PermitsWell(cfg, Spawned(Move(s, Recovered(c), HttpTask(c)), c, true)
                               .(pc := Spawning(s.pc.cmd, s.pc.found[1..])))
  {
    var c := s.pc.found[0];
    assert c in Found(s) && HttpTask(c) !in s.holders;
    Swapped(s.holders, Recovered(c), HttpTask(c));
    SpawnOwners(s, c);
  }

  lemma SpawnOwners(s: State, c: ConnId)
    requires OwnersExact(s) && s.pc.Spawning? && s.pc.found != [] && c == s.pc.found[0] && s.gens != []
    ensures OwnersExact(Spawned(Move(s, Recovered(c), HttpTask(c)), c, true)
                          .(pc := Spawning(s.pc.cmd, s.pc.found[1..])))
  {
    var rest := s.pc.found[1..];
    assert forall i :: 0 <= i < |rest| ==> rest[i] == s.pc.found[i + 1];
    assert forall d :: d in s.pc.found <==> d == c || d in rest;
  }

  /** Neither permits nor owners are touched. */
  lemma PermitsUntouched(cfg: Config, s: State, s': State)
    requires PermitsWell(cfg, s)
    requires s'.available == s.available && s'.holders == s.holders && s'.drainHeld == s.drainHeld
    requires s'.conns == s.conns
    requires Found(s') == Found(s) && s'.accept == s.accept && (s.pc.Race? ==> s'.pc.Race?)
    ensures PermitsWell(cfg, s')
  {
  }

  lemma BackoffOver(cfg: Config, s: State, s': State)
    requires PermitsWell(cfg, s) && s.accept.BackingOff? && Found(s') == Found(s)
    requires s' == s.(accept := WaitingForPermit, pc := s'.pc)
    ensures PermitsWell(cfg, s')
  {
  }

  /** The accept future is dropped when shutdown, rebind or abandonment wins. */
  lemma AcceptDropped(cfg: Config, s: State, s': State)
    requires PermitsWell(cfg, s) && s.pc.Race?
    requires var d := DropAccept(s);
             s'.available == d.available && s'.holders == d.holders && s'.conns == s.conns && s'.accept == d.accept
    requires s'.drainHeld == s.drainHeld && Found(s') == []
    ensures PermitsWell(cfg, s')
  {
    hide DropAccept;
    DropAcceptKeeps(cfg, s);
  }

  // ---- generations ----

  predicate FlagIsUp(pc: Pc) {
    || pc.Recovering? || pc.Spawning? || pc.Retiring? || pc.ShutdownFire? || pc.DroppingListener?
    || pc.WaitingForPermits? || pc.Joining? || pc.FinalAborting? || pc.Returned?
  }

  predicate CancelIsFired(pc: Pc) {
    pc.DroppingListener? || pc.WaitingForPermits? || pc.Joining? || pc.FinalAborting? || pc.Returned?
  }

  /** A retired generation: flag set, cancel fired or about to be by its drain task's first step. */
  predicate RetiredWell(g: Generation) {
    g.flag && !g.drain.NotSpawned? && (g.fired || g.drain.Pending?)
  }

  ghost predicate GenerationsWell(s: State) {
    && s.gens != []
    && (forall g :: 0 <= g < |s.gens| - 1 ==> RetiredWell(s.gens[g]))
    && (var cur := s.gens[s.Current()];
        && cur.drain.NotSpawned?
        && (FlagIsUp(s.pc) ==> cur.flag)
        && (CancelIsFired(s.pc) ==> cur.fired)
        && (s.pc.Abandoned? ==> cur.dropped))
    && (forall c :: c in s.conns ==> s.conns[c].gen < |s.gens|)
  }

  /** Connections recovered from the backlog belong to a generation that was already told to stop. */
  ghost predicate RecoveredWell(s: State) {
    forall c :: c in s.conns && s.conns[c].recovered ==>
      && s.conns[c].gen < |s.gens| && s.gens[s.conns[c].gen].flag
      && (s.conns[c].phase.Serving? || s.conns[c].phase.Gone?)
  }

  ghost predicate GensWell(s: State) {
    GenerationsWell(s) && RecoveredWell(s)
  }

  /** Nothing changes but the program counter, which claims no more of the current generation. */
  lemma GensUntouched(s: State, s': State)
    requires GensWell(s) && s'.gens == s.gens && s'.conns == s.conns
    requires FlagIsUp(s'.pc) ==> FlagIsUp(s.pc)
    requires CancelIsFired(s'.pc) ==> CancelIsFired(s.pc)
    requires s'.pc.Abandoned? ==> s.pc.Abandoned?
    ensures GensWell(s')
  {
  }

  /** A connection moves on; a recovered one only ends. */
  lemma PhaseMoves(s: State, s': State, c: ConnId, phase: ConnPhase)
    requires GensWell(s) && c in s.conns && s'.gens == s.gens && s'.pc == s.pc
    requires s'.conns == SetPhase(s, c, phase).conns
    requires phase.Gone? || s.conns[c].phase.Checked? || (s.conns[c].gen < |s.gens| && !s.gens[s.conns[c].gen].flag)
    ensures GensWell(s')
  {
  }

  /** A new connection joins the current generation; a recovered one only after its flag is up. */
  lemma ConnectionJoins(s: State, s': State, c: ConnId, recovered: bool)
    requires s.gens != [] && GensWell(s) && s'.gens == s.gens
    requires s'.conns == s.conns[c := Conn(s.Current(), recovered, Serving)]
    requires recovered ==> FlagIsUp(s.pc)
    requires FlagIsUp(s'.pc) ==> FlagIsUp(s.pc)
    requires !CancelIsFired(s'.pc) && !s'.pc.Abandoned?
    ensures GensWell(s')
  {
  }

  /** A drain task makes progress on a retired generation. */
  lemma DrainProgresses(s: State, g: GenId, gen: Generation)
    requires GensWell(s) && g < |s.gens| && !s.gens[g].drain.NotSpawned?
    requires gen.flag == s.gens[g].flag && !gen.drain.NotSpawned?
    requires gen.fired || (s.gens[g].fired == gen.fired && !s.gens[g].drain.Pending?)
    ensures GensWell(SetGen(s, g, gen))
  {
  }

  /** The current generation is told something more. */
  lemma CurrentTold(s: State, s': State, gen: Generation)
    requires s.gens != [] && GensWell(s) && s'.conns == s.conns && s'.gens == s.gens[s.Current() := gen]
    requires var cur := s.gens[s.Current()];
             gen.drain == cur.drain && (cur.flag ==> gen.flag) && (cur.fired ==> gen.fired)
    requires FlagIsUp(s'.pc) ==> gen.flag || FlagIsUp(s.pc) || s.pc.ShutdownFire?
    requires CancelIsFired(s'.pc) ==> gen.fired || CancelIsFired(s.pc)
    requires s'.pc.Abandoned? ==> gen.dropped
    ensures GensWell(s')
  {
  }

  /** The current generation retires, with its drain task spawned, and a fresh one takes its place. */
  lemma CurrentRetires(s: State, s': State)
    requires s.gens != [] && GensWell(s) && s.pc.Retiring? && s'.pc.Replying? && s'.conns == s.conns
    requires s'.gens == s.gens[s.Current() := s.gens[s.Current()].(drain := Pending)] + [FreshGeneration]
    ensures GensWell(s')
  {
    assert forall g :: 0 <= g < |s.gens| - 1 ==> s'.gens[g] == s.gens[g];
  }

  // ---- rebind commands ----

  /** The command taken from the channel but not installed yet. */
  function InProgress(pc: Pc): seq<CmdId> {
    if pc.SettingFlag? || pc.Recovering? || pc.Spawning? then [pc.cmd] else []
  }

  /** The command the loop has taken and not answered yet. */
  function Underway(pc: Pc): seq<CmdId> {
    if pc.Retiring? || pc.Replying? then [pc.cmd] else InProgress(pc)
  }

  predicate PastShutdown(pc: Pc) {
    pc.ShutdownFlag? || CancelIsFired(pc) || pc.ShutdownFire? || pc.Abandoned?
  }

  /** Sent, taken and installed commands, and the channel between them. */
  ghost predicate ChannelWell(s: State) {
    && (s.channelClosed <==> PastShutdown(s.pc))
    && (if s.channelClosed then s.queue == [] && s.taken <= s.sent else s.sent == s.taken + s.queue)
    && |s.queue| <= 1
    && s.taken == s.installed + InProgress(s.pc)
    && Distinct(s.sent)
  }

  /** Where a command is decides its caller's status, and the other way round. */
  ghost predicate StatusesWell(s: State) {
    && (forall cmd :: cmd in Underway(s.pc) && cmd !in InProgress(s.pc) ==> cmd in s.installed)
    && (forall cmd :: cmd in s.queue ==> HasStatus(s, cmd, Queued))
    && (forall cmd :: cmd in Underway(s.pc) ==> HasStatus(s, cmd, Taken))
    && (forall cmd :: cmd in s.installed ==>
          cmd in s.cmds && (s.cmds[cmd].Taken? || s.cmds[cmd].Answered? || s.cmds[cmd].ReturnedOk?))
    && (forall cmd :: cmd in s.cmds && (s.cmds[cmd].Answered? || s.cmds[cmd].ReturnedOk?) ==> cmd in s.installed)
    && (forall cmd :: HasStatus(s, cmd, Sending) ==> cmd !in s.sent)
    && (forall cmd :: HasStatus(s, cmd, Queued) && !s.channelClosed ==> cmd in s.queue)
    && (forall cmd :: HasStatus(s, cmd, Taken) ==> cmd in Underway(s.pc))
    && (forall cmd :: cmd in s.sent ==> cmd in s.cmds)
  }

  ghost predicate CommandsWell(s: State) {
    ChannelWell(s) && StatusesWell(s)
  }

  lemma CommandsUntouched(s: State, s': State)
    requires CommandsWell(s)
    requires s'.queue == s.queue && s'.cmds == s.cmds && s'.sent == s.sent && s'.taken == s.taken
    requires s'.installed == s.installed && s'.channelClosed == s.channelClosed
    requires InProgress(s'.pc) == InProgress(s.pc) && Underway(s'.pc) == Underway(s.pc)
    requires PastShutdown(s'.pc) == PastShutdown(s.pc)
    ensures CommandsWell(s')
  {
  }

  /** Only the status of one caller changes: the channel is as it was. */
  lemma ChannelUntouched(s: State, cmd: CmdId, status: CmdStatus)
    requires ChannelWell(s)
    ensures ChannelWell(SetStatus(s, cmd, status))
  {
  }

  lemma CallerStarts(s: State, cmd: CmdId)
    requires CommandsWell(s) && cmd !in s.cmds
    ensures CommandsWell(SetStatus(s, cmd, Sending))
  {
    hide ChannelWell;
    ChannelUntouched(s, cmd, Sending);
  }

  /** A call fails: at its bind, at its send, or because its command was dropped with the channel. */
  lemma CallerFails(s: State, cmd: CmdId)
    requires CommandsWell(s)
    requires cmd !in s.cmds || HasStatus(s, cmd, Sending) || (HasStatus(s, cmd, Queued) && s.channelClosed)
    ensures CommandsWell(SetStatus(s, cmd, ReturnedErr))
  {
    ChannelUntouched(s, cmd, ReturnedErr);
    assert s.channelClosed ==> s.queue == [];
    hide ChannelWell;
    assert cmd !in s.queue && cmd !in Underway(s.pc) && cmd !in s.installed;
  }

  lemma CallerSucceeds(s: State, cmd: CmdId)
    requires CommandsWell(s) && HasStatus(s, cmd, Answered)
    ensures CommandsWell(SetStatus(s, cmd, ReturnedOk))
  {
    hide ChannelWell;
    ChannelUntouched(s, cmd, ReturnedOk);
    assert cmd !in s.queue && cmd !in Underway(s.pc) && cmd in s.installed;
  }

  lemma CommandSent(s: State, cmd: CmdId)
    requires CommandsWell(s) && HasStatus(s, cmd, Sending) && !s.channelClosed && s.queue == []
    ensures CommandsWell(SetStatus(s, cmd, Queued).(queue := [cmd], sent := s.sent + [cmd]))
  {
    hide ChannelWell;
    SentChannel(s, cmd);
    SentStatuses(s, cmd);
    hide StatusesWell;
  }

  lemma SentStatuses(s: State, cmd: CmdId)
    requires StatusesWell(s) && HasStatus(s, cmd, Sending) && s.queue == []
    ensures StatusesWell(SetStatus(s, cmd, Queued).(queue := [cmd], sent := s.sent + [cmd]))
  {
    assert cmd !in Underway(s.pc) && cmd !in s.installed;
  }

  lemma SentChannel(s: State, cmd: CmdId)
    requires ChannelWell(s) && cmd !in s.sent && !s.channelClosed && s.queue == []
    ensures ChannelWell(SetStatus(s, cmd, Queued).(queue := [cmd], sent := s.sent + [cmd]))
  {
    assert s.taken + [] == s.taken;
  }

  lemma CommandTaken(s: State, s': State)
    requires CommandsWell(s) && s.pc.Race? && s.queue != []
    requires s'.cmds == s.cmds[s.queue[0] := Taken] && s'.pc == SettingFlag(s.queue[0]) && s'.queue == s.queue[1..]
    requires s'.taken == s.taken + [s.queue[0]] && s'.sent == s.sent && s'.installed == s.installed
    requires s'.channelClosed == s.channelClosed
    ensures CommandsWell(s')
  {
    TakenChannel(s, s');
    assert s.queue == [s.queue[0]] && s'.queue == [];
    TakenStatuses(s, s', s.queue[0]);
  }

  lemma TakenChannel(s: State, s': State)
    requires ChannelWell(s) && s.pc.Race? && s.queue != []
    requires s'.pc == SettingFlag(s.queue[0]) && s'.queue == s.queue[1..] && s'.channelClosed == s.channelClosed
    requires s'.taken == s.taken + [s.queue[0]] && s'.sent == s.sent && s'.installed == s.installed
    ensures ChannelWell(s')
  {
    assert s.queue == [s.queue[0]] && s'.queue == [];
    assert s.installed + [] == s.installed;
  }

  lemma TakenStatuses(s: State, s': State, cmd: CmdId)
    requires StatusesWell(s) && s.pc.Race? && s.queue == [cmd] && s'.queue == [] && s'.pc == SettingFlag(cmd)
    requires s'.cmds == s.cmds[cmd := Taken] && s'.sent == s.sent && s'.installed == s.installed
    requires s'.channelClosed == s.channelClosed
    ensures StatusesWell(s')
  {
    assert cmd in s.queue;
  }

  lemma CommandInstalled(s: State, s': State)
    requires CommandsWell(s) && s.pc.Spawning? && s'.pc == Retiring(s.pc.cmd)
    requires s'.queue == s.queue && s'.cmds == s.cmds && s'.sent == s.sent && s'.taken == s.taken
    requires s'.installed == s.installed + [s.pc.cmd] && s'.channelClosed == s.channelClosed
    ensures CommandsWell(s')
  {
    assert s.pc.cmd in InProgress(s.pc);
    assert s'.installed + [] == s'.installed;
  }

  lemma CommandAnswered(s: State, s': State)
    requires CommandsWell(s) && s.pc.Replying? && s'.pc == Race(PollShutdown)
    requires s'.queue == s.queue && s'.cmds == s.cmds[s.pc.cmd := Answered] && s'.sent == s.sent && s'.taken == s.taken
    requires s'.installed == s.installed && s'.channelClosed == s.channelClosed
    ensures CommandsWell(s')
  {
    AnsweredStatuses(s, s', s.pc.cmd);
    hide StatusesWell;
  }

  lemma AnsweredStatuses(s: State, s': State, cmd: CmdId)
    requires StatusesWell(s) && s.pc == Replying(cmd) && s'.pc == Race(PollShutdown)
    requires s'.queue == s.queue && s'.cmds == s.cmds[cmd := Answered] && s'.sent == s.sent
    requires s'.installed == s.installed && s'.channelClosed == s.channelClosed
    ensures StatusesWell(s')
  {
    assert cmd in Underway(s.pc) && cmd in s.installed;
    assert forall other :: HasStatus(s', other, Taken) ==> HasStatus(s, other, Taken);
    assert forall other :: HasStatus(s', other, Queued) ==> HasStatus(s, other, Queued);
    assert forall other :: HasStatus(s', other, Sending) ==> HasStatus(s, other, Sending);
  }

  lemma ChannelCloses(s: State, s': State)
    requires CommandsWell(s) && Underway(s.pc) == [] && Underway(s'.pc) == [] && PastShutdown(s'.pc)
    requires s'.queue == [] && s'.cmds == s.cmds && s'.sent == s.sent && s'.taken == s.taken
    requires s'.installed == s.installed && s'.channelClosed
    ensures CommandsWell(s')
  {
  }

  // ---- the final drain ----

  ghost predicate FinalWell(cfg: Config, s: State) {
    && (if s.pc.Joining? then s.drainHeld == cfg.DrainTotal() else s.drainHeld == 0)
    && (s.pc.Joining? || s.pc == Returned(true) ==> cfg.Permits() <= U32_MAX ==> s.holders == {})
    && (s.pc.Returned? && s.gens != [] ==> s.NoTasks(s.Current()))
  }

  /** Once every permit is back, nobody owns one. */
  lemma AllBack(cfg: Config, s: State)
    requires PermitsConserved(cfg, s) && s.drainHeld == 0 && s.available >= cfg.DrainTotal() && cfg.Permits() <= U32_MAX
    ensures s.holders == {}
  {
  }

  lemma FinalUntouched(cfg: Config, s: State, s': State)
    requires FinalWell(cfg, s) && s'.pc == s.pc && s'.drainHeld == s.drainHeld && s'.holders == s.holders
    requires s'.conns == s.conns && |s'.gens| == |s.gens|
    ensures FinalWell(cfg, s')
  {
  }

  lemma FinalElsewhere(cfg: Config, s: State, s': State)
    requires FinalWell(cfg, s) && s'.drainHeld == 0 && !s'.pc.Joining? && !s'.pc.Returned?
    ensures FinalWell(cfg, s')
  {
  }

  lemma FinalConnection(cfg: Config, s: State, s': State, c: ConnId, phase: ConnPhase)
    requires FinalWell(cfg, s) && OwnersExact(s) && c in s.conns && !s.conns[c].phase.Gone?
    requires s'.pc == s.pc && s'.drainHeld == s.drainHeld && s'.gens == s.gens
    requires s'.conns == SetPhase(s, c, phase).conns
    requires !s.conns[c].HttpAlive() ==> phase.Gone?
    ensures FinalWell(cfg, s')
  {
    if s.conns[c].HttpAlive() {
      assert HttpTask(c) in s.holders;
    } else {
      assert SessionTask(c) in s.holders;
    }
  }

  lemma DrainHeldOnlyWhenJoining(cfg: Config, s: State)
    requires FinalWell(cfg, s) && !s.pc.Joining?
    ensures s.drainHeld == 0
  {
  }

  /** The final drain takes permits and gives them back. */
  lemma HeldMoves(cfg: Config, s: State, s': State)
    requires PermitsWell(cfg, s) && !s.pc.Race? && Found(s) == [] && Found(s') == []
    requires s'.available + s'.drainHeld == s.available + s.drainHeld
    requires s'.holders == s.holders && s'.conns == s.conns && s'.accept == s.accept
    ensures PermitsWell(cfg, s')
  {
  }

  lemma Abandonment(cfg: Config, s: State, s': State)
    requires PermitsWell(cfg, s) && Found(s) == [] && Found(s') == []
    requires var d := DropAccept(s);
             && s'.available == d.available + s.drainHeld && s'.holders == d.holders
             && s'.conns == s.conns && s'.accept == d.accept
    requires s'.drainHeld == 0
    ensures PermitsWell(cfg, s')
  {
    hide DropAccept;
    DropAcceptKeeps(cfg, s);
  }

  // ---- every reachable state ----

  ghost predicate Inv(cfg: Config, s: State) {
    PermitsWell(cfg, s) && GensWell(s) && CommandsWell(s) && FinalWell(cfg, s)
  }

  lemma InitInv(cfg: Config)
    ensures Inv(cfg, Init(cfg))
  {
  }
}
