/**
  One connection: the keep-alive loop with its gates, upgrades, handlers and
  streaming responses, under an adversarial environment (clock, shutdown flag,
  peer, gates, handlers, write failures). The loop emits a trace of what it does;
  an independent monitor says which traces are allowed, and the loop is proved to
  emit only those. ConnectionTraces.dfy reads the allowed traces declaratively.
 */
module ConnectionLoop {
  import opened Bytes
  import opened RequestHeads
  import opened BodyFraming
  import opened ChunkedSpec
  import opened RecvBuffers
  import opened Connections
  import opened Extensions
  import opened Streaming

  // ---- configuration and environment ----

  /** Server settings; times are ticks of one clock whose last instant is `instantMax`. */
  datatype Config = Config(
    keepAliveEnabled: bool, maxRequestsPerConnection: nat, maxConnectionLifetime: nat, readTimeout: nat,
    gateCount: nat, instantMax: nat, farFuture: nat)
  {
    function MaxRequests(): nat {
      Max(maxRequestsPerConnection, 1)
    }
  }

  /**
    What the world holds for a connection: when it starts, when its generation's
    flag is set, if ever, and what happens in each turn of its loop.
   */
  datatype Life = Life(start: nat, shutdownAt: Option<nat>, env: nat -> Turn) {
    /** The flag as read at `clock`; once set it stays set. */
    predicate Flag(clock: nat) {
      shutdownAt.Some? && shutdownAt.value <= clock
    }
  }

  datatype UpgradeMatch = NoMatch | Matched(plugin: bool)

  /** How the application answers: at once, or by a stream. */
  datatype AppAnswer =
    | Plain(status: nat, write: WriteResult)
    | Stream(status: nat, capacity: nat, heads: HeadBytes, headWrite: WriteResult, rounds: seq<Round>)

  /** Everything the environment decides during one turn of the loop. */
  datatype Turn = Turn(
    top: nat, now: nat, readAt: nat, check: nat, upgradeAt: nat, beforeWrite: nat, afterWrite: nat,
    readTimedOut: bool, errorWrite: WriteResult, gates: seq<GateRun>, rejectWrite: WriteResult,
    upgrade: UpgradeMatch, answer: AppAnswer, mappers: seq<nat -> nat>)

  /** The clock never goes back and every registered gate has its turn. */
  predicate Plausible(cfg: Config, life: Life, t: Turn) {
    && life.start <= t.top <= t.now <= t.readAt <= t.check <= t.upgradeAt <= t.beforeWrite <= t.afterWrite
    && t.now <= cfg.instantMax
    && |t.gates| == cfg.gateCount
  }

  // ---- the read deadline ----

  /** The deadline armed for a read, from the two clock readings at the top of the loop. */
  function ReadDeadline(cfg: Config, life: Life, top: nat, now: nat): nat
    requires life.start <= top
  {
    var elapsed := top - life.start;
    var remaining := if elapsed >= cfg.maxConnectionLifetime then 0 else cfg.maxConnectionLifetime - elapsed;
    var timeout := Min(cfg.readTimeout, remaining);
    if now + timeout <= cfg.instantMax then now + timeout
    else if now + cfg.farFuture <= cfg.instantMax then now + cfg.farFuture
    else now
  }

  /** Overflow or not, the deadline passes the lifetime by at most the time between the two readings. */
  lemma DeadlineBound(cfg: Config, life: Life, top: nat, now: nat)
    requires life.start <= top <= now && top - life.start < cfg.maxConnectionLifetime
    ensures ReadDeadline(cfg, life, top, now) <= life.start + cfg.maxConnectionLifetime + (now - top)
    ensures now <= ReadDeadline(cfg, life, top, now) <= now + cfg.readTimeout
    ensures var remaining := life.start + cfg.maxConnectionLifetime - top;
            && (cfg.readTimeout <= remaining && now + cfg.readTimeout <= cfg.instantMax ==>
                  ReadDeadline(cfg, life, top, now) == now + cfg.readTimeout)
            && (remaining <= cfg.readTimeout && now + remaining <= cfg.instantMax ==>
                  ReadDeadline(cfg, life, top, now) == now + remaining)
  {
  }

  /** All the clock readings at the top of the loop that leave lifetime, `gap` ticks apart at most. */
  predicate Readings(cfg: Config, life: Life, top: nat, now: nat, gap: nat) {
    life.start <= top <= now <= cfg.instantMax && top < life.start + cfg.maxConnectionLifetime && now - top <= gap
  }

  /**
    When the second reading comes at most `gap` ticks after the first, every
    deadline is within the lifetime exactly if there is no gap, no lifetime, no
    clock beyond the lifetime, or a gap of one tick and no waiting at all.
   */
  lemma DeadlineWithinLifetimeUpToGap(cfg: Config, life: Life, gap: nat)
    requires life.start <= cfg.instantMax
    ensures (forall top, now :: Readings(cfg, life, top, now, gap) ==>
               ReadDeadline(cfg, life, top, now) <= life.start + cfg.maxConnectionLifetime)
        <==> || gap == 0 || cfg.maxConnectionLifetime == 0
             || cfg.instantMax <= life.start + cfg.maxConnectionLifetime
             || (gap == 1 && cfg.readTimeout == 0)
  {
    var end := life.start + cfg.maxConnectionLifetime;
    if gap > 0 && cfg.maxConnectionLifetime > 0 && end < cfg.instantMax && !(gap == 1 && cfg.readTimeout == 0) {
      var now := if gap == 1 then end else end + 1;
      assert Readings(cfg, life, end - 1, now, gap);
      assert ReadDeadline(cfg, life, end - 1, now) > end;
    }
  }

  /** Without a bound on the gap, deadlines stay within the lifetime only if no clock reading can pass it. */
  lemma DeadlineWithinLifetime(cfg: Config, life: Life)
    requires life.start <= cfg.instantMax
    ensures (forall top, now ::
               life.start <= top <= now <= cfg.instantMax && top < life.start + cfg.maxConnectionLifetime ==>
                 ReadDeadline(cfg, life, top, now) <= life.start + cfg.maxConnectionLifetime)
        <==> cfg.maxConnectionLifetime == 0 || cfg.instantMax <= life.start + cfg.maxConnectionLifetime
  {
    var end := life.start + cfg.maxConnectionLifetime;
    if cfg.maxConnectionLifetime > 0 && end < cfg.instantMax {
      assert ReadDeadline(cfg, life, life.start, end + 1) > end;
    }
  }

  /** A deadline past the lifetime: the clock ticks once between the readings of a nearly finished connection. */
  lemma DeadlineCanPassLifetime(env: nat -> Turn)
    ensures var cfg := Config(true, 1, 10, 30, 0, 1000, 100);
            ReadDeadline(cfg, Life(0, None, env), 9, 10) == 11
  {
  }

  // ---- the trace ----

  datatype ResponseKind = GateReject | Normal | Streamed | Fallback | ErrorReply

  /** The chunks a stream was given and the body bytes written for it; nothing for other responses. */
  datatype StreamWire = NoStream | StreamWire(version: Version, chunks: seq<Text>, body: Text)

  /** The clock readings behind a keep-alive decision. */
  datatype Clocks = Clocks(check: nat, write: nat, end: nat)

  datatype CloseReason =
    | LifetimeOver(top: nat)
    | ReadTimedOut
    | PeerGone
    | ReadBroken
    | WriteFailed
    | Refused
    | NotKeptAlive
    | HandedOver

  datatype Event =
    | Deadline(at: nat, top: nat, now: nat)
    | ReadError(error: RequestError)
    | ReadDone(req: nat, clock: nat, request: Request)
    | OnRequest(req: nat)
    | Gate(req: nat, index: nat, inserts: seq<Entry>, verdict: Option<nat>)
    | Matching(req: nat, ext: seq<Entry>, matched: bool)
    | Delegate(req: nat, ext: seq<Entry>, clock: nat)
    | App(req: nat, ext: seq<Entry>, status: nat)
    | Mapped(req: nat, mappers: seq<nat -> nat>)
    | Response(
        req: nat, kind: ResponseKind, status: nat, keepAlive: bool, complete: bool, clocks: Clocks, wire: StreamWire)
    | OnResponse(req: nat, status: nat)
    | Close(reason: CloseReason)

  /** The status of the reply to a failed read; none for a peer that is gone. */
  function ErrorStatus(e: RequestError): Option<nat> {
    match e
    case Parse(HeaderSectionTooLarge) => Some(431)
    case Parse(TooManyHeaders) => Some(431)
    case Parse(InvalidRequestLine) => Some(400)
    case Parse(InvalidHeader) => Some(400)
    case Parse(UnsupportedVersion) => Some(505)
    case Body(BodyTooLarge) => Some(413)
    case Body(TransferEncodingUnsupported) => Some(501)
    case Body(_) => Some(400)
    case BadChunk(BodyTooLarge) => Some(413)
    case BadChunk(_) => Some(400)
    case UnexpectedEof => None
    case Io => None
  }

  /** Which errors get which status. */
  lemma ErrorStatusExactly(e: RequestError)
    ensures ErrorStatus(e) == None <==> e in {UnexpectedEof, Io}
    ensures ErrorStatus(e) == Some(431) <==> e in {Parse(HeaderSectionTooLarge), Parse(TooManyHeaders)}
    ensures ErrorStatus(e) == Some(505) <==> e == Parse(UnsupportedVersion)
    ensures ErrorStatus(e) == Some(413) <==> e in {Body(BodyFraming.BodyTooLarge), BadChunk(ChunkedSpec.BodyTooLarge)}
    ensures ErrorStatus(e) == Some(501) <==> e == Body(TransferEncodingUnsupported)
    ensures ErrorStatus(e).Some? ==> ErrorStatus(e).value in {400, 413, 431, 501, 505}
  {
  }

  /** The status after the response mappers, each applied to what the one before it left. */
  function MapStatus(status: nat, mappers: seq<nat -> nat>): nat
    decreases |mappers|
  {
    if |mappers| == 0 then status else MapStatus(mappers[0](status), mappers[1..])
  }

  // ---- the monitor ----

  datatype Progress =
    | Idle
    | AwaitingRead
    | Failing(error: RequestError)
    | Fresh
    | Gating(called: nat)
    | Rejected(status: nat)
    | Routed(matched: bool)
    | Running(status: nat)
    | Answered(status: nat)
    | HookDue(status: nat)
    | Broken
    | Refusing
    | Handed
    | Over

  /**
    What the monitor remembers: the request in hand, its extensions, whether
    reading may go on, and everything read from the socket.
   */
  datatype Monitor = Monitor(
    ok: bool, progress: Progress, served: nat, head: Option<RequestHead>, readAt: nat, entries: seq<Entry>,
    late: nat, goOn: bool, requests: seq<Request>, failed: Option<RequestError>)

  const Watching: Monitor := Monitor(true, Idle, 0, None, 0, [], 0, true, [], None)

  predicate Hooked(kind: ResponseKind) {
    kind.GateReject? || kind.Normal? || kind.Streamed?
  }

  /** Lifetime left and no shutdown at this reading of the clock. */
  predicate MayContinueAt(cfg: Config, life: Life, clock: nat) {
    clock < life.start + cfg.maxConnectionLifetime && !life.Flag(clock)
  }

  /** When a response to the request in hand must announce keep-alive, exactly. */
  predicate KeepAliveDue(cfg: Config, life: Life, m: Monitor, kind: ResponseKind, clocks: Clocks) {
    && Hooked(kind)
    && cfg.keepAliveEnabled && m.head.Some? && ShouldKeepAlive(m.head.value)
    && m.served < cfg.MaxRequests()
    && MayContinueAt(cfg, life, clocks.check)
    && (kind.GateReject? || MayContinueAt(cfg, life, clocks.write))
    && (kind.Streamed? ==> m.head.value.version == Http11)
  }

  /** The bytes of a stream: none without a body; a prefix of the whole body, and all of it when complete. */
  predicate WireHonest(version: Version, status: nat, complete: bool, wire: StreamWire) {
    && wire.StreamWire? && wire.version == version
    && if IsBodyless(status) then wire.body == []
       else
         && wire.body <= WireBody(version, wire.chunks)
         && (complete ==> wire.body == WireBody(version, wire.chunks))
         && (!complete && version == Http11 ==> wire.body != WireBody(version, wire.chunks))
  }

  /** The clock readings of the turn that a response of this kind is decided by. */
  function ClocksOf(t: Turn, kind: ResponseKind): Clocks {
    match kind
    case GateReject => Clocks(t.check, t.check, t.check)
    case Fallback => Clocks(t.upgradeAt, t.upgradeAt, t.upgradeAt)
    case Normal => Clocks(t.check, t.beforeWrite, t.afterWrite)
    case Streamed => Clocks(t.check, t.beforeWrite, t.afterWrite)
    case ErrorReply => Clocks(0, 0, 0)
  }

  /** The stream that the turn's producers and writes complete. */
  predicate StreamWritten(answer: AppAnswer, version: Version, status: nat)
    requires answer.Stream?
  {
    && answer.headWrite.Written?
    && (IsBodyless(status) || Completes(version, FreshChan(answer.capacity), answer.rounds))
  }

  /** The channel a streaming response starts with. */
  function FreshChan(capacity: nat): Chan {
    Chan([], 1, if capacity == 0 then 1 else capacity)
  }

  /** A response is complete exactly if the turn's writes for its kind succeed, and has the turn's clock readings. */
  predicate WriteFits(t: Turn, e: Event)
    requires e.Response?
  {
    && e.clocks == ClocksOf(t, e.kind)
    && match e.kind
       case GateReject => e.complete <==> t.rejectWrite.Written?
       case ErrorReply => e.complete <==> t.errorWrite.Written?
       case Fallback =>
         && (e.complete <==> t.rejectWrite.Written?)
         && t.upgrade.Matched? && (e.status == 501 ==> !t.upgrade.plugin)
       case Normal => t.answer.Plain? && (e.complete <==> t.answer.write.Written?)
       case Streamed =>
         && t.answer.Stream? && e.wire.StreamWire?
         && (e.complete <==> StreamWritten(t.answer, e.wire.version, e.status))
         && Received(FreshChan(t.answer.capacity), t.answer.rounds, e.wire.chunks)
  }

  /** Which events are allowed next. */
  ghost predicate Allowed(cfg: Config, life: Life, m: Monitor, e: Event) {
    match e
    case Deadline(at, top, now) =>
      && m.progress.Idle? && m.goOn && top <= now
      && top == life.env(m.served).top && now == life.env(m.served).now
      && life.start <= top && at == ReadDeadline(cfg, life, top, now)
      && top < life.start + cfg.maxConnectionLifetime
      && at <= life.start + cfg.maxConnectionLifetime + (now - top)
    case ReadError(_) => m.progress.AwaitingRead? && !life.env(m.served).readTimedOut
    case ReadDone(req, clock, _) =>
      && m.progress.AwaitingRead? && req == m.served && m.served < cfg.MaxRequests() && life.start <= clock
      && (life.Flag(clock) ==> m.late == 0)
      && clock == life.env(req).readAt && !life.env(req).readTimedOut
    case OnRequest(req) => m.progress.Fresh? && req + 1 == m.served
    case Gate(req, index, inserts, verdict) =>
      && m.progress == Gating(index) && index < cfg.gateCount && req + 1 == m.served
      && index < |life.env(req).gates| && life.env(req).gates[index] == GateRun(inserts, verdict)
    case Matching(req, ext, matched) =>
      && m.progress == Gating(cfg.gateCount) && ext == m.entries && req + 1 == m.served
      && (matched <==> life.env(req).upgrade.Matched?)
    case Delegate(req, ext, clock) =>
      && m.progress == Routed(true) && ext == m.entries && req + 1 == m.served && m.readAt <= clock && !life.Flag(clock)
      && life.env(req).upgrade == Matched(true) && clock == life.env(req).upgradeAt
    case App(req, ext, status) =>
      && m.progress == Routed(false) && ext == m.entries && req + 1 == m.served
      && status == life.env(req).answer.status
    case Mapped(req, mappers) => m.progress.Running? && req + 1 == m.served && mappers == life.env(req).mappers
    case Response(req, kind, status, keepAlive, complete, clocks, wire) =>
      && (match kind
          case GateReject => m.progress == Rejected(status)
          case Normal => m.progress == Answered(status)
          case Streamed => m.progress == Answered(status)
          case Fallback => m.progress == Routed(true) && status == (if life.Flag(clocks.check) then 503 else 501)
          case ErrorReply => m.progress.Failing? && ErrorStatus(m.progress.error) == Some(status) && req == m.served)
      && (kind.ErrorReply? || (req + 1 == m.served && m.readAt <= clocks.check <= clocks.write <= clocks.end))
      && (keepAlive <==> KeepAliveDue(cfg, life, m, kind, clocks))
      && (kind.Streamed? ==> m.head.Some? && WireHonest(m.head.value.version, status, complete, wire))
      && WriteFits(life.env(req), e)
    case OnResponse(req, status) => m.progress == HookDue(status) && req + 1 == m.served
    case Close(reason) =>
      match reason
      case LifetimeOver(top) =>
        && m.progress.Idle? && m.goOn && life.start + cfg.maxConnectionLifetime <= top
        && top == life.env(m.served).top
      case ReadTimedOut => m.progress.AwaitingRead? && life.env(m.served).readTimedOut
      case PeerGone => m.progress.AwaitingRead? && !life.env(m.served).readTimedOut
      case ReadBroken => m.progress.Failing? && ErrorStatus(m.progress.error).None?
      case WriteFailed => m.progress.Broken?
      case Refused => m.progress.Refusing?
      case NotKeptAlive => m.progress.Idle? && !m.goOn
      case HandedOver => m.progress.Handed?
  }

  function After(cfg: Config, life: Life, m: Monitor, e: Event): Monitor {
    match e
    case Deadline(_, _, _) => m.(progress := AwaitingRead)
    case ReadError(error) => m.(progress := Failing(error), failed := Some(error))
    case ReadDone(_, clock, request) =>
      m.(progress := Fresh, served := m.served + 1, head := Some(request.head), readAt := clock, entries := [],
         late := m.late + (if life.Flag(clock) then 1 else 0), requests := m.requests + [request])
    case OnRequest(_) => m.(progress := Gating(0))
    case Gate(_, index, inserts, verdict) =>
      m.(progress := if verdict.None? then Gating(index + 1) else Rejected(verdict.value),
         entries := InsertedAll(m.entries, inserts))
    case Matching(_, _, matched) => m.(progress := Routed(matched))
    case Delegate(_, _, _) => m.(progress := Handed)
    case App(_, _, status) => m.(progress := Running(status))
    case Mapped(_, mappers) =>
      m.(progress := if m.progress.Running? then Answered(MapStatus(m.progress.status, mappers)) else m.progress)
    case Response(_, kind, status, keepAlive, complete, clocks, _) =>
      m.(progress := if !Hooked(kind) then Refusing else if complete then HookDue(status) else Broken,
         goOn := keepAlive && (kind.Streamed? ==> MayContinueAt(cfg, life, clocks.end)))
    case OnResponse(_, _) => m.(progress := Idle)
    case Close(_) => m.(progress := Over)
  }

  ghost function Observe(cfg: Config, life: Life, m: Monitor, e: Event): Monitor {
    After(cfg, life, m, e).(ok := m.ok && Allowed(cfg, life, m, e))
  }

  /** The monitor after a whole trace. */
  ghost function Watch(cfg: Config, life: Life, trace: seq<Event>): Monitor {
    if trace == [] then Watching
    else Observe(cfg, life, Watch(cfg, life, trace[..|trace| - 1]), trace[|trace| - 1])
  }

  /** One more event. */
  lemma Emit(cfg: Config, life: Life, trace: seq<Event>, e: Event)
    ensures Watch(cfg, life, trace + [e]) == Observe(cfg, life, Watch(cfg, life, trace), e)
  {
    assert (trace + [e])[..|trace|] == trace;
  }

  // ---- the loop ----

  /** Keep-alive as decided right after the request hook. */
  predicate FirstDecision(cfg: Config, life: Life, head: RequestHead, served: nat, clock: nat)
    requires life.start <= clock
  {
    && cfg.keepAliveEnabled
    && ShouldKeepAlive(head)
    && served < cfg.MaxRequests()
    && clock - life.start < cfg.maxConnectionLifetime
    && !life.Flag(clock)
  }

  function ReadingAt(cfg: Config, life: Life, clock: nat): Reading
    requires life.start <= clock
  {
    Reading(clock - life.start < cfg.maxConnectionLifetime, life.Flag(clock))
  }

  /** The monitor has followed `trace` to `progress` of request `req` with head `head`, read in turn `t`. */
  ghost predicate At(cfg: Config, life: Life, trace: seq<Event>, req: nat, head: RequestHead, t: Turn,
                     progress: Progress) {
    var m := Watch(cfg, life, trace);
    && m.ok && m.progress == progress && m.served == req + 1 && m.head == Some(head) && m.readAt == t.readAt
    && t == life.env(req)
  }

  /** Nothing was read from the socket in between. */
  predicate SameReads(m: Monitor, m': Monitor) {
    m'.served == m.served && m'.requests == m.requests && m'.failed == m.failed
  }

  /** Calls the gates in order until one rejects. */
  method RunGates(cfg: Config, life: Life, req: nat, gates: seq<GateRun>, trace: seq<Event>, ext: RequestExtensions)
    returns (rejection: Option<nat>, trace': seq<Event>)
    requires |gates| == cfg.gateCount && gates == life.env(req).gates && ext.entries == []
    requires var m := Watch(cfg, life, trace); m.ok && m.progress == Gating(0) && m.entries == [] && m.served == req + 1
    modifies ext
    ensures var m := Watch(cfg, life, trace);
            var n := GatesCalled(gates);
            && ext.entries == InsertedAll([], InsertsOf(gates[..n]))
            && rejection == (if n > 0 then gates[n - 1].rejects else None)
            && |trace'| == |trace| + n
            && Watch(cfg, life, trace') ==
               m.(progress := if rejection.Some? then Rejected(rejection.value) else Gating(cfg.gateCount),
                  entries := ext.entries)
  {
    hide Watch;
    hide InsertedAll;
    hide InsertsOf;
    hide GatesCalled;
    ghost var m := Watch(cfg, life, trace);
    trace' := trace;
    NoGateInserts();
    assert gates[..0] == [];
    for i := 0 to |gates|
      invariant forall j :: 0 <= j < i ==> gates[j].rejects.None?
      invariant ext.entries == InsertedAll([], InsertsOf(gates[..i]))
      invariant |trace'| == |trace| + i
      invariant Watch(cfg, life, trace') == m.(progress := Gating(i), entries := ext.entries)
    {
      var g := gates[i];
      InsertAll(ext, g.inserts);
      assert gates[..i + 1] == gates[..i] + [g];
      InsertsOfSnoc(gates[..i], g);
      InsertedAllAppend([], InsertsOf(gates[..i]), g.inserts);
      Emit(cfg, life, trace', Gate(req, i, g.inserts, g.rejects));
      trace' := trace' + [Gate(req, i, g.inserts, g.rejects)];
      if g.rejects.Some? {
        CalledUpTo(gates, i + 1);
        return g.rejects, trace';
      }
    }
    CalledUpTo(gates, |gates|);
    rejection := None;
  }

  lemma NoGateInserts()
    ensures InsertedAll([], InsertsOf([])) == []
  {
  }

  lemma {:induction false} CalledUpTo(gates: seq<GateRun>, n: nat)
    requires n <= |gates| && forall j :: 0 <= j < n - 1 ==> gates[j].rejects.None?
    requires if n < |gates| then n > 0 && gates[n - 1].rejects.Some? else n == |gates|
    ensures GatesCalled(gates) == n
  {
    if gates != [] && gates[0].rejects.None? {
      assert forall j :: 0 <= j < |gates| - 1 ==> gates[1..][j] == gates[j + 1];
      CalledUpTo(gates[1..], n - 1);
    }
  }

  /** Writes a response of one of the hooked kinds; the response hook follows a complete one. */
  method Respond(cfg: Config, life: Life, e: Event, trace: seq<Event>) returns (done: bool, trace': seq<Event>)
    requires e.Response? && Hooked(e.kind)
    requires var m := Watch(cfg, life, trace); m.ok && Allowed(cfg, life, m, e)
    ensures done <==> e.complete
    ensures var m, m' := Watch(cfg, life, trace), Watch(cfg, life, trace');
            m' == After(cfg, life, m, e).(progress := if done then Idle else Over)
    ensures !done ==> trace' != [] && trace'[|trace'| - 1] == Close(WriteFailed)
  {
    hide KeepAliveDue;
    hide WriteFits;
    hide WireHonest;
    hide ErrorStatus;
    hide Watch;
    Emit(cfg, life, trace, e);
    trace' := trace + [e];
    if !e.complete {
      trace' := CloseWith(cfg, life, trace', WriteFailed);
      return false, trace';
    }
    Emit(cfg, life, trace', OnResponse(e.req, e.status));
    trace' := trace' + [OnResponse(e.req, e.status)];
    return true, trace';
  }

  /** Ends the connection. */
  method CloseWith(cfg: Config, life: Life, trace: seq<Event>, reason: CloseReason) returns (trace': seq<Event>)
    requires var m := Watch(cfg, life, trace); m.ok && Allowed(cfg, life, m, Close(reason))
    ensures Watch(cfg, life, trace') == Watch(cfg, life, trace).(progress := Over)
    ensures trace' == trace + [Close(reason)]
  {
    Emit(cfg, life, trace, Close(reason));
    trace' := trace + [Close(reason)];
  }

  /** The upgrade branch: refuse after shutdown, delegate, or fall back; the connection ends here. */
  method HandleUpgrade(cfg: Config, life: Life, req: nat, head: RequestHead, t: Turn, ext: seq<Entry>,
                       trace: seq<Event>)
    returns (permitKept: bool, trace': seq<Event>)
    requires Plausible(cfg, life, t) && t.upgrade.Matched?
    requires At(cfg, life, trace, req, head, t, Routed(true)) && ext == Watch(cfg, life, trace).entries
    ensures var m, m' := Watch(cfg, life, trace), Watch(cfg, life, trace');
            m'.ok && m'.progress.Over? && SameReads(m, m')
    ensures trace' != [] && trace'[|trace'| - 1] != Close(PeerGone)
    ensures !permitKept <==> trace'[|trace'| - 1] == Close(HandedOver)
    ensures !permitKept <==> t.upgrade.plugin && !life.Flag(t.upgradeAt)
  {
    hide Watch;
    hide Allowed;
    hide After;
    if life.Flag(t.upgradeAt) || !t.upgrade.plugin {
      trace' := RefuseUpgrade(cfg, life, req, head, t, trace);
      return true, trace';
    }
    trace' := DelegateUpgrade(cfg, life, req, head, t, ext, trace);
    return false, trace';
  }

  /** No upgrade: 503 after shutdown, 501 when no plugin takes it over; no response hook. */
  method RefuseUpgrade(cfg: Config, life: Life, req: nat, head: RequestHead, t: Turn, trace: seq<Event>)
    returns (trace': seq<Event>)
    requires Plausible(cfg, life, t) && t.upgrade.Matched? && (life.Flag(t.upgradeAt) || !t.upgrade.plugin)
    requires At(cfg, life, trace, req, head, t, Routed(true))
    ensures var m, m' := Watch(cfg, life, trace), Watch(cfg, life, trace');
            m'.ok && m'.progress.Over? && SameReads(m, m')
    ensures trace' != [] && trace'[|trace'| - 1] == Close(Refused)
  {
    hide Watch;
    hide WireHonest;
    hide StreamWritten;
    hide ErrorStatus;
    var clocks := Clocks(t.upgradeAt, t.upgradeAt, t.upgradeAt);
    var status := if life.Flag(t.upgradeAt) then 503 else 501;
    var e := Response(req, Fallback, status, false, t.rejectWrite.Written?, clocks, NoStream);
    Emit(cfg, life, trace, e);
    trace' := CloseWith(cfg, life, trace + [e], Refused);
  }

  /** The connection goes over to the upgraded session. */
  method DelegateUpgrade(cfg: Config, life: Life, req: nat, head: RequestHead, t: Turn, ext: seq<Entry>,
                         trace: seq<Event>)
    returns (trace': seq<Event>)
    requires Plausible(cfg, life, t) && t.upgrade == Matched(true) && !life.Flag(t.upgradeAt)
    requires At(cfg, life, trace, req, head, t, Routed(true)) && ext == Watch(cfg, life, trace).entries
    ensures var m, m' := Watch(cfg, life, trace), Watch(cfg, life, trace');
            m'.ok && m'.progress.Over? && SameReads(m, m')
    ensures trace' != [] && trace'[|trace'| - 1] == Close(HandedOver)
  {
    hide Watch;
    hide WireHonest;
    hide WriteFits;
    hide ErrorStatus;
    Emit(cfg, life, trace, Delegate(req, ext, t.upgradeAt));
    trace' := CloseWith(cfg, life, trace + [Delegate(req, ext, t.upgradeAt)], HandedOver);
  }

  /** The application branch: interceptors, plugins, handler or stream, then the response. */
  method HandleApp(cfg: Config, life: Life, req: nat, head: RequestHead, t: Turn, keepAlive: bool, ext: seq<Entry>,
                   trace: seq<Event>)
    returns (again: bool, done: bool, trace': seq<Event>)
    requires Plausible(cfg, life, t) && keepAlive == FirstDecision(cfg, life, head, req + 1, t.check)
    requires At(cfg, life, trace, req, head, t, Routed(false)) && ext == Watch(cfg, life, trace).entries
    ensures Done(cfg, life, trace, keepAlive, again, done, trace')
    ensures done <==>
              match t.answer
              case Plain(_, write) => write.Written?
              case Stream(status, _, _, _, _) => StreamWritten(t.answer, head.version, MapStatus(status, t.mappers))
  {
    hide Watch;
    hide ShouldKeepAlive;
    hide MapStatus;
    hide FirstDecision;
    Emit(cfg, life, trace, App(req, ext, t.answer.status));
    trace' := trace + [App(req, ext, t.answer.status)];
    var status := MapStatus(t.answer.status, t.mappers);
    Emit(cfg, life, trace', Mapped(req, t.mappers));
    trace' := trace' + [Mapped(req, t.mappers)];
    match t.answer
    case Stream(_, _, _, _, _) =>
      again, done, trace' := WriteStream(cfg, life, req, head, t, keepAlive, status, trace');
    case Plain(_, _) =>
      again, done, trace' := WritePlain(cfg, life, req, head, t, keepAlive, status, trace');
  }

  /** What a branch that writes a response leaves: the loop may go on, or the connection is closed. */
  ghost predicate Done(cfg: Config, life: Life, trace: seq<Event>, keepAlive: bool, again: bool, done: bool,
                       trace': seq<Event>) {
    var m, m' := Watch(cfg, life, trace), Watch(cfg, life, trace');
    && m'.ok && SameReads(m, m') && m'.late == m.late
    && m'.progress == (if done then Idle else Over)
    && (done ==> m'.goOn == again) && (again ==> done && keepAlive)
    && (!done ==> trace' != [] && trace'[|trace'| - 1] == Close(WriteFailed))
  }

  /** A response from a stream, with the second keep-alive decision made inside the writer. */
  method WriteStream(cfg: Config, life: Life, req: nat, head: RequestHead, t: Turn, keepAlive: bool, status: nat,
                     trace: seq<Event>)
    returns (again: bool, done: bool, trace': seq<Event>)
    requires Plausible(cfg, life, t) && keepAlive == FirstDecision(cfg, life, head, req + 1, t.check)
    requires At(cfg, life, trace, req, head, t, Answered(status)) && t.answer.Stream?
    ensures Done(cfg, life, trace, keepAlive, again, done, trace')
    ensures done <==> StreamWritten(t.answer, head.version, status)
  {
    hide Watch;
    hide ShouldKeepAlive;
    hide Feed;
    hide WireBody;
    hide DataBeforeEnd;
    hide IsBodyless;
    hide Completes;
    hide Received;
    var channel := new StreamChannel(t.answer.capacity);
    var atWrite, atEnd := ReadingAt(cfg, life, t.beforeWrite), ReadingAt(cfg, life, t.afterWrite);
    var env := StreamEnv(t.answer.headWrite, atWrite, t.answer.rounds, atEnd);
    var x := WriteStreamingResponse(head.version, status, t.answer.heads, keepAlive, channel, env);
    var clocks := Clocks(t.check, t.beforeWrite, t.afterWrite);
    var wire := StreamWire(head.version, x.chunks, x.body);
    var e := Response(req, Streamed, status, x.advertised, x.result.Some?, clocks, wire);
    done, trace' := Respond(cfg, life, e, trace);
    again := done && x.result.value.keepAlive;
  }

  /** A response in one piece, after the second keep-alive decision. */
  method WritePlain(cfg: Config, life: Life, req: nat, head: RequestHead, t: Turn, keepAlive: bool, status: nat,
                    trace: seq<Event>)
    returns (again: bool, done: bool, trace': seq<Event>)
    requires Plausible(cfg, life, t) && keepAlive == FirstDecision(cfg, life, head, req + 1, t.check)
    requires At(cfg, life, trace, req, head, t, Answered(status)) && t.answer.Plain?
    ensures Done(cfg, life, trace, keepAlive, again, done, trace')
    ensures done <==> t.answer.write.Written?
  {
    hide Watch;
    hide ShouldKeepAlive;
    var kept := keepAlive && ReadingAt(cfg, life, t.beforeWrite).MayContinue();
    var clocks := Clocks(t.check, t.beforeWrite, t.afterWrite);
    var e := Response(req, Normal, status, kept, t.answer.write.Written?, clocks, NoStream);
    done, trace' := Respond(cfg, life, e, trace);
    again := done && kept;
  }

  /** The rejection branch: the gate's own response, under the first keep-alive decision. */
  method HandleRejection(cfg: Config, life: Life, req: nat, head: RequestHead, t: Turn, keepAlive: bool, status: nat,
                         trace: seq<Event>)
    returns (again: bool, done: bool, trace': seq<Event>)
    requires Plausible(cfg, life, t) && keepAlive == FirstDecision(cfg, life, head, req + 1, t.check)
    requires At(cfg, life, trace, req, head, t, Rejected(status))
    ensures Done(cfg, life, trace, keepAlive, again, done, trace')
    ensures done <==> t.rejectWrite.Written?
  {
    hide Watch;
    hide ShouldKeepAlive;
    var clocks := Clocks(t.check, t.check, t.check);
    var e := Response(req, GateReject, status, keepAlive, t.rejectWrite.Written?, clocks, NoStream);
    done, trace' := Respond(cfg, life, e, trace);
    again := done && keepAlive;
  }

  /** One turn of the loop after a request has arrived. */
  method HandleRequest(cfg: Config, life: Life, req: nat, head: RequestHead, t: Turn, trace: seq<Event>)
    returns (again: bool, permitKept: bool, trace': seq<Event>)
    requires Plausible(cfg, life, t)
    requires At(cfg, life, trace, req, head, t, Fresh) && Watch(cfg, life, trace).entries == []
    ensures var m, m' := Watch(cfg, life, trace), Watch(cfg, life, trace');
            && m'.ok && SameReads(m, m')
            && m'.progress == (if again then Idle else Over)
            && (again ==> m'.goOn && m'.late == m.late && m.served < cfg.MaxRequests() && !life.Flag(t.readAt))
    ensures again ==> permitKept
    ensures !again ==> trace' != [] && (!permitKept <==> trace'[|trace'| - 1] == Close(HandedOver))
    ensures !again ==> trace'[|trace'| - 1] != Close(PeerGone)
  {
    hide Watch;
    hide ShouldKeepAlive;
    hide InsertedAll;
    hide InsertsOf;
    hide GatesCalled;
    Emit(cfg, life, trace, OnRequest(req));
    trace' := trace + [OnRequest(req)];
    var keepAlive := FirstDecision(cfg, life, head, req + 1, t.check);
    var ext := new RequestExtensions();
    var rejection;
    rejection, trace' := RunGates(cfg, life, req, t.gates, trace', ext);
    if rejection.Some? {
      again, trace' := AfterRejection(cfg, life, req, head, t, keepAlive, rejection.value, trace');
      permitKept := true;
    } else {
      again, permitKept, trace' := AfterGates(cfg, life, req, head, t, keepAlive, ext.entries, trace');
    }
  }

  /** What a turn of the loop leaves: the connection kept alive, closed, or handed over with its permit. */
  ghost predicate TurnOver(cfg: Config, life: Life, trace: seq<Event>, keepAlive: bool, again: bool, permitKept: bool,
                           trace': seq<Event>) {
    var m, m' := Watch(cfg, life, trace), Watch(cfg, life, trace');
    && m'.ok && SameReads(m, m') && m'.progress == (if again then Idle else Over)
    && (again ==> m'.goOn && m'.late == m.late && keepAlive && permitKept)
    && (!again ==>
          && trace' != [] && trace'[|trace'| - 1] != Close(PeerGone)
          && (!permitKept <==> trace'[|trace'| - 1] == Close(HandedOver)))
  }

  method AfterRejection(cfg: Config, life: Life, req: nat, head: RequestHead, t: Turn, keepAlive: bool, status: nat,
                        trace: seq<Event>)
    returns (again: bool, trace': seq<Event>)
    requires Plausible(cfg, life, t) && keepAlive == FirstDecision(cfg, life, head, req + 1, t.check)
    requires At(cfg, life, trace, req, head, t, Rejected(status))
    ensures TurnOver(cfg, life, trace, keepAlive, again, true, trace')
    ensures again ==> t.rejectWrite.Written?
  {
    hide Watch;
    hide FirstDecision;
    var done;
    again, done, trace' := HandleRejection(cfg, life, req, head, t, keepAlive, status, trace);
    if !again {
      trace' := Finish(cfg, life, trace', done);
    }
  }

  /** All gates have allowed the request: an upgrade, or the application. */
  method AfterGates(cfg: Config, life: Life, req: nat, head: RequestHead, t: Turn, keepAlive: bool, ext: seq<Entry>,
                    trace: seq<Event>)
    returns (again: bool, permitKept: bool, trace': seq<Event>)
    requires Plausible(cfg, life, t) && keepAlive == FirstDecision(cfg, life, head, req + 1, t.check)
    requires At(cfg, life, trace, req, head, t, Gating(cfg.gateCount)) && ext == Watch(cfg, life, trace).entries
    ensures TurnOver(cfg, life, trace, keepAlive, again, permitKept, trace')
    ensures !permitKept <==> t.upgrade == Matched(true) && !life.Flag(t.upgradeAt)
    ensures again ==> t.upgrade == NoMatch
  {
    hide Watch;
    hide FirstDecision;
    var matched := t.upgrade.Matched?;
    Emit(cfg, life, trace, Matching(req, ext, matched));
    trace' := trace + [Matching(req, ext, matched)];
    if matched {
      permitKept, trace' := HandleUpgrade(cfg, life, req, head, t, ext, trace');
      return false, permitKept, trace';
    }
    var done;
    permitKept := true;
    again, done, trace' := HandleApp(cfg, life, req, head, t, keepAlive, ext, trace');
    if !again {
      trace' := Finish(cfg, life, trace', done);
    }
  }

  /** The connection is not kept: closes it unless a failed write already did. */
  method Finish(cfg: Config, life: Life, trace: seq<Event>, done: bool) returns (trace': seq<Event>)
    requires var m := Watch(cfg, life, trace); m.ok && (if done then m.progress.Idle? && !m.goOn else m.progress.Over?)
    requires !done ==> trace != [] && trace[|trace| - 1] == Close(WriteFailed)
    ensures Watch(cfg, life, trace') == Watch(cfg, life, trace).(progress := Over)
    ensures trace' != [] && trace'[|trace'| - 1] != Close(HandedOver) && trace'[|trace'| - 1] != Close(PeerGone)
  {
    if done {
      trace' := CloseWith(cfg, life, trace, NotKeptAlive);
    } else {
      trace' := trace;
    }
  }

  /**
    The connection. Every trace it emits is allowed by the monitor and runs to a
    close; at most `max(1, max_requests_per_connection)` requests are read (the
    measure of the loop); the permit leaves with a delegated upgrade and in no
    other way. The requests handled are, however the bytes arrive, the first ones
    on the wire, in order; all of them if the peer closed; and an upgrade gets
    the bytes that follow.
   */
  method HandleConnection(cfg: Config, life: Life, io: ReadConfig, reader: Socket)
    returns (trace: seq<Event>, permitKept: bool, leftover: Text)
    requires forall i :: Plausible(cfg, life, life.env(i))
    requires io.maxBody <= U64_MAX
    modifies reader
    ensures var m := Watch(cfg, life, trace);
            && m.ok && m.progress.Over?
            && m.served <= if cfg.maxRequestsPerConnection == 0 then 1 else cfg.maxRequestsPerConnection
    ensures trace != [] && (!permitKept <==> trace[|trace| - 1] == Close(HandedOver))
    ensures var m := Watch(cfg, life, trace);
            var stream := old(reader.Rest());
            && ServesFrom(io, stream, reader.broken, m)
            && (trace[|trace| - 1] == Close(PeerGone) ==>
                  ReadAll(io, stream, reader.broken) == Transcript(m.requests, None))
            && (!permitKept ==>
                  leftover + reader.Rest() == AfterRequests(io, stream, reader.broken, |m.requests|))
  {
    hide Watch;
    hide ReadAll;
    hide AfterRequests;
    hide ShouldKeepAlive;
    hide ReadsUpTo;
    hide ServesFrom;
    hide Allowed;
    hide After;
    hide Plausible;
    trace, leftover := [], [];
    var buf := new RecvBuffer();
    ghost var stream := reader.Rest();
    var served := 0;
    EmptyTrace(cfg, life);
    NothingReadYet(io, stream, reader.broken);
    assert buf.Unread() + reader.Rest() == stream;
    while true
      invariant buf.Valid() && fresh(buf)
      invariant 0 <= served < cfg.MaxRequests()
      invariant var m := Watch(cfg, life, trace);
                m.ok && m.progress.Idle? && m.goOn && m.served == served && m.late == 0
      invariant var m := Watch(cfg, life, trace);
                && m.failed == None && |m.requests| == served
                && ReadsUpTo(io, stream, reader.broken, m.requests, buf.Unread() + reader.Rest())
      decreases cfg.MaxRequests() - served
    {
      var t := life.env(served);
      var waiting;
      waiting, trace := ArmRead(cfg, life, t, trace);
      if !waiting {
        ReadsUpToServes(io, stream, reader.broken, Watch(cfg, life, trace), buf.Unread() + reader.Rest());
        return trace, true, [];
      }
      var read := ReadNext(io, reader, buf, stream, Watch(cfg, life, trace).requests);
      if read.Err? {
        trace := ReplyToError(cfg, life, served, read.error, t.errorWrite, trace);
        AllServed(io, stream, reader.broken, Watch(cfg, life, trace));
        return trace, true, [];
      }
      if read.value.None? {
        trace := CloseWith(cfg, life, trace, PeerGone);
        AllServed(io, stream, reader.broken, Watch(cfg, life, trace));
        return trace, true, [];
      }
      var request := read.value.value;
      var again;
      again, permitKept, trace := ServeRead(cfg, life, served, t, request, trace);
      served := served + 1;
      if !again {
        leftover := buf.GetUnread();
        ReadsUpToServes(io, stream, reader.broken, Watch(cfg, life, trace), leftover + reader.Rest());
        return;
      }
    }
  }

  /** Arms the read deadline; closes when the lifetime is over or the read times out. */
  method ArmRead(cfg: Config, life: Life, t: Turn, trace: seq<Event>) returns (waiting: bool, trace': seq<Event>)
    requires Plausible(cfg, life, t)
    requires var m := Watch(cfg, life, trace); m.ok && m.progress.Idle? && m.goOn && t == life.env(m.served)
    ensures waiting <==> t.top < life.start + cfg.maxConnectionLifetime && !t.readTimedOut
    ensures Watch(cfg, life, trace') == Watch(cfg, life, trace).(progress := if waiting then AwaitingRead else Over)
    ensures trace' != []
    ensures !waiting ==> trace'[|trace'| - 1] != Close(HandedOver) && trace'[|trace'| - 1] != Close(PeerGone)
  {
    hide Watch;
    if t.top - life.start >= cfg.maxConnectionLifetime {
      trace' := CloseWith(cfg, life, trace, LifetimeOver(t.top));
      return false, trace';
    }
    var deadline := Deadline(ReadDeadline(cfg, life, t.top, t.now), t.top, t.now);
    DeadlineBound(cfg, life, t.top, t.now);
    Emit(cfg, life, trace, deadline);
    trace' := trace + [deadline];
    if t.readTimedOut {
      trace' := CloseWith(cfg, life, trace', ReadTimedOut);
      return false, trace';
    }
    return true, trace';
  }

  /** A request that has arrived is recorded and handled. */
  method ServeRead(cfg: Config, life: Life, served: nat, t: Turn, request: Request, trace: seq<Event>)
    returns (again: bool, permitKept: bool, trace': seq<Event>)
    requires Plausible(cfg, life, t) && served < cfg.MaxRequests()
    requires t == life.env(served) && !t.readTimedOut
    requires var m := Watch(cfg, life, trace); m.ok && m.progress.AwaitingRead? && m.served == served && m.late == 0
    ensures var m, m' := Watch(cfg, life, trace), Watch(cfg, life, trace');
            && m'.ok && m'.served == served + 1 && m'.requests == m.requests + [request] && m'.failed == m.failed
            && m'.progress == (if again then Idle else Over)
            && (again ==> m'.goOn && m'.late == 0 && served + 1 < cfg.MaxRequests() && permitKept)
    ensures !again ==> trace' != [] && (!permitKept <==> trace'[|trace'| - 1] == Close(HandedOver))
    ensures !again ==> trace'[|trace'| - 1] != Close(PeerGone)
  {
    hide Watch;
    hide Allowed;
    hide After;
    EmitRead(cfg, life, trace, served, t.readAt, request);
    trace' := trace + [ReadDone(served, t.readAt, request)];
    again, permitKept, trace' := HandleRequest(cfg, life, served, request.head, t, trace');
  }

  /** The event of a request that has arrived. */
  lemma EmitRead(cfg: Config, life: Life, trace: seq<Event>, served: nat, readAt: nat, request: Request)
    requires var m := Watch(cfg, life, trace);
             m.ok && m.progress.AwaitingRead? && m.served == served && m.late == 0
    requires served < cfg.MaxRequests() && life.start <= readAt
    requires readAt == life.env(served).readAt && !life.env(served).readTimedOut
    ensures Watch(cfg, life, trace + [ReadDone(served, readAt, request)])
         == Watch(cfg, life, trace).(
              progress := Fresh, served := served + 1, head := Some(request.head), readAt := readAt, entries := [],
              late := if life.Flag(readAt) then 1 else 0,
              requests := Watch(cfg, life, trace).requests + [request])
  {
    hide Watch;
    Emit(cfg, life, trace, ReadDone(served, readAt, request));
  }

  /** One read of the loop, told by its place in the whole stream. */
  method ReadNext(io: ReadConfig, reader: Socket, buf: RecvBuffer, ghost stream: Text, ghost requests: seq<Request>)
    returns (r: Result<Option<Request>, RequestError>)
    requires buf.Valid() && io.maxBody <= U64_MAX
    requires ReadsUpTo(io, stream, reader.broken, requests, buf.Unread() + reader.Rest())
    modifies reader, buf
    ensures buf.Valid()
    ensures r.Err? ==> ReadAll(io, stream, reader.broken) == Transcript(requests, Some(r.error))
    ensures r == Ok(None) ==> ReadAll(io, stream, reader.broken) == Transcript(requests, None)
    ensures r.Ok? && r.value.Some? ==>
              ReadsUpTo(io, stream, reader.broken, requests + [r.value.value], buf.Unread() + reader.Rest())
  {
    hide NextRequest;
    hide ReadsUpTo;
    hide ReadAll;
    ReadsOneMore(io, stream, reader.broken, requests, buf.Unread() + reader.Rest());
    r := ReadRequestWithLimit(io, reader, buf);
  }

  /** What was read is the beginning of what the stream holds; all of it if a read failed. */
  ghost predicate ServesFrom(io: ReadConfig, stream: Text, broken: bool, m: Monitor) {
    var whole := ReadAll(io, stream, broken);
    && m.requests <= whole.requests
    && (m.failed.Some? ==> whole == Transcript(m.requests, m.failed))
  }

  /** `requests` are the first ones of `stream`, and `rest` is what follows them. */
  ghost predicate ReadsUpTo(io: ReadConfig, stream: Text, broken: bool, requests: seq<Request>, rest: Text) {
    && rest == AfterRequests(io, stream, broken, |requests|)
    && var t := ReadAll(io, rest, broken);
       ReadAll(io, stream, broken) == Transcript(requests + t.requests, t.error)
  }

  lemma NothingReadYet(io: ReadConfig, stream: Text, broken: bool)
    ensures ReadsUpTo(io, stream, broken, [], stream)
  {
    var t := ReadAll(io, stream, broken);
    assert [] + t.requests == t.requests;
  }

  lemma ReadsUpToServes(io: ReadConfig, stream: Text, broken: bool, m: Monitor, rest: Text)
    requires ReadsUpTo(io, stream, broken, m.requests, rest) && m.failed == None
    ensures ServesFrom(io, stream, broken, m)
    ensures rest == AfterRequests(io, stream, broken, |m.requests|)
  {
  }

  lemma AllServed(io: ReadConfig, stream: Text, broken: bool, m: Monitor)
    requires ReadAll(io, stream, broken) == Transcript(m.requests, m.failed)
    ensures ServesFrom(io, stream, broken, m)
  {
  }

  /** One more read: the next request, the end of everything, or the error that ends it. */
  lemma ReadsOneMore(io: ReadConfig, stream: Text, broken: bool, requests: seq<Request>, rest: Text)
    requires ReadsUpTo(io, stream, broken, requests, rest)
    ensures var next := NextRequest(io, rest, broken);
            && (next.Got? ==> ReadsUpTo(io, stream, broken, requests + [next.request], rest[next.consumed..]))
            && (next.End? ==> ReadAll(io, stream, broken) == Transcript(requests, None))
            && (next.Failed? ==> ReadAll(io, stream, broken) == Transcript(requests, Some(next.error)))
  {
    hide NextRequest;
    var next := NextRequest(io, rest, broken);
    if next.Got? {
      AfterOneMore(io, stream, broken, |requests|);
      var t := ReadAll(io, rest[next.consumed..], broken);
      assert requests + ([next.request] + t.requests) == requests + [next.request] + t.requests;
    } else {
      assert requests + [] == requests;
    }
  }

  /** A failed read is answered, when there is someone to answer, and ends the connection. */
  method ReplyToError(cfg: Config, life: Life, req: nat, error: RequestError, write: WriteResult, trace: seq<Event>)
    returns (trace': seq<Event>)
    requires write == life.env(req).errorWrite && !life.env(req).readTimedOut
    requires var m := Watch(cfg, life, trace); m.ok && m.progress.AwaitingRead? && m.served == req
    ensures var m, m' := Watch(cfg, life, trace), Watch(cfg, life, trace');
            && m'.ok && m'.progress.Over? && m'.served == m.served && m'.requests == m.requests
            && m'.failed == Some(error)
    ensures trace' != [] && trace'[|trace'| - 1] != Close(HandedOver) && trace'[|trace'| - 1] != Close(PeerGone)
  {
    hide WireHonest;
    hide StreamWritten;
    hide Watch;
    Emit(cfg, life, trace, ReadError(error));
    trace' := trace + [ReadError(error)];
    var status := ErrorStatus(error);
    if status.None? {
      trace' := CloseWith(cfg, life, trace', ReadBroken);
      return;
    }
    var e := Response(req, ErrorReply, status.value, false, write.Written?, Clocks(0, 0, 0), NoStream);
    Emit(cfg, life, trace', e);
    trace' := CloseWith(cfg, life, trace' + [e], Refused);
  }

  lemma EmptyTrace(cfg: Config, life: Life)
    ensures Watch(cfg, life, []) == Watching
  {
  }
}
