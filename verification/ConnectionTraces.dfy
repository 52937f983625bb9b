/** What the traces allowed by the monitor look like, event by event. */
module ConnectionTraces {
  import opened Bytes
  import opened RequestHeads
  import opened BodyFraming
  import opened HeaderNames
  import opened Extensions
  import opened Connections
  import opened ChunkedSpec
  import opened ChunkedCodec
  import opened Streaming
  import opened ConnectionLoop

  /** The monitor just before event `i`. */
  ghost function Before(cfg: Config, life: Life, trace: seq<Event>, i: nat): Monitor
    requires i <= |trace|
  {
    Watch(cfg, life, trace[..i])
  }

  ghost predicate Accepted(cfg: Config, life: Life, trace: seq<Event>) {
    Watch(cfg, life, trace).ok
  }

  /** In an accepted trace every event was allowed when it happened. */
  lemma {:induction false} EveryEventAllowed(cfg: Config, life: Life, trace: seq<Event>, i: nat)
    requires Accepted(cfg, life, trace) && i < |trace|
    ensures Before(cfg, life, trace, i).ok && Allowed(cfg, life, Before(cfg, life, trace, i), trace[i])
    ensures Before(cfg, life, trace, i + 1) == Observe(cfg, life, Before(cfg, life, trace, i), trace[i])
    decreases |trace|
  {
    var n := |trace| - 1;
    assert trace[..i + 1][..i] == trace[..i] && trace[..i + 1][i] == trace[i];
    if i < n {
      EveryEventAllowed(cfg, life, trace[..n], i);
      assert trace[..n][..i] == trace[..i] && trace[..n][..i + 1] == trace[..i + 1];
    } else {
      assert trace[..i + 1] == trace;
    }
  }

  // ---- counting reads ----

  function Reads(trace: seq<Event>): nat {
    if trace == [] then 0 else Reads(trace[..|trace| - 1]) + if trace[|trace| - 1].ReadDone? then 1 else 0
  }

  /** Requests whose read ended when the shutdown flag was set. */
  function LateReads(life: Life, trace: seq<Event>): nat {
    if trace == [] then 0
    else
      var e := trace[|trace| - 1];
      LateReads(life, trace[..|trace| - 1]) + if e.ReadDone? && life.Flag(e.clock) then 1 else 0
  }

  lemma {:induction false} ReadsAreCounted(cfg: Config, life: Life, trace: seq<Event>)
    ensures Watch(cfg, life, trace).served == Reads(trace)
    ensures Watch(cfg, life, trace).late == LateReads(life, trace)
  {
    hide Observe;
    if trace != [] {
      var n := |trace| - 1;
      ReadsAreCounted(cfg, life, trace[..n]);
      ObserveCounts(cfg, life, Watch(cfg, life, trace[..n]), trace[n]);
    }
  }

  /** What an event adds to the monitor's counts and records. */
  lemma ObserveCounts(cfg: Config, life: Life, m: Monitor, e: Event)
    ensures var m' := Observe(cfg, life, m, e);
            && m'.served == m.served + (if e.ReadDone? then 1 else 0)
            && m'.late == m.late + (if e.ReadDone? && life.Flag(e.clock) then 1 else 0)
            && m'.requests == m.requests + (if e.ReadDone? then [e.request] else [])
            && m'.failed == if e.ReadError? then Some(e.error) else m.failed
  {
    hide Allowed;
  }

  /** The requests of the reads, in order. */
  function RequestsIn(trace: seq<Event>): seq<Request> {
    if trace == [] then []
    else
      var e := trace[|trace| - 1];
      RequestsIn(trace[..|trace| - 1]) + if e.ReadDone? then [e.request] else []
  }

  /** The monitor's record of what was read is what the trace says. */
  lemma {:induction false} ReadsAreRemembered(cfg: Config, life: Life, trace: seq<Event>)
    ensures Watch(cfg, life, trace).requests == RequestsIn(trace)
    ensures Watch(cfg, life, trace).failed.Some? <==> exists i :: 0 <= i < |trace| && trace[i].ReadError?
  {
    hide Observe;
    if trace != [] {
      var n := |trace| - 1;
      ReadsAreRemembered(cfg, life, trace[..n]);
      ObserveCounts(cfg, life, Watch(cfg, life, trace[..n]), trace[n]);
      assert trace == trace[..n] + [trace[n]];
    }
  }

  /** At most `max(1, max_requests_per_connection)` reads, at most one of them after shutdown. */
  lemma {:induction false} ReadsAreBounded(cfg: Config, life: Life, trace: seq<Event>)
    requires Accepted(cfg, life, trace)
    ensures Reads(trace) <= if cfg.maxRequestsPerConnection == 0 then 1 else cfg.maxRequestsPerConnection
    ensures LateReads(life, trace) <= 1
  {
    if trace != [] {
      var n := |trace| - 1;
      EveryEventAllowed(cfg, life, trace, n);
      ReadsAreBounded(cfg, life, trace[..n]);
      ReadsAreCounted(cfg, life, trace[..n]);
    }
  }

  // ---- keep-alive honesty ----

  /** The monitor can only run out: nothing will be read any more. */
  predicate RunningOut(m: Monitor) {
    && !m.goOn
    && (m.progress.HookDue? || m.progress.Broken? || m.progress.Refusing? || m.progress.Idle? || m.progress.Over?)
  }

  lemma {:induction false} StaysRunningOut(cfg: Config, life: Life, trace: seq<Event>, i: nat, j: nat)
    requires Accepted(cfg, life, trace) && i <= j <= |trace|
    requires RunningOut(Before(cfg, life, trace, i))
    ensures RunningOut(Before(cfg, life, trace, j))
    decreases j - i
  {
    hide Watch;
    if i < j {
      StaysRunningOut(cfg, life, trace, i, j - 1);
      EveryEventAllowed(cfg, life, trace, j - 1);
    }
  }

  /** A response without keep-alive is never followed by another read, nor by an attempt at one. */
  lemma CloseIsHonest(cfg: Config, life: Life, trace: seq<Event>, i: nat, j: nat)
    requires Accepted(cfg, life, trace) && i < j < |trace|
    requires trace[i].Response? && !trace[i].keepAlive
    ensures !trace[j].ReadDone? && !trace[j].Deadline? && !trace[j].ReadError?
  {
    hide Watch;
    EveryEventAllowed(cfg, life, trace, i);
    StaysRunningOut(cfg, life, trace, i + 1, j);
    EveryEventAllowed(cfg, life, trace, j);
  }

  /** From a read on, until the next one, the monitor remembers it. */
  lemma {:induction false} Remembers(cfg: Config, life: Life, trace: seq<Event>, i: nat, j: nat)
    requires Accepted(cfg, life, trace) && i < j <= |trace| && trace[i].ReadDone?
    ensures var m := Before(cfg, life, trace, j);
            && m.served >= trace[i].req + 1
            && (m.served == trace[i].req + 1 ==> m.readAt == trace[i].clock && m.head == Some(trace[i].request.head))
    decreases j
  {
    hide Watch;
    EveryEventAllowed(cfg, life, trace, j - 1);
    if j > i + 1 {
      Remembers(cfg, life, trace, i, j - 1);
    }
  }

  /**
    Keep-alive, exactly: the response to a request announces it if and only if
    the server enables it, the request's `Connection` headers do not list "close"
    and (before HTTP/1.1) do list "keep-alive", the request budget is not used up,
    and lifetime and shutdown allow it at the first check and (unless a gate
    rejected) at the second one right before the write.
   */
  lemma KeepAliveExactly(cfg: Config, life: Life, trace: seq<Event>, i: nat, j: nat)
    requires Accepted(cfg, life, trace) && i < j < |trace|
    requires trace[i].ReadDone? && trace[j].Response? && !trace[j].kind.ErrorReply? && trace[j].req == trace[i].req
    ensures var r, c, head := trace[j], trace[j].clocks, trace[i].request.head;
            var tokens := Named(head.headers, "connection");
            var end := life.start + cfg.maxConnectionLifetime;
            r.keepAlive <==>
            && (r.kind.GateReject? || r.kind.Normal? || r.kind.Streamed?)
            && cfg.keepAliveEnabled
            && !Says(tokens, "close") && (head.version == Http11 || (Says(tokens, "keep-alive") && !r.kind.Streamed?))
            && r.req + 1 < (if cfg.maxRequestsPerConnection == 0 then 1 else cfg.maxRequestsPerConnection)
            && c.check < end && !life.Flag(c.check)
            && (r.kind.GateReject? || (c.write < end && !life.Flag(c.write)))
    ensures trace[i].clock <= trace[j].clocks.check <= trace[j].clocks.write
    ensures trace[j].clocks == ClocksOf(life.env(trace[j].req), trace[j].kind)
  {
    hide Watch;
    hide ShouldKeepAlive;
    hide WireHonest;
    hide Named;
    hide Says;
    EveryEventAllowed(cfg, life, trace, j);
    Remembers(cfg, life, trace, i, j);
    ShouldKeepAliveExactly(trace[i].request.head);
  }

  // ---- draining ----

  /**
    The drain contract: a request read after the flag is set is answered without
    keep-alive and never delegated; at most one such request is read.
   */
  lemma DrainContract(cfg: Config, life: Life, trace: seq<Event>, i: nat, j: nat)
    requires Accepted(cfg, life, trace) && i < j < |trace|
    requires trace[i].ReadDone? && life.Flag(trace[i].clock)
    ensures trace[j].Response? && !trace[j].kind.ErrorReply? && trace[j].req == trace[i].req ==> !trace[j].keepAlive
    ensures !(trace[j].Delegate? && trace[j].req == trace[i].req)
    ensures LateReads(life, trace) <= 1
  {
    hide Watch;
    ReadsAreBounded(cfg, life, trace);
    if trace[j].Response? && !trace[j].kind.ErrorReply? && trace[j].req == trace[i].req {
      KeepAliveExactly(cfg, life, trace, i, j);
    }
    EveryEventAllowed(cfg, life, trace, j);
    Remembers(cfg, life, trace, i, j);
  }

  /** A request read under the flag is in hand, or what follows it is running out. */
  predicate Draining(life: Life, m: Monitor) {
    || m.progress.Over? || RunningOut(m)
    || (life.Flag(m.readAt)
        && (m.progress.Fresh? || m.progress.Gating? || m.progress.Rejected? || m.progress.Routed? || m.progress.Running?
            || m.progress.Answered? || m.progress.Handed?))
  }

  lemma {:induction false} StaysDraining(cfg: Config, life: Life, trace: seq<Event>, i: nat, j: nat)
    requires Accepted(cfg, life, trace) && i < j <= |trace|
    requires trace[i].ReadDone? && life.Flag(trace[i].clock)
    ensures Draining(life, Before(cfg, life, trace, j))
    decreases j
  {
    hide Watch;
    hide ShouldKeepAlive;
    EveryEventAllowed(cfg, life, trace, j - 1);
    if j > i + 1 {
      StaysDraining(cfg, life, trace, i, j - 1);
    }
  }

  /** After a read under the flag nothing is read any more, nor is it tried. */
  lemma NoReadAfterLate(cfg: Config, life: Life, trace: seq<Event>, i: nat, j: nat)
    requires Accepted(cfg, life, trace) && i < j < |trace|
    requires trace[i].ReadDone? && life.Flag(trace[i].clock)
    ensures !trace[j].ReadDone? && !trace[j].Deadline? && !trace[j].ReadError?
  {
    hide Watch;
    StaysDraining(cfg, life, trace, i, j);
    EveryEventAllowed(cfg, life, trace, j);
  }

  lemma {:induction false} AllReadsAreLate(cfg: Config, life: Life, trace: seq<Event>)
    requires Accepted(cfg, life, trace) && life.Flag(life.start)
    ensures LateReads(life, trace) == Reads(trace)
    ensures Reads(trace) > 0 ==> life.start <= Watch(cfg, life, trace).readAt
  {
    if trace != [] {
      EveryEventAllowed(cfg, life, trace, |trace| - 1);
      AllReadsAreLate(cfg, life, trace[..|trace| - 1]);
      ReadsAreCounted(cfg, life, trace[..|trace| - 1]);
    }
  }

  /**
    A connection accepted after its generation's flag was set, as those recovered
    from the backlog of a replaced listener are, serves at most one request and
    is never handed over to an upgrade.
   */
  lemma RecoveredConnectionServesAtMostOne(cfg: Config, life: Life, trace: seq<Event>, j: nat)
    requires Accepted(cfg, life, trace) && life.Flag(life.start) && j < |trace|
    ensures Reads(trace) <= 1
    ensures !trace[j].Delegate?
  {
    AllReadsAreLate(cfg, life, trace);
    ReadsAreBounded(cfg, life, trace);
    EveryEventAllowed(cfg, life, trace, j);
    var m := Before(cfg, life, trace, j);
    if trace[j].Delegate? {
      AllReadsAreLate(cfg, life, trace[..j]);
      ReadsAreCounted(cfg, life, trace[..j]);
      assert false;
    }
  }

  // ---- gates ----

  /** The inserts of consecutive gate events. */
  function InsertsIn(events: seq<Event>): seq<Entry> {
    if events == [] then []
    else InsertsIn(events[..|events| - 1]) + (if events[|events| - 1].Gate? then events[|events| - 1].inserts else [])
  }

  /** `events` are the calls of the first gates for one request, all of them allowing it. */
  predicate AllGatesAllow(events: seq<Event>, req: nat) {
    forall g :: 0 <= g < |events| ==>
      events[g].Gate? && events[g].req == req && events[g].index == g && events[g].verdict.None?
  }

  /** The trace ends with the read and the request hook of `req` and `c` allowing gate calls. */
  predicate GatesRan(trace: seq<Event>, c: nat, req: nat, entries: seq<Entry>) {
    var n := |trace|;
    && n >= c + 2 && trace[n - c - 2].ReadDone? && trace[n - c - 2].req == req
    && trace[n - c - 1] == OnRequest(req)
    && AllGatesAllow(trace[n - c..], req)
    && entries == InsertedAll([], InsertsIn(trace[n - c..]))
  }

  lemma NoGatesRan(trace: seq<Event>, req: nat)
    requires trace != [] && trace[|trace| - 1].ReadDone? && trace[|trace| - 1].req == req
    ensures GatesRan(trace + [OnRequest(req)], 0, req, [])
  {
    assert (trace + [OnRequest(req)])[|trace| + 1..] == [];
  }

  lemma OneMoreGateRan(trace: seq<Event>, c: nat, req: nat, entries: seq<Entry>, inserts: seq<Entry>)
    requires GatesRan(trace, c, req, entries)
    ensures GatesRan(trace + [Gate(req, c, inserts, None)], c + 1, req, InsertedAll(entries, inserts))
  {
    hide InsertedAll;
    var e := Gate(req, c, inserts, None);
    var calls, trace' := trace[|trace| - c..], trace + [e];
    assert trace'[|trace'| - (c + 1)..] == calls + [e];
    assert (calls + [e])[..c] == calls;
    InsertedAllAppend([], InsertsIn(calls), inserts);
  }

  /** What the monitor's gate states say about the end of the trace. */
  predicate GatePhase(m: Monitor, trace: seq<Event>) {
    && (m.progress.Fresh? ==>
          m.entries == [] && trace != [] && trace[|trace| - 1].ReadDone? && trace[|trace| - 1].req + 1 == m.served)
    && (m.progress.Gating? ==> m.served > 0 && GatesRan(trace, m.progress.called, m.served - 1, m.entries))
  }

  lemma GatePhaseStep(cfg: Config, life: Life, m: Monitor, trace: seq<Event>, e: Event)
    requires GatePhase(m, trace) && Allowed(cfg, life, m, e)
    ensures GatePhase(Observe(cfg, life, m, e), trace + [e])
  {
    hide KeepAliveDue;
    hide WriteFits;
    hide WireHonest;
    hide GatesRan;
    hide InsertedAll;
    match e
    case OnRequest(req) => NoGatesRan(trace, req);
    case Gate(req, index, inserts, verdict) =>
      if verdict.None? {
        OneMoreGateRan(trace, index, req, m.entries, inserts);
      }
    case _ =>
  }

  lemma {:induction false} GatingHistory(cfg: Config, life: Life, trace: seq<Event>)
    requires Accepted(cfg, life, trace)
    ensures GatePhase(Watch(cfg, life, trace), trace)
  {
    if trace != [] {
      var n := |trace| - 1;
      EveryEventAllowed(cfg, life, trace, n);
      GatingHistory(cfg, life, trace[..n]);
      assert trace[..n] + [trace[n]] == trace;
      GatePhaseStep(cfg, life, Watch(cfg, life, trace[..n]), trace[..n], trace[n]);
    }
  }

  /**
    Gate isolation: upgrade matching, delegation and application code run for a
    request only after all of its gates allowed it, in order, right after its own
    read and request hook; and the extensions they see are those of exactly these
    gate calls, the first insert per type winning.
   */
  lemma CodeRunsOnlyThroughItsGates(cfg: Config, life: Life, trace: seq<Event>, j: nat) returns (p: nat)
    requires Accepted(cfg, life, trace) && j < |trace|
    requires trace[j].App? || trace[j].Delegate? || trace[j].Matching?
    ensures p <= j && GatesRan(trace[..p], cfg.gateCount, trace[j].req, trace[j].ext)
    ensures j == p || (j == p + 1 && trace[p].Matching?)
    ensures var calls := trace[p - cfg.gateCount..p];
            forall id :: Lookup(trace[j].ext, id) == Lookup(InsertsIn(calls), id)
  {
    hide Watch;
    hide GatesRan;
    EveryEventAllowed(cfg, life, trace, j);
    p := j;
    if !trace[j].Matching? {
      RoutedHistory(cfg, life, trace[..j]);
      assert trace[..j][j - 1] == trace[j - 1] && trace[..j][..j - 1] == trace[..j - 1];
      p := j - 1;
      EveryEventAllowed(cfg, life, trace, p);
    }
    GatingHistory(cfg, life, trace[..p]);
    SeenIsFirstInserted(trace[..p], cfg.gateCount, trace[j].req, trace[j].ext);
    assert trace[..p][p - cfg.gateCount..] == trace[p - cfg.gateCount..p];
  }

  lemma SeenIsFirstInserted(trace: seq<Event>, c: nat, req: nat, entries: seq<Entry>)
    requires GatesRan(trace, c, req, entries)
    ensures c <= |trace| && forall id :: Lookup(entries, id) == Lookup(InsertsIn(trace[|trace| - c..]), id)
  {
    var inserts := InsertsIn(trace[|trace| - c..]);
    forall id ensures Lookup(entries, id) == Lookup(inserts, id) {
      FirstInsertWins([], inserts, id);
      assert [] + inserts == inserts;
    }
  }

  lemma RoutedHistory(cfg: Config, life: Life, trace: seq<Event>)
    requires Accepted(cfg, life, trace) && Watch(cfg, life, trace).progress.Routed?
    ensures trace != [] && trace[|trace| - 1].Matching?
    ensures var m := Watch(cfg, life, trace[..|trace| - 1]);
            m.served == Watch(cfg, life, trace).served && m.entries == Watch(cfg, life, trace).entries
  {
    EveryEventAllowed(cfg, life, trace, |trace| - 1);
  }

  /** Past a rejection: nothing but the response is left for that request. */
  predicate PastRejection(m: Monitor, req: nat) {
    && m.served >= req + 1
    && (m.served == req + 1 ==>
          !(m.progress.Fresh? || m.progress.Gating? || m.progress.Routed? || m.progress.Running? || m.progress.Answered?
            || m.progress.Handed?))
  }

  lemma {:induction false} StaysPastRejection(cfg: Config, life: Life, trace: seq<Event>, i: nat, j: nat)
    requires Accepted(cfg, life, trace) && i < j <= |trace|
    requires trace[i].Gate? && trace[i].verdict.Some?
    ensures PastRejection(Before(cfg, life, trace, j), trace[i].req)
    decreases j
  {
    hide Watch;
    EveryEventAllowed(cfg, life, trace, j - 1);
    if j > i + 1 {
      StaysPastRejection(cfg, life, trace, i, j - 1);
    }
  }

  /** After the first rejection no gate, upgrade or application code runs for that request. */
  lemma RejectionIsFinal(cfg: Config, life: Life, trace: seq<Event>, i: nat, j: nat)
    requires Accepted(cfg, life, trace) && i < j < |trace|
    requires trace[i].Gate? && trace[i].verdict.Some?
    ensures trace[j].Gate? || trace[j].App? || trace[j].Delegate? || trace[j].Matching? ==> trace[j].req > trace[i].req
  {
    hide Watch;
    StaysPastRejection(cfg, life, trace, i, j);
    EveryEventAllowed(cfg, life, trace, j);
  }

  // ---- hooks ----

  /** A complete response of a hooked kind. */
  predicate CompleteResponse(e: Event) {
    e.Response? && Hooked(e.kind) && e.complete
  }

  /** When a response hook is due, the last event was its complete response. */
  lemma HookDueHistory(cfg: Config, life: Life, trace: seq<Event>)
    requires Accepted(cfg, life, trace) && Watch(cfg, life, trace).progress.HookDue?
    ensures trace != [] && CompleteResponse(trace[|trace| - 1])
    ensures trace[|trace| - 1].status == Watch(cfg, life, trace).progress.status
    ensures trace[|trace| - 1].req + 1 == Watch(cfg, life, trace).served
  {
    EveryEventAllowed(cfg, life, trace, |trace| - 1);
  }

  /**
    Response hooks occur exactly after complete gate-reject, normal and streaming
    responses, with the status that was written.
   */
  lemma HooksFollowCompleteResponses(cfg: Config, life: Life, trace: seq<Event>, j: nat)
    requires Accepted(cfg, life, trace) && Watch(cfg, life, trace).progress.Over?
    requires 0 < j <= |trace|
    ensures CompleteResponse(trace[j - 1]) <==> j < |trace| && trace[j].OnResponse?
    ensures CompleteResponse(trace[j - 1]) ==> trace[j] == OnResponse(trace[j - 1].req, trace[j - 1].status)
  {
    hide KeepAliveDue;
    hide WriteFits;
    hide WireHonest;
    hide Watch;
    EveryEventAllowed(cfg, life, trace, j - 1);
    if j < |trace| {
      EveryEventAllowed(cfg, life, trace, j);
      if trace[j].OnResponse? {
        HookDueHistory(cfg, life, trace[..j]);
        assert trace[..j][j - 1] == trace[j - 1];
      }
    } else {
      assert trace[..j] == trace;
    }
  }

  /**
    The events of a request are those of its own turn: the gates' inserts and
    verdicts, the upgrade match, the application's status, the mappers; and a
    response is complete exactly if the turn's writes for it succeed.
   */
  lemma EventsFollowTheirTurn(cfg: Config, life: Life, trace: seq<Event>, j: nat)
    requires Accepted(cfg, life, trace) && j < |trace|
    requires !trace[j].Close? && !trace[j].Deadline? && !trace[j].ReadError?
    ensures var e, t := trace[j], life.env(trace[j].req);
            && (e.ReadDone? ==> e.clock == t.readAt && !t.readTimedOut)
            && (e.Gate? ==> e.index < |t.gates| && t.gates[e.index] == GateRun(e.inserts, e.verdict))
            && (e.Matching? ==> (e.matched <==> t.upgrade.Matched?))
            && (e.Delegate? ==> t.upgrade == Matched(true) && e.clock == t.upgradeAt && !life.Flag(t.upgradeAt))
            && (e.App? ==> e.status == t.answer.status)
            && (e.Mapped? ==> e.mappers == t.mappers)
            && (e.Response? ==> e.complete == WritesSucceed(t, e))
  {
    hide Watch;
    hide ShouldKeepAlive;
    hide KeepAliveDue;
    EveryEventAllowed(cfg, life, trace, j);
  }

  /** The turn's writes for a response of this kind all succeed. */
  predicate WritesSucceed(t: Turn, e: Event)
    requires e.Response?
  {
    match e.kind
    case GateReject => t.rejectWrite.Written?
    case Fallback => t.rejectWrite.Written?
    case ErrorReply => t.errorWrite.Written?
    case Normal => t.answer.Plain? && t.answer.write.Written?
    case Streamed =>
      && t.answer.Stream? && e.wire.StreamWire? && t.answer.headWrite.Written?
      && (IsBodyless(e.status) || Completes(e.wire.version, FreshChan(t.answer.capacity), t.answer.rounds))
  }

  /** A response hook means that the response right before it was written in full by the turn's writes. */
  lemma HooksMeanWrites(cfg: Config, life: Life, trace: seq<Event>, j: nat)
    requires Accepted(cfg, life, trace) && j < |trace| && trace[j].OnResponse?
    ensures j > 0 && trace[j - 1].Response?
    ensures trace[j - 1].req == trace[j].req && trace[j - 1].status == trace[j].status
    ensures WritesSucceed(life.env(trace[j].req), trace[j - 1])
  {
    hide Watch;
    hide WritesSucceed;
    EveryEventAllowed(cfg, life, trace, j);
    HookDueHistory(cfg, life, trace[..j]);
    assert trace[..j][j - 1] == trace[j - 1];
    EventsFollowTheirTurn(cfg, life, trace, j - 1);
  }

  /** A response that could not be written completely is the end, even if it announced keep-alive. */
  lemma IncompleteResponseIsLast(cfg: Config, life: Life, trace: seq<Event>, j: nat)
    requires Accepted(cfg, life, trace) && Watch(cfg, life, trace).progress.Over? && j < |trace|
    requires trace[j].Response? && Hooked(trace[j].kind) && !trace[j].complete
    ensures |trace| == j + 2 && trace[j + 1] == Close(WriteFailed)
  {
    hide Watch;
    hide KeepAliveDue;
    hide WriteFits;
    hide WireHonest;
    EveryEventAllowed(cfg, life, trace, j);
    assert trace[..|trace|] == trace;
    if j + 1 < |trace| {
      EveryEventAllowed(cfg, life, trace, j + 1);
      if j + 2 < |trace| {
        EveryEventAllowed(cfg, life, trace, j + 2);
      }
    }
  }

  /**
    Streaming integrity over a run: the peer's decoder, with limits large enough,
    completes on the bytes of an HTTP/1.1 stream with a body if and only if the
    response was written completely, and then yields its chunks.
   */
  lemma StreamedBodiesDecode(cfg: Config, life: Life, trace: seq<Event>, i: nat, j: nat, lim: Limits)
    requires Accepted(cfg, life, trace) && i < j < |trace|
    requires trace[i].ReadDone? && trace[i].request.head.version == Http11
    requires trace[j].Response? && trace[j].kind.Streamed? && trace[j].req == trace[i].req
    requires !IsBodyless(trace[j].status)
    ensures trace[j].wire.StreamWire?
    ensures var wire := trace[j].wire;
            var r := Feed(lim, Start, wire.body);
            LargeEnough(lim, wire.chunks) ==>
              (r.Completed() <==> trace[j].complete) && (r.Completed() ==> r.out == Concat(wire.chunks))
  {
    hide Watch;
    hide Feed;
    hide StreamBytes;
    hide ShouldKeepAlive;
    EveryEventAllowed(cfg, life, trace, j);
    Remembers(cfg, life, trace, i, j);
    var wire := trace[j].wire;
    if LargeEnough(lim, wire.chunks) {
      PrefixDecodes(lim, wire.chunks, wire.body);
    }
  }

  /** After the response hook of a request, before the next read. */
  predicate Settled(m: Monitor, req: nat) {
    && m.served >= req + 1
    && (m.served == req + 1 ==>
          || m.progress.Idle? || m.progress.AwaitingRead? || m.progress.Failing? || m.progress.Refusing?
          || m.progress.Over?)
  }

  lemma {:induction false} StaysSettled(cfg: Config, life: Life, trace: seq<Event>, i: nat, j: nat)
    requires Accepted(cfg, life, trace) && i < j <= |trace| && trace[i].OnResponse?
    ensures Settled(Before(cfg, life, trace, j), trace[i].req)
    decreases j
  {
    hide Watch;
    EveryEventAllowed(cfg, life, trace, j - 1);
    if j > i + 1 {
      StaysSettled(cfg, life, trace, i, j - 1);
    }
  }

  /** At most one response hook per request, and never out of order. */
  lemma ResponseHooksAreOrdered(cfg: Config, life: Life, trace: seq<Event>, i: nat, j: nat)
    requires Accepted(cfg, life, trace) && i < j < |trace|
    requires trace[i].OnResponse? && (trace[j].OnResponse? || trace[j].OnRequest?)
    ensures trace[j].req > trace[i].req
  {
    hide Watch;
    StaysSettled(cfg, life, trace, i, j);
    EveryEventAllowed(cfg, life, trace, j);
  }

  /** Every request hook comes right after its own read. */
  lemma RequestHookFollowsRead(cfg: Config, life: Life, trace: seq<Event>, j: nat)
    requires Accepted(cfg, life, trace) && j < |trace| && trace[j].OnRequest?
    ensures j > 0 && trace[j - 1].ReadDone? && trace[j - 1].req == trace[j].req
  {
    hide Watch;
    EveryEventAllowed(cfg, life, trace, j);
    GatingHistory(cfg, life, trace[..j]);
  }

  /**
    The status of a normal or streaming response: the application's, passed from
    one response mapper to the next.
   */
  lemma ResponseStatusIsMapped(cfg: Config, life: Life, trace: seq<Event>, j: nat) returns (steps: seq<nat>)
    requires Accepted(cfg, life, trace) && j < |trace|
    requires trace[j].Response? && (trace[j].kind.Normal? || trace[j].kind.Streamed?)
    ensures j >= 2 && trace[j - 1].Mapped? && trace[j - 2].App?
    ensures MappedBy(trace[j - 2].status, trace[j - 1].mappers, trace[j].status, steps)
    ensures MappedBy(life.env(trace[j].req).answer.status, life.env(trace[j].req).mappers, trace[j].status, steps)
  {
    hide Watch;
    hide MapStatus;
    EveryEventAllowed(cfg, life, trace, j);
    AnsweredHistory(cfg, life, trace[..j]);
    assert trace[..j][..j - 1] == trace[..j - 1] && trace[..j][j - 1] == trace[j - 1];
    steps := MapSteps(trace[j - 2].status, trace[j - 1].mappers);
  }

  /** `steps` leads from one status to the other, one mapper at a time. */
  ghost predicate MappedBy(from: nat, mappers: seq<nat -> nat>, to: nat, steps: seq<nat>) {
    && |steps| == |mappers| + 1 && steps[0] == from && steps[|mappers|] == to
    && (forall k :: 0 <= k < |mappers| ==> steps[k + 1] == mappers[k](steps[k]))
  }

  lemma {:induction false} MapSteps(status: nat, mappers: seq<nat -> nat>) returns (steps: seq<nat>)
    ensures MappedBy(status, mappers, MapStatus(status, mappers), steps)
    decreases |mappers|
  {
    if |mappers| == 0 {
      steps := [status];
    } else {
      var rest := MapSteps(mappers[0](status), mappers[1..]);
      steps := [status] + rest;
      forall k | 0 <= k < |mappers| ensures steps[k + 1] == mappers[k](steps[k]) {
        assert k > 0 ==> rest[k] == mappers[1..][k - 1](rest[k - 1]);
      }
    }
  }

  /** The last event is the application's answer to the request in hand. */
  ghost predicate RanApp(life: Life, m: Monitor, trace: seq<Event>) {
    && trace != [] && trace[|trace| - 1].App? && trace[|trace| - 1].req + 1 == m.served
    && trace[|trace| - 1].status == life.env(m.served - 1).answer.status
  }

  lemma RunningHistory(cfg: Config, life: Life, trace: seq<Event>)
    requires Accepted(cfg, life, trace) && Watch(cfg, life, trace).progress.Running?
    ensures RanApp(life, Watch(cfg, life, trace), trace)
    ensures trace[|trace| - 1].status == Watch(cfg, life, trace).progress.status
  {
    hide Watch;
    hide KeepAliveDue;
    EmptyTrace(cfg, life);
    assert trace[..|trace|] == trace;
    EveryEventAllowed(cfg, life, trace, |trace| - 1);
  }

  /** The last two events are the application's answer to the request in hand and the mappers of its turn. */
  lemma AnsweredHistory(cfg: Config, life: Life, trace: seq<Event>)
    requires Accepted(cfg, life, trace) && Watch(cfg, life, trace).progress.Answered?
    ensures var m, n := Watch(cfg, life, trace), |trace| - 1;
            && n >= 1 && m.served > 0 && RanApp(life, m, trace[..n])
            && trace[n].Mapped? && trace[n].mappers == life.env(m.served - 1).mappers
            && m.progress.status == MapStatus(trace[n - 1].status, trace[n].mappers)
  {
    hide MapStatus;
    hide Watch;
    hide KeepAliveDue;
    EmptyTrace(cfg, life);
    var n := |trace| - 1;
    assert trace[..n + 1] == trace;
    EveryEventAllowed(cfg, life, trace, n);
    RunningHistory(cfg, life, trace[..n]);
    assert trace[..n][n - 1] == trace[n - 1];
  }
}
