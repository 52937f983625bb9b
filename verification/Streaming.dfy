/**
  Streaming responses: the bounded channel between producers and the connection,
  and the loop that writes its chunks to the socket. The main result is response
  integrity: the peer sees a complete body exactly when a producer finished and
  every byte, terminator included, was written.
 */
module Streaming {
  import opened Bytes
  import opened ChunkedSpec
  import opened ChunkedCodec
  import opened RequestHeads

  datatype StreamEvent = ChunkEvent(data: Text) | EndEvent

  datatype RecvOutcome = Chunk(data: Text) | End | Aborted

  /** The chunks before the first end marker. */
  function DataBeforeEnd(events: seq<StreamEvent>): seq<Text> {
    if events == [] || events[0].EndEvent? then [] else [events[0].data] + DataBeforeEnd(events[1..])
  }

  /** The chunks of a list of chunk events. */
  function DataOf(events: seq<StreamEvent>): seq<Text>
    requires EndEvent !in events
  {
    if events == [] then [] else [events[0].data] + DataOf(events[1..])
  }

  lemma {:induction false} DataSnoc(events: seq<StreamEvent>, data: Text)
    requires EndEvent !in events
    ensures DataOf(events + [ChunkEvent(data)]) == DataOf(events) + [data]
  {
    if events == [] {
      assert DataOf([ChunkEvent(data)]) == [data] + DataOf([]);
    } else {
      assert (events + [ChunkEvent(data)])[1..] == events[1..] + [ChunkEvent(data)];
      DataSnoc(events[1..], data);
    }
  }

  lemma {:induction false} DataUpToEnd(events: seq<StreamEvent>, more: seq<StreamEvent>)
    requires EndEvent !in events
    ensures DataBeforeEnd(events + [EndEvent] + more) == DataOf(events)
  {
    if events == [] {
      assert (events + [EndEvent] + more)[0] == EndEvent;
    } else {
      assert (events + [EndEvent] + more)[1..] == events[1..] + [EndEvent] + more;
      DataUpToEnd(events[1..], more);
    }
  }

  /** What a producer does with its handle. */
  datatype ProducerOp = Send(data: Text) | Finish | CloneHandle | DropHandle

  // ---- the channel as a value ----

  /** What is queued, how many producer handles are left, and how much fits. */
  datatype Chan = Chan(queue: seq<StreamEvent>, senders: nat, capacity: nat)

  /** The channel after a producer's action; a full channel takes nothing in. */
  function Offer(ch: Chan, op: ProducerOp): Chan {
    if ch.senders == 0 then ch
    else
      match op
      case Send(data) => if |ch.queue| < ch.capacity then ch.(queue := ch.queue + [ChunkEvent(data)]) else ch
      case Finish =>
        if |ch.queue| < ch.capacity then ch.(queue := ch.queue + [EndEvent], senders := ch.senders - 1) else ch
      case CloneHandle => ch.(senders := ch.senders + 1)
      case DropHandle => ch.(senders := ch.senders - 1)
  }

  function Offers(ch: Chan, ops: seq<ProducerOp>): Chan {
    if ops == [] then ch else Offer(Offers(ch, ops[..|ops| - 1]), ops[|ops| - 1])
  }

  /** The channel after its oldest event, if any, was received. */
  function Drained(ch: Chan): Chan {
    if ch.queue == [] then ch else ch.(queue := ch.queue[1..])
  }

  /** The bounded channel; `sent` and `received` record its history. */
  class StreamChannel {
    var queue: seq<StreamEvent>
    var senders: nat
    const capacity: nat
    ghost var sent: seq<StreamEvent>
    ghost var received: seq<StreamEvent>

    /** First in, first out, and never more than the capacity in memory. */
    ghost predicate Valid()
      reads this
    {
      capacity > 0 && |queue| <= capacity && sent == received + queue
    }

    function State(): Chan
      reads this
    {
      Chan(queue, senders, capacity)
    }

    constructor (capacity: nat)
      ensures Valid() && this.capacity == (if capacity == 0 then 1 else capacity) && senders == 1
      ensures sent == [] && received == [] && queue == []
    {
      this.queue, this.senders := [], 1;
      this.capacity := Max(capacity, 1);
      this.sent, this.received := [], [];
    }

    /** One producer action; a send on a full channel is still waiting afterwards. */
    method Produce(op: ProducerOp)
      requires Valid()
      modifies this
      ensures Valid() && received == old(received)
      ensures State() == Offer(old(State()), op)
      ensures old(sent) <= sent
      ensures sent == old(sent) + (
                if old(senders) == 0 || old(|queue|) == capacity then []
                else match op
                     case Send(data) => [ChunkEvent(data)]
                     case Finish => [EndEvent]
                     case _ => [])
      ensures senders == (
                if old(senders) == 0 then 0
                else match op
                     case Send(_) => old(senders)
                     case Finish => if old(|queue|) == capacity then old(senders) else old(senders) - 1
                     case CloneHandle => old(senders) + 1
                     case DropHandle => old(senders) - 1)
    {
      if senders == 0 {
        return;
      }
      match op
      case Send(data) =>
        if |queue| < capacity {
          queue, sent := queue + [ChunkEvent(data)], sent + [ChunkEvent(data)];
        }
      case Finish =>
        if |queue| < capacity {
          queue, sent, senders := queue + [EndEvent], sent + [EndEvent], senders - 1;
        }
      case CloneHandle =>
        senders := senders + 1;
      case DropHandle =>
        senders := senders - 1;
    }

    method ProduceAll(ops: seq<ProducerOp>)
      requires Valid()
      modifies this
      ensures Valid() && received == old(received) && old(sent) <= sent
      ensures State() == Offers(old(State()), ops)
    {
      ghost var before := State();
      for i := 0 to |ops|
        invariant Valid() && received == old(received) && old(sent) <= sent
        invariant State() == Offers(before, ops[..i])
      {
        assert ops[..i + 1][..i] == ops[..i];
        Produce(ops[i]);
      }
      assert ops[..|ops|] == ops;
    }

    /** The next event; none while the channel is empty and a producer is left. */
    method Recv() returns (outcome: Option<RecvOutcome>)
      requires Valid()
      modifies this
      ensures Valid() && sent == old(sent) && State() == Drained(old(State()))
      ensures match outcome
              case None => old(queue) == [] && senders > 0 && received == old(received)
              case Some(Aborted) => old(queue) == [] && senders == 0 && received == old(received) == sent
              case Some(End) => old(queue) != [] && old(queue)[0] == EndEvent && received == old(received) + [EndEvent]
              case Some(Chunk(data)) =>
                old(queue) != [] && old(queue)[0] == ChunkEvent(data) && received == old(received) + [ChunkEvent(data)]
    {
      if queue == [] {
        return if senders == 0 then Some(Aborted) else None;
      }
      var e := queue[0];
      queue, received := queue[1..], received + [queue[0]];
      outcome := match e
        case ChunkEvent(data) => Some(Chunk(data))
        case EndEvent => Some(End);
    }
  }

  // ---- writing ----

  /** `write_all` under a timeout: everything, or a failure after some strict prefix. */
  datatype WriteResult = Written | BrokenAfter(k: nat)

  function BytesOut(bytes: Text, w: WriteResult): (out: Text)
    ensures out <= bytes
    ensures w.Written? ==> out == bytes
  {
    match w
    case Written => bytes
    case BrokenAfter(k) => bytes[..Min(k, |bytes| - (if bytes == [] then 0 else 1))]
  }

  /** Lifetime not yet over, and shutdown flag, as read at one point. */
  datatype Reading = Reading(alive: bool, shutdown: bool) {
    predicate MayContinue() {
      alive && !shutdown
    }
  }

  /** One turn of the body loop: producers act, then the loop receives and may write. */
  datatype Round = Round(ops: seq<ProducerOp>, write: WriteResult)

  datatype StreamEnv = StreamEnv(
    headWrite: WriteResult, atHead: Reading, rounds: seq<Round>, atEnd: Reading)

  /** The channel before round `k`. */
  function ChanAt(ch: Chan, rounds: seq<Round>, k: nat): Chan
    requires k <= |rounds|
  {
    if k == 0 then ch else Drained(Offers(ChanAt(ch, rounds, k - 1), rounds[k - 1].ops))
  }

  lemma ChanAtStart(ch: Chan, rounds: seq<Round>)
    ensures ChanAt(ch, rounds, 0) == ch
  {
  }

  /** What round `k` receives, if its producers have left anything to receive. */
  function EventAt(ch: Chan, rounds: seq<Round>, k: nat): Option<StreamEvent>
    requires k < |rounds|
  {
    var queue := Offers(ChanAt(ch, rounds, k), rounds[k].ops).queue;
    if queue == [] then None else Some(queue[0])
  }

  /** Round `k` receives a chunk and writes it, unless it is empty and nothing is written. */
  predicate Passes(ch: Chan, rounds: seq<Round>, k: nat) {
    && k < |rounds|
    && var e := EventAt(ch, rounds, k);
       e.Some? && e.value.ChunkEvent? && (e.value.data == [] || rounds[k].write.Written?)
  }

  /** Round `k` receives the end marker and writes the terminator; HTTP/1.0 has none. */
  predicate Ends(version: Version, ch: Chan, rounds: seq<Round>, k: nat) {
    && k < |rounds| && EventAt(ch, rounds, k) == Some(EndEvent)
    && (version == Http10 || rounds[k].write.Written?)
  }

  /** The first rounds received these chunks, one each. */
  predicate Received(ch: Chan, rounds: seq<Round>, chunks: seq<Text>) {
    forall j :: 0 <= j < |chunks| ==> j < |rounds| && EventAt(ch, rounds, j) == Some(ChunkEvent(chunks[j]))
  }

  /** Some round ends the stream, after every round before it has passed. */
  predicate Completes(version: Version, ch: Chan, rounds: seq<Round>) {
    exists k :: 0 <= k < |rounds| && Ends(version, ch, rounds, k) && forall j :: 0 <= j < k ==> Passes(ch, rounds, j)
  }

  /** The first round that does not pass decides. */
  lemma FirstStopDecides(version: Version, ch: Chan, rounds: seq<Round>, k: nat)
    requires k <= |rounds| && !Passes(ch, rounds, k) && forall j :: 0 <= j < k ==> Passes(ch, rounds, j)
    ensures Completes(version, ch, rounds) <==> Ends(version, ch, rounds, k)
  {
    hide EventAt;
    if Completes(version, ch, rounds) {
      var e :| 0 <= e < |rounds| && Ends(version, ch, rounds, e) && forall j :: 0 <= j < e ==> Passes(ch, rounds, j);
      assert !Passes(ch, rounds, e);
      assert e == k;
    }
    if Ends(version, ch, rounds, k) {
      assert 0 <= k < |rounds|;
    }
  }

  /** The rounds of a producer that sends these chunks, one a round, and then finishes. */
  function SteadyRounds(chunks: seq<Text>): (rounds: seq<Round>)
    ensures |rounds| == |chunks| + 1
    ensures forall i :: 0 <= i < |chunks| ==> rounds[i] == Round([Send(chunks[i])], Written)
    ensures rounds[|chunks|] == Round([Finish], Written)
  {
    if chunks == [] then [Round([Finish], Written)]
    else [Round([Send(chunks[0])], Written)] + SteadyRounds(chunks[1..])
  }

  lemma {:induction false} SteadyChannel(ch: Chan, chunks: seq<Text>, k: nat)
    requires k <= |chunks| && ch.queue == [] && ch.senders > 0 && ch.capacity > 0
    ensures ChanAt(ch, SteadyRounds(chunks), k) == ch
    ensures k < |chunks| ==> EventAt(ch, SteadyRounds(chunks), k) == Some(ChunkEvent(chunks[k]))
    ensures k == |chunks| ==> EventAt(ch, SteadyRounds(chunks), k) == Some(EndEvent)
  {
    hide Offers;
    hide SteadyRounds;
    var rounds := SteadyRounds(chunks);
    if k > 0 {
      SteadyChannel(ch, chunks, k - 1);
      OneOffer(ch, rounds[k - 1].ops[0]);
    }
    OneOffer(ch, rounds[k].ops[0]);
  }

  lemma OneOffer(ch: Chan, op: ProducerOp)
    ensures Offers(ch, [op]) == Offer(ch, op)
  {
    assert [op][..0] == [];
    assert Offers(ch, []) == ch;
  }

  /** A producer that sends its chunks and finishes, with no write failing, completes the stream. */
  lemma SteadyProducerCompletes(version: Version, ch: Chan, chunks: seq<Text>)
    requires ch.queue == [] && ch.senders > 0 && ch.capacity > 0
    ensures Completes(version, ch, SteadyRounds(chunks))
    ensures forall k :: 0 <= k < |chunks| ==> EventAt(ch, SteadyRounds(chunks), k) == Some(ChunkEvent(chunks[k]))
  {
    hide EventAt;
    forall k | 0 <= k < |chunks| ensures EventAt(ch, SteadyRounds(chunks), k) == Some(ChunkEvent(chunks[k])) {
      SteadyChannel(ch, chunks, k);
    }
    SteadyChannel(ch, chunks, |chunks|);
    assert Ends(version, ch, SteadyRounds(chunks), |chunks|);
  }

  /** Statuses that never carry a body. */
  predicate IsBodyless(status: nat) {
    100 <= status <= 199 || status == 204 || status == 304
  }

  lemma BodylessExactly(status: nat)
    ensures IsBodyless(status) <==> status / 100 == 1 || status in {204, 304}
  {
  }

  datatype Completion = Completion(keepAlive: bool, status: nat)

  /** Head bytes for each decision about the connection; opaque to the body loop. */
  datatype HeadBytes = HeadBytes(keepAlive: Text, close: Text)

  /** The peer's decoder has room for these chunks. */
  predicate LargeEnough(lim: Limits, chunks: seq<Text>) {
    lim.maxBody <= U64_MAX && lim.maxLine >= 17 && Fits(lim, 0, 0, chunks)
  }

  /** For chunks that fit a machine word in all, there are such limits. */
  lemma LimitsExist(chunks: seq<Text>) returns (lim: Limits)
    requires |Concat(chunks)| <= U64_MAX
    ensures LargeEnough(lim, chunks)
  {
    lim := Limits(|Concat(chunks)|, NonEmpty(chunks) + 1, 17);
  }

  /** The peer completes on a prefix of the stream exactly when it is all of it. */
  lemma PrefixDecodes(lim: Limits, chunks: seq<Text>, body: Text)
    requires LargeEnough(lim, chunks) && body <= StreamBytes(chunks)
    ensures Slices(chunks)
    ensures var r := Feed(lim, Start, body);
            && (r.Completed() <==> body == StreamBytes(chunks))
            && (r.Completed() ==> r.out == Concat(chunks))
  {
    hide Feed;
    hide StreamBytes;
    FitsAreSlices(chunks, lim.maxBody);
    var s := StreamBytes(chunks);
    FeedEncoded(lim, Start, chunks, []);
    assert s + [] == s;
    assert [] + Concat(chunks) == Concat(chunks);
    if |body| < |s| {
      assert body == s[..|body|];
      StrictPrefixNeverCompletes(lim, chunks, |body|);
    } else {
      assert body == s;
    }
  }

  lemma {:induction false} FitsAreSlices(chunks: seq<Text>, max: nat)
    requires |Concat(chunks)| <= max <= U64_MAX
    ensures Slices(chunks)
  {
    if chunks != [] {
      FitsAreSlices(chunks[1..], max);
      assert forall i :: 1 <= i < |chunks| ==> chunks[i] == chunks[1..][i - 1];
    }
  }

  /** Whether the body loop completed, what it wrote, the chunks it was given and the rounds it passed. */
  datatype BodyRun = BodyRun(complete: bool, body: Text, chunks: seq<Text>, passed: nat)

  /** The body a complete response has on the wire. */
  function WireBody(version: Version, chunks: seq<Text>): Text {
    if version == Http11 then StreamBytes(chunks) else Concat(chunks)
  }

  /**
    The body loop. It passes exactly the rounds up to the first that brings no
    chunk or cannot write it, and completes exactly if that one brings the end
    marker and writes what remains; then the wire carries the chunks sent before
    that marker. Otherwise an HTTP/1.1 body is a strict prefix of the complete one.
   */
  method WriteBody(version: Version, channel: StreamChannel, rounds: seq<Round>) returns (run: BodyRun)
    requires channel.Valid() && channel.received == []
    modifies channel
    ensures channel.Valid()
    // which rounds pass, and which one decides
    ensures var ch := old(channel.State());
            && run.passed <= |rounds| && run.passed <= |run.chunks| <= run.passed + 1
            && (forall j :: 0 <= j < run.passed ==> Passes(ch, rounds, j))
            && Received(ch, rounds, run.chunks)
            && !Passes(ch, rounds, run.passed)
            && (run.complete <==> Completes(version, ch, rounds))
    ensures (EndEvent in channel.received && forall i :: 0 <= i < |rounds| ==> rounds[i].write.Written?) ==>
              run.complete
    ensures !run.complete ==>
              || run.passed == |rounds|
              || EventAt(old(channel.State()), rounds, run.passed) == None
              || !rounds[run.passed].write.Written?
    // what is on the wire
    ensures run.complete ==> EndEvent in channel.received && EndEvent in channel.sent
    ensures run.complete ==> |run.chunks| == run.passed && run.chunks == DataBeforeEnd(channel.sent)
    ensures run.complete ==> run.body == WireBody(version, run.chunks)
    ensures !run.complete ==> run.body <= WireBody(version, run.chunks)
    ensures !run.complete && version == Http11 ==> run.body != WireBody(version, run.chunks)
    ensures EndEvent !in channel.received ==> run.chunks == DataOf(channel.received)
  {
    hide StreamBytes;
    hide ChunksBytes;
    hide ChunkBytes;
    hide Concat;
    hide Framed;
    hide WireBody;
    hide DataBeforeEnd;
    hide ChanAt;
    hide EventAt;
    hide Completes;
    ChanAtStart(channel.State(), rounds);
    var body: Text := [];
    var chunks: seq<Text> := [];
    ghost var ch := channel.State();
    FramedNothing(version);
    for i := 0 to |rounds|
      invariant channel.Valid() && EndEvent !in channel.received && chunks == DataOf(channel.received)
      invariant body == Framed(version, chunks)
      invariant channel.State() == ChanAt(ch, rounds, i) && |chunks| == i
      invariant Received(ch, rounds, chunks) && forall j :: 0 <= j < i ==> Passes(ch, rounds, j)
    {
      ghost var before := channel.received;
      var outcome := NextOutcome(channel, ch, rounds, i);
      if outcome == None || outcome == Some(Aborted) { // the receive timed out, or every producer is gone
        FramedIsStrictPrefix(version, chunks);
        FirstStopDecides(version, ch, rounds, i);
        return BodyRun(false, body, chunks, i);
      }
      if outcome == Some(End) {
        var wrote, out := WriteTerminator(version, rounds[i].write, chunks);
        DataUpToEnd(before, channel.queue);
        FirstStopDecides(version, ch, rounds, i);
        return BodyRun(wrote, body + out, chunks, i);
      }
      var data := outcome.value.data;
      DataSnoc(before, data);
      var wrote, out := WriteChunk(version, data, rounds[i].write, chunks);
      chunks := chunks + [data];
      if !wrote {
        FirstStopDecides(version, ch, rounds, i);
        return BodyRun(false, body + out, chunks, i);
      }
      body := body + out;
    }
    FramedIsStrictPrefix(version, chunks);
    FirstStopDecides(version, ch, rounds, |rounds|);
    return BodyRun(false, body, chunks, |rounds|);
  }

  /** One round up to its write: the producers act, and the oldest event is received. */
  method NextOutcome(channel: StreamChannel, ghost ch: Chan, rounds: seq<Round>, i: nat)
    returns (outcome: Option<RecvOutcome>)
    requires channel.Valid() && i < |rounds| && channel.State() == ChanAt(ch, rounds, i)
    modifies channel
    ensures channel.Valid() && channel.State() == ChanAt(ch, rounds, i + 1)
    ensures match outcome
            case None => EventAt(ch, rounds, i) == None && channel.received == old(channel.received)
            case Some(Aborted) => EventAt(ch, rounds, i) == None && channel.received == old(channel.received)
            case Some(End) =>
              EventAt(ch, rounds, i) == Some(EndEvent) && channel.received == old(channel.received) + [EndEvent]
            case Some(Chunk(data)) =>
              && EventAt(ch, rounds, i) == Some(ChunkEvent(data))
              && channel.received == old(channel.received) + [ChunkEvent(data)]
  {
    hide Offers;
    channel.ProduceAll(rounds[i].ops);
    outcome := channel.Recv();
  }

  /** Writes what ends the body; HTTP/1.0 ends it by closing and needs no write. */
  method WriteTerminator(version: Version, w: WriteResult, ghost chunks: seq<Text>) returns (wrote: bool, out: Text)
    ensures wrote <==> version == Http10 || w.Written?
    ensures Framed(version, chunks) + out <= WireBody(version, chunks)
    ensures wrote <==> Framed(version, chunks) + out == WireBody(version, chunks)
  {
    hide Framed;
    hide WireBody;
    var terminator := [];
    if version == Http11 {
      terminator := EncodeTerminator(terminator);
    }
    out := BytesOut(terminator, w);
    wrote := out == terminator;
    FramedThenTerminator(version, chunks, terminator, out);
  }

  /** Writes one chunk; an empty one needs no write. */
  method WriteChunk(version: Version, data: Text, w: WriteResult, ghost chunks: seq<Text>)
    returns (wrote: bool, out: Text)
    ensures wrote <==> data == [] || w.Written?
    ensures wrote ==> Framed(version, chunks) + out == Framed(version, chunks + [data])
    ensures !wrote ==>
              && Framed(version, chunks) + out <= WireBody(version, chunks + [data])
              && (version == Http11 ==> Framed(version, chunks) + out != WireBody(version, chunks + [data]))
  {
    hide Concat;
    hide ChunksBytes;
    hide StreamBytes;
    hide Framed;
    hide WireBody;
    FramedSnoc(version, chunks, data);
    var framed := data;
    if version == Http11 {
      framed := EncodeChunk(data, []);
    }
    if framed == [] {
      return true, [];
    }
    out := BytesOut(framed, w);
    wrote := out == framed;
    if !wrote {
      FramedIsStrictPrefix(version, chunks + [data]);
      PrefixTrans(Framed(version, chunks), out, framed, WireBody(version, chunks + [data]));
    }
  }

  /** The chunks on the wire, without the terminator. */
  function Framed(version: Version, chunks: seq<Text>): Text {
    if version == Http11 then ChunksBytes(chunks) else Concat(chunks)
  }

  lemma FramedNothing(version: Version)
    ensures Framed(version, []) == []
  {
  }

  lemma PrefixTrans(a: Text, b: Text, b': Text, whole: Text)
    requires b <= b' && b != b' && a + b' <= whole
    ensures a + b <= whole && a + b != whole
  {
    assert |a + b| < |a + b'|;
    assert (a + b')[..|a + b|] == a + b;
  }

  lemma FramedSnoc(version: Version, chunks: seq<Text>, data: Text)
    ensures Framed(version, chunks + [data]) ==
            Framed(version, chunks) + (if version == Http11 then [] + ChunkBytes(data) else data)
  {
    hide ChunkBytes;
    ChunksBytesSnoc(chunks, data);
    ConcatSnoc(chunks, data);
  }

  lemma FramedIsStrictPrefix(version: Version, chunks: seq<Text>)
    ensures Framed(version, chunks) <= WireBody(version, chunks)
    ensures version == Http11 ==> |Framed(version, chunks)| < |WireBody(version, chunks)|
  {
  }

  lemma FramedThenTerminator(version: Version, chunks: seq<Text>, terminator: Text, out: Text)
    requires out <= terminator && terminator == (if version == Http11 then Terminator else [])
    ensures Framed(version, chunks) + out <= WireBody(version, chunks)
    ensures out == terminator <==> Framed(version, chunks) + out == WireBody(version, chunks)
  {
    assert WireBody(version, chunks) == Framed(version, chunks) + terminator;
    assert |Framed(version, chunks) + out| == |Framed(version, chunks)| + |out|;
  }

  /** The whole exchange as the socket and the caller see it. */
  datatype Exchange = Exchange(
    result: Option<Completion>, advertised: bool, headDone: bool, head: Text, body: Text, chunks: seq<Text>)

  /**
    Writes one streaming response. `status` is the status after the response
    mappers ran. A result means the response is complete on the wire; for an
    HTTP/1.1 response with a body, that is exactly when the peer's decoder, with
    limits large enough, completes, and it then yields the chunks sent before the
    producer's end marker.
   */
  method WriteStreamingResponse(
    version: Version, status: nat, heads: HeadBytes, keepAlive: bool, channel: StreamChannel, env: StreamEnv)
    returns (x: Exchange)
    requires channel.Valid() && channel.received == []
    modifies channel
    // which writes and which producers make it complete
    ensures x.headDone <==> env.headWrite.Written?
    ensures Received(old(channel.State()), env.rounds, x.chunks)
    ensures x.result.Some? <==>
              x.headDone && (IsBodyless(status) || Completes(version, old(channel.State()), env.rounds))
    ensures (x.headDone && !IsBodyless(status) && EndEvent in channel.received
             && forall i :: 0 <= i < |env.rounds| ==> env.rounds[i].write.Written?) ==> x.result.Some?
    ensures x.result.Some? ==> x.headDone && x.result.value.status == status
    ensures x.headDone ==> x.head == if x.advertised then heads.keepAlive else heads.close
    ensures !x.headDone ==> x.head <= (if x.advertised then heads.keepAlive else heads.close) && x.body == []
    // keep-alive: decided before the head, decided again after the body, never on HTTP/1.0
    ensures x.advertised <==> version == Http11 && keepAlive && env.atHead.MayContinue()
    ensures x.result.Some? ==>
              (x.result.value.keepAlive <==> x.advertised && env.atEnd.MayContinue())
    ensures IsBodyless(status) ==> x.body == [] && (x.result.Some? <==> x.headDone)
    // integrity
    ensures x.result.Some? && !IsBodyless(status) ==>
              && EndEvent in channel.received && EndEvent in channel.sent
              && x.chunks == DataBeforeEnd(channel.sent) && x.body == WireBody(version, x.chunks)
    ensures x.result.None? && !IsBodyless(status) ==> x.body <= WireBody(version, x.chunks)
    ensures x.result.None? && !IsBodyless(status) && version == Http11 ==> x.body != WireBody(version, x.chunks)
    ensures version == Http11 && !IsBodyless(status) ==>
              forall lim: Limits :: LargeEnough(lim, x.chunks) ==>
                var r := Feed(lim, Start, x.body);
                && (r.Completed() <==> x.result.Some?)
                && (r.Completed() ==> r.out == Concat(x.chunks))
  {
    hide Feed;
    hide StreamBytes;
    var advertised := version == Http11 && keepAlive && env.atHead.MayContinue();
    var headBytes := if advertised then heads.keepAlive else heads.close;
    var head := BytesOut(headBytes, env.headWrite);
    var run := BodyRun(false, [], [], 0);
    var headDone := env.headWrite.Written?;
    if headDone && !IsBodyless(status) {
      run := WriteBody(version, channel, env.rounds);
    }
    forall lim: Limits | version == Http11 && !IsBodyless(status) && LargeEnough(lim, run.chunks)
      ensures var r := Feed(lim, Start, run.body);
              && (r.Completed() <==> run.complete)
              && (r.Completed() ==> r.out == Concat(run.chunks))
    {
      assert WireBody(version, run.chunks) == StreamBytes(run.chunks);
      TerminatorIsNotEmpty(run.chunks);
      PrefixDecodes(lim, run.chunks, run.body);
    }
    TerminatorIsNotEmpty(run.chunks);
    var done := headDone && (IsBodyless(status) || run.complete);
    var result := if done then Some(Completion(advertised && env.atEnd.MayContinue(), status)) else None;
    return Exchange(result, advertised, headDone, head, run.body, run.chunks);
  }

  lemma TerminatorIsNotEmpty(chunks: seq<Text>)
    ensures [] <= StreamBytes(chunks) && StreamBytes(chunks) != []
  {
  }
}
