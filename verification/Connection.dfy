/**
  Reading requests from a socket that may fragment its bytes in any way. The
  read loops are proved against `NextRequest`, which looks at the whole of what
  the peer will ever send; pipelining follows.
 */
module Connections {
  import opened Bytes
  import opened ChunkedSpec
  import opened ChunkedCodec
  import opened ChunkedDecoding
  import opened RecvBuffers
  import opened RequestHeads
  import opened RequestWires
  import opened BodyFraming
  import opened HeaderNames

  datatype Request = Request(head: RequestHead, body: Text)

  datatype RequestError =
    | Parse(parse: ParseError)
    | Body(framing: BodyError)
    | BadChunk(chunk: ChunkedError)
    | UnexpectedEof
    | Io

  /** Body limit and largest address of the machine. */
  datatype ReadConfig = ReadConfig(maxBody: nat, usizeMax: nat)

  // ---- the reference: one look at the whole stream ----

  datatype Next = Got(request: Request, consumed: nat) | End | Failed(error: RequestError)

  /** The bytes ended in the middle of a request. */
  function CutOff(broken: bool): RequestError {
    if broken then Io else UnexpectedEof
  }

  /** The body announced by `head` at the front of `rest`, and the bytes it takes. */
  function BodyOf(cfg: ReadConfig, head: RequestHead, rest: Text, broken: bool): (r: Result<(Text, nat), RequestError>)
    ensures r.Ok? ==> r.value.1 <= |rest|
  {
    match Framing(head, cfg.maxBody)
    case Err(e) => Err(Body(e))
    case Ok(NoBody) => Ok(([], 0))
    case Ok(Fixed(n)) =>
      if n > cfg.usizeMax then Err(Body(BodyFraming.BodyTooLarge))
      else if |rest| < n then Err(CutOff(broken))
      else Ok((rest[..n], n))
    case Ok(Chunked) =>
      var m := Feed(ServerLimits(cfg.maxBody), Start, rest);
      FeedConsumed(ServerLimits(cfg.maxBody), Start, rest);
      if m.error.Some? then Err(BadChunk(m.error.value))
      else if m.phase.Done? then Ok((m.out, m.consumed))
      else Err(CutOff(broken))
  }

  function NextRequest(cfg: ReadConfig, stream: Text, broken: bool): (next: Next)
    ensures next.Got? ==> 0 < next.consumed <= |stream|
  {
    match ParseRequestHead(stream)
    case Err(e) => Failed(Parse(e))
    case Ok(Incomplete) => if broken then Failed(Io) else if stream == [] then End else Failed(UnexpectedEof)
    case Ok(Complete(head, consumed)) =>
      match BodyOf(cfg, head, stream[consumed..], broken)
      case Err(e) => Failed(e)
      case Ok((body, n)) => Got(Request(head, body), consumed + n)
  }

  // ---- reading ----

  /** Reads until the head parser has an answer. */
  method ReadHead(reader: Socket, buf: RecvBuffer) returns (r: Result<Option<(RequestHead, nat)>, RequestError>)
    requires buf.Valid()
    modifies reader, buf
    ensures buf.Valid() && buf.Unread() + reader.Rest() == old(buf.Unread() + reader.Rest())
    ensures var stream := old(buf.Unread() + reader.Rest());
            match ParseRequestHead(stream)
            case Err(e) => r == Err(Parse(e))
            case Ok(Incomplete) =>
              r == if reader.broken then Err(Io) else if stream == [] then Ok(None) else Err(UnexpectedEof)
            case Ok(Complete(head, consumed)) => r == Ok(Some((head, consumed))) && consumed <= |buf.Unread()|
  {
    ghost var stream := buf.Unread() + reader.Rest();
    while true
      invariant buf.Valid() && buf.Unread() + reader.Rest() == stream
      decreases |reader.Rest()|
    {
      var unread := buf.GetUnread();
      var parsed := ParseRequestHead(unread);
      if parsed != Ok(RequestHeads.Incomplete) {
        HeadAnswerIsStable(unread, reader.Rest());
      }
      if parsed.Err? {
        return Err(Parse(parsed.error));
      }
      if parsed.value.Complete? {
        return Ok(Some((parsed.value.head, parsed.value.consumed)));
      }
      var startedEmpty := unread == [];
      var n := buf.ReadChunk(reader);
      if n.Err? {
        assert unread + [] == unread;
        return Err(Io);
      }
      if n.value == 0 {
        assert unread + [] == unread;
        return if startedEmpty then Ok(None) else Err(UnexpectedEof);
      }
    }
  }

  /** Reads a body of exactly `n` bytes, handing out the buffer itself when it can. */
  method ReadBody(cfg: ReadConfig, reader: Socket, buf: RecvBuffer, n: nat) returns (r: Result<Text, RequestError>)
    requires buf.Valid()
    modifies reader, buf
    ensures buf.Valid()
    ensures var stream := old(buf.Unread() + reader.Rest());
            if n > cfg.usizeMax then r == Err(Body(BodyFraming.BodyTooLarge))
            else if |stream| < n then r == Err(CutOff(reader.broken))
            else r == Ok(stream[..n]) && buf.Unread() + reader.Rest() == stream[n..]
  {
    ghost var stream := buf.Unread() + reader.Rest();
    if n > cfg.usizeMax {
      return Err(Body(BodyFraming.BodyTooLarge));
    }
    var unread := buf.GetUnread();
    while |unread| < n
      invariant buf.Valid() && unread == buf.Unread() && buf.Unread() + reader.Rest() == stream
      decreases |reader.Rest()|
    {
      var read := buf.ReadChunk(reader);
      if read.Err? {
        return Err(Io);
      }
      if read.value == 0 {
        return Err(UnexpectedEof);
      }
      unread := buf.GetUnread();
    }
    assert stream[..n] == unread[..n];
    assert stream[n..] == unread[n..] + reader.Rest();
    var taken := buf.TakeExact(n);
    if taken.Some? {
      return Ok(taken.value);
    }
    var body := unread[..n];
    buf.Consume(n);
    return Ok(body);
  }

  lemma StepShift(lim: Limits, m: Machine, b: byte, k: nat)
    requires !m.Final()
    ensures Step(lim, m.(consumed := m.consumed + k), b) ==
            var r := Step(lim, m, b); r.(consumed := r.consumed + k)
  {
    hide ParseChunkSize;
  }

  /** The machine counts consumed bytes from wherever it started. */
  lemma {:induction false} FeedShift(lim: Limits, m: Machine, input: Text, k: nat)
    ensures Feed(lim, m.(consumed := m.consumed + k), input) ==
            var r := Feed(lim, m, input); r.(consumed := r.consumed + k)
    decreases |input|
  {
    hide Step;
    if !m.Final() && input != [] {
      StepShift(lim, m, input[0], k);
      FeedShift(lim, Step(lim, m, input[0]), input[1..], k);
    }
  }

  /** One call of the decoder inside the loop of `ReadBodyChunked`. */
  lemma DecodeCall(lim: Limits, m: Machine, unread: Text, rest: Text)
    requires m.error.None?
    ensures var r := Feed(lim, m.(consumed := 0), unread);
            var r' := r.(consumed := r.consumed + m.consumed);
            Feed(lim, m, unread + rest) == if r.Final() then r' else Feed(lim, r', rest)
  {
    hide Feed;
    FeedShift(lim, m.(consumed := 0), unread, m.consumed);
    FeedSplit(lim, m, unread, rest);
    FeedFinal(lim, Feed(lim, m, unread), rest);
  }

  /** One call of the decoder on what is unread, and the unread bytes it leaves. */
  method DecodeUnread(decoder: ChunkedDecoder, buf: RecvBuffer, body: Text, ghost k: nat, ghost rest: Text)
    returns (outcome: Result<DecodeOutcome, ChunkedError>, body': Text, ghost k': nat)
    requires buf.Valid()
    modifies decoder, buf
    ensures buf.Valid()
    ensures var lim := ServerLimits(decoder.maxBodyBytes);
            var goal := Feed(lim, old(decoder.Machine(k, body)), old(buf.Unread()) + rest);
            match outcome
            case Err(e) => goal.error == Some(e)
            case Ok(o) =>
              && o.consumed <= |old(buf.Unread())| && k' == k + o.consumed
              && buf.Unread() == old(buf.Unread())[o.consumed..]
              && (o.Complete? ==> goal == decoder.Machine(k', body') && goal.phase.Done?)
              && (o.Incomplete? ==>
                    buf.Unread() == [] && goal == Feed(lim, decoder.Machine(k', body'), rest) && !decoder.phase.Done?)
  {
    hide Feed;
    ghost var lim, m := ServerLimits(decoder.maxBodyBytes), decoder.Machine(k, body);
    var unread := buf.GetUnread();
    DecodeCall(lim, m, unread, rest);
    FeedConsumed(lim, m.(consumed := 0), unread);
    outcome, body' := decoder.Decode(unread, body);
    k' := k;
    if outcome.Ok? {
      buf.Consume(outcome.value.consumed);
      k' := k + outcome.value.consumed;
    }
  }

  /** Decodes a chunked body as it arrives, leaving what follows it in the buffer. */
  method ReadBodyChunked(cfg: ReadConfig, reader: Socket, buf: RecvBuffer) returns (r: Result<Text, RequestError>)
    requires buf.Valid() && cfg.maxBody <= U64_MAX
    modifies reader, buf
    ensures buf.Valid()
    ensures var stream := old(buf.Unread() + reader.Rest());
            var m := Feed(ServerLimits(cfg.maxBody), Start, stream);
            if m.error.Some? then r == Err(BadChunk(m.error.value))
            else if m.phase.Done? then
              r == Ok(m.out) && m.consumed <= |stream| && buf.Unread() + reader.Rest() == stream[m.consumed..]
            else r == Err(CutOff(reader.broken))
  {
    hide Feed;
    ghost var lim := ServerLimits(cfg.maxBody);
    ghost var stream := buf.Unread() + reader.Rest();
    ghost var goal := Feed(lim, Start, stream);
    ghost var k: nat := 0;
    var decoder := new ChunkedDecoder(cfg.maxBody);
    var body := [];
    while true
      invariant buf.Valid() && decoder.maxBodyBytes == cfg.maxBody
      invariant k <= |stream| && buf.Unread() + reader.Rest() == stream[k..]
      invariant goal == Feed(lim, decoder.Machine(k, body), buf.Unread() + reader.Rest())
      decreases |reader.Rest()|
    {
      var outcome;
      outcome, body, k := DecodeUnread(decoder, buf, body, k, reader.Rest());
      if outcome.Err? {
        return Err(BadChunk(outcome.error));
      }
      assert buf.Unread() + reader.Rest() == stream[k..];
      if outcome.value.Complete? {
        return Ok(body);
      }
      FeedFinal(lim, decoder.Machine(k, body), reader.Rest());
      assert buf.Unread() + reader.Rest() == reader.Rest();
      var n := buf.ReadChunk(reader);
      if n.Err? {
        return Err(Io);
      }
      if n.value == 0 {
        return Err(UnexpectedEof);
      }
    }
  }

  /** The answer of the reader for a look at the whole stream. */
  function Answer(next: Next): Result<Option<Request>, RequestError> {
    match next
    case Got(request, _) => Ok(Some(request))
    case End => Ok(None)
    case Failed(e) => Err(e)
  }

  /**
    Reads one request. Whatever the fragmentation, the answer is that of one look
    at the whole stream, and exactly the bytes of the request are gone.
   */
  method ReadRequestWithLimit(cfg: ReadConfig, reader: Socket, buf: RecvBuffer)
    returns (r: Result<Option<Request>, RequestError>)
    requires buf.Valid() && cfg.maxBody <= U64_MAX
    modifies reader, buf
    ensures buf.Valid()
    ensures var stream := old(buf.Unread() + reader.Rest());
            var next := NextRequest(cfg, stream, reader.broken);
            && r == Answer(next)
            && (next.Got? ==> buf.Unread() + reader.Rest() == stream[next.consumed..])
  {
    hide BodyOf;
    hide ParseRequestHead;
    ghost var stream := buf.Unread() + reader.Rest();
    var h := ReadHead(reader, buf);
    if h.Err? {
      return Err(h.error);
    }
    if h.value.None? {
      return Ok(None);
    }
    var (head, consumed) := h.value.value;
    buf.Consume(consumed);
    ghost var rest := buf.Unread() + reader.Rest();
    assert rest == stream[consumed..];
    var body := ReadBodyOf(cfg, reader, buf, head);
    if body.Err? {
      return Err(body.error);
    }
    buf.ShrinkIfOversized();
    return Ok(Some(Request(head, body.value)));
  }

  /** Reads the body that `head` announces. */
  method ReadBodyOf(cfg: ReadConfig, reader: Socket, buf: RecvBuffer, head: RequestHead)
    returns (r: Result<Text, RequestError>)
    requires buf.Valid() && cfg.maxBody <= U64_MAX
    modifies reader, buf
    ensures buf.Valid()
    ensures var rest := old(buf.Unread() + reader.Rest());
            var body := BodyOf(cfg, head, rest, reader.broken);
            if body.Err? then r == Err(body.error)
            else r == Ok(body.value.0) && buf.Unread() + reader.Rest() == rest[body.value.1..]
  {
    hide Feed;
    hide Framing;
    var length := BodyLengthWithLimit(head, cfg.maxBody);
    if length.Err? {
      return Err(Body(length.error));
    }
    match length.value {
      case NoBody => r := Ok([]);
      case Fixed(n) => r := ReadBody(cfg, reader, buf, n);
      case Chunked => r := ReadBodyChunked(cfg, reader, buf);
    }
  }

  // ---- pipelining ----

  /** A request was read completely: what follows on the stream does not matter. */
  lemma NextRequestIsStable(cfg: ReadConfig, s: Text, broken: bool, more: Text, broken': bool)
    requires NextRequest(cfg, s, broken).Got?
    ensures NextRequest(cfg, s + more, broken') == NextRequest(cfg, s, broken)
  {
    hide Feed;
    hide ParseRequestHead;
    hide Framing;
    HeadAnswerIsStable(s, more);
    var c := ParseRequestHead(s).value.consumed;
    var head := ParseRequestHead(s).value.head;
    var rest := s[c..];
    assert (s + more)[c..] == rest + more;
    match Framing(head, cfg.maxBody) {
      case Ok(Fixed(n)) =>
        assert (rest + more)[..n] == rest[..n];
      case Ok(Chunked) =>
        var lim := ServerLimits(cfg.maxBody);
        FinalAnswerIsExact(lim, Start, rest, more, 0);
        FeedConsumed(lim, Start, rest);
      case _ =>
    }
  }

  /** What reading until the end or the first error gives. */
  datatype Transcript = Transcript(requests: seq<Request>, error: Option<RequestError>)

  function ReadAll(cfg: ReadConfig, stream: Text, broken: bool): Transcript
    decreases |stream|
  {
    match NextRequest(cfg, stream, broken)
    case End => Transcript([], None)
    case Failed(e) => Transcript([], Some(e))
    case Got(request, consumed) =>
      var t := ReadAll(cfg, stream[consumed..], broken);
      Transcript([request] + t.requests, t.error)
  }

  /** What is left of the stream after its first `k` requests. */
  function AfterRequests(cfg: ReadConfig, stream: Text, broken: bool, k: nat): Text
    decreases k
  {
    if k == 0 then stream
    else
      match NextRequest(cfg, stream, broken)
      case Got(_, consumed) => AfterRequests(cfg, stream[consumed..], broken, k - 1)
      case _ => stream
  }

  lemma {:induction false} AfterOneMore(cfg: ReadConfig, stream: Text, broken: bool, k: nat)
    ensures var rest := AfterRequests(cfg, stream, broken, k);
            NextRequest(cfg, rest, broken).Got? ==>
              AfterRequests(cfg, stream, broken, k + 1) == rest[NextRequest(cfg, rest, broken).consumed..]
    decreases k
  {
    hide NextRequest;
    if k > 0 && NextRequest(cfg, stream, broken).Got? {
      AfterOneMore(cfg, stream[NextRequest(cfg, stream, broken).consumed..], broken, k - 1);
    }
  }

  /** The read side of a connection: requests one after the other. */
  method ReadConnection(cfg: ReadConfig, reader: Socket, buf: RecvBuffer) returns (t: Transcript)
    requires buf.Valid() && cfg.maxBody <= U64_MAX
    modifies reader, buf
    ensures t == ReadAll(cfg, old(buf.Unread() + reader.Rest()), reader.broken)
  {
    hide NextRequest;
    var requests: seq<Request> := [];
    ghost var goal := ReadAll(cfg, buf.Unread() + reader.Rest(), reader.broken);
    while true
      invariant buf.Valid()
      invariant var t := ReadAll(cfg, buf.Unread() + reader.Rest(), reader.broken);
                goal == Transcript(requests + t.requests, t.error)
      decreases |buf.Unread() + reader.Rest()|
    {
      ghost var stream := buf.Unread() + reader.Rest();
      var r := ReadRequestWithLimit(cfg, reader, buf);
      if r.Err? {
        assert requests + [] == requests;
        return Transcript(requests, Some(r.error));
      }
      if r.value.None? {
        assert requests + [] == requests;
        return Transcript(requests, None);
      }
      ghost var t := ReadAll(cfg, buf.Unread() + reader.Rest(), reader.broken);
      assert requests + ([r.value.value] + t.requests) == requests + [r.value.value] + t.requests;
      requests := requests + [r.value.value];
    }
  }

  /** `wire` is the whole of the request `r`. */
  ghost predicate WireOf(cfg: ReadConfig, wire: Text, r: Request) {
    NextRequest(cfg, wire, false) == Got(r, |wire|)
  }

  /**
    Pipelining: any list of requests sent back to back is read back as that list,
    in order, and then the end of the connection. With `ReadConnection` this
    holds for every fragmentation of the reads.
   */
  lemma {:induction false} Pipelining(cfg: ReadConfig, wires: seq<Text>, rs: seq<Request>)
    requires |wires| == |rs| && forall i :: 0 <= i < |rs| ==> WireOf(cfg, wires[i], rs[i])
    ensures ReadAll(cfg, Concat(wires), false) == Transcript(rs, None)
    decreases |wires|
  {
    if wires != [] {
      assert WireOf(cfg, wires[0], rs[0]);
      var more := Concat(wires[1..]);
      NextRequestIsStable(cfg, wires[0], false, more, false);
      assert (wires[0] + more)[|wires[0]|..] == more;
      Pipelining(cfg, wires[1..], rs[1..]);
      assert [rs[0]] + rs[1..] == rs;
    }
  }

  /** A head that announces chunked framing, followed by any encoded chunks within the limits. */
  lemma ChunkedRequestWire(cfg: ReadConfig, headBytes: Text, head: RequestHead, chunks: seq<Text>)
    requires ParseRequestHead(headBytes) == Ok(RequestHeads.Complete(head, |headBytes|))
    requires Framing(head, cfg.maxBody) == Ok(Chunked) && cfg.maxBody <= U64_MAX && Slices(chunks)
    requires NonEmpty(chunks) + 1 <= MAX_CHUNK_COUNT && |Concat(chunks)| <= cfg.maxBody
    ensures WireOf(cfg, headBytes + StreamBytes(chunks), Request(head, Concat(chunks)))
  {
    hide Feed;
    hide ParseRequestHead;
    hide Framing;
    hide StreamBytes;
    HeadAnswerIsStable(headBytes, StreamBytes(chunks));
    assert (headBytes + StreamBytes(chunks))[|headBytes|..] == StreamBytes(chunks) + [];
    EncodeDecodeRoundTrip(cfg.maxBody, chunks, []);
  }

  /** A head that announces a length, followed by that many bytes. */
  lemma FixedRequestWire(cfg: ReadConfig, headBytes: Text, head: RequestHead, body: Text)
    requires ParseRequestHead(headBytes) == Ok(RequestHeads.Complete(head, |headBytes|))
    requires Framing(head, cfg.maxBody) == (if body == [] then Ok(NoBody) else Ok(Fixed(|body|)))
    requires |body| <= cfg.usizeMax
    ensures WireOf(cfg, headBytes + body, Request(head, body))
  {
    hide ParseRequestHead;
    hide Framing;
    HeadAnswerIsStable(headBytes, body);
    assert (headBytes + body)[|headBytes|..] == body;
    assert body[..|body|] == body;
  }

  // ---- requests as clients write them ----

  /** A request to send: its head, and its body in one piece or in chunks. */
  datatype Message = Whole(head: RequestHead, body: Text) | InChunks(head: RequestHead, chunks: seq<Text>)

  function Wire(m: Message): Text {
    PrintHead(m.head) + match m case Whole(_, body) => body case InChunks(_, chunks) => StreamBytes(chunks)
  }

  function Meaning(m: Message): Request {
    Request(m.head, match m case Whole(_, body) => body case InChunks(_, chunks) => Concat(chunks))
  }

  /** The head is well-formed and announces its body, and everything is within the limits. */
  ghost predicate Sendable(cfg: ReadConfig, m: Message) {
    && GoodHead(m.head) && |PrintHead(m.head)| <= MAX_HEADER_BYTES && |m.head.headers| <= MAX_HEADER_COUNT
    && match m
       case Whole(head, body) =>
         |body| <= cfg.usizeMax && Framing(head, cfg.maxBody) == if body == [] then Ok(NoBody) else Ok(Fixed(|body|))
       case InChunks(head, chunks) =>
         && Framing(head, cfg.maxBody) == Ok(Chunked) && cfg.maxBody <= U64_MAX && Slices(chunks)
         && NonEmpty(chunks) + 1 <= MAX_CHUNK_COUNT && |Concat(chunks)| <= cfg.maxBody
  }

  lemma SendableIsRead(cfg: ReadConfig, m: Message)
    requires Sendable(cfg, m)
    ensures WireOf(cfg, Wire(m), Meaning(m))
  {
    hide ParseRequestHead;
    hide PrintHead;
    hide Framing;
    hide WireOf;
    hide GoodHead;
    HeadRoundTrip(m.head, []);
    var printed := PrintHead(m.head);
    assert printed + [] == printed;
    match m
    case Whole(head, body) => FixedRequestWire(cfg, printed, head, body);
    case InChunks(head, chunks) => ChunkedRequestWire(cfg, printed, head, chunks);
  }

  /** A head that announces no body can be sent. */
  lemma BodylessIsSendable(cfg: ReadConfig, head: RequestHead)
    requires GoodHead(head) && |PrintHead(head)| <= MAX_HEADER_BYTES && |head.headers| <= MAX_HEADER_COUNT
    requires Named(head.headers, "transfer-encoding") == [] && Named(head.headers, "content-length") == []
    ensures Sendable(cfg, Whole(head, []))
  {
    hide GoodHead;
    hide PrintHead;
    hide Framing;
    hide Named;
    FramingExactly(head, cfg.maxBody, 0);
  }

  /** So can a head with the length of its body, that header's name in any mix of cases. */
  lemma MeasuredIsSendable(cfg: ReadConfig, head: RequestHead, i: nat, body: Text)
    requires GoodHead(head) && |PrintHead(head)| <= MAX_HEADER_BYTES && |head.headers| <= MAX_HEADER_COUNT
    requires Measures(head, i, |body|)
    requires 0 < |body| <= cfg.maxBody <= U64_MAX && |body| <= cfg.usizeMax
    ensures Sendable(cfg, Whole(head, body))
  {
    hide GoodHead;
    hide PrintHead;
    hide Framing;
    hide Measures;
    AnySpellingFrames(head, i, |body|, cfg.maxBody);
  }

  function Wires(ms: seq<Message>): (wires: seq<Text>)
    ensures |wires| == |ms| && forall i :: 0 <= i < |ms| ==> wires[i] == Wire(ms[i])
  {
    if ms == [] then [] else [Wire(ms[0])] + Wires(ms[1..])
  }

  function Meanings(ms: seq<Message>): (rs: seq<Request>)
    ensures |rs| == |ms| && forall i :: 0 <= i < |ms| ==> rs[i] == Meaning(ms[i])
  {
    if ms == [] then [] else [Meaning(ms[0])] + Meanings(ms[1..])
  }

  /** Requests printed back to back are read back: each of them, in order, and then the end. */
  lemma PrintedRequestsPipeline(cfg: ReadConfig, ms: seq<Message>)
    requires forall m :: m in ms ==> Sendable(cfg, m)
    ensures ReadAll(cfg, Concat(Wires(ms)), false) == Transcript(Meanings(ms), None)
  {
    hide WireOf;
    hide Wire;
    hide Sendable;
    forall i | 0 <= i < |ms| ensures WireOf(cfg, Wires(ms)[i], Meanings(ms)[i]) {
      SendableIsRead(cfg, ms[i]);
    }
    Pipelining(cfg, Wires(ms), Meanings(ms));
  }
}
