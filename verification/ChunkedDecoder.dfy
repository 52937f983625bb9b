/** The incremental decoder object, proved against the byte machine of ChunkedSpec. */
module ChunkedDecoding {
  import opened Bytes
  import opened ChunkedSpec
  import opened ChunkedGrammar

  datatype DecodeOutcome = Complete(consumed: nat) | Incomplete(consumed: nat)

  /** What `TakeLine` reports. */
  datatype LineResult = NoLine | Line(text: Text) | Bad(error: ChunkedError)

  /** Result, buffer left behind and bytes read by the line scanner. */
  datatype Scan = Scan(result: LineResult, buf: Text, read: nat)

  function ScanLine(maxLine: nat, buf: Text, input: Text): (s: Scan)
    ensures s.read <= |input|
    ensures s.result.NoLine? ==> s.read == |input|
    ensures s.result.Line? ==> s.buf == [] && 0 < s.read
    decreases |input|
  {
    if input == [] then Scan(NoLine, buf, 0)
    else if input[0] == LF then
      if buf == [] || buf[|buf| - 1] != CR then Scan(Bad(InvalidLineTerminator), buf, 1)
      else Scan(Line(buf[..|buf| - 1]), [], 1)
    else if |buf| + 1 > maxLine then Scan(Bad(ChunkLineTooLong), buf + [input[0]], 1)
    else
      var s := ScanLine(maxLine, buf + [input[0]], input[1..]);
      s.(read := s.read + 1)
  }

  /** What the machine does after the scanner has reported. */
  function AfterScan(lim: Limits, m: Machine, s: Scan): Machine
    requires !m.phase.ChunkData? && !m.phase.Done?
  {
    var m1 := m.(line := s.buf, consumed := m.consumed + s.read);
    match s.result
    case NoLine => m1
    case Bad(e) => m1.(error := Some(e))
    case Line(text) => FinishLine(lim, m1, text)
  }

  /** The scanner stops at a line feed or a full buffer after one byte. */
  lemma FeedScansOne(lim: Limits, m: Machine, input: Text)
    requires !m.Final() && !m.phase.ChunkData?
    requires input != [] && (input[0] == LF || |m.line| + 1 > lim.maxLine)
    ensures var s := ScanLine(lim.maxLine, m.line, input);
            s.read == 1 && Feed(lim, m, input) == Feed(lim, AfterScan(lim, m, s), input[1..])
  {
    hide Feed;
    hide FinishLine;
    assert input == [input[0]] + input[1..];
    FeedOne(lim, m, input[0], input[1..]);
    var s := ScanLine(lim.maxLine, m.line, input);
    assert AfterScan(lim, m, s) == Step(lim, m, input[0]);
  }

  /** Scanning a line is what the machine does byte by byte in its line states. */
  lemma {:induction false} FeedScans(lim: Limits, m: Machine, input: Text)
    requires !m.Final() && !m.phase.ChunkData?
    ensures var s := ScanLine(lim.maxLine, m.line, input);
            Feed(lim, m, input) == Feed(lim, AfterScan(lim, m, s), input[s.read..])
    decreases |input|
  {
    hide Feed;
    hide FinishLine;
    FeedFinal(lim, m, input);
    if input != [] {
      assert input == [input[0]] + input[1..];
      FeedOne(lim, m, input[0], input[1..]);
      if input[0] == LF || |m.line| + 1 > lim.maxLine {
        FeedScansOne(lim, m, input);
      } else {
        var m' := Step(lim, m, input[0]);
        FeedScans(lim, m', input[1..]);
        var s := ScanLine(lim.maxLine, m'.line, input[1..]);
        assert input[1..][s.read..] == input[s.read + 1..];
        assert AfterScan(lim, m', s) == AfterScan(lim, m, s.(read := s.read + 1));
      }
    }
  }

  class ChunkedDecoder {
    var phase: Phase
    var lineBuf: Text
    var totalDecoded: nat
    var chunkCount: nat
    const maxBodyBytes: nat

    /** The byte machine in this decoder's state, with `consumed` read and `out` decoded. */
    ghost function Machine(consumed: nat, out: Text): Machine
      reads this
    {
      ChunkedSpec.Machine(phase, lineBuf, totalDecoded, chunkCount, consumed, out, None)
    }

    ghost predicate Holds(m: Machine)
      reads this
    {
      phase == m.phase && lineBuf == m.line && totalDecoded == m.total && chunkCount == m.count
    }

    constructor (maxBodyBytes: nat)
      requires maxBodyBytes <= U64_MAX
      ensures this.maxBodyBytes == maxBodyBytes
      ensures Machine(0, []) == Start
    {
      this.phase := ChunkSizeLine;
      this.lineBuf := [];
      this.totalDecoded := 0;
      this.chunkCount := 0;
      this.maxBodyBytes := maxBodyBytes;
    }

    /** Scans `input[pos..]` to the next CRLF, carrying the buffer across calls. */
    method TakeLine(input: Text, pos: nat) returns (result: LineResult, pos': nat)
      requires pos <= |input|
      modifies this`lineBuf
      ensures var s := ScanLine(MAX_CHUNK_LINE_BYTES, old(lineBuf), input[pos..]);
              result == s.result && lineBuf == s.buf && pos' == pos + s.read
    {
      ghost var goal := ScanLine(MAX_CHUNK_LINE_BYTES, lineBuf, input[pos..]);
      pos' := pos;
      while pos' < |input|
        invariant pos <= pos' <= |input|
        invariant var s := ScanLine(MAX_CHUNK_LINE_BYTES, lineBuf, input[pos'..]);
                  goal == s.(read := s.read + (pos' - pos))
      {
        assert input[pos'..][1..] == input[pos' + 1..];
        var b := input[pos'];
        pos' := pos' + 1;
        if b == LF {
          if lineBuf == [] || lineBuf[|lineBuf| - 1] != CR {
            return Bad(InvalidLineTerminator), pos';
          }
          result := Line(lineBuf[..|lineBuf| - 1]);
          lineBuf := [];
          return;
        }
        lineBuf := lineBuf + [b];
        if |lineBuf| > MAX_CHUNK_LINE_BYTES {
          return Bad(ChunkLineTooLong), pos';
        }
      }
      result := NoLine;
    }

    /**
      Decodes as much of `input` as possible, appending to `out`. The outcome,
      the bytes consumed, the output and the decoder's fields are those of the
      byte machine; an incomplete answer has consumed all of `input`.
     */
    method Decode(input: Text, out: Text) returns (result: Result<DecodeOutcome, ChunkedError>, out': Text)
      modifies this
      ensures var m := Feed(ServerLimits(maxBodyBytes), old(Machine(0, out)), input);
              Holds(m) && out' == m.out && Answers(result, m, |input|)
    {
      ghost var lim := ServerLimits(maxBodyBytes);
      ghost var goal := Feed(lim, Machine(0, out), input);
      var pos := 0;
      out' := out;
      assert input[0..] == input;
      while true
        invariant 0 <= pos <= |input|
        invariant goal == Feed(lim, Machine(pos, out'), input[pos..])
        decreases |input| - pos
      {
        var stop: Option<Result<DecodeOutcome, ChunkedError>>;
        match phase {
          case Done =>
            return Ok(Complete(pos)), out';
          case ChunkData(_) =>
            stop, pos, out' := DecodeData(input, pos, out');
          case _ =>
            stop, pos := DecodeLine(input, pos, out');
        }
        if stop.Some? {
          return stop.value, out';
        }
      }
    }

    /** `result` is the answer `Decode` gives when the machine ends as `m`. */
    static ghost predicate Answers(result: Result<DecodeOutcome, ChunkedError>, m: Machine, length: nat) {
      result == if m.error.Some? then Err(m.error.value)
              else if m.phase.Done? then Ok(Complete(m.consumed))
              else Ok(Incomplete(length))
    }

    /** One round of `Decode` in the chunk-data state. */
    method DecodeData(input: Text, pos: nat, out: Text)
      returns (stop: Option<Result<DecodeOutcome, ChunkedError>>, pos': nat, out': Text)
      requires phase.ChunkData? && pos <= |input|
      modifies this
      ensures pos <= pos' <= |input|
      ensures var lim := ServerLimits(maxBodyBytes);
              var m := Feed(lim, old(Machine(pos, out)), input[pos..]);
              if stop.Some? then Holds(m) && out' == m.out && Answers(stop.value, m, |input|)
              else pos < pos' && m == Feed(lim, Machine(pos', out'), input[pos'..])
    {
      out' := out;
      pos' := pos;
      var available := |input| - pos';
      if available == 0 {
        stop := Some(Ok(Incomplete(pos')));
        return;
      }
      ghost var lim, m := ServerLimits(maxBodyBytes), Machine(pos, out);
      var remaining := phase.remaining;
      var take := Min(available, remaining);
      ghost var data, more := input[pos..pos + take], input[pos + take..];
      assert data + more == input[pos..];
      FeedSplit(lim, m, data, more);
      FeedData(lim, m, data);
      out' := out' + input[pos'..pos' + take];
      totalDecoded := totalDecoded + take;
      pos' := pos' + take;
      var remainingLeft := remaining - take;
      if remainingLeft == 0 {
        phase := ChunkDataCrlf;
        stop := None;
      } else {
        phase := ChunkData(remainingLeft);
        stop := Some(Ok(Incomplete(pos')));
      }
    }

    /** One round of `Decode` in a line state. */
    method DecodeLine(input: Text, pos: nat, ghost out: Text)
      returns (stop: Option<Result<DecodeOutcome, ChunkedError>>, pos': nat)
      requires !phase.ChunkData? && !phase.Done? && pos <= |input|
      modifies this
      ensures pos <= pos' <= |input|
      ensures var lim := ServerLimits(maxBodyBytes);
              var m := Feed(lim, old(Machine(pos, out)), input[pos..]);
              if stop.Some? then Holds(m) && out == m.out && Answers(stop.value, m, |input|)
              else pos < pos' && m == Feed(lim, Machine(pos', out), input[pos'..])
    {
      hide Feed;
      ghost var lim, m := ServerLimits(maxBodyBytes), Machine(pos, out);
      ghost var scan := ScanLine(lim.maxLine, m.line, input[pos..]);
      FeedScans(lim, m, input[pos..]);
      var line;
      line, pos' := TakeLine(input, pos);
      assert input[pos..][scan.read..] == input[pos'..];
      FeedFinal(lim, AfterScan(lim, m, scan), input[pos'..]);
      match line {
        case Bad(e) =>
          stop := Some(Err(e));
        case NoLine =>
          stop := Some(Ok(Incomplete(pos')));
        case Line(text) =>
          ghost var m1 := FinishLine(lim, Machine(pos', out), text);
          FeedFinal(lim, m1, input[pos'..]);
          var error := AcceptLine(text, pos', out);
          stop := if error.Some? then Some(Err(error.value)) else None;
      }
    }

    /** The effect of one complete line in the three line states of `Decode`. */
    method AcceptLine(text: Text, ghost pos: nat, ghost out: Text) returns (error: Option<ChunkedError>)
      requires !phase.ChunkData? && !phase.Done? && lineBuf == []
      modifies this
      ensures var m := FinishLine(ServerLimits(maxBodyBytes), old(Machine(pos, out)), text);
              Holds(m) && error == m.error
    {
      match phase
      case ChunkSizeLine =>
        var size := ParseChunkSize(text);
        if size.Err? {
          return Some(size.error);
        }
        chunkCount := chunkCount + 1;
        if chunkCount > MAX_CHUNK_COUNT {
          return Some(TooManyChunks);
        }
        if size.value == 0 {
          phase := TrailerLine;
        } else {
          if totalDecoded + size.value > U64_MAX {
            return Some(BodyTooLarge);
          }
          var newTotal := totalDecoded + size.value;
          if newTotal > maxBodyBytes {
            return Some(BodyTooLarge);
          }
          phase := ChunkData(size.value);
        }
        return None;
      case ChunkDataCrlf =>
        if text != [] {
          return Some(InvalidLineTerminator);
        }
        phase := ChunkSizeLine;
        return None;
      case TrailerLine =>
        if text != [] {
          return Some(TrailerUnsupported);
        }
        phase := Done;
        return None;
    }
  }
}
