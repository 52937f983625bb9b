/**
  The chunked grammar, stated on its own, and the proof that the decoder accepts
  exactly its sentences. A document is a list of chunks
  `chunk-size [ chunk-ext ] CRLF chunk-data CRLF` followed by the last chunk
  `1*"0" [ chunk-ext ] CRLF` and the empty trailer section `CRLF`.
 */
module ChunkedGrammar {
  import opened Bytes
  import opened ChunkedSpec

  datatype Chunk = Chunk(digits: Text, ext: Text, data: Text)

  datatype Document = Document(chunks: seq<Chunk>, zeros: Text, ext: Text)

  const ZERO: byte := 48

  /** A size line: hex digits, then nothing or `;` and anything without a line feed. */
  predicate SizeLine(lim: Limits, digits: Text, ext: Text) {
    && digits != [] && AllHex(digits)
    && (ext == [] || ext[0] == SEMI)
    && LF !in ext
    && |digits| + |ext| + 1 <= lim.maxLine // the carriage return counts
  }

  predicate WellFormedChunk(lim: Limits, c: Chunk) {
    && SizeLine(lim, c.digits, c.ext)
    && c.data != []
    && HexValue(c.digits) == |c.data|
  }

  function RenderChunk(c: Chunk): Text {
    c.digits + c.ext + CRLF + c.data + CRLF
  }

  function RenderChunks(cs: seq<Chunk>): Text {
    if cs == [] then [] else RenderChunk(cs[0]) + RenderChunks(cs[1..])
  }

  function Render(d: Document): Text {
    RenderChunks(d.chunks) + (d.zeros + d.ext + CRLF + CRLF)
  }

  function Payload(cs: seq<Chunk>): Text {
    if cs == [] then [] else cs[0].data + Payload(cs[1..])
  }

  predicate AllWellFormed(lim: Limits, cs: seq<Chunk>) {
    forall i :: 0 <= i < |cs| ==> WellFormedChunk(lim, cs[i])
  }

  predicate AllZeros(s: Text) {
    forall i :: 0 <= i < |s| ==> s[i] == ZERO
  }

  /** The sentences of the grammar within the limits. */
  predicate InGrammar(lim: Limits, d: Document) {
    && AllWellFormed(lim, d.chunks)
    && SizeLine(lim, d.zeros, d.ext) && AllZeros(d.zeros)
    && |d.chunks| + 1 <= lim.maxChunks
    && |Payload(d.chunks)| <= lim.maxBody
  }

  // ---- hex values ----

  lemma {:induction false} ZeroValue(s: Text)
    requires AllHex(s)
    ensures HexValue(s) == 0 <==> AllZeros(s)
  {
    if s != [] {
      ZeroValue(s[..|s| - 1]);
      assert forall i :: 0 <= i < |s| - 1 ==> s[..|s| - 1][i] == s[i];
      assert HexDigit(s[|s| - 1]) == 0 <==> s[|s| - 1] == ZERO;
    }
  }

  /** The parsed size of a size line is the value of its digits. */
  lemma ParseSizeLine(lim: Limits, digits: Text, ext: Text)
    requires SizeLine(lim, digits, ext)
    ensures ParseChunkSize(digits + ext) ==
            if HexValue(digits) > U64_MAX then Err(InvalidChunkSize) else Ok(HexValue(digits))
  {
    var line := digits + ext;
    assert SEMI !in digits;
    if ext == [] {
      assert line == digits;
      IndexOfAbsent(line, SEMI);
    } else {
      assert line == digits + [SEMI] + ext[1..];
      IndexOfUnique(digits, SEMI, ext[1..]);
    }
    assert line[..|digits|] == digits;
  }

  /** Conversely a line that parses splits into digits and an extension. */
  lemma SizeLineOfParsed(lim: Limits, line: Text) returns (digits: Text, ext: Text)
    requires LF !in line && |line| + 1 <= lim.maxLine
    requires ParseChunkSize(line).Ok?
    ensures line == digits + ext && SizeLine(lim, digits, ext)
    ensures HexValue(digits) == ParseChunkSize(line).value
  {
    var k := IndexOf(line, SEMI);
    digits, ext := line[..k], line[k..];
  }

  // ---- runs over lines and data ----

  ghost predicate AtLineStart(m: Machine) {
    !m.Final() && !m.phase.ChunkData? && m.line == []
  }

  /** Bytes of a line only fill the line buffer, until it is too long. */
  lemma {:induction false} FeedFillsLine(lim: Limits, m: Machine, part: Text)
    requires !m.Final() && !m.phase.ChunkData?
    requires LF !in part && |m.line| <= lim.maxLine
    ensures if |m.line| + |part| <= lim.maxLine
            then Feed(lim, m, part) == m.(line := m.line + part, consumed := m.consumed + |part|)
            else Feed(lim, m, part).error == Some(ChunkLineTooLong)
    decreases |part|
  {
    if part == [] {
      assert m.line + part == m.line;
    } else {
      var m' := Step(lim, m, part[0]);
      if m'.error.None? {
        FeedFillsLine(lim, m', part[1..]);
        assert m'.line + part[1..] == m.line + part;
      } else {
        assert Feed(lim, m', part[1..]) == m';
      }
    }
  }

  function AfterLine(lim: Limits, m: Machine, line: Text): Machine
    requires !m.phase.ChunkData? && !m.phase.Done?
  {
    FinishLine(lim, m.(consumed := m.consumed + |line| + 2), line)
  }

  lemma StepAtLineEnd(lim: Limits, m: Machine, line: Text)
    requires AtLineStart(m)
    ensures Step(lim, m.(line := line + [CR], consumed := m.consumed + |line| + 1), LF) == AfterLine(lim, m, line)
  {
    hide FinishLine;
    assert (line + [CR])[..|line|] == line;
  }

  /** A full line and its CRLF act as `FinishLine`. */
  lemma FeedLine(lim: Limits, m: Machine, line: Text, rest: Text)
    requires AtLineStart(m)
    requires LF !in line && |line| + 1 <= lim.maxLine
    ensures Feed(lim, m, line + CRLF + rest) == Feed(lim, AfterLine(lim, m, line), rest)
  {
    hide Feed;
    hide Step;
    hide AfterLine;
    var part := line + [CR];
    assert line + CRLF + rest == part + ([LF] + rest);
    FeedFillsLine(lim, m, part);
    FeedSplit(lim, m, part, [LF] + rest);
    assert m.line + part == part;
    var mid := m.(line := part, consumed := m.consumed + |part|);
    FeedOne(lim, mid, LF, rest);
    StepAtLineEnd(lim, m, line);
  }

  function AfterData(m: Machine, data: Text): Machine {
    m.(phase := ChunkDataCrlf, total := m.total + |data|, consumed := m.consumed + |data|, out := m.out + data)
  }

  /** Chunk-data is copied through; running out of it is not final. */
  lemma {:induction false} FeedData(lim: Limits, m: Machine, data: Text)
    requires m.phase.ChunkData? && m.error.None? && |data| <= m.phase.remaining
    ensures Feed(lim, m, data) ==
            if |data| == m.phase.remaining then AfterData(m, data)
            else AfterData(m, data).(phase := ChunkData(m.phase.remaining - |data|))
    decreases |data|
  {
    if data == [] {
      assert m.out + data == m.out;
    } else {
      var m' := Step(lim, m, data[0]);
      assert m'.out + data[1..] == m.out + data;
      if |data| == 1 {
        assert Feed(lim, m', data[1..]) == m';
      } else {
        FeedData(lim, m', data[1..]);
      }
    }
  }

  /** A machine between two chunks. */
  ghost predicate Between(m: Machine) {
    AtLineStart(m) && m.phase.ChunkSizeLine?
  }

  function AfterChunk(m: Machine, c: Chunk): Machine {
    m.(total := m.total + |c.data|, count := m.count + 1,
       consumed := m.consumed + |RenderChunk(c)|, out := m.out + c.data)
  }

  /** One rendered chunk: an exact account of the three ways it can go. */
  lemma FeedChunk(lim: Limits, m: Machine, c: Chunk, rest: Text)
    requires Between(m) && WellFormedChunk(lim, c) && |c.data| <= U64_MAX && lim.maxBody <= U64_MAX
    ensures var r := Feed(lim, m, RenderChunk(c) + rest);
            if m.count + 1 > lim.maxChunks then r.error == Some(TooManyChunks)
            else if m.total + |c.data| > lim.maxBody then r.error == Some(BodyTooLarge)
            else r == Feed(lim, AfterChunk(m, c), rest)
  {
    hide Feed;
    hide AfterLine;
    var line := c.digits + c.ext;
    var afterData := CRLF + rest;
    assert RenderChunk(c) + rest == line + CRLF + (c.data + afterData);
    FeedLine(lim, m, line, c.data + afterData);
    AfterSizeLine(lim, m, c);
    var m1 := AfterLine(lim, m, line);
    FeedFinal(lim, m1, c.data + afterData);
    if m1.error.None? {
      FeedSplit(lim, m1, c.data, afterData);
      FeedData(lim, m1, c.data);
      assert [] + CRLF + rest == afterData;
      FeedLine(lim, AfterData(m1, c.data), [], rest);
      AfterDataLine(lim, m, c);
    }
  }

  /** What a chunk's size line announces, or which limit it breaks. */
  lemma AfterSizeLine(lim: Limits, m: Machine, c: Chunk)
    requires Between(m) && WellFormedChunk(lim, c) && |c.data| <= U64_MAX && lim.maxBody <= U64_MAX
    ensures var m1 := AfterLine(lim, m, c.digits + c.ext);
            if m.count + 1 > lim.maxChunks then m1.error == Some(TooManyChunks)
            else if m.total + |c.data| > lim.maxBody then m1.error == Some(BodyTooLarge)
            else m1 == m.(consumed := m.consumed + |c.digits + c.ext| + 2, count := m.count + 1,
                          phase := ChunkData(|c.data|))
  {
    ParseSizeLine(lim, c.digits, c.ext);
  }

  lemma AfterDataLine(lim: Limits, m: Machine, c: Chunk)
    requires Between(m) && WellFormedChunk(lim, c)
    ensures var m1 := m.(consumed := m.consumed + |c.digits + c.ext| + 2, count := m.count + 1,
                         phase := ChunkData(|c.data|));
            var m2 := AfterData(m1, c.data);
            AtLineStart(m2) && AfterLine(lim, m2, []) == AfterChunk(m, c)
  {
  }

  /** The last chunk and the empty trailer. */
  lemma FeedLast(lim: Limits, m: Machine, zeros: Text, ext: Text, rest: Text)
    requires Between(m) && SizeLine(lim, zeros, ext) && AllZeros(zeros)
    ensures var r := Feed(lim, m, zeros + ext + CRLF + CRLF + rest);
            if m.count + 1 > lim.maxChunks then r.error == Some(TooManyChunks)
            else r == m.(phase := Done, count := m.count + 1, consumed := m.consumed + |zeros + ext| + 4)
  {
    hide Feed;
    var line := zeros + ext;
    ZeroValue(zeros);
    ParseSizeLine(lim, zeros, ext);
    assert zeros + ext + CRLF + CRLF + rest == line + CRLF + (CRLF + rest);
    FeedLine(lim, m, line, CRLF + rest);
    var m1 := AfterLine(lim, m, line);
    FeedFinal(lim, m1, CRLF + rest);
    if m1.error.None? {
      assert [] + CRLF + rest == CRLF + rest;
      FeedLine(lim, m1, [], rest);
      FeedFinal(lim, AfterLine(lim, m1, []), rest);
    }
  }

  // ---- completeness ----

  lemma {:induction false} FeedChunks(lim: Limits, m: Machine, cs: seq<Chunk>, rest: Text) returns (end: Machine)
    requires Between(m) && AllWellFormed(lim, cs) && lim.maxBody <= U64_MAX
    requires m.count + |cs| <= lim.maxChunks && m.total + |Payload(cs)| <= lim.maxBody
    ensures Between(end) && end.count == m.count + |cs| && end.out == m.out + Payload(cs)
    ensures end.consumed == m.consumed + |RenderChunks(cs)|
    ensures Feed(lim, m, RenderChunks(cs) + rest) == Feed(lim, end, rest)
    decreases |cs|
  {
    hide Feed;
    if cs == [] {
      assert [] + rest == rest;
      end := m;
      assert m.out + [] == m.out;
    } else {
      assert RenderChunks(cs) + rest == RenderChunk(cs[0]) + (RenderChunks(cs[1..]) + rest);
      FeedChunk(lim, m, cs[0], RenderChunks(cs[1..]) + rest);
      end := FeedChunks(lim, AfterChunk(m, cs[0]), cs[1..], rest);
      assert m.out + cs[0].data + Payload(cs[1..]) == m.out + Payload(cs);
    }
  }

  /** Every sentence within the limits is accepted, whatever follows it. */
  lemma Completeness(lim: Limits, d: Document, rest: Text)
    requires InGrammar(lim, d) && lim.maxBody <= U64_MAX
    ensures var r := Feed(lim, Start, Render(d) + rest);
            r.Completed() && r.consumed == |Render(d)| && r.out == Payload(d.chunks)
  {
    hide Feed;
    var tail := d.zeros + d.ext + CRLF + CRLF;
    assert Render(d) + rest == RenderChunks(d.chunks) + (tail + rest);
    var end := FeedChunks(lim, Start, d.chunks, tail + rest);
    FeedLast(lim, end, d.zeros, d.ext, rest);
    assert [] + Payload(d.chunks) == Payload(d.chunks);
  }

  // ---- soundness ----

  /** A run that completes past a line feed had a carriage return before it. */
  lemma CarriageReturnOfRun(lim: Limits, m: Machine, rest: Text)
    requires !m.Final() && !m.phase.ChunkData? && Feed(lim, m, [LF] + rest).Completed()
    ensures m.line != [] && m.line[|m.line| - 1] == CR
  {
    hide Feed;
    FeedOne(lim, m, LF, rest);
    FeedFinal(lim, Step(lim, m, LF), rest);
  }

  /** A run that completes from the start of a line has read that line and its CRLF. */
  lemma LineOfRun(lim: Limits, m: Machine, input: Text) returns (line: Text, rest: Text)
    requires AtLineStart(m) && Feed(lim, m, input).Completed()
    ensures input == line + CRLF + rest && LF !in line && |line| + 1 <= lim.maxLine
  {
    hide Feed;
    hide Step;
    var k := IndexOf(input, LF);
    FilledUpToBreak(lim, m, input);
    var part := input[..k];
    rest := input[k + 1..];
    CarriageReturnOfRun(lim, m.(line := part, consumed := m.consumed + k), rest);
    line := part[..k - 1];
    assert part == line + [CR] && input == part + ([LF] + rest);
  }

  /** A run that completes gets past the first line feed, with a full line in the buffer before it. */
  lemma FilledUpToBreak(lim: Limits, m: Machine, input: Text)
    requires AtLineStart(m) && Feed(lim, m, input).Completed()
    ensures var k := IndexOf(input, LF);
            && k < |input| && k <= lim.maxLine
            && Feed(lim, m, input)
               == Feed(lim, m.(line := input[..k], consumed := m.consumed + k), [LF] + input[k + 1..])
  {
    hide Feed;
    hide Step;
    var k := IndexOf(input, LF);
    var part, tail := input[..k], input[k..];
    assert part + tail == input;
    FeedSplit(lim, m, part, tail);
    FeedFillsLine(lim, m, part);
    FeedFinal(lim, Feed(lim, m, part), tail);
    assert m.line + part == part;
    assert k < |input| ==> tail == [LF] + input[k + 1..];
  }

  /** Where only an empty line is allowed, a run that completes has read one. */
  lemma EmptyLineOfRun(lim: Limits, m: Machine, input: Text) returns (rest: Text)
    requires AtLineStart(m) && !m.phase.ChunkSizeLine? && Feed(lim, m, input).Completed()
    ensures input == CRLF + rest
  {
    hide Feed;
    var line;
    line, rest := LineOfRun(lim, m, input);
    FeedLine(lim, m, line, rest);
    FeedFinal(lim, AfterLine(lim, m, line), rest);
    assert line == [];
  }

  /** `r` is the result of reading from `m` the rest `d` of a document at the front of `input`. */
  ghost predicate ReadsRest(lim: Limits, m: Machine, input: Text, d: Document, r: Machine) {
    && AllWellFormed(lim, d.chunks)
    && SizeLine(lim, d.zeros, d.ext) && AllZeros(d.zeros)
    && m.count + |d.chunks| + 1 <= lim.maxChunks
    && m.total + |Payload(d.chunks)| <= lim.maxBody
    && Render(d) <= input
    && r.consumed == m.consumed + |Render(d)|
    && r.out == m.out + Payload(d.chunks)
  }

  lemma LastReadsRest(lim: Limits, m: Machine, zeros: Text, ext: Text, rest: Text, r: Machine)
    requires SizeLine(lim, zeros, ext) && AllZeros(zeros)
    requires m.count + 1 <= lim.maxChunks && m.total <= lim.maxBody
    requires r.consumed == m.consumed + |zeros + ext| + 4 && r.out == m.out
    ensures ReadsRest(lim, m, zeros + ext + CRLF + CRLF + rest, Document([], zeros, ext), r)
  {
    var d := Document([], zeros, ext);
    assert Render(d) == zeros + ext + CRLF + CRLF;
    assert m.out + [] == m.out;
  }

  /** The last size line was read: an empty line follows. */
  lemma LastOfRun(lim: Limits, m: Machine, digits: Text, ext: Text, rest: Text) returns (rest': Text)
    requires Between(m) && SizeLine(lim, digits, ext) && HexValue(digits) == 0
    requires Feed(lim, m, digits + ext + CRLF + rest).Completed()
    ensures rest == CRLF + rest' && m.count + 1 <= lim.maxChunks
  {
    hide Feed;
    ParseSizeLine(lim, digits, ext);
    FeedLine(lim, m, digits + ext, rest);
    FeedFinal(lim, AfterLine(lim, m, digits + ext), rest);
    rest' := EmptyLineOfRun(lim, AfterLine(lim, m, digits + ext), rest);
  }

  /** The last line was read: the document ends here. */
  lemma SoundLast(lim: Limits, m: Machine, digits: Text, ext: Text, rest: Text)
    requires Between(m) && m.total <= lim.maxBody && SizeLine(lim, digits, ext) && HexValue(digits) == 0
    requires Feed(lim, m, digits + ext + CRLF + rest).Completed()
    ensures ReadsRest(lim, m, digits + ext + CRLF + rest, Document([], digits, ext),
                      Feed(lim, m, digits + ext + CRLF + rest))
  {
    hide Feed;
    var rest' := LastOfRun(lim, m, digits, ext, rest);
    assert digits + ext + CRLF + rest == digits + ext + CRLF + CRLF + rest';
    ZeroValue(digits);
    FeedLast(lim, m, digits, ext, rest');
    LastReadsRest(lim, m, digits, ext, rest', Feed(lim, m, digits + ext + CRLF + rest));
  }

  /** A run that completes from inside chunk-data has read all of it and its CRLF. */
  lemma DataOfRun(lim: Limits, m: Machine, input: Text) returns (data: Text, rest: Text)
    requires m.phase.ChunkData? && m.error.None? && m.line == []
    requires Feed(lim, m, input).Completed()
    ensures input == data + CRLF + rest && |data| == m.phase.remaining
  {
    hide Feed;
    var n := m.phase.remaining;
    if |input| < n {
      FeedData(lim, m, input);
      assert false;
    }
    data := input[..n];
    assert data + input[n..] == input;
    FeedSplit(lim, m, data, input[n..]);
    FeedData(lim, m, data);
    var m' := AfterData(m, data);
    rest := EmptyLineOfRun(lim, m', input[n..]);
  }

  /** The size line of a chunk was read: its data and CRLF follow. */
  lemma SoundChunk(lim: Limits, m: Machine, digits: Text, ext: Text, rest: Text) returns (c: Chunk, rest': Text)
    requires Between(m) && lim.maxBody <= U64_MAX && SizeLine(lim, digits, ext) && HexValue(digits) != 0
    requires Feed(lim, m, digits + ext + CRLF + rest).Completed()
    ensures WellFormedChunk(lim, c) && digits + ext + CRLF + rest == RenderChunk(c) + rest'
    ensures m.count + 1 <= lim.maxChunks && m.total + |c.data| <= lim.maxBody
    ensures Feed(lim, m, RenderChunk(c) + rest') == Feed(lim, AfterChunk(m, c), rest')
  {
    hide Feed;
    ParseSizeLine(lim, digits, ext);
    FeedLine(lim, m, digits + ext, rest);
    FeedFinal(lim, AfterLine(lim, m, digits + ext), rest);
    var data;
    data, rest' := DataOfRun(lim, AfterLine(lim, m, digits + ext), rest);
    c := Chunk(digits, ext, data);
    assert digits + ext + CRLF + rest == RenderChunk(c) + rest';
    FeedChunk(lim, m, c, rest');
  }

  /** A completed run from between two chunks has read the rest of a document. */
  lemma {:induction false} SoundFrom(lim: Limits, m: Machine, input: Text) returns (d: Document)
    requires Between(m) && lim.maxBody <= U64_MAX && m.total <= lim.maxBody
    requires Feed(lim, m, input).Completed()
    ensures ReadsRest(lim, m, input, d, Feed(lim, m, input))
    decreases |input|
  {
    hide Feed;
    var line, rest := LineOfRun(lim, m, input);
    FeedLine(lim, m, line, rest);
    FeedFinal(lim, AfterLine(lim, m, line), rest);
    var digits, ext := SizeLineOfParsed(lim, line);
    if HexValue(digits) == 0 {
      SoundLast(lim, m, digits, ext, rest);
      d := Document([], digits, ext);
    } else {
      var c, rest' := SoundChunk(lim, m, digits, ext, rest);
      var d' := SoundFrom(lim, AfterChunk(m, c), rest');
      d := Document([c] + d'.chunks, d'.zeros, d'.ext);
      ReadsOneMore(lim, m, c, rest', d', Feed(lim, m, input));
    }
  }

  lemma ReadsOneMore(lim: Limits, m: Machine, c: Chunk, rest: Text, d: Document, r: Machine)
    requires WellFormedChunk(lim, c) && ReadsRest(lim, AfterChunk(m, c), rest, d, r)
    ensures ReadsRest(lim, m, RenderChunk(c) + rest, Document([c] + d.chunks, d.zeros, d.ext), r)
  {
    var d1 := Document([c] + d.chunks, d.zeros, d.ext);
    assert d1.chunks[1..] == d.chunks;
    assert Render(d1) == RenderChunk(c) + Render(d);
    assert m.out + c.data + Payload(d.chunks) == m.out + Payload(d1.chunks);
    assert RenderChunk(c) + rest == RenderChunk(c) + Render(d) + rest[|Render(d)|..];
  }

  /** The first `k` bytes of `input` are a sentence that carries `payload`. */
  ghost predicate SentenceAt(lim: Limits, input: Text, k: nat, payload: Text) {
    exists d: Document :: InGrammar(lim, d) && k <= |input| && Render(d) == input[..k] && Payload(d.chunks) == payload
  }

  /**
    Decoder correctness: on every input the machine completes at offset `k` with
    output `payload` exactly when the first `k` bytes are a sentence of the
    grammar, within the limits, that carries `payload`.
   */
  lemma DecoderAcceptsExactlyTheGrammar(lim: Limits, input: Text, k: nat, payload: Text)
    requires lim.maxBody <= U64_MAX
    ensures var r := Feed(lim, Start, input);
            (r.Completed() && r.consumed == k && r.out == payload) <==> SentenceAt(lim, input, k, payload)
  {
    hide Feed;
    var r := Feed(lim, Start, input);
    if r.Completed() && r.consumed == k && r.out == payload {
      var d := SoundFrom(lim, Start, input);
      assert InGrammar(lim, d) && Render(d) == input[..k];
    }
    if SentenceAt(lim, input, k, payload) {
      var d: Document :| InGrammar(lim, d) && k <= |input| && Render(d) == input[..k] && Payload(d.chunks) == payload;
      Completeness(lim, d, input[k..]);
      assert Render(d) + input[k..] == input;
    }
  }

  /** No sentence is a strict prefix of another, and a sentence carries one payload. */
  lemma SentencesAreUnambiguous(lim: Limits, input: Text, k: nat, payload: Text, k': nat, payload': Text)
    requires lim.maxBody <= U64_MAX
    requires SentenceAt(lim, input, k, payload) && SentenceAt(lim, input, k', payload')
    ensures k == k' && payload == payload'
  {
    DecoderAcceptsExactlyTheGrammar(lim, input, k, payload);
    DecoderAcceptsExactlyTheGrammar(lim, input, k', payload');
  }
}
