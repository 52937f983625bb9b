/**
  The chunked transfer-coding decoder as a machine that reads one byte at a
  time (section 7.1 of RFC 9112). The incremental decoder of the server, which
  works on whole slices and keeps a line buffer between calls, is proved against
  this machine in ChunkedDecoder.dfy.
 */
module ChunkedSpec {
  import opened Bytes

  /** The three limits; the server fixes the last two, the first is configurable. */
  datatype Limits = Limits(maxBody: nat, maxChunks: nat, maxLine: nat)

  const MAX_CHUNK_COUNT: nat := 16_384
  const MAX_CHUNK_LINE_BYTES: nat := 256

  function ServerLimits(maxBody: nat): Limits {
    Limits(maxBody, MAX_CHUNK_COUNT, MAX_CHUNK_LINE_BYTES)
  }

  datatype ChunkedError =
    | InvalidChunkSize
    | ChunkLineTooLong
    | TooManyChunks
    | BodyTooLarge
    | TrailerUnsupported
    | InvalidLineTerminator

  type Positive = n: nat | n > 0 witness 1

  datatype Phase =
    | ChunkSizeLine
    | ChunkData(remaining: Positive)
    | ChunkDataCrlf
    | TrailerLine
    | Done

  /**
    The decoder's fields (`phase`, `line`, `total`, `count`), the bytes consumed
    and decoded so far, and the error that stopped it, if any.
   */
  datatype Machine = Machine(
    phase: Phase, line: Text, total: nat, count: nat,
    consumed: nat, out: Text, error: Option<ChunkedError>)
  {
    predicate Final() {
      error.Some? || phase.Done?
    }

    predicate Completed() {
      error.None? && phase.Done?
    }
  }

  const Start: Machine := Machine(ChunkSizeLine, [], 0, 0, 0, [], None)

  // ---- chunk-size ----

  predicate IsHexDigit(b: byte) {
    48 <= b <= 57 || 65 <= b <= 70 || 97 <= b <= 102
  }

  predicate AllHex(s: Text) {
    forall i :: 0 <= i < |s| ==> IsHexDigit(s[i])
  }

  function HexDigit(b: byte): (d: nat)
    requires IsHexDigit(b)
    ensures d < 16
  {
    if b <= 57 then b - 48 else if b <= 70 then b - 55 else b - 87
  }

  const LowerHex: string := "0123456789abcdef"
  const UpperHex: string := "0123456789ABCDEF"

  /** The sixteen digits, small or capital, and nothing else. */
  lemma HexDigitsAreSpelled(d: nat)
    requires d < 16
    ensures LowerHex[d] as int < 128 && UpperHex[d] as int < 128
    ensures IsHexDigit(LowerHex[d] as int) && HexDigit(LowerHex[d] as int) == d
    ensures IsHexDigit(UpperHex[d] as int) && HexDigit(UpperHex[d] as int) == d
  {
  }

  lemma HexDigitsHaveSpelling(b: byte)
    requires IsHexDigit(b)
    ensures b == LowerHex[HexDigit(b)] as int || b == UpperHex[HexDigit(b)] as int
  {
  }

  function HexValue(s: Text): nat
    requires AllHex(s)
  {
    if s == [] then 0 else HexValue(s[..|s| - 1]) * 16 + HexDigit(s[|s| - 1])
  }

  function ParseChunkSize(line: Text): Result<nat, ChunkedError> {
    var digits := line[..IndexOf(line, SEMI)];
    if digits == [] || !AllHex(digits) then Err(InvalidChunkSize)
    else if HexValue(digits) > U64_MAX then Err(InvalidChunkSize)
    else Ok(HexValue(digits))
  }

  // ---- the machine ----

  /** What a complete line (without its CRLF, the buffer already emptied) does in the line states. */
  function FinishLine(lim: Limits, m: Machine, line: Text): Machine
    requires !m.phase.ChunkData? && !m.phase.Done?
  {
    match m.phase
    case ChunkSizeLine =>
      (match ParseChunkSize(line)
       case Err(e) => m.(error := Some(e))
       case Ok(size) =>
         var m1 := m.(count := m.count + 1);
         if m1.count > lim.maxChunks then m1.(error := Some(TooManyChunks))
         else if size == 0 then m1.(phase := TrailerLine)
         else if m.total + size > U64_MAX then m1.(error := Some(BodyTooLarge))
         else if m.total + size > lim.maxBody then m1.(error := Some(BodyTooLarge))
         else m1.(phase := ChunkData(size)))
    case ChunkDataCrlf =>
      if line != [] then m.(error := Some(InvalidLineTerminator)) else m.(phase := ChunkSizeLine)
    case TrailerLine =>
      if line != [] then m.(error := Some(TrailerUnsupported)) else m.(phase := Done)
  }

  function Step(lim: Limits, m: Machine, b: byte): Machine
    requires !m.Final()
  {
    var m0 := m.(consumed := m.consumed + 1);
    if m.phase.ChunkData? then
      var left := m.phase.remaining - 1;
      m0.(phase := if left == 0 then ChunkDataCrlf else ChunkData(left), total := m.total + 1, out := m.out + [b])
    else if b == LF then
      if m.line == [] || m.line[|m.line| - 1] != CR then m0.(error := Some(InvalidLineTerminator))
      else FinishLine(lim, m0.(line := []), m.line[..|m.line| - 1])
    else
      m0.(line := m.line + [b], error := if |m.line| + 1 > lim.maxLine then Some(ChunkLineTooLong) else None)
  }

  /** Feeds the machine until it completes, fails or runs out of input. */
  function Feed(lim: Limits, m: Machine, input: Text): Machine
    decreases |input|
  {
    if m.Final() || input == [] then m else Feed(lim, Step(lim, m, input[0]), input[1..])
  }

  // Rewriting rules for `Feed`, so that longer proofs can hide its definition.

  lemma FeedOne(lim: Limits, m: Machine, b: byte, rest: Text)
    requires !m.Final()
    ensures Feed(lim, m, [b] + rest) == Feed(lim, Step(lim, m, b), rest)
  {
    assert ([b] + rest)[1..] == rest;
  }

  lemma FeedFinal(lim: Limits, m: Machine, input: Text)
    ensures m.Final() || input == [] ==> Feed(lim, m, input) == m
  {
  }

  /** Cutting the input in two changes nothing. */
  lemma {:induction false} FeedSplit(lim: Limits, m: Machine, a: Text, b: Text)
    ensures Feed(lim, m, a + b) == Feed(lim, Feed(lim, m, a), b)
    decreases |a|
  {
    if a == [] {
      assert a + b == b;
    } else if !m.Final() {
      assert (a + b)[0] == a[0] && (a + b)[1..] == a[1..] + b;
      FeedSplit(lim, Step(lim, m, a[0]), a[1..], b);
    }
  }

  /** Only a final machine leaves input unread. */
  lemma {:induction false} FeedConsumed(lim: Limits, m: Machine, input: Text)
    ensures m.consumed <= Feed(lim, m, input).consumed <= m.consumed + |input|
    ensures !Feed(lim, m, input).Final() ==> Feed(lim, m, input).consumed == m.consumed + |input|
    decreases |input|
  {
    if !m.Final() && input != [] {
      FeedConsumed(lim, Step(lim, m, input[0]), input[1..]);
    }
  }

  /** Successive calls on the pieces of an input, stopping at the first final answer. */
  function FeedPieces(lim: Limits, m: Machine, pieces: seq<Text>): Machine
    decreases |pieces|
  {
    if m.Final() || pieces == [] then m else FeedPieces(lim, Feed(lim, m, pieces[0]), pieces[1..])
  }

  /** Fragmentation invariance: outcome, error kind, bytes consumed, fields and output. */
  lemma {:induction false} FragmentationInvariance(lim: Limits, m: Machine, pieces: seq<Text>)
    ensures FeedPieces(lim, m, pieces) == Feed(lim, m, Concat(pieces))
    decreases |pieces|
  {
    if pieces != [] && !m.Final() {
      FeedSplit(lim, m, pieces[0], Concat(pieces[1..]));
      FragmentationInvariance(lim, Feed(lim, m, pieces[0]), pieces[1..]);
    }
  }

  /** A final answer ignores what follows and was not available from any shorter input. */
  lemma FinalAnswerIsExact(lim: Limits, m: Machine, input: Text, more: Text, j: nat)
    requires !m.Final() && Feed(lim, m, input).Final()
    ensures Feed(lim, m, input + more) == Feed(lim, m, input)
    ensures m.consumed + j < Feed(lim, m, input).consumed ==> j <= |input| && !Feed(lim, m, input[..j]).Final()
  {
    FeedConsumed(lim, m, input);
    FeedSplit(lim, m, input, more);
    if m.consumed + j < Feed(lim, m, input).consumed {
      assert input[..j] + input[j..] == input;
      FeedSplit(lim, m, input[..j], input[j..]);
      FeedConsumed(lim, m, input[..j]);
    }
  }

  // ---- bounds in every reachable state ----

  ghost predicate Bounded(lim: Limits, m: Machine) {
    && |m.line| <= lim.maxLine
    && m.count <= lim.maxChunks
    && m.total + (if m.phase.ChunkData? then m.phase.remaining else 0) <= lim.maxBody
    && (m.phase.ChunkData? || m.phase.Done? ==> m.line == [])
  }

  /**
    Every run from a bounded state: the output is counted exactly and stays
    within the body limit; unless the run failed, the output plus the declared
    remainder, the line buffer and the chunk count are within theirs. The line
    buffer passes its limit, by one byte, exactly in the run that fails for it.
   */
  lemma {:induction false} FeedBounds(lim: Limits, m: Machine, input: Text)
    requires Bounded(lim, m) && m.error.None?
    ensures var r := Feed(lim, m, input);
            && m.out <= r.out && r.total - m.total == |r.out| - |m.out|
            && r.total <= lim.maxBody
            && (r.error.None? ==> Bounded(lim, r))
            && |r.line| <= lim.maxLine + 1
            && (|r.line| > lim.maxLine <==> r.error == Some(ChunkLineTooLong))
    decreases |input|
  {
    hide Step;
    hide Bounded;
    BoundedLine(lim, m);
    if !m.Final() && input != [] {
      StepBounds(lim, m, input[0]);
      var m' := Step(lim, m, input[0]);
      if m'.error.None? {
        FeedBounds(lim, m', input[1..]);
      } else {
        assert Feed(lim, m', input[1..]) == m';
      }
    }
  }

  lemma BoundedLine(lim: Limits, m: Machine)
    requires Bounded(lim, m)
    ensures |m.line| <= lim.maxLine && m.total <= lim.maxBody
  {
  }

  lemma StepBounds(lim: Limits, m: Machine, b: byte)
    requires Bounded(lim, m) && !m.Final()
    ensures var r := Step(lim, m, b);
            && m.out <= r.out && r.total - m.total == |r.out| - |m.out| && r.total <= lim.maxBody
            && (r.error.None? ==> Bounded(lim, r))
            && |r.line| <= lim.maxLine + 1
            && (|r.line| > lim.maxLine <==> r.error == Some(ChunkLineTooLong))
  {
    hide HexValue;
  }
}
