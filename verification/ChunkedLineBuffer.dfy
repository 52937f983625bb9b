/** When, exactly, the decoder's line buffer passes its limit. */
module ChunkedLineBuffer {
  import opened Bytes
  import opened ChunkedSpec
  import opened ChunkedGrammar

  /** More than a full buffer of bytes and no end of the line among them. */
  predicate LongLine(lim: Limits, input: Text) {
    |input| > lim.maxLine && LF !in input[..lim.maxLine + 1]
  }

  /** A line that is too long stops the run right there, with one byte too many in the buffer. */
  lemma LongLineOvershoots(lim: Limits, m: Machine, input: Text)
    requires AtLineStart(m) && LongLine(lim, input)
    ensures var r := Feed(lim, m, input);
            && r.error == Some(ChunkLineTooLong) && r.line == input[..lim.maxLine + 1]
            && r.consumed == m.consumed + lim.maxLine + 1
  {
    hide Feed;
    hide Step;
    var n := lim.maxLine;
    var full, b, rest := input[..n], input[n], input[n + 1..];
    LongLineSplits(lim, input);
    FeedFillsLine(lim, m, full);
    assert m.line + full == full;
    FeedSplit(lim, m, full, [b] + rest);
    OneTooMany(lim, m.(line := full, consumed := m.consumed + n), b, rest);
  }

  lemma LongLineSplits(lim: Limits, input: Text)
    requires LongLine(lim, input)
    ensures var n := lim.maxLine;
            && input == input[..n] + ([input[n]] + input[n + 1..]) && input[..n + 1] == input[..n] + [input[n]]
            && LF !in input[..n] && input[n] != LF
  {
    var n := lim.maxLine;
    assert input[..n + 1] == input[..n] + [input[n]];
  }

  lemma OneTooMany(lim: Limits, m: Machine, b: byte, rest: Text)
    requires !m.Final() && !m.phase.ChunkData? && |m.line| == lim.maxLine && b != LF
    ensures Feed(lim, m, [b] + rest)
         == m.(line := m.line + [b], consumed := m.consumed + 1, error := Some(ChunkLineTooLong))
  {
    hide Feed;
    FeedOne(lim, m, b, rest);
    FeedFinal(lim, Step(lim, m, b), rest);
  }

  /** The whole line at the front: its bytes up to and including its line feed. */
  function FirstLine(input: Text): Text {
    var k := IndexOf(input, LF);
    if k < |input| then input[..k + 1] else input
  }

  /** On the line at hand the buffer passes its limit exactly if more than that many bytes precede the line feed. */
  lemma LineOvershootsExactly(lim: Limits, m: Machine, input: Text)
    requires AtLineStart(m)
    ensures |Feed(lim, m, FirstLine(input)).line| > lim.maxLine <==> IndexOf(input, LF) > lim.maxLine
    ensures IndexOf(input, LF) > lim.maxLine <==> LongLine(lim, input)
  {
    hide Feed;
    var n, k, first := lim.maxLine, IndexOf(input, LF), FirstLine(input);
    if k > n {
      assert forall b :: b in input[..n + 1] ==> b in input[..k];
      assert first[..n + 1] == input[..n + 1];
      LongLineOvershoots(lim, m, first);
    } else {
      assert k < |input| && |input| > n ==> input[k] in input[..n + 1];
      ShortLineFits(lim, m, input[..k]);
      assert first == if k < |input| then input[..k] + [LF] else input[..k];
    }
  }

  lemma ShortLineFits(lim: Limits, m: Machine, part: Text)
    requires AtLineStart(m) && LF !in part && |part| <= lim.maxLine
    ensures |Feed(lim, m, part).line| <= lim.maxLine && |Feed(lim, m, part + [LF]).line| <= lim.maxLine
  {
    hide Feed;
    FeedFillsLine(lim, m, part);
    assert m.line + part == part;
    var m1 := m.(line := part, consumed := m.consumed + |part|);
    FeedSplit(lim, m, part, [LF]);
    FeedOne(lim, m1, LF, []);
    assert [LF] + [] == [LF];
    FeedNothing(lim, Step(lim, m1, LF));
  }

  lemma FeedNothing(lim: Limits, m: Machine)
    ensures Feed(lim, m, []) == m
  {
  }

  /** There is no unfinished line while data is read. */
  lemma {:induction false} NoLineInData(lim: Limits, m: Machine, input: Text)
    requires m.phase.ChunkData? ==> m.line == []
    ensures Feed(lim, m, input).phase.ChunkData? ==> Feed(lim, m, input).line == []
    decreases |input|
  {
    if !m.Final() && input != [] {
      NoLineInData(lim, Step(lim, m, input[0]), input[1..]);
    }
  }

  lemma LineGrows(lim: Limits, m: Machine, b: byte)
    requires !m.Final() && (m.phase.ChunkData? ==> m.line == [])
    requires var r := Step(lim, m, b); r.error.None? && r.line != []
    ensures !m.phase.ChunkData? && b != LF && Step(lim, m, b).line == m.line + [b]
  {
  }

  lemma LastByte(lim: Limits, m: Machine, input: Text)
    requires input != [] && !Feed(lim, m, input).Final()
    ensures var r := Feed(lim, m, input[..|input| - 1]);
            !r.Final() && Feed(lim, m, input) == Step(lim, r, input[|input| - 1])
  {
    hide Feed;
    var n := |input| - 1;
    var r := Feed(lim, m, input[..n]);
    assert input[..n] + [input[n]] == input;
    FeedSplit(lim, m, input[..n], [input[n]]);
    FeedFinal(lim, r, [input[n]]);
    FeedOne(lim, r, input[n], []);
    assert [input[n]] + [] == [input[n]];
    FeedNothing(lim, Step(lim, r, input[n]));
  }

  /** In the middle of a line, the buffer holds what came since some start of a line. */
  lemma {:induction false} LineHasAStart(lim: Limits, m: Machine, input: Text) returns (p: nat)
    requires AtLineStart(m)
    requires var r := Feed(lim, m, input); !r.Final() && !r.phase.ChunkData?
    ensures p <= |input| && AtLineStart(Feed(lim, m, input[..p]))
    ensures Feed(lim, m, input).line == input[p..] && LF !in input[p..]
    decreases |input|
  {
    hide Feed;
    var r := Feed(lim, m, input);
    p := |input|;
    assert input[..p] == input;
    if r.line != [] {
      FeedNothing(lim, m);
      var n := |input| - 1;
      LastByte(lim, m, input);
      NoLineInData(lim, m, input[..n]);
      hide Step;
      LineGrows(lim, Feed(lim, m, input[..n]), input[n]);
      p := LineHasAStart(lim, m, input[..n]);
      assert input[..n][..p] == input[..p] && input[p..] == input[..n][p..] + [input[n]];
    }
  }

  /**
    Over a whole run: the line buffer passes its limit if and only if some line,
    at whose start the decoder arrives, has more than that many bytes without a
    line feed.
   */
  lemma BufferOvershootsExactly(lim: Limits, m: Machine, input: Text)
    requires AtLineStart(m) && Bounded(lim, m)
    ensures |Feed(lim, m, input).line| > lim.maxLine <==>
              exists p :: 0 <= p <= |input| && AtLineStart(Feed(lim, m, input[..p])) && LongLine(lim, input[p..])
  {
    hide Feed;
    hide Step;
    FeedBounds(lim, m, input);
    hide Bounded;
    hide LongLine;
    hide AtLineStart;
    if p :| 0 <= p <= |input| && AtLineStart(Feed(lim, m, input[..p])) && LongLine(lim, input[p..]) {
      LongLineOvershoots(lim, Feed(lim, m, input[..p]), input[p..]);
      FeedSplit(lim, m, input[..p], input[p..]);
      assert input[..p] + input[p..] == input;
    }
    if |Feed(lim, m, input).line| > lim.maxLine {
      var p := OvershootHasAStart(lim, m, input);
    }
  }

  lemma OvershootHasAStart(lim: Limits, m: Machine, input: Text) returns (p: nat)
    requires AtLineStart(m) && Bounded(lim, m) && Feed(lim, m, input).error == Some(ChunkLineTooLong)
    ensures p <= |input| && AtLineStart(Feed(lim, m, input[..p])) && LongLine(lim, input[p..])
    decreases |input|
  {
    hide Feed;
    FeedNothing(lim, m);
    var n := |input| - 1;
    var r := Feed(lim, m, input[..n]);
    assert input[..n] + [input[n]] == input;
    FeedSplit(lim, m, input[..n], [input[n]]);
    FeedFinal(lim, r, [input[n]]);
    if r.Final() {
      p := OvershootHasAStart(lim, m, input[..n]);
      StillLong(lim, input, n, p);
    } else {
      FeedOne(lim, r, input[n], []);
      assert [input[n]] + [] == [input[n]];
      FeedNothing(lim, Step(lim, r, input[n]));
      FeedBounds(lim, m, input[..n]);
      OverByOne(lim, r, input[n]);
      p := LineHasAStart(lim, m, input[..n]);
      assert input[..n][..p] == input[..p] && input[p..] == input[..n][p..] + [input[n]];
    }
  }

  lemma StillLong(lim: Limits, input: Text, n: nat, p: nat)
    requires p <= n <= |input| && LongLine(lim, input[..n][p..])
    ensures LongLine(lim, input[p..]) && input[..n][..p] == input[..p]
  {
    assert input[..n][p..][..lim.maxLine + 1] == input[p..][..lim.maxLine + 1];
  }

  lemma OverByOne(lim: Limits, m: Machine, b: byte)
    requires !m.Final() && Bounded(lim, m) && Step(lim, m, b).error == Some(ChunkLineTooLong)
    ensures !m.phase.ChunkData? && |m.line| == lim.maxLine && b != LF
  {
  }

  /** A line of 257 bytes, and the decoder that holds all of them. */
  lemma LineBufferCanOvershoot(maxBody: nat)
    ensures var input := seq(257, _ => 48);
            |Feed(ServerLimits(maxBody), Start, input).line| == 257
  {
    var input := seq(257, _ => 48);
    assert LF !in input;
    LongLineOvershoots(ServerLimits(maxBody), Start, input);
  }
}
