/** The chunked encoder, and the round trip through the decoder with its exact limits. */
module ChunkedCodec {
  import opened Bytes
  import opened ChunkedSpec
  import opened ChunkedGrammar

  function DigitByte(d: nat): (b: byte)
    requires d < 16
    ensures IsHexDigit(b) && HexDigit(b) == d && b == LowerHex[d] as int
  {
    if d < 10 then 48 + d else 87 + d
  }

  /** Lower-case hexadecimal without leading zeros. */
  function Hex(n: nat): (s: Text)
    ensures s != [] && AllHex(s) && HexValue(s) == n
    ensures forall i :: 0 <= i < |s| ==> !(65 <= s[i] <= 70)
    ensures |s| > 1 ==> s[0] != 48
  {
    if n < 16 then
      var s := [DigitByte(n)];
      assert s[..0] == [];
      s
    else
      var s := Hex(n / 16) + [DigitByte(n % 16)];
      assert s[..|s| - 1] == Hex(n / 16);
      s
  }

  function Pow16(k: nat): nat {
    if k == 0 then 1 else 16 * Pow16(k - 1)
  }

  lemma {:induction false} HexLength(n: nat, k: nat)
    requires k > 0 && n < Pow16(k)
    ensures |Hex(n)| <= k
  {
    if n >= 16 {
      assert k > 1 by { assert Pow16(1) == 16 * Pow16(0); }
      HexLength(n / 16, k - 1);
    }
  }

  /** The size line of any slice fits the line limit. */
  lemma HexFits(n: nat)
    requires n <= U64_MAX
    ensures |Hex(n)| <= 16
  {
    assert Pow16(4) == 0x1_0000;
    assert Pow16(8) == 0x1_0000_0000;
    assert Pow16(12) == 0x1_0000_0000_0000;
    assert Pow16(16) == 0x1_0000_0000_0000_0000;
    HexLength(n, 16);
  }

  const Terminator: Text := [ZERO] + CRLF + CRLF

  /** The wire form of one chunk; empty data has none. */
  function ChunkBytes(data: Text): Text {
    if data == [] then [] else Hex(|data|) + CRLF + data + CRLF
  }

  function ChunksBytes(chunks: seq<Text>): Text {
    if chunks == [] then [] else ChunkBytes(chunks[0]) + ChunksBytes(chunks[1..])
  }

  function StreamBytes(chunks: seq<Text>): Text {
    ChunksBytes(chunks) + Terminator
  }

  method EncodeChunk(data: Text, out: Text) returns (out': Text)
    ensures out' == out + ChunkBytes(data)
  {
    out' := out;
    if data == [] {
      return;
    }
    out' := out' + Hex(|data|);
    out' := out' + CRLF;
    out' := out' + data;
    out' := out' + CRLF;
  }

  method EncodeTerminator(out: Text) returns (out': Text)
    ensures out' == out + Terminator
  {
    out' := out + [ZERO, CR, LF, CR, LF];
  }

  lemma {:induction false} ChunksBytesSnoc(chunks: seq<Text>, data: Text)
    ensures ChunksBytes(chunks + [data]) == ChunksBytes(chunks) + ChunkBytes(data)
  {
    if chunks == [] {
      assert ChunksBytes([data]) == ChunkBytes(data) + ChunksBytes([]);
    } else {
      assert (chunks + [data])[1..] == chunks[1..] + [data];
      ChunksBytesSnoc(chunks[1..], data);
    }
  }

  /** How many chunks are not empty. */
  function NonEmpty(chunks: seq<Text>): nat {
    if chunks == [] then 0 else (if chunks[0] == [] then 0 else 1) + NonEmpty(chunks[1..])
  }

  /** Slices, so each length is a machine word. */
  predicate Slices(chunks: seq<Text>) {
    forall i :: 0 <= i < |chunks| ==> |chunks[i]| <= U64_MAX
  }

  predicate Fits(lim: Limits, count: nat, total: nat, chunks: seq<Text>) {
    count + NonEmpty(chunks) + 1 <= lim.maxChunks && total + |Concat(chunks)| <= lim.maxBody
  }

  lemma FeedOneEncoded(lim: Limits, m: Machine, data: Text, rest: Text) returns (m': Machine)
    requires Between(m) && lim.maxBody <= U64_MAX && lim.maxLine >= 17 && 0 < |data| <= U64_MAX
    ensures var r := Feed(lim, m, ChunkBytes(data) + rest);
            if m.count + 1 > lim.maxChunks then r.error == Some(TooManyChunks)
            else if m.total + |data| > lim.maxBody then r.error == Some(BodyTooLarge)
            else r == Feed(lim, m', rest)
    ensures Between(m') && m'.count == m.count + 1 && m'.total == m.total + |data|
    ensures m'.out == m.out + data && m'.consumed == m.consumed + |ChunkBytes(data)|
  {
    hide Feed;
    var c := Chunk(Hex(|data|), [], data);
    HexFits(|data|);
    assert RenderChunk(c) == ChunkBytes(data);
    FeedChunk(lim, m, c, rest);
    m' := AfterChunk(m, c);
  }

  /** `r` is what decoding `chunks` from `m` should give: carried through exactly when they fit. */
  ghost predicate CarriedWhenFit(lim: Limits, m: Machine, chunks: seq<Text>, r: Machine) {
    if Fits(lim, m.count, m.total, chunks)
    then r.Completed() && r.consumed == m.consumed + |StreamBytes(chunks)| && r.out == m.out + Concat(chunks)
    else r.error == Some(TooManyChunks) || r.error == Some(BodyTooLarge)
  }

  lemma CarriedOneMore(lim: Limits, m: Machine, chunks: seq<Text>, m': Machine, r: Machine)
    requires chunks != [] && chunks[0] != []
    requires CarriedWhenFit(lim, m', chunks[1..], r)
    requires m'.count == m.count + 1 && m'.total == m.total + |chunks[0]|
    requires m'.out == m.out + chunks[0] && m'.consumed == m.consumed + |ChunkBytes(chunks[0])|
    ensures CarriedWhenFit(lim, m, chunks, r)
  {
    hide ChunkBytes;
    assert StreamBytes(chunks) == ChunkBytes(chunks[0]) + StreamBytes(chunks[1..]);
    assert m.out + chunks[0] + Concat(chunks[1..]) == m.out + Concat(chunks);
  }

  lemma FeedTerminator(lim: Limits, m: Machine, rest: Text)
    requires Between(m) && lim.maxLine >= 17
    ensures var r := Feed(lim, m, Terminator + rest);
            if m.count + 1 <= lim.maxChunks then r.Completed() && r.consumed == m.consumed + 5 && r.out == m.out
            else r.error == Some(TooManyChunks)
  {
    hide Feed;
    assert Terminator + rest == [ZERO] + [] + CRLF + CRLF + rest;
    FeedLast(lim, m, [ZERO], [], rest);
  }

  lemma {:induction false} FeedEncoded(lim: Limits, m: Machine, chunks: seq<Text>, rest: Text)
    requires Between(m) && lim.maxBody <= U64_MAX && lim.maxLine >= 17 && Slices(chunks)
    requires m.total <= lim.maxBody
    ensures CarriedWhenFit(lim, m, chunks, Feed(lim, m, StreamBytes(chunks) + rest))
    decreases |chunks|
  {
    hide Feed;
    if chunks == [] {
      FeedTerminator(lim, m, rest);
      assert StreamBytes(chunks) == Terminator;
      assert m.out + [] == m.out;
    } else {
      var more := StreamBytes(chunks[1..]) + rest;
      assert StreamBytes(chunks) + rest == ChunkBytes(chunks[0]) + more;
      if chunks[0] == [] {
        assert ChunkBytes(chunks[0]) + more == more;
        FeedEncoded(lim, m, chunks[1..], rest);
        assert Concat(chunks) == Concat(chunks[1..]);
      } else {
        var m' := FeedOneEncoded(lim, m, chunks[0], more);
        if m.count + 1 <= lim.maxChunks && m.total + |chunks[0]| <= lim.maxBody {
          FeedEncoded(lim, m', chunks[1..], rest);
          CarriedOneMore(lim, m, chunks, m', Feed(lim, m', more));
        }
      }
    }
  }

  /**
    Round trip with the exact limits: the encoding of any list of chunks decodes
    to their concatenation, consuming all of it, if and only if the non-empty
    chunks plus the last one are within the count limit and the total within the
    body limit; otherwise the decoder refuses it with one of those two errors.
   */
  lemma EncodeDecodeRoundTrip(maxBody: nat, chunks: seq<Text>, rest: Text)
    requires maxBody <= U64_MAX && Slices(chunks)
    ensures var r := Feed(ServerLimits(maxBody), Start, StreamBytes(chunks) + rest);
            && (r.Completed() && r.consumed == |StreamBytes(chunks)| && r.out == Concat(chunks)
                <==> NonEmpty(chunks) + 1 <= 16_384 && |Concat(chunks)| <= maxBody)
            && (!r.Completed() ==> r.error == Some(TooManyChunks) || r.error == Some(BodyTooLarge))
  {
    FeedEncoded(ServerLimits(maxBody), Start, chunks, rest);
    assert [] + Concat(chunks) == Concat(chunks);
  }

  /** No strict prefix of an encoded stream ever decodes to completion, whatever the limits. */
  lemma StrictPrefixNeverCompletes(lim: Limits, chunks: seq<Text>, j: nat)
    requires lim.maxBody <= U64_MAX && lim.maxLine >= 17 && Slices(chunks)
    requires j < |StreamBytes(chunks)|
    ensures !Feed(lim, Start, StreamBytes(chunks)[..j]).Completed()
  {
    hide Feed;
    hide StreamBytes;
    var s := StreamBytes(chunks);
    FeedEncoded(lim, Start, chunks, []);
    assert s + [] == s;
    if Feed(lim, Start, s[..j]).Completed() {
      FinalAnswerIsExact(lim, Start, s[..j], s[j..], 0);
      assert s[..j] + s[j..] == s;
      FeedConsumed(lim, Start, s[..j]);
      assert false;
    }
  }
}
