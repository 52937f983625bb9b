/** How the body of a request is delimited (section 6.3 of RFC 9112), strictly. */
module BodyFraming {
  import opened Bytes
  import opened RequestHeads

  datatype BodyLength = NoBody | Fixed(length: nat) | Chunked

  datatype BodyError =
    | TransferEncodingUnsupported
    | ContentLengthWithChunked
    | DuplicateContentLength
    | InvalidContentLength
    | BodyTooLarge

  // ---- text ----

  function Lower(b: byte): byte {
    if 65 <= b <= 90 then b + 32 else b
  }

  predicate EqIgnoreCase(a: Text, b: Text) {
    |a| == |b| && forall i :: 0 <= i < |a| ==> Lower(a[i]) == Lower(b[i])
  }

  const CONTENT_LENGTH: Text := [99, 111, 110, 116, 101, 110, 116, 45, 108, 101, 110, 103, 116, 104]
  const TRANSFER_ENCODING: Text :=
    [116, 114, 97, 110, 115, 102, 101, 114, 45, 101, 110, 99, 111, 100, 105, 110, 103]
  const CHUNKED: Text := [99, 104, 117, 110, 107, 101, 100]
  const CONNECTION: Text := [99, 111, 110, 110, 101, 99, 116, 105, 111, 110]
  const CLOSE: Text := [99, 108, 111, 115, 101]
  const KEEP_ALIVE: Text := [107, 101, 101, 112, 45, 97, 108, 105, 118, 101]

  /** One character of white space in the sense of Unicode, in UTF-8. */
  predicate IsWhitespace(c: Text) {
    || (|c| == 1 && (9 <= c[0] <= 13 || c[0] == SP))
    || c == [0xC2, 0x85] || c == [0xC2, 0xA0] || c == [0xE1, 0x9A, 0x80]
    || (|c| == 3 && c[0] == 0xE2 && c[1] == 0x80 && (0x80 <= c[2] <= 0x8A || 0xA8 <= c[2] <= 0xA9 || c[2] == 0xAF))
    || c == [0xE2, 0x81, 0x9F] || c == [0xE3, 0x80, 0x80]
  }

  function WhitespaceAtStart(s: Text): (n: nat)
    ensures n <= |s|
  {
    if |s| >= 1 && IsWhitespace(s[..1]) then 1
    else if |s| >= 2 && IsWhitespace(s[..2]) then 2
    else if |s| >= 3 && IsWhitespace(s[..3]) then 3
    else 0
  }

  function WhitespaceAtEnd(s: Text): (n: nat)
    ensures n <= |s|
  {
    if |s| >= 1 && IsWhitespace(s[|s| - 1..]) then 1
    else if |s| >= 2 && IsWhitespace(s[|s| - 2..]) then 2
    else if |s| >= 3 && IsWhitespace(s[|s| - 3..]) then 3
    else 0
  }

  function Trim(s: Text): Text
    decreases |s|
  {
    if WhitespaceAtStart(s) > 0 then Trim(s[WhitespaceAtStart(s)..])
    else if WhitespaceAtEnd(s) > 0 then Trim(s[..|s| - WhitespaceAtEnd(s)])
    else s
  }

  // ---- decimal numbers ----

  predicate AllDigits(s: Text) {
    forall i :: 0 <= i < |s| ==> 48 <= s[i] <= 57
  }

  function DecimalValue(s: Text): nat
    requires AllDigits(s)
  {
    if s == [] then 0 else DecimalValue(s[..|s| - 1]) * 10 + (s[|s| - 1] - 48)
  }

  function Decimal(n: nat): (s: Text)
    ensures s != [] && AllDigits(s) && DecimalValue(s) == n
    ensures |s| > 1 ==> s[0] != 48
  {
    if n < 10 then
      var s: Text := [48 + n];
      assert s[..0] == [];
      s
    else
      var s := Decimal(n / 10) + [48 + n % 10];
      assert s[..|s| - 1] == Decimal(n / 10);
      s
  }

  function ParseContentLength(value: Text): Result<nat, BodyError> {
    if value == [] || !AllDigits(value) then Err(InvalidContentLength)
    else if DecimalValue(value) > U64_MAX then Err(InvalidContentLength)
    else Ok(DecimalValue(value))
  }

  // ---- framing ----

  /** The values of all the headers with this name, in order. */
  function Values(headers: seq<Header>, name: Text): seq<Text> {
    if headers == [] then []
    else (if EqIgnoreCase(headers[0].name, name) then [headers[0].value] else []) + Values(headers[1..], name)
  }

  lemma {:induction false} ValuesAppend(a: seq<Header>, b: seq<Header>, name: Text)
    ensures Values(a + b, name) == Values(a, name) + Values(b, name)
  {
    if a == [] {
      assert a + b == b;
    } else {
      assert (a + b)[1..] == a[1..] + b;
      ValuesAppend(a[1..], b, name);
    }
  }

  function FixedLength(lengths: seq<Text>, maxBody: nat): Result<BodyLength, BodyError> {
    if lengths == [] then Ok(NoBody)
    else
      match ParseContentLength(lengths[0])
      case Err(e) => Err(e)
      case Ok(n) =>
        if |lengths| > 1 then Err(DuplicateContentLength)
        else if n == 0 then Ok(NoBody)
        else if n > maxBody then Err(BodyTooLarge)
        else Ok(Fixed(n))
  }

  /** The framing decided from the header values alone. */
  function Framing(head: RequestHead, maxBody: nat): Result<BodyLength, BodyError> {
    var encodings := Values(head.headers, TRANSFER_ENCODING);
    var lengths := Values(head.headers, CONTENT_LENGTH);
    if encodings != [] then
      if head.version != Http11 || |encodings| != 1 || !EqIgnoreCase(Trim(encodings[0]), CHUNKED) then
        Err(TransferEncodingUnsupported)
      else if lengths != [] then Err(ContentLengthWithChunked)
      else Ok(Chunked)
    else FixedLength(lengths, maxBody)
  }

  /** The scan over the headers, which stops at the first offending one. */
  method BodyLengthWithLimit(head: RequestHead, maxBody: nat) returns (r: Result<BodyLength, BodyError>)
    ensures r == Framing(head, maxBody)
  {
    var hasContentLength := Values(head.headers, CONTENT_LENGTH) != [];
    var encodings := Values(head.headers, TRANSFER_ENCODING);
    if encodings != [] {
      var isSingleChunked := |encodings| == 1 && EqIgnoreCase(Trim(encodings[0]), CHUNKED);
      if head.version != Http11 || !isSingleChunked {
        return Err(TransferEncodingUnsupported);
      }
      if hasContentLength {
        return Err(ContentLengthWithChunked);
      }
      return Ok(Chunked);
    }
    var contentLength: Option<nat> := None;
    ghost var all := Values(head.headers, CONTENT_LENGTH);
    for i := 0 to |head.headers|
      invariant var seen := Values(head.headers[..i], CONTENT_LENGTH);
                match contentLength
                case None => seen == []
                case Some(n) => |seen| == 1 && ParseContentLength(seen[0]) == Ok(n)
    {
      var h := head.headers[i];
      ghost var seen := Values(head.headers[..i], CONTENT_LENGTH);
      assert head.headers[..i + 1] == head.headers[..i] + [h];
      ValuesAppend(head.headers[..i], [h], CONTENT_LENGTH);
      assert Values([h], CONTENT_LENGTH) == (if EqIgnoreCase(h.name, CONTENT_LENGTH) then [h.value] else []);
      if !EqIgnoreCase(h.name, CONTENT_LENGTH) {
        continue;
      }
      assert head.headers == head.headers[..i + 1] + head.headers[i + 1..];
      ValuesAppend(head.headers[..i + 1], head.headers[i + 1..], CONTENT_LENGTH);
      assert all[..|seen| + 1] == seen + [h.value];
      if contentLength.Some? {
        assert all[0] == seen[0];
        return Err(DuplicateContentLength);
      }
      var n := ParseContentLength(h.value);
      if n.Err? {
        assert all[0] == h.value;
        return Err(n.error);
      }
      contentLength := Some(n.value);
    }
    assert head.headers[..|head.headers|] == head.headers;
    if contentLength == None || contentLength == Some(0) {
      return Ok(NoBody);
    }
    if contentLength.value > maxBody {
      return Err(BodyTooLarge);
    }
    return Ok(Fixed(contentLength.value));
  }

  /**
    The framing is never ambiguous: chunked exactly for one HTTP/1.1
    `Transfer-Encoding: chunked` and no length, fixed exactly for one well-formed
    length within the limit and no transfer coding, none exactly without either
    (or with the single length zero). Two lengths, or a length beside a transfer
    coding, are always refused.
   */
  lemma FramingIsUnambiguous(head: RequestHead, maxBody: nat, n: nat)
    ensures var encodings := Values(head.headers, TRANSFER_ENCODING);
            var lengths := Values(head.headers, CONTENT_LENGTH);
            var r := Framing(head, maxBody);
            && (r == Ok(Chunked) <==>
                  && head.version == Http11 && lengths == []
                  && |encodings| == 1 && EqIgnoreCase(Trim(encodings[0]), CHUNKED))
            && (r == Ok(Fixed(n)) <==>
                  encodings == [] && |lengths| == 1 && ParseContentLength(lengths[0]) == Ok(n) && 0 < n <= maxBody)
            && (r == Ok(NoBody) <==>
                  encodings == [] && (lengths == [] || (|lengths| == 1 && ParseContentLength(lengths[0]) == Ok(0))))
            && (|lengths| > 1 || (lengths != [] && encodings != []) ==> r.Err?)
  {
  }

  /** Printed lengths read back, up to the machine word. */
  lemma ContentLengthRoundTrip(n: nat)
    ensures ParseContentLength(Decimal(n)) == if n <= 0xFFFF_FFFF_FFFF_FFFF then Ok(n) else Err(InvalidContentLength)
  {
  }

  // ---- keep-alive ----

  const COMMA: byte := 44

  /** All the tokens of all the `Connection` headers. */
  function ConnectionTokens(values: seq<Text>): seq<Text> {
    if values == [] then []
    else TrimAll(SplitOn(values[0], [COMMA])) + ConnectionTokens(values[1..])
  }

  function TrimAll(parts: seq<Text>): seq<Text> {
    if parts == [] then [] else [Trim(parts[0])] + TrimAll(parts[1..])
  }

  predicate HasToken(tokens: seq<Text>, name: Text) {
    exists i :: 0 <= i < |tokens| && EqIgnoreCase(tokens[i], name)
  }

  predicate ShouldKeepAlive(head: RequestHead) {
    var tokens := ConnectionTokens(Values(head.headers, CONNECTION));
    match head.version
    case Http11 => !HasToken(tokens, CLOSE)
    case Http10 => !HasToken(tokens, CLOSE) && HasToken(tokens, KEEP_ALIVE)
  }
}
