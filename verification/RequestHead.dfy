/**
  The request-head parser, and the two facts the read loop lives on: an answer
  given on some bytes stands when more arrive, and no strict prefix of a
  complete head is answered at all.
 */
module RequestHeads {
  import opened Bytes

  const MAX_HEADER_BYTES: nat := 16 * 1024
  const MAX_HEADER_COUNT: nat := 100

  datatype Version = Http10 | Http11

  datatype Header = Header(name: Text, value: Text)

  datatype RequestHead = RequestHead(method_: Text, target: Text, version: Version, headers: seq<Header>)

  datatype ParseError =
    | HeaderSectionTooLarge
    | TooManyHeaders
    | InvalidRequestLine
    | UnsupportedVersion
    | InvalidHeader

  datatype ParseOutcome = Complete(head: RequestHead, consumed: nat) | Incomplete

  const HeadTerminator: Text := CRLF + CRLF

  // ---- searching ----

  /** Start of the first occurrence of a non-empty `needle`. */
  function Find(s: Text, needle: Text): (r: Option<nat>)
    requires needle != []
    ensures r.Some? ==> r.value + |needle| <= |s|
    decreases |s|
  {
    if |s| < |needle| then None
    else if needle <= s then Some(0)
    else
      match Find(s[1..], needle)
      case None => None
      case Some(i) => Some(i + 1)
  }

  /** More text does not move an occurrence, and brings new ones only past the old text. */
  lemma {:induction false} FindStable(s: Text, more: Text, needle: Text)
    requires needle != []
    ensures Find(s, needle).Some? ==> Find(s + more, needle) == Find(s, needle)
    ensures Find(s, needle).None? && Find(s + more, needle).Some? ==>
              Find(s + more, needle).value + |needle| > |s|
    decreases |s|
  {
    if |s| >= |needle| {
      assert (s + more)[1..] == s[1..] + more;
      assert s[..|needle|] == (s + more)[..|needle|];
      if !(needle <= s) {
        FindStable(s[1..], more, needle);
      }
    }
  }

  // ---- characters ----

  predicate IsTchar(b: byte) {
    || b == 33 || 35 <= b <= 39 || b == 42 || b == 43 || b == 45 || b == 46
    || 94 <= b <= 96 || b == 124 || b == 126
    || 48 <= b <= 57 || 65 <= b <= 90 || 97 <= b <= 122
  }

  predicate AllTchar(s: Text) {
    forall i :: 0 <= i < |s| ==> IsTchar(s[i])
  }

  predicate IsForbiddenCtl(b: byte, allowHtab: bool) {
    !(allowHtab && b == HTAB) && (b < 32 || b == 127)
  }

  predicate HasForbiddenCtl(s: Text, allowHtab: bool) {
    exists i :: 0 <= i < |s| && IsForbiddenCtl(s[i], allowHtab)
  }

  predicate IsContinuation(s: Text, i: nat, low: byte, high: byte) {
    i < |s| && low <= s[i] <= high
  }

  /** Length of the well-formed UTF-8 sequence at the front, 0 when there is none. */
  function Utf8Width(s: Text): (n: nat)
    requires s != []
    ensures n <= |s|
  {
    var b := s[0];
    if b < 0x80 then 1
    else if 0xC2 <= b <= 0xDF then
      if IsContinuation(s, 1, 0x80, 0xBF) then 2 else 0
    else if 0xE0 <= b <= 0xEF then
      var low := if b == 0xE0 then 0xA0 else 0x80;
      var high := if b == 0xED then 0x9F else 0xBF;
      if IsContinuation(s, 1, low, high) && IsContinuation(s, 2, 0x80, 0xBF) then 3 else 0
    else if 0xF0 <= b <= 0xF4 then
      var low := if b == 0xF0 then 0x90 else 0x80;
      var high := if b == 0xF4 then 0x8F else 0xBF;
      if IsContinuation(s, 1, low, high) && IsContinuation(s, 2, 0x80, 0xBF) && IsContinuation(s, 3, 0x80, 0xBF)
      then 4 else 0
    else 0
  }

  predicate ValidUtf8(s: Text)
    decreases |s|
  {
    s == [] || (Utf8Width(s) > 0 && ValidUtf8(s[Utf8Width(s)..]))
  }

  predicate IsOws(b: byte) {
    b == SP || b == HTAB
  }

  function TrimOwsStart(s: Text): Text {
    if s != [] && IsOws(s[0]) then TrimOwsStart(s[1..]) else s
  }

  function TrimOwsEnd(s: Text): Text {
    if s != [] && IsOws(s[|s| - 1]) then TrimOwsEnd(s[..|s| - 1]) else s
  }

  function TrimOws(s: Text): Text {
    TrimOwsEnd(TrimOwsStart(s))
  }

  // ---- lines ----

  /** The pieces of `s` between the separators; always at least one. */
  function SplitOn(s: Text, sep: Text): (parts: seq<Text>)
    requires sep != []
    ensures |parts| > 0
    decreases |s|
  {
    match Find(s, sep)
    case None => [s]
    case Some(i) => [s[..i]] + SplitOn(s[i + |sep|..], sep)
  }

  lemma {:induction false} FindFirst(s: Text, b: byte)
    ensures Find(s, [b]) == if IndexOf(s, b) < |s| then Some(IndexOf(s, b)) else None
  {
    if s != [] && s[0] != b {
      FindFirst(s[1..], b);
    }
  }

  /** A text is split at its first separator, or not at all. */
  lemma SplitAtFirst(front: Text, b: byte, rest: Text)
    requires b !in front
    ensures SplitOn(front + [b] + rest, [b]) == [front] + SplitOn(rest, [b])
    ensures SplitOn(front, [b]) == [front]
  {
    var s := front + [b] + rest;
    IndexOfUnique(front, b, rest);
    FindFirst(s, b);
    assert s[..|front|] == front && s[|front| + 1..] == rest;
    IndexOfAbsent(front, b);
    FindFirst(front, b);
  }

  const VersionPrefix: Text := [72, 84, 84, 80, 47] // "HTTP/"

  function ParseVersion(v: Text): Result<Version, ParseError> {
    if !(VersionPrefix <= v) then Err(InvalidRequestLine)
    else if v[5..] == [49, 46, 49] then Ok(Http11)
    else if v[5..] == [49, 46, 48] then Ok(Http10)
    else Err(UnsupportedVersion)
  }

  function ParseRequestLine(line: Text): Result<(Text, Text, Version), ParseError> {
    if HasForbiddenCtl(line, false) then Err(InvalidRequestLine)
    else
      var parts := SplitOn(line, [SP]);
      if |parts| != 3 || parts[0] == [] || parts[1] == [] || parts[2] == [] then Err(InvalidRequestLine)
      else if !AllTchar(parts[0]) then Err(InvalidRequestLine)
      else
        match ParseVersion(parts[2])
        case Err(e) => Err(e)
        case Ok(version) =>
          if !ValidUtf8(parts[0]) || !ValidUtf8(parts[1]) then Err(InvalidRequestLine)
          else Ok((parts[0], parts[1], version))
  }

  const COLON: byte := 58

  function ParseHeaderLine(line: Text): Result<Header, ParseError> {
    var colon := IndexOf(line, COLON);
    if colon == |line| then Err(InvalidHeader)
    else
      var name, value := line[..colon], TrimOws(line[colon + 1..]);
      if name == [] || !AllTchar(name) then Err(InvalidHeader)
      else if HasForbiddenCtl(value, true) then Err(InvalidHeader)
      else if !ValidUtf8(name) || !ValidUtf8(value) then Err(InvalidHeader)
      else Ok(Header(name, value))
  }

  function ParseHeaders(lines: seq<Text>, soFar: seq<Header>): Result<seq<Header>, ParseError>
    decreases |lines|
  {
    if lines == [] then Ok(soFar)
    else if |soFar| >= MAX_HEADER_COUNT then Err(TooManyHeaders)
    else
      match ParseHeaderLine(lines[0])
      case Err(e) => Err(e)
      case Ok(h) => ParseHeaders(lines[1..], soFar + [h])
  }

  /** Everything before the empty line. */
  function ParseSection(section: Text): Result<RequestHead, ParseError> {
    var lines := SplitOn(section, CRLF);
    match ParseRequestLine(lines[0])
    case Err(e) => Err(e)
    case Ok((method_, target, version)) =>
      match ParseHeaders(lines[1..], [])
      case Err(e) => Err(e)
      case Ok(headers) =>
        if !ValidUtf8(section) then Err(InvalidHeader)
        else Ok(RequestHead(method_, target, version, headers))
  }

  function ParseRequestHead(buf: Text): (r: Result<ParseOutcome, ParseError>)
    ensures r.Ok? && r.value.Complete? ==> 0 < r.value.consumed <= |buf|
  {
    match Find(buf, HeadTerminator)
    case None =>
      if |buf| >= MAX_HEADER_BYTES then Err(HeaderSectionTooLarge) else Ok(Incomplete)
    case Some(end) =>
      if end + 4 > MAX_HEADER_BYTES then Err(HeaderSectionTooLarge)
      else
        match ParseSection(buf[..end])
        case Err(e) => Err(e)
        case Ok(head) => Ok(Complete(head, end + 4))
  }

  /** An answer, complete or error, is not changed by what follows. */
  lemma HeadAnswerIsStable(buf: Text, more: Text)
    requires ParseRequestHead(buf) != Ok(Incomplete)
    ensures ParseRequestHead(buf + more) == ParseRequestHead(buf)
  {
    FindStable(buf, more, HeadTerminator);
    if Find(buf, HeadTerminator).Some? {
      var end := Find(buf, HeadTerminator).value;
      assert (buf + more)[..end] == buf[..end];
    }
  }

  /** No strict prefix of a complete head is answered. */
  lemma HeadPrefixIsIncomplete(buf: Text, j: nat)
    requires ParseRequestHead(buf).Ok? && ParseRequestHead(buf).value.Complete?
    requires j < ParseRequestHead(buf).value.consumed
    ensures ParseRequestHead(buf[..j]) == Ok(Incomplete)
  {
    assert buf[..j] + buf[j..] == buf;
    FindStable(buf[..j], buf[j..], HeadTerminator);
  }
}
