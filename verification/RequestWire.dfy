/** Request heads as a client writes them (section 2.1 of RFC 9112), and what the parser makes of them. */
module RequestWires {
  import opened Bytes
  import opened RequestHeads

  // ---- a head and its lines ----

  /** The characters of a token: letters, digits and these. */
  predicate TokenByte(b: byte) {
    || 'a' as int <= b <= 'z' as int || 'A' as int <= b <= 'Z' as int || '0' as int <= b <= '9' as int
    || b in {'!' as int, '#' as int, '$' as int, '%' as int, '&' as int, '\'' as int, '*' as int, '+' as int,
             '-' as int, '.' as int, '^' as int, '_' as int, '`' as int, '|' as int, '~' as int}
  }

  /** A token (section 5.6.2 of RFC 9110). */
  predicate IsToken(s: Text) {
    s != [] && forall i :: 0 <= i < |s| ==> TokenByte(s[i])
  }

  /** No control characters; tabs only where they are allowed. */
  predicate NoControls(s: Text, tabs: bool) {
    forall i :: 0 <= i < |s| ==> (s[i] >= 32 && s[i] != 127) || (tabs && s[i] == 9)
  }

  predicate NoBlankEnds(s: Text) {
    s != [] ==> s[0] !in {9, 32} && s[|s| - 1] !in {9, 32}
  }

  predicate GoodHeader(h: Header) {
    IsToken(h.name) && ValidUtf8(h.value) && NoControls(h.value, true) && NoBlankEnds(h.value)
  }

  /** A head a client may write: a token, a target without blanks, clean headers. */
  predicate GoodHead(head: RequestHead) {
    && IsToken(head.method_)
    && head.target != [] && ValidUtf8(head.target) && NoControls(head.target, false) && SP !in head.target
    && (forall h :: h in head.headers ==> GoodHeader(h))
  }

  lemma TokenExactly(s: Text)
    ensures IsToken(s) <==> s != [] && AllTchar(s)
  {
    forall b: byte ensures TokenByte(b) <==> IsTchar(b) {
    }
  }

  lemma NoControlsExactly(s: Text, tabs: bool)
    ensures NoControls(s, tabs) <==> !HasForbiddenCtl(s, tabs)
  {
    if NoControls(s, tabs) {
      forall i | 0 <= i < |s| ensures !IsForbiddenCtl(s[i], tabs) {
      }
    }
    if !HasForbiddenCtl(s, tabs) {
      forall i | 0 <= i < |s| ensures (s[i] >= 32 && s[i] != 127) || (tabs && s[i] == 9) {
        assert !IsForbiddenCtl(s[i], tabs);
      }
    }
  }

  function VersionText(v: Version): Text {
    VersionPrefix + match v case Http11 => [49, 46, 49] case Http10 => [49, 46, 48]
  }

  function RequestLine(head: RequestHead): Text {
    head.method_ + [SP] + head.target + [SP] + VersionText(head.version)
  }

  function HeaderLine(h: Header): Text {
    h.name + [COLON, SP] + h.value
  }

  function HeaderLines(headers: seq<Header>): (lines: seq<Text>)
    ensures |lines| == |headers|
    ensures forall i :: 0 <= i < |headers| ==> lines[i] == HeaderLine(headers[i])
  {
    if headers == [] then [] else [HeaderLine(headers[0])] + HeaderLines(headers[1..])
  }

  function HeadLines(head: RequestHead): seq<Text> {
    [RequestLine(head)] + HeaderLines(head.headers)
  }

  /** Lines with a line break between every two. */
  function Lines(lines: seq<Text>): Text {
    if lines == [] then []
    else if |lines| == 1 then lines[0]
    else lines[0] + CRLF + Lines(lines[1..])
  }

  function PrintHead(head: RequestHead): Text {
    Lines(HeadLines(head)) + HeadTerminator
  }

  // ---- finding the lines again ----

  /** A line: not empty, and free of line breaks. */
  predicate GoodLine(line: Text) {
    line != [] && CR !in line
  }

  /** Nothing is found in text that lacks the needle's first byte. */
  lemma {:induction false} FindSkips(front: Text, s: Text, needle: Text)
    requires needle != [] && needle[0] !in front
    ensures Find(front + s, needle) ==
              match Find(s, needle)
              case None => None
              case Some(i) => Some(|front| + i)
  {
    if front == [] {
      assert front + s == s;
    } else {
      assert (front + s)[1..] == front[1..] + s;
      FindSkips(front[1..], s, needle);
      if |front + s| >= |needle| {
        assert (front + s)[0] != needle[0];
      }
    }
  }

  lemma FindAtFront(needle: Text, rest: Text)
    requires needle != []
    ensures Find(needle + rest, needle) == Some(0)
  {
    assert (needle + rest)[..|needle|] == needle;
  }

  /** After a line break comes the terminator's search of the rest, unless an empty line follows. */
  lemma FindPastBreak(rest: Text)
    requires rest != [] && rest[0] != CR
    ensures Find(CRLF + rest, HeadTerminator) ==
              match Find(rest, HeadTerminator)
              case None => None
              case Some(i) => Some(2 + i)
  {
    var s := CRLF + rest;
    assert s[2] == rest[0] && HeadTerminator[2] == CR;
    assert s[1..] == [LF] + rest;
    FindSkips([LF], rest, HeadTerminator);
  }

  lemma TerminatorAfter(line: Text, more: Text)
    requires CR !in line
    ensures Find(line + HeadTerminator + more, HeadTerminator) == Some(|line|)
  {
    hide Find;
    FindAtFront(HeadTerminator, more);
    FindSkips(line, HeadTerminator + more, HeadTerminator);
    assert line + HeadTerminator + more == line + (HeadTerminator + more);
  }

  lemma TerminatorPast(line: Text, rest: Text, k: nat)
    requires CR !in line && rest != [] && rest[0] != CR && Find(rest, HeadTerminator) == Some(k)
    ensures Find(line + CRLF + rest, HeadTerminator) == Some(|line| + 2 + k)
  {
    hide Find;
    FindPastBreak(rest);
    FindSkips(line, CRLF + rest, HeadTerminator);
    assert line + CRLF + rest == line + (CRLF + rest);
  }

  lemma LinesMore(lines: seq<Text>, more: Text)
    requires |lines| > 1
    ensures Lines(lines) + HeadTerminator + more == lines[0] + CRLF + (Lines(lines[1..]) + HeadTerminator + more)
    ensures |Lines(lines)| == |lines[0]| + 2 + |Lines(lines[1..])|
  {
  }

  lemma {:induction false} TerminatorFound(lines: seq<Text>, more: Text)
    requires lines != [] && forall l :: l in lines ==> GoodLine(l)
    ensures Find(Lines(lines) + HeadTerminator + more, HeadTerminator) == Some(|Lines(lines)|)
    decreases |lines|
  {
    hide Find;
    assert lines[0] in lines;
    if |lines| == 1 {
      TerminatorAfter(lines[0], more);
    } else {
      hide Lines;
      TerminatorFound(lines[1..], more);
      LinesStart(lines[1..]);
      LinesMore(lines, more);
      TerminatorPast(lines[0], Lines(lines[1..]) + HeadTerminator + more, |Lines(lines[1..])|);
    }
  }

  lemma LinesStart(lines: seq<Text>)
    requires lines != [] && forall l :: l in lines ==> GoodLine(l)
    ensures Lines(lines) != [] && Lines(lines)[0] != CR
  {
    assert lines[0] in lines && lines[0][0] in lines[0];
  }

  lemma {:induction false} LinesSplit(lines: seq<Text>)
    requires lines != [] && forall l :: l in lines ==> GoodLine(l)
    ensures SplitOn(Lines(lines), CRLF) == lines
    decreases |lines|
  {
    hide Find;
    assert lines[0] in lines && CRLF[0] == CR;
    if |lines| == 1 {
      FindSkips(lines[0], [], CRLF);
      assert lines[0] + [] == lines[0];
      assert Find([], CRLF) == None by { FindInNothing(); }
    } else {
      var rest := Lines(lines[1..]);
      LinesSplit(lines[1..]);
      FindAtFront(CRLF, rest);
      FindSkips(lines[0], CRLF + rest, CRLF);
      var s := Lines(lines);
      assert s == lines[0] + (CRLF + rest);
      assert s[..|lines[0]|] == lines[0] && s[|lines[0]| + 2..] == rest;
    }
  }

  lemma FindInNothing()
    ensures Find([], CRLF) == None
  {
  }

  // ---- UTF-8 ----

  lemma {:induction false} Utf8Concat(a: Text, b: Text)
    requires ValidUtf8(a) && ValidUtf8(b)
    ensures ValidUtf8(a + b)
    decreases |a|
  {
    if a == [] {
      assert a + b == b;
    } else {
      var n := Utf8Width(a);
      Utf8WidthStable(a, b);
      assert (a + b)[n..] == a[n..] + b;
      Utf8Concat(a[n..], b);
    }
  }

  lemma Utf8WidthStable(a: Text, b: Text)
    requires a != [] && Utf8Width(a) > 0
    ensures Utf8Width(a + b) == Utf8Width(a)
  {
  }

  lemma {:induction false} AsciiIsUtf8(s: Text)
    requires forall i :: 0 <= i < |s| ==> s[i] < 0x80
    ensures ValidUtf8(s)
  {
    if s != [] {
      AsciiIsUtf8(s[1..]);
    }
  }

  lemma TokenIsUtf8(s: Text)
    requires AllTchar(s)
    ensures ValidUtf8(s)
  {
    forall i | 0 <= i < |s| ensures s[i] < 0x80 {
      assert IsTchar(s[i]);
    }
    AsciiIsUtf8(s);
  }

  lemma {:induction false} LinesUtf8(lines: seq<Text>)
    requires forall l :: l in lines ==> ValidUtf8(l)
    ensures ValidUtf8(Lines(lines))
    decreases |lines|
  {
    hide ValidUtf8;
    if lines == [] {
      AsciiIsUtf8([]);
    } else if |lines| > 1 {
      LinesUtf8(lines[1..]);
      AsciiIsUtf8(CRLF);
      Utf8Concat(lines[0], CRLF);
      Utf8Concat(lines[0] + CRLF, Lines(lines[1..]));
    }
  }

  // ---- reading the lines ----

  /** A token holds none of the separators. */
  lemma TokenIsClean(s: Text)
    requires AllTchar(s)
    ensures SP !in s && COLON !in s && CR !in s && !HasForbiddenCtl(s, false)
  {
    assert forall i :: 0 <= i < |s| ==> IsTchar(s[i]);
  }

  lemma CleanHasNoBreak(s: Text, allowHtab: bool)
    requires !HasForbiddenCtl(s, allowHtab)
    ensures CR !in s
  {
    forall i | 0 <= i < |s| ensures s[i] != CR {
      assert !IsForbiddenCtl(s[i], allowHtab);
    }
  }

  lemma CleanConcat(a: Text, b: Text, allowHtab: bool)
    requires !HasForbiddenCtl(a, allowHtab) && !HasForbiddenCtl(b, allowHtab)
    ensures !HasForbiddenCtl(a + b, allowHtab)
  {
    forall i | 0 <= i < |a + b| ensures !IsForbiddenCtl((a + b)[i], allowHtab) {
      assert (a + b)[i] == if i < |a| then a[i] else b[i - |a|];
    }
  }

  lemma VersionIsRead(v: Version)
    ensures ParseVersion(VersionText(v)) == Ok(v)
    ensures SP !in VersionText(v) && !HasForbiddenCtl(VersionText(v), false) && ValidUtf8(VersionText(v))
  {
    var text := VersionText(v);
    assert text[..5] == VersionPrefix;
    AsciiIsUtf8(text);
  }

  lemma RequestLineClean(head: RequestHead)
    requires GoodHead(head)
    ensures !HasForbiddenCtl(RequestLine(head), false) && ValidUtf8(RequestLine(head)) && GoodLine(RequestLine(head))
  {
    hide ValidUtf8;
    hide VersionText;
    hide HasForbiddenCtl;
    hide IsToken;
    hide NoControls;
    TokenExactly(head.method_);
    NoControlsExactly(head.target, false);
    var v := VersionText(head.version);
    VersionIsRead(head.version);
    TokenIsClean(head.method_);
    TokenIsUtf8(head.method_);
    BlankIsClean();
    CleanConcat(head.method_, [SP], false);
    CleanConcat(head.method_ + [SP], head.target, false);
    CleanConcat(head.method_ + [SP] + head.target, [SP], false);
    CleanConcat(head.method_ + [SP] + head.target + [SP], v, false);
    Utf8Concat(head.method_, [SP]);
    Utf8Concat(head.method_ + [SP], head.target);
    Utf8Concat(head.method_ + [SP] + head.target, [SP]);
    Utf8Concat(head.method_ + [SP] + head.target + [SP], v);
    CleanHasNoBreak(RequestLine(head), false);
  }

  lemma BlankIsClean()
    ensures !HasForbiddenCtl([SP], false) && ValidUtf8([SP])
  {
    AsciiIsUtf8([SP]);
  }

  lemma RequestLineIsRead(head: RequestHead)
    requires GoodHead(head)
    ensures ParseRequestLine(RequestLine(head)) == Ok((head.method_, head.target, head.version))
  {
    hide SplitOn;
    hide ValidUtf8;
    hide VersionText;
    hide ParseVersion;
    hide HasForbiddenCtl;
    hide IsToken;
    hide NoControls;
    TokenExactly(head.method_);
    var v := VersionText(head.version);
    var line := RequestLine(head);
    RequestLineClean(head);
    VersionIsRead(head.version);
    TokenIsClean(head.method_);
    TokenIsUtf8(head.method_);
    SplitAtFirst(head.method_, SP, head.target + [SP] + v);
    SplitAtFirst(head.target, SP, v);
    SplitAtFirst(v, SP, []);
    assert line == head.method_ + [SP] + (head.target + [SP] + v);
    assert SplitOn(line, [SP]) == [head.method_, head.target, v];
    VersionIsText(head.version);
  }

  lemma VersionIsText(v: Version)
    ensures VersionText(v) != []
  {
  }

  lemma HeaderLineIsRead(h: Header)
    requires GoodHeader(h)
    ensures ParseHeaderLine(HeaderLine(h)) == Ok(h)
  {
    hide ValidUtf8;
    hide TrimOws;
    hide IsToken;
    hide NoControls;
    TokenExactly(h.name);
    NoControlsExactly(h.value, true);
    var line := HeaderLine(h);
    TokenIsClean(h.name);
    TokenIsUtf8(h.name);
    IndexOfUnique(h.name, COLON, [SP] + h.value);
    assert line == h.name + [COLON] + ([SP] + h.value);
    assert line[..|h.name|] == h.name && line[|h.name| + 1..] == [SP] + h.value;
    TrimBlank(h.value);
  }

  lemma TrimBlank(value: Text)
    requires value != [] ==> !IsOws(value[0]) && !IsOws(value[|value| - 1])
    ensures TrimOws([SP] + value) == value
  {
    var s := [SP] + value;
    assert s[0] == SP && s[1..] == value;
    assert TrimOwsStart(s) == TrimOwsStart(value) == value;
    assert TrimOwsEnd(value) == value;
  }

  lemma HeaderLineClean(h: Header)
    requires GoodHeader(h)
    ensures ValidUtf8(HeaderLine(h)) && GoodLine(HeaderLine(h))
  {
    hide ValidUtf8;
    hide IsToken;
    hide NoControls;
    TokenExactly(h.name);
    NoControlsExactly(h.value, true);
    TokenIsClean(h.name);
    TokenIsUtf8(h.name);
    AsciiIsUtf8([COLON, SP]);
    Utf8Concat(h.name, [COLON, SP]);
    Utf8Concat(h.name + [COLON, SP], h.value);
    CleanHasNoBreak(h.value, true);
  }

  lemma {:induction false} HeadersAreRead(headers: seq<Header>, soFar: seq<Header>)
    requires forall h :: h in headers ==> GoodHeader(h)
    requires |soFar| <= MAX_HEADER_COUNT
    ensures ParseHeaders(HeaderLines(headers), soFar) ==
              if |soFar| + |headers| <= MAX_HEADER_COUNT then Ok(soFar + headers) else Err(TooManyHeaders)
    decreases |headers|
  {
    hide ParseHeaderLine;
    hide ParseHeaders;
    hide GoodHeader;
    hide HeaderLine;
    hide HeaderLines;
    if headers == [] {
      NoHeaders(soFar);
      assert soFar + headers == soFar && HeaderLines(headers) == [];
    } else {
      var h, rest := headers[0], headers[1..];
      assert h in headers && HeaderLines(headers) == [HeaderLine(h)] + HeaderLines(rest);
      HeaderLineIsRead(h);
      OneHeader(HeaderLine(h), HeaderLines(rest), soFar, h);
      if |soFar| < MAX_HEADER_COUNT {
        HeadersAreRead(rest, soFar + [h]);
        assert soFar + [h] + rest == soFar + headers;
      }
    }
  }

  lemma NoHeaders(soFar: seq<Header>)
    ensures ParseHeaders([], soFar) == Ok(soFar)
  {
  }

  lemma OneHeader(line: Text, lines: seq<Text>, soFar: seq<Header>, h: Header)
    requires ParseHeaderLine(line) == Ok(h)
    ensures ParseHeaders([line] + lines, soFar) ==
              if |soFar| >= MAX_HEADER_COUNT then Err(TooManyHeaders) else ParseHeaders(lines, soFar + [h])
  {
    hide ParseHeaderLine;
  }

  lemma HeadLinesAreGood(head: RequestHead)
    requires GoodHead(head)
    ensures forall l :: l in HeadLines(head) ==> GoodLine(l) && ValidUtf8(l)
  {
    hide ValidUtf8;
    hide GoodLine;
    hide RequestLine;
    var lines := HeadLines(head);
    RequestLineClean(head);
    forall l | l in lines ensures GoodLine(l) && ValidUtf8(l) {
      var i :| 0 <= i < |lines| && lines[i] == l;
      if i > 0 {
        HeaderLineClean(head.headers[i - 1]);
      }
    }
  }

  lemma SectionIsRead(head: RequestHead)
    requires GoodHead(head)
    ensures ParseSection(Lines(HeadLines(head))) ==
              if |head.headers| <= MAX_HEADER_COUNT then Ok(head) else Err(TooManyHeaders)
  {
    hide SplitOn;
    hide ParseHeaders;
    hide ParseRequestLine;
    hide ValidUtf8;
    hide RequestLine;
    hide GoodLine;
    hide Lines;
    var lines := HeadLines(head);
    HeadLinesAreGood(head);
    LinesSplit(lines);
    LinesUtf8(lines);
    RequestLineIsRead(head);
    HeadersAreRead(head.headers, []);
    assert lines[1..] == HeaderLines(head.headers);
    assert [] + head.headers == head.headers;
  }

  /**
    A printed head, whatever follows it, is read back as itself up to its last
    byte, exactly when it keeps the two limits.
   */
  lemma HeadRoundTrip(head: RequestHead, more: Text)
    requires GoodHead(head)
    ensures ParseRequestHead(PrintHead(head) + more) ==
              if |PrintHead(head)| > 16384 then Err(HeaderSectionTooLarge)
              else if |head.headers| > 100 then Err(TooManyHeaders)
              else Ok(Complete(head, |PrintHead(head)|))
  {
    hide Find;
    hide ParseSection;
    hide GoodLine;
    hide ValidUtf8;
    hide Lines;
    var section := Lines(HeadLines(head));
    HeadLinesAreGood(head);
    TerminatorFound(HeadLines(head), more);
    SectionIsRead(head);
    assert (PrintHead(head) + more)[..|section|] == section;
  }

  // ---- whatever is read is a good head ----

  lemma {:induction false} PiecesAreClean(s: Text, b: byte, i: nat)
    requires i < |SplitOn(s, [b])|
    ensures var p := SplitOn(s, [b])[i]; b !in p && forall x :: x in p ==> x in s
    decreases |s|
  {
    hide SplitOn;
    hide IndexOf;
    var k := IndexOf(s, b);
    if k == |s| {
      assert s[..k] == s;
      SplitAtFirst(s, b, []);
    } else {
      var front, rest := s[..k], s[k + 1..];
      assert s == front + [b] + rest;
      SplitAtFirst(front, b, rest);
      if i > 0 {
        PiecesAreClean(rest, b, i - 1);
      }
    }
  }

  lemma PartIsClean(p: Text, s: Text, tabs: bool)
    requires !HasForbiddenCtl(s, tabs) && forall x :: x in p ==> x in s
    ensures NoControls(p, tabs)
  {
    NoControlsExactly(s, tabs);
    forall i | 0 <= i < |p| ensures (p[i] >= 32 && p[i] != 127) || (tabs && p[i] == 9) {
      assert p[i] in s;
      var k :| 0 <= k < |s| && s[k] == p[i];
    }
  }

  lemma ParsedLineIsGood(line: Text)
    requires ParseRequestLine(line).Ok?
    ensures var (m, t, v) := ParseRequestLine(line).value;
            IsToken(m) && t != [] && ValidUtf8(t) && NoControls(t, false) && SP !in t
  {
    hide SplitOn;
    hide ValidUtf8;
    hide IsToken;
    hide NoControls;
    hide HasForbiddenCtl;
    hide ParseVersion;
    var parts := SplitOn(line, [SP]);
    TokenExactly(parts[0]);
    PiecesAreClean(line, SP, 1);
    PartIsClean(parts[1], line, false);
  }

  lemma {:induction false} TrimmedEnds(s: Text)
    requires s != [] && !IsOws(s[0])
    ensures TrimOwsEnd(s) != [] && TrimOwsEnd(s)[0] == s[0]
    ensures !IsOws(TrimOwsEnd(s)[|TrimOwsEnd(s)| - 1])
  {
    if IsOws(s[|s| - 1]) {
      TrimmedEnds(s[..|s| - 1]);
    }
  }

  lemma {:induction false} TrimmedStart(s: Text)
    ensures TrimOwsStart(s) != [] ==> !IsOws(TrimOwsStart(s)[0])
  {
    if s != [] && IsOws(s[0]) {
      TrimmedStart(s[1..]);
    }
  }

  lemma TrimmedHasNoBlankEnds(s: Text)
    ensures NoBlankEnds(TrimOws(s))
  {
    hide TrimOwsStart;
    TrimmedStart(s);
    if TrimOwsStart(s) != [] {
      TrimmedEnds(TrimOwsStart(s));
    }
  }

  lemma ParsedHeaderIsGood(line: Text)
    requires ParseHeaderLine(line).Ok?
    ensures GoodHeader(ParseHeaderLine(line).value)
  {
    hide ValidUtf8;
    hide IsToken;
    hide NoControls;
    hide NoBlankEnds;
    hide TrimOws;
    hide HasForbiddenCtl;
    hide IndexOf;
    var h := ParseHeaderLine(line).value;
    TokenExactly(h.name);
    NoControlsExactly(h.value, true);
    TrimmedHasNoBlankEnds(line[IndexOf(line, COLON) + 1..]);
  }

  lemma {:induction false} ParsedHeadersAreGood(lines: seq<Text>, soFar: seq<Header>)
    requires ParseHeaders(lines, soFar).Ok? && |soFar| <= MAX_HEADER_COUNT
    requires forall h :: h in soFar ==> GoodHeader(h)
    ensures var headers := ParseHeaders(lines, soFar).value;
            |headers| == |soFar| + |lines| <= MAX_HEADER_COUNT && forall h :: h in headers ==> GoodHeader(h)
    decreases |lines|
  {
    hide GoodHeader;
    hide ParseHeaderLine;
    if lines != [] {
      ParsedHeaderIsGood(lines[0]);
      ParsedHeadersAreGood(lines[1..], soFar + [ParseHeaderLine(lines[0]).value]);
    }
  }

  /** Every head the parser returns is a good one, within the two limits. */
  lemma ParsedHeadIsGood(buf: Text)
    requires ParseRequestHead(buf).Ok? && ParseRequestHead(buf).value.Complete?
    ensures var Complete(head, consumed) := ParseRequestHead(buf).value;
            GoodHead(head) && |head.headers| <= 100 && consumed <= 16384
  {
    hide Find;
    hide SplitOn;
    hide ParseRequestLine;
    hide ParseHeaders;
    hide ValidUtf8;
    hide IsToken;
    hide NoControls;
    hide GoodHeader;
    var lines := SplitOn(buf[..Find(buf, HeadTerminator).value], CRLF);
    ParsedLineIsGood(lines[0]);
    ParsedHeadersAreGood(lines[1..], []);
  }

  /** Written out again, a head that was read is read the same, if it still fits. */
  lemma ReprintedHeadIsRead(buf: Text, more: Text)
    requires ParseRequestHead(buf).Ok? && ParseRequestHead(buf).value.Complete?
    ensures var head := ParseRequestHead(buf).value.head;
            |PrintHead(head)| <= MAX_HEADER_BYTES ==>
              ParseRequestHead(PrintHead(head) + more) == Ok(Complete(head, |PrintHead(head)|))
  {
    hide ParseRequestHead;
    hide PrintHead;
    hide GoodHead;
    ParsedHeadIsGood(buf);
    HeadRoundTrip(ParseRequestHead(buf).value.head, more);
  }

  // ---- heads that do not end, and versions that are not known ----

  /** The needle stands in `s` at `i`. */
  predicate OccursAt(s: Text, needle: Text, i: nat) {
    i + |needle| <= |s| && s[i..i + |needle|] == needle
  }

  lemma OccursOneOn(s: Text, needle: Text, i: nat)
    requires 0 < i <= |s|
    ensures OccursAt(s, needle, i) <==> OccursAt(s[1..], needle, i - 1)
  {
    var n := |needle|;
    if i + n <= |s| {
      var here, there := s[i..i + n], s[1..][i - 1..i - 1 + n];
      assert forall k :: 0 <= k < n ==> here[k] == s[i + k] && there[k] == s[i + k];
      assert here == there;
    }
  }

  /** Searching finds the first occurrence, and nothing exactly if there is none. */
  lemma {:induction false} FindExactly(s: Text, needle: Text)
    requires needle != []
    ensures match Find(s, needle)
            case None => forall i :: 0 <= i <= |s| ==> !OccursAt(s, needle, i)
            case Some(k) => OccursAt(s, needle, k) && forall i :: 0 <= i < k ==> !OccursAt(s, needle, i)
    decreases |s|
  {
    if |s| >= |needle| {
      assert s[0..|needle|] == s[..|needle|];
      if !(needle <= s) {
        FindExactly(s[1..], needle);
        forall i | 0 < i <= |s| ensures OccursAt(s, needle, i) <==> OccursAt(s[1..], needle, i - 1) {
          OccursOneOn(s, needle, i);
        }
        assert !OccursAt(s, needle, 0);
      }
    }
  }

  /** Without an empty line the parser waits for more, until the limit is reached. */
  lemma UnendedHeadIsBounded(buf: Text)
    requires forall i :: 0 <= i <= |buf| ==> !OccursAt(buf, [13, 10, 13, 10], i)
    ensures ParseRequestHead(buf) == if |buf| >= 16384 then Err(HeaderSectionTooLarge) else Ok(Incomplete)
  {
    hide OccursAt;
    assert HeadTerminator == [13, 10, 13, 10];
    FindExactly(buf, HeadTerminator);
  }

  /** With method and target in order, the version alone decides what becomes of the line. */
  lemma VersionDecides(m: Text, t: Text, v: Text)
    requires IsToken(m) && t != [] && ValidUtf8(t) && NoControls(t, false) && SP !in t
    requires v != [] && NoControls(v, false) && SP !in v
    ensures var version := ParseVersion(v);
            ParseRequestLine(m + [SP] + t + [SP] + v) ==
              if version.Ok? then Ok((m, t, version.value)) else Err(version.error)
  {
    hide SplitOn;
    hide ValidUtf8;
    hide ParseVersion;
    hide HasForbiddenCtl;
    hide IsToken;
    hide NoControls;
    var line := m + [SP] + t + [SP] + v;
    TokenExactly(m);
    TokenIsClean(m);
    TokenIsUtf8(m);
    NoControlsExactly(t, false);
    NoControlsExactly(v, false);
    BlankIsClean();
    CleanConcat(m, [SP], false);
    CleanConcat(m + [SP], t, false);
    CleanConcat(m + [SP] + t, [SP], false);
    CleanConcat(m + [SP] + t + [SP], v, false);
    SplitAtFirst(m, SP, t + [SP] + v);
    SplitAtFirst(t, SP, v);
    SplitAtFirst(v, SP, []);
    assert line == m + [SP] + (t + [SP] + v);
    assert SplitOn(line, [SP]) == [m, t, v];
  }
}
