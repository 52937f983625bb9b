/**
  Names and words as they are spelled on the wire, and what the parser's
  comparisons, lists and white space mean for them.
 */
module HeaderNames {
  import opened Bytes
  import opened RequestHeads
  import opened BodyFraming
  import opened Utf8

  // ---- letters ----

  /** `bytes` are the characters of an ASCII word. */
  predicate BytesOf(bytes: Text, word: string) {
    |bytes| == |word| && forall i :: 0 <= i < |word| ==> bytes[i] == word[i] as int
  }

  /** Equal, or the two cases of one ASCII letter. */
  predicate SameLetter(b: byte, c: byte) {
    b == c || (65 <= b <= 90 && c == b + 32) || (65 <= c <= 90 && b == c + 32)
  }

  lemma EqIgnoreCaseExactly(a: Text, b: Text)
    ensures EqIgnoreCase(a, b) <==> |a| == |b| && forall i :: 0 <= i < |a| ==> SameLetter(a[i], b[i])
  {
  }

  /** A word without capital letters. */
  predicate LowerCase(word: string) {
    forall i :: 0 <= i < |word| ==> word[i] as int < 128 && !('A' <= word[i] <= 'Z')
  }

  /** `name` is `word`, each letter small or capital. */
  predicate Spells(name: Text, word: string) {
    && |name| == |word|
    && forall i :: 0 <= i < |word| ==>
         name[i] == word[i] as int || ('a' <= word[i] <= 'z' && name[i] == word[i] as int - 32)
  }

  lemma SpellsExactly(name: Text, bytes: Text, word: string)
    requires LowerCase(word) && BytesOf(bytes, word)
    ensures EqIgnoreCase(name, bytes) <==> Spells(name, word)
  {
    EqIgnoreCaseExactly(name, bytes);
    if |name| == |word| {
      forall i | 0 <= i < |word|
        ensures SameLetter(name[i], bytes[i]) <==>
                  name[i] == word[i] as int || ('a' <= word[i] <= 'z' && name[i] == word[i] as int - 32)
      {
      }
    }
  }

  // The names and words the server compares with.

  lemma ContentLengthSpelled()
    ensures BytesOf(CONTENT_LENGTH, "content-length") && PlainWord("content-length")
  {
  }

  lemma TransferEncodingSpelled()
    ensures BytesOf(TRANSFER_ENCODING, "transfer-encoding") && PlainWord("transfer-encoding")
  {
  }

  lemma ChunkedSpelled()
    ensures BytesOf(CHUNKED, "chunked") && PlainWord("chunked")
  {
  }

  lemma ConnectionSpelled()
    ensures BytesOf(CONNECTION, "connection") && PlainWord("connection")
  {
  }

  lemma CloseSpelled()
    ensures BytesOf(CLOSE, "close") && PlainWord("close")
  {
  }

  lemma KeepAliveSpelled()
    ensures BytesOf(KEEP_ALIVE, "keep-alive") && PlainWord("keep-alive")
  {
  }

  /** The two versions, to the letter; everything else is an error, and which one is decided by the prefix. */
  lemma VersionExactly(v: Text)
    ensures ParseVersion(v) == Ok(Http11) <==> BytesOf(v, "HTTP/1.1")
    ensures ParseVersion(v) == Ok(Http10) <==> BytesOf(v, "HTTP/1.0")
    ensures ParseVersion(v) == Err(InvalidRequestLine) <==> |v| < 5 || !BytesOf(v[..5], "HTTP/")
    ensures ParseVersion(v).Err? ==> ParseVersion(v).error in {InvalidRequestLine, UnsupportedVersion}
  {
    PrefixBytes(v);
    VersionBytes(v);
    hide BytesOf;
    if VersionPrefix <= v {
      assert v == VersionPrefix + v[5..];
    }
  }

  lemma PrefixBytes(v: Text)
    ensures VersionPrefix <= v <==> |v| >= 5 && BytesOf(v[..5], "HTTP/")
  {
  }

  lemma VersionBytes(v: Text)
    ensures BytesOf(v, "HTTP/1.1") <==> v == VersionPrefix + [49, 46, 49]
    ensures BytesOf(v, "HTTP/1.0") <==> v == VersionPrefix + [49, 46, 48]
  {
  }

  /** The values of the headers with this name, however it is spelled. */
  function Named(headers: seq<Header>, word: string): (values: seq<Text>)
    ensures values != [] <==> exists i :: 0 <= i < |headers| && Spells(headers[i].name, word)
  {
    if headers == [] then []
    else if Spells(headers[0].name, word) then [headers[0].value] + Named(headers[1..], word)
    else
      assert forall i :: 1 <= i < |headers| ==> headers[i] == headers[1..][i - 1];
      Named(headers[1..], word)
  }

  lemma {:induction false} NamedExactly(headers: seq<Header>, bytes: Text, word: string)
    requires LowerCase(word) && BytesOf(bytes, word)
    ensures Values(headers, bytes) == Named(headers, word)
  {
    hide Spells;
    hide EqIgnoreCase;
    if headers != [] {
      SpellsExactly(headers[0].name, bytes, word);
      NamedExactly(headers[1..], bytes, word);
    }
  }

  // ---- white space ----

  /** The code points with the White_Space property of Unicode. */
  predicate WhiteSpaceCodePoint(cp: nat) {
    || 0x9 <= cp <= 0xD || cp in {0x20, 0x85, 0xA0, 0x1680, 0x2028, 0x2029, 0x202F, 0x205F, 0x3000}
    || 0x2000 <= cp <= 0x200A
  }

  lemma WhitespaceIsEncoded(cp: nat)
    requires WhiteSpaceCodePoint(cp)
    ensures Scalar(cp) && IsWhitespace(Encoded(cp))
  {
  }

  lemma WhitespaceHasCodePoint(c: Text) returns (cp: nat)
    requires IsWhitespace(c)
    ensures Scalar(cp) && WhiteSpaceCodePoint(cp) && c == Encoded(cp)
  {
    var b: seq<int> := c;
    if |c| == 1 {
      cp := b[0];
    } else if |c| == 2 {
      cp := (b[0] - 0xC0) * 0x40 + (b[1] - 0x80);
    } else {
      cp := (b[0] - 0xE0) * 0x1000 + (b[1] - 0x80) * 0x40 + (b[2] - 0x80);
    }
  }

  /** White space is exactly what Unicode says it is. */
  lemma WhitespaceExactly(c: Text)
    ensures IsWhitespace(c) <==> exists cp :: Scalar(cp) && WhiteSpaceCodePoint(cp) && c == Encoded(cp)
  {
    if IsWhitespace(c) {
      var cp := WhitespaceHasCodePoint(c);
    }
    if cp: nat :| Scalar(cp) && WhiteSpaceCodePoint(cp) && c == Encoded(cp) {
      WhitespaceIsEncoded(cp);
    }
  }

  predicate AllWhitespace(chars: seq<Text>) {
    forall c :: c in chars ==> IsWhitespace(c)
  }

  /** `s` is `core` with white space around it. */
  predicate PaddedWith(s: Text, before: seq<Text>, core: Text, after: seq<Text>) {
    AllWhitespace(before) && AllWhitespace(after) && s == Concat(before) + core + Concat(after)
  }

  /** Trimming takes white space away and nothing else. */
  lemma {:induction false} TrimPads(s: Text) returns (before: seq<Text>, after: seq<Text>)
    ensures PaddedWith(s, before, Trim(s), after)
    decreases |s|
  {
    hide IsWhitespace;
    hide WhitespaceAtStart;
    hide WhitespaceAtEnd;
    hide Trim;
    hide PaddedWith;
    var n, k := WhitespaceAtStart(s), WhitespaceAtEnd(s);
    WhitespaceFound(s);
    TrimUnfolds(s);
    if n > 0 {
      before, after := TrimPads(s[n..]);
      PadFront(s[..n], s[n..], before, Trim(s), after);
      before := [s[..n]] + before;
      assert s == s[..n] + s[n..];
    } else if k > 0 {
      var m := |s| - k;
      before, after := TrimPads(s[..m]);
      PadBack(s[..m], s[m..], before, Trim(s), after);
      after := after + [s[m..]];
      assert s == s[..m] + s[m..];
    } else {
      before, after := [], [];
      NoPads(s);
    }
  }

  lemma TrimUnfolds(s: Text)
    ensures var n, k := WhitespaceAtStart(s), WhitespaceAtEnd(s);
            Trim(s) == if n > 0 then Trim(s[n..]) else if k > 0 then Trim(s[..|s| - k]) else s
  {
    hide WhitespaceAtStart;
    hide WhitespaceAtEnd;
  }

  lemma NoPads(s: Text)
    ensures PaddedWith(s, [], s, [])
  {
    hide IsWhitespace;
    assert [] + s + [] == s;
  }

  lemma WhitespaceFound(s: Text)
    ensures WhitespaceAtStart(s) > 0 ==> IsWhitespace(s[..WhitespaceAtStart(s)])
    ensures WhitespaceAtEnd(s) > 0 ==> IsWhitespace(s[|s| - WhitespaceAtEnd(s)..])
  {
    hide IsWhitespace;
  }

  lemma PadFront(c: Text, s: Text, before: seq<Text>, core: Text, after: seq<Text>)
    requires IsWhitespace(c) && PaddedWith(s, before, core, after)
    ensures PaddedWith(c + s, [c] + before, core, after)
  {
    hide IsWhitespace;
    assert ([c] + before)[1..] == before;
  }

  lemma PadBack(s: Text, c: Text, before: seq<Text>, core: Text, after: seq<Text>)
    requires IsWhitespace(c) && PaddedWith(s, before, core, after)
    ensures PaddedWith(s + c, before, core, after + [c])
  {
    hide IsWhitespace;
    ConcatSnoc(after, c);
  }

  /** A text that begins and ends with visible ASCII. */
  predicate VisibleEnds(core: Text) {
    core != [] && 33 <= core[0] <= 126 && 33 <= core[|core| - 1] <= 126
  }

  lemma StartsWithWhitespace(c: Text, rest: Text)
    requires IsWhitespace(c)
    ensures WhitespaceAtStart(c + rest) == |c| > 0
  {
    var s := c + rest;
    assert s[..|c|] == c;
  }

  lemma EndsWithWhitespace(front: Text, c: Text)
    requires IsWhitespace(c)
    ensures WhitespaceAtEnd(front + c) == |c| > 0
  {
    var s := front + c;
    assert s[|s| - |c|..] == c;
    if |c| >= 2 {
      assert s[|s| - 1..] == [c[|c| - 1]];
    }
    if |c| == 3 {
      assert s[|s| - 2..] == c[1..];
    }
  }

  lemma VisibleIsKept(core: Text, rest: Text, front: Text)
    requires VisibleEnds(core)
    ensures WhitespaceAtStart(core + rest) == 0 && WhitespaceAtEnd(front + core) == 0
  {
    hide IsWhitespace;
    var s, e := core + rest, front + core;
    assert s[0] == core[0] && e[|e| - 1] == core[|core| - 1];
    forall k | 0 < k <= |s| ensures !IsWhitespace(s[..k]) {
      VisibleIsNoWhitespace(s[..k]);
    }
    forall k | 0 <= k < |e| ensures !IsWhitespace(e[k..]) {
      VisibleIsNoWhitespace(e[k..]);
    }
  }

  lemma VisibleIsNoWhitespace(c: Text)
    requires c != [] && (33 <= c[0] <= 126 || 33 <= c[|c| - 1] <= 126)
    ensures !IsWhitespace(c)
  {
  }

  /** Trimming undoes any padding of a text with visible ends. */
  lemma {:induction false} TrimUnpads(s: Text, before: seq<Text>, core: Text, after: seq<Text>)
    requires PaddedWith(s, before, core, after) && VisibleEnds(core)
    ensures Trim(s) == core
    decreases |before|
  {
    hide IsWhitespace;
    if before == [] {
      assert s == core + Concat(after);
      TrimUnpadsBack(core, after);
    } else {
      var c, rest := before[0], Concat(before[1..]) + core + Concat(after);
      assert s == c + rest;
      StartsWithWhitespace(c, rest);
      hide WhitespaceAtStart;
      hide WhitespaceAtEnd;
      assert s[|c|..] == rest;
      TrimUnpads(rest, before[1..], core, after);
    }
  }

  lemma {:induction false} TrimUnpadsBack(core: Text, after: seq<Text>)
    requires VisibleEnds(core) && AllWhitespace(after)
    ensures Trim(core + Concat(after)) == core
  {
    hide IsWhitespace;
    hide WhitespaceAtStart;
    hide WhitespaceAtEnd;
    var s := core + Concat(after);
    VisibleIsKept(core, Concat(after), []);
    assert [] + core == core;
    if after == [] {
      assert s == core;
    } else {
      var n := |after| - 1;
      var c, front := after[n], core + Concat(after[..n]);
      assert after == after[..n] + [c];
      ConcatSnoc(after[..n], c);
      assert s == front + c;
      EndsWithWhitespace(front, c);
      assert s[..|s| - |c|] == front;
      TrimUnpadsBack(core, after[..n]);
    }
  }

  /** `s` is the word, however spelled, with white space around it. */
  ghost predicate Padded(s: Text, word: string) {
    exists before: seq<Text>, core: Text, after: seq<Text> :: PaddedWith(s, before, core, after) && Spells(core, word)
  }

  /** A lower-case word that begins and ends with a letter. */
  predicate PlainWord(word: string) {
    LowerCase(word) && word != [] && 'a' <= word[0] <= 'z' && 'a' <= word[|word| - 1] <= 'z'
  }

  lemma PaddedExactly(s: Text, bytes: Text, word: string)
    requires PlainWord(word) && BytesOf(bytes, word)
    ensures EqIgnoreCase(Trim(s), bytes) <==> Padded(s, word)
  {
    hide Trim;
    hide Concat;
    hide EqIgnoreCase;
    hide PaddedWith;
    SpellsExactly(Trim(s), bytes, word);
    if Spells(Trim(s), word) {
      var before, after := TrimPads(s);
    }
    if Padded(s, word) {
      var before: seq<Text>, core: Text, after: seq<Text> :| PaddedWith(s, before, core, after) && Spells(core, word);
      assert VisibleEnds(core);
      TrimUnpads(s, before, core, after);
    }
  }

  // ---- lists with commas ----

  /** `p` stands between two commas of `s`, or between one and an end. */
  predicate StandsAt(s: Text, left: Text, p: Text, right: Text) {
    && s == left + p + right && COMMA !in p
    && (left == [] || left[|left| - 1] == COMMA) && (right == [] || right[0] == COMMA)
  }

  ghost predicate IsPiece(s: Text, p: Text) {
    exists left: Text, right: Text :: StandsAt(s, left, p, right)
  }

  /** A list is its first member alone, or that, a comma and another list. */
  lemma SplitFirst(s: Text)
    ensures var k := IndexOf(s, COMMA);
            if k == |s| then COMMA !in s && SplitOn(s, [COMMA]) == [s]
            else
              && COMMA !in s[..k] && s == s[..k] + [COMMA] + s[k + 1..]
              && SplitOn(s, [COMMA]) == [s[..k]] + SplitOn(s[k + 1..], [COMMA])
  {
    hide SplitOn;
    var k := FirstComma(s);
    if k == |s| {
      SplitAtFirst(s, COMMA, []);
    } else {
      SplitAtFirst(s[..k], COMMA, s[k + 1..]);
    }
  }

  lemma FirstComma(s: Text) returns (k: nat)
    ensures k == IndexOf(s, COMMA) <= |s| && COMMA !in s[..k]
    ensures k == |s| ==> s[..k] == s
    ensures k < |s| ==> s == s[..k] + [COMMA] + s[k + 1..]
  {
    hide IndexOf;
    k := IndexOf(s, COMMA);
  }

  lemma {:induction false} SplitGivesPieces(s: Text, i: nat) returns (left: Text, right: Text)
    requires i < |SplitOn(s, [COMMA])|
    ensures StandsAt(s, left, SplitOn(s, [COMMA])[i], right)
    decreases |s|
  {
    hide SplitOn;
    hide IndexOf;
    SplitFirst(s);
    var k := IndexOf(s, COMMA);
    if k == |s| {
      left, right := [], [];
      assert [] + s + [] == s;
    } else if i == 0 {
      left, right := [], [COMMA] + s[k + 1..];
      assert s == [] + s[..k] + right;
    } else {
      left, right := SplitGivesPieces(s[k + 1..], i - 1);
      StandsFurther(s[..k], s[k + 1..], left, SplitOn(s, [COMMA])[i], right);
      left := s[..k] + [COMMA] + left;
    }
  }

  lemma StandsFurther(front: Text, s: Text, left: Text, p: Text, right: Text)
    requires StandsAt(s, left, p, right)
    ensures StandsAt(front + [COMMA] + s, front + [COMMA] + left, p, right)
  {
    assert front + [COMMA] + s == front + [COMMA] + left + p + right;
  }

  lemma {:induction false} PiecesAreSplit(s: Text, left: Text, p: Text, right: Text)
    requires StandsAt(s, left, p, right)
    ensures p in SplitOn(s, [COMMA])
    decreases |s|
  {
    hide SplitOn;
    hide IndexOf;
    if left == [] {
      assert s == p + right;
      if right == [] {
        assert s == p;
        SplitAtFirst(s, COMMA, []);
      } else {
        assert s == p + [COMMA] + right[1..];
        SplitAtFirst(p, COMMA, right[1..]);
      }
    } else {
      SplitFirst(s);
      var k := IndexOf(s, COMMA);
      StandsPastFirst(s, left, p, right, k);
      PiecesAreSplit(s[k + 1..], left[k + 1..], p, right);
    }
  }

  lemma StandsPastFirst(s: Text, left: Text, p: Text, right: Text, k: nat)
    requires StandsAt(s, left, p, right) && left != [] && k <= |s| && COMMA !in s[..k]
    ensures k < |left| && StandsAt(s[k + 1..], left[k + 1..], p, right)
  {
    assert s[|left| - 1] == left[|left| - 1] == COMMA;
    assert forall j :: 0 <= j < k ==> s[j] == s[..k][j];
    assert s[k + 1..] == left[k + 1..] + p + right;
  }

  /** A list names the word: one of its members, white space aside, spells it. */
  ghost predicate Lists(value: Text, word: string) {
    exists p: Text :: IsPiece(value, p) && Padded(p, word)
  }

  lemma {:induction false} TrimAllAt(parts: seq<Text>, i: nat)
    requires i < |parts|
    ensures |TrimAll(parts)| == |parts| && TrimAll(parts)[i] == Trim(parts[i])
  {
    if |parts| > 1 {
      TrimAllAt(parts[1..], if i > 0 then i - 1 else 0);
    }
  }

  lemma TrimAllLength(parts: seq<Text>)
    ensures |TrimAll(parts)| == |parts|
  {
  }

  lemma ListsExactly(value: Text, bytes: Text, word: string)
    requires PlainWord(word) && BytesOf(bytes, word)
    ensures HasToken(TrimAll(SplitOn(value, [COMMA])), bytes) <==> Lists(value, word)
  {
    hide SplitOn;
    hide TrimAll;
    hide EqIgnoreCase;
    hide Padded;
    hide StandsAt;
    var parts := SplitOn(value, [COMMA]);
    var trimmed := TrimAll(parts);
    TrimAllLength(parts);
    if HasToken(trimmed, bytes) {
      var i :| 0 <= i < |trimmed| && EqIgnoreCase(trimmed[i], bytes);
      TrimAllAt(parts, i);
      PaddedExactly(parts[i], bytes, word);
      var left, right := SplitGivesPieces(value, i);
      assert IsPiece(value, parts[i]);
    }
    if Lists(value, word) {
      var p: Text :| IsPiece(value, p) && Padded(p, word);
      var left: Text, right: Text :| StandsAt(value, left, p, right);
      PiecesAreSplit(value, left, p, right);
      var i :| 0 <= i < |parts| && parts[i] == p;
      TrimAllAt(parts, i);
      PaddedExactly(p, bytes, word);
    }
  }

  /** Some header of this name lists the word. */
  ghost predicate Says(values: seq<Text>, word: string) {
    exists i :: 0 <= i < |values| && Lists(values[i], word)
  }

  lemma HasTokenAppend(a: seq<Text>, b: seq<Text>, name: Text)
    ensures HasToken(a + b, name) <==> HasToken(a, name) || HasToken(b, name)
  {
    hide EqIgnoreCase;
    if i :| 0 <= i < |a| && EqIgnoreCase(a[i], name) {
      assert EqIgnoreCase((a + b)[i], name);
    }
    if i :| 0 <= i < |b| && EqIgnoreCase(b[i], name) {
      assert EqIgnoreCase((a + b)[|a| + i], name);
    }
  }

  lemma {:induction false} SaysExactly(values: seq<Text>, bytes: Text, word: string)
    requires PlainWord(word) && BytesOf(bytes, word)
    ensures HasToken(ConnectionTokens(values), bytes) <==> Says(values, word)
  {
    hide HasToken;
    hide Lists;
    if values == [] {
      NoTokens(bytes);
    } else {
      var first := TrimAll(SplitOn(values[0], [COMMA]));
      HasTokenAppend(first, ConnectionTokens(values[1..]), bytes);
      ListsExactly(values[0], bytes, word);
      SaysExactly(values[1..], bytes, word);
      SaysSplit(values, word);
    }
  }

  lemma NoTokens(bytes: Text)
    ensures !HasToken([], bytes)
  {
  }

  lemma SaysSplit(values: seq<Text>, word: string)
    requires values != []
    ensures Says(values, word) <==> Lists(values[0], word) || Says(values[1..], word)
  {
    hide Lists;
    if i :| 0 <= i < |values[1..]| && Lists(values[1..][i], word) {
      assert Lists(values[i + 1], word);
    }
    if i :| 0 <= i < |values| && Lists(values[i], word) {
      assert i > 0 ==> Lists(values[1..][i - 1], word);
    }
  }

  // ---- what the client wants ----

  /**
    Keep-alive is wanted if and only if no `Connection` header lists "close" and
    the version is HTTP/1.1 or some `Connection` header lists "keep-alive".
   */
  lemma ShouldKeepAliveExactly(head: RequestHead)
    ensures var values := Named(head.headers, "connection");
            ShouldKeepAlive(head) <==>
              !Says(values, "close") && (head.version == Http11 || Says(values, "keep-alive"))
  {
    hide HasToken;
    hide Says;
    hide ConnectionTokens;
    hide Values;
    hide Named;
    hide BytesOf;
    hide PlainWord;
    WantsExactly(head);
  }

  lemma WantsExactly(head: RequestHead)
    ensures var values := Named(head.headers, "connection");
            var tokens := ConnectionTokens(Values(head.headers, CONNECTION));
            && (HasToken(tokens, CLOSE) <==> Says(values, "close"))
            && (HasToken(tokens, KEEP_ALIVE) <==> Says(values, "keep-alive"))
  {
    ConnectionSpelled();
    CloseSpelled();
    KeepAliveSpelled();
    LowerOf("connection");
    hide HasToken;
    hide Says;
    hide ConnectionTokens;
    hide Values;
    hide Named;
    hide BytesOf;
    hide PlainWord;
    hide LowerCase;
    NamedExactly(head.headers, CONNECTION, "connection");
    SaysExactly(Named(head.headers, "connection"), CLOSE, "close");
    SaysExactly(Named(head.headers, "connection"), KEEP_ALIVE, "keep-alive");
  }

  lemma LowerOf(word: string)
    requires PlainWord(word)
    ensures LowerCase(word)
  {
  }

  // ---- framing ----

  /** A length is a non-empty string of digits whose value fits 64 bits. */
  predicate IsLength(value: Text) {
    value != [] && AllDigits(value) && DecimalValue(value) <= U64_MAX
  }

  /**
    The framing of a head, and each of its errors, exactly by what its headers say,
    however their names are spelled.
   */
  lemma FramingExactly(head: RequestHead, maxBody: nat, n: nat)
    ensures var encodings := Named(head.headers, "transfer-encoding");
            var lengths := Named(head.headers, "content-length");
            var chunked := head.version == Http11 && |encodings| == 1 && Padded(encodings[0], "chunked");
            var r := Framing(head, maxBody);
            && (r == Err(TransferEncodingUnsupported) <==> encodings != [] && !chunked)
            && (r == Err(ContentLengthWithChunked) <==> chunked && lengths != [])
            && (r == Ok(Chunked) <==> chunked && lengths == [])
            && (r == Err(InvalidContentLength) <==> encodings == [] && lengths != [] && !IsLength(lengths[0]))
            && (r == Err(DuplicateContentLength) <==> encodings == [] && |lengths| > 1 && IsLength(lengths[0]))
            && (r == Err(BodyTooLarge) <==>
                  encodings == [] && |lengths| == 1 && IsLength(lengths[0])
                  && DecimalValue(lengths[0]) > 0 && DecimalValue(lengths[0]) > maxBody)
            && (r == Ok(Fixed(n)) <==>
                  encodings == [] && |lengths| == 1 && IsLength(lengths[0])
                  && DecimalValue(lengths[0]) == n && 0 < n <= maxBody)
            && (r == Ok(NoBody) <==>
                  encodings == []
                  && (lengths == [] || (|lengths| == 1 && IsLength(lengths[0]) && DecimalValue(lengths[0]) == 0)))
  {
    hide Padded;
    hide Named;
    hide Values;
    hide EqIgnoreCase;
    hide Trim;
    hide AllDigits;
    hide DecimalValue;
    FramingWords(head);
  }

  lemma FramingWords(head: RequestHead)
    ensures Values(head.headers, TRANSFER_ENCODING) == Named(head.headers, "transfer-encoding")
    ensures Values(head.headers, CONTENT_LENGTH) == Named(head.headers, "content-length")
    ensures forall s: Text :: EqIgnoreCase(Trim(s), CHUNKED) <==> Padded(s, "chunked")
  {
    TransferEncodingSpelled();
    ContentLengthSpelled();
    ChunkedSpelled();
    LowerOf("transfer-encoding");
    LowerOf("content-length");
    hide Padded;
    hide Named;
    hide Values;
    hide EqIgnoreCase;
    hide Trim;
    hide BytesOf;
    hide PlainWord;
    hide LowerCase;
    NamedExactly(head.headers, TRANSFER_ENCODING, "transfer-encoding");
    NamedExactly(head.headers, CONTENT_LENGTH, "content-length");
    forall s: Text ensures EqIgnoreCase(Trim(s), CHUNKED) <==> Padded(s, "chunked") {
      PaddedExactly(s, CHUNKED, "chunked");
    }
  }

  /** Header `i`, and no other, announces how the body is framed: by its length `n`. */
  predicate Measures(head: RequestHead, i: nat, n: nat) {
    && i < |head.headers| && Spells(head.headers[i].name, "content-length") && head.headers[i].value == Decimal(n)
    && (forall j :: 0 <= j < |head.headers| && j != i ==> !Spells(head.headers[j].name, "content-length"))
    && (forall j :: 0 <= j < |head.headers| ==> !Spells(head.headers[j].name, "transfer-encoding"))
  }

  /** One header with the length of the body, its name in any mix of cases, frames that body. */
  lemma AnySpellingFrames(head: RequestHead, i: nat, n: nat, maxBody: nat)
    requires Measures(head, i, n) && 0 < n <= maxBody <= U64_MAX
    ensures Framing(head, maxBody) == Ok(Fixed(n))
  {
    hide Framing;
    OneNamed(head.headers, "content-length", i);
    FramingExactly(head, maxBody, n);
  }

  lemma {:induction false} OneNamed(headers: seq<Header>, word: string, i: nat)
    requires i < |headers| && Spells(headers[i].name, word)
    requires forall j :: 0 <= j < |headers| && j != i ==> !Spells(headers[j].name, word)
    ensures Named(headers, word) == [headers[i].value]
  {
    hide Spells;
    if i == 0 {
      assert forall j :: 0 <= j < |headers[1..]| ==> headers[1..][j] == headers[j + 1];
      assert Named(headers[1..], word) == [];
    } else {
      OneNamed(headers[1..], word, i - 1);
    }
  }
}
