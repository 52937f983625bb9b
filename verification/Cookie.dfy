/** Cookies, read from `Cookie` headers (section 4.2.1 of RFC 6265). */
module Cookies {
  import opened Bytes
  import opened RequestHeads

  const MAX_COOKIE_COUNT: nat := 100
  const MAX_COOKIE_STRING_BYTES: nat := 8192

  const EQUALS: byte := 61
  const DQUOTE: byte := 34

  datatype CookieError =
    | InvalidCookiePair
    | TooManyCookies
    | CookieStringTooLarge
    | InvalidName
    | InvalidValue
    | InvalidPath
    | ReservedPrefix
    | PrefixMismatch
    | HostPrefixPath

  datatype Pair = Pair(name: Text, value: Text) {
    /** The pair as it is written. */
    function Written(): Text {
      name + [EQUALS] + value
    }

    /** The pair with its value in quotes, which readers take too. */
    function Quoted(): Text {
      name + [EQUALS, DQUOTE] + value + [DQUOTE]
    }

    predicate WellFormed() {
      name != [] && AllTchar(name) && AllCookieOctets(value)
    }
  }

  predicate IsCookieOctet(b: byte) {
    b == 0x21 || 0x23 <= b <= 0x2b || 0x2d <= b <= 0x3a || 0x3c <= b <= 0x5b || 0x5d <= b <= 0x7e
  }

  predicate AllCookieOctets(s: Text) {
    forall i :: 0 <= i < |s| ==> IsCookieOctet(s[i])
  }

  function ParseCookiePair(pair: Text): Result<Pair, CookieError> {
    var i := IndexOf(pair, EQUALS);
    if i == |pair| then Err(InvalidCookiePair)
    else
      var name, raw := pair[..i], pair[i + 1..];
      if name == [] || !AllTchar(name) then Err(InvalidCookiePair)
      else if raw != [] && raw[0] == DQUOTE then
        if |raw| < 2 || raw[|raw| - 1] != DQUOTE then Err(InvalidCookiePair)
        else if !AllCookieOctets(raw[1..|raw| - 1]) then Err(InvalidCookiePair)
        else Ok(Pair(name, raw[1..|raw| - 1]))
      else if !AllCookieOctets(raw) then Err(InvalidCookiePair)
      else Ok(Pair(name, raw))
  }

  lemma WrittenIsRead(p: Pair)
    requires p.WellFormed()
    ensures ParseCookiePair(p.Written()) == Ok(p)
  {
    NoEqualsInName(p);
    IndexOfUnique(p.name, EQUALS, p.value);
    assert p.value != [] ==> IsCookieOctet(p.value[0]);
    assert p.Written()[..|p.name|] == p.name && p.Written()[|p.name| + 1..] == p.value;
  }

  lemma QuotedIsRead(p: Pair)
    requires p.WellFormed()
    ensures ParseCookiePair(p.Quoted()) == Ok(p)
  {
    var raw := [DQUOTE] + p.value + [DQUOTE];
    NoEqualsInName(p);
    IndexOfUnique(p.name, EQUALS, raw);
    assert p.Quoted() == p.name + [EQUALS] + raw;
    assert p.Quoted()[..|p.name|] == p.name && p.Quoted()[|p.name| + 1..] == raw && raw[1..|raw| - 1] == p.value;
  }

  lemma ReadIsWritten(text: Text, p: Pair)
    requires ParseCookiePair(text) == Ok(p)
    ensures p.WellFormed() && (text == p.Written() || text == p.Quoted())
  {
    var i := IndexOf(text, EQUALS);
    var raw := text[i + 1..];
    assert text == text[..i] + [EQUALS] + raw;
    if raw != [] && raw[0] == DQUOTE {
      assert raw == [DQUOTE] + p.value + [DQUOTE];
    }
  }

  /** A text is read as a pair exactly if it is that pair, well-formed, plain or quoted. */
  lemma PairGrammar(text: Text, p: Pair)
    ensures ParseCookiePair(text) == Ok(p) <==> p.WellFormed() && (text == p.Written() || text == p.Quoted())
  {
    hide ParseCookiePair;
    if p.WellFormed() {
      WrittenIsRead(p);
      QuotedIsRead(p);
    }
    if ParseCookiePair(text) == Ok(p) {
      ReadIsWritten(text, p);
    }
  }

  lemma NoEqualsInName(p: Pair)
    requires p.WellFormed()
    ensures EQUALS !in p.name && SEMI !in p.Written()
  {
    forall b | b in p.name ensures b != EQUALS {
      var i :| 0 <= i < |p.name| && p.name[i] == b;
      assert IsTchar(p.name[i]);
    }
    forall b | b in p.Written() ensures b != SEMI {
      var i :| 0 <= i < |p.Written()| && p.Written()[i] == b;
      if i < |p.name| {
        assert IsTchar(p.name[i]);
      } else if i > |p.name| {
        assert IsCookieOctet(p.value[i - |p.name| - 1]);
      }
    }
  }

  // ---- lists joined with "; " ----

  /** Joined with a semicolon and a space. */
  function Join(parts: seq<Text>): Text {
    if parts == [] then []
    else if |parts| == 1 then parts[0]
    else parts[0] + [SEMI, SP] + Join(parts[1..])
  }

  /** What lies between the semicolons of `before + Join(parts)`. */
  function Pieces(before: Text, parts: seq<Text>): (pieces: seq<Text>)
    requires parts != []
    ensures |pieces| == |parts| && pieces[0] == before + parts[0]
    ensures forall i :: 1 <= i < |parts| ==> pieces[i] == [SP] + parts[i]
    decreases |parts|
  {
    if |parts| == 1 then [before + parts[0]] else [before + parts[0]] + Pieces([SP], parts[1..])
  }

  lemma JoinMore(before: Text, parts: seq<Text>)
    requires |parts| > 1
    ensures before + Join(parts) == before + parts[0] + [SEMI] + ([SP] + Join(parts[1..]))
  {
  }

  /** Splitting at the semicolons undoes the joining, up to the spaces. */
  lemma {:induction false} SplitJoined(before: Text, parts: seq<Text>)
    requires parts != [] && SEMI !in before && forall p :: p in parts ==> SEMI !in p
    ensures SplitOn(before + Join(parts), [SEMI]) == Pieces(before, parts)
    decreases |parts|
  {
    hide SplitOn;
    assert parts[0] in parts;
    if |parts| == 1 {
      SplitAtFirst(before + parts[0], SEMI, []);
    } else {
      hide Join;
      SplitJoined([SP], parts[1..]);
      SplitAtFirst(before + parts[0], SEMI, [SP] + Join(parts[1..]));
      JoinMore(before, parts);
    }
  }

  // ---- the whole header ----

  function TrimEach(parts: seq<Text>): (trimmed: seq<Text>)
    ensures |trimmed| == |parts|
    ensures forall i :: 0 <= i < |parts| ==> trimmed[i] == TrimOws(parts[i])
  {
    if parts == [] then [] else [TrimOws(parts[0])] + TrimEach(parts[1..])
  }

  function Segments(value: Text): (segments: seq<Text>)
    ensures |segments| > 0
  {
    TrimEach(SplitOn(value, [SEMI]))
  }

  /** `pairs` is what the segments say, one by one. */
  predicate Reads(segments: seq<Text>, pairs: seq<Pair>) {
    |pairs| == |segments| && forall i :: 0 <= i < |segments| ==> ParseCookiePair(segments[i]) == Ok(pairs[i])
  }

  /**
    Within the limits the header is the list of its pairs, all of them; one bad
    segment and nothing is read.
   */
  method ParseCookieHeader(value: Text) returns (r: Result<seq<Pair>, CookieError>)
    ensures |value| > MAX_COOKIE_STRING_BYTES <==> r == Err(CookieStringTooLarge)
    ensures |value| <= MAX_COOKIE_STRING_BYTES && |Segments(value)| > MAX_COOKIE_COUNT <==> r == Err(TooManyCookies)
    ensures r.Ok? ==> Reads(Segments(value), r.value)
    ensures r == Err(InvalidCookiePair) ==>
              exists segment :: segment in Segments(value) && ParseCookiePair(segment).Err?
    ensures r == Parsed(value)
  {
    if |value| > MAX_COOKIE_STRING_BYTES {
      return Err(CookieStringTooLarge);
    }
    var segments := Segments(value);
    if |segments| > MAX_COOKIE_COUNT {
      return Err(TooManyCookies);
    }
    var pairs := [];
    for k := 0 to |segments|
      invariant |pairs| == k
      invariant forall i :: 0 <= i < k ==> ParseCookiePair(segments[i]) == Ok(pairs[i])
    {
      match ParseCookiePair(segments[k])
      case Err(e) => return Err(e);
      case Ok(pair) => pairs := pairs + [pair];
    }
    ReadsUnique(segments, pairs);
    return Ok(pairs);
  }

  function Parsed(value: Text): Result<seq<Pair>, CookieError> {
    if |value| > MAX_COOKIE_STRING_BYTES then Err(CookieStringTooLarge)
    else if |Segments(value)| > MAX_COOKIE_COUNT then Err(TooManyCookies)
    else if exists segment :: segment in Segments(value) && ParseCookiePair(segment).Err? then Err(InvalidCookiePair)
    else Ok(PairsOf(Segments(value)))
  }

  function PairsOf(segments: seq<Text>): (pairs: seq<Pair>)
    requires forall segment :: segment in segments ==> ParseCookiePair(segment).Ok?
    ensures Reads(segments, pairs)
  {
    if segments == [] then [] else [ParseCookiePair(segments[0]).value] + PairsOf(segments[1..])
  }

  lemma ReadsUnique(segments: seq<Text>, pairs: seq<Pair>)
    requires Reads(segments, pairs)
    ensures forall segment :: segment in segments ==> ParseCookiePair(segment).Ok?
    ensures PairsOf(segments) == pairs
  {
  }

  function Texts(pairs: seq<Pair>): (texts: seq<Text>)
    ensures |texts| == |pairs|
    ensures forall i :: 0 <= i < |pairs| ==> texts[i] == pairs[i].Written()
  {
    if pairs == [] then [] else [pairs[0].Written()] + Texts(pairs[1..])
  }

  /** A written pair loses a space in front and nothing else. */
  lemma TrimWritten(p: Pair)
    requires p.WellFormed()
    ensures TrimOws(p.Written()) == p.Written() && TrimOws([SP] + p.Written()) == p.Written()
  {
    var w := p.Written();
    assert IsTchar(p.name[0]) && w[0] == p.name[0];
    if p.value != [] {
      assert IsCookieOctet(p.value[|p.value| - 1]) && w[|w| - 1] == p.value[|p.value| - 1];
    }
    assert ([SP] + w)[1..] == w;
  }

  lemma NoSemicolons(pairs: seq<Pair>)
    requires forall p :: p in pairs ==> p.WellFormed()
    ensures forall t :: t in Texts(pairs) ==> SEMI !in t
  {
    var texts := Texts(pairs);
    forall t | t in texts ensures SEMI !in t {
      var i :| 0 <= i < |texts| && texts[i] == t;
      NoEqualsInName(pairs[i]);
    }
  }

  lemma SegmentsOfJoined(pairs: seq<Pair>)
    requires pairs != [] && forall p :: p in pairs ==> p.WellFormed()
    ensures Segments(Join(Texts(pairs))) == Texts(pairs)
  {
    hide SplitOn;
    hide Join;
    hide TrimOws;
    var texts := Texts(pairs);
    NoSemicolons(pairs);
    SplitJoined([], texts);
    assert [] + Join(texts) == Join(texts);
    var pieces := Pieces([], texts);
    forall i | 0 <= i < |texts| ensures TrimOws(pieces[i]) == texts[i] {
      TrimWritten(pairs[i]);
      assert i == 0 ==> pieces[i] == texts[i];
    }
  }

  /** Well-formed pairs, joined, are read back as they were, exactly when they are within the limits. */
  lemma JoinedPairsParseBack(pairs: seq<Pair>)
    requires forall p :: p in pairs ==> p.WellFormed()
    ensures var written := Join(Texts(pairs));
            Parsed(written) ==
              if |written| > 8192 then Err(CookieStringTooLarge)
              else if |pairs| > 100 then Err(TooManyCookies)
              else if pairs == [] then Err(InvalidCookiePair)
              else Ok(pairs)
  {
    if pairs == [] {
      SplitAtFirst([], SEMI, []);
      assert Segments([])[0] == [];
      assert ParseCookiePair([]).Err?;
    } else {
      var texts := Texts(pairs);
      SegmentsOfJoined(pairs);
      forall i | 0 <= i < |texts| ensures ParseCookiePair(texts[i]) == Ok(pairs[i]) {
        PairGrammar(texts[i], pairs[i]);
      }
      assert Reads(texts, pairs);
      ReadsUnique(texts, pairs);
    }
  }

  /** Whatever is read is well-formed, and written out again is read the same, if it still fits. */
  lemma ParsedPairsAreWellFormed(value: Text)
    requires Parsed(value).Ok?
    ensures var pairs := Parsed(value).value;
            && 1 <= |pairs| <= MAX_COOKIE_COUNT
            && (forall p :: p in pairs ==> p.WellFormed())
            && (|Join(Texts(pairs))| <= MAX_COOKIE_STRING_BYTES ==> Parsed(Join(Texts(pairs))) == Ok(pairs))
  {
    var segments, pairs := Segments(value), Parsed(value).value;
    assert Reads(segments, pairs);
    forall p | p in pairs ensures p.WellFormed() {
      var i :| 0 <= i < |pairs| && pairs[i] == p;
      PairGrammar(segments[i], p);
    }
    JoinedPairsParseBack(pairs);
  }
}
