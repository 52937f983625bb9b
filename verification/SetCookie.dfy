/** Cookies set by the server: constructors, builders and the `Set-Cookie` header value. */
module SetCookies {
  import opened Bytes
  import opened RequestHeads
  import opened BodyFraming
  import opened Cookies

  datatype SameSite = Strict | Lax | CrossSite

  datatype SessionSameSite = SessionLax | SessionStrict

  datatype CookiePrefix = HostPrefix | SecurePrefix

  datatype Cookie = Cookie(
    name: Text, value: Text, httpOnly: bool, secure: bool, sameSite: Option<SameSite>, path: Option<Text>,
    maxAge: Option<int>, prefix: Option<CookiePrefix>)
  {
    /** What browsers demand of a cookie with this name and these attributes. */
    predicate Obligations() {
      && (prefix == Some(HostPrefix) ==> secure && path == Some(ROOT))
      && (prefix == Some(SecurePrefix) ==> secure)
      && (sameSite == Some(CrossSite) ==> secure)
    }

    predicate Valid() {
      && Pair(name, value).WellFormed()
      && prefix == DetectPrefix(name)
      && (path.Some? ==> ValidPath(path.value))
      && Obligations()
    }
  }

  const SLASH: byte := 47
  const MINUS: byte := 45
  const ROOT: Text := [SLASH]
  const HOST_PREFIX: Text := [95, 95, 72, 111, 115, 116, 45] // "__Host-"
  const SECURE_PREFIX: Text := [95, 95, 83, 101, 99, 117, 114, 101, 45] // "__Secure-"
  const PATH: Text := [80, 97, 116, 104, 61] // "Path="
  const MAX_AGE: Text := [77, 97, 120, 45, 65, 103, 101, 61] // "Max-Age="
  const SAME_SITE: Text := [83, 97, 109, 101, 83, 105, 116, 101, 61] // "SameSite="
  const SECURE: Text := [83, 101, 99, 117, 114, 101] // "Secure"
  const HTTP_ONLY: Text := [72, 116, 116, 112, 79, 110, 108, 121] // "HttpOnly"
  const STRICT: Text := [83, 116, 114, 105, 99, 116] // "Strict"
  const LAX: Text := [76, 97, 120] // "Lax"
  const NONE: Text := [78, 111, 110, 101] // "None"

  function DetectPrefix(name: Text): Option<CookiePrefix> {
    if |name| >= |HOST_PREFIX| && EqIgnoreCase(name[..|HOST_PREFIX|], HOST_PREFIX) then Some(HostPrefix)
    else if |name| >= |SECURE_PREFIX| && EqIgnoreCase(name[..|SECURE_PREFIX|], SECURE_PREFIX) then Some(SecurePrefix)
    else None
  }

  predicate ValidPath(path: Text) {
    path != [] && path[0] == SLASH && forall i :: 0 <= i < |path| ==> path[i] != SEMI && 0x20 <= path[i] <= 0x7e
  }

  // ---- constructors and builders ----

  /** A constructor with its arguments. */
  datatype Start =
    | Plain(name: Text, value: Text)
    | Session(name: Text, value: Text, site: SessionSameSite)
    | SessionRemoval(name: Text, site: SessionSameSite)
    | HostPrefixed(name: Text, value: Text)
    | SecurePrefixed(name: Text, value: Text)

  function StartValue(start: Start): Text {
    if start.SessionRemoval? then [] else start.value
  }

  /** A builder with its argument. */
  datatype Builder = HttpOnly | Secure | SameSiteIs(site: SameSite) | PathIs(path: Text) | MaxAgeIs(seconds: int)

  function Built(name: Text, value: Text, prefix: Option<CookiePrefix>): Cookie {
    var path := if prefix == Some(HostPrefix) then Some(ROOT) else None;
    Cookie(name, value, false, prefix.Some?, None, path, None, prefix)
  }

  function SiteOf(site: SessionSameSite): SameSite {
    if site.SessionLax? then Lax else Strict
  }

  function SessionCookie(name: Text, value: Text, site: SessionSameSite): Cookie {
    Built(name, value, DetectPrefix(name))
      .(httpOnly := true, secure := true, path := Some(ROOT), sameSite := Some(SiteOf(site)))
  }

  function Started(start: Start): Result<Cookie, CookieError> {
    if start.name == [] || !AllTchar(start.name) then Err(InvalidName)
    else if !AllCookieOctets(StartValue(start)) then Err(InvalidValue)
    else
      match start
      case Plain(name, value) =>
        if DetectPrefix(name).Some? then Err(ReservedPrefix) else Ok(Built(name, value, None))
      case Session(name, value, site) => Ok(SessionCookie(name, value, site))
      case SessionRemoval(name, site) => Ok(SessionCookie(name, [], site).(maxAge := Some(0)))
      case HostPrefixed(name, value) =>
        if DetectPrefix(name) != Some(HostPrefix) then Err(PrefixMismatch) else Ok(Built(name, value, Some(HostPrefix)))
      case SecurePrefixed(name, value) =>
        if DetectPrefix(name) != Some(SecurePrefix) then Err(PrefixMismatch)
        else Ok(Built(name, value, Some(SecurePrefix)))
  }

  function Build(c: Cookie, b: Builder): Result<Cookie, CookieError> {
    match b
    case HttpOnly => Ok(c.(httpOnly := true))
    case Secure => Ok(c.(secure := true))
    case SameSiteIs(site) => Ok(c.(sameSite := Some(site), secure := c.secure || site == CrossSite))
    case PathIs(path) =>
      if !ValidPath(path) then Err(InvalidPath)
      else if c.prefix == Some(HostPrefix) && path != ROOT then Err(HostPrefixPath)
      else Ok(c.(path := Some(path)))
    case MaxAgeIs(seconds) => Ok(c.(maxAge := Some(seconds)))
  }

  /** A constructor followed by builders; the first error ends the chain. */
  function Chain(start: Start, builders: seq<Builder>): Result<Cookie, CookieError> {
    if builders == [] then Started(start)
    else
      match Chain(start, builders[..|builders| - 1])
      case Err(e) => Err(e)
      case Ok(c) => Build(c, builders[|builders| - 1])
  }

  lemma StartedIsValid(start: Start)
    requires Started(start).Ok?
    ensures Started(start).value.Valid()
    ensures Started(start).value.name == start.name && Started(start).value.value == StartValue(start)
  {
    hide DetectPrefix;
  }

  lemma BuildKeepsObligations(c: Cookie, b: Builder)
    requires c.Valid() && Build(c, b).Ok?
    ensures var c' := Build(c, b).value;
            c'.Valid() && c'.name == c.name && c'.value == c.value
  {
    hide DetectPrefix;
  }

  /** Every chain that succeeds keeps its cookie's obligations, and its name and value. */
  lemma {:induction false} ChainKeepsObligations(start: Start, builders: seq<Builder>)
    requires Chain(start, builders).Ok?
    ensures var c := Chain(start, builders).value;
            c.Valid() && c.name == start.name && c.value == StartValue(start)
  {
    hide Started;
    hide Build;
    hide Cookie.Valid;
    if builders == [] {
      StartedIsValid(start);
    } else {
      ChainKeepsObligations(start, builders[..|builders| - 1]);
      BuildKeepsObligations(Chain(start, builders[..|builders| - 1]).value, builders[|builders| - 1]);
    }
  }

  /** The cookie under construction, its fields updated in place. */
  class SetCookie {
    var name: Text
    var value: Text
    var httpOnly: bool
    var secure: bool
    var sameSite: Option<SameSite>
    var path: Option<Text>
    var maxAge: Option<int>
    var prefix: Option<CookiePrefix>

    function State(): Cookie
      reads this
    {
      Cookie(name, value, httpOnly, secure, sameSite, path, maxAge, prefix)
    }

    /** The cookie before any builder: a prefix brings its obligations with it. */
    constructor (name: Text, value: Text, prefix: Option<CookiePrefix>)
      requires Pair(name, value).WellFormed() && prefix == DetectPrefix(name)
      ensures State() == Built(name, value, prefix) && State().Valid()
    {
      this.name, this.value, this.prefix := name, value, prefix;
      httpOnly, sameSite, maxAge := false, None, None;
      match prefix {
        case Some(HostPrefix) => secure, path := true, Some(ROOT);
        case Some(SecurePrefix) => secure, path := true, None;
        case None => secure, path := false, None;
      }
    }

    method SetHttpOnly()
      modifies this
      ensures Ok(State()) == Build(old(State()), HttpOnly)
    {
      httpOnly := true;
    }

    method SetSecure()
      modifies this
      ensures Ok(State()) == Build(old(State()), Secure)
    {
      secure := true;
    }

    method SetSameSite(site: SameSite)
      modifies this
      ensures Ok(State()) == Build(old(State()), SameSiteIs(site))
    {
      if site == CrossSite {
        secure := true;
      }
      sameSite := Some(site);
    }

    method SetPath(newPath: Text) returns (error: Option<CookieError>)
      modifies this
      ensures match Build(old(State()), PathIs(newPath))
              case Ok(c) => error == None && State() == c
              case Err(e) => error == Some(e) && State() == old(State())
    {
      if !ValidPath(newPath) {
        return Some(InvalidPath);
      }
      if prefix == Some(HostPrefix) && newPath != ROOT {
        return Some(HostPrefixPath);
      }
      path := Some(newPath);
      return None;
    }

    method SetMaxAge(seconds: int)
      modifies this
      ensures Ok(State()) == Build(old(State()), MaxAgeIs(seconds))
    {
      maxAge := Some(seconds);
    }

    /** The header value, attribute by attribute. */
    method ToHeaderValue() returns (out: Text)
      ensures out == HeaderValue(State())
    {
      hide Join;
      hide Signed;
      hide SiteText;
      ghost var c := State();
      out := name + [EQUALS] + value;
      JoinOne(PairPart(c));
      ghost var parts := [PairPart(c)];
      if path.Some? {
        out := PushPart(out, parts, PATH + path.value);
      }
      parts := Extended(parts, PathPart(c));
      if maxAge.Some? {
        out := PushPart(out, parts, MAX_AGE + Signed(maxAge.value));
      }
      parts := Extended(parts, MaxAgePart(c));
      if sameSite.Some? {
        out := PushPart(out, parts, SAME_SITE + SiteText(sameSite.value));
      }
      parts := Extended(parts, SameSitePart(c));
      if secure {
        out := PushPart(out, parts, SECURE);
      }
      parts := Extended(parts, SecurePart(c));
      if httpOnly {
        out := PushPart(out, parts, HTTP_ONLY);
      }
      parts := Extended(parts, HttpOnlyPart(c));
    }
  }

  /** Appends one attribute to the value written so far. */
  method PushPart(out: Text, ghost parts: seq<Text>, part: Text) returns (out': Text)
    requires parts != [] && out == Join(parts)
    ensures out' == Join(parts + [part])
  {
    hide Join;
    JoinAppend(parts, [part]);
    out' := out + [SEMI, SP] + part;
  }

  /** The parts so far and at most one more. */
  function Extended(parts: seq<Text>, more: seq<Text>): (r: seq<Text>)
    ensures r == parts + more
    ensures more == [] ==> r == parts
  {
    assert more == [] ==> parts + more == parts;
    parts + more
  }

  /** A cookie made by one of the constructors, or the reason why not. */
  method Create(start: Start) returns (r: Result<SetCookie, CookieError>)
    ensures match Started(start)
            case Err(e) => r == Err(e)
            case Ok(c) => r.Ok? && fresh(r.value) && r.value.State() == c && c.Valid()
  {
    if start.name == [] || !AllTchar(start.name) {
      return Err(InvalidName);
    }
    var value := if start.SessionRemoval? then [] else start.value;
    if !AllCookieOctets(value) {
      return Err(InvalidValue);
    }
    var prefix := DetectPrefix(start.name);
    if start.Plain? && prefix.Some? {
      return Err(ReservedPrefix);
    }
    if (start.HostPrefixed? && prefix != Some(HostPrefix)) || (start.SecurePrefixed? && prefix != Some(SecurePrefix)) {
      return Err(PrefixMismatch);
    }
    var cookie := new SetCookie(start.name, value, prefix);
    if start.Session? || start.SessionRemoval? {
      cookie.httpOnly, cookie.secure, cookie.path := true, true, Some(ROOT);
      cookie.sameSite := Some(SiteOf(start.site));
      if start.SessionRemoval? {
        cookie.SetMaxAge(0);
      }
    }
    return Ok(cookie);
  }

  // ---- the header value ----

  function Signed(n: int): Text {
    if n < 0 then [MINUS] + Decimal(-n) else Decimal(n)
  }

  function SiteText(site: SameSite): Text {
    match site
    case Strict => STRICT
    case Lax => LAX
    case CrossSite => NONE
  }

  function PairPart(c: Cookie): Text {
    Pair(c.name, c.value).Written()
  }

  function PathPart(c: Cookie): seq<Text> {
    if c.path.Some? then [PATH + c.path.value] else []
  }

  function MaxAgePart(c: Cookie): seq<Text> {
    if c.maxAge.Some? then [MAX_AGE + Signed(c.maxAge.value)] else []
  }

  function SameSitePart(c: Cookie): seq<Text> {
    if c.sameSite.Some? then [SAME_SITE + SiteText(c.sameSite.value)] else []
  }

  function SecurePart(c: Cookie): seq<Text> {
    if c.secure then [SECURE] else []
  }

  function HttpOnlyPart(c: Cookie): seq<Text> {
    if c.httpOnly then [HTTP_ONLY] else []
  }

  /** The pair, then the attributes that are set, in this order. */
  function Parts(c: Cookie): seq<Text> {
    [PairPart(c)] + PathPart(c) + MaxAgePart(c) + SameSitePart(c) + SecurePart(c) + HttpOnlyPart(c)
  }

  function HeaderValue(c: Cookie): Text {
    Join(Parts(c))
  }

  lemma {:induction false} JoinAppend(parts: seq<Text>, more: seq<Text>)
    requires parts != [] && |more| == 1
    ensures Join(parts + more) == Join(parts) + [SEMI, SP] + more[0]
  {
    if |parts| == 1 {
      assert (parts + more)[1..] == more;
    } else {
      assert (parts + more)[1..] == parts[1..] + more;
      JoinAppend(parts[1..], more);
    }
  }

  lemma JoinOne(part: Text)
    ensures Join([part]) == part
  {
  }

  // ---- reading it back ----

  /** One attribute as a reader understands it. */
  function ReadAttribute(c: Cookie, part: Text): Cookie {
    if PATH <= part then c.(path := Some(part[|PATH|..]))
    else if MAX_AGE <= part then c.(maxAge := Some(SignedValue(part[|MAX_AGE|..])))
    else if part == SAME_SITE + STRICT then c.(sameSite := Some(Strict))
    else if part == SAME_SITE + LAX then c.(sameSite := Some(Lax))
    else if part == SAME_SITE + NONE then c.(sameSite := Some(CrossSite))
    else if part == SECURE then c.(secure := true)
    else if part == HTTP_ONLY then c.(httpOnly := true)
    else c
  }

  function SignedValue(s: Text): int {
    if s != [] && s[0] == MINUS then if AllDigits(s[1..]) then 0 - DecimalValue(s[1..]) else 0
    else if AllDigits(s) then DecimalValue(s)
    else 0
  }

  function ReadAttributes(c: Cookie, parts: seq<Text>): Cookie {
    if parts == [] then c else ReadAttribute(ReadAttributes(c, parts[..|parts| - 1]), parts[|parts| - 1])
  }

  /** The pieces without the space each of them begins with. */
  function Unspaced(pieces: seq<Text>): (parts: seq<Text>)
    ensures |parts| == |pieces|
    ensures forall i :: 0 <= i < |pieces| && pieces[i] != [] ==> parts[i] == pieces[i][1..]
  {
    if pieces == [] then [] else [if pieces[0] == [] then [] else pieces[0][1..]] + Unspaced(pieces[1..])
  }

  /** A reader of `Set-Cookie` values: the pair, then the attributes, one between every two semicolons. */
  function ReadSetCookie(header: Text): Result<Cookie, CookieError> {
    var pieces := SplitOn(header, [SEMI]);
    match ParseCookiePair(pieces[0])
    case Err(e) => Err(e)
    case Ok(p) => Ok(ReadAttributes(Bare(p.name, p.value), Unspaced(pieces[1..])))
  }

  function Bare(name: Text, value: Text): Cookie {
    Cookie(name, value, false, false, None, None, None, DetectPrefix(name))
  }

  lemma NoSemicolonInPath(c: Cookie)
    requires c.Valid() && c.path.Some?
    ensures SEMI !in PATH + c.path.value
  {
    assert forall i :: 0 <= i < |c.path.value| ==> c.path.value[i] != SEMI;
  }

  lemma NoSemicolonInMaxAge(n: int)
    ensures SEMI !in MAX_AGE + Signed(n)
  {
    var digits := Decimal(if n < 0 then -n else n);
    assert forall i :: 0 <= i < |digits| ==> digits[i] != SEMI;
  }

  predicate NoSemicolon(parts: seq<Text>) {
    forall part :: part in parts ==> SEMI !in part
  }

  lemma NoSemicolonInOwnParts(c: Cookie)
    requires c.Valid()
    ensures NoSemicolon([PairPart(c)]) && NoSemicolon(PathPart(c)) && NoSemicolon(MaxAgePart(c))
  {
    hide Cookie.Valid;
    hide Signed;
    PairIsWellFormed(c);
    NoEqualsInName(Pair(c.name, c.value));
    if c.path.Some? {
      NoSemicolonInPath(c);
    }
    if c.maxAge.Some? {
      NoSemicolonInMaxAge(c.maxAge.value);
    }
  }

  lemma NoSemicolonInConstantParts(c: Cookie)
    ensures NoSemicolon(SameSitePart(c)) && NoSemicolon(SecurePart(c)) && NoSemicolon(HttpOnlyPart(c))
  {
  }

  lemma NoSemicolonInParts(c: Cookie)
    requires c.Valid()
    ensures NoSemicolon(Parts(c))
  {
    hide Cookie.Valid;
    NoSemicolonInOwnParts(c);
    NoSemicolonInConstantParts(c);
    hide PathPart;
    hide MaxAgePart;
    hide SameSitePart;
    hide SecurePart;
    hide HttpOnlyPart;
    hide PairPart;
  }

  lemma PairIsWellFormed(c: Cookie)
    requires c.Valid()
    ensures Pair(c.name, c.value).WellFormed()
  {
  }

  /** Split at its semicolons, the header value is the pair and then the attributes, each after one space. */
  lemma HeaderSplits(c: Cookie)
    requires c.Valid()
    ensures var pieces := SplitOn(HeaderValue(c), [SEMI]);
            && |pieces| == |Parts(c)| && pieces[0] == PairPart(c)
            && (forall i :: 1 <= i < |pieces| ==> pieces[i] == [SP] + Parts(c)[i])
            && Unspaced(pieces[1..]) == Parts(c)[1..]
  {
    hide Cookie.Valid;
    hide SplitOn;
    hide Join;
    hide Unspaced;
    var parts := Parts(c);
    NoSemicolonInParts(c);
    SplitJoined([], parts);
    assert [] + Join(parts) == Join(parts);
    var pieces := Pieces([], parts);
    assert [] + parts[0] == parts[0];
    UnspacedPieces(pieces, parts);
  }

  lemma UnspacedPieces(pieces: seq<Text>, parts: seq<Text>)
    requires |pieces| == |parts| > 0 && forall i :: 1 <= i < |pieces| ==> pieces[i] == [SP] + parts[i]
    ensures Unspaced(pieces[1..]) == parts[1..]
  {
    forall i | 0 <= i < |parts| - 1 ensures Unspaced(pieces[1..])[i] == parts[1..][i] {
      assert pieces[1..][i] == [SP] + parts[i + 1];
    }
  }

  lemma ReadOptional(c: Cookie, parts: seq<Text>, more: seq<Text>)
    requires |more| <= 1
    ensures ReadAttributes(c, parts + more)
         == if more == [] then ReadAttributes(c, parts) else ReadAttribute(ReadAttributes(c, parts), more[0])
  {
    if more == [] {
      assert parts + more == parts;
    } else {
      assert (parts + more)[..|parts + more| - 1] == parts;
    }
  }

  lemma SignedRoundTrip(n: int)
    ensures SignedValue(Signed(n)) == n
  {
    if n < 0 {
      assert Signed(n)[1..] == Decimal(-n);
    } else {
      assert 48 <= Decimal(n)[0] <= 57;
    }
  }

  // Each attribute, if it is there, is read as what it was written for.

  lemma PathIsRead(c0: Cookie, parts: seq<Text>, d: Cookie)
    ensures var c := ReadAttributes(c0, parts);
            ReadAttributes(c0, parts + PathPart(d)) == if d.path.Some? then c.(path := d.path) else c
  {
    hide ReadAttributes;
    ReadOptional(c0, parts, PathPart(d));
    if d.path.Some? {
      assert (PATH + d.path.value)[|PATH|..] == d.path.value;
    }
  }

  lemma MaxAgeIsRead(c0: Cookie, parts: seq<Text>, d: Cookie)
    ensures var c := ReadAttributes(c0, parts);
            ReadAttributes(c0, parts + MaxAgePart(d)) == if d.maxAge.Some? then c.(maxAge := d.maxAge) else c
  {
    hide ReadAttributes;
    ReadOptional(c0, parts, MaxAgePart(d));
    hide Signed;
    hide SignedValue;
    if d.maxAge.Some? {
      SignedRoundTrip(d.maxAge.value);
      var part := MAX_AGE + Signed(d.maxAge.value);
      assert part[0] != PATH[0] && part[|MAX_AGE|..] == Signed(d.maxAge.value);
    }
  }

  lemma SameSiteIsRead(c0: Cookie, parts: seq<Text>, d: Cookie)
    ensures var c := ReadAttributes(c0, parts);
            ReadAttributes(c0, parts + SameSitePart(d)) == if d.sameSite.Some? then c.(sameSite := d.sameSite) else c
  {
    hide ReadAttributes;
    ReadOptional(c0, parts, SameSitePart(d));
    if d.sameSite.Some? {
      var part := SAME_SITE + SiteText(d.sameSite.value);
      assert part[0] == 83 && part[|SAME_SITE|..] == SiteText(d.sameSite.value);
      assert STRICT[0] == 83 && LAX[0] == 76 && NONE[0] == 78;
      assert (SAME_SITE + STRICT)[|SAME_SITE|..] == STRICT && (SAME_SITE + LAX)[|SAME_SITE|..] == LAX;
    }
  }

  lemma SecureIsRead(c0: Cookie, parts: seq<Text>, d: Cookie)
    ensures var c := ReadAttributes(c0, parts);
            ReadAttributes(c0, parts + SecurePart(d)) == if d.secure then c.(secure := true) else c
  {
    hide ReadAttributes;
    ReadOptional(c0, parts, SecurePart(d));
    assert SECURE[0] == 83 && SECURE[1] == 101 && SAME_SITE[1] == 97;
  }

  lemma HttpOnlyIsRead(c0: Cookie, parts: seq<Text>, d: Cookie)
    ensures var c := ReadAttributes(c0, parts);
            ReadAttributes(c0, parts + HttpOnlyPart(d)) == if d.httpOnly then c.(httpOnly := true) else c
  {
    hide ReadAttributes;
    ReadOptional(c0, parts, HttpOnlyPart(d));
    assert HTTP_ONLY[0] == 72;
  }

  lemma AttributesReadBack(c: Cookie)
    ensures ReadAttributes(Bare(c.name, c.value), Parts(c)[1..]) == c.(prefix := DetectPrefix(c.name))
  {
    hide DetectPrefix;
    hide ReadAttributes;
    hide PathPart;
    hide MaxAgePart;
    hide SameSitePart;
    hide SecurePart;
    hide HttpOnlyPart;
    var bare := Bare(c.name, c.value);
    var parts := [];
    ReadNothing(bare);
    PathIsRead(bare, parts, c);
    parts := parts + PathPart(c);
    MaxAgeIsRead(bare, parts, c);
    parts := parts + MaxAgePart(c);
    SameSiteIsRead(bare, parts, c);
    parts := parts + SameSitePart(c);
    SecureIsRead(bare, parts, c);
    parts := parts + SecurePart(c);
    HttpOnlyIsRead(bare, parts, c);
    parts := parts + HttpOnlyPart(c);
    assert Parts(c)[1..] == parts;
  }

  lemma ReadNothing(c: Cookie)
    ensures ReadAttributes(c, []) == c
  {
  }

  /** A valid cookie is read back from its header value, every attribute of it. */
  lemma HeaderValueReadsBack(c: Cookie)
    requires c.Valid()
    ensures ReadSetCookie(HeaderValue(c)) == Ok(c)
  {
    hide HeaderValue;
    hide SplitOn;
    hide ReadAttributes;
    hide ParseCookiePair;
    HeaderSplits(c);
    WrittenIsRead(Pair(c.name, c.value));
    AttributesReadBack(c);
  }

  /** Cookies built by any chains and sent back by a client are read as they were set. */
  lemma CookiesComeBack(cookies: seq<Cookie>, pairs: seq<Pair>)
    requires |pairs| == |cookies| > 0
    requires forall i :: 0 <= i < |cookies| ==>
               cookies[i].Valid() && pairs[i] == Pair(cookies[i].name, cookies[i].value)
    requires |cookies| <= MAX_COOKIE_COUNT && |Join(Texts(pairs))| <= MAX_COOKIE_STRING_BYTES
    ensures Parsed(Join(Texts(pairs))) == Ok(pairs)
    ensures forall i :: 0 <= i < |cookies| ==>
              ParseCookiePair(SplitOn(HeaderValue(cookies[i]), [SEMI])[0]) == Ok(pairs[i])
  {
    hide HeaderValue;
    hide SplitOn;
    hide ParseCookiePair;
    hide Parsed;
    hide Join;
    forall p | p in pairs ensures p.WellFormed() {
      var i :| 0 <= i < |pairs| && pairs[i] == p;
      assert cookies[i].Valid();
    }
    JoinedPairsParseBack(pairs);
    forall i | 0 <= i < |cookies| ensures ParseCookiePair(SplitOn(HeaderValue(cookies[i]), [SEMI])[0]) == Ok(pairs[i]) {
      HeaderSplits(cookies[i]);
      WrittenIsRead(pairs[i]);
    }
  }
}
