/** What a chain of builders leaves in the cookie, and what can stand in its header value. */
module CookieAttributes {
  import opened Bytes
  import opened RequestHeads
  import opened BodyFraming
  import opened HeaderNames
  import opened Cookies
  import opened SetCookies

  // ---- characters and names ----

  /** A cookie-octet is visible ASCII but for the quote, the comma, the semicolon and the backslash. */
  lemma CookieOctetExactly(b: byte)
    ensures IsCookieOctet(b) <==> 33 <= b <= 126 && b !in {34, 44, 59, 92}
  {
  }

  lemma PathExactly(path: Text)
    ensures ValidPath(path) <==>
              path != [] && path[0] == '/' as int && forall b :: b in path ==> 32 <= b < 127 && b != ';' as int
  {
    if forall b :: b in path ==> 32 <= b < 127 && b != ';' as int {
      assert forall i :: 0 <= i < |path| ==> path[i] in path;
    }
  }

  lemma HostPrefixSpelled()
    ensures BytesOf(HOST_PREFIX, "__Host-")
  {
  }

  lemma SecurePrefixSpelled()
    ensures BytesOf(SECURE_PREFIX, "__Secure-")
  {
  }

  lemma AttributesAreSpelled()
    ensures BytesOf(PATH, "Path=") && BytesOf(MAX_AGE, "Max-Age=") && BytesOf(SAME_SITE, "SameSite=")
    ensures BytesOf(SECURE, "Secure") && BytesOf(HTTP_ONLY, "HttpOnly")
  {
  }

  lemma SitesAreSpelled()
    ensures BytesOf(SiteText(Strict), "Strict") && BytesOf(SiteText(Lax), "Lax") && BytesOf(SiteText(CrossSite), "None")
  {
  }

  lemma HostPrefixExactly(name: Text)
    requires |name| >= 7
    ensures EqIgnoreCase(name[..7], HOST_PREFIX) <==> Spells(name[..7], "__host-")
  {
    EqIgnoreCaseExactly(name[..7], HOST_PREFIX);
  }

  lemma SecurePrefixExactly(name: Text)
    requires |name| >= 9
    ensures EqIgnoreCase(name[..9], SECURE_PREFIX) <==> Spells(name[..9], "__secure-")
    ensures EqIgnoreCase(name[..9], SECURE_PREFIX) ==> !EqIgnoreCase(name[..7], HOST_PREFIX)
  {
    EqIgnoreCaseExactly(name[..9], SECURE_PREFIX);
    assert name[..9][2] == name[..7][2];
  }

  /** The two reserved prefixes, in any mix of cases. */
  lemma DetectPrefixExactly(name: Text)
    ensures DetectPrefix(name) == Some(HostPrefix) <==> |name| >= 7 && Spells(name[..7], "__host-")
    ensures DetectPrefix(name) == Some(SecurePrefix) <==> |name| >= 9 && Spells(name[..9], "__secure-")
  {
    hide EqIgnoreCase;
    hide Spells;
    if |name| >= 7 {
      HostPrefixExactly(name);
    }
    if |name| >= 9 {
      SecurePrefixExactly(name);
    }
  }

  // ---- chains ----

  function LastSite(builders: seq<Builder>): Option<SameSite> {
    if builders == [] then None
    else if builders[|builders| - 1].SameSiteIs? then Some(builders[|builders| - 1].site)
    else LastSite(builders[..|builders| - 1])
  }

  function LastPath(builders: seq<Builder>): Option<Text> {
    if builders == [] then None
    else if builders[|builders| - 1].PathIs? then Some(builders[|builders| - 1].path)
    else LastPath(builders[..|builders| - 1])
  }

  function LastAge(builders: seq<Builder>): Option<int> {
    if builders == [] then None
    else if builders[|builders| - 1].MaxAgeIs? then Some(builders[|builders| - 1].seconds)
    else LastAge(builders[..|builders| - 1])
  }

  /** A session cookie, set or removed. */
  predicate ForSession(start: Start) {
    start.Session? || start.SessionRemoval?
  }

  /** The attributes of a cookie come from its constructor unless a builder sets them; the last one wins. */
  ghost predicate SetBy(c: Cookie, start: Start, builders: seq<Builder>) {
    && (c.httpOnly <==> ForSession(start) || HttpOnly in builders)
    && (c.secure <==>
          ForSession(start) || start.HostPrefixed? || start.SecurePrefixed? || Secure in builders
          || SameSiteIs(CrossSite) in builders)
    && c.sameSite == (
         if LastSite(builders).Some? then LastSite(builders)
         else if ForSession(start) then Some(if start.site == SessionLax then Lax else Strict)
         else None)
    && c.path == (
         if LastPath(builders).Some? then LastPath(builders)
         else if ForSession(start) || start.HostPrefixed? then Some(['/' as int])
         else None)
    && c.maxAge == (
         if LastAge(builders).Some? then LastAge(builders) else if start.SessionRemoval? then Some(0) else None)
  }

  lemma StartSets(start: Start)
    requires Started(start).Ok?
    ensures SetBy(Started(start).value, start, [])
  {
    hide DetectPrefix;
  }

  lemma BuilderSets(c: Cookie, start: Start, builders: seq<Builder>, b: Builder)
    requires SetBy(c, start, builders) && Build(c, b).Ok?
    ensures SetBy(Build(c, b).value, start, builders + [b])
  {
    hide ValidPath;
    hide LastSite;
    hide LastPath;
    hide LastAge;
    OneMoreBuilder(builders, b);
  }

  lemma OneMoreBuilder(builders: seq<Builder>, b: Builder)
    ensures LastSite(builders + [b]) == if b.SameSiteIs? then Some(b.site) else LastSite(builders)
    ensures LastPath(builders + [b]) == if b.PathIs? then Some(b.path) else LastPath(builders)
    ensures LastAge(builders + [b]) == if b.MaxAgeIs? then Some(b.seconds) else LastAge(builders)
  {
    var more := builders + [b];
    assert more[..|more| - 1] == builders && more[|more| - 1] == b;
  }

  /** Every chain that succeeds sets exactly the attributes its constructor and builders name. */
  lemma {:induction false} ChainSets(start: Start, builders: seq<Builder>)
    requires Chain(start, builders).Ok?
    ensures SetBy(Chain(start, builders).value, start, builders)
  {
    hide Started;
    hide Build;
    hide SetBy;
    if builders == [] {
      StartSets(start);
    } else {
      var n := |builders| - 1;
      ChainSets(start, builders[..n]);
      BuilderSets(Chain(start, builders[..n]).value, start, builders[..n], builders[n]);
      assert builders[..n] + [builders[n]] == builders;
    }
  }

  /** Which chains succeed: exactly those whose constructor does and whose paths are all allowed. */
  lemma {:induction false} ChainSucceedsExactly(start: Start, builders: seq<Builder>)
    ensures Chain(start, builders).Ok? <==>
              && Started(start).Ok?
              && forall i :: 0 <= i < |builders| && builders[i].PathIs? ==>
                   && ValidPath(builders[i].path)
                   && (DetectPrefix(start.name) == Some(HostPrefix) ==> builders[i].path == ROOT)
  {
    hide Started;
    hide ValidPath;
    hide DetectPrefix;
    hide Cookie.Valid;
    if builders != [] {
      var n := |builders| - 1;
      ChainSucceedsExactly(start, builders[..n]);
      if Chain(start, builders[..n]).Ok? {
        ChainKeepsObligations(start, builders[..n]);
        PrefixIsTheNames(Chain(start, builders[..n]).value);
      }
    }
  }

  lemma PrefixIsTheNames(c: Cookie)
    requires c.Valid()
    ensures c.prefix == DetectPrefix(c.name)
  {
  }

  // ---- the header value ----

  /** Visible ASCII and the space: nothing that could end a header line. */
  predicate Printable(s: Text) {
    forall i :: 0 <= i < |s| ==> 32 <= s[i] <= 126
  }

  lemma PairIsPrintable(c: Cookie)
    requires c.Valid()
    ensures Printable(PairPart(c))
  {
    forall i | 0 <= i < |PairPart(c)| ensures 32 <= PairPart(c)[i] <= 126 {
      if i < |c.name| {
        assert IsTchar(c.name[i]);
      } else if i > |c.name| {
        assert IsCookieOctet(c.value[i - |c.name| - 1]);
      }
    }
  }

  lemma AgeIsPrintable(n: int)
    ensures Printable(MAX_AGE + Signed(n))
  {
    var digits := Decimal(if n < 0 then -n else n);
    assert forall i :: 0 <= i < |digits| ==> 48 <= digits[i] <= 57;
  }

  predicate AllPrintable(parts: seq<Text>) {
    forall i :: 0 <= i < |parts| ==> Printable(parts[i])
  }

  lemma PartsArePrintable(c: Cookie)
    requires c.Valid()
    ensures AllPrintable([PairPart(c)]) && AllPrintable(PathPart(c)) && AllPrintable(MaxAgePart(c))
    ensures AllPrintable(SameSitePart(c)) && AllPrintable(SecurePart(c)) && AllPrintable(HttpOnlyPart(c))
  {
    hide Signed;
    PairIsPrintable(c);
    if c.maxAge.Some? {
      AgeIsPrintable(c.maxAge.value);
    }
  }

  lemma {:induction false} JoinIsPrintable(parts: seq<Text>)
    requires AllPrintable(parts)
    ensures Printable(Join(parts))
  {
    if |parts| > 1 {
      JoinIsPrintable(parts[1..]);
    }
  }

  /** The header value of a valid cookie holds no control character and no byte beyond ASCII. */
  lemma HeaderValueIsPrintable(c: Cookie)
    requires c.Valid()
    ensures Printable(HeaderValue(c))
  {
    hide Cookie.Valid;
    hide Join;
    hide Printable;
    PartsArePrintable(c);
    hide PairPart;
    hide PathPart;
    hide MaxAgePart;
    hide SameSitePart;
    hide SecurePart;
    hide HttpOnlyPart;
    JoinIsPrintable(Parts(c));
  }
}
