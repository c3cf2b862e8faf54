/** normalized_origin and canonical_origin_url of oauth_dcr.py as a parser and a printer: what
    origins the parser can produce, when parsing the printed form gives the origin back, and
    that two origins never print alike. */
module Origins {
  import opened Wrappers
  import opened Text
  import opened Urls

  /** Characters that never end up in a parsed host. */
  predicate HostChar(c: char) { !EndsAuthority(c) && !Unsafe(c) && c != '@' }

  predicate AllHostChars(s: string) {
    s == "" || (HostChar(s[|s| - 1]) && AllHostChars(s[..|s| - 1]))
  }

  /** Every origin normalized_origin can produce: see RangeOfNormalizedOrigin. A host with a
      colon came out of brackets. */
  ghost predicate InRange(hosts: Hosts, o: Origin) {
    && o.scheme != "" && IsAlpha(o.scheme[0]) && AllSchemeChars(o.scheme) && Lower(o.scheme) == o.scheme
    && o.host != "" && LowerHost(o.host) == o.host
    && AllHostChars(o.host)
    && (':' in o.host ==> ']' !in o.host && hosts.BracketHostOk(o.host))
    && !('[' in o.host && ']' in o.host)
    && o.port <= 65535
  }

  /** The hosts whose printed form parses: bracketed again, or free of brackets. */
  predicate Reparses(o: Origin) {
    ':' in o.host || ('[' !in o.host && ']' !in o.host)
  }

  // ---- the printed form, piece by piece -----------------------------------------------

  lemma {:induction false} SchemeCharsOnly(s: string, c: char)
    requires AllSchemeChars(s) && c in s
    ensures SchemeChar(c)
  {
    if c != s[|s| - 1] {
      SchemeCharsOnly(s[..|s| - 1], c);
    }
  }

  lemma {:induction false} DropUnsafeIdentity(s: string)
    requires forall c | c in s :: !Unsafe(c)
    ensures DropUnsafe(s) == s
  {
    if s != "" {
      assert s == s[..|s| - 1] + [s[|s| - 1]];
      DropUnsafeIdentity(s[..|s| - 1]);
    }
  }

  lemma NothingEnds(s: string, n: nat)
    requires n <= |s| && forall k | n <= k < |s| :: !EndsAuthority(s[k])
    ensures AuthorityEnd(s, n) == |s|
  {
  }

  /** Where the authority ends when nothing in it ends one. */
  lemma WholeAuthority(auth: string)
    requires forall c | c in auth :: !EndsAuthority(c)
    ensures SplitAuthority("//" + auth) == (auth, "")
  {
    var s := "//" + auth;
    assert forall k | 2 <= k < |s| :: s[k] == auth[k - 2] && !EndsAuthority(s[k]);
    NothingEnds(s, 2);
    assert s[2..|s|] == auth && s[|s|..] == "";
  }

  lemma {:induction false} HostCharsOnly(s: string, c: char)
    requires AllHostChars(s) && c in s
    ensures HostChar(c)
  {
    if c != s[|s| - 1] {
      HostCharsOnly(s[..|s| - 1], c);
    }
  }

  /** The characters a printed authority adds to the host's. */
  lemma AuthorityCharacters(o: Origin, c: char)
    requires AllHostChars(o.host) && c in Authority(o)
    ensures c in o.host || IsDigit(c) || c == ':' || ((c == '[' || c == ']') && ':' in o.host)
    ensures HostChar(c)
  {
    if c in o.host {
      HostCharsOnly(o.host, c);
    }
    if c in PortText(o) && c != ':' {
      DigitsOnly(Decimal(o.port), c);
    }
  }

  lemma SchemeSplits(scheme: string, rest: string)
    requires scheme != "" && IsAlpha(scheme[0]) && AllSchemeChars(scheme) && Lower(scheme) == scheme
    ensures SplitScheme(scheme + ":" + rest) == (scheme, rest)
  {
    if ':' in scheme {
      SchemeCharsOnly(scheme, ':');
    }
    PartitionSplits(scheme, ':', rest);
    var s := scheme + ":" + rest;
    assert s == scheme + [':'] + rest;
    assert s[..|scheme|] == scheme && s[0] == scheme[0];
    assert Partition(s, ':').head == s[..IndexOf(s, ':')];
    assert IndexOf(s, ':') == |scheme|;
    assert s[|scheme| + 1..] == rest;
  }

  lemma SafeText(scheme: string, auth: string, c: char)
    requires AllSchemeChars(scheme) && forall x | x in auth :: HostChar(x)
    requires c in scheme + "://" + auth
    ensures !Unsafe(c)
  {
    if c in scheme {
      SchemeCharsOnly(scheme, c);
    }
  }

  lemma CleanTextIsKept(text: string)
    requires text != "" && text[0] > ' ' && forall c | c in text :: !Unsafe(c)
    ensures DropUnsafe(StripLead(text)) == text
  {
    DropUnsafeIdentity(text);
  }

  /** Text of a scheme and an authority is taken apart into the two. */
  lemma FormSplits(scheme: string, auth: string)
    requires scheme != "" && IsAlpha(scheme[0]) && AllSchemeChars(scheme) && Lower(scheme) == scheme
    requires forall c | c in auth :: HostChar(c)
    ensures SplitScheme(DropUnsafe(StripLead(scheme + "://" + auth))) == (scheme, "//" + auth)
  {
    hide DropUnsafe, StripLead, SplitScheme, HostChar, Unsafe;
    var text := scheme + "://" + auth;
    assert text[0] == scheme[0];
    assert DropUnsafe(StripLead(text)) == text by {
      forall c | c in text ensures !Unsafe(c) {
        SafeText(scheme, auth, c);
      }
      CleanTextIsKept(text);
    }
    var rest := "//" + auth;
    assert text == scheme + ":" + rest;
    SchemeSplits(scheme, rest);
  }

  /** Parsing a printed origin sees its scheme and its authority and nothing else. */
  lemma PrintedFormSplits(hosts: Hosts, o: Origin)
    requires InRange(hosts, o)
    ensures SplitScheme(DropUnsafe(StripLead(CanonicalOriginUrl(o)))) == (o.scheme, "//" + Authority(o))
    ensures SplitAuthority("//" + Authority(o)) == (Authority(o), "")
  {
    forall c | c in Authority(o) ensures HostChar(c) {
      AuthorityCharacters(o, c);
    }
    WholeAuthority(Authority(o));
    FormSplits(o.scheme, Authority(o));
  }

  /** The digits of a port the printer writes, empty for the scheme's default. */
  function PortDigits(o: Origin): string {
    if HasDefaultPort(o) then "" else Decimal(o.port)
  }

  lemma PortTextSplits(o: Origin)
    ensures Partition(PortText(o), ':').tail == PortDigits(o)
  {
    PartitionSplits("", ':', Decimal(o.port));
    assert "" + [':'] + Decimal(o.port) == ":" + Decimal(o.port);
    PartitionSplits("", ':', "");
  }

  lemma NoUserinfo(auth: string)
    requires '@' !in auth
    ensures RPartition(auth, '@').tail == auth
  {
    RPartitionSplits("", '@', auth);
  }

  /** A bracketed authority cuts at its own brackets. */
  lemma BracketedAuthorityCuts(hosts: Hosts, host: string, port: string)
    requires ']' !in host && '@' !in port && '@' !in host && hosts.BracketHostOk(host)
    requires port == "" || port[0] == ':'
    ensures HostInfo("[" + host + "]" + port) == (host, Partition(port, ':').tail)
    ensures hosts.BracketsOk("[" + host + "]" + port)
  {
    var auth := "[" + host + "]" + port;
    NoUserinfo(auth);
    PartitionSplits("", '[', host + "]" + port);
    assert auth == "" + ['['] + (host + "]" + port);
    PartitionSplits(host, ']', port);
    assert host + "]" + port == host + [']'] + port;
  }

  /** A bare authority cuts at its first colon. */
  lemma BareHostIsRecovered(o: Origin)
    requires ':' !in o.host
    ensures Partition(Authority(o), ':') == Cut(o.host, !HasDefaultPort(o), PortDigits(o))
  {
    PartitionSplits(o.host, ':', Decimal(o.port));
    assert o.host + ":" + Decimal(o.port) == o.host + [':'] + Decimal(o.port);
    assert o.host + (":" + Decimal(o.port)) == o.host + ":" + Decimal(o.port);
    assert o.host + "" == o.host;
  }

  lemma BareAuthorityCuts(o: Origin)
    requires AllHostChars(o.host) && ':' !in o.host && '[' !in o.host
    ensures HostInfo(Authority(o)) == (o.host, PortDigits(o))
  {
    var auth := Authority(o);
    forall c | c in auth ensures c != '@' && c != '[' {
      AuthorityCharacters(o, c);
    }
    NoUserinfo(auth);
    PartitionSplits(auth, '[', "");
    BareHostIsRecovered(o);
  }

  lemma NoAtSign(o: Origin)
    requires AllHostChars(o.host)
    ensures '@' !in PortText(o) && '@' !in o.host
  {
    if '@' in PortText(o) { DigitsOnly(Decimal(o.port), '@'); }
    if '@' in o.host { HostCharsOnly(o.host, '@'); }
  }

  /** Cutting a printed authority gives the host and the port text back. */
  lemma PrintedAuthorityCuts(hosts: Hosts, o: Origin)
    requires InRange(hosts, o) && Reparses(o)
    ensures HostInfo(Authority(o)) == (o.host, PortDigits(o))
    ensures ':' in o.host ==> hosts.BracketsOk(Authority(o))
  {
    if ':' in o.host {
      NoAtSign(o);
      PortTextSplits(o);
      BracketedAuthorityCuts(hosts, o.host, PortText(o));
    } else {
      BareAuthorityCuts(o);
    }
  }

  /** Brackets in a printed authority are the printer's own or the host's. */
  lemma PrintedBrackets(o: Origin)
    requires AllHostChars(o.host)
    ensures '[' in Authority(o) <==> ':' in o.host || '[' in o.host
    ensures ']' in Authority(o) <==> ':' in o.host || ']' in o.host
  {
    var auth := Authority(o);
    if '[' in auth { AuthorityCharacters(o, '['); }
    if ']' in auth { AuthorityCharacters(o, ']'); }
    assert forall c | c in UrlHost(o.host) :: c in auth;
    if ':' in o.host {
      assert UrlHost(o.host)[0] == '[' && UrlHost(o.host)[|o.host| + 1] == ']';
    }
  }

  // ---- printing and parsing -------------------------------------------------------------

  lemma PrintedFormParses(hosts: Hosts, o: Origin)
    requires InRange(hosts, o)
    ensures hosts.UrlParse(CanonicalOriginUrl(o)) ==
            if Reparses(o) then Some(Url(o.scheme, Authority(o), "", "", "", "")) else None
  {
    PrintedFormSplits(hosts, o);
    PrintedBrackets(o);
    if Reparses(o) {
      PrintedAuthorityCuts(hosts, o);
      PartitionSplits("", '#', "");
      PartitionSplits("", '?', "");
    }
  }

  /** Parsing undoes printing for every origin the normalizer can produce whose host is
      bracketed again or free of brackets, and raises for every other one. */
  lemma NormalizeUndoesCanonical(hosts: Hosts, o: Origin)
    requires InRange(hosts, o)
    ensures hosts.NormalizedOrigin(CanonicalOriginUrl(o)) == if Reparses(o) then At(o) else Raised
  {
    hide Hosts.UrlParse, Hosts.OriginOf, InRange, CanonicalOriginUrl, Authority;
    PrintedFormParses(hosts, o);
    if Reparses(o) { PrintedOriginReads(hosts, o, Url(o.scheme, Authority(o), "", "", "", "")); }
  }

  lemma PrintedOriginReads(hosts: Hosts, o: Origin, url: Url)
    requires InRange(hosts, o) && Reparses(o) && url.scheme == o.scheme && url.netloc == Authority(o)
    ensures Hosts.OriginOf(url) == At(o)
    ensures Hostname(url.netloc) == Some(o.host) && PortOf(url.netloc) != BadPort
  {
    hide HostInfo, LowerHost, Authority, Hosts.BracketHostOk, AllSchemeChars, AllHostChars, DecimalValue, Decimal;
    PrintedAuthorityCuts(hosts, o);
    DecimalRoundTrip(o.port);
  }

  /** Two origins never share a printed form. */
  lemma CanonicalIsInjective(hosts: Hosts, a: Origin, b: Origin)
    requires InRange(hosts, a) && InRange(hosts, b)
    requires CanonicalOriginUrl(a) == CanonicalOriginUrl(b)
    ensures a == b
  {
    NormalizeUndoesCanonical(hosts, a);
    NormalizeUndoesCanonical(hosts, b);
    if !Reparses(a) {
      PrintedFormSplits(hosts, a);
      PrintedFormSplits(hosts, b);
      assert Authority(a) == ("//" + Authority(a))[2..];
      assert Authority(b) == ("//" + Authority(b))[2..];
      BareHostIsRecovered(a);
      BareHostIsRecovered(b);
      DecimalRoundTrip(a.port);
      DecimalRoundTrip(b.port);
    }
  }

  // ---- what the normalizer produces -------------------------------------------------------

  lemma {:induction false} DropUnsafeDrops(s: string, c: char)
    requires c in DropUnsafe(s)
    ensures !Unsafe(c)
  {
    if c in DropUnsafe(s[..|s| - 1]) {
      DropUnsafeDrops(s[..|s| - 1], c);
    }
  }

  lemma {:induction false} LowerSchemeChars(s: string)
    requires AllSchemeChars(s)
    ensures AllSchemeChars(Lower(s))
  {
    if s != "" {
      LowerSchemeChars(s[..|s| - 1]);
      assert Lower(s)[..|s| - 1] == Lower(s[..|s| - 1]);
    }
  }

  lemma PartitionPieces(s: string, c: char)
    ensures var p := Partition(s, c);
            && c !in p.head
            && (forall x | x in p.head :: x in s) && (forall x | x in p.tail :: x in s)
            && (p.found <==> c in s)
  {
    var i := IndexOf(s, c);
    assert forall k | 0 <= k < i :: s[..i][k] == s[k];
  }

  lemma RPartitionPieces(s: string, c: char)
    ensures var p := RPartition(s, c);
            c !in p.tail && (forall x | x in p.tail :: x in s)
  {
    var i := LastIndexOf(s, c);
    assert forall k | i < k < |s| :: s[i + 1..][k - i - 1] == s[k];
  }

  /** Lower-casing keeps every character that is not a letter, and adds none. */
  lemma LowerHostCharacters(h: string, c: char)
    requires !IsAlpha(c)
    ensures c in LowerHost(h) <==> c in h
  {
    var zone := Partition(h, '%');
    var i := IndexOf(h, '%');
    assert h == zone.head + (if zone.found then "%" + zone.tail else "");
    assert forall k | 0 <= k < |zone.head| :: LowerChar(zone.head[k]) == c <==> zone.head[k] == c;
    if c in zone.head {
      var k :| 0 <= k < |zone.head| && zone.head[k] == c;
      assert Lower(zone.head)[k] == c;
    }
  }

  lemma LowerHostIdempotent(h: string)
    ensures LowerHost(LowerHost(h)) == LowerHost(h)
  {
    var zone := Partition(h, '%');
    PartitionPieces(h, '%');
    assert '%' !in Lower(zone.head) by {
      assert forall k | 0 <= k < |zone.head| :: Lower(zone.head)[k] == LowerChar(zone.head[k]);
    }
    LowerIdempotent(zone.head);
    PartitionSplits(Lower(zone.head), '%', zone.tail);
    assert Lower(zone.head) + "%" + zone.tail == Lower(zone.head) + ['%'] + zone.tail;
    assert Lower(zone.head) + ("%" + zone.tail) == Lower(zone.head) + "%" + zone.tail;
    assert Lower(zone.head) + "" == Lower(zone.head);
  }

  lemma LowerHostByCharacter(h: string)
    ensures |LowerHost(h)| == |h|
    ensures forall k | 0 <= k < |h| :: LowerHost(h)[k] == h[k] || LowerHost(h)[k] == LowerChar(h[k])
  {
    var zone := Partition(h, '%');
    assert h == zone.head + (if zone.found then "%" + zone.tail else "");
  }

  lemma {:induction false} HexRunLower(h: string, n: nat)
    requires n <= |h| == |LowerHost(h)|
    ensures HexRun(LowerHost(h), n) == HexRun(h, n)
    decreases |h| - n
  {
    LowerHostByCharacter(h);
    if n < |h| && HexDigit(h[n]) {
      HexRunLower(h, n + 1);
    }
  }

  /** Lower-casing a host brackets may hold leaves a host brackets may hold. */
  lemma BracketHostLower(hosts: Hosts, h: string)
    requires hosts.Lawful() && hosts.BracketHostOk(h)
    ensures hosts.BracketHostOk(LowerHost(h))
  {
    LowerHostByCharacter(h);
    if h != "" && h[0] == 'v' {
      HexRunLower(h, 1);
    }
  }

  lemma {:induction false} HostCharsFromMembers(s: string)
    requires forall c | c in s :: HostChar(c)
    ensures AllHostChars(s)
  {
    if s != "" {
      assert s[|s| - 1] in s;
      assert forall c | c in s[..|s| - 1] :: c in s;
      HostCharsFromMembers(s[..|s| - 1]);
    }
  }

  lemma {:induction false} StripLeadSuffix(s: string, c: char)
    requires c in StripLead(s)
    ensures c in s
  {
    if s != "" && s[0] <= ' ' {
      StripLeadSuffix(s[1..], c);
    }
  }

  /** A scheme that is found is lower-case scheme text starting with a letter. */
  lemma SchemeRange(s: string)
    ensures var (scheme, rest) := SplitScheme(s);
            && (scheme != "" ==> IsAlpha(scheme[0]) && AllSchemeChars(scheme) && Lower(scheme) == scheme)
            && forall c | c in rest :: c in s
  {
    var i := IndexOf(s, ':');
    if 0 < i < |s| && IsAlpha(s[0]) && AllSchemeChars(s[..i]) {
      LowerSchemeChars(s[..i]);
      LowerIdempotent(s[..i]);
      assert Lower(s[..i])[0] == LowerChar(s[0]);
    }
  }

  lemma AuthorityRange(s: string, c: char)
    requires c in SplitAuthority(s).0
    ensures c in s && !EndsAuthority(c)
  {
    var i := AuthorityEnd(s, 2);
    var k :| 2 <= k < i && s[2..i][k - 2] == c;
    assert s[k] == c;
  }

  /** What a cut-out host can hold: no "@", and a colon only from between brackets. */
  lemma RawHostRange(netloc: string)
    ensures var host, info := HostInfo(netloc).0, RPartition(netloc, '@').tail;
            && (forall c | c in host :: c in netloc && c != '@')
            && ('[' in info ==> '[' in netloc && ']' !in host)
            && ('[' !in info ==> '[' !in host && ':' !in host)
  {
    var info := RPartition(netloc, '@').tail;
    RPartitionPieces(netloc, '@');
    PartitionPieces(info, '[');
    PartitionPieces(Partition(info, '[').tail, ']');
    PartitionPieces(info, ':');
  }

  /** The host brackets held, where the parse succeeded. */
  lemma BracketedHostRange(hosts: Hosts, netloc: string)
    requires hosts.Lawful() && hosts.BracketsOk(netloc) && '[' in RPartition(netloc, '@').tail
    ensures hosts.BracketHostOk(LowerHost(HostInfo(netloc).0))
  {
    PartitionPieces(RPartition(netloc, '@').tail, '[');
    BracketHostLower(hosts, HostInfo(netloc).0);
  }

  lemma HostRange(hosts: Hosts, netloc: string)
    requires hosts.Lawful() && HostInfo(netloc).0 != ""
    requires forall c | c in netloc :: !EndsAuthority(c) && !Unsafe(c)
    requires '[' in netloc ==> hosts.BracketsOk(netloc)
    ensures var host := LowerHost(HostInfo(netloc).0);
            && host != "" && LowerHost(host) == host && AllHostChars(host)
            && (':' in host ==> ']' !in host && hosts.BracketHostOk(host))
            && !('[' in host && ']' in host)
  {
    var raw := HostInfo(netloc).0;
    var host := LowerHost(raw);
    RawHostRange(netloc);
    LowerHostIdempotent(raw);
    LowerHostByCharacter(raw);
    forall c | c in host ensures HostChar(c) {
      if !IsAlpha(c) {
        LowerHostCharacters(raw, c);
      }
    }
    HostCharsFromMembers(host);
    LowerHostCharacters(raw, ':');
    LowerHostCharacters(raw, '[');
    LowerHostCharacters(raw, ']');
    if ':' in host {
      BracketedHostRange(hosts, netloc);
    }
  }

  lemma ParsedAuthorityRange(hosts: Hosts, uri: string)
    requires hosts.UrlParse(uri).Some?
    ensures var netloc := hosts.UrlParse(uri).value.netloc;
            && (forall c | c in netloc :: !EndsAuthority(c) && !Unsafe(c))
            && ('[' in netloc ==> hosts.BracketsOk(netloc))
  {
    var clean := DropUnsafe(StripLead(uri));
    SchemeRange(clean);
    var netloc := hosts.UrlParse(uri).value.netloc;
    assert netloc == SplitAuthority(SplitScheme(clean).1).0;
    forall c | c in netloc ensures !EndsAuthority(c) && !Unsafe(c) {
      AuthorityRange(SplitScheme(clean).1, c);
      DropUnsafeDrops(StripLead(uri), c);
    }
  }

  lemma ParsedSchemeRange(hosts: Hosts, uri: string)
    requires hosts.UrlParse(uri).Some?
    ensures var scheme := hosts.UrlParse(uri).value.scheme;
            scheme != "" ==> IsAlpha(scheme[0]) && AllSchemeChars(scheme) && Lower(scheme) == scheme
  {
    SchemeRange(DropUnsafe(StripLead(uri)));
  }

  /** Every origin the normalizer answers with lies in the range the printer was judged on. */
  lemma RangeOfNormalizedOrigin(hosts: Hosts, uri: string)
    requires hosts.Lawful() && hosts.NormalizedOrigin(uri).At?
    ensures InRange(hosts, hosts.NormalizedOrigin(uri).origin)
  {
    hide Hosts.UrlParse;
    ParsedSchemeRange(hosts, uri);
    ParsedAuthorityRange(hosts, uri);
    HostRange(hosts, hosts.UrlParse(uri).value.netloc);
  }

  /** For every URI with an origin: printing that origin and normalizing again gives the same
      origin exactly when its host is bracketed again or free of brackets. */
  lemma OriginRoundTrip(hosts: Hosts, uri: string)
    requires hosts.Lawful() && hosts.NormalizedOrigin(uri).At?
    ensures var o := hosts.NormalizedOrigin(uri).origin;
            hosts.NormalizedOrigin(CanonicalOriginUrl(o)) == At(o) <==> Reparses(o)
  {
    RangeOfNormalizedOrigin(hosts, uri);
    NormalizeUndoesCanonical(hosts, hosts.NormalizedOrigin(uri).origin);
  }

  /** Two URIs print the same canonical origin exactly when they have the same origin. */
  lemma SameCanonicalSameOrigin(hosts: Hosts, a: string, b: string)
    requires hosts.Lawful() && hosts.NormalizedOrigin(a).At? && hosts.NormalizedOrigin(b).At?
    ensures CanonicalOriginUrl(hosts.NormalizedOrigin(a).origin) == CanonicalOriginUrl(hosts.NormalizedOrigin(b).origin)
       <==> hosts.NormalizedOrigin(a) == hosts.NormalizedOrigin(b)
  {
    RangeOfNormalizedOrigin(hosts, a);
    RangeOfNormalizedOrigin(hosts, b);
    if CanonicalOriginUrl(hosts.NormalizedOrigin(a).origin) == CanonicalOriginUrl(hosts.NormalizedOrigin(b).origin) {
      CanonicalIsInjective(hosts, hosts.NormalizedOrigin(a).origin, hosts.NormalizedOrigin(b).origin);
    }
  }

  /** The authority ends where a path, a query or a fragment starts. */
  lemma RestEndsAuthority(auth: string, rest: string)
    requires (forall c | c in auth :: HostChar(c)) && (rest == "" || EndsAuthority(rest[0]))
    ensures SplitAuthority("//" + auth + rest) == (auth, rest)
  {
    if rest == "" {
      assert "//" + auth + rest == "//" + auth;
      WholeAuthority(auth);
    } else {
      var s := "//" + auth + rest;
      assert forall k | 2 <= k < |auth| + 2 :: s[k] == auth[k - 2] && auth[k - 2] in auth;
      assert s[|auth| + 2] == rest[0];
      assert AuthorityEnd(s, 2) == |auth| + 2;
      assert s[2..|auth| + 2] == auth && s[|auth| + 2..] == rest;
    }
  }

  /** Text put together from a scheme, an authority and the rest is taken apart into the three. */
  lemma TextSplits(scheme: string, auth: string, rest: string)
    requires scheme != "" && IsAlpha(scheme[0]) && AllSchemeChars(scheme) && Lower(scheme) == scheme
    requires forall c | c in auth :: HostChar(c)
    requires (rest == "" || EndsAuthority(rest[0])) && forall c | c in rest :: !Unsafe(c)
    ensures SplitScheme(DropUnsafe(StripLead(scheme + ":" + ("//" + auth + rest)))) == (scheme, "//" + auth + rest)
    ensures SplitAuthority("//" + auth + rest) == (auth, rest)
  {
    hide SplitScheme, SplitAuthority, DropUnsafe, StripLead, Lower;
    var text := scheme + ":" + ("//" + auth + rest);
    assert DropUnsafe(StripLead(text)) == text by {
      assert text[0] == scheme[0];
      forall c | c in text ensures !Unsafe(c) {
        if c in scheme {
          SchemeCharsOnly(scheme, c);
        }
      }
      CleanTextIsKept(text);
    }
    SchemeSplits(scheme, "//" + auth + rest);
    RestEndsAuthority(auth, rest);
  }

  /** A plain URL parses into the pieces it was put together from. */
  lemma PlainUrlParses(hosts: Hosts, scheme: string, netloc: string, path: string)
    requires scheme != "" && IsAlpha(scheme[0]) && AllSchemeChars(scheme) && Lower(scheme) == scheme
    requires forall c | c in netloc :: HostChar(c)
    requires ('[' in netloc) == (']' in netloc) && ('[' in netloc ==> hosts.BracketsOk(netloc))
    requires path != "" && path[0] == '/' && forall c | c in path :: !Unsafe(c) && c !in "?#;"
    ensures hosts.UrlParse(scheme + ":" + ("//" + netloc + path)) == Some(Url(scheme, netloc, path, "", "", ""))
  {
    hide SplitScheme, SplitAuthority, DropUnsafe, StripLead, Hosts.BracketsOk, Lower, HostChar;
    TextSplits(scheme, netloc, path);
    PartitionSplits(path, '#', "");
    PartitionSplits(path, '?', "");
  }

  /** A plain https URL with a named host and no port is a valid redirect of that host's origin. */
  lemma PlainRedirectIsValid(hosts: Hosts, scheme: string, netloc: string, path: string)
    requires scheme == "https" && AllSchemeChars(scheme) && Lower(scheme) == scheme
    requires (forall c | c in netloc :: HostChar(c)) && Hosts.AllAuthorityChars(netloc)
    requires ('[' in netloc) == (']' in netloc) && ('[' in netloc ==> hosts.BracketsOk(netloc))
    requires HostInfo(netloc).0 != "" && HostInfo(netloc).1 == ""
    requires path != "" && path[0] == '/' && forall c | c in path :: !Unsafe(c) && c !in "?#;"
    ensures var text := scheme + ":" + ("//" + netloc + path);
            && hosts.IsValidRedirect(text)
            && hosts.NormalizedOrigin(text) == At(Origin(scheme, LowerHost(HostInfo(netloc).0), 443))
  {
    hide Hosts.UrlParse;
    PlainUrlParses(hosts, scheme, netloc, path);
  }

  const ODD_REDIRECT := "https:" + ("//" + "[v1.[x]" + "/cb")
  const ODD_ORIGIN := Origin("https", "v1.[x", 443)

  lemma HttpsIsAScheme()
    ensures AllSchemeChars("https") && Lower("https") == "https"
  {
    assert "https"[..4] == "http" && "http"[..3] == "htt" && "htt"[..2] == "ht" && "ht"[..1] == "h" && "h"[..0] == "";
    assert Lower("https") == "https";
  }

  lemma OddHostText(hosts: Hosts)
    ensures hosts.BracketHostOk("v1.[x") && LowerHost("v1.[x") == "v1.[x"
  {
    assert HexRun("v1.[x", 2) == 2;
    PartitionSplits("v1.[x", '%', "");
    assert Lower("v1.[x") == "v1.[x";
  }

  lemma OddHost(hosts: Hosts)
    ensures HostInfo("[v1.[x]") == ("v1.[x", "") && hosts.BracketsOk("[v1.[x]")
    ensures LowerHost("v1.[x") == "v1.[x"
  {
    hide HostInfo, Hosts.BracketsOk, Hosts.BracketHostOk, LowerHost;
    OddHostText(hosts);
    PartitionSplits("", ':', "");
    BracketedAuthorityCuts(hosts, "v1.[x", "");
    assert "[" + "v1.[x" + "]" + "" == "[v1.[x]";
  }

  lemma OddAuthorityCharacters()
    ensures Hosts.AllAuthorityChars("[v1.[x]")
  {
    var n := "[v1.[x]";
    assert n[..6][..5][..4] == "[v1." && n[..4][..3][..2] == "[v" && n[..2][..1][..0] == "";
    assert Hosts.AllAuthorityChars(n[..2]);
    assert n[..3][..2] == n[..2] && Hosts.AllAuthorityChars(n[..3]);
    assert n[..4][..3] == n[..3] && Hosts.AllAuthorityChars(n[..4]);
    assert n[..5][..4] == n[..4] && Hosts.AllAuthorityChars(n[..5]);
    assert n[..6][..5] == n[..5] && Hosts.AllAuthorityChars(n[..6]);
  }

  /** A redirect the validator accepts whose origin the printer cannot express: the host of an
      IPvFuture literal may hold "[" and no colon, and is then printed without brackets. */
  lemma UnprintableRedirect(hosts: Hosts)
    requires hosts.Lawful()
    ensures hosts.IsValidRedirect(ODD_REDIRECT)
    ensures hosts.NormalizedOrigin(ODD_REDIRECT) == At(ODD_ORIGIN)
    ensures hosts.NormalizedOrigin(CanonicalOriginUrl(ODD_ORIGIN)) != At(ODD_ORIGIN)
  {
    hide Hosts.UrlParse, Hosts.IsValidRedirect, Hosts.NormalizedOrigin, CanonicalOriginUrl, HostInfo, LowerHost,
      Hosts.AllAuthorityChars, Hosts.BracketsOk;
    HttpsIsAScheme();
    OddHost(hosts);
    OddAuthorityCharacters();
    PlainRedirectIsValid(hosts, "https", "[v1.[x]", "/cb");
    assert ODD_REDIRECT == "https" + ":" + ("//" + "[v1.[x]" + "/cb");
    OriginRoundTrip(hosts, ODD_REDIRECT);
  }
}
