/** Concrete clients, each a metadata document on one host. The first registers a redirect on another host and
    authorizes at an unregistered redirect on its own: the redirect-less derivation then names an identity
    core did not bind. The second registers two spellings of its own host: the refresh leg gives up although
    every redirect is forwarded under the client_id itself. */
module Counterexample {
  import opened Wrappers
  import opened Sets
  import opened Text
  import opened Blobs
  import opened JsonValues
  import opened Urls
  import opened Origins
  import opened Identity
  import opened Ambiguity

  function Https(host: string, path: string): string { "https:" + ("//" + host + path) }

  function Document(client: string, uris: seq<string>): map<string, Json> {
    map["client_id" := Str(client), "client_name" := Str("c"), "redirect_uris" := Arr(Quote(uris))]
  }

  /** No address but one document, that of a client at /c of its host. */
  function World(p: Primitives, host: string, uris: seq<string>): Env {
    var client := Https(host, "/c");
    Env(p, Hosts(_ => false, _ => false, _ => false),
        id => if id == client then Some(Obj(Document(client, uris))) else None, true)
  }

  // ---- hosts that are their own names --------------------------------------------------------------------

  /** A host the parser gives back as it is, without a port. */
  ghost predicate PlainHost(h: string) {
    && h != "" && h != "localhost" && HostInfo(h) == (h, "") && LowerHost(h) == h
    && Hosts.AllAuthorityChars(h) && '[' !in h && ']' !in h && forall c | c in h :: HostChar(c)
  }

  predicate Letter(c: char) { 'a' <= c <= 'z' }

  lemma LetterHost(h: string)
    requires |h| == 1 && Letter(h[0])
    ensures PlainHost(h)
  {
    NoUserinfo(h);
    PartitionSplits(h, '[', "");
    PartitionSplits(h, ':', "");
    PartitionSplits(h, '%', "");
    assert Lower(h) == h;
    assert h + "" == h;
    assert h[..0] == "";
  }

  /** What follows a percent sign keeps its letter case. */
  lemma ZonedHost(c: char)
    requires Letter(c) || 'A' <= c <= 'Z'
    ensures PlainHost(['a', '%', c])
  {
    hide HostInfo, LowerHost, Hosts.AllAuthorityChars;
    BareHost(['a', '%', c]);
    ZonedName(c);
    AuthorityCharsFromMembers(['a', '%', c]);
  }

  lemma ZonedName(c: char)
    ensures LowerHost(['a', '%', c]) == ['a', '%', c]
  {
    PartitionSplits("a", '%', [c]);
    assert "a" + ['%'] + [c] == ['a', '%', c] && Lower("a") == "a";
    assert "a" + ("%" + [c]) == ['a', '%', c];
  }

  lemma BareHost(h: string)
    requires '@' !in h && '[' !in h && ':' !in h
    ensures HostInfo(h) == (h, "")
  {
    NoUserinfo(h);
    PartitionSplits(h, '[', "");
    PartitionSplits(h, ':', "");
  }

  lemma PlainHttps(hosts: Hosts, h: string, path: string)
    requires PlainHost(h)
    requires path != "" && path[0] == '/' && forall c | c in path :: !Unsafe(c) && c !in "?#;"
    ensures hosts.UrlParse(Https(h, path)) == Some(Url("https", h, path, "", "", ""))
    ensures hosts.IsValidRedirect(Https(h, path))
    ensures hosts.NormalizedOrigin(Https(h, path)) == At(Origin("https", h, 443))
  {
    hide Hosts.UrlParse, Hosts.IsValidRedirect, Hosts.NormalizedOrigin, HostInfo, LowerHost, Hosts.AllAuthorityChars;
    HttpsIsAScheme();
    PlainUrlParses(hosts, "https", h, path);
    PlainRedirectIsValid(hosts, "https", h, path);
    assert "https" + ":" + ("//" + h + path) == Https(h, path);
  }

  // ---- the document is fetched and accepted ----------------------------------------------------------------

  lemma ClientIsValid(p: Primitives, h: string, uris: seq<string>)
    requires PlainHost(h)
    ensures var hosts, client := World(p, h, uris).hosts, Https(h, "/c");
            && ValidCimdClientId(hosts, client)
            && Hostname(hosts.UrlParse(client).value.netloc) == Some(h)
            && !hosts.IsLoopback(h) && !hosts.isIp(h)
  {
    hide Hosts.UrlParse, Hosts.IsValidRedirect, LowerHost, HostInfo, Hosts.AllAuthorityChars;
    PlainHttps(World(p, h, uris).hosts, h, "/c");
    PartitionSplits("", '/', "c");
    PartitionSplits("c", '/', "");
    assert "" + ['/'] + "c" == "/c";
    assert !HasDotSegment("c");
  }

  lemma MetadataIsGood(client: string, uris: seq<string>)
    ensures MetadataOk(Obj(Document(client, uris)), client)
    ensures Field(Obj(Document(client, uris)), "redirect_uris") == Arr(Quote(uris))
  {
    assert !Blank("c");
  }

  lemma DocumentParses(p: Primitives, h: string, uris: seq<string>)
    requires PlainHost(h) && uris != [] && AllValidRedirects(World(p, h, uris).hosts, uris)
    ensures FetchCimdRedirects(World(p, h, uris), Https(h, "/c")) == Some(uris)
  {
    hide Hosts.UrlParse, Hosts.IsValidRedirect, ValidCimdClientId, Hosts.IsLoopback, Hostname, MetadataOk, Document,
      Field, PortOf, Https;
    var env, client := World(p, h, uris), Https(h, "/c");
    ClientIsValid(p, h, uris);
    MetadataIsGood(client, uris);
    assert Strings(Quote(uris)) == uris && AllStrings(Quote(uris));
    assert env.document(client) == Some(Obj(Document(client, uris)));
    assert ParseCimd(env.hosts, Obj(Document(client, uris)), client) == Some(uris);
  }

  /** The client is registered by its document, under any key that has not signed for it. */
  lemma ClientIsRegistered(p: Primitives, h: string, uris: seq<string>)
    requires p.Lawful() && PlainHost(h) && uris != [] && AllValidRedirects(World(p, h, uris).hosts, uris)
    ensures World(p, h, uris).Lawful() && SoundRegistration(World(p, h, uris), None, Https(h, "/c"))
    ensures Registered(World(p, h, uris), None, Https(h, "/c")) == Some(uris)
  {
    hide Hosts.UrlParse, Hosts.IsValidRedirect, FetchCimdRedirects, Primitives.Lawful, HostInfo, LowerHost,
      Hosts.AllAuthorityChars, Https, Document;
    DocumentParses(p, h, uris);
    PlainHttps(World(p, h, uris).hosts, h, "/c");
  }

  // ---- an unregistered redirect ----------------------------------------------------------------------------

  const CLIENT := Https("h", "/c")
  const PRESENTED := Https("h", "/cb")
  const REGISTERED := Https("w", "/cb")

  function WorldOfTwoHosts(p: Primitives): Env { World(p, "h", [REGISTERED]) }

  /** The presented redirect takes the same-origin path, while the derivation answers the other host. */
  lemma UnregisteredRedirectExists(p: Primitives)
    requires p.Lawful()
    ensures var env := WorldOfTwoHosts(p);
            && env.Lawful() && SoundRegistration(env, None, CLIENT)
            && env.hosts.IsValidRedirect(PRESENTED) && FastPath(env.hosts, CLIENT, PRESENTED)
            && ResolveForwardClientId(env, None, CLIENT, PRESENTED) == CLIENT
            && RefreshIdentity(env, None, CLIENT) == Translated(CanonicalOriginUrl(Origin("https", "w", 443)))
  {
    hide Hosts.UrlParse, Hosts.IsValidRedirect, FetchCimdRedirects, Primitives.Lawful, CanonicalOriginUrl,
      StableTranslationOrigin, HostInfo, LowerHost, Https, Hosts.AllAuthorityChars, Registered, World;
    var env := WorldOfTwoHosts(p);
    LetterHost("h");
    LetterHost("w");
    PlainHttps(env.hosts, "h", "/c");
    PlainHttps(env.hosts, "h", "/cb");
    PlainHttps(env.hosts, "w", "/cb");
    ClientIsRegistered(p, "h", [REGISTERED]);
    NoLoopback(p, "h", [REGISTERED], "w");
    assert [REGISTERED][..0] == [];
    assert NonLoopbackOrigins(env.hosts, [REGISTERED]) == {Origin("https", "w", 443)};
    StableOriginExists(env.hosts, [REGISTERED]);
    assert REGISTERED in [REGISTERED];
  }

  lemma NoLoopback(p: Primitives, h: string, uris: seq<string>, host: string)
    requires host != "localhost"
    ensures !World(p, h, uris).hosts.IsLoopback(host)
  {
  }

  // ---- one authority in two spellings ------------------------------------------------------------------------

  const ZONED_CLIENT := Https("a%b", "/c")
  const LOWER_REDIRECT := Https("a%b", "/cb")
  const UPPER_REDIRECT := Https("a%B", "/cb")

  function WorldOfTwoSpellings(p: Primitives): Env { World(p, "a%b", [LOWER_REDIRECT, UPPER_REDIRECT]) }

  lemma TwoOrigins(hosts: Hosts)
    ensures hosts.UrlParse(ZONED_CLIENT) == Some(Url("https", "a%b", "/c", "", "", ""))
    ensures hosts.IsValidRedirect(LOWER_REDIRECT) && hosts.IsValidRedirect(UPPER_REDIRECT)
    ensures OriginAt(hosts, LOWER_REDIRECT) == Origin("https", "a%b", 443) && HostOf(hosts, LOWER_REDIRECT) == "a%b"
    ensures OriginAt(hosts, UPPER_REDIRECT) == Origin("https", "a%B", 443) && HostOf(hosts, UPPER_REDIRECT) == "a%B"
    ensures OriginAt(hosts, LOWER_REDIRECT) != OriginAt(hosts, UPPER_REDIRECT)
    ensures SameWebOrigin(hosts, ZONED_CLIENT, LOWER_REDIRECT) && SameWebOrigin(hosts, ZONED_CLIENT, UPPER_REDIRECT)
  {
    hide Hosts.UrlParse, Hosts.IsValidRedirect, Hosts.NormalizedOrigin, HostInfo, LowerHost, Hosts.AllAuthorityChars,
      Https;
    ZonedHost('b');
    ZonedHost('B');
    PlainHttps(hosts, "a%b", "/c");
    PlainHttps(hosts, "a%b", "/cb");
    PlainHttps(hosts, "a%B", "/cb");
    assert Lower("a%B") == "a%b" && Lower("a%b") == "a%b";
    assert "a%b"[2] != "a%B"[2];
  }

  lemma CountedTwice(hosts: Hosts, uris: seq<string>, u: string, v: string)
    requires AllValidRedirects(hosts, uris) && u in uris && v in uris && OriginAt(hosts, u) != OriginAt(hosts, v)
    requires !IsLoopbackRedirect(hosts, u) && !IsLoopbackRedirect(hosts, v)
    ensures !ReproducibleIdentity(hosts, uris)
  {
    hide Hosts.IsValidRedirect, OriginAt, IsLoopbackRedirect, NonLoopbackOrigins;
    NonLoopbackMember(hosts, uris, OriginAt(hosts, u));
    NonLoopbackMember(hosts, uris, OriginAt(hosts, v));
    SubsetSize({OriginAt(hosts, u), OriginAt(hosts, v)}, NonLoopbackOrigins(hosts, uris));
  }

  /** A client with two redirects of its own web origin that count as two origins. */
  lemma CountedAtHome(env: Env, client: string, u: string, v: string)
    requires env.Lawful() && SoundRegistration(env, None, client) && Registered(env, None, client) == Some([u, v])
    requires env.hosts.UrlParse(client).Some? && SameWebOrigin(env.hosts, client, u)
              && SameWebOrigin(env.hosts, client, v)
    requires env.hosts.IsValidRedirect(u) && env.hosts.IsValidRedirect(v)
              && OriginAt(env.hosts, u) != OriginAt(env.hosts, v)
    requires !IsLoopbackRedirect(env.hosts, u) && !IsLoopbackRedirect(env.hosts, v)
    ensures Miscounted(env, None, client) && !Ambiguous(env, None, client)
    ensures RefreshIdentity(env, None, client) == Unreproducible
  {
    hide Hosts.UrlParse, Hosts.IsValidRedirect, Registered, OriginAt, IsLoopbackRedirect, RefreshIdentity,
      SameWebOrigin, Env.Lawful, ReproducibleIdentity, SoundRegistration;
    assert u in [u, v] && v in [u, v];
    CountedTwice(env.hosts, [u, v], u, v);
    AtHomeIsUnambiguous(env, None, client);
    GivesUpExactlyWhenAmbiguous(env, None, client);
  }

  /** The refresh leg gives up on a client every redirect of which is forwarded under the client_id itself. */
  lemma MiscountExists(p: Primitives)
    requires p.Lawful()
    ensures var env := WorldOfTwoSpellings(p);
            && env.Lawful() && SoundRegistration(env, None, ZONED_CLIENT)
            && Miscounted(env, None, ZONED_CLIENT) && !Ambiguous(env, None, ZONED_CLIENT)
            && RefreshIdentity(env, None, ZONED_CLIENT) == Unreproducible
  {
    hide Hosts.UrlParse, Hosts.IsValidRedirect, Registered, Primitives.Lawful, OriginAt, HostOf, Https, World,
      RefreshIdentity, SameWebOrigin, Miscounted, Ambiguous, PlainHost, Env.Lawful, SoundRegistration;
    var env, uris := WorldOfTwoSpellings(p), [LOWER_REDIRECT, UPPER_REDIRECT];
    TwoOrigins(env.hosts);
    ZonedHost('b');
    assert AllValidRedirects(env.hosts, uris);
    ClientIsRegistered(p, "a%b", uris);
    NoLoopback(p, "a%b", uris, "a%b");
    NoLoopback(p, "a%b", uris, "a%B");
    CountedAtHome(env, ZONED_CLIENT, LOWER_REDIRECT, UPPER_REDIRECT);
  }
}
