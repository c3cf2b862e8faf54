/** When the redirect-less refresh gives up on a client (oauth_ha_auth.py), against what the authorize leg
    forwards: exactly when no single answer is right, or origins are counted that no one presents. */
module Ambiguity {
  import opened Wrappers
  import opened Text
  import opened Base64Url
  import opened Blobs
  import opened JsonValues
  import opened Urls
  import opened Origins
  import opened Identity

  // ---- another port of a loopback redirect --------------------------------------------------------------

  /** What follows the authority in a URI's text. */
  function Rest(uri: string): string { SplitAuthority(SplitScheme(DropUnsafe(StripLead(uri))).1).1 }

  lemma RestRange(hosts: Hosts, uri: string)
    requires hosts.UrlParse(uri).Some? && hosts.UrlParse(uri).value.netloc != ""
    ensures Rest(uri) == "" || EndsAuthority(Rest(uri)[0])
    ensures forall c | c in Rest(uri) :: !Unsafe(c)
  {
    var clean := DropUnsafe(StripLead(uri));
    SchemeRange(clean);
    var after := SplitScheme(clean).1;
    forall c | c in Rest(uri) ensures !Unsafe(c) {
      assert c in after;
      DropUnsafeDrops(StripLead(uri), c);
    }
  }

  /** The redirect's origin at another port. */
  function AtPortOf(hosts: Hosts, uri: string, port: nat): Origin
    requires hosts.IsValidRedirect(uri)
  {
    OriginAt(hosts, uri).(port := port)
  }

  /** The redirect with another port, in the printer's spelling of its authority. */
  function AtPort(hosts: Hosts, uri: string, port: nat): string
    requires hosts.IsValidRedirect(uri)
  {
    var o := AtPortOf(hosts, uri, port);
    o.scheme + ":" + ("//" + Authority(o) + Rest(uri))
  }

  /** The origin of a loopback redirect can be printed at any port. */
  lemma LoopbackRange(hosts: Hosts, uri: string, port: nat)
    requires hosts.Lawful() && hosts.IsValidRedirect(uri) && IsLoopbackRedirect(hosts, uri) && port <= 65535
    ensures InRange(hosts, AtPortOf(hosts, uri, port)) && Reparses(AtPortOf(hosts, uri, port))
  {
    hide Hosts.UrlParse, Hosts.IsValidRedirect, Hosts.OriginOf, LowerHost, HostInfo, Hosts.BracketHostOk,
      Hosts.NormalizedOrigin;
    hosts.ValidRedirectNamesOrigin(uri);
    RangeOfNormalizedOrigin(hosts, uri);
  }

  /** At another port the redirect parses into the same pieces but the authority. */
  lemma AtPortParses(hosts: Hosts, uri: string, port: nat)
    requires hosts.Lawful() && hosts.IsValidRedirect(uri) && IsLoopbackRedirect(hosts, uri) && port <= 65535
    ensures hosts.UrlParse(AtPort(hosts, uri, port)) ==
            Some(hosts.UrlParse(uri).value.(netloc := Authority(AtPortOf(hosts, uri, port))))
  {
    hide Hosts.NormalizedOrigin, LowerHost, HostInfo, Hosts.BracketsOk, Authority, SplitScheme, SplitAuthority,
      DropUnsafe, StripLead, SplitParams, HostChar, Lower, AllSchemeChars;
    var o := AtPortOf(hosts, uri, port);
    LoopbackRange(hosts, uri, port);
    SameScheme(hosts, uri);
    forall c | c in Authority(o) ensures HostChar(c) { AuthorityCharacters(o, c); }
    RestRange(hosts, uri);
    TextSplits(o.scheme, Authority(o), Rest(uri));
    PrintedBrackets(o);
    PrintedAuthorityCuts(hosts, o);
  }

  lemma SameScheme(hosts: Hosts, uri: string)
    requires hosts.IsValidRedirect(uri)
    ensures OriginAt(hosts, uri).scheme == hosts.UrlParse(uri).value.scheme
    ensures OriginAt(hosts, uri).host == HostOf(hosts, uri)
    ensures hosts.UrlParse(uri).value.netloc != ""
  {
    hide Hosts.UrlParse, LowerHost;
    assert HostInfo("").0 == "";
  }

  lemma {:induction false} AuthorityCharsOnly(s: string, c: char)
    requires Hosts.AllAuthorityChars(s) && c in s
    ensures Hosts.AuthorityChar(c)
  {
    if c != s[|s| - 1] { AuthorityCharsOnly(s[..|s| - 1], c); }
  }

  lemma {:induction false} AuthorityCharsFromMembers(s: string)
    requires forall c | c in s :: Hosts.AuthorityChar(c)
    ensures Hosts.AllAuthorityChars(s)
  {
    if s != "" { AuthorityCharsFromMembers(s[..|s| - 1]); }
  }

  /** The host of a validated redirect consists of authority characters. */
  lemma HostCharacters(hosts: Hosts, uri: string, c: char)
    requires hosts.IsValidRedirect(uri) && c in HostOf(hosts, uri)
    ensures Hosts.AuthorityChar(c)
  {
    hide Hosts.UrlParse, LowerHost, HostInfo, Hosts.AllAuthorityChars;
    var netloc := hosts.UrlParse(uri).value.netloc;
    var raw := HostInfo(netloc).0;
    RawHostRange(netloc);
    LowerHostByCharacter(raw);
    var k :| 0 <= k < |raw| && LowerHost(raw)[k] == c;
    AuthorityCharsOnly(netloc, raw[k]);
  }

  /** At another port the redirect is still a valid one, on loopback, with that port. */
  lemma AtPortIsValid(hosts: Hosts, uri: string, port: nat)
    requires hosts.Lawful() && hosts.IsValidRedirect(uri) && IsLoopbackRedirect(hosts, uri) && port <= 65535
    ensures hosts.IsValidRedirect(AtPort(hosts, uri, port))
    ensures OriginAt(hosts, AtPort(hosts, uri, port)) == AtPortOf(hosts, uri, port)
    ensures LoopbackMatch(hosts, uri, AtPort(hosts, uri, port))
  {
    hide Hosts.UrlParse, Hosts.OriginOf, LowerHost, HostInfo, Hosts.AllAuthorityChars, Authority, Hostname, PortOf,
      Rest, Reparses, InRange;
    var o, r := AtPortOf(hosts, uri, port), AtPort(hosts, uri, port);
    LoopbackRange(hosts, uri, port);
    AtPortParses(hosts, uri, port);
    SameScheme(hosts, uri);
    PrintedOriginReads(hosts, o, hosts.UrlParse(r).value);
    forall c | c in Authority(o) ensures Hosts.AuthorityChar(c) { PortCharacters(hosts, uri, port, c); }
    AuthorityCharsFromMembers(Authority(o));
  }

  lemma PortCharacters(hosts: Hosts, uri: string, port: nat, c: char)
    requires hosts.Lawful() && hosts.IsValidRedirect(uri) && IsLoopbackRedirect(hosts, uri) && port <= 65535
    requires c in Authority(AtPortOf(hosts, uri, port))
    ensures Hosts.AuthorityChar(c)
  {
    hide Hosts.UrlParse, Hosts.IsValidRedirect, Hosts.NormalizedOrigin, LowerHost, HostInfo, Authority;
    LoopbackRange(hosts, uri, port);
    AuthorityCharacters(AtPortOf(hosts, uri, port), c);
    SameScheme(hosts, uri);
    if c in HostOf(hosts, uri) { HostCharacters(hosts, uri, c); }
  }

  /** RFC 8252 section 7.3: a loopback redirect matches a registered one exactly when both parse alike once they are
      given the same port, whichever it is. */
  lemma LoopbackMatchIgnoresPort(hosts: Hosts, entry: string, redirect: string, port: nat)
    requires hosts.Lawful() && hosts.IsValidRedirect(entry) && hosts.IsValidRedirect(redirect) && port <= 65535
    requires IsLoopbackRedirect(hosts, entry) && IsLoopbackRedirect(hosts, redirect)
    ensures LoopbackMatch(hosts, entry, redirect) <==>
              hosts.UrlParse(AtPort(hosts, entry, port)) == hosts.UrlParse(AtPort(hosts, redirect, port))
  {
    hide Hosts.UrlParse, Hosts.OriginOf, LowerHost, HostInfo, Authority, PortOf, Rest, Reparses, InRange, AtPort,
      Hosts.AllAuthorityChars;
    var a, b := AtPortOf(hosts, entry, port), AtPortOf(hosts, redirect, port);
    AtPortParses(hosts, entry, port);
    AtPortParses(hosts, redirect, port);
    SameScheme(hosts, entry);
    SameScheme(hosts, redirect);
    LoopbackRange(hosts, entry, port);
    LoopbackRange(hosts, redirect, port);
    if a.scheme == b.scheme && Authority(a) == Authority(b) { CanonicalIsInjective(hosts, a, b); }
  }

  /** What matching a registration comes to, for every list and redirect. */
  lemma MatchesExactly(hosts: Hosts, registered: seq<string>, redirect: string, port: nat)
    requires hosts.Lawful() && AllValidRedirects(hosts, registered) && hosts.IsValidRedirect(redirect) && port <= 65535
    ensures RedirectMatches(hosts, registered, redirect) <==>
              || redirect in registered
              || (IsLoopbackRedirect(hosts, redirect) && exists u | u in registered ::
                    IsLoopbackRedirect(hosts, u)
                    && hosts.UrlParse(AtPort(hosts, u, port)) == hosts.UrlParse(AtPort(hosts, redirect, port)))
  {
    hide Hosts.UrlParse, Hosts.IsValidRedirect, Hosts.Lawful, AtPort, HostOf;
    forall u | u in registered
      ensures LoopbackMatch(hosts, u, redirect) <==>
                && IsLoopbackRedirect(hosts, redirect) && IsLoopbackRedirect(hosts, u)
                && hosts.UrlParse(AtPort(hosts, u, port)) == hosts.UrlParse(AtPort(hosts, redirect, port))
    {
      if IsLoopbackRedirect(hosts, redirect) && IsLoopbackRedirect(hosts, u) {
        LoopbackMatchIgnoresPort(hosts, u, redirect, port);
      }
    }
  }

  /** Authorities at two one-digit ports differ in their last character. */
  lemma PortsDiffer(o: Origin)
    ensures Lower(Authority(o.(port := 1))) != Lower(Authority(o.(port := 2)))
  {
    var a, b := Authority(o.(port := 1)), Authority(o.(port := 2));
    assert a[|a| - 1] == '1' && b[|b| - 1] == '2';
    assert Lower(a)[|a| - 1] == '1' && Lower(b)[|b| - 1] == '2';
  }

  // ---- what the authorize leg forwards ------------------------------------------------------------------

  /** Two redirects of the registration the authorize leg forwards under different client_ids. */
  ghost predicate Ambiguous(env: Env, key: Option<Bytes>, clientId: string)
    requires env.Lawful() && SoundRegistration(env, key, clientId)
  {
    exists u, v :: MatchesRegistration(env, key, clientId, u) && MatchesRegistration(env, key, clientId, v)
                   && ResolveForwardClientId(env, key, clientId, u) != ResolveForwardClientId(env, key, clientId, v)
  }

  /** What the authorize leg forwards for a redirect that matches the registration. */
  lemma ResolvesTo(env: Env, key: Option<Bytes>, clientId: string, redirect: string)
    requires env.Lawful() && SoundRegistration(env, key, clientId)
    requires MatchesRegistration(env, key, clientId, redirect) && env.hosts.UrlParse(clientId).Some?
    ensures env.hosts.IsValidRedirect(redirect)
    ensures ResolveForwardClientId(env, key, clientId, redirect) ==
            if SameWebOrigin(env.hosts, clientId, redirect) then clientId else OriginClientId(env.hosts, redirect)
    ensures OriginClientId(env.hosts, redirect) != clientId
  {
    hide Hosts.UrlParse, Registered, Hosts.IsValidRedirect, OriginClientId, LoopbackMatch, SameWebOrigin, FastPath,
      SoundRegistration, Env.Lawful;
    RegisteredAreValid(env, key, clientId);
    RegisteredIsNamed(env, key, clientId);
    FastPathIsSameOrigin(env.hosts, clientId, redirect);
    RegisteredIsNoOrigin(env, key, clientId, redirect);
  }

  lemma DifferentOrigins(env: Env, u: string, v: string)
    requires env.Lawful() && env.hosts.IsValidRedirect(u) && env.hosts.IsValidRedirect(v)
    ensures OriginAt(env.hosts, u) != OriginAt(env.hosts, v) ==>
              OriginClientId(env.hosts, u) != OriginClientId(env.hosts, v)
  {
    hide Hosts.IsValidRedirect, CanonicalOriginUrl, Hosts.NormalizedOrigin, Hosts.Lawful;
    env.hosts.ValidRedirectNamesOrigin(u);
    env.hosts.ValidRedirectNamesOrigin(v);
    SameCanonicalSameOrigin(env.hosts, u, v);
  }

  /** Redirects of different origins are told apart by what is forwarded, unless both share the client_id's own. */
  lemma TwoAnswers(env: Env, key: Option<Bytes>, clientId: string, u: string, v: string)
    requires env.Lawful() && SoundRegistration(env, key, clientId) && env.hosts.UrlParse(clientId).Some?
    requires MatchesRegistration(env, key, clientId, u) && MatchesRegistration(env, key, clientId, v)
    requires env.hosts.IsValidRedirect(u) && env.hosts.IsValidRedirect(v)
              && OriginAt(env.hosts, u) != OriginAt(env.hosts, v)
    requires !SameWebOrigin(env.hosts, clientId, u) || !SameWebOrigin(env.hosts, clientId, v)
    ensures ResolveForwardClientId(env, key, clientId, u) != ResolveForwardClientId(env, key, clientId, v)
  {
    hide Hosts.UrlParse, MatchesRegistration, Hosts.IsValidRedirect, OriginAt, OriginClientId, SameWebOrigin,
      SoundRegistration, Env.Lawful, ResolveForwardClientId;
    ResolvesTo(env, key, clientId, u);
    ResolvesTo(env, key, clientId, v);
    DifferentOrigins(env, u, v);
  }

  /** A registration with a loopback redirect leaves the port open, and with it the answer. */
  lemma LoopbackIsAmbiguous(env: Env, key: Option<Bytes>, clientId: string, u: string)
    requires env.Lawful() && SoundRegistration(env, key, clientId) && env.hosts.UrlParse(clientId).Some?
    requires Registered(env, key, clientId).Some? && u in Registered(env, key, clientId).value
    requires env.hosts.IsValidRedirect(u) && IsLoopbackRedirect(env.hosts, u)
    ensures Ambiguous(env, key, clientId)
  {
    hide Hosts.UrlParse, Hosts.IsValidRedirect, Registered, IsLoopbackRedirect, SoundRegistration,
      ResolveForwardClientId, LoopbackMatch, OriginAt, Authority, AtPort, Hosts.Lawful;
    var one, two := AtPort(env.hosts, u, 1), AtPort(env.hosts, u, 2);
    RegisteredAreValid(env, key, clientId);
    AtPortIsValid(env.hosts, u, 1);
    AtPortIsValid(env.hosts, u, 2);
    AtPortParses(env.hosts, u, 1);
    AtPortParses(env.hosts, u, 2);
    PortsDiffer(OriginAt(env.hosts, u));
    TwoAnswers(env, key, clientId, one, two);
  }

  lemma TwoOrigins(hosts: Hosts, uris: seq<string>) returns (u: string, v: string)
    requires uris != [] && AllValidRedirects(hosts, uris) && forall x :: x in uris ==> !IsLoopbackRedirect(hosts, x)
    requires |NonLoopbackOrigins(hosts, uris)| != 1
    ensures u in uris && v in uris && OriginAt(hosts, u) != OriginAt(hosts, v)
  {
    hide Hosts.IsValidRedirect, IsLoopbackRedirect, OriginAt, NonLoopbackOrigins;
    var all := NonLoopbackOrigins(hosts, uris);
    u := uris[0];
    var o := OriginAt(hosts, u);
    NonLoopbackMember(hosts, uris, o);
    assert all != {o};
    var p :| p in all && p != o;
    NonLoopbackMember(hosts, uris, p);
    v :| v in uris && !IsLoopbackRedirect(hosts, v) && OriginAt(hosts, v) == p;
  }

  /** Origins that are counted although no redirect is forwarded under more than the client_id itself: it does
      not parse, or every redirect shares its scheme and authority up to letter case. */
  predicate Miscounted(env: Env, key: Option<Bytes>, clientId: string)
    requires SoundRegistration(env, key, clientId)
  {
    var registered := Registered(env, key, clientId);
    && registered.Some? && registered.value != []
    && (RegisteredAreValid(env, key, clientId); !ReproducibleIdentity(env.hosts, registered.value))
    && (env.hosts.UrlParse(clientId).None? || AllSameWebOrigin(env.hosts, clientId, registered.value))
  }

  /** An answer is the one forwarded for every redirect of the registration. */
  lemma SameAnswer(env: Env, key: Option<Bytes>, clientId: string, redirect: string)
    requires env.Lawful() && SoundRegistration(env, key, clientId)
    requires MatchesRegistration(env, key, clientId, redirect) && RefreshIdentity(env, key, clientId) != Unreproducible
    ensures ResolveForwardClientId(env, key, clientId, redirect) ==
            match RefreshIdentity(env, key, clientId) case Translated(o) => o case _ => clientId
  {
    hide SoundRegistration, Env.Lawful, ResolveForwardClientId, RefreshIdentity, MatchesRegistration;
    RefreshAgreesWithAuthorize(env, key, clientId, redirect);
  }

  lemma ListedMatches(env: Env, key: Option<Bytes>, clientId: string, redirect: string)
    requires SoundRegistration(env, key, clientId) && Registered(env, key, clientId).Some?
    requires redirect in Registered(env, key, clientId).value
    ensures env.hosts.IsValidRedirect(redirect) && MatchesRegistration(env, key, clientId, redirect)
  {
    hide Registered, Hosts.IsValidRedirect, LoopbackMatch, SoundRegistration;
    RegisteredAreValid(env, key, clientId);
  }

  /** A registration the refresh leg gives up on without a miscount is ambiguous. */
  lemma GivenUpIsAmbiguous(env: Env, key: Option<Bytes>, clientId: string)
    requires env.Lawful() && SoundRegistration(env, key, clientId)
    requires RefreshIdentity(env, key, clientId) == Unreproducible && !Miscounted(env, key, clientId)
    ensures Ambiguous(env, key, clientId)
  {
    hide Hosts.UrlParse, Registered, Hosts.IsValidRedirect, OriginAt, IsLoopbackRedirect, OriginClientId,
      NonLoopbackOrigins, StableTranslationOrigin, SoundRegistration, Env.Lawful, SameWebOrigin,
      ResolveForwardClientId, MatchesRegistration;
    var uris := Registered(env, key, clientId).value;
    RegisteredAreValid(env, key, clientId);
    forall u | u in uris ensures env.hosts.IsValidRedirect(u) && MatchesRegistration(env, key, clientId, u) {
      ListedMatches(env, key, clientId, u);
    }
    if u :| u in uris && IsLoopbackRedirect(env.hosts, u) {
      LoopbackIsAmbiguous(env, key, clientId, u);
    } else if |NonLoopbackOrigins(env.hosts, uris)| != 1 {
      var w :| w in uris && !SameWebOrigin(env.hosts, clientId, w);
      var u, v := TwoOrigins(env.hosts, uris);
      ThreeAnswers(env, key, clientId, u, v, w);
    } else {
      StableOriginExists(env.hosts, uris);
      var u :| u in uris && SameWebOrigin(env.hosts, clientId, u);
      var w :| w in uris && !SameWebOrigin(env.hosts, clientId, w);
      ResolvesTo(env, key, clientId, u);
      ResolvesTo(env, key, clientId, w);
    }
  }

  /** Of two redirects of different origins and one away from the client_id's own, two differ. */
  lemma ThreeAnswers(env: Env, key: Option<Bytes>, clientId: string, u: string, v: string, w: string)
    requires env.Lawful() && SoundRegistration(env, key, clientId) && env.hosts.UrlParse(clientId).Some?
    requires MatchesRegistration(env, key, clientId, u) && MatchesRegistration(env, key, clientId, v)
    requires MatchesRegistration(env, key, clientId, w) && !SameWebOrigin(env.hosts, clientId, w)
    requires env.hosts.IsValidRedirect(u) && env.hosts.IsValidRedirect(v)
              && OriginAt(env.hosts, u) != OriginAt(env.hosts, v)
    ensures Ambiguous(env, key, clientId)
  {
    hide Hosts.UrlParse, Hosts.IsValidRedirect, OriginAt, OriginClientId, SoundRegistration, Env.Lawful,
      SameWebOrigin, ResolveForwardClientId, MatchesRegistration;
    if SameWebOrigin(env.hosts, clientId, u) && SameWebOrigin(env.hosts, clientId, v) {
      ResolvesTo(env, key, clientId, u);
      ResolvesTo(env, key, clientId, w);
    } else {
      TwoAnswers(env, key, clientId, u, v);
    }
  }

  /** For every client_id and registration: the refresh leg gives up exactly when the authorize leg forwards
      different client_ids for the registration's redirects, or origins are miscounted. */
  lemma GivesUpExactlyWhenAmbiguous(env: Env, key: Option<Bytes>, clientId: string)
    requires env.Lawful() && SoundRegistration(env, key, clientId)
    ensures RefreshIdentity(env, key, clientId) == Unreproducible <==>
              Ambiguous(env, key, clientId) || Miscounted(env, key, clientId)
  {
    hide Hosts.UrlParse, Registered, Hosts.IsValidRedirect, NonLoopbackOrigins, StableTranslationOrigin,
      SoundRegistration, Env.Lawful, SameWebOrigin, ResolveForwardClientId, MatchesRegistration;
    if RefreshIdentity(env, key, clientId) != Unreproducible {
      forall u | MatchesRegistration(env, key, clientId, u)
        ensures ResolveForwardClientId(env, key, clientId, u) ==
                match RefreshIdentity(env, key, clientId) case Translated(o) => o case _ => clientId
      {
        SameAnswer(env, key, clientId, u);
      }
    } else if !Miscounted(env, key, clientId) {
      GivenUpIsAmbiguous(env, key, clientId);
    }
  }

  /** A miscount is no ambiguity: one client_id is forwarded for all redirects that match the registration. */
  lemma MiscountedIsUnambiguous(env: Env, key: Option<Bytes>, clientId: string)
    requires env.Lawful() && SoundRegistration(env, key, clientId) && Miscounted(env, key, clientId)
    requires AllValidRedirects(env.hosts, Registered(env, key, clientId).value)
    requires env.hosts.UrlParse(clientId).None?
              || forall u :: u in Registered(env, key, clientId).value ==> !IsLoopbackRedirect(env.hosts, u)
    ensures !Ambiguous(env, key, clientId)
  {
    hide Hosts.UrlParse, Registered, Hosts.IsValidRedirect, IsLoopbackRedirect, SoundRegistration, Env.Lawful,
      SameWebOrigin, MatchesRegistration, ReproducibleIdentity, FastPath, TranslationFor;
    if env.hosts.UrlParse(clientId).Some? { AtHomeIsUnambiguous(env, key, clientId); }
  }

  /** Where every redirect shares the client_id's origin and none is on loopback, there is one answer. */
  lemma AtHomeIsUnambiguous(env: Env, key: Option<Bytes>, clientId: string)
    requires env.Lawful() && SoundRegistration(env, key, clientId) && env.hosts.UrlParse(clientId).Some?
    requires Registered(env, key, clientId).Some? && AllSameWebOrigin(env.hosts, clientId,
              Registered(env, key, clientId).value)
    requires AllValidRedirects(env.hosts, Registered(env, key, clientId).value)
    requires forall u :: u in Registered(env, key, clientId).value ==> !IsLoopbackRedirect(env.hosts, u)
    ensures !Ambiguous(env, key, clientId)
  {
    hide Hosts.UrlParse, Registered, Hosts.IsValidRedirect, IsLoopbackRedirect, SoundRegistration, Env.Lawful,
      SameWebOrigin, ResolveForwardClientId;
    forall u | MatchesRegistration(env, key, clientId, u)
      ensures ResolveForwardClientId(env, key, clientId, u) == clientId
    {
      assert u in Registered(env, key, clientId).value;
      ResolvesTo(env, key, clientId, u);
    }
  }
}
