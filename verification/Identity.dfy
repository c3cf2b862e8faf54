/** Which client_id a request is forwarded to core under (oauth_ha_auth.py). The authorize and
    code legs translate from the presented redirect; a refresh without a redirect derives the
    identity from the registration alone. */
module Identity {
  import opened Wrappers
  import opened Text
  import opened Base64Url
  import opened Blobs
  import opened JsonValues
  import opened Urls
  import opened Origins

  /** The world outside the component: the JSON document a client metadata URL serves, if any,
      and whether an outbound session exists to fetch it. */
  datatype Env = Env(p: Primitives, hosts: Hosts, document: string -> Option<Json>, cimdSession: bool) {
    ghost predicate Lawful() { p.Lawful() && hosts.Lawful() }
  }

  datatype Disposition = Passthrough | Unreproducible | Translated(origin: string)

  // ---- client metadata documents -------------------------------------------------------

  predicate HasDotSegment(path: string) {
    var cut := Partition(path, '/');
    cut.head == "." || cut.head == ".." || (cut.found && HasDotSegment(cut.tail))
  }

  predicate ValidCimdClientId(hosts: Hosts, clientId: string) {
    hosts.UrlParse(clientId).Some? &&
    var url := hosts.UrlParse(clientId).value;
    && PortOf(url.netloc) != BadPort
    && url.scheme == "https"
    && Hostname(url.netloc).Some?
    && url.path != "" && url.path != "/"
    && '#' !in clientId
    && '@' !in url.netloc
    && !HasDotSegment(url.path)
  }

  predicate AllValidRedirects(hosts: Hosts, uris: seq<string>) {
    forall u | u in uris :: hosts.IsValidRedirect(u)
  }

  predicate MetadataOk(doc: Json, clientId: string)
    requires doc.Obj?
  {
    && Field(doc, "client_id") == Str(clientId)
    && Field(doc, "client_name").Str? && !Blank(Field(doc, "client_name").s)
    && "client_secret" !in doc.fields && "client_secret_expires_at" !in doc.fields
    && Field(doc, "token_endpoint_auth_method") !in
         {Str("client_secret_basic"), Str("client_secret_jwt"), Str("client_secret_post")}
  }

  function ParseCimd(hosts: Hosts, doc: Json, clientId: string): Option<seq<string>> {
    if !doc.Obj? || !MetadataOk(doc, clientId) then None
    else
      var uris := Field(doc, "redirect_uris");
      if uris.Arr? && uris.items != [] && AllStrings(uris.items) && AllValidRedirects(hosts, Strings(uris.items))
      then Some(Strings(uris.items)) else None
  }

  /** The redirects a client metadata document registers; None when nothing validates. */
  function FetchCimdRedirects(env: Env, clientId: string): Option<seq<string>> {
    if !ValidCimdClientId(env.hosts, clientId) then None
    else
      var host := Hostname(env.hosts.UrlParse(clientId).value.netloc).value;
      if env.hosts.IsLoopback(host) || env.hosts.isIp(host) then None
      else match env.document(clientId)
        case None => None
        case Some(doc) => ParseCimd(env.hosts, doc, clientId)
  }

  // ---- registrations ----------------------------------------------------------------------

  function DcrRedirects(env: Env, key: Option<Bytes>, clientId: string): Option<seq<string>> {
    if key.Some? then env.p.ClientRedirectUris(key.value, clientId) else None
  }

  /** The component's own registrations first, then a fetched document for an https client_id. */
  function Registered(env: Env, key: Option<Bytes>, clientId: string): Option<seq<string>> {
    var own := DcrRedirects(env, key, clientId);
    if own.Some? then own
    else
      var url := env.hosts.UrlParse(clientId);
      if url.Some? && url.value.scheme == "https" && env.cimdSession then FetchCimdRedirects(env, clientId) else None
  }

  /** The register view signs only validated lists, so a client_id that verifies carries one. */
  ghost predicate SoundRegistration(env: Env, key: Option<Bytes>, clientId: string) {
    DcrRedirects(env, key, clientId).Some? ==> AllValidRedirects(env.hosts, DcrRedirects(env, key, clientId).value)
  }

  function HostOf(hosts: Hosts, uri: string): string
    requires hosts.IsValidRedirect(uri)
  {
    Hostname(hosts.UrlParse(uri).value.netloc).value
  }

  function OriginAt(hosts: Hosts, uri: string): Origin
    requires hosts.IsValidRedirect(uri)
  {
    hosts.ValidRedirectNamesOrigin(uri);
    hosts.NormalizedOrigin(uri).origin
  }

  predicate IsLoopbackRedirect(hosts: Hosts, uri: string)
    requires hosts.IsValidRedirect(uri)
  {
    hosts.IsLoopback(HostOf(hosts, uri))
  }

  /** RFC 8252 section 7.3: a loopback redirect matches an entry up to its port. */
  predicate LoopbackMatch(hosts: Hosts, entry: string, redirect: string)
    requires hosts.IsValidRedirect(entry) && hosts.IsValidRedirect(redirect)
  {
    var reg, req := hosts.UrlParse(entry).value, hosts.UrlParse(redirect).value;
    && IsLoopbackRedirect(hosts, redirect) && IsLoopbackRedirect(hosts, entry)
    && reg.scheme == req.scheme && HostOf(hosts, entry) == HostOf(hosts, redirect)
    && reg.path == req.path && reg.params == req.params && reg.query == req.query
  }

  predicate RedirectMatches(hosts: Hosts, registered: seq<string>, redirect: string)
    requires AllValidRedirects(hosts, registered) && hosts.IsValidRedirect(redirect)
  {
    redirect in registered || exists entry | entry in registered :: LoopbackMatch(hosts, entry, redirect)
  }

  function OriginClientId(hosts: Hosts, redirect: string): string
    requires hosts.IsValidRedirect(redirect)
  {
    CanonicalOriginUrl(OriginAt(hosts, redirect))
  }

  /** A printed origin used as a client_id names itself again exactly when its host can be printed. */
  lemma OriginClientIdIsIdempotent(hosts: Hosts, redirect: string)
    requires hosts.Lawful() && hosts.IsValidRedirect(redirect)
    ensures var id := OriginClientId(hosts, redirect);
            hosts.NormalizedOrigin(id).At? && CanonicalOriginUrl(hosts.NormalizedOrigin(id).origin) == id
            <==> Reparses(OriginAt(hosts, redirect))
  {
    hide Hosts.Lawful, Hosts.IsValidRedirect, Hosts.NormalizedOrigin, CanonicalOriginUrl, Reparses, InRange;
    hosts.ValidRedirectNamesOrigin(redirect);
    RangeOfNormalizedOrigin(hosts, redirect);
    NormalizeUndoesCanonical(hosts, OriginAt(hosts, redirect));
  }

  function TranslationFor(hosts: Hosts, registered: seq<string>, clientId: string, redirect: string): string
    requires AllValidRedirects(hosts, registered) && hosts.IsValidRedirect(redirect)
  {
    if RedirectMatches(hosts, registered, redirect) then OriginClientId(hosts, redirect) else clientId
  }

  /** Scheme and case-folded authority, the way core compares a client_id with a redirect. */
  function WebOrigin(url: Url): (string, string) { (url.scheme, Lower(url.netloc)) }

  predicate SameWebOrigin(hosts: Hosts, a: string, b: string) {
    && hosts.UrlParse(a).Some? && hosts.UrlParse(b).Some?
    && WebOrigin(hosts.UrlParse(a).value) == WebOrigin(hosts.UrlParse(b).value)
  }

  /** The authorize leg forwards a client_id of the redirect's own origin untouched. */
  predicate FastPath(hosts: Hosts, clientId: string, redirect: string) {
    SameWebOrigin(hosts, clientId, redirect) && hosts.UrlParse(clientId).value.scheme in {"http", "https"}
  }

  function ResolveForwardClientId(env: Env, key: Option<Bytes>, clientId: string, redirect: string): string
    requires env.Lawful() && SoundRegistration(env, key, clientId)
  {
    if clientId == "" || !env.hosts.IsValidRedirect(redirect) then clientId
    else if env.hosts.UrlParse(clientId).None? then clientId
    else if FastPath(env.hosts, clientId, redirect) then clientId
    else
      var registered := Registered(env, key, clientId);
      if registered.None? then clientId
      else
        RegisteredAreValid(env, key, clientId);
        TranslationFor(env.hosts, registered.value, clientId, redirect)
  }

  lemma RegisteredAreValid(env: Env, key: Option<Bytes>, clientId: string)
    requires SoundRegistration(env, key, clientId) && Registered(env, key, clientId).Some?
    ensures AllValidRedirects(env.hosts, Registered(env, key, clientId).value)
  {
  }

  // ---- the redirect-less refresh leg --------------------------------------------------------

  function NonLoopbackOrigins(hosts: Hosts, uris: seq<string>): set<Origin>
    requires AllValidRedirects(hosts, uris)
  {
    if uris == [] then {}
    else
      var n := |uris| - 1;
      NonLoopbackOrigins(hosts, uris[..n]) +
      if IsLoopbackRedirect(hosts, uris[n]) then {} else {OriginAt(hosts, uris[n])}
  }

  /** The loop of _non_loopback_origins. */
  method CollectNonLoopbackOrigins(hosts: Hosts, uris: seq<string>) returns (origins: set<Origin>)
    requires AllValidRedirects(hosts, uris)
    ensures origins == NonLoopbackOrigins(hosts, uris)
  {
    hide Hosts.IsValidRedirect, IsLoopbackRedirect, OriginAt;
    origins := {};
    for i := 0 to |uris|
      invariant origins == NonLoopbackOrigins(hosts, uris[..i])
    {
      assert uris[..i + 1][..i] == uris[..i];
      if !IsLoopbackRedirect(hosts, uris[i]) {
        origins := origins + {OriginAt(hosts, uris[i])};
      }
    }
    assert uris[..|uris|] == uris;
  }

  lemma {:induction false} NonLoopbackMember(hosts: Hosts, uris: seq<string>, o: Origin)
    requires AllValidRedirects(hosts, uris)
    ensures o in NonLoopbackOrigins(hosts, uris) <==>
            exists u | u in uris :: !IsLoopbackRedirect(hosts, u) && OriginAt(hosts, u) == o
  {
    hide Hosts.IsValidRedirect, IsLoopbackRedirect, OriginAt;
    if uris != [] {
      var n := |uris| - 1;
      NonLoopbackMember(hosts, uris[..n], o);
      assert uris == uris[..n] + [uris[n]];
    }
  }

  predicate ReproducibleIdentity(hosts: Hosts, uris: seq<string>)
    requires AllValidRedirects(hosts, uris)
  {
    && |NonLoopbackOrigins(hosts, uris)| == 1
    && forall u | u in uris :: !IsLoopbackRedirect(hosts, u)
  }

  /** The canonical texts stable_translation_origin collects. */
  function StableTexts(hosts: Hosts, uris: seq<string>): set<string>
    requires AllValidRedirects(hosts, uris)
  {
    if uris == [] then {}
    else
      var n := |uris| - 1;
      StableTexts(hosts, uris[..n]) +
      if IsLoopbackRedirect(hosts, uris[n]) then {} else {OriginClientId(hosts, uris[n])}
  }

  lemma {:induction false} StableTextsAreOrigins(hosts: Hosts, uris: seq<string>, text: string)
    requires AllValidRedirects(hosts, uris)
    ensures text in StableTexts(hosts, uris) <==>
            exists o | o in NonLoopbackOrigins(hosts, uris) :: CanonicalOriginUrl(o) == text
  {
    hide Hosts.IsValidRedirect, IsLoopbackRedirect, OriginAt, CanonicalOriginUrl;
    if uris != [] {
      StableTextsAreOrigins(hosts, uris[..|uris| - 1], text);
    }
  }

  /** stable_translation_origin on the collected texts. */
  function StableTranslationOrigin(hosts: Hosts, uris: seq<string>): Option<string>
    requires AllValidRedirects(hosts, uris)
  {
    var texts := StableTexts(hosts, uris);
    if |texts| == 1 then
      SingletonHolds(texts);
      var t :| t in texts && texts == {t};
      Some(t)
    else None
  }

  lemma SingletonHolds<T>(s: set<T>)
    requires |s| == 1
    ensures exists t :: t in s && s == {t}
  {
    var t :| t in s;
    assert |s - {t}| == 0;
    assert s == {t};
  }

  /** Whether each registered redirect shares the client_id's scheme and authority. */
  predicate AllSameWebOrigin(hosts: Hosts, clientId: string, uris: seq<string>) {
    forall u | u in uris :: SameWebOrigin(hosts, clientId, u)
  }

  predicate SomeSameWebOrigin(hosts: Hosts, clientId: string, uris: seq<string>) {
    exists u | u in uris :: SameWebOrigin(hosts, clientId, u)
  }

  /** translated_client_id_for_refresh. */
  function RefreshIdentity(env: Env, key: Option<Bytes>, clientId: string): Disposition
    requires SoundRegistration(env, key, clientId)
  {
    var registered := Registered(env, key, clientId);
    if registered.None? || registered.value == [] then Passthrough
    else
      RegisteredAreValid(env, key, clientId);
      if !ReproducibleIdentity(env.hosts, registered.value) then Unreproducible
      else if env.hosts.UrlParse(clientId).None? then Passthrough
      else if AllSameWebOrigin(env.hosts, clientId, registered.value) then Passthrough
      else if SomeSameWebOrigin(env.hosts, clientId, registered.value) then Unreproducible
      else
        var stable := StableTranslationOrigin(env.hosts, registered.value);
        if stable.None? then Unreproducible else Translated(stable.value)
  }

  // ---- what the two legs agree on -------------------------------------------------------------

  /** Under a reproducible registration there is exactly one text to translate to. */
  lemma StableOriginExists(hosts: Hosts, uris: seq<string>)
    requires AllValidRedirects(hosts, uris) && ReproducibleIdentity(hosts, uris)
    ensures StableTranslationOrigin(hosts, uris).Some?
    ensures forall u | u in uris :: StableTranslationOrigin(hosts, uris) == Some(OriginClientId(hosts, u))
  {
    hide Hosts.IsValidRedirect, IsLoopbackRedirect, OriginAt, CanonicalOriginUrl;
    var origins, texts := NonLoopbackOrigins(hosts, uris), StableTexts(hosts, uris);
    SingletonHolds(origins);
    var o :| o in origins && origins == {o};
    forall t ensures t in texts <==> t == CanonicalOriginUrl(o) {
      StableTextsAreOrigins(hosts, uris, t);
    }
    assert texts == {CanonicalOriginUrl(o)};
    forall u | u in uris ensures OriginClientId(hosts, u) == CanonicalOriginUrl(o) {
      NonLoopbackMember(hosts, uris, OriginAt(hosts, u));
    }
  }

  /** A registered client_id is never the printed origin of a redirect: a component-minted one
      starts with its own prefix, and a metadata URL has a path. */
  lemma RegisteredIsNoOrigin(env: Env, key: Option<Bytes>, clientId: string, redirect: string)
    requires env.Lawful() && Registered(env, key, clientId).Some? && env.hosts.IsValidRedirect(redirect)
    ensures OriginClientId(env.hosts, redirect) != clientId
  {
    hide Hosts.UrlParse, Primitives.ClientRedirectUris, ParseCimd, Hosts.IsValidRedirect, HostInfo, LowerHost;
    env.hosts.ValidRedirectNamesOrigin(redirect);
    RangeOfNormalizedOrigin(env.hosts, redirect);
    var o := OriginAt(env.hosts, redirect);
    if DcrRedirects(env, key, clientId).Some? {
      MintedPrefix(env.p, key.value, clientId);
      assert CanonicalOriginUrl(o)[0] == 'h';
    } else {
      PrintedFormParses(env.hosts, o);
    }
  }

  lemma MintedPrefix(p: Primitives, key: Bytes, clientId: string)
    requires p.ClientRedirectUris(key, clientId).Some?
    ensures clientId != "" && clientId[0] == 'e'
  {
    assert CLIENT_ID_PREFIX[0] == 'e';
  }

  /** What the authorize leg forwards, for every client_id, registration and redirect: the redirect's printed
      origin exactly when the registration matches the redirect and the client_id, which parses, has another
      scheme or authority; otherwise the client_id as it came. */
  lemma TranslatesExactly(env: Env, key: Option<Bytes>, clientId: string, redirect: string)
    requires env.Lawful() && SoundRegistration(env, key, clientId)
    ensures var forwarded := ResolveForwardClientId(env, key, clientId, redirect);
            && (forwarded != clientId <==>
                && MatchesRegistration(env, key, clientId, redirect) && env.hosts.UrlParse(clientId).Some?
                && !SameWebOrigin(env.hosts, clientId, redirect))
            && (forwarded != clientId ==>
                env.hosts.IsValidRedirect(redirect) && forwarded == OriginClientId(env.hosts, redirect))
  {
    hide Hosts.UrlParse, Registered, Hosts.IsValidRedirect, OriginClientId, LoopbackMatch, SameWebOrigin, FastPath,
      SoundRegistration, Env.Lawful;
    if env.hosts.IsValidRedirect(redirect) {
      FastPathIsSameOrigin(env.hosts, clientId, redirect);
      if Registered(env, key, clientId).Some? {
        RegisteredAreValid(env, key, clientId);
        RegisteredIsNamed(env, key, clientId);
        RegisteredIsNoOrigin(env, key, clientId, redirect);
      }
    }
  }

  /** The refresh leg against the authorize leg, for every registration and every redirect. An
      answer to pass through is right for any redirect. An answer naming an origin is right
      exactly for a redirect that matches the registration. */
  lemma RefreshAgreesWithAuthorize(env: Env, key: Option<Bytes>, clientId: string, redirect: string)
    requires env.Lawful() && SoundRegistration(env, key, clientId)
    ensures match RefreshIdentity(env, key, clientId)
            case Unreproducible => true
            case Passthrough => ResolveForwardClientId(env, key, clientId, redirect) == clientId
            case Translated(o) =>
              ResolveForwardClientId(env, key, clientId, redirect) == o <==>
                  MatchesRegistration(env, key, clientId, redirect)
  {
    hide Hosts.UrlParse, Registered, Hosts.IsValidRedirect, OriginAt, IsLoopbackRedirect, CanonicalOriginUrl,
      OriginClientId, NonLoopbackOrigins, StableTranslationOrigin, SoundRegistration, LoopbackMatch;
    var registered := Registered(env, key, clientId);
    if registered.Some? {
      RegisteredAreValid(env, key, clientId);
      RegisteredIsNamed(env, key, clientId);
      if registered.value != [] && ReproducibleIdentity(env.hosts, registered.value) {
        StableOriginExists(env.hosts, registered.value);
        RegisteredIsNoOrigin(env, key, clientId, registered.value[0]);
        if env.hosts.IsValidRedirect(redirect) {
          FastPathIsSameOrigin(env.hosts, clientId, redirect);
          LoopbackNeverMatches(env.hosts, registered.value, redirect);
        }
      }
    }
  }

  lemma RegisteredIsNamed(env: Env, key: Option<Bytes>, clientId: string)
    requires Registered(env, key, clientId).Some?
    ensures clientId != ""
  {
    assert DropUnsafe(StripLead("")) == "";
  }

  lemma FastPathIsSameOrigin(hosts: Hosts, clientId: string, redirect: string)
    requires hosts.IsValidRedirect(redirect)
    ensures FastPath(hosts, clientId, redirect) <==> SameWebOrigin(hosts, clientId, redirect)
  {
    hide Hosts.UrlParse;
  }

  /** Whether the redirect is a valid one that the client_id's registration lists or loopback-matches. */
  predicate MatchesRegistration(env: Env, key: Option<Bytes>, clientId: string, redirect: string)
    requires SoundRegistration(env, key, clientId)
  {
    var registered := Registered(env, key, clientId);
    registered.Some? && env.hosts.IsValidRedirect(redirect) &&
    (RegisteredAreValid(env, key, clientId); RedirectMatches(env.hosts, registered.value, redirect))
  }

  lemma LoopbackNeverMatches(hosts: Hosts, uris: seq<string>, redirect: string)
    requires AllValidRedirects(hosts, uris) && ReproducibleIdentity(hosts, uris) && hosts.IsValidRedirect(redirect)
    ensures RedirectMatches(hosts, uris, redirect) <==> redirect in uris
  {
  }
}
