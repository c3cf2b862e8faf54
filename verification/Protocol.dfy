/** ha_auth mode as a protocol between clients, the component and core. Clients register, authorize,
    exchange codes, refresh and revoke in any order and number; core may rotate or forget a refresh
    token at any step; the signing key may change at any step. Every request goes through the
    component's own decisions (TokenLeg). */
module Protocol {
  import opened Wrappers
  import opened Text
  import opened Base64Url
  import opened Blobs
  import opened JsonValues
  import opened Urls
  import opened Origins
  import opened Identity
  import opened TokenLeg

  /** A client_id the register view handed out: the key and the list it signed. */
  datatype Registration = Registration(mintKey: Bytes, uris: seq<string>, issuedAt: int)

  /** A code core issued: the client_id it saw, and what the client had presented. */
  datatype CodeRecord = CodeRecord(boundTo: string, client: string, redirect: string)

  /** A refresh token a client holds: the value it was given, the client_id and redirect it
      presents, core's token behind the value and the key of the minting time. */
  datatype Grant = Grant(value: string, client: string, redirect: string, token: string, mintKey: Bytes)

  /** `bound` remembers the client_id of every refresh token core ever minted, `live` the ones core
      still redeems. */
  datatype State = State(
    key: Bytes,
    registered: map<string, Registration>,
    codes: map<string, CodeRecord>,
    bound: map<string, string>,
    live: set<string>,
    grants: set<Grant>)

  datatype Event =
    | Register(uris: seq<string>, issuedAt: int)
    | Authorize(client: string, redirect: string, code: string, granted: bool)
    | Exchange(code: string, form: Items, token: string, extras: map<string, Json>)
    | Refresh(grant: Grant, form: Items, rotated: Option<string>, extras: map<string, Json>)
    | Revoke(grant: Grant, form: Items, scoped: bool)
    | RotateKey(newKey: Bytes)
    | CoreForgets(token: string)

  // ---- core and the client ---------------------------------------------------------------

  /** The least core asks of an authorization: an http or https client_id of the redirect's scheme
      and case-folded authority. */
  predicate CoreAllows(hosts: Hosts, clientId: string, redirect: string) {
    FastPath(hosts, clientId, redirect)
  }

  /** The form core receives on a token request, if any. */
  function Received(leg: Leg, form: Items): Option<Items> {
    match leg
    case Refuse => None
    case Relay => Some(form)
    case Proxy(sent, _) => Some(sent)
  }

  /** The body of core's answer with a refresh token in it, as it reaches the client. */
  function Relayed(p: Primitives, key: Bytes, leg: Leg, client: string, token: string,
                   extras: map<string, Json>): Bytes
  {
    var body := p.dumps(Obj(extras["refresh_token" := Str(token)]));
    match leg
    case Proxy(_, forwardId) => p.RewriteTokenResponse(key, body, forwardId, client)
    case _ => body
  }

  function ReadRefreshToken(p: Primitives, body: Bytes): Option<string> {
    match p.loads(body)
    case Some(Obj(m)) => StringField(Obj(m), "refresh_token")
    case _ => None
  }

  /** A token core makes up: new, and never in the envelope's shape. */
  predicate FreshToken(s: State, token: string) {
    token !in s.bound && !StartsWith(token, ENVELOPE_PREFIX)
  }

  /** Nobody but the register view signs: a client_id that verifies, in whatever spelling, names a list the
      view handed out a client_id for. */
  ghost predicate Unforged(env: Env, s: State, client: string) {
    DcrRedirects(env, Some(s.key), client).Some? ==>
      exists id :: id in s.registered && s.registered[id].uris == DcrRedirects(env, Some(s.key), client).value
  }

  predicate IsRefreshOf(g: Grant, form: Items) {
    && Get(form, "action") != Some("revoke")
    && GetOr(form, "grant_type") == "refresh_token"
    && GetOr(form, "refresh_token") == g.value
    && GetOr(form, "client_id") == g.client
    && GetOr(form, "redirect_uri") in {"", g.redirect}
  }

  predicate IsExchangeOf(code: string, r: CodeRecord, form: Items) {
    && Get(form, "action") != Some("revoke")
    && GetOr(form, "grant_type") == "authorization_code"
    && GetOr(form, "code") == code
    && GetOr(form, "client_id") == r.client
    && GetOr(form, "redirect_uri") == r.redirect
  }

  /** The form a revocation reaches core with, on either of the two endpoints. */
  function RevocationReceived(env: Env, s: State, form: Items, scoped: bool): Items
    requires env.Lawful() && SoundRegistration(env, Some(s.key), GetOr(form, "client_id"))
  {
    if scoped then
      match RevokeRewriteSpec(env.p, Some(s.key), form)
      case None => form
      case Some(rewritten) => rewritten
    else
      match Received(TokenLegSpec(env, Some(s.key), form), form)
      case None => form
      case Some(sent) => sent
  }

  // ---- steps --------------------------------------------------------------------------------

  ghost predicate Enabled(env: Env, s: State, e: Event) {
    match e
    case Register(uris, _) => uris != [] && AllValidRedirects(env.hosts, uris)
    case Authorize(client, redirect, code, granted) =>
      && Unforged(env, s, client) && SoundRegistration(env, Some(s.key), client)
      && code !in s.codes
      && (granted ==> env.Lawful() && CoreAllows(env.hosts,
          ResolveForwardClientId(env, Some(s.key), client, redirect), redirect))
    case Exchange(code, form, token, _) =>
      && code in s.codes && IsExchangeOf(code, s.codes[code], form)
      && Unforged(env, s, s.codes[code].client)
      && FreshToken(s, token)
    case Refresh(g, form, rotated, _) =>
      && g in s.grants && IsRefreshOf(g, form) && Unforged(env, s, g.client)
      && (rotated.Some? ==> FreshToken(s, rotated.value))
    case Revoke(g, form, scoped) =>
      && g in s.grants && GetOr(form, "token") == g.value
      && Unforged(env, s, GetOr(form, "client_id"))
      && (!scoped ==> Get(form, "action") == Some("revoke"))
    case RotateKey(_) => true
    case CoreForgets(_) => true
  }

  /** Everything the component and core know is consistent: see the grants clause for what makes
      refreshes work. */
  ghost predicate Inv(env: Env, s: State) {
    && (forall id | id in s.registered ::
          AllValidRedirects(env.hosts, s.registered[id].uris) &&
          id == env.p.MintClientId(s.registered[id].mintKey, s.registered[id].uris, s.registered[id].issuedAt))
    && (forall code | code in s.codes :: CoreAllows(env.hosts, s.codes[code].boundTo, s.codes[code].redirect))
    && (forall t | t in s.bound :: !StartsWith(t, ENVELOPE_PREFIX))
    && s.live <= s.bound.Keys
    && (forall g | g in s.grants :: GrantInv(env, s, g))
  }

  predicate Enveloped(g: Grant) { StartsWith(g.value, ENVELOPE_PREFIX) }

  /** A grant is either an envelope around core's token and the client_id core bound it to, or core's
      raw token, bound to the client_id the client presents. */
  ghost predicate GrantInv(env: Env, s: State, g: Grant) {
    && g.token in s.bound
    && if Enveloped(g) then g.value == env.p.Wrap(g.mintKey, g.token, s.bound[g.token], g.client)
       else g.value == g.token && s.bound[g.token] == g.client && Untranslated(env, g.client, g.redirect)
  }

  /** A client_id core took as it was, and whose redirect-less refresh has an answer. No key has a say
      in it: see WebClientsIgnoreTheKey. */
  ghost predicate Untranslated(env: Env, client: string, redirect: string) {
    && env.Lawful()
    && CoreAllows(env.hosts, client, redirect)
    && SoundRegistration(env, None, client)
    && ResolveForwardClientId(env, None, client, redirect) == client
    && RefreshIdentity(env, None, client) != Unreproducible
  }

  // ---- registrations over key changes ------------------------------------------------------------

  /** Whatever key checks a minted client_id, it names the list it was minted for or nothing. */
  lemma RegistrationUnderAnyKey(p: Primitives, mintKey: Bytes, key: Bytes, uris: seq<string>, issuedAt: int)
    requires p.Lawful()
    ensures p.ClientRedirectUris(key, p.MintClientId(mintKey, uris, issuedAt)) in {None, Some(uris)}
  {
    p.RegistrationAnatomy(mintKey, uris, issuedAt);
    assert Strings(Quote(uris)) == uris;
  }

  lemma UnforgedIsSound(env: Env, s: State, client: string)
    requires env.Lawful() && Inv(env, s) && Unforged(env, s, client)
    ensures SoundRegistration(env, Some(s.key), client)
  {
    hide GrantInv, CoreAllows, Primitives.ClientRedirectUris, Primitives.MintClientId;
  }

  lemma {:induction false} CleanKeepsFirst(s: string)
    requires s != "" && !Unsafe(s[0])
    ensures DropUnsafe(s) != "" && DropUnsafe(s)[0] == s[0]
  {
    if |s| > 1 {
      CleanKeepsFirst(s[..|s| - 1]);
    }
  }

  /** A component-minted client_id has no web scheme. */
  lemma MintedIsNotWeb(hosts: Hosts, client: string)
    requires client != "" && client[0] == 'e' && hosts.UrlParse(client).Some?
    ensures hosts.UrlParse(client).value.scheme !in {"http", "https"}
  {
    hide Hosts.BracketsOk, SplitAuthority, SplitParams, AllSchemeChars;
    CleanKeepsFirst(client);
    var clean := DropUnsafe(StripLead(client));
    var i := IndexOf(clean, ':');
    if SplitScheme(clean).0 != "" {
      assert SplitScheme(clean).0 == Lower(clean[..i]);
      assert SplitScheme(clean).0[0] == 'e';
    }
  }

  predicate WebClient(hosts: Hosts, client: string) {
    hosts.UrlParse(client).Some? && hosts.UrlParse(client).value.scheme in {"http", "https"}
  }

  /** For a client_id with a web scheme the signing key decides nothing. */
  lemma WebClientsIgnoreTheKey(env: Env, key: Bytes, client: string)
    requires WebClient(env.hosts, client)
    ensures Registered(env, Some(key), client) == Registered(env, None, client)
    ensures SoundRegistration(env, Some(key), client) && SoundRegistration(env, None, client)
  {
    hide Hosts.UrlParse, Primitives.ClientRedirectUris, FetchCimdRedirects;
    if env.p.ClientRedirectUris(key, client).Some? {
      MintedPrefix(env.p, key, client);
      MintedIsNotWeb(env.hosts, client);
    }
  }

  lemma DecisionsIgnoreTheKey(env: Env, key: Bytes, client: string, redirect: string)
    requires env.Lawful() && WebClient(env.hosts, client)
    ensures SoundRegistration(env, Some(key), client) && SoundRegistration(env, None, client)
    ensures ResolveForwardClientId(env, Some(key), client, redirect) ==
              ResolveForwardClientId(env, None, client, redirect)
    ensures RefreshIdentity(env, Some(key), client) == RefreshIdentity(env, None, client)
    ensures env.hosts.UrlParse(client).value.scheme == "http" ==> RefreshIdentity(env, Some(key), client) == Passthrough
  {
    hide Hosts.UrlParse, Hosts.IsValidRedirect, SoundRegistration, FastPath, TranslationFor, ReproducibleIdentity,
      DcrRedirects, StableTranslationOrigin, AllSameWebOrigin, SomeSameWebOrigin, Registered, Env.Lawful;
    WebClientsIgnoreTheKey(env, key, client);
    if env.hosts.UrlParse(client).value.scheme == "http" {
      HttpIsUnregistered(env, key, client);
    }
  }

  lemma HttpIsUnregistered(env: Env, key: Bytes, client: string)
    requires WebClient(env.hosts, client) && env.hosts.UrlParse(client).value.scheme == "http"
    ensures Registered(env, Some(key), client) == None
  {
    hide Hosts.UrlParse, Primitives.ClientRedirectUris;
    WebClientsIgnoreTheKey(env, key, client);
  }

  /** An origin the refresh leg derives is never the client_id itself. */
  lemma TranslationIsForeign(env: Env, key: Option<Bytes>, client: string)
    requires env.Lawful() && SoundRegistration(env, key, client)
    requires RefreshIdentity(env, key, client).Translated?
    ensures RefreshIdentity(env, key, client).origin != client
  {
    hide Hosts.UrlParse, Registered, Hosts.IsValidRedirect, OriginAt, IsLoopbackRedirect, OriginClientId,
      NonLoopbackOrigins, StableTranslationOrigin, SoundRegistration, Env.Lawful;
    RegisteredAreValid(env, key, client);
    var uris := Registered(env, key, client).value;
    StableOriginExists(env.hosts, uris);
    RegisteredIsNoOrigin(env, key, client, uris[0]);
  }

  lemma AllowedIsWeb(hosts: Hosts, client: string, redirect: string)
    requires CoreAllows(hosts, client, redirect)
    ensures WebClient(hosts, client) && client != ""
  {
    hide Hosts.BracketsOk;
    assert DropUnsafe(StripLead("")) == "";
  }

  // ---- the refresh leg ------------------------------------------------------------------------

  /** Whether core receives the token behind the grant under the client_id it bound it to. */
  predicate CarriesBoundPair(s: State, g: Grant, sent: Items)
    requires g.token in s.bound
  {
    GetOr(sent, "refresh_token") == g.token && GetOr(sent, "client_id") == s.bound[g.token]
  }

  /** A raw token refreshed without its redirect, under a registration that derives an origin. */
  predicate Misderived(env: Env, g: Grant, form: Items)
    requires SoundRegistration(env, None, g.client)
  {
    !Enveloped(g) && GetOr(form, "redirect_uri") == "" && RefreshIdentity(env, None, g.client).Translated?
  }

  lemma EnvelopedRefresh(env: Env, s: State, g: Grant, form: Items)
    requires env.Lawful() && GrantInv(env, s, g) && Enveloped(g) && IsRefreshOf(g, form)
    requires SoundRegistration(env, Some(s.key), g.client)
    ensures var leg, content := TokenLegSpec(env, Some(s.key), form), env.p.Unwrap(s.key, g.value, Some(g.client));
            && (leg.Refuse? <==> !content.Pair?)
            && (leg.Refuse? ==> g.mintKey != s.key)
            && (!leg.Refuse? ==> leg.Proxy? && leg.forwardId == s.bound[g.token] && CarriesBoundPair(s, g, leg.form))
  {
    hide SoundRegistration, Primitives.Unwrap, Primitives.Wrap, Put, Values, StartsWith, Primitives.Lawful,
      Hosts.Lawful;
    env.p.UnwrapUnderAnyKey(g.mintKey, s.key, g.token, s.bound[g.token], g.client, Some(g.client));
    env.p.UnwrapUndoesWrap(g.mintKey, g.token, s.bound[g.token], g.client, Some(g.client));
    EnvelopeNeverReachesCore(env, s.key, form);
    env.p.AbsentIsUnprefixed(s.key, g.value, Some(g.client));
  }

  lemma RawRefresh(env: Env, s: State, g: Grant, form: Items)
    requires env.Lawful() && GrantInv(env, s, g) && !Enveloped(g) && IsRefreshOf(g, form)
    requires SoundRegistration(env, Some(s.key), g.client)
    ensures var leg := TokenLegSpec(env, Some(s.key), form);
            && !leg.Refuse?
            && (!Misderived(env, g, form) ==> leg.Relay? && CarriesBoundPair(s, g, form))
            && (Misderived(env, g, form) ==> leg.Proxy? && !CarriesBoundPair(s, g, leg.form))
  {
    hide SoundRegistration, Primitives.Unwrap, Put, Values, StartsWith, Env.Lawful, ResolveForwardClientId,
      RefreshIdentity, CoreAllows, CodeLegForcesProxy;
    AllowedIsWeb(env.hosts, g.client, g.redirect);
    DecisionsIgnoreTheKey(env, s.key, g.client, g.redirect);
    env.p.AbsentIsUnprefixed(s.key, g.value, Some(g.client));
    AllowedRedirectIsNamed(env.hosts, g.client, g.redirect);
    match RefreshIdentity(env, None, g.client) {
      case Translated(origin) =>
        TranslationIsForeign(env, None, g.client);
        ValuesPut(form, "client_id", origin, "client_id");
        assert GetOr(Put(form, "client_id", origin), "client_id") == origin;
      case _ =>
    }
  }

  lemma AllowedRedirectIsNamed(hosts: Hosts, client: string, redirect: string)
    requires CoreAllows(hosts, client, redirect)
    ensures redirect != ""
  {
    hide Hosts.BracketsOk;
    assert DropUnsafe(StripLead("")) == "";
  }

  /** One refresh of any grant in any consistent state, with or without its redirect. It is refused
      here exactly when its envelope does not verify under the current key, which then is not the
      key it was minted under. Otherwise core receives exactly the pair it bound, unless the grant
      is a raw token whose registration derives a different origin. */
  lemma RefreshReachesItsBinding(env: Env, s: State, g: Grant, form: Items)
    requires env.Lawful() && Inv(env, s) && Enabled(env, s, Refresh(g, form, None, map[]))
    ensures SoundRegistration(env, Some(s.key), g.client) && (Enveloped(g) || SoundRegistration(env, None, g.client))
    ensures var leg := TokenLegSpec(env, Some(s.key), form);
            && (leg.Refuse? <==> Enveloped(g) && !env.p.Unwrap(s.key, g.value, Some(g.client)).Pair?)
            && (leg.Refuse? ==> g.mintKey != s.key)
            && (!leg.Refuse? ==>
                  (CarriesBoundPair(s, g, Received(leg, form).value) <==> Enveloped(g) || !Misderived(env, g, form)))
  {
    hide GrantInv, Primitives.Unwrap, SoundRegistration, Env.Lawful, CarriesBoundPair, StartsWith, TokenLegSpec,
      Misderived;
    UnforgedIsSound(env, s, g.client);
    assert GrantInv(env, s, g);
    if Enveloped(g) {
      EnvelopedRefresh(env, s, g, form);
    } else {
      RawIsSound(env, s, g);
      RawRefresh(env, s, g, form);
    }
  }

  lemma RawIsSound(env: Env, s: State, g: Grant)
    requires GrantInv(env, s, g) && !Enveloped(g)
    ensures SoundRegistration(env, None, g.client)
  {
  }

  /** The derivation goes wrong only for a redirect the registration does not list. */
  lemma MisderivedMeansUnregistered(env: Env, s: State, g: Grant, form: Items)
    requires env.Lawful() && GrantInv(env, s, g) && !Enveloped(g)
    ensures SoundRegistration(env, None, g.client)
    ensures Misderived(env, g, form) ==> !MatchesRegistration(env, None, g.client, g.redirect)
  {
    hide SoundRegistration, Env.Lawful, ResolveForwardClientId, RefreshIdentity, CoreAllows, MatchesRegistration,
      StartsWith;
    RawIsSound(env, s, g);
    RefreshAgreesWithAuthorize(env, None, g.client, g.redirect);
    if RefreshIdentity(env, None, g.client).Translated? {
      TranslationIsForeign(env, None, g.client);
    }
  }

  // ---- the transition function ------------------------------------------------------------------

  predicate Initial(s: State) {
    s.registered == map[] && s.codes == map[] && s.bound == map[] && s.live == {} && s.grants == {}
  }

  /** Core mints `token` for `boundTo` and the client keeps what the relayed answer holds. */
  function Minted(env: Env, s: State, leg: Leg, client: string, redirect: string, boundTo: string,
                  token: string, extras: map<string, Json>): State {
    var value := ReadRefreshToken(env.p, Relayed(env.p, s.key, leg, client, token, extras));
    s.(bound := s.bound[token := boundTo],
       live := s.live + {token},
       grants := s.grants + if value.Some? then {Grant(value.value, client, redirect, token, s.key)} else {})
  }

  function AfterExchange(env: Env, s: State, code: string, form: Items, token: string, extras: map<string, Json>): State
    requires code in s.codes && env.Lawful() && SoundRegistration(env, Some(s.key), GetOr(form, "client_id"))
  {
    var r, leg := s.codes[code], TokenLegSpec(env, Some(s.key), form);
    var sent := Received(leg, form);
    if sent.None? || GetOr(sent.value, "client_id") != r.boundTo then s
    else Minted(env, s.(codes := s.codes - {code}), leg, r.client, r.redirect, r.boundTo, token, extras)
  }

  function AfterRefresh(env: Env, s: State, g: Grant, form: Items, rotated: Option<string>,
                        extras: map<string, Json>): State
    requires env.Lawful() && SoundRegistration(env, Some(s.key), GetOr(form, "client_id"))
  {
    var leg := TokenLegSpec(env, Some(s.key), form);
    var sent := Received(leg, form);
    if sent.None? || rotated.None? then s
    else
      var token, clientId := GetOr(sent.value, "refresh_token"), GetOr(sent.value, "client_id");
      if token in s.live && token in s.bound && s.bound[token] == clientId
      then Minted(env, s.(live := s.live - {token}), leg, g.client, g.redirect, clientId, rotated.value, extras)
      else s
  }

  ghost function Next(env: Env, s: State, e: Event): State
    requires env.Lawful() && Inv(env, s) && Enabled(env, s, e)
  {
    match e
    case Register(uris, issuedAt) =>
      s.(registered := s.registered[env.p.MintClientId(s.key, uris, issuedAt) := Registration(s.key, uris, issuedAt)])
    case Authorize(client, redirect, code, granted) =>
      UnforgedIsSound(env, s, client);
      if granted
      then s.(codes := s.codes[code := CodeRecord(ResolveForwardClientId(env, Some(s.key), client, redirect), client,
          redirect)])
      else s
    case Exchange(code, form, token, extras) =>
      UnforgedIsSound(env, s, GetOr(form, "client_id"));
      AfterExchange(env, s, code, form, token, extras)
    case Refresh(g, form, rotated, extras) =>
      UnforgedIsSound(env, s, GetOr(form, "client_id"));
      AfterRefresh(env, s, g, form, rotated, extras)
    case Revoke(g, form, scoped) =>
      UnforgedIsSound(env, s, GetOr(form, "client_id"));
      s.(live := s.live - {GetOr(RevocationReceived(env, s, form, scoped), "token")})
    case RotateKey(newKey) => s.(key := newKey)
    case CoreForgets(token) => s.(live := s.live - {token})
  }

  /** A step of a run; nothing is said about what follows an inconsistent state. */
  ghost predicate Step(env: Env, s: State, e: Event, s': State)
    requires env.Lawful()
  {
    Enabled(env, s, e) && (Inv(env, s) ==> s' == Next(env, s, e))
  }

  ghost predicate Run(env: Env, states: seq<State>, events: seq<Event>)
    requires env.Lawful()
  {
    && |states| == |events| + 1 && Initial(states[0])
    && forall i | 0 <= i < |events| :: Step(env, states[i], events[i], states[i + 1])
  }

  // ---- every step keeps the invariant -------------------------------------------------------------

  lemma RelayedValue(p: Primitives, key: Bytes, leg: Leg, client: string, token: string, extras: map<string, Json>)
    requires p.Lawful()
    ensures ReadRefreshToken(p, Relayed(p, key, leg, client, token, extras)) ==
            Some(if leg.Proxy? then p.Wrap(key, token, leg.forwardId, client) else token)
  {
    hide Primitives.Wrap;
  }

  lemma GrantSurvives(env: Env, s: State, s': State, g: Grant)
    requires GrantInv(env, s, g) && g.token in s'.bound && s'.bound[g.token] == s.bound[g.token]
    ensures GrantInv(env, s', g)
  {
    hide Primitives.Wrap, Untranslated, StartsWith;
  }

  /** A token core minted on a leg whose outgoing client_id it then bound makes a good grant. */
  lemma MintedKeepsInv(env: Env, s: State, leg: Leg, client: string, redirect: string, boundTo: string,
                       token: string, extras: map<string, Json>)
    requires env.Lawful() && Inv(env, s) && FreshToken(s, token)
    requires leg.Proxy? ==> leg.forwardId == boundTo
    requires !leg.Proxy? ==> boundTo == client && Untranslated(env, client, redirect)
    ensures Inv(env, Minted(env, s, leg, client, redirect, boundTo, token, extras))
  {
    hide Primitives.Wrap, Primitives.MintClientId, Untranslated, GrantInv, AllValidRedirects, CoreAllows, Relayed,
      Primitives.Lawful, Hosts.Lawful;
    var s' := Minted(env, s, leg, client, redirect, boundTo, token, extras);
    RelayedValue(env.p, s.key, leg, client, token, extras);
    var value := if leg.Proxy? then env.p.Wrap(s.key, token, leg.forwardId, client) else token;
    forall g | g in s'.grants ensures GrantInv(env, s', g) {
      if g in s.grants {
        TokenIsBound(env, s, g);
        GrantSurvives(env, s, s', g);
      } else {
        NewGrant(env, s', leg, g, boundTo);
      }
    }
  }

  lemma TokenIsBound(env: Env, s: State, g: Grant)
    requires GrantInv(env, s, g)
    ensures g.token in s.bound
  {
  }

  lemma NewGrant(env: Env, s: State, leg: Leg, g: Grant, boundTo: string)
    requires g.token in s.bound && s.bound[g.token] == boundTo && !StartsWith(g.token, ENVELOPE_PREFIX)
    requires g.value == if leg.Proxy? then env.p.Wrap(g.mintKey, g.token, leg.forwardId, g.client) else g.token
    requires leg.Proxy? ==> leg.forwardId == boundTo
    requires !leg.Proxy? ==> boundTo == g.client && Untranslated(env, g.client, g.redirect)
    ensures GrantInv(env, s, g)
  {
    hide Untranslated;
  }

  /** A code leg that core accepts either is proxied under the bound client_id or leaves a client_id
      that needs no translation. */
  lemma ExchangeMatchesAuthorize(env: Env, s: State, code: string, form: Items)
    requires env.Lawful() && code in s.codes && IsExchangeOf(code, s.codes[code], form)
    requires CoreAllows(env.hosts, s.codes[code].boundTo, s.codes[code].redirect)
    requires SoundRegistration(env, Some(s.key), s.codes[code].client)
    ensures var r, leg := s.codes[code], TokenLegSpec(env, Some(s.key), form);
            var sent := Received(leg, form);
            sent.Some? && GetOr(sent.value, "client_id") == r.boundTo ==>
              if leg.Proxy? then leg.forwardId == r.boundTo
              else r.boundTo == r.client && Untranslated(env, r.client, r.redirect)
  {
    hide SoundRegistration, Primitives.Unwrap, Put, Values, Env.Lawful, ResolveForwardClientId, RefreshIdentity,
      CoreAllows;
    var r, leg := s.codes[code], TokenLegSpec(env, Some(s.key), form);
    AllowedIsWeb(env.hosts, r.boundTo, r.redirect);
    if leg.Proxy? {
      ValuesPut(form, "client_id", leg.forwardId, "client_id");
      assert GetOr(Put(form, "client_id", leg.forwardId), "client_id") == leg.forwardId;
    } else if leg.Relay? && r.boundTo == r.client {
      DecisionsIgnoreTheKey(env, s.key, r.client, r.redirect);
    }
  }

  lemma ExchangeKeepsInv(env: Env, s: State, code: string, form: Items, token: string, extras: map<string, Json>)
    requires env.Lawful() && Inv(env, s) && Enabled(env, s, Exchange(code, form, token, extras))
    ensures SoundRegistration(env, Some(s.key), GetOr(form, "client_id"))
    ensures Inv(env, AfterExchange(env, s, code, form, token, extras))
  {
    hide SoundRegistration, Env.Lawful, CoreAllows, GrantInv, TokenLegSpec, Received, Minted, Untranslated,
      AllValidRedirects, Unforged, Primitives.MintClientId;
    UnforgedIsSound(env, s, GetOr(form, "client_id"));
    ExchangeMatchesAuthorize(env, s, code, form);
    var r, leg := s.codes[code], TokenLegSpec(env, Some(s.key), form);
    var sent := Received(leg, form);
    if sent.Some? && GetOr(sent.value, "client_id") == r.boundTo {
      var t := s.(codes := s.codes - {code});
      forall g | g in t.grants ensures GrantInv(env, t, g) {
        TokenIsBound(env, s, g);
        GrantSurvives(env, s, t, g);
      }
      MintedKeepsInv(env, t, leg, r.client, r.redirect, r.boundTo, token, extras);
    }
  }

  lemma RefreshKeepsInv(env: Env, s: State, g: Grant, form: Items, rotated: Option<string>, extras: map<string, Json>)
    requires env.Lawful() && Inv(env, s) && Enabled(env, s, Refresh(g, form, rotated, extras))
    ensures SoundRegistration(env, Some(s.key), GetOr(form, "client_id"))
    ensures Inv(env, AfterRefresh(env, s, g, form, rotated, extras))
  {
    hide SoundRegistration, Env.Lawful, CoreAllows, GrantInv, TokenLegSpec, Minted, Untranslated, AllValidRedirects,
      Unforged, Primitives.MintClientId, StartsWith, Values, Misderived, Primitives.Unwrap;
    UnforgedIsSound(env, s, g.client);
    TokenIsBound(env, s, g);
    var leg := TokenLegSpec(env, Some(s.key), form);
    var sent := Received(leg, form);
    if sent.Some? && rotated.Some? {
      var token, clientId := GetOr(sent.value, "refresh_token"), GetOr(sent.value, "client_id");
      if token in s.live && s.bound[token] == clientId {
        var t := s.(live := s.live - {token});
        forall h | h in t.grants ensures GrantInv(env, t, h) {
          TokenIsBound(env, s, h);
          GrantSurvives(env, s, t, h);
        }
        AcceptedRefresh(env, s, g, form);
        MintedKeepsInv(env, t, leg, g.client, g.redirect, clientId, rotated.value, extras);
      }
    }
  }

  /** A refresh core accepts is proxied under the bound client_id, or relayed for a client_id that
      needs no translation. */
  lemma AcceptedRefresh(env: Env, s: State, g: Grant, form: Items)
    requires env.Lawful() && GrantInv(env, s, g) && IsRefreshOf(g, form)
    requires SoundRegistration(env, Some(s.key), g.client)
    requires var sent := Received(TokenLegSpec(env, Some(s.key), form), form);
             sent.Some? && GetOr(sent.value, "refresh_token") in s.bound
             && s.bound[GetOr(sent.value, "refresh_token")] == GetOr(sent.value, "client_id")
    ensures var leg := TokenLegSpec(env, Some(s.key), form);
            var clientId := GetOr(Received(leg, form).value, "client_id");
            && (leg.Proxy? ==> leg.forwardId == clientId)
            && (!leg.Proxy? ==> clientId == g.client && Untranslated(env, g.client, g.redirect))
  {
    hide SoundRegistration, Env.Lawful, TokenLegSpec, Untranslated, StartsWith, Values, Misderived, Primitives.Unwrap,
      Primitives.Wrap;
    if Enveloped(g) {
      EnvelopedRefresh(env, s, g, form);
    } else {
      RawIsSound(env, s, g);
      RawRefresh(env, s, g, form);
      RawProxyCarriesToken(env, s, g, form);
    }
  }

  /** A raw token is forwarded as it is, whatever client_id goes with it. */
  lemma RawProxyCarriesToken(env: Env, s: State, g: Grant, form: Items)
    requires env.Lawful() && GrantInv(env, s, g) && !Enveloped(g) && IsRefreshOf(g, form)
    requires SoundRegistration(env, Some(s.key), g.client)
    ensures var leg := TokenLegSpec(env, Some(s.key), form);
            leg.Proxy? ==> GetOr(leg.form, "refresh_token") == g.token
  {
    hide SoundRegistration, Primitives.Unwrap, Put, Values, StartsWith, Env.Lawful, ResolveForwardClientId,
      RefreshIdentity, CoreAllows, CodeLegForcesProxy;
    env.p.AbsentIsUnprefixed(s.key, g.value, Some(g.client));
    var leg := TokenLegSpec(env, Some(s.key), form);
    if leg.Proxy? {
      ValuesPut(form, "client_id", leg.forwardId, "refresh_token");
    }
  }

  lemma OtherStepsKeepInv(env: Env, s: State, e: Event)
    requires env.Lawful() && Inv(env, s) && Enabled(env, s, e) && !e.Exchange? && !e.Refresh?
    ensures Inv(env, Next(env, s, e))
  {
    hide SoundRegistration, Env.Lawful, CoreAllows, GrantInv, AllValidRedirects, Unforged, Primitives.MintClientId,
      ResolveForwardClientId, RevocationReceived, StartsWith;
    var s' := Next(env, s, e);
    forall g | g in s'.grants ensures GrantInv(env, s', g) {
      TokenIsBound(env, s, g);
      GrantSurvives(env, s, s', g);
    }
  }

  lemma StepKeepsInv(env: Env, s: State, e: Event)
    requires env.Lawful() && Inv(env, s) && Enabled(env, s, e)
    ensures Inv(env, Next(env, s, e))
  {
    hide Inv, Enabled, Env.Lawful, AfterExchange, AfterRefresh;
    match e {
      case Exchange(code, form, token, extras) => ExchangeKeepsInv(env, s, code, form, token, extras);
      case Refresh(g, form, rotated, extras) => RefreshKeepsInv(env, s, g, form, rotated, extras);
      case _ => OtherStepsKeepInv(env, s, e);
    }
  }

  lemma {:induction false} RunKeepsInv(env: Env, states: seq<State>, events: seq<Event>, i: nat)
    requires env.Lawful() && Run(env, states, events) && i < |states|
    ensures Inv(env, states[i])
  {
    hide Enabled, Next, Env.Lawful;
    if i > 0 {
      RunKeepsInv(env, states, events, i - 1);
      assert Step(env, states[i - 1], events[i - 1], states[i]);
      StepKeepsInv(env, states[i - 1], events[i - 1]);
    }
  }

  // ---- whole runs ------------------------------------------------------------------------------------

  /** How one refresh may go: refused here for an envelope another key signed, or received by core with
      exactly the pair it bound. */
  ghost predicate Delivered(env: Env, s: State, g: Grant, form: Items)
    requires env.Lawful() && SoundRegistration(env, Some(s.key), GetOr(form, "client_id")) && g.token in s.bound
  {
    var leg := TokenLegSpec(env, Some(s.key), form);
    if leg.Refuse? then Enveloped(g) && g.mintKey != s.key && !env.p.Unwrap(s.key, g.value, Some(g.client)).Pair?
    else CarriesBoundPair(s, g, Received(leg, form).value)
  }

  /** A web client's redirect that its registration, if it has one, lists. */
  ghost predicate RegisteredRedirect(env: Env, client: string, redirect: string) {
    WebClient(env.hosts, client) && Registered(env, None, client).Some? ==>
        MatchesRegistration(env, None, client, redirect)
  }

  /** Every authorization of the run presents a redirect its client has registered. */
  ghost predicate RegisteredRun(env: Env, states: seq<State>, events: seq<Event>) {
    forall i | 0 <= i < |events| && events[i].Authorize? ::
        RegisteredRedirect(env, events[i].client, events[i].redirect)
  }

  ghost predicate AllRegistered(env: Env, s: State) {
    && (forall code | code in s.codes :: RegisteredRedirect(env, s.codes[code].client, s.codes[code].redirect))
    && (forall g | g in s.grants :: RegisteredRedirect(env, g.client, g.redirect))
  }

  lemma {:induction false} RegisteredRunStaysRegistered(env: Env, states: seq<State>, events: seq<Event>, i: nat)
    requires env.Lawful() && Run(env, states, events) && RegisteredRun(env, states, events) && i < |states|
    ensures AllRegistered(env, states[i])
  {
    hide Inv, Env.Lawful, RegisteredRedirect, TokenLegSpec, ResolveForwardClientId, ReadRefreshToken,
      RevocationReceived, SoundRegistration, Unforged, Primitives.MintClientId, CoreAllows, AllValidRedirects,
      StartsWith, Values;
    if i > 0 {
      RegisteredRunStaysRegistered(env, states, events, i - 1);
      RunKeepsInv(env, states, events, i - 1);
      assert Step(env, states[i - 1], events[i - 1], states[i]);
    }
  }

  /** In every run whose authorizations present registered redirects, every refresh of every grant, with
      or without its redirect and after any rotations, is delivered. */
  lemma RegisteredRunsDeliverRefreshes(env: Env, states: seq<State>, events: seq<Event>, i: nat)
    requires env.Lawful() && Run(env, states, events) && RegisteredRun(env, states, events)
    requires i < |events| && events[i].Refresh?
    ensures events[i].grant.token in states[i].bound
    ensures SoundRegistration(env, Some(states[i].key), GetOr(events[i].form, "client_id"))
    ensures Delivered(env, states[i], events[i].grant, events[i].form)
  {
    hide Env.Lawful, RegisteredRedirect, TokenLegSpec, SoundRegistration, Unforged, Primitives.Unwrap, Misderived,
      GrantInv, Next, CarriesBoundPair, StartsWith, Values;
    RunKeepsInv(env, states, events, i);
    RegisteredRunStaysRegistered(env, states, events, i);
    assert Step(env, states[i], events[i], states[i + 1]);
    var s, g, form := states[i], events[i].grant, events[i].form;
    TokenIsBound(env, s, g);
    RefreshReachesItsBinding(env, s, g, form);
    if !Enveloped(g) {
      MisderivedMeansUnregistered(env, s, g, form);
      RegisteredRawIsDerivable(env, s, g, form);
    }
  }

  lemma RegisteredRawIsDerivable(env: Env, s: State, g: Grant, form: Items)
    requires env.Lawful() && GrantInv(env, s, g) && !Enveloped(g) && RegisteredRedirect(env, g.client, g.redirect)
    ensures SoundRegistration(env, None, g.client) && !Misderived(env, g, form)
  {
    hide SoundRegistration, Env.Lawful, CoreAllows, MatchesRegistration, StartsWith, ResolveForwardClientId;
    RawIsSound(env, s, g);
    AllowedIsWeb(env.hosts, g.client, g.redirect);
    MisderivedMeansUnregistered(env, s, g, form);
  }

  /** Without a key rotation the signing key never changes and every grant was minted under it. */
  lemma {:induction false} KeyIsConstant(env: Env, states: seq<State>, events: seq<Event>, i: nat)
    requires env.Lawful() && Run(env, states, events) && i < |states|
    requires forall k | 0 <= k < |events| :: !events[k].RotateKey?
    ensures states[i].key == states[0].key
    ensures forall g | g in states[i].grants :: g.mintKey == states[0].key
  {
    hide Inv, Env.Lawful, TokenLegSpec, ResolveForwardClientId, ReadRefreshToken, RevocationReceived,
      SoundRegistration, Unforged, Primitives.MintClientId, CoreAllows, AllValidRedirects, StartsWith, Values;
    if i > 0 {
      KeyIsConstant(env, states, events, i - 1);
      RunKeepsInv(env, states, events, i - 1);
      assert Step(env, states[i - 1], events[i - 1], states[i]);
    }
  }

  /** With no key rotation in the run, no refresh is ever answered with a local invalid_grant. */
  lemma NoRefusalWithoutRotation(env: Env, states: seq<State>, events: seq<Event>, i: nat)
    requires env.Lawful() && Run(env, states, events) && i < |events| && events[i].Refresh?
    requires forall k | 0 <= k < |events| :: !events[k].RotateKey?
    ensures SoundRegistration(env, Some(states[i].key), GetOr(events[i].form, "client_id"))
    ensures !TokenLegSpec(env, Some(states[i].key), events[i].form).Refuse?
  {
    hide Env.Lawful, TokenLegSpec, SoundRegistration, Unforged, Primitives.Unwrap, Misderived, GrantInv, Next,
      CarriesBoundPair, StartsWith, Values;
    RunKeepsInv(env, states, events, i);
    KeyIsConstant(env, states, events, i);
    assert Step(env, states[i], events[i], states[i + 1]);
    RefreshReachesItsBinding(env, states[i], events[i].grant, events[i].form);
  }

  // ---- revocation -----------------------------------------------------------------------------------------

  /** Whether core gets to see its own token when the grant's value is revoked. */
  predicate Revocable(env: Env, s: State, g: Grant) {
    !Enveloped(g) || |g.value| <= 4096 || env.p.Unwrap(s.key, g.value, None).Pair?
  }

  lemma RevocationCarriesCoreToken(env: Env, s: State, g: Grant, form: Items, scoped: bool)
    requires env.Lawful() && GrantInv(env, s, g) && GetOr(form, "token") == g.value
    requires SoundRegistration(env, Some(s.key), GetOr(form, "client_id"))
    requires !scoped ==> Get(form, "action") == Some("revoke")
    ensures GetOr(RevocationReceived(env, s, form, scoped), "token") == if Revocable(env, s, g) then g.token
              else g.value
  {
    hide SoundRegistration, Primitives.Unwrap, Primitives.Wrap, Put, Values, Env.Lawful, Untranslated,
      Primitives.RevocationToken, ReadEnvelopeSpec, UnenvelopedLeg;
    UnprefixedIsNotRevoked(env.p, s.key, g.value);
    if Enveloped(g) {
      EnvelopeRevocation(env, s, g);
    }
    match env.p.RevocationToken(Some(s.key), g.value) {
      case None =>
      case Some(t) =>
        var f := Put(form, "token", t);
        ValuesPut(form, "token", t, "token");
        ValuesPut(f, "client_id", GetOr(form, "client_id"), "token");
        assert GetOr(f, "token") == t;
        assert GetOr(Put(f, "client_id", GetOr(form, "client_id")), "token") == t;
    }
  }

  lemma UnprefixedIsNotRevoked(p: Primitives, key: Bytes, token: string)
    ensures !StartsWith(token, ENVELOPE_PREFIX) ==> p.RevocationToken(Some(key), token) == None
  {
  }

  lemma EnvelopeRevocation(env: Env, s: State, g: Grant)
    requires env.Lawful() && GrantInv(env, s, g) && Enveloped(g)
    ensures env.p.RevocationToken(Some(s.key), g.value) == if Revocable(env, s, g) then Some(g.token) else None
  {
    hide Primitives.Unwrap, Primitives.Wrap, Primitives.RevocationToken, Untranslated, Primitives.Lawful,
      Hosts.Lawful;
    env.p.RevocationSurvivesRotation(g.mintKey, s.key, g.token, s.bound[g.token], g.client);
  }

  /** Revoking the value a client holds, on either endpoint and under any later signing key, ends core's
      own token, exactly when the value fits the cap or still verifies; otherwise core is unchanged. */
  lemma RevocationEndsTheGrant(env: Env, s: State, g: Grant, form: Items, scoped: bool)
    requires env.Lawful() && Inv(env, s) && Enabled(env, s, Revoke(g, form, scoped))
    ensures Next(env, s, Revoke(g, form, scoped)) ==
              s.(live := if Revocable(env, s, g) then s.live - {g.token} else s.live)
  {
    hide SoundRegistration, GrantInv, RevocationReceived, Unforged, Revocable, Env.Lawful, AllValidRedirects,
      Primitives.MintClientId;
    UnforgedIsSound(env, s, GetOr(form, "client_id"));
    RevocationCarriesCoreToken(env, s, g, form, scoped);
    if !Revocable(env, s, g) {
      OnlyEnvelopesAreIrrevocable(env, s, g);
      assert g.value !in s.live;
      assert s.live - {g.value} == s.live;
    }
  }

  lemma OnlyEnvelopesAreIrrevocable(env: Env, s: State, g: Grant)
    requires !Revocable(env, s, g)
    ensures Enveloped(g)
  {
  }

  // ---- the redirects for which the derivation fails -----------------------------------------------------------

  /** A web client whose registration derives an origin, authorized at an unregistered redirect of its own
      origin, ends up with a raw token that its redirect-less refresh sends to core under a client_id core
      did not bind. */
  lemma UnregisteredRedirectBreaksRefresh(env: Env, key: Bytes, client: string, redirect: string, code: string,
          token: string,
                                          exchange: Items, refresh: Items)
    returns (states: seq<State>, events: seq<Event>)
    requires env.Lawful() && FastPath(env.hosts, client, redirect) && env.hosts.IsValidRedirect(redirect)
    requires SoundRegistration(env, None, client) && RefreshIdentity(env, None, client).Translated?
    requires !StartsWith(token, ENVELOPE_PREFIX)
    requires IsExchangeOf(code, CodeRecord(client, client, redirect), exchange)
    requires IsRefreshOf(Grant(token, client, redirect, token, key), refresh) && GetOr(refresh, "redirect_uri") == ""
    ensures |events| == 3 && Run(env, states, events) && events[2].Refresh? && events[2].form == refresh
    ensures states[2].key == key && events[2].grant in states[2].grants && states[2].bound == map[token := client]
    ensures SoundRegistration(env, Some(key), client)
    ensures var leg := TokenLegSpec(env, Some(key), refresh);
            leg.Proxy? && GetOr(leg.form, "refresh_token") == token && GetOr(leg.form, "client_id") != client
  {
    hide SoundRegistration, Primitives.Unwrap, Values, Env.Lawful, RefreshIdentity, FastPath, StartsWith,
      TokenLegSpec, Step, Misderived, Untranslated, Hosts.IsValidRedirect, DcrRedirects;
    DecisionsAtOwnOrigin(env, key, client, redirect);
    var g := Grant(token, client, redirect, token, key);
    var s0 := State(key, map[], map[], map[], {}, {});
    var s1 := State(key, map[], map[code := CodeRecord(client, client, redirect)], map[], {}, {});
    var s2 := State(key, map[], map[], map[token := client], {token}, {g});
    events := [Authorize(client, redirect, code, true), Exchange(code, exchange, token, map[]),
        Refresh(g, refresh, None, map[])];
    states := [s0, s1, s2, s2];
    AuthorizeStep(env, s0, client, redirect, code);
    ExchangeStep(env, s1, code, client, redirect, exchange, token);
    RefreshStep(env, s2, g, refresh);
    UntranslatedAtOwnOrigin(env, key, client, redirect);
    MisderivedAtOwnOrigin(env, g, refresh);
    RawRefresh(env, s2, g, refresh);
    RawProxyCarriesToken(env, s2, g, refresh);
  }

  lemma AuthorizeStep(env: Env, s: State, client: string, redirect: string, code: string)
    requires env.Lawful() && FastPath(env.hosts, client, redirect) && env.hosts.IsValidRedirect(redirect)
    requires s == State(s.key, map[], map[], map[], {}, {})
    ensures Step(env, s, Authorize(client, redirect, code, true),
              s.(codes := map[code := CodeRecord(client, client, redirect)]))
  {
    hide SoundRegistration, Env.Lawful, FastPath, Hosts.IsValidRedirect, ResolveForwardClientId, DcrRedirects, Inv;
    DecisionsAtOwnOrigin(env, s.key, client, redirect);
  }

  lemma ExchangeStep(env: Env, s: State, code: string, client: string, redirect: string, form: Items, token: string)
    requires env.Lawful() && FastPath(env.hosts, client, redirect) && env.hosts.IsValidRedirect(redirect)
    requires SoundRegistration(env, None, client) && RefreshIdentity(env, None, client).Translated?
    requires !StartsWith(token, ENVELOPE_PREFIX)
    requires s == State(s.key, map[], map[code := CodeRecord(client, client, redirect)], map[], {}, {})
    requires IsExchangeOf(code, CodeRecord(client, client, redirect), form)
    ensures Step(env, s, Exchange(code, form, token, map[]),
                 State(s.key, map[], map[], map[token := client], {token},
                     {Grant(token, client, redirect, token, s.key)}))
  {
    hide SoundRegistration, Env.Lawful, FastPath, Hosts.IsValidRedirect, ResolveForwardClientId, DcrRedirects, Inv,
      RefreshIdentity, AfterExchange, Values, StartsWith;
    DecisionsAtOwnOrigin(env, s.key, client, redirect);
    ExchangeAtOwnOrigin(env, s, code, client, redirect, form, token);
  }

  /** A refresh core rotates nothing on leaves the state as it was. */
  lemma RefreshStep(env: Env, s: State, g: Grant, form: Items)
    requires env.Lawful() && g in s.grants && IsRefreshOf(g, form) && Unforged(env, s, g.client)
    ensures Step(env, s, Refresh(g, form, None, map[]), s)
  {
    hide Env.Lawful, DcrRedirects, Inv, Values, TokenLegSpec, Received;
  }

  lemma MisderivedAtOwnOrigin(env: Env, g: Grant, form: Items)
    requires SoundRegistration(env, None, g.client) && RefreshIdentity(env, None, g.client).Translated?
    requires !Enveloped(g) && GetOr(form, "redirect_uri") == ""
    ensures Misderived(env, g, form)
  {
  }

  /** At its own origin a web client is forwarded as it is, whatever the key, and verifies as no
      component-minted client_id. */
  lemma DecisionsAtOwnOrigin(env: Env, key: Bytes, client: string, redirect: string)
    requires env.Lawful() && FastPath(env.hosts, client, redirect) && env.hosts.IsValidRedirect(redirect)
    ensures WebClient(env.hosts, client) && client != ""
    ensures DcrRedirects(env, Some(key), client) == None
    ensures SoundRegistration(env, Some(key), client) && SoundRegistration(env, None, client)
    ensures ResolveForwardClientId(env, Some(key), client, redirect) == client
    ensures ResolveForwardClientId(env, None, client, redirect) == client
    ensures RefreshIdentity(env, Some(key), client) == RefreshIdentity(env, None, client)
  {
    hide Hosts.UrlParse, Primitives.ClientRedirectUris, FetchCimdRedirects, RefreshIdentity, Env.Lawful,
      Hosts.IsValidRedirect;
    AllowedIsWeb(env.hosts, client, redirect);
    if env.p.ClientRedirectUris(key, client).Some? {
      MintedPrefix(env.p, key, client);
      MintedIsNotWeb(env.hosts, client);
    }
    DecisionsIgnoreTheKey(env, key, client, redirect);
  }

  lemma UntranslatedAtOwnOrigin(env: Env, key: Bytes, client: string, redirect: string)
    requires env.Lawful() && FastPath(env.hosts, client, redirect) && env.hosts.IsValidRedirect(redirect)
    requires SoundRegistration(env, None, client) && RefreshIdentity(env, None, client).Translated?
    ensures Untranslated(env, client, redirect)
  {
    hide Env.Lawful, RefreshIdentity, ResolveForwardClientId, FastPath, SoundRegistration, Hosts.IsValidRedirect;
    DecisionsAtOwnOrigin(env, key, client, redirect);
  }

  /** The code leg of such a client sends it on to core, whose raw token it keeps. */
  lemma ExchangeAtOwnOrigin(env: Env, s: State, code: string, client: string, redirect: string, form: Items,
          token: string)
    requires env.Lawful() && FastPath(env.hosts, client, redirect) && env.hosts.IsValidRedirect(redirect)
    requires SoundRegistration(env, None, client) && RefreshIdentity(env, None, client).Translated?
    requires s == State(s.key, map[], map[code := CodeRecord(client, client, redirect)], map[], {}, {})
    requires IsExchangeOf(code, CodeRecord(client, client, redirect), form)
    ensures SoundRegistration(env, Some(s.key), client)
    ensures AfterExchange(env, s, code, form, token, map[]) ==
            State(s.key, map[], map[], map[token := client], {token}, {Grant(token, client, redirect, token, s.key)})
  {
    hide SoundRegistration, Primitives.Unwrap, Values, RefreshIdentity, FastPath, Put, ReadRefreshToken, Relayed,
      DcrRedirects, ResolveForwardClientId, Primitives.Lawful, Hosts.Lawful, Hosts.IsValidRedirect;
    DecisionsAtOwnOrigin(env, s.key, client, redirect);
    RelayedValue(env.p, s.key, Relay, client, token, map[]);
    assert TokenLegSpec(env, Some(s.key), form) == Relay;
    assert s.codes - {code} == map[];
  }
}
