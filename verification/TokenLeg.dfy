/** The token and revoke endpoints of ha_auth mode (oauth_autoapprove.py): what each request turns
    into. The form is edited in place, as the source edits its multidict. */
module TokenLeg {
  import opened Wrappers
  import opened Base64Url
  import opened Blobs
  import opened JsonValues
  import opened Text
  import opened Urls
  import opened Identity

  type Items = seq<(string, string)>

  // ---- the form as a value -------------------------------------------------------------

  /** Every value of a key, in order. */
  function Values(items: Items, name: string): seq<string> {
    if items == [] then []
    else (if items[0].0 == name then [items[0].1] else []) + Values(items[1..], name)
  }

  /** MultiDict.get: the first value of a key. */
  function Get(items: Items, name: string): Option<string> {
    var values := Values(items, name);
    if values == [] then None else Some(values[0])
  }

  function GetOr(items: Items, name: string): string {
    var value := Get(items, name);
    if value.None? then "" else value.value
  }

  lemma FirstValueOrNothing(items: Items, name: string)
    ensures GetOr(items, name) == if Values(items, name) == [] then "" else Values(items, name)[0]
  {
  }

  function Without(items: Items, name: string): Items {
    if items == [] then []
    else (if items[0].0 == name then [] else [items[0]]) + Without(items[1..], name)
  }

  /** popall followed by an assignment. */
  function Put(items: Items, name: string, value: string): Items {
    Without(items, name) + [(name, value)]
  }

  lemma {:induction false} ValuesConcat(a: Items, b: Items, name: string)
    ensures Values(a + b, name) == Values(a, name) + Values(b, name)
  {
    if a == [] {
      assert a + b == b;
    } else {
      var first := if a[0].0 == name then [a[0].1] else [];
      ValuesConcat(a[1..], b, name);
      assert (a + b)[0] == a[0] && (a + b)[1..] == a[1..] + b;
      assert first + (Values(a[1..], name) + Values(b, name)) == (first + Values(a[1..], name)) + Values(b, name);
    }
  }

  lemma {:induction false} ValuesWithout(items: Items, name: string, other: string)
    ensures Values(Without(items, name), other) == if other == name then [] else Values(items, other)
  {
    if items != [] {
      ValuesWithout(items[1..], name, other);
      var kept := if items[0].0 == name then [] else [items[0]];
      ValuesConcat(kept, Without(items[1..], name), other);
      if kept != [] {
        assert kept[1..] == [];
      }
    }
  }

  /** The key then has exactly the one value; every other key keeps its values in order. */
  lemma ValuesPut(items: Items, name: string, value: string, other: string)
    ensures Values(Put(items, name, value), other) == if other == name then [value] else Values(items, other)
  {
    ValuesWithout(items, name, other);
    ValuesConcat(Without(items, name), [(name, value)], other);
    assert [(name, value)][1..] == [];
  }

  lemma WithoutStep(kept: Items, rest: Items, name: string)
    requires rest != []
    ensures kept + Without(rest, name) == (if rest[0].0 == name then kept else kept + [rest[0]])
              + Without(rest[1..], name)
  {
    assert kept + ([rest[0]] + Without(rest[1..], name)) == (kept + [rest[0]]) + Without(rest[1..], name);
    assert [] + Without(rest[1..], name) == Without(rest[1..], name);
  }

  // ---- the decisions ----------------------------------------------------------------------

  /** Answer invalid_grant here; send the client on to core with its own form; or post the
      rewritten form to core and relay the answer. */
  datatype Leg = Refuse | Relay | Proxy(form: Items, forwardId: string)

  datatype EnvelopeReading = NoEnvelope | BadEnvelope | Identified(forwardId: string, form: Items)

  function RevokeRewriteSpec(p: Primitives, key: Option<Bytes>, form: Items): Option<Items> {
    match p.RevocationToken(key, GetOr(form, "token"))
    case None => None
    case Some(coreToken) => Some(Put(form, "token", coreToken))
  }

  function ReadEnvelopeSpec(p: Primitives, key: Option<Bytes>, form: Items, clientId: string): EnvelopeReading {
    if key.None? then NoEnvelope
    else match p.Unwrap(key.value, GetOr(form, "refresh_token"), Some(clientId))
      case Absent => NoEnvelope
      case Invalid => BadEnvelope
      case Pair(coreToken, forwardId) => Identified(forwardId, Put(form, "refresh_token", coreToken))
  }

  predicate CodeLegForcesProxy(env: Env, key: Option<Bytes>, clientId: string)
    requires SoundRegistration(env, key, clientId)
  {
    && key.Some?
    && env.hosts.UrlParse(clientId).Some? && env.hosts.UrlParse(clientId).value.scheme == "https"
    && RefreshIdentity(env, key, clientId) == Unreproducible
  }

  function Forward(form: Items, clientId: string, forwardId: string, proxyRequired: bool): Leg {
    if forwardId == clientId && !proxyRequired then Relay
    else Proxy(Put(form, "client_id", forwardId), forwardId)
  }

  function TokenLegSpec(env: Env, key: Option<Bytes>, form: Items): Leg
    requires env.Lawful() && SoundRegistration(env, key, GetOr(form, "client_id"))
  {
    var clientId := GetOr(form, "client_id");
    if Get(form, "action") == Some("revoke") then
      match RevokeRewriteSpec(env.p, key, form)
      case None => Relay
      case Some(rewritten) => Forward(rewritten, clientId, clientId, true)
    else if GetOr(form, "grant_type") == "refresh_token" then
      match ReadEnvelopeSpec(env.p, key, form, clientId)
      case BadEnvelope => Refuse
      case Identified(forwardId, rewritten) => Forward(rewritten, clientId, forwardId, true)
      case NoEnvelope => UnenvelopedLeg(env, key, form, clientId)
    else UnenvelopedLeg(env, key, form, clientId)
  }

  function UnenvelopedLeg(env: Env, key: Option<Bytes>, form: Items, clientId: string): Leg
    requires env.Lawful() && SoundRegistration(env, key, clientId)
  {
    var grantType, redirect := GetOr(form, "grant_type"), GetOr(form, "redirect_uri");
    if clientId == "" then Relay
    else if grantType == "refresh_token" && redirect == "" then
      match RefreshIdentity(env, key, clientId)
      case Unreproducible => Refuse
      case Passthrough => Relay
      case Translated(origin) => Forward(form, clientId, origin, false)
    else
      var forwardId := ResolveForwardClientId(env, key, clientId, redirect);
      if grantType == "authorization_code" && forwardId == clientId
      then Forward(form, clientId, clientId, CodeLegForcesProxy(env, key, clientId))
      else Forward(form, clientId, forwardId, false)
  }

  // ---- the methods that edit the form --------------------------------------------------------

  class Form {
    var items: Items

    constructor (items: Items)
      ensures this.items == items
    {
      this.items := items;
    }

    /** popall: delete every pair of a key. */
    method PopAll(name: string)
      modifies this
      ensures items == Without(old(items), name)
    {
      var kept: Items := [];
      for i := 0 to |items|
        invariant items == old(items)
        invariant kept + Without(items[i..], name) == Without(items, name)
      {
        WithoutStep(kept, items[i..], name);
        assert items[i..][1..] == items[i + 1..];
        if items[i].0 != name {
          kept := kept + [items[i]];
        }
      }
      items := kept;
    }

    /** popall, then assign. */
    method Replace(name: string, value: string)
      modifies this
      ensures items == Put(old(items), name, value)
    {
      PopAll(name);
      items := items + [(name, value)];
    }

    /** _revoke_rewrite: whether the request must now be proxied. */
    method RevokeRewrite(p: Primitives, key: Option<Bytes>) returns (proxied: bool)
      modifies this
      ensures var spec := RevokeRewriteSpec(p, key, old(items));
              proxied == spec.Some? && items == if spec.Some? then spec.value else old(items)
    {
      if key.None? { return false; }
      var coreToken := p.RevocationToken(key, GetOr(items, "token"));
      if coreToken.None? { return false; }
      Replace("token", coreToken.value);
      proxied := true;
    }

    /** _envelope_identity. */
    method EnvelopeIdentity(p: Primitives, key: Option<Bytes>, clientId: string) returns (reading: EnvelopeReading)
      modifies this
      ensures reading == ReadEnvelopeSpec(p, key, old(items), clientId)
      ensures items == if reading.Identified? then reading.form else old(items)
    {
      if key.None? { return NoEnvelope; }
      match p.Unwrap(key.value, GetOr(items, "refresh_token"), Some(clientId)) {
        case Absent => reading := NoEnvelope;
        case Invalid => reading := BadEnvelope;
        case Pair(coreToken, forwardId) =>
          Replace("refresh_token", coreToken);
          reading := Identified(forwardId, items);
      }
    }

    /** _ha_auth_forward_identity: the client_id for core and whether proxying is forced, or None
        for a local invalid_grant. */
    method ForwardIdentity(env: Env, key: Option<Bytes>, clientId: string) returns (resolved: Option<(string, bool)>)
      requires env.Lawful() && SoundRegistration(env, key, clientId) && clientId == GetOr(items, "client_id")
      modifies this
      ensures TokenLegSpec(env, key, old(items)) ==
              if resolved.None? then Refuse else Forward(items, clientId, resolved.value.0, resolved.value.1)
    {
      hide SoundRegistration, Primitives.Unwrap, Primitives.RevocationToken, RefreshIdentity, ResolveForwardClientId,
        Hosts.UrlParse;
      var grantType, redirect := GetOr(items, "grant_type"), GetOr(items, "redirect_uri");
      if Get(items, "action") == Some("revoke") {
        var proxied := RevokeRewrite(env.p, key);
        return Some((clientId, proxied));
      }
      if grantType == "refresh_token" {
        var envelope := EnvelopeIdentity(env.p, key, clientId);
        if envelope.Identified? { return Some((envelope.forwardId, true)); }
        if envelope.BadEnvelope? { return None; }
      }
      if clientId == "" { return Some((clientId, false)); }
      if grantType == "refresh_token" && redirect == "" {
        match RefreshIdentity(env, key, clientId) {
          case Unreproducible => return None;
          case Passthrough => return Some((clientId, false));
          case Translated(origin) => return Some((origin, false));
        }
      }
      var forwardId := ResolveForwardClientId(env, key, clientId, redirect);
      if grantType == "authorization_code" && forwardId == clientId {
        return Some((clientId, CodeLegForcesProxy(env, key, clientId)));
      }
      return Some((forwardId, false));
    }

    /** _ha_auth_token up to the exchange with core. */
    method HaAuthToken(env: Env, key: Option<Bytes>) returns (leg: Leg)
      requires env.Lawful() && SoundRegistration(env, key, GetOr(items, "client_id"))
      modifies this
      ensures leg == TokenLegSpec(env, key, old(items))
      ensures leg.Proxy? ==> items == leg.form
    {
      hide SoundRegistration, TokenLegSpec;
      var clientId := GetOr(items, "client_id");
      var resolved := ForwardIdentity(env, key, clientId);
      if resolved.None? { return Refuse; }
      var (forwardId, proxyRequired) := resolved.value;
      if forwardId == clientId && !proxyRequired { return Relay; }
      Replace("client_id", forwardId);
      leg := Proxy(items, forwardId);
    }
  }

  // ---- what the rewriting keeps ----------------------------------------------------------------

  /** A proxied form names exactly one client_id, the forwarded one, and every parameter other than
      the client_id and the two token fields keeps all its values in order. */
  lemma ProxyKeepsOtherParameters(env: Env, key: Option<Bytes>, form: Items, name: string)
    requires env.Lawful() && SoundRegistration(env, key, GetOr(form, "client_id"))
    requires TokenLegSpec(env, key, form).Proxy?
    ensures var leg := TokenLegSpec(env, key, form);
            && Values(leg.form, "client_id") == [leg.forwardId]
            && (name !in {"client_id", "refresh_token", "token"} ==> Values(leg.form, name) == Values(form, name))
            && (name == "refresh_token" && Get(form, "action") == Some("revoke") ==>
                Values(leg.form, name) == Values(form, name))
            && (name == "token" && Get(form, "action") != Some("revoke") ==>
                Values(leg.form, name) == Values(form, name))
  {
    hide SoundRegistration, Primitives.Unwrap, Primitives.RevocationToken, RefreshIdentity, ResolveForwardClientId,
      Hosts.UrlParse, Values, Put, Env.Lawful;
    var leg := TokenLegSpec(env, key, form);
    PutKeeps(form, leg.forwardId, name);
    match env.p.RevocationToken(key, GetOr(form, "token")) {
      case None =>
      case Some(t) =>
        ValuesPut(form, "token", t, name);
        PutKeeps(Put(form, "token", t), leg.forwardId, name);
    }
    if key.Some? {
      match env.p.Unwrap(key.value, GetOr(form, "refresh_token"), Some(GetOr(form, "client_id"))) {
        case Pair(t, id) =>
          ValuesPut(form, "refresh_token", t, name);
          PutKeeps(Put(form, "refresh_token", t), leg.forwardId, name);
        case _ =>
      }
    }
  }

  lemma PutKeeps(form: Items, forwardId: string, name: string)
    ensures Values(Put(form, "client_id", forwardId), "client_id") == [forwardId]
    ensures name != "client_id" ==> Values(Put(form, "client_id", forwardId), name) == Values(form, name)
  {
    ValuesPut(form, "client_id", forwardId, "client_id");
    ValuesPut(form, "client_id", forwardId, name);
  }

  /** The code leg, for every form: core gets the client's own form exactly when nothing is translated and either no
      key could sign an envelope, the client_id is no https one, or its refresh has an answer. */
  lemma CodeLegExactly(env: Env, key: Option<Bytes>, form: Items)
    requires env.Lawful() && SoundRegistration(env, key, GetOr(form, "client_id"))
    requires Get(form, "action") != Some("revoke") && GetOr(form, "grant_type") == "authorization_code"
    requires Values(form, "client_id") != [] && Values(form, "client_id")[0] != ""
    ensures var leg, client := TokenLegSpec(env, key, form), Values(form, "client_id")[0];
            var forwarded := ResolveForwardClientId(env, key, client, GetOr(form, "redirect_uri"));
            && (leg == Relay <==>
                && forwarded == client
                && (|| key == None
                    || env.hosts.UrlParse(client).None? || env.hosts.UrlParse(client).value.scheme != "https"
                    || RefreshIdentity(env, key, client) != Unreproducible))
            && (leg != Relay ==> leg.Proxy? && leg.forwardId == forwarded)
  {
    hide SoundRegistration, RefreshIdentity, ResolveForwardClientId, Hosts.UrlParse, Values, Put, Env.Lawful,
      Primitives.RevocationToken, Primitives.Unwrap;
    FirstValueOrNothing(form, "client_id");
  }

  /** No request whatever, in any shape, gets a refresh token with the envelope's prefix past the
      component on the refresh leg: it is answered here, or core receives the token and the
      client_id a verified envelope names for this very presenter. */
  lemma EnvelopeNeverReachesCore(env: Env, key: Bytes, form: Items)
    requires env.Lawful() && SoundRegistration(env, Some(key), GetOr(form, "client_id"))
    requires Get(form, "action") != Some("revoke") && GetOr(form, "grant_type") == "refresh_token"
    requires StartsWith(GetOr(form, "refresh_token"), ENVELOPE_PREFIX)
    ensures match TokenLegSpec(env, Some(key), form)
            case Refuse => true
            case Relay => false
            case Proxy(sent, forwardId) =>
              && env.p.Unwrap(key, GetOr(form, "refresh_token"), Some(GetOr(form, "client_id")))
                 == Pair(GetOr(sent, "refresh_token"), forwardId)
              && Values(sent, "refresh_token") == [GetOr(sent, "refresh_token")]
              && Values(sent, "client_id") == [forwardId]
  {
    hide SoundRegistration, RefreshIdentity, ResolveForwardClientId, Hosts.UrlParse, Values, Put, Env.Lawful,
      Primitives.Unwrap, StartsWith;
    env.p.AbsentIsUnprefixed(key, GetOr(form, "refresh_token"), Some(GetOr(form, "client_id")));
    match env.p.Unwrap(key, GetOr(form, "refresh_token"), Some(GetOr(form, "client_id"))) {
      case Pair(t, id) =>
        var f := Put(form, "refresh_token", t);
        ValuesPut(form, "refresh_token", t, "refresh_token");
        ValuesPut(f, "client_id", id, "client_id");
        ValuesPut(f, "client_id", id, "refresh_token");
      case _ =>
    }
  }
}
