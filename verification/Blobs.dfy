/** The two families of signed blobs the component hands to clients: the refresh-token
    envelope of oauth_ha_auth.py and the stateless client_id of oauth_dcr.py. Both are
    a prefix, a base64url body, "." and a base64url MAC. They are signed with one key; the
    envelope signs its prefix, the client_id does not. */
module Blobs {
  import opened Wrappers
  import opened Text
  import opened Base64Url
  import opened JsonValues

  const ENVELOPE_PREFIX := "espmcp-rt-"
  const CLIENT_ID_PREFIX := "espmcp-dcr-"
  const MAX_REVOKE_ENVELOPE_LEN := 4096

  /** Python's == against the integer 1 holds of True and 1.0 as well. */
  predicate EqualsOne(j: Json) { j == Int(1) || j == Bool(true) || (j.Float? && j.d == Dyadic(1, 0)) }

  predicate AllStrings(items: seq<Json>) { forall i | 0 <= i < |items| :: items[i].Str? }

  function Strings(items: seq<Json>): seq<string>
    requires AllStrings(items)
  {
    seq(|items|, i requires 0 <= i < |items| => items[i].s)
  }

  function Quote(texts: seq<string>): seq<Json> {
    seq(|texts|, i requires 0 <= i < |texts| => Str(texts[i]))
  }

  datatype Unwrapped = Absent | Invalid | Pair(token: string, clientId: string)

  /** The primitives both families are built from: the base64url pair, and HMAC-SHA256, SHA-256
      of a client_id and the JSON codec as uninterpreted functions. */
  datatype Primitives = Primitives(
    encode: Bytes -> string,
    decode: string -> Option<Bytes>,
    hmac: (Bytes, Bytes) -> Bytes,
    digest: string -> Bytes,
    dumps: Json -> Bytes,
    loads: Bytes -> Option<Json>)
  {
    /** The signature, the digest and the JSON codec lose nothing. */
    ghost predicate Assumed() {
      && (forall k, m, n :: hmac(k, m) == hmac(k, n) ==> m == n)
      && (forall c, d :: digest(c) == digest(d) ==> c == d)
      && (forall f: map<string, Json> :: loads(dumps(Obj(f))) == Some(Obj(f)))
      && (forall f: map<string, Json> :: dumps(Obj(f)) != [])
    }

    /** dumps opens an object with a brace, and no text loads as an object unless it starts with
        a brace, JSON whitespace or the first byte of an encoding mark. */
    ghost predicate AssumedLeads() {
      && (forall f: map<string, Json> :: dumps(Obj(f)) != [] && dumps(Obj(f))[0] == '{' as int)
      && (forall t :: loads(t).Some? && loads(t).value.Obj? ==> t != [] && OpensObject(t[0]))
    }

    ghost predicate Lawful() { Assumed() && RoundTripLaws(encode, decode) }

    ghost predicate Separating() { AssumedLeads() && LeadLaws(encode, decode) }

    /** With the component's own base64url pair only the assumptions remain. */
    lemma ComponentIsLawful()
      requires Assumed() && AssumedLeads() && encode == Encode && decode == Decode
      ensures Lawful() && Separating()
    {
      ComponentBase64Laws();
    }

    static predicate OpensObject(b: Byte) {
      b in {'{' as int, ' ' as int, '\t' as int, '\r' as int, '\n' as int, 0, 0xEF, 0xFE, 0xFF}
    }

    /** Whether `sigPart` decodes to the MAC of `signed`; a non-ASCII text never does. */
    predicate MacMatches(key: Bytes, signed: string, sigPart: string) {
      var message := ToAscii(signed);
      message.Some? && decode(sigPart) == Some(hmac(key, message.value))
    }

    /** The MAC text of an ASCII text; body text always is ASCII. */
    function Sign(key: Bytes, signed: string): string {
      var message := ToAscii(signed);
      if message.Some? then encode(hmac(key, message.value)) else ""
    }

    function PayloadOf(body: string): Option<Json> {
      match decode(body)
      case None => None
      case Some(raw) => loads(raw)
    }

    function PresenterHash(clientId: string): string { encode(digest(clientId)) }

    function EnvelopeFields(coreToken: string, forwardId: string, presented: string): map<string, Json> {
      map["v" := Int(1), "t" := Str(coreToken), "c" := Str(forwardId), "p" := Str(PresenterHash(presented))]
    }

    function EnvelopeBody(coreToken: string, forwardId: string, presented: string): string {
      encode(dumps(Obj(EnvelopeFields(coreToken, forwardId, presented))))
    }

    function Wrap(key: Bytes, coreToken: string, forwardId: string, presented: string): string {
      var body := EnvelopeBody(coreToken, forwardId, presented);
      ENVELOPE_PREFIX + (body + "." + Sign(key, ENVELOPE_PREFIX + body))
    }

    function Unwrap(key: Bytes, token: string, presented: Option<string>): Unwrapped {
      if !StartsWith(token, ENVELOPE_PREFIX) then Absent
      else
        var cut := RPartition(token[|ENVELOPE_PREFIX|..], '.');
        if !cut.found || cut.head == "" then Invalid
        else if !MacMatches(key, ENVELOPE_PREFIX + cut.head, cut.tail) then Invalid
        else match PayloadOf(cut.head)
          case None => Invalid
          case Some(payload) => ReadEnvelope(payload, presented)
    }

    function ReadEnvelope(payload: Json, presented: Option<string>): Unwrapped {
      if !payload.Obj? || !EqualsOne(Field(payload, "v")) then Invalid
      else
        var t, c, p := StringField(payload, "t"), StringField(payload, "c"), StringField(payload, "p");
        if t.None? || c.None? || p.None? then Invalid
        else if presented.Some? && p.value != PresenterHash(presented.value) then Invalid
        else Pair(t.value, c.value)
    }

    /** Absent is the answer exactly for a value without the prefix. */
    lemma AbsentIsUnprefixed(key: Bytes, token: string, presented: Option<string>)
      ensures Unwrap(key, token, presented) == Absent <==> !StartsWith(token, ENVELOPE_PREFIX)
    {
    }

    /** Core's token behind a revocation: a verified envelope's, or, up to the length cap, the
        one an unverified body names. */
    function RevocationToken(key: Option<Bytes>, token: string): Option<string> {
      if key.None? || !StartsWith(token, ENVELOPE_PREFIX) then None
      else match Unwrap(key.value, token, None)
        case Pair(coreToken, _) => Some(coreToken)
        case _ =>
          if |token| > MAX_REVOKE_ENVELOPE_LEN then None
          else
            var cut := RPartition(token[|ENVELOPE_PREFIX|..], '.');
            if !cut.found || cut.head == "" then None
            else match PayloadOf(cut.head)
              case None => None
              case Some(payload) => if payload.Obj? then StringField(payload, "t") else None
    }

    function RegistrationFields(uris: seq<string>, issuedAt: int): map<string, Json> {
      map["r" := Arr(Quote(uris)), "iat" := Int(issuedAt)]
    }

    function MintClientId(key: Bytes, uris: seq<string>, issuedAt: int): string {
      var raw := dumps(Obj(RegistrationFields(uris, issuedAt)));
      CLIENT_ID_PREFIX + (encode(raw) + "." + Sign(key, encode(raw)))
    }

    function ClientRedirectUris(key: Bytes, clientId: string): Option<seq<string>> {
      if !StartsWith(clientId, CLIENT_ID_PREFIX) then None
      else
        var cut := RPartition(clientId[|CLIENT_ID_PREFIX|..], '.');
        if !cut.found || cut.head == "" then None
        else if !MacMatches(key, cut.head, cut.tail) then None
        else match PayloadOf(cut.head)
          case None => None
          case Some(payload) =>
            if !payload.Obj? then None
            else
              var uris := Field(payload, "r");
              if uris.Arr? && AllStrings(uris.items) then Some(Strings(uris.items)) else None
    }

    /** A core token response with its refresh_token replaced by an envelope; any other body as
        it came. */
    function RewriteTokenResponse(key: Bytes, body: Bytes, forwardId: string, presented: string): Bytes {
      match loads(body)
      case None => body
      case Some(parsed) =>
        if !parsed.Obj? then body
        else match StringField(parsed, "refresh_token")
          case None => body
          case Some(coreToken) =>
            dumps(Obj(parsed.fields["refresh_token" := Str(Wrap(key, coreToken, forwardId, presented))]))
    }

    // ---- the printer and parser agree -------------------------------------------------

    /** A text that is ASCII verifies against its own signature. */
    lemma SignatureMatches(key: Bytes, signed: string)
      requires Lawful() && ToAscii(signed).Some?
      ensures MacMatches(key, signed, Sign(key, signed)) && '.' !in Sign(key, signed)
    {
    }

    lemma BodyIsAscii(raw: Bytes)
      requires Lawful()
      ensures ToAscii(encode(raw)).Some?
    {
      ToAsciiByCharacter(encode(raw));
    }

    /** The payloads that are read as an envelope for a presenter: version 1, in any of the spellings Python takes
        for it, three texts, and the presenter's own hash. */
    lemma ReadsEnvelopes(payload: Json, presented: Option<string>, t: string, c: string)
      ensures ReadEnvelope(payload, presented) == Pair(t, c) <==>
                && payload.Obj?
                && var f := payload.fields;
                   && "v" in f && (f["v"] == Int(1) || f["v"] == Bool(true) || f["v"] == Float(Dyadic(1, 0)))
                   && "t" in f && f["t"] == Str(t) && "c" in f && f["c"] == Str(c)
                   && "p" in f && f["p"].Str?
                   && (presented.Some? ==> f["p"] == Str(encode(digest(presented.value))))
      ensures ReadEnvelope(payload, presented) != Absent
    {
    }

    /** Without a dot behind a body nothing is read from either kind of blob. */
    lemma UnframedIsNothing(key: Bytes, rest: string, presented: Option<string>)
      requires '.' !in rest || (rest[0] == '.' && '.' !in rest[1..])
      ensures Unwrap(key, ENVELOPE_PREFIX + rest, presented) == Invalid
      ensures RevocationToken(Some(key), ENVELOPE_PREFIX + rest) == None
      ensures ClientRedirectUris(key, CLIENT_ID_PREFIX + rest) == None
    {
      assert (ENVELOPE_PREFIX + rest)[|ENVELOPE_PREFIX|..] == rest;
      assert (CLIENT_ID_PREFIX + rest)[|CLIENT_ID_PREFIX|..] == rest;
      if '.' !in rest {
        RPartitionSplits("", '.', rest);
      } else {
        RPartitionSplits("", '.', rest[1..]);
        assert "" + ['.'] + rest[1..] == rest;
      }
    }

    /** What every parser of a blob sees in a minted envelope, whatever key it tries. */
    lemma EnvelopeAnatomy(key: Bytes, t: string, f: string, c: string)
      requires Lawful()
      ensures var token, body := Wrap(key, t, f, c), EnvelopeBody(t, f, c);
              && StartsWith(token, ENVELOPE_PREFIX)
              && body != ""
              && RPartition(token[|ENVELOPE_PREFIX|..], '.') == Cut(body, true, Sign(key, ENVELOPE_PREFIX + body))
              && MacMatches(key, ENVELOPE_PREFIX + body, Sign(key, ENVELOPE_PREFIX + body))
              && PayloadOf(body) == Some(Obj(EnvelopeFields(t, f, c)))
    {
      var body := EnvelopeBody(t, f, c);
      ToAsciiByCharacter(ENVELOPE_PREFIX);
      BodyIsAscii(dumps(Obj(EnvelopeFields(t, f, c))));
      ToAsciiConcat(ENVELOPE_PREFIX, body);
      SignatureMatches(key, ENVELOPE_PREFIX + body);
      var sig := Sign(key, ENVELOPE_PREFIX + body);
      RPartitionSplits(body, '.', sig);
      assert Wrap(key, t, f, c)[|ENVELOPE_PREFIX|..] == body + "." + sig;
    }

    lemma ReadEnvelopeFields(t: string, f: string, c: string, presented: Option<string>)
      requires Lawful()
      ensures ReadEnvelope(Obj(EnvelopeFields(t, f, c)), presented) ==
              if presented == None || presented == Some(c) then Pair(t, f) else Invalid
    {
      if presented.Some? && PresenterHash(presented.value) == PresenterHash(c) {
        assert decode(PresenterHash(presented.value)) == decode(PresenterHash(c));
      }
    }

    /** Unwrap on a value already cut into body and MAC text. */
    lemma UnwrapFramed(key: Bytes, token: string, presented: Option<string>, body: string, sig: string, payload: Json)
      requires StartsWith(token, ENVELOPE_PREFIX) && body != ""
      requires RPartition(token[|ENVELOPE_PREFIX|..], '.') == Cut(body, true, sig)
      requires PayloadOf(body) == Some(payload)
      ensures Unwrap(key, token, presented) ==
              if MacMatches(key, ENVELOPE_PREFIX + body, sig) then ReadEnvelope(payload, presented) else Invalid
    {
    }

    /** Under the signing key the envelope yields exactly the wrapped pair to the presenter it
        was minted for, or to a caller that names none, and nothing to any other presenter. */
    lemma UnwrapUndoesWrap(key: Bytes, t: string, f: string, c: string, presented: Option<string>)
      requires Lawful()
      ensures Unwrap(key, Wrap(key, t, f, c), presented) ==
              if presented == None || presented == Some(c) then Pair(t, f) else Invalid
    {
      var body := EnvelopeBody(t, f, c);
      EnvelopeAnatomy(key, t, f, c);
      ReadEnvelopeFields(t, f, c, presented);
      UnwrapFramed(key, Wrap(key, t, f, c), presented, body, Sign(key, ENVELOPE_PREFIX + body),
          Obj(EnvelopeFields(t, f, c)));
    }

    /** Whatever key checks it, an envelope never yields a pair other than the wrapped one. */
    lemma UnwrapUnderAnyKey(mintKey: Bytes, key: Bytes, t: string, f: string, c: string, presented: Option<string>)
      requires Lawful()
      ensures var r := Unwrap(key, Wrap(mintKey, t, f, c), presented);
              r == Invalid || (r == Pair(t, f) && (presented == None || presented == Some(c)))
    {
      var body := EnvelopeBody(t, f, c);
      EnvelopeAnatomy(mintKey, t, f, c);
      ReadEnvelopeFields(t, f, c, presented);
      UnwrapFramed(key, Wrap(mintKey, t, f, c), presented, body, Sign(mintKey, ENVELOPE_PREFIX + body),
          Obj(EnvelopeFields(t, f, c)));
    }

    /** A revocation recovers core's token from an envelope of any signing key, exactly when the
        envelope fits the cap or still verifies. */
    lemma RevocationSurvivesRotation(mintKey: Bytes, key: Bytes, t: string, f: string, c: string)
      requires Lawful()
      ensures var token := Wrap(mintKey, t, f, c);
              RevocationToken(Some(key), token) ==
              if |token| <= 4096 || Unwrap(key, token, None).Pair? then Some(t) else None
    {
      EnvelopeAnatomy(mintKey, t, f, c);
      UnwrapUnderAnyKey(mintKey, key, t, f, c, None);
    }

    /** A minted client_id verifies to the redirect list it was minted for. */
    lemma RegistrationRoundTrip(key: Bytes, uris: seq<string>, issuedAt: int)
      requires Lawful()
      ensures ClientRedirectUris(key, MintClientId(key, uris, issuedAt)) == Some(uris)
    {
      RegistrationAnatomy(key, uris, issuedAt);
      assert Strings(Quote(uris)) == uris;
    }

    /** Any text that decodes to the MAC verifies in its place. */
    lemma AnySpellingVerifies(key: Bytes, uris: seq<string>, issuedAt: int, sigPart: string)
      requires Lawful() && '.' !in sigPart
      requires decode(sigPart) == decode(Sign(key, encode(dumps(Obj(RegistrationFields(uris, issuedAt))))))
      ensures var body := encode(dumps(Obj(RegistrationFields(uris, issuedAt))));
              ClientRedirectUris(key, CLIENT_ID_PREFIX + (body + "." + sigPart)) == Some(uris)
    {
      hide Sign, RPartition, RegistrationFields;
      var body := encode(dumps(Obj(RegistrationFields(uris, issuedAt))));
      RegistrationAnatomy(key, uris, issuedAt);
      RPartitionSplits(body, '.', sigPart);
      assert (CLIENT_ID_PREFIX + (body + "." + sigPart))[|CLIENT_ID_PREFIX|..] == body + ['.'] + sigPart;
      assert Strings(Quote(uris)) == uris;
      RegisteredList(uris, issuedAt);
    }

    lemma RegisteredList(uris: seq<string>, issuedAt: int)
      ensures Field(Obj(RegistrationFields(uris, issuedAt)), "r") == Arr(Quote(uris))
      ensures Field(Obj(RegistrationFields(uris, issuedAt)), "iat") == Int(issuedAt)
    {
    }

    /** Client_ids that verify have other spellings: with the MAC's padding restored one still does (a 32-byte MAC
        is 43 characters without it). */
    lemma RespelledClientIdVerifies(key: Bytes, uris: seq<string>, issuedAt: int)
      requires Lawful() && decode == Decode
      requires |Sign(key, encode(dumps(Obj(RegistrationFields(uris, issuedAt)))))| % 4 == 3
      ensures ClientRedirectUris(key, MintClientId(key, uris, issuedAt) + "=") == Some(uris)
    {
      hide Sign, ClientRedirectUris, RegistrationFields;
      var body := encode(dumps(Obj(RegistrationFields(uris, issuedAt))));
      var sig := Sign(key, body);
      BodyIsAscii(dumps(Obj(RegistrationFields(uris, issuedAt))));
      SignatureMatches(key, body);
      PaddedSpelling(sig);
      AnySpellingVerifies(key, uris, issuedAt, sig + "=");
      assert MintClientId(key, uris, issuedAt) + "=" == CLIENT_ID_PREFIX + (body + "." + (sig + "="));
    }

    lemma RegistrationAnatomy(key: Bytes, uris: seq<string>, issuedAt: int)
      requires Lawful()
      ensures var id, body := MintClientId(key, uris, issuedAt), encode(dumps(Obj(RegistrationFields(uris, issuedAt))));
              && StartsWith(id, CLIENT_ID_PREFIX)
              && body != ""
              && RPartition(id[|CLIENT_ID_PREFIX|..], '.') == Cut(body, true, Sign(key, body))
              && MacMatches(key, body, Sign(key, body))
              && PayloadOf(body) == Some(Obj(RegistrationFields(uris, issuedAt)))
    {
      var body := encode(dumps(Obj(RegistrationFields(uris, issuedAt))));
      BodyIsAscii(dumps(Obj(RegistrationFields(uris, issuedAt))));
      SignatureMatches(key, body);
      var sig := Sign(key, body);
      RPartitionSplits(body, '.', sig);
      assert MintClientId(key, uris, issuedAt)[|CLIENT_ID_PREFIX|..] == body + "." + sig;
    }

    // ---- the two families stay apart --------------------------------------------------

    /** One MAC signs one text. */
    lemma SignedTextIsUnique(key: Bytes, a: string, b: string, sigPart: string)
      requires Lawful() && MacMatches(key, a, sigPart) && MacMatches(key, b, sigPart)
      ensures a == b
    {
      ToAsciiInjective(a, b);
    }

    /** Text that starts with the envelope's prefix is no base64url text of a JSON object: the
        prefix is alphabet text itself, and its first decoded byte is 122. */
    lemma PrefixedTextIsNoObject(text: string)
      requires Separating() && StartsWith(text, ENVELOPE_PREFIX)
      ensures PayloadOf(text).Some? ==> !PayloadOf(text).value.Obj?
    {
      assert text[0] == text[..|ENVELOPE_PREFIX|][0] && text[1] == text[..|ENVELOPE_PREFIX|][1];
    }

    lemma ObjectsAreUnprefixed(fields: map<string, Json>, rest: string)
      requires Lawful() && Separating()
      ensures encode(dumps(Obj(fields))) != ENVELOPE_PREFIX + rest
    {
      PrefixedTextIsNoObject(ENVELOPE_PREFIX + rest);
    }

    /** No client_id that carries the MAC of a minted envelope, in whatever frame and spelling,
        names a registration. */
    lemma EnvelopeNeverRegisters(key: Bytes, t: string, f: string, c: string, clientId: string)
      requires Lawful() && Separating()
      requires MacMatches(key, ENVELOPE_PREFIX + EnvelopeBody(t, f, c), RPartition(clientId, '.').tail)
      ensures ClientRedirectUris(key, clientId) == None
    {
      if StartsWith(clientId, CLIENT_ID_PREFIX) {
        TailUnderPrefix(clientId, CLIENT_ID_PREFIX);
        var cut := RPartition(clientId[|CLIENT_ID_PREFIX|..], '.');
        if cut.found && MacMatches(key, cut.head, cut.tail) {
          SignedTextIsUnique(key, cut.head, ENVELOPE_PREFIX + EnvelopeBody(t, f, c), cut.tail);
          PrefixedTextIsNoObject(cut.head);
        }
      }
    }

    /** No token that carries the MAC of a minted client_id unwraps as an envelope: the envelope's
        MAC starts its text with the prefix, and an encoded JSON object never starts that way. */
    lemma ClientIdNeverUnwraps(key: Bytes, uris: seq<string>, issuedAt: int, token: string, presented: Option<string>)
      requires Lawful() && Separating()
      requires MacMatches(key, encode(dumps(Obj(RegistrationFields(uris, issuedAt)))), RPartition(token, '.').tail)
      ensures !Unwrap(key, token, presented).Pair?
    {
      if StartsWith(token, ENVELOPE_PREFIX) {
        TailUnderPrefix(token, ENVELOPE_PREFIX);
        var cut := RPartition(token[|ENVELOPE_PREFIX|..], '.');
        if cut.found && MacMatches(key, ENVELOPE_PREFIX + cut.head, cut.tail) {
          var fields := RegistrationFields(uris, issuedAt);
          ObjectsAreUnprefixed(fields, cut.head);
          SignedTextIsUnique(key, ENVELOPE_PREFIX + cut.head, encode(dumps(Obj(fields))), cut.tail);
        }
      }
    }

    /** Cutting a framed value at its last dot gives the same MAC text with or without the prefix. */
    static lemma TailUnderPrefix(s: string, prefix: string)
      requires StartsWith(s, prefix) && '.' !in prefix
      ensures RPartition(s[|prefix|..], '.').found ==> RPartition(s[|prefix|..], '.').tail == RPartition(s, '.').tail
    {
      var rest := s[|prefix|..];
      assert s == prefix + rest;
      var cut := RPartition(rest, '.');
      if cut.found {
        var i := LastIndexOf(rest, '.');
        assert forall k | i < k < |rest| :: cut.tail[k - i - 1] == rest[k];
        assert '.' !in cut.tail;
        assert rest == cut.head + "." + cut.tail;
        assert s == (prefix + cut.head) + "." + cut.tail;
        RPartitionSplits(prefix + cut.head, '.', cut.tail);
      }
    }

    // ---- the token response ------------------------------------------------------------

    /** A client that parses the rewritten response of core finds the envelope where core put its
        refresh token and every other field as core sent it; a body without a string
        refresh_token is relayed byte for byte. */
    lemma RewriteKeepsEveryOtherField(key: Bytes, body: Bytes, f: string, c: string)
      requires Lawful()
      ensures var r := RewriteTokenResponse(key, body, f, c);
              match loads(body)
              case Some(Obj(m)) =>
                if "refresh_token" in m && m["refresh_token"].Str?
                then loads(r) == Some(Obj(m["refresh_token" := Str(Wrap(key, m["refresh_token"].s, f, c))]))
                else r == body
              case _ => r == body
    {
    }
  }
}
