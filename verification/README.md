# ESPHome MCP: a Dafny model

The project models the parts of the ESPHome MCP integration whose correctness does not show in any single
function, and proves what they are for.

- **The ha_auth identity protocol** (`Text`, `Base64Url`, `JsonValues`, `Blobs`, `Urls`, `UrlText`, `Origins`,
  `Identity`, `Metadata`, `Ambiguity`, `TokenLeg`, `Protocol`, `Counterexample`). The component sits between OAuth
  clients and Home Assistant core.
  Core ties a refresh token to the client_id it saw on the code leg; the component may rewrite that client_id
  on the authorize, code and refresh legs and must present the same one each time, either derived again from
  the client's registration or recorded in a signed envelope around the token. The protocol is a state machine
  over registrations, codes, core's bindings, the clients' grants and the current signing key.
- **Two bounded stores** (`PkceStore`, `CimdCache`), as classes that keep the log of every call made on them.
- **The vendoring script** (`ImportRewrite`, `Splice`, `Promote`, `Requirements`): the import rewriter against a
  semantics of import statements, the text splicer, the directory swap with rollback, the requirement merger.
- **Confined path creation** (`CreatePath`): a walk over directory descriptors in an inode tree, with any system
  call able to fail.
- **Two protocol loops facing an arbitrary peer** (`DeviceBuilder`; `NativeSession`, `NativeAnswers`) and
  **the webhook's lifecycle under faults** (`Webhook`).

Code that changes state step by step is a class with methods or a method with a loop, proved against functions
of its inputs and old state; code made of expressions is functions.

## Assumptions

- HMAC-SHA256 and SHA-256 are injective functions and the JSON codec returns an object it printed
  (`Blobs.Primitives.Assumed`); a printed object starts with a brace and only text starting with a brace or
  white space parses as one (`AssumedLeads`). Base64url is concrete, and `Base64Url.ComponentBase64Laws` proves
  the laws the rest uses.
- The `ipaddress` module is three predicates; case never decides whether a host is an IPv6 address, such an
  address starts with a hex digit or a colon, IPv6 and loopback addresses are addresses, and an address without
  a colon has no bracket (`Urls.Hosts.Lawful`).
- Core issues a code only when the forwarded client_id and the redirect have one scheme and one case-folded
  authority, redeems codes and tokens only under exactly the bound client_id, and mints new tokens that do not
  start with the envelope's prefix. The set of client metadata documents is fixed.
- A client_id that verifies under the current key, in whatever spelling, names a list the register view handed
  out a client_id for (`Protocol.Unforged`); the register view signs only lists it validated. There are other
  spellings that verify (`Blobs.Primitives.RespelledClientIdVerifies`).
- Binding a view that is bound already fails, as the comment on the guard flag says
  (custom_components/esphome_mcp/mcp_webhook.py:474-480).
- The signing key is always present in the protocol. `CreatePath` has no interference from other processes.
  `Promote` takes the removal of targets and the renames of the rollback to succeed.

## Findings

Where a promise does not hold of the code, the code is kept and the exact condition is proved.

- An authorization at a redirect that is not registered but shares the client_id's origin is forwarded
  untouched, yet a refresh without a redirect derives the registered origin instead. A raw token's refresh is
  delivered exactly when that derivation does not happen (`Protocol.RefreshReachesItsBinding`), which is
  guaranteed for redirects the registration matches (`Protocol.MisderivedMeansUnregistered`). A three-step run
  and a concrete client show the failure.
- `normalized_origin` undoes `canonical_origin_url` exactly when the printed host parses again: a validated
  redirect whose host is an IPvFuture literal with a bracket in it and no colon is printed without brackets
  (`Origins.OriginRoundTrip`, `Origins.UnprintableRedirect`).
- The refresh leg gives up on a registration exactly when the authorize leg forwards different client_ids for its
  redirects, or origins are miscounted: what follows a "%" in a host keeps its letter case there, so one authority
  can count as two origins (`Ambiguity.GivesUpExactlyWhenAmbiguous`, at a concrete client in
  `Counterexample.MiscountExists`).
- An exception between moving a vendored tree aside and recording the swap leaves that target in its backup,
  and nothing else does (`Promote.LostExactly`).
- The import rewrite keeps every binding except possibly that of the name `custom_components`. For every program,
  that name ends up bound to the prefix's top package when the last to bind it is a vendored submodule imported by
  its dotted name alone, and is the program's own, relocated, exactly when it is not or is that package anyway
  (`ImportRewrite.ExtraNameAppears`; a program that loses its binding in `ImportRewrite.ExtraNameMayBeLost`).
- Creating a path closes every descriptor once unless `fstat` of the new file or the close of a directory on
  the way fails; in exactly those two cases one is lost. After a failed close of a directory on the way it is
  closed a second time, and that error escapes the handler (`CreatePath.Kernel.Create`).
- A Device Builder message with the command's own id whose event is an array or an object ends the receive loop in
  an exception that nothing handles, exactly when it is the first message to stop the reading
  (`DeviceBuilder.RaisesExactly`, at an input in `DeviceBuilder.OneListRaises`).
- Once a view other than the first of its bundle fails to bind, no later registration in the process offers an
  OAuth surface (`Webhook.Hass.Register`, `Webhook.Hass.Run`, at a run in `Webhook.StuckRun`).
- A none-mode registration whose provider cannot be made keeps its registration key live alone, although the
  docstring of `_bind_none_surface` rules that out (`Webhook.Hass.BindNoAuth`).
- A session stays open exactly when closing one, or retiring the handler before that, fails or is cancelled
  (`Webhook.Hass.Run`).

## Model

| member | source | states |
|---|---|---|
| Base64Url.DecodeUndoesEncode | custom_components/esphome_mcp/oauth_common.py:53-61 | decoding returns every byte string that was encoded, though padding is stripped and restored (RFC 4648 section 5) |
| Base64Url.KnownAnswers | custom_components/esphome_mcp/oauth_common.py:53-61 | encodes the vectors of RFC 4648 section 10 and uses the alphabet of its section 5 |
| Base64Url.GroupByGroup | custom_components/esphome_mcp/oauth_common.py:53-55 | every three bytes are encoded by themselves |
| Base64Url.DecodeIsLenient | custom_components/esphome_mcp/oauth_common.py:58-61 | the converse fails: another spelling decodes to the same bytes, so only this direction is an identity |
| Base64Url.PaddedSpelling | custom_components/esphome_mcp/oauth_common.py:58-61 | text with its padding restored decodes like the text without it |
| Base64Url.ObjectEncodingStart | custom_components/esphome_mcp/oauth_ha_auth.py:468-474 | what the first byte of a decoded text forces on its first characters: an encoded object never begins like the envelope prefix |
| Base64Url.ComponentBase64Laws | custom_components/esphome_mcp/oauth_common.py:53-61 | the concrete pair meets every law the blobs rely on: round trip, alphabet without a dot, ASCII, leading characters |
| Blobs.Primitives.UnwrapUndoesWrap | custom_components/esphome_mcp/oauth_ha_auth.py:487-577 | for every token, identity and presenter, unwrapping under the signing key gives the wrapped pair to the bound presenter or to no presenter, and Invalid to any other |
| Blobs.Primitives.UnwrapUnderAnyKey | custom_components/esphome_mcp/oauth_ha_auth.py:533-577 | whatever key checks an envelope, it never yields a pair other than the one wrapped |
| Blobs.Primitives.AbsentIsUnprefixed | custom_components/esphome_mcp/oauth_ha_auth.py:533-548 | a value counts as no envelope exactly when it lacks the prefix, so a failing envelope is never taken for a raw token |
| Blobs.Primitives.ReadsEnvelopes | custom_components/esphome_mcp/oauth_ha_auth.py:549-577 | exactly the payloads of version 1 with three texts, the last of them the presenter's hash, are read as the pair in them |
| Blobs.Primitives.UnframedIsNothing | custom_components/esphome_mcp/oauth_ha_auth.py:541-548 | a prefix without a body and a dot behind it names no pair, no token to revoke and no registration |
| Blobs.Primitives.RevocationSurvivesRotation | custom_components/esphome_mcp/oauth_ha_auth.py:590-652 | core's token is recovered from an envelope of any signing key exactly when it is at most 4096 characters long or still verifies (RFC 7009 section 2.2) |
| Blobs.Primitives.RegistrationRoundTrip | custom_components/esphome_mcp/oauth_dcr.py:57-85 | a minted client_id verifies to the redirect list it was minted for |
| Blobs.Primitives.RespelledClientIdVerifies | custom_components/esphome_mcp/oauth_dcr.py:65-85 | a minted client_id with its MAC's padding restored verifies to the same list, so verifying does not mean having been handed out |
| Blobs.Primitives.SignedTextIsUnique | custom_components/esphome_mcp/oauth_dcr.py:65-85 | one MAC text verifies at most one signed text, in whatever spelling |
| Blobs.Primitives.EnvelopeNeverRegisters | custom_components/esphome_mcp/oauth_dcr.py:65-85 | no client_id that carries an envelope's MAC, however re-framed, names a registration |
| Blobs.Primitives.ClientIdNeverUnwraps | custom_components/esphome_mcp/oauth_ha_auth.py:533-577 | no token that carries a minted client_id's MAC, however re-framed, unwraps to a pair |
| Blobs.Primitives.RewriteKeepsEveryOtherField | custom_components/esphome_mcp/oauth_ha_auth.py:655-695 | the client reads the envelope where core put its refresh token, every other field is core's own, and any other body passes unchanged |
| Urls.Hosts.ValidRedirectNamesOrigin | custom_components/esphome_mcp/oauth_common.py:79-95 | every redirect the validator accepts has an origin |
| UrlText.CharacterSets | custom_components/esphome_mcp/oauth_common.py:74-89 | the characters of an authority are those of RFC 3986 section 3.2 |
| UrlText.DefaultPorts | custom_components/esphome_mcp/oauth_dcr.py:106-134 | an origin is printed without a port exactly for 443 on https and 80 on http, and a redirect without one has that port |
| Origins.NormalizeUndoesCanonical | custom_components/esphome_mcp/oauth_dcr.py:106-134 | an origin printed with IPv6 brackets and without a default port parses back to itself (RFC 3986 section 3.2) |
| Origins.CanonicalIsInjective | custom_components/esphome_mcp/oauth_dcr.py:123-134 | two origins in range never print alike |
| Origins.OriginRoundTrip | custom_components/esphome_mcp/oauth_dcr.py:106-134 | for every validated redirect, parsing its printed origin gives that origin exactly when the host can be printed at all |
| Origins.SameCanonicalSameOrigin | custom_components/esphome_mcp/oauth_ha_auth.py:212-226 | redirects whose printed origins agree have one origin |
| Origins.UnprintableRedirect | custom_components/esphome_mcp/oauth_dcr.py:123-134 | a concrete validated redirect whose printed origin does not parse back |
| Identity.OriginClientIdIsIdempotent | custom_components/esphome_mcp/oauth_ha_auth.py:212-226 | a printed origin used as a client_id names itself again exactly when its host can be printed |
| Identity.CollectNonLoopbackOrigins | custom_components/esphome_mcp/oauth_dcr.py:137-147 | the loop collects exactly the origins of the redirects that are not loopback |
| Identity.NonLoopbackMember | custom_components/esphome_mcp/oauth_dcr.py:137-147 | an origin is collected exactly when some redirect off loopback has it |
| Identity.StableOriginExists | custom_components/esphome_mcp/oauth_ha_auth.py:257-277 | a reproducible registration always has its one translation origin, the origin of each of its redirects, so the branch that reports its absence is unreachable |
| Identity.RegisteredIsNoOrigin | custom_components/esphome_mcp/oauth_ha_auth.py:280-293 | a client_id with a registration is never itself the origin a redirect translates to |
| Identity.TranslatesExactly | custom_components/esphome_mcp/oauth_ha_auth.py:417-465 | for every client_id, registration and redirect: another client_id is forwarded exactly when the registration matches the redirect and the client_id has another scheme or authority, and then it is the redirect's printed origin; an unmatched redirect never gets one |
| Identity.RefreshAgreesWithAuthorize | custom_components/esphome_mcp/oauth_ha_auth.py:417-465 | for every registration and redirect: what the redirect-less refresh derives against what the authorize leg forwarded, as an exact condition on the redirect |
| Ambiguity.GivesUpExactlyWhenAmbiguous | custom_components/esphome_mcp/oauth_ha_auth.py:717-800 | for every client_id and registration the refresh leg answers UNREPRODUCIBLE exactly when two redirects that match the registration are forwarded under different client_ids, or several origins are counted although the client_id does not parse or all redirects share its scheme and authority |
| Ambiguity.LoopbackIsAmbiguous | custom_components/esphome_mcp/oauth_ha_auth.py:229-254 | any loopback redirect leaves the port open and with it the forwarded client_id: two ports of it get different ones (RFC 8252 section 7.3) |
| Ambiguity.AtPortIsValid | custom_components/esphome_mcp/oauth_ha_auth.py:229-254 | a loopback redirect with another port is a valid redirect, of that port's origin, that matches the registered one |
| Ambiguity.LoopbackMatchIgnoresPort | custom_components/esphome_mcp/oauth_ha_auth.py:229-254 | two loopback redirects match exactly when they parse alike once both are given one port, whichever it is (RFC 8252 section 7.3) |
| Ambiguity.MatchesExactly | custom_components/esphome_mcp/oauth_ha_auth.py:229-254 | a redirect matches a registration exactly when it is listed, or it and an entry are on loopback and alike but for the port |
| Ambiguity.MiscountedIsUnambiguous | custom_components/esphome_mcp/oauth_ha_auth.py:717-800 | where origins are miscounted and no redirect is on loopback, all matching redirects are forwarded under one client_id, so giving up was not called for |
| Ambiguity.AtHomeIsUnambiguous | custom_components/esphome_mcp/oauth_ha_auth.py:417-465 | where every redirect shares the client_id's origin the client_id itself is forwarded for all of them |
| Ambiguity.ResolvesTo | custom_components/esphome_mcp/oauth_ha_auth.py:417-465 | a redirect that matches the registration is forwarded under the client_id at its own origin and under the redirect's origin elsewhere, which are never the same |
| Metadata.RegisteredByDocument | custom_components/esphome_mcp/oauth_ha_auth.py:296-337 | a document is fetched exactly for an https client_id off loopback, of no address, with a path free of dot segments, no fragment and no user information; what it registers is a list of valid redirects |
| Metadata.DotSegmentsAreFound | custom_components/esphome_mcp/oauth_ha_auth.py:113-129 | the path test finds exactly the segments `.` and `..` |
| Metadata.OneFieldChanged | custom_components/esphome_mcp/oauth_ha_auth.py:390-414 | each field of an accepted document set to any other value: which values it may have, that a shared secret of any form refuses it, and that other fields do not matter |
| Metadata.OneFieldMissing | custom_components/esphome_mcp/oauth_ha_auth.py:390-414 | an accepted document may lose any field but its client_id, name and redirects |
| Identity.LoopbackNeverMatches | custom_components/esphome_mcp/oauth_ha_auth.py:229-254 | under a reproducible registration only listed redirects match |
| TokenLeg.Form.PopAll | custom_components/esphome_mcp/oauth_autoapprove.py:302-339 | deleting a key in place leaves every other pair in order |
| TokenLeg.Form.Replace | custom_components/esphome_mcp/oauth_autoapprove.py:570-632 | afterwards the key has the one value and every other key its values |
| TokenLeg.Form.RevokeRewrite | custom_components/esphome_mcp/oauth_autoapprove.py:302-339 | a revoked envelope's form reaches core with core's own token under the envelope's identity, any other form untouched |
| TokenLeg.Form.EnvelopeIdentity | custom_components/esphome_mcp/oauth_autoapprove.py:342-378 | a verified envelope names the identity and leaves core's token in the form; a failing one is refused with the form untouched |
| TokenLeg.Form.ForwardIdentity | custom_components/esphome_mcp/oauth_autoapprove.py:634-685 | which client_id core is given on the code, refresh and revoke legs, and whether the leg must be proxied |
| TokenLeg.Form.HaAuthToken | custom_components/esphome_mcp/oauth_autoapprove.py:570-632 | refuse, relay or proxy, and the form a proxied request carries |
| TokenLeg.ProxyKeepsOtherParameters | custom_components/esphome_mcp/oauth_autoapprove.py:570-632 | a proxied form names one client_id, the forwarded one, and keeps every parameter the leg has no business with |
| TokenLeg.CodeLegExactly | custom_components/esphome_mcp/oauth_autoapprove.py:412-452 | for every form of the code leg: whether core gets the client's own form or a proxied one, and under which client_id |
| TokenLeg.EnvelopeNeverReachesCore | custom_components/esphome_mcp/oauth_autoapprove.py:342-378 | no refresh of any shape gets an envelope past the component: it is refused, or proxied as core's token |
| Protocol.RegistrationUnderAnyKey | custom_components/esphome_mcp/oauth_dcr.py:57-85 | a minted client_id checked under any key names its own list or nothing |
| Protocol.StepKeepsInv | custom_components/esphome_mcp/oauth_autoapprove.py:570-717 | every authorize, exchange, refresh, revoke, register, rotation and forget step keeps each grant an envelope of its exact binding or a raw token bound to the client_id its holder presents |
| Protocol.RunKeepsInv | custom_components/esphome_mcp/oauth_autoapprove.py:267-452 | that holds in every state of every run |
| Protocol.RefreshReachesItsBinding | custom_components/esphome_mcp/oauth_autoapprove.py:342-411 | a refresh is refused exactly when its envelope fails to verify, which takes a key rotation; else core gets exactly its pair, iff the grant is enveloped or its derivation does not name another origin |
| Protocol.MisderivedMeansUnregistered | custom_components/esphome_mcp/oauth_ha_auth.py:717-800 | the derivation goes wrong only for a redirect the registration does not match |
| Protocol.RegisteredRunsDeliverRefreshes | custom_components/esphome_mcp/oauth_autoapprove.py:570-717 | in every run with registered redirects every refresh, with rotated tokens and with or without its redirect, carries the bound pair or is refused for a rotated key (RFC 6749 section 6) |
| Protocol.NoRefusalWithoutRotation | custom_components/esphome_mcp/oauth_autoapprove.py:570-632 | without a key rotation no token minted in the run is ever answered with a local invalid_grant |
| Protocol.RevocationEndsTheGrant | custom_components/esphome_mcp/oauth_autoapprove.py:751-795 | revoking what a client holds, on either endpoint and under any later key, ends core's own token exactly when the value fits the cap or still verifies, and changes nothing else |
| Protocol.UnregisteredRedirectBreaksRefresh | custom_components/esphome_mcp/oauth_autoapprove.py:381-411 | for any client of that kind a three-step run ends with a refresh under a client_id core did not bind |
| Counterexample.UnregisteredRedirectExists | custom_components/esphome_mcp/oauth_ha_auth.py:417-465 | such a client exists: a concrete document, client_id and redirect |
| Counterexample.MiscountExists | custom_components/esphome_mcp/oauth_ha_auth.py:717-800 | a concrete document on host `a%b` with redirects on `a%b` and `a%B`: not ambiguous, yet given up on |
| PkceStore.PKCECodeStore.IssueCode | custom_components/esphome_mcp/oauth_common.py:112-128 | a code is issued unless exactly 1000 unexpired codes are pending, and the store still holds what the log leaves pending |
| PkceStore.PKCECodeStore.ConsumeCode | custom_components/esphome_mcp/oauth_common.py:130-142 | succeeds exactly when the log has a pending, unexpired issue for that redirect and S256 challenge (RFC 7636 section 4.6) |
| PkceStore.IssueRefines | custom_components/esphome_mcp/oauth_common.py:112-128 | dropping expired codes and inserting one matches the log with the issue appended |
| PkceStore.ConsumeRefines | custom_components/esphome_mcp/oauth_common.py:130-142 | popping on any well-formed attempt matches the log with the attempt appended |
| PkceStore.WellFormedExactly | custom_components/esphome_mcp/oauth_common.py:132-135 | a verifier is taken up exactly when it is 43 to 128 unreserved characters (RFC 7636 section 4.1) |
| PkceStore.NeverOverTheCap | custom_components/esphome_mcp/oauth_common.py:112-128 | at no time are more than 1000 codes pending |
| PkceStore.SpentIsNotLive | custom_components/esphome_mcp/oauth_common.py:130-142 | after a code is redeemed no issue of it is pending in any later log |
| PkceStore.RedeemsOnce | custom_components/esphome_mcp/oauth_common.py:130-142 | no code succeeds twice |
| PkceStore.NeverRedeemsExpired | custom_components/esphome_mcp/oauth_common.py:130-142 | a success is never more than 300 seconds after the issue it redeems, and has its redirect and challenge |
| PkceStore.RedeemsWhenFirst | custom_components/esphome_mcp/oauth_common.py:130-142 | whatever the clock does: an attempt succeeds iff it comes within 300 seconds of the issue, for its redirect and challenge, before any other well-formed attempt on the code and any issue call past its time |
| CimdCache.Cache.Pop | custom_components/esphome_mcp/oauth_ha_auth.py:380 | the written client_id's old entry goes, all others stay in order |
| CimdCache.Cache.DropExpired | custom_components/esphome_mcp/oauth_ha_auth.py:381-383 | exactly the expired entries go |
| CimdCache.Cache.CacheCimd | custom_components/esphome_mcp/oauth_ha_auth.py:370-387 | after every write the cache is an order-preserving window of at most 64 entries on the log of latest writes, ending in the entry just written with the TTL of its kind |
| CimdCache.Cache.Lookup | custom_components/esphome_mcp/oauth_ha_auth.py:319-322 | a hit is the latest write of that client_id, less than 300 seconds old or 60 for a failure; the write is found for exactly that long unless 64 others were written since or one past its time; the last write of all always is |
| CimdCache.LookupAddresses | custom_components/esphome_mcp/oauth_ha_auth.py:340-367 | the first answering address decides; a rejected document is final and not cached |
| CimdCache.OldestMayBeGone | custom_components/esphome_mcp/oauth_ha_auth.py:384-385 | the entry evicted from a full cache has had 64 distinct other client_ids written since |
| CimdCache.RecentWritesAreKept | custom_components/esphome_mcp/oauth_ha_auth.py:370-387 | an unexpired latest write followed by fewer than 64 distinct other client_ids is in the cache |
| ImportRewrite.RewriteImport | scripts/vendor_fastmcp.py:164-180 | leaves a statement alone exactly when it names nothing vendored, else gives the statements of each alias in order |
| ImportRewrite.RewritingSpelledOut | scripts/vendor_fastmcp.py:164-180 | the two statements `import mcp.types` becomes, and the three packages concerned |
| ImportRewrite.NothingRemains | scripts/vendor_fastmcp.py:231-238 | no absolute import of a vendored package is left behind |
| ImportRewrite.CleanIsFixed | scripts/vendor_fastmcp.py:164-194 | a statement is its own rewriting exactly when it names no vendored module |
| ImportRewrite.RewriteIsIdempotent | scripts/vendor_fastmcp.py:204-228 | rewriting again changes nothing |
| ImportRewrite.RelativeSource | scripts/vendor_fastmcp.py:183-185 | what a relative import reads: the package, one level up per further dot, nothing above the top |
| ImportRewrite.SourceMoved | scripts/vendor_fastmcp.py:183-185 | relative imports, which are left alone, find the relocated module by themselves in the vendored package |
| ImportRewrite.TopAliasMoved | scripts/vendor_fastmcp.py:173-179 | `import top.rest` becomes statements that load the module and bind `top` to the relocated package |
| ImportRewrite.RewritingPreservesMeaning | scripts/vendor_fastmcp.py:204-228 | run in the vendored copy, a rewritten program raises nowhere the original did not, binds every name to the same value relocated, with `custom_components` decided exactly, loads the relocated modules, and adds at most the prefix's own packages |
| ImportRewrite.ExtraNameAppears | scripts/vendor_fastmcp.py:173-179 | for every program: whether `custom_components` is bound afterwards, and when it is the program's own binding or the prefix's top package, by the last statement to bind it |
| ImportRewrite.ExtraNameMayBeLost | scripts/vendor_fastmcp.py:173-179 | a program whose own binding of that name the rewrite replaces |
| Splice.ApplyEdits | scripts/vendor_fastmcp.py:209-225 | right-to-left replacement with original offsets is the simultaneous substitution of all spans |
| Splice.OrderIsIrrelevant | scripts/vendor_fastmcp.py:209-225 | the substitution depends on the set of edits, not on the order they were found in |
| Splice.SortedIsOrdered | scripts/vendor_fastmcp.py:224 | the order edits are applied in is descending and loses none |
| Splice.SpliceReplacesStatements | scripts/vendor_fastmcp.py:209-225 | every character outside the edited statements stays in order and every edited statement becomes its replacement |
| Promote.Disk.SwapOne | scripts/vendor_fastmcp.py:459-466 | how far one package gets under a failure at any of its steps, and its three places then |
| Promote.Disk.Restore | scripts/vendor_fastmcp.py:468-471 | every recorded swap is undone and nothing else is touched |
| Promote.Disk.Promote | scripts/vendor_fastmcp.py:455-476 | every target holds its staged tree with no staging and no removable backup left, or every target is as before and the staging is gone, for any number of packages and a failure anywhere, save the one lost target |
| Promote.LostExactly | scripts/vendor_fastmcp.py:464-465 | a target is lost exactly when an exception comes after moving it aside and before recording that, in a run that gets so far |
| Promote.TurnGoesThrough | scripts/vendor_fastmcp.py:459-466 | a package is swapped exactly when both renames are possible and nothing is raised in its turn |
| Requirements.VersionRoundTrip | scripts/vendor_fastmcp.py:298-301 | every dotted version is read back as its numbers |
| Requirements.VersionKeyReads | scripts/vendor_fastmcp.py:298-301 | the texts read as versions are those of digits with single dots between them |
| Requirements.ComparesPadded | scripts/vendor_fastmcp.py:304-311 | releases compare by the first place where they differ once padded with zeros (PEP 440) |
| Requirements.FloorMeaning | scripts/vendor_fastmcp.py:304-311 | which clauses are floors, and that a floor lets through exactly the versions nowhere below it but its own pre-releases |
| Requirements.TupleOrderIsPaddedOrder | scripts/vendor_fastmcp.py:304-311 | the greatest tuple is also greatest under PEP 440's zero-padded comparison |
| Requirements.MergeClauses | scripts/vendor_fastmcp.py:304-311 | keeps every clause that is no numeric floor and one highest floor |
| Requirements.MergeKeepsMeaning | scripts/vendor_fastmcp.py:304-311 | a version satisfies the kept clauses exactly when it satisfies all (PEP 440, "Inclusive ordered comparison"), whichever of equal floors is kept |
| Requirements.CanonicalIsCanonical | scripts/vendor_fastmcp.py:141-142 | canonical names are lower case with single dashes and are their own canonical form |
| Requirements.CaseIsIgnored | scripts/vendor_fastmcp.py:141-142 | spellings that differ in letter case only have one canonical name |
| Requirements.Gather | scripts/vendor_fastmcp.py:337-351 | the loop's dictionary is, name by name, the union of what the applicable lines say; it stops exactly at a refused line |
| Requirements.ManifestRequirements | scripts/vendor_fastmcp.py:335-358 | fails exactly when some line is refused; else each name's entry is a merge of what its lines say |
| Requirements.ManifestKeepsMeaning | scripts/vendor_fastmcp.py:335-358 | a name is declared exactly when some applicable line counts for it, with all their extras, and its entry allows a version exactly when every one of those lines does |
| CreatePath.SplitJoins | custom_components/esphome_mcp/filesystem_tools.py:36-42 | the parts walked contain no slash and spell the path |
| CreatePath.GoodPathText | custom_components/esphome_mcp/filesystem_tools.py:36-47 | the paths accepted, on their characters: no backslash, no NUL, no name that starts with a dot, none missing |
| CreatePath.FirstObstacle | custom_components/esphome_mcp/filesystem_tools.py:78-136 | where nothing fails the answer is decided by the first name that is no directory, or the last: what it is tells the code |
| CreatePath.Kernel.Enter | custom_components/esphome_mcp/filesystem_tools.py:84-91 | the descriptor moves to a real child directory, or the component is classified by what is in the way |
| CreatePath.Kernel.Advance | custom_components/esphome_mcp/filesystem_tools.py:78-91 | one component: only that name may be new, the next descriptor is its real directory, and the error names what is in the way |
| CreatePath.Kernel.LeafFolder | custom_components/esphome_mcp/filesystem_tools.py:93-120 | success means a real directory of that name, reported as created exactly when it is new |
| CreatePath.Kernel.LeafFile | custom_components/esphome_mcp/filesystem_tools.py:121-168 | success means a new regular file with exactly the content; nothing that was there changes, whatever fails |
| CreatePath.Kernel.Descend | custom_components/esphome_mcp/filesystem_tools.py:78-169 | the whole walk extends the tree only along the path, and its descriptors balance |
| CreatePath.Kernel.Create | custom_components/esphome_mcp/filesystem_tools.py:34-176 | a pure, confined extension under a fault at any call; every path with a hidden, missing or traversing name is refused with nothing done, and no other; success resolves to the leaf asked for; descriptors are all closed once iff neither fstat nor a parent's close fails; where no call fails the answer is the reference one and a failure changes nothing; a failing close of a directory escapes as an exception, any other OSError of no use to the walk is a filesystem error |
| DeviceBuilder.Receive | custom_components/esphome_mcp/addon_tools.py:981-1035 | the loop's report, or its exception, is that of a fold over the command's own messages and the way the connection ended |
| DeviceBuilder.RaisesExactly | custom_components/esphome_mcp/addon_tools.py:1003-1017 | the loop ends in an exception exactly when the first message to stop the reading has an event that cannot be looked up in a set |
| DeviceBuilder.OneListRaises | custom_components/esphome_mcp/addon_tools.py:1011-1016 | one own message with a list for its event is such an input |
| DeviceBuilder.ForeignFramesAreIgnored | custom_components/esphome_mcp/addon_tools.py:993-1002 | a frame of another id, no JSON, no object or binary, inserted anywhere, changes neither those messages nor the end |
| DeviceBuilder.ForeignFramesNeverMatter | custom_components/esphome_mcp/addon_tools.py:982-1035 | connections that differ only in foreign frames get the same report |
| DeviceBuilder.ReasonTellsTruth | custom_components/esphome_mcp/addon_tools.py:1003-1035 | the close reason agrees with what is reported: a terminal event is the last event and the only terminal one, a result or the limit is claimed only when met |
| DeviceBuilder.ReasonNamesTheEnd | custom_components/esphome_mcp/addon_tools.py:981-1026 | when nothing stops the reading the reason is the way listening ended, and at no other time |
| DeviceBuilder.OneMessage | custom_components/esphome_mcp/addon_tools.py:1003-1020 | what a single message with the command's id comes to, for every message |
| NativeSession.Session.OnePage | custom_components/esphome_mcp/addon_tools.py:215-229 | one request, after the cursor the last page named; its tools join the catalog or the failure is explained by the answer |
| NativeSession.Session.Pages | custom_components/esphome_mcp/addon_tools.py:210-240 | pages are asked for with the cursor the page before named, at most twenty, no cursor twice; the tools are those of all pages in order |
| NativeSession.Session.Run | custom_components/esphome_mcp/addon_tools.py:153-301 | against any server the requests have the session's shape; a listing is the catalog filtered by name; a call is answered only as the server answered it; both report the server information and protocol of the handshake, from a catalog of at most 2 MiB; every failure is explained by the last answer, the catalog's size or end, or the missing tool |
| NativeSession.OneCallAtMost | custom_components/esphome_mcp/addon_tools.py:153-301 | at most 23 requests, at most one call and that last, and no page asked for twice |
| NativeSession.SelectedSome | custom_components/esphome_mcp/addon_tools.py:241-246 | filtering by name is empty exactly when the catalog lacks the name |
| NativeSession.SelectedConcat | custom_components/esphome_mcp/addon_tools.py:241 | filtering goes tool by tool, in order |
| NativeSession.SelectedOne | custom_components/esphome_mcp/addon_tools.py:241 | a tool is kept exactly when no name is asked for or it has that name |
| NativeAnswers.FirstRequests | custom_components/esphome_mcp/addon_tools.py:185-215 | the handshake and the first page request of every session, spelled out |
| NativeAnswers.LaterRequests | custom_components/esphome_mcp/addon_tools.py:215-264 | after them come page requests, each with the cursor the page before it named, and at the end the call, spelled out |
| NativeAnswers.EveryAnswer | custom_components/esphome_mcp/addon_tools.py:73-150 | each way an exchange is read and exactly when: a result, a refusal, an HTTP status, no JSON-RPC answer to this request (JSON-RPC 2.0 section 5) |
| NativeAnswers.AcceptedHandshake | custom_components/esphome_mcp/addon_tools.py:196-207 | the two protocol versions and the three objects a handshake must have |
| NativeAnswers.AcceptedPage | custom_components/esphome_mcp/addon_tools.py:216-224 | a page is taken exactly when every tool on it has a name and a schema |
| NativeAnswers.AcceptedResult | custom_components/esphome_mcp/addon_tools.py:265-277 | a call's result is taken exactly when its content is typed blocks and its error mark a truth value |
| Webhook.Hass.Bind | custom_components/esphome_mcp/mcp_webhook.py:462-483 | a bundle's flag means all its views are bound; the bundle is stuck from then on exactly when a view other than its first fails, and a stuck one never gets its flag |
| Webhook.Hass.BindHaAuth | custom_components/esphome_mcp/mcp_webhook.py:610-623 | the ha_auth surface is there with every one of the eleven views bound, or the registration fails |
| Webhook.Hass.BindNoAuth | custom_components/esphome_mcp/mcp_webhook.py:626-657 | a failure leaves the forwarding registration without a surface, a corrupt key never half of one; the key is live alone exactly when the provider cannot be made |
| Webhook.Hass.Abandon | custom_components/esphome_mcp/mcp_webhook.py:727-735 | both sessions of a failed registration are closed exactly when no close fails or is cancelled; a handler that cannot be removed stops nothing |
| Webhook.Hass.Attach | custom_components/esphome_mcp/mcp_webhook.py:703-737 | a registration goes live with its handler and the surface of its mode, or all it set up is taken down |
| Webhook.Hass.Register | custom_components/esphome_mcp/mcp_webhook.py:660-737 | keeps every invariant under any fault; a failure leaves the live registration as it was and a session open exactly when a close failed; when it succeeds; when the process gets stuck; when a key is live alone |
| Webhook.Hass.Unregister | custom_components/esphome_mcp/mcp_webhook.py:740-760 | nothing is live afterwards whatever fails, and all sessions are closed exactly when it returns normally |
| Webhook.Hass.Run | custom_components/esphome_mcp/mcp_webhook.py:660-760 | over every sequence of calls with mode switches and faults: a live provider or key implies all eleven views, the two providers never coexist, and with unregistration before each registration the open sessions are the live ones if and only if no close and no retiring failed |
| Webhook.StuckRun | custom_components/esphome_mcp/mcp_webhook.py:462-483 | a process with one failing step that is stuck and refuses ha_auth from then on |

## Left out

- HTTP, DNS and WebSocket transport, session timeouts, redirects that carry codes, and response bodies other
  than core's token response: only their outcomes are inputs.
- Core's own pages, its token formats and lifetimes; none-mode's cosmetic access tokens.
- Text is ASCII: the Unicode checks of `urlsplit`, IDNA and surrogates are not modelled. Recursion and digit limits of
  the JSON codec, infinite floats and repeated-warning flags are not either.
- The addresses a client metadata document may be fetched from, and the size and type limits of that fetch: the
  cache takes each address's outcome as given.
- `rewrite_imports` starts from parsed import statements with their spans: the conversion of line and column to
  offsets, the regular expressions for from-imports and for `import_module` calls, and the other patches of a
  vendored file are not modelled. Imports are modelled by what they bind and load, not by the code they run.
- The marker grammar of requirements is a function from marker text to its value; the regular expression that
  splits a line, the sorting and the text of the manifest are not modelled. A version's suffix counts only by its
  place before or after the plain release, and what a clause that is no numeric floor allows is left open.
- Promote.Disk.Promote: takes the rollback's own removals and renames to succeed, and stops at the first failure;
  an interrupt of the final clearing of backups is not modelled.
- CreatePath.Kernel.Create: does not model other processes changing the tree during the walk, so the branch for a
  path that changes underneath is reached by faults only.
- The server's first message to a Device Builder connection, before the command is sent.
- DeviceBuilder.Receive: takes the passing of time as arrivals; a foreign frame is not charged for the time it takes.
- NativeSession.Session.Run: starts with a route to a running add-on; size limits are tests of a given size function.
- Webhook.Hass.Register: forwarding of requests, the documents the views serve and the contents of registrations
  are not modelled; a session whose close raises counts as open.
- Add-on HTTP calls, YAML tools, option flows, server threads and version checks: mostly single branches.
