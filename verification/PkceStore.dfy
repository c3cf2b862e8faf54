/** The one-shot authorization-code store of oauth_common.py, against the log of every call made on it.
    Clock readings, the random codes and the S256 derivation come in from outside; nothing is asked of
    the clock. */
module PkceStore {
  import opened Sets
  import opened Wrappers
  import opened Urls
  import opened Text

  const AUTH_CODE_TTL: real := 300.0
  const MAX_PENDING_CODES := 1000
  const VERIFIER_MIN := 43
  const VERIFIER_MAX := 128

  datatype Pending = Pending(redirect: string, challenge: string, expires: real)

  datatype Event =
    | Issue(now: real, redirect: string, challenge: string, code: Option<string>)
    | Consume(now: real, attempt: string, redirect: string, verifier: string, ok: bool)

  predicate VerifierChar(c: char) { IsAlpha(c) || IsDigit(c) || c in {'.', '_', '~', '-'} }

  predicate AllVerifierChars(s: string) {
    s == "" || (VerifierChar(s[0]) && AllVerifierChars(s[1..]))
  }

  predicate WellFormed(verifier: string) {
    VERIFIER_MIN <= |verifier| <= VERIFIER_MAX && AllVerifierChars(verifier)
  }

  /** RFC 7636 section 4.1, unreserved characters. */
  predicate Unreserved(c: char) {
    'A' <= c <= 'Z' || 'a' <= c <= 'z' || '0' <= c <= '9' || c == '-' || c == '.' || c == '_' || c == '~'
  }

  lemma {:induction false} UnreservedOnly(s: string)
    ensures AllVerifierChars(s) <==> forall k :: 0 <= k < |s| ==> Unreserved(s[k])
  {
    if s != "" {
      UnreservedOnly(s[1..]);
      assert forall k :: 0 < k < |s| ==> s[k] == s[1..][k - 1];
    }
  }

  /** A verifier is 43 to 128 unreserved characters. */
  lemma WellFormedExactly(verifier: string)
    ensures WellFormed(verifier) <==>
              43 <= |verifier| <= 128 && forall k :: 0 <= k < |verifier| ==> Unreserved(verifier[k])
  {
    UnreservedOnly(verifier);
  }

  // ---- what a log says ------------------------------------------------------------------------

  function ExpiryOf(e: Event): real
    requires e.Issue?
  {
    e.now + AUTH_CODE_TTL
  }

  predicate Issued(e: Event, code: string) { e.Issue? && e.code == Some(code) }

  /** A call after which a pending code is gone: a well-formed attempt to consume it, or an issue call,
      granted or refused, that reads the clock at or past the code's expiry. */
  predicate Ends(e: Event, code: string, expires: real) {
    match e
    case Issue(now, _, _, _) => expires <= now
    case Consume(_, attempt, _, verifier, _) => attempt == code && WellFormed(verifier)
  }

  /** The code issued by call `i` is still pending after the whole log. */
  ghost predicate Live(log: seq<Event>, code: string, i: int) {
    && 0 <= i < |log| && Issued(log[i], code)
    && forall j | i < j < |log| :: !Ends(log[j], code, ExpiryOf(log[i]))
  }

  /** No code is issued twice. */
  ghost predicate DistinctCodes(log: seq<Event>) {
    forall i, j, code | 0 <= i < j < |log| && Issued(log[i], code) :: !Issued(log[j], code)
  }

  /** What consuming now would do, read off the log alone. */
  ghost predicate Redeemable(log: seq<Event>, challengeOf: string -> string,
                             now: real, code: string, redirect: string, verifier: string) {
    && WellFormed(verifier)
    && exists i :: Live(log, code, i) && now <= ExpiryOf(log[i])
                   && log[i].redirect == redirect && log[i].challenge == challengeOf(verifier)
  }

  lemma LiveExtends(log: seq<Event>, e: Event, code: string, i: int)
    ensures 0 <= i < |log| ==>
              (Live(log + [e], code, i) <==> Live(log, code, i) && !Ends(e, code, ExpiryOf(log[i])))
    ensures i == |log| ==> (Live(log + [e], code, i) <==> Issued(e, code))
  {
    var longer := log + [e];
    if 0 <= i < |log| {
      assert longer[i] == log[i];
      assert forall j | i < j < |log| :: longer[j] == log[j];
      assert longer[|log|] == e;
    }
  }

  /** The store's map holds exactly the codes the log leaves pending, with what they were issued for. */
  ghost predicate Refines(codes: map<string, Pending>, log: seq<Event>) {
    && (forall code, i :: Live(log, code, i) ==>
        code in codes
        && codes[code] == Pending(log[i].redirect, log[i].challenge, ExpiryOf(log[i])))
    && (forall code | code in codes :: exists i :: Live(log, code, i))
  }

  function Unexpired(codes: map<string, Pending>, now: real): map<string, Pending> {
    map code | code in codes && codes[code].expires > now :: codes[code]
  }

  lemma IssueRefines(codes: map<string, Pending>, log: seq<Event>, e: Event)
    requires Refines(codes, log) && e.Issue?
    requires e.code.Some? ==> forall i | 0 <= i < |log| :: !Issued(log[i], e.code.value)
    ensures var kept := Unexpired(codes, e.now);
            Refines(if e.code.Some? then kept[e.code.value := Pending(e.redirect, e.challenge, ExpiryOf(e))]
                else kept, log + [e])
  {
    var kept := Unexpired(codes, e.now);
    var after := if e.code.Some? then kept[e.code.value := Pending(e.redirect, e.challenge, ExpiryOf(e))] else kept;
    forall code, i | Live(log + [e], code, i)
      ensures code in after && after[code] == Pending((log + [e])[i].redirect, (log + [e])[i].challenge,
              ExpiryOf((log + [e])[i]))
    {
      LiveExtends(log, e, code, i);
    }
    forall code | code in after ensures exists i :: Live(log + [e], code, i) {
      if e.code == Some(code) {
        LiveExtends(log, e, code, |log|);
      } else {
        var i :| Live(log, code, i);
        LiveExtends(log, e, code, i);
      }
    }
  }

  lemma ConsumeRefines(codes: map<string, Pending>, log: seq<Event>, e: Event)
    requires Refines(codes, log) && e.Consume?
    ensures Refines(if WellFormed(e.verifier) then codes - {e.attempt} else codes, log + [e])
  {
    var after := if WellFormed(e.verifier) then codes - {e.attempt} else codes;
    forall code, i | Live(log + [e], code, i)
      ensures code in after && after[code] == Pending((log + [e])[i].redirect, (log + [e])[i].challenge,
              ExpiryOf((log + [e])[i]))
    {
      LiveExtends(log, e, code, i);
    }
    forall code | code in after ensures exists i :: Live(log + [e], code, i) {
      var i :| Live(log, code, i);
      LiveExtends(log, e, code, i);
    }
  }

  /** The codes the log leaves pending and unexpired at a time. */
  ghost function PendingCodes(log: seq<Event>, now: real): set<string> {
    set i | 0 <= i < |log| && log[i].Issue? && log[i].code.Some? && Live(log, log[i].code.value, i)
        && ExpiryOf(log[i]) > now
      :: log[i].code.value
  }

  lemma PendingIsUnexpired(codes: map<string, Pending>, log: seq<Event>, now: real)
    requires Refines(codes, log)
    ensures PendingCodes(log, now) == Unexpired(codes, now).Keys
  {
    forall code | code in Unexpired(codes, now) ensures code in PendingCodes(log, now) {
      var i :| Live(log, code, i);
    }
  }

  /** A log the store can produce: no code twice, every issue call refused exactly at the cap, every
      consume call answered as the log before it demands. */
  ghost predicate StoreLog(log: seq<Event>, challengeOf: string -> string) {
    && DistinctCodes(log)
    && (forall k | 0 <= k < |log| && log[k].Issue? ::
          log[k].code.None? <==> |PendingCodes(log[..k], log[k].now)| == MAX_PENDING_CODES)
    && (forall k | 0 <= k < |log| && log[k].Consume? ::
          log[k].ok <==> Redeemable(log[..k], challengeOf, log[k].now, log[k].attempt, log[k].redirect,
              log[k].verifier))
  }

  lemma StoreLogExtends(log: seq<Event>, e: Event, challengeOf: string -> string)
    requires StoreLog(log, challengeOf)
    requires e.Issue? ==> (e.code.None? <==> |PendingCodes(log, e.now)| == MAX_PENDING_CODES)
    requires e.Issue? && e.code.Some? ==> forall i | 0 <= i < |log| :: !Issued(log[i], e.code.value)
    requires e.Consume? ==> (e.ok <==> Redeemable(log, challengeOf, e.now, e.attempt, e.redirect, e.verifier))
    ensures StoreLog(log + [e], challengeOf)
  {
    hide PendingCodes, Redeemable;
    var longer := log + [e];
    assert longer[..|log|] == log;
    assert forall k | 0 <= k < |log| :: longer[k] == log[k] && longer[..k] == log[..k];
  }

  // ---- the store -----------------------------------------------------------------------------------

  class PKCECodeStore {
    var codes: map<string, Pending>
    const challengeOf: string -> string
    ghost var log: seq<Event>

    /** The log is one the store can produce, the map is what it leaves pending, and the cap holds. */
    ghost predicate Valid()
      reads this
    {
      Refines(codes, log) && StoreLog(log, challengeOf) && |codes| <= MAX_PENDING_CODES
    }

    constructor (challengeOf: string -> string)
      ensures Valid() && log == [] && this.challengeOf == challengeOf
    {
      this.challengeOf := challengeOf;
      codes := map[];
      log := [];
      new;
      assert Refines(codes, log);
    }

    /** issue_code: drop the expired, then refuse exactly when the cap of unexpired codes is reached.
        `random` is the code secrets would make up. */
    method IssueCode(now: real, redirect: string, challenge: string, random: string) returns (code: Option<string>)
      requires Valid()
      requires forall i | 0 <= i < |log| :: !Issued(log[i], random)
      modifies this
      ensures Valid()
      ensures log == old(log) + [Issue(now, redirect, challenge, code)]
      ensures code == if |PendingCodes(old(log), now)| == 1000 then None else Some(random)
    {
      hide Refines, Issued, PendingCodes, StoreLog;
      UnexpiredIsSmaller(codes, now);
      PendingIsUnexpired(codes, log, now);
      codes := Unexpired(codes, now);
      assert |codes| == |codes.Keys|;
      if |codes| >= MAX_PENDING_CODES {
        code := None;
      } else {
        code := Some(random);
        codes := codes[random := Pending(redirect, challenge, now + AUTH_CODE_TTL)];
      }
      var e := Issue(now, redirect, challenge, code);
      IssueRefines(old(codes), log, e);
      StoreLogExtends(log, e, challengeOf);
      log := log + [e];
    }

    /** consume_code: a malformed verifier is turned away before the code is touched; any other attempt
        uses the code up. */
    method ConsumeCode(now: real, code: string, redirect: string, verifier: string) returns (ok: bool)
      requires Valid()
      modifies this
      ensures Valid()
      ensures log == old(log) + [Consume(now, code, redirect, verifier, ok)]
      ensures ok <==> Redeemable(old(log), challengeOf, now, code, redirect, verifier)
    {
      hide StoreLog, WellFormed;
      ok := false;
      if WellFormed(verifier) {
        if code in codes {
          var entry := codes[code];
          ok := entry.expires >= now && entry.redirect == redirect && challengeOf(verifier) == entry.challenge;
        }
        codes := codes - {code};
      }
      var e := Consume(now, code, redirect, verifier, ok);
      assert ok <==> Redeemable(log, challengeOf, now, code, redirect, verifier);
      ConsumeRefines(old(codes), log, e);
      StoreLogExtends(log, e, challengeOf);
      SubsetSize(codes.Keys, old(codes).Keys);
      assert |codes| == |codes.Keys| && |old(codes)| == |old(codes).Keys|;
      log := log + [e];
    }
  }

  lemma UnexpiredIsSmaller(codes: map<string, Pending>, now: real)
    ensures |Unexpired(codes, now)| <= |codes|
  {
    var kept := Unexpired(codes, now);
    assert kept.Keys <= codes.Keys;
    SubsetSize(kept.Keys, codes.Keys);
    assert |kept| == |kept.Keys| && |codes| == |codes.Keys|;
  }

  // ---- whole logs ------------------------------------------------------------------------------------

  /** At no time are more codes pending than the cap. */
  lemma NeverOverTheCap(codes: map<string, Pending>, log: seq<Event>, now: real)
    requires Refines(codes, log) && |codes| <= MAX_PENDING_CODES
    ensures |PendingCodes(log, now)| <= 1000
  {
    PendingIsUnexpired(codes, log, now);
    UnexpiredIsSmaller(codes, now);
    assert |Unexpired(codes, now)| == |Unexpired(codes, now).Keys|;
  }

  /** Once a code is redeemed, no issue of it is live again. */
  lemma SpentIsNotLive(log: seq<Event>, challengeOf: string -> string, a: nat, b: nat, j: int)
    requires StoreLog(log, challengeOf) && a < b <= |log|
    requires log[a].Consume? && log[a].ok
    ensures !Live(log[..b], log[a].attempt, j)
  {
    var code := log[a].attempt;
    var i :| Live(log[..a], code, i);
    assert log[..a][i] == log[i];
    if 0 <= j < b && Issued(log[j], code) {
      assert i == j;
      assert Ends(log[..b][a], code, ExpiryOf(log[j]));
    }
  }

  /** A code redeems at most once. */
  lemma RedeemsOnce(log: seq<Event>, challengeOf: string -> string, a: nat, b: nat)
    requires StoreLog(log, challengeOf) && a < b < |log|
    requires log[a].Consume? && log[b].Consume? && log[a].ok && log[b].ok
    ensures log[a].attempt != log[b].attempt
  {
    var j :| Live(log[..b], log[b].attempt, j);
    SpentIsNotLive(log, challengeOf, a, b, j);
  }

  /** A successful exchange is never past the expiry of the issue it redeems. */
  lemma NeverRedeemsExpired(log: seq<Event>, challengeOf: string -> string, k: nat, i: nat)
    requires StoreLog(log, challengeOf) && i < k < |log|
    requires log[k].Consume? && log[k].ok && Issued(log[i], log[k].attempt)
    ensures log[k].now <= log[i].now + 300.0
    ensures log[k].redirect == log[i].redirect && challengeOf(log[k].verifier) == log[i].challenge
  {
    var j :| Live(log[..k], log[k].attempt, j) && log[k].now <= ExpiryOf(log[..k][j])
             && log[..k][j].redirect == log[k].redirect && log[..k][j].challenge == challengeOf(log[k].verifier);
    assert log[..k][j] == log[j];
    assert i == j;
  }

  /** Whatever the clock does, a well-formed attempt succeeds exactly when it comes at most 300 seconds after the
      issue of its code, with the redirect and challenge of that issue, no earlier well-formed attempt named the
      code, and no issue call since read the clock at or past those 300 seconds. */
  lemma RedeemsWhenFirst(log: seq<Event>, challengeOf: string -> string, k: nat, i: nat)
    requires StoreLog(log, challengeOf) && i < k < |log|
    requires log[k].Consume? && WellFormed(log[k].verifier) && Issued(log[i], log[k].attempt)
    ensures log[k].ok <==>
              && log[k].now <= log[i].now + 300.0
              && log[i].redirect == log[k].redirect && log[i].challenge == challengeOf(log[k].verifier)
              && (forall j | i < j < k && log[j].Consume? && WellFormed(log[j].verifier) ::
                    log[j].attempt != log[k].attempt)
              && (forall j | i < j < k && log[j].Issue? :: log[j].now < log[i].now + 300.0)
  {
    hide WellFormed;
    var code, before := log[k].attempt, log[..k];
    assert forall j | 0 <= j < k :: before[j] == log[j];
    forall m | Live(before, code, m) ensures m == i {
      assert Issued(log[m], code);
    }
    if forall j | i < j < k :: !Ends(log[j], code, ExpiryOf(log[i])) {
      assert Live(before, code, i);
    } else {
      var j :| i < j < k && Ends(log[j], code, ExpiryOf(log[i]));
      assert Ends(before[j], code, ExpiryOf(before[i]));
    }
  }
}
