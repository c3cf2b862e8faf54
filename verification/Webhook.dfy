/** Registering and unregistering the ingress webhook of mcp_webhook.py, with any step able to fail: the
    views that stay bound for the life of the process, the live registration and its client sessions. */
module Webhook {
  import opened Wrappers

  datatype View =
    | ProtectedResource | AuthorizationServer | WellKnownResource | AsRfc8414 | OidcPrefixed | OidcSuffixed | AsSuffixed
    | Authorize | Token | Revoke
    | RegisterClient

  /** Views that are bound together, at most once per process. */
  datatype Bundle = Metadata | OAuth | Dcr

  function ViewsOf(b: Bundle): seq<View> {
    match b
    case Metadata => [ProtectedResource, AuthorizationServer, WellKnownResource, AsRfc8414, OidcPrefixed,
        OidcSuffixed, AsSuffixed]
    case OAuth => [Authorize, Token, Revoke]
    case Dcr => [RegisterClient]
  }

  datatype Mode = HaAuth | NoAuth | UnknownMode

  /** The hex text of the client registration key. */
  datatype KeyText = NoKey | CorruptKey | HexKey

  datatype Cfg = Cfg(webhookId: string, mode: Mode, session: nat, cimdSession: Option<nat>,
                     resourceServer: bool, autoApprove: bool, dcrKey: bool) {
    function Sessions(): set<nat> { Pair(session, cimdSession) }
    predicate HasSurface() { resourceServer || autoApprove || dcrKey }
  }

  /** What a step does: an awaited close may also be cancelled, which `except Exception` does not catch. */
  datatype Fault = Fine | Raises | Cancels

  /** The steps that may fail. Retiring the handler of a live registration is one of its own: nothing stands
      between its failure and the caller. */
  datatype Action =
    | MakeProvider | BindView(view: View) | OpenClient | CloseClient(session: nat) | AddHandler | RemoveHandler | Retire

  /** A step taken and what it did. */
  datatype Call = Call(action: Action, fault: Fault)

  /** Failures by what they leave behind: a session open (of its close, or of the retiring that comes before
      it), a bundle partly bound (of any view but the first), or a key without its provider. */
  datatype Kind = Any | Losing | Stranding | Providing

  predicate Is(kind: Kind, c: Call) {
    && c.fault != Fine
    && match kind
       case Any => true
       case Losing => c.action.CloseClient? || c.action.Retire?
       case Stranding => c.action.BindView? && !IsFirst(c.action.view)
       case Providing => c.action.MakeProvider?
  }

  /** The failures of a kind in a log. A log only grows, so a count that stays the same tells that a call met
      no failure of the kind. */
  function Count(log: seq<Call>, kind: Kind): nat {
    if log == [] then 0 else Count(log[..|log| - 1], kind) + if Is(kind, log[|log| - 1]) then 1 else 0
  }

  lemma CountStep(log: seq<Call>, c: Call)
    ensures forall kind :: Count(log + [c], kind) == Count(log, kind) + if Is(kind, c) then 1 else 0
  {
    assert (log + [c])[..|log|] == log;
  }

  /** A log without failures. */
  lemma {:induction false} AllFine(log: seq<Call>, k: int)
    requires 0 <= k < |log| && Count(log, Any) == 0
    ensures log[k].fault == Fine
  {
    if k < |log| - 1 { AllFine(log[..|log| - 1], k); }
  }

  predicate IsFirst(v: View) { v == ProtectedResource || v == Authorize || v == RegisterClient }

  function Prefix(views: seq<View>, n: nat): set<View>
    requires n <= |views|
  {
    set v | v in views[..n]
  }

  /** A set flag means the whole bundle is bound; without it a bundle is bound from its first view on. */
  ghost predicate InOrder(b: Bundle, bound: set<View>, flags: set<Bundle>) {
    && (b in flags ==> Prefix(ViewsOf(b), |ViewsOf(b)|) <= bound)
    && (forall v :: v in bound && v in ViewsOf(b) ==> ViewsOf(b)[0] in bound)
  }

  class Hass {
    var bound: set<View>
    var flags: set<Bundle>
    var webhooks: set<string>
    var openSessions: set<nat>
    var nextSession: nat
    var live: Option<Cfg>
    /** Every step taken so far. */
    var log: seq<Call>
    const faults: nat -> Fault

    constructor (faults: nat -> Fault)
      ensures Valid() && live == None && openSessions == {} && log == [] && this.faults == faults && Healthy()
      ensures bound == {} && flags == {}
    {
      this.faults := faults;
      bound, flags, webhooks, openSessions, nextSession, live, log := {}, {}, {}, {}, 0, None, [];
    }

    function LiveSessions(): set<nat>
      reads this
    {
      if live.Some? then live.value.Sessions() else {}
    }

    /** Open sessions that no live registration holds. */
    function Strays(): set<nat>
      reads this
    {
      openSessions - LiveSessions()
    }

    ghost predicate BundleOk(b: Bundle)
      reads this`bound, this`flags
    {
      InOrder(b, bound, flags)
    }

    ghost predicate InOrderAll()
      reads this`bound, this`flags
    {
      BundleOk(Metadata) && BundleOk(OAuth) && BundleOk(Dcr)
    }

    /** Partly bound, and so never to be bound: a view cannot be bound twice. */
    predicate Stuck(b: Bundle)
      reads this`bound, this`flags
    {
      b !in flags && ViewsOf(b)[0] in bound
    }

    predicate Healthy()
      reads this`bound, this`flags
    {
      !Stuck(Metadata) && !Stuck(OAuth) && !Stuck(Dcr)
    }

    predicate AllFlags()
      reads this`flags
    {
      Metadata in flags && OAuth in flags && Dcr in flags
    }

    ghost predicate Valid()
      reads this
    {
      && InOrderAll()
      && (forall s :: s in openSessions ==> s < nextSession)
      && (live.Some? ==> CfgOk(live.value))
    }

    /** A live ha_auth registration has its resource server; the two providers never coexist; nothing is
        offered before every view is bound; the sessions a registration holds are open. */
    ghost predicate CfgOk(c: Cfg)
      reads this
    {
      && (c.HasSurface() ==> AllFlags())
      && (c.resourceServer <==> c.mode == HaAuth) && (c.autoApprove ==> c.mode == NoAuth) && c.mode != UnknownMode
      && (c.cimdSession.Some? <==> c.mode == HaAuth) && c.cimdSession != Some(c.session)
      && c.Sessions() <= openSessions
    }

    method Step(action: Action) returns (fault: Fault)
      modifies this`log
      ensures fault == faults(|old(log)|)
      ensures log == old(log) + [Call(action, fault)]
      ensures forall kind :: Count(log, kind) == Count(old(log), kind) + if Is(kind, Call(action, fault)) then 1 else 0
    {
      fault := faults(|log|);
      CountStep(log, Call(action, fault));
      log := log + [Call(action, fault)];
    }

    /** The three bundles together are all the views there are. */
    lemma EveryView()
      ensures InOrderAll() && AllFlags() ==> forall v: View :: v in bound
    {
      if InOrderAll() && AllFlags() {
        forall v: View ensures v in bound {
          var b := match v
            case Authorize | Token | Revoke => OAuth
            case RegisterClient => Dcr
            case _ => Metadata;
          assert v in ViewsOf(b) && ViewsOf(b)[..|ViewsOf(b)|] == ViewsOf(b) && BundleOk(b);
        }
      }
    }

    // ---- views --------------------------------------------------------------------------------------------------

    method RegisterView(v: View) returns (ok: bool)
      modifies this`log, this`bound
      ensures bound == if ok then old(bound) + {v} else old(bound)
      ensures log == old(log) + [Call(BindView(v), faults(|old(log)|))]
      ensures ok <==> faults(|old(log)|) == Fine && v !in old(bound)
      ensures forall kind :: Count(log, kind) ==
                Count(old(log), kind) + if Is(kind, Call(BindView(v), faults(|old(log)|))) then 1 else 0
    {
      var fault := Step(BindView(v));
      ok := fault == Fine && v !in bound;
      if ok { bound := bound + {v}; }
    }

    /** Bind a bundle once: the flag is set only after its last view. The bundle is stuck from then on exactly
        when a view other than its first fails. */
    method Bind(b: Bundle) returns (ok: bool)
      requires InOrderAll()
      modifies this`log, this`bound, this`flags
      ensures InOrderAll() && old(log) <= log
      ensures flags == if ok then old(flags) + {b} else old(flags)
      ensures forall c :: c != b ==> Stuck(c) == old(Stuck(c))
      ensures old(Stuck(b)) ==> !ok && Stuck(b)
      ensures !old(Stuck(b)) ==> (ok <==> Count(log, Any) == Count(old(log), Any))
      ensures !old(Stuck(b)) ==> (Stuck(b) <==> Count(log, Stranding) != Count(old(log), Stranding))
      ensures old(Stuck(b)) ==> Count(log, Stranding) == Count(old(log), Stranding)
      ensures Count(log, Losing) == Count(old(log), Losing) && Count(log, Providing) == Count(old(log), Providing)
      ensures ok && b !in old(flags) ==> |log| == |old(log)| + |ViewsOf(b)|
      ensures !ok && !old(Stuck(b)) ==> |log| > |old(log)| && faults(|log| - 1) != Fine
      ensures !ok && |log| > |old(log)| + 1 ==> Stuck(b)
      ensures forall k :: |old(log)| <= k < |log| ==> log[k].fault == faults(k)
    {
      hide ViewsOf, Prefix, InOrder, Count;
      if b in flags { return true; }
      var views := ViewsOf(b);
      var i := 0;
      Bundles(b);
      NoneBound(b, bound, flags);
      while i < |views|
        invariant 0 <= i <= |views| && |log| == |old(log)| + i && old(log) <= log
        invariant flags == old(flags) && bound == old(bound) + Prefix(views, i)
        invariant old(Stuck(b)) ==> i == 0
        invariant forall k :: |old(log)| <= k < |log| ==> log[k].fault == faults(k)
        invariant forall kind :: Count(log, kind) == Count(old(log), kind)
        invariant forall c :: c != b ==> (ViewsOf(c)[0] in bound <==> ViewsOf(c)[0] in old(bound))
        invariant InOrderAll()
      {
        OneMore(b, i);
        forall c
          ensures BundleOk(c) ==> InOrder(c, bound + {views[i]}, flags)
          ensures BundleOk(c) && c != b ==> (ViewsOf(c)[0] in bound <==> ViewsOf(c)[0] in bound + {views[i]})
        {
          if BundleOk(c) { StaysInOrder(b, i, c, bound, flags); }
        }
        OneMore(b, i);
        assert views[i] in views;
        var bind := RegisterView(views[i]);
        if !bind { return false; }
        i := i + 1;
      }
      assert views[..|views|] == views;
      AllBound(b, bound, flags);
      flags := flags + {b};
      ok := true;
    }

    /** The three bundles, one after the other. */
    method BindViews() returns (ok: bool)
      requires InOrderAll()
      modifies this`log, this`bound, this`flags
      ensures InOrderAll() && old(flags) <= flags && old(log) <= log
      ensures ok ==> AllFlags() && forall v: View :: v in bound
      ensures !old(Healthy()) ==> !ok && !Healthy()
      ensures old(Healthy()) ==> (ok <==> Count(log, Any) == Count(old(log), Any))
      ensures old(Healthy()) ==> (Healthy() <==> Count(log, Stranding) == Count(old(log), Stranding))
      ensures Count(log, Losing) == Count(old(log), Losing) && Count(log, Providing) == Count(old(log), Providing)
    {
      hide InOrder, ViewsOf, Count, Hass.BundleOk;
      CountsGrow(log, log);
      ok := Bind(Metadata);
      label first:
      CountsGrow(old(log), log);
      if ok {
        ok := Bind(OAuth);
        CountsGrow(old@first(log), log);
      }
      label second:
      if ok {
        ok := Bind(Dcr);
        CountsGrow(old@second(log), log);
      }
      EveryView();
    }

    /** _bind_ha_auth_surface: any failure fails the registration. */
    method BindHaAuth(cfg: Cfg, key: KeyText) returns (ok: bool, out: Cfg)
      requires InOrderAll()
      modifies this`log, this`bound, this`flags
      ensures InOrderAll() && old(flags) <= flags && old(log) <= log
      ensures ok ==> forall v: View :: v in bound
      ensures ok ==> AllFlags() && key != CorruptKey
                     && out == cfg.(resourceServer := true, dcrKey := cfg.dcrKey || key == HexKey)
      ensures !old(Healthy()) ==> !ok && !Healthy()
      ensures old(Healthy()) ==> (ok <==> key != CorruptKey && Count(log, Any) == Count(old(log), Any))
      ensures old(Healthy()) ==> (Healthy() <==> Count(log, Stranding) == Count(old(log), Stranding))
      ensures Count(log, Losing) == Count(old(log), Losing)
    {
      hide InOrder, ViewsOf, Hass.BundleOk, Hass.Stuck, Count;
      out := cfg;
      var provider := Step(MakeProvider);
      if provider != Fine { return false, cfg; }
      ok := BindViews();
      if !ok { return; }
      out := cfg.(resourceServer := true);
      if key == CorruptKey { return false, out; }
      if key == HexKey { out := out.(dcrKey := true); }
    }

    /** _bind_none_surface: a failure leaves a registration without a surface, or with the key alone when
        the provider itself cannot be made. */
    method BindNoAuth(cfg: Cfg, key: KeyText) returns (out: Cfg)
      requires InOrderAll()
      modifies this`log, this`bound, this`flags
      ensures InOrderAll() && old(flags) <= flags && old(log) <= log
      ensures out == cfg.(autoApprove := out.autoApprove, dcrKey := out.dcrKey)
      ensures !cfg.HasSurface() && out.HasSurface() ==> AllFlags() && key != CorruptKey && forall v: View :: v in bound
      ensures out.autoApprove && !cfg.autoApprove ==> (out.dcrKey <==> cfg.dcrKey || key == HexKey)
      ensures !cfg.HasSurface() ==>
                (out.dcrKey && !out.autoApprove <==>
                 key == HexKey && Count(log, Providing) != Count(old(log), Providing))
      ensures !old(Healthy()) ==> out == cfg && !Healthy()
      ensures old(Healthy()) && !cfg.HasSurface() ==>
                (out.autoApprove <==> key != CorruptKey && Count(log, Any) == Count(old(log), Any))
      ensures old(Healthy()) ==> (Healthy() <==> Count(log, Stranding) == Count(old(log), Stranding))
      ensures Count(log, Losing) == Count(old(log), Losing)
    {
      hide InOrder, ViewsOf, Hass.BundleOk, Hass.Stuck, Count;
      out := cfg;
      var ok := BindViews();
      if !ok || key == CorruptKey { return; }
      if key == HexKey { out := out.(dcrKey := true); }
      var provider := Step(MakeProvider);
      if provider == Fine { out := out.(autoApprove := true); }
    }

    /** The surface of the mode: fail-closed for ha_auth, fail-open otherwise. */
    method BindSurface(cfg: Cfg, key: KeyText) returns (ok: bool, out: Cfg)
      requires InOrderAll() && cfg.mode != UnknownMode && !cfg.HasSurface()
      modifies this`log, this`bound, this`flags
      ensures InOrderAll() && old(flags) <= flags && old(log) <= log
      ensures out == cfg.(resourceServer := out.resourceServer, autoApprove := out.autoApprove, dcrKey := out.dcrKey)
      ensures ok && out.HasSurface() ==> AllFlags()
      ensures ok ==> (out.resourceServer <==> cfg.mode == HaAuth) && (out.autoApprove ==> cfg.mode == NoAuth)
      ensures ok && (out.resourceServer || out.autoApprove) ==> (out.dcrKey <==> key == HexKey)
      ensures cfg.mode == NoAuth ==>
                ok && (out.dcrKey && !out.autoApprove <==>
                       key == HexKey && Count(log, Providing) != Count(old(log), Providing))
      ensures !old(Healthy()) ==> !Healthy() && (ok ==> cfg.mode == NoAuth && !out.HasSurface())
      ensures old(Healthy()) && cfg.mode == HaAuth ==>
                (ok <==> key != CorruptKey && Count(log, Any) == Count(old(log), Any))
      ensures old(Healthy()) && cfg.mode == NoAuth ==>
                (out.autoApprove <==> key != CorruptKey && Count(log, Any) == Count(old(log), Any))
      ensures old(Healthy()) ==> (Healthy() <==> Count(log, Stranding) == Count(old(log), Stranding))
      ensures Count(log, Losing) == Count(old(log), Losing)
    {
      hide InOrder, ViewsOf, Hass.BundleOk, Hass.Stuck, Hass.Healthy, Hass.AllFlags, Count;
      if cfg.mode == HaAuth {
        ok, out := BindHaAuth(cfg, key);
        if !ok { out := cfg; }
      } else {
        out := BindNoAuth(cfg, key);
        ok := true;
      }
    }

    // ---- sessions and handlers --------------------------------------------------------------------------------

    method OpenSession() returns (s: Option<nat>)
      modifies this`log, this`openSessions, this`nextSession
      ensures old(log) <= log
      ensures s.Some? ==>
                && s.value == old(nextSession) && nextSession == old(nextSession) + 1
                && openSessions == old(openSessions) + {s.value}
      ensures s.None? ==> openSessions == old(openSessions) && nextSession == old(nextSession)
      ensures s.Some? <==> Count(log, Any) == Count(old(log), Any)
      ensures forall kind :: kind != Any ==> Count(log, kind) == Count(old(log), kind)
    {
      hide Count;
      var fault := Step(OpenClient);
      if fault != Fine { return None; }
      s := Some(nextSession);
      openSessions, nextSession := openSessions + {nextSession}, nextSession + 1;
    }

    /** A close that fails leaves its session open, and is a losing failure. */
    method CloseSession(s: nat) returns (fault: Fault)
      modifies this`log, this`openSessions
      ensures old(log) <= log
      ensures openSessions == if fault == Fine then old(openSessions) - {s} else old(openSessions)
      ensures fault == Fine <==> Count(log, Any) == Count(old(log), Any)
      ensures Count(log, Losing) == Count(old(log), Losing) + if fault == Fine then 0 else 1
      ensures forall kind :: kind != Any && kind != Losing ==> Count(log, kind) == Count(old(log), kind)
    {
      hide Count;
      fault := Step(CloseClient(s));
      if fault == Fine { openSessions := openSessions - {s}; }
    }

    method RemoveHook(id: string, action: Action) returns (ok: bool)
      requires action == RemoveHandler || action == Retire
      modifies this`log, this`webhooks
      ensures old(log) <= log
      ensures webhooks == if ok then old(webhooks) - {id} else old(webhooks)
      ensures ok <==> Count(log, Any) == Count(old(log), Any)
      ensures Count(log, Losing) == Count(old(log), Losing) + if ok || action == RemoveHandler then 0 else 1
      ensures forall kind :: kind != Any && kind != Losing ==> Count(log, kind) == Count(old(log), kind)
    {
      hide Count;
      var fault := Step(action);
      ok := fault == Fine;
      if ok { webhooks := webhooks - {id}; }
    }

    method AddHook(id: string) returns (ok: bool)
      modifies this`log, this`webhooks
      ensures old(log) <= log
      ensures webhooks == if ok then old(webhooks) + {id} else old(webhooks)
      ensures ok <==> Count(log, Any) == Count(old(log), Any) && id !in old(webhooks)
      ensures forall kind :: kind != Any ==> Count(log, kind) == Count(old(log), kind)
    {
      hide Count;
      var fault := Step(AddHandler);
      ok := fault == Fine && id !in webhooks;
      if ok { webhooks := webhooks + {id}; }
    }

    /** The handler of a failed registration: both sessions are closed unless a close fails or is cancelled.
        That the webhook cannot be removed stops nothing. */
    method Abandon(id: string, session: nat, cimd: Option<nat>) returns (result: Fault)
      requires Pair(session, cimd) <= openSessions && cimd != Some(session)
      modifies this`log, this`webhooks, this`openSessions
      ensures result != Fine && old(log) <= log
      ensures old(openSessions) - Pair(session, cimd) <= openSessions <= old(openSessions)
      ensures openSessions == old(openSessions) - Pair(session, cimd) <==> Count(log, Losing) == Count(old(log), Losing)
      ensures Count(log, Losing) >= Count(old(log), Losing)
      ensures Count(log, Any) == Count(old(log), Any) ==> result == Raises && webhooks == old(webhooks) - {id}
      ensures forall kind :: kind != Any && kind != Losing ==> Count(log, kind) == Count(old(log), kind)
    {
      hide Count;
      var ok := RemoveHook(id, RemoveHandler);
      label removed:
      CountsGrow(old(log), log);
      var closed := CloseSession(session);
      label closing:
      CountsGrow(old@removed(log), log);
      assert closed != Fine ==> session in openSessions;
      if closed == Cancels { return Cancels; }
      if cimd.Some? {
        closed := CloseSession(cimd.value);
        CountsGrow(old@closing(log), log);
        assert closed != Fine ==> cimd.value in openSessions;
        if closed == Cancels { return Cancels; }
      }
      result := Raises;
    }

    // ---- registering and unregistering ------------------------------------------------------------------------

    /** The relay session and, for ha_auth, the separate pool for client documents: both, or none unless the
        first cannot be closed again. */
    method OpenSessions(mode: Mode) returns (result: Fault, session: nat, cimd: Option<nat>)
      requires forall s :: s in openSessions ==> s < nextSession
      modifies this`log, this`openSessions, this`nextSession
      ensures old(log) <= log && forall s :: s in openSessions ==> s < nextSession
      ensures result == Fine ==> cimd != Some(session) && (cimd.Some? <==> mode == HaAuth)
      ensures result == Fine ==> openSessions == old(openSessions) + Pair(session, cimd)
      ensures result == Fine ==> Pair(session, cimd) !! old(openSessions)
      ensures result != Fine ==> old(openSessions) <= openSessions
      ensures result == Fine ==> Count(log, Losing) == Count(old(log), Losing)
      ensures result != Fine ==> (openSessions == old(openSessions) <==> Count(log, Losing) == Count(old(log), Losing))
      ensures result == Fine <==> Count(log, Any) == Count(old(log), Any)
      ensures Count(log, Losing) >= Count(old(log), Losing)
      ensures forall kind :: kind != Any && kind != Losing ==> Count(log, kind) == Count(old(log), kind)
    {
      hide Count;
      session, cimd := 0, None;
      var first := OpenSession();
      label one:
      CountsGrow(old(log), log);
      if first.None? { return Raises, 0, None; }
      session := first.value;
      assert session !in old(openSessions);
      if mode == HaAuth {
        cimd := OpenSession();
        label two:
        CountsGrow(old@one(log), log);
        if cimd.None? {
          var closed := CloseSession(session);
          CountsGrow(old@two(log), log);
          assert closed != Fine ==> session in openSessions;
          return if closed == Fine then Raises else closed, session, None;
        }
      }
      result := Fine;
    }

    /** From the open sessions on: the handler and the surface, then the registration goes live; or all that was
        set up is taken down. */
    method Attach(id: string, mode: Mode, key: KeyText, session: nat, cimd: Option<nat>) returns (result: Fault)
      requires Valid() && mode != UnknownMode && Pair(session, cimd) <= openSessions && cimd != Some(session)
      requires (cimd.Some? <==> mode == HaAuth) && Pair(session, cimd) !! LiveSessions() && id !in webhooks
      modifies this`log, this`bound, this`flags, this`webhooks, this`openSessions, this`live
      ensures Valid() && old(log) <= log
      ensures result != Fine ==> live == old(live)
      ensures result != Fine ==> old(openSessions) - Pair(session, cimd) <= openSessions <= old(openSessions)
      ensures result != Fine ==>
                (openSessions == old(openSessions) - Pair(session, cimd) <==>
                 Count(log, Losing) == Count(old(log), Losing))
      ensures result == Fine ==> live.Some? && live.value.webhookId == id && live.value.mode == mode
      ensures result == Fine ==> LiveSessions() == Pair(session, cimd) && openSessions == old(openSessions)
      ensures result == Fine ==> webhooks == old(webhooks) + {id} && Count(log, Losing) == Count(old(log), Losing)
      ensures result == Fine && (live.value.resourceServer || live.value.autoApprove) ==>
                (live.value.dcrKey <==> key == HexKey)
      ensures result == Fine && mode == NoAuth ==>
                (live.value.dcrKey && !live.value.autoApprove <==>
                 key == HexKey && Count(log, Providing) != Count(old(log), Providing))
      ensures !old(Healthy()) ==> !Healthy() && (result == Fine ==> mode == NoAuth && !live.value.HasSurface())
      ensures old(Healthy()) ==> (Healthy() <==> Count(log, Stranding) == Count(old(log), Stranding))
      ensures old(Healthy()) && Count(log, Any) == Count(old(log), Any) ==>
                && (result == Fine <==> !(mode == HaAuth && key == CorruptKey))
                && (result == Fine && mode == NoAuth && key != CorruptKey ==> live.value.autoApprove)
                && (result != Fine ==> webhooks == old(webhooks) - {id})
    {
      hide InOrder, ViewsOf, Prefix, Hass.Stuck, Hass.BundleOk, Hass.Healthy, Count;
      var cfg := Cfg(id, mode, session, cimd, false, false, false);
      var ok := AddHook(id);
      label added:
      CountsGrow(old(log), log);
      if ok {
        ok, cfg := BindSurface(cfg, key);
        CountsGrow(old@added(log), log);
      }
      label surfaced:
      if !ok {
        result := Abandon(id, session, cimd);
        CountsGrow(old@surfaced(log), log);
        return;
      }
      live := Some(cfg);
      result := Fine;
    }

    /** async_register_webhook. Fine when it returns, otherwise what it raises. A failed registration leaves a
        session open exactly when closing one failed or was cancelled. */
    method Register(id: string, mode: Mode, key: KeyText) returns (result: Fault)
      requires Valid()
      modifies this
      ensures Valid() && old(log) <= log
      ensures result != Fine ==> live == old(live)
      ensures result != Fine ==> old(Strays()) <= Strays()
      ensures result != Fine ==> (Strays() == old(Strays()) <==> Count(log, Losing) == Count(old(log), Losing))
      ensures result == Fine ==> live.Some? && live.value.webhookId == id && live.value.mode == mode
      ensures result == Fine && live.value.HasSurface() ==> forall v: View :: v in bound
      ensures result == Fine ==> webhooks == old(webhooks) + {id} && Count(log, Losing) == Count(old(log), Losing)
      ensures result == Fine ==> Strays() == old(Strays()) + old(LiveSessions())
      ensures result == Fine && (live.value.resourceServer || live.value.autoApprove) ==>
                (live.value.dcrKey <==> key == HexKey)
      ensures result == Fine && mode == NoAuth ==>
                (live.value.dcrKey && !live.value.autoApprove <==>
                 key == HexKey && Count(log, Providing) != Count(old(log), Providing))
      ensures !old(Healthy()) ==> !Healthy() && (result == Fine ==> mode == NoAuth && !live.value.HasSurface())
      ensures old(Healthy()) ==> (Healthy() <==> Count(log, Stranding) == Count(old(log), Stranding))
      ensures old(Healthy()) && Count(log, Any) == Count(old(log), Any) ==>
                && (result == Fine <==> mode != UnknownMode && !(mode == HaAuth && key == CorruptKey))
                && (result == Fine && mode == NoAuth && key != CorruptKey ==> live.value.autoApprove)
                && (result != Fine && mode != UnknownMode ==> webhooks == old(webhooks) - {id})
    {
      hide InOrder, ViewsOf, Prefix, Hass.Stuck, Hass.BundleOk, Hass.Healthy, Count;
      CountsGrow(log, log);
      if mode == UnknownMode { return Raises; }
      var cleared := RemoveHook(id, RemoveHandler);
      label cleared:
      CountsGrow(old(log), log);
      if !cleared { return Raises; }
      var session, cimd;
      result, session, cimd := OpenSessions(mode);
      label connected:
      CountsGrow(old@cleared(log), log);
      if result != Fine {
        LeftOver(old(openSessions), LiveSessions(), openSessions);
        return;
      }
      result := Attach(id, mode, key, session, cimd);
      CountsGrow(old@connected(log), log);
      if result != Fine { LeftOver(old(openSessions), LiveSessions(), openSessions); }
      EveryView();
    }

    /** async_unregister_webhook: the registration is gone whatever happens; its sessions are all closed
        exactly when the call returns normally, which is when neither the retiring nor a close fails. */
    method Unregister() returns (result: Fault)
      requires Valid()
      modifies this`log, this`live, this`webhooks, this`openSessions
      ensures Valid() && live == None && old(log) <= log
      ensures old(Strays()) <= Strays()
      ensures result == Fine <==> Strays() == old(Strays())
      ensures result == Fine <==> Count(log, Losing) == Count(old(log), Losing)
      ensures Healthy() == old(Healthy())
      ensures result == Fine && old(live).Some? && old(live).value.webhookId != "" ==>
                webhooks == old(webhooks) - {old(live).value.webhookId}
      ensures forall kind :: kind != Any && kind != Losing ==> Count(log, kind) == Count(old(log), kind)
    {
      hide InOrder, ViewsOf, Prefix, Hass.Stuck, Count;
      result := Fine;
      CountsGrow(log, log);
      if live.None? { return Fine; }
      var cfg := live.value;
      live := None;
      if cfg.webhookId != "" {
        var ok := RemoveHook(cfg.webhookId, Retire);
        CountsGrow(old(log), log);
        if !ok {
          assert cfg.session in Strays() && cfg.session !in old(Strays());
          return Raises;
        }
      }
      label retired:
      result := CloseSession(cfg.session);
      CountsGrow(old@retired(log), log);
      assert result != Fine ==> cfg.session in Strays() && cfg.session !in old(Strays());
      if result != Fine { return; }
      label relayClosed:
      if cfg.cimdSession.Some? {
        result := CloseSession(cfg.cimdSession.value);
        CountsGrow(old@relayClosed(log), log);
        assert result != Fine ==> cfg.cimdSession.value in Strays() && cfg.cimdSession.value !in old(Strays());
      }
    }

    /** Any run of registrations and unregistrations, whatever fails in it. When every registration follows
        an unregistration, the open sessions are exactly those of the live registration if and only if no
        close and no retiring failed in the run. */
    method Run(ops: seq<Op>)
      requires Valid() && live == None && openSessions == {}
      modifies this
      ensures Valid() && old(log) <= log
      ensures live.Some? && live.value.HasSurface() ==> forall v: View :: v in bound
      ensures (forall k :: 0 < k < |ops| && ops[k].Up? ==> ops[k - 1].Down?) ==>
                (openSessions == LiveSessions() <==> Count(log, Losing) == Count(old(log), Losing))
      ensures old(Healthy()) ==> (Healthy() <==> Count(log, Stranding) == Count(old(log), Stranding))
      ensures !old(Healthy()) && live.Some? ==> !live.value.HasSurface()
    {
      hide InOrder, ViewsOf, Prefix, Hass.Stuck, Hass.BundleOk, Hass.Healthy, Count;
      for i := 0 to |ops|
        invariant Valid() && old(log) <= log
        invariant i == 0 || ops[i - 1].Down? ==> live == None
        invariant Count(log, Losing) >= Count(old(log), Losing) && Count(log, Stranding) >= Count(old(log), Stranding)
        invariant (forall k :: 0 < k < i && ops[k].Up? ==> ops[k - 1].Down?) ==>
                    (Strays() == {} <==> Count(log, Losing) == Count(old(log), Losing))
        invariant LiveSessions() <= openSessions
        invariant old(Healthy()) ==> (Healthy() <==> Count(log, Stranding) == Count(old(log), Stranding))
        invariant !old(Healthy()) ==> !Healthy() && (live.Some? ==> !live.value.HasSurface())
      {
        ghost var before := log;
        match ops[i]
        case Up(id, mode, key) =>
          var result := Register(id, mode, key);
          CountsGrow(before, log);
        case Down =>
          var result := Unregister();
          CountsGrow(before, log);
      }
      assert openSessions == Strays() + LiveSessions();
      EveryView();
    }
  }

  /** A process in which one step fails, the binding of the second view of the first bundle:
      it is stuck from then on, and no ha_auth registration succeeds in it. */
  method StuckRun() returns (hass: Hass, result: Fault)
    ensures fresh(hass) && hass.Valid() && !hass.Healthy() && result != Fine
    ensures forall n :: n != 1 ==> hass.faults(n) == Fine
  {
    hass := new Hass(n => if n == 1 then Raises else Fine);
    var ok := hass.Bind(Metadata);
    assert |ViewsOf(Metadata)| == 7 && Count([], Any) == 0;
    if ok { AllFine(hass.log, 1); }
    result := hass.Register("webhook", HaAuth, HexKey);
  }

  /** Counts never fall as the log grows. */
  lemma {:induction false} CountsGrow(a: seq<Call>, b: seq<Call>)
    requires a <= b
    ensures forall kind :: Count(a, kind) <= Count(b, kind)
    decreases |b|
  {
    if a != b {
      assert a <= b[..|b| - 1];
      CountsGrow(a, b[..|b| - 1]);
    }
  }

  datatype Op = Up(id: string, mode: Mode, key: KeyText) | Down

  function Pair(session: nat, cimd: Option<nat>): set<nat> { {session} + if cimd.Some? then {cimd.value} else {} }

  /** What a call left open beyond what was open is stray, and all that is newly stray. */
  lemma LeftOver(before: set<nat>, live: set<nat>, after: set<nat>)
    requires live <= before <= after
    ensures after - live == before - live <==> after == before
  {
    if after != before {
      var s :| s in after && s !in before;
      assert s in after - live && s !in before - live;
    }
  }

  lemma OneMore(b: Bundle, i: int)
    requires 0 <= i < |ViewsOf(b)|
    ensures Prefix(ViewsOf(b), i + 1) == Prefix(ViewsOf(b), i) + {ViewsOf(b)[i]}
    ensures i > 0 ==> ViewsOf(b)[0] in Prefix(ViewsOf(b), i)
    ensures forall v :: v in Prefix(ViewsOf(b), i) ==> v in ViewsOf(b)
    ensures ViewsOf(b)[i] !in Prefix(ViewsOf(b), i)
    ensures IsFirst(ViewsOf(b)[i]) <==> i == 0
  {
    assert ViewsOf(b)[..i + 1] == ViewsOf(b)[..i] + [ViewsOf(b)[i]];
  }

  lemma NoneBound(b: Bundle, bound: set<View>, flags: set<Bundle>)
    requires InOrder(b, bound, flags)
    ensures ViewsOf(b)[0] !in bound ==> forall v :: v in ViewsOf(b) ==> v !in bound
  {
  }

  lemma AllBound(b: Bundle, bound: set<View>, flags: set<Bundle>)
    requires Prefix(ViewsOf(b), |ViewsOf(b)|) <= bound
    ensures forall c :: InOrder(c, bound, flags) ==> InOrder(c, bound, flags + {b})
  {
  }

  /** One more view of a bundle, in order, leaves every bundle in order. */
  lemma StaysInOrder(b: Bundle, i: int, c: Bundle, bound: set<View>, flags: set<Bundle>)
    requires 0 <= i < |ViewsOf(b)| && InOrder(c, bound, flags) && Prefix(ViewsOf(b), i) <= bound
    ensures InOrder(c, bound + {ViewsOf(b)[i]}, flags)
    ensures c != b ==> (ViewsOf(c)[0] in bound <==> ViewsOf(c)[0] in bound + {ViewsOf(b)[i]})
  {
    Bundles(b);
    OneMore(b, i);
    assert ViewsOf(b)[i] in ViewsOf(b) && ViewsOf(c)[0] in ViewsOf(c);
  }

  /** No view belongs to two bundles. */
  lemma Bundles(b: Bundle)
    ensures forall c, v :: c != b && v in ViewsOf(c) ==> v !in ViewsOf(b)
    ensures forall c :: ViewsOf(c) != []
    ensures Prefix(ViewsOf(b), 0) == {}
  {
  }
}
