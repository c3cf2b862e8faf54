/** The part of Python's urllib.parse the OAuth code reads, and the origin printer and
    normalizer of oauth_dcr.py built on it. Text is ASCII: the Unicode checks of urlsplit are
    not part of this model. */
module Urls {
  import opened Wrappers
  import opened Text

  datatype Url = Url(scheme: string, netloc: string, path: string, params: string, query: string, fragment: string)

  datatype Port = NoPort | Number(n: nat) | BadPort

  datatype Origin = Origin(scheme: string, host: string, port: nat)

  /** What normalized_origin does: raise ValueError, answer None, or name an origin. */
  datatype Normalized = Raised | Hostless | At(origin: Origin)

  // ---- text of a URL ------------------------------------------------------------------

  /** lstrip of the C0 controls and space. */
  function StripLead(s: string): string {
    if s != "" && s[0] <= ' ' then StripLead(s[1..]) else s
  }

  predicate Unsafe(c: char) { c == '\t' || c == '\r' || c == '\n' }

  function DropUnsafe(s: string): string {
    if s == "" then ""
    else DropUnsafe(s[..|s| - 1]) + if Unsafe(s[|s| - 1]) then "" else [s[|s| - 1]]
  }

  predicate IsAlpha(c: char) { 'a' <= c <= 'z' || 'A' <= c <= 'Z' }

  predicate SchemeChar(c: char) { IsAlpha(c) || IsDigit(c) || c == '+' || c == '-' || c == '.' }

  predicate AllSchemeChars(s: string) {
    s == "" || (SchemeChar(s[|s| - 1]) && AllSchemeChars(s[..|s| - 1]))
  }

  /** The scheme, lower-cased, and what follows its colon. */
  function SplitScheme(s: string): (string, string) {
    var i := IndexOf(s, ':');
    if 0 < i < |s| && IsAlpha(s[0]) && AllSchemeChars(s[..i]) then (Lower(s[..i]), s[i + 1..]) else ("", s)
  }

  predicate EndsAuthority(c: char) { c == '/' || c == '?' || c == '#' }

  function AuthorityEnd(s: string, n: nat): (i: nat)
    requires n <= |s|
    ensures n <= i <= |s|
    ensures forall k | n <= k < i :: !EndsAuthority(s[k])
    ensures i < |s| ==> EndsAuthority(s[i])
    decreases |s| - n
  {
    if n == |s| || EndsAuthority(s[n]) then n else AuthorityEnd(s, n + 1)
  }

  /** The authority behind a double slash, and the rest. */
  function SplitAuthority(s: string): (string, string) {
    if |s| >= 2 && s[0] == '/' && s[1] == '/' then
      var i := AuthorityEnd(s, 2);
      (s[2..i], s[i..])
    else ("", s)
  }

  const USES_PARAMS := {"", "ftp", "hdl", "prospero", "http", "https", "shttp", "rtsp", "rtspu", "rtsps",
                        "sip", "sips", "mms", "sftp", "tel"}

  /** The last path segment's parameters. */
  function SplitParams(scheme: string, path: string): (string, string) {
    if scheme !in USES_PARAMS || ';' !in path then (path, "")
    else
      var slash := LastIndexOf(path, '/');
      var i := IndexFrom(path, ';', if slash < 0 then 0 else slash);
      if i == |path| then (path, "") else (path[..i], path[i + 1..])
  }

  // ---- the authority ------------------------------------------------------------------

  /** Host and port text of an authority, as _hostinfo cuts it. */
  function HostInfo(netloc: string): (string, string) {
    var hostinfo := RPartition(netloc, '@').tail;
    var open := Partition(hostinfo, '[');
    if open.found then
      var close := Partition(open.tail, ']');
      (close.head, Partition(close.tail, ':').tail)
    else
      var colon := Partition(hostinfo, ':');
      (colon.head, colon.tail)
  }

  /** The host is lower-cased up to an IPv6 zone identifier. */
  function LowerHost(host: string): string {
    var zone := Partition(host, '%');
    Lower(zone.head) + (if zone.found then "%" + zone.tail else "")
  }

  function Hostname(netloc: string): Option<string> {
    var host := HostInfo(netloc).0;
    if host == "" then None else Some(LowerHost(host))
  }

  function PortOf(netloc: string): Port {
    var text := HostInfo(netloc).1;
    if text == "" then NoPort
    else if AllDigits(text) && DecimalValue(text) <= 65535 then Number(DecimalValue(text))
    else BadPort
  }

  predicate HexDigit(c: char) { IsDigit(c) || 'a' <= c <= 'f' || 'A' <= c <= 'F' }

  function HexRun(s: string, n: nat): (i: nat)
    requires n <= |s|
    ensures n <= i <= |s|
    decreases |s| - n
  {
    if n < |s| && HexDigit(s[n]) then HexRun(s, n + 1) else n
  }

  /** An IPvFuture literal: "v", hex digits, a dot and at least one more character. */
  predicate FutureHost(host: string) {
    && host != "" && host[0] == 'v'
    && var n := HexRun(host, 1);
       1 < n && n + 1 < |host| && host[n] == '.'
  }

  /** What the ipaddress module answers about a host. */
  datatype Hosts = Hosts(isIpv6: string -> bool, isIp: string -> bool, isLoopbackIp: string -> bool) {

    /** Letter case never decides whether a host is an IPv6 address, and an IPv6 address starts
        with a hex digit or a colon. */
    ghost predicate Lawful() {
      && (forall h {:trigger isIpv6(LowerHost(h))} :: isIpv6(h) ==> isIpv6(LowerHost(h)))
      && (forall h :: isIpv6(h) ==> h != "" && (HexDigit(h[0]) || h[0] == ':'))
      && AddressLaws()
    }

    /** IPv6 and loopback addresses are addresses, and an address without a colon has no bracket. */
    ghost predicate AddressLaws() {
      && (forall h :: isIpv6(h) || isLoopbackIp(h) ==> isIp(h))
      && (forall h :: isIp(h) && ':' !in h ==> '[' !in h && ']' !in h)
    }

    predicate IsLoopback(host: string) { host == "localhost" || isLoopbackIp(host) }

    predicate BracketHostOk(host: string) {
      if host != "" && host[0] == 'v' then FutureHost(host) else isIpv6(host)
    }

    predicate BracketsOk(netloc: string) {
      var hostinfo := RPartition(netloc, '@').tail;
      var open := Partition(hostinfo, '[');
      if open.found then
        var close := Partition(open.tail, ']');
        open.head == "" && (close.tail == "" || close.tail[0] == ':') && BracketHostOk(close.head)
      else BracketHostOk(Partition(hostinfo, ':').head)
    }

    /** urlparse; None where it raises ValueError. */
    function UrlParse(text: string): Option<Url> {
      var (scheme, afterScheme) := SplitScheme(DropUnsafe(StripLead(text)));
      var (netloc, rest) := SplitAuthority(afterScheme);
      if ('[' in netloc) != (']' in netloc) then None
      else if '[' in netloc && !BracketsOk(netloc) then None
      else
        var fragment := Partition(rest, '#');
        var query := Partition(fragment.head, '?');
        var (path, params) := SplitParams(scheme, query.head);
        Some(Url(scheme, netloc, path, params, query.tail, fragment.tail))
    }

    /** RFC 3986 authority characters. */
    static predicate AuthorityChar(c: char) {
      || IsAlpha(c) || IsDigit(c)
      || c in {'.', '_', '~', '%', '!', '$', '&', '\'', '(', ')', '*', '+', ',', ';', '=', ':', '@', '[', ']', '-'}
    }

    static predicate AllAuthorityChars(s: string) {
      s == "" || (AuthorityChar(s[|s| - 1]) && AllAuthorityChars(s[..|s| - 1]))
    }

    predicate ValidRedirectUrl(url: Url) {
      && PortOf(url.netloc) != BadPort
      && Hostname(url.netloc).Some?
      && AllAuthorityChars(url.netloc)
      && (url.scheme == "https" || (url.scheme == "http" && IsLoopback(Hostname(url.netloc).value)))
      && url.fragment == ""
    }

    /** An https redirect, or an http one to a loopback host, without a fragment. */
    predicate IsValidRedirect(uri: string) {
      uri != "" && UrlParse(uri).Some? && ValidRedirectUrl(UrlParse(uri).value)
    }

    static function OriginOf(url: Url): Normalized {
      var host := Hostname(url.netloc);
      if url.scheme == "" || host.None? then Hostless
      else match PortOf(url.netloc)
        case BadPort => Raised
        case Number(n) => At(Origin(url.scheme, host.value, n))
        case NoPort => At(Origin(url.scheme, host.value, DefaultPort(url.scheme)))
    }

    function NormalizedOrigin(uri: string): Normalized {
      var url := UrlParse(uri);
      if url.None? then Raised else OriginOf(url.value)
    }

    lemma ValidRedirectNamesOrigin(uri: string)
      requires IsValidRedirect(uri)
      ensures NormalizedOrigin(uri).At?
      ensures NormalizedOrigin(uri).origin.scheme in {"http", "https"}
      ensures NormalizedOrigin(uri).origin.host == Hostname(UrlParse(uri).value.netloc).value
    {
      hide UrlParse, HostInfo, LowerHost, AllAuthorityChars;
    }
  }

  /** The default port of a scheme, 0 where it has none. */
  function DefaultPort(scheme: string): nat {
    if scheme == "https" then 443 else if scheme == "http" then 80 else 0
  }

  predicate HasDefaultPort(o: Origin) { o.scheme in {"http", "https"} && DefaultPort(o.scheme) == o.port }

  function UrlHost(host: string): string { if ':' in host then "[" + host + "]" else host }

  function PortText(o: Origin): string {
    if HasDefaultPort(o) then "" else ":" + Decimal(o.port)
  }

  function Authority(o: Origin): string { UrlHost(o.host) + PortText(o) }

  /** The URL form of an origin, without the scheme's default port. */
  function CanonicalOriginUrl(o: Origin): string { o.scheme + "://" + Authority(o) }
}
