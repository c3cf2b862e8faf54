/** The character sets and cuts of the URL parser, as RFC 3986 and urllib.parse put them. */
module UrlText {
  import opened Wrappers
  import opened Text
  import opened Urls

  predicate AlphaNumeric(c: char) { 'A' <= c <= 'Z' || 'a' <= c <= 'z' || '0' <= c <= '9' }

  /** RFC 3986 sections 3.1 and 3.2: the characters of a scheme, and of an authority. */
  lemma CharacterSets(c: char)
    ensures SchemeChar(c) <==> AlphaNumeric(c) || c in "+-."
    ensures Hosts.AuthorityChar(c) <==> AlphaNumeric(c) || c in "-._~" || c in "!$&'()*+,;=" || c in "%:@[]"
  {
  }

  lemma {:induction false} UnsafeConcat(a: string, b: string)
    ensures DropUnsafe(a + b) == DropUnsafe(a) + DropUnsafe(b)
  {
    hide Unsafe;
    if b == "" {
      assert a + b == a;
    } else {
      UnsafeConcat(a, b[..|b| - 1]);
      assert (a + b)[..|a + b| - 1] == a + b[..|b| - 1] && (a + b)[|a + b| - 1] == b[|b| - 1];
    }
  }

  lemma OneCharacter(c: char)
    ensures DropUnsafe([c]) == if c == '\t' || c == '\r' || c == '\n' then "" else [c]
  {
    assert [c][..0] == "";
  }

  /** Tabs and line breaks vanish wherever they stand; nothing else does. */
  lemma UnsafeVanishes(a: string, c: char, b: string)
    ensures DropUnsafe(a + ([c] + b)) ==
            DropUnsafe(a) + ((if c == '\t' || c == '\r' || c == '\n' then "" else [c]) + DropUnsafe(b))
  {
    hide DropUnsafe;
    UnsafeConcat(a, [c] + b);
    UnsafeConcat([c], b);
    OneCharacter(c);
  }

  predicate HexOnly(s: string) { forall k :: 0 <= k < |s| ==> HexDigit(s[k]) }

  /** RFC 3986 section 3.2.2, an IPvFuture literal: "v", hex digits, a dot, and more. */
  lemma FutureHosts(host: string)
    ensures FutureHost(host) <==>
              exists n :: 1 < n < |host| - 1 && host[0] == 'v' && HexOnly(host[1..n]) && host[n] == '.'
  {
    if host != "" {
      RunOfHex(host, 1);
      var run := HexRun(host, 1);
      if FutureHost(host) {
        assert HexOnly(host[1..run]);
      }
      if n :| 1 < n < |host| - 1 && host[0] == 'v' && HexOnly(host[1..n]) && host[n] == '.' {
        assert forall k :: 1 <= k < n ==> host[k] == host[1..n][k - 1];
        assert run == n;
      }
    }
  }

  lemma {:induction false} RunOfHex(s: string, n: nat)
    requires n <= |s|
    ensures forall k :: n <= k < HexRun(s, n) ==> HexDigit(s[k])
    ensures HexRun(s, n) < |s| ==> !HexDigit(s[HexRun(s, n)])
    decreases |s| - n
  {
    if n < |s| && HexDigit(s[n]) { RunOfHex(s, n + 1); }
  }

  /** The parameters of a web path are what follows the first semicolon of its last segment. */
  lemma ParametersOfLastSegment(scheme: string, text: string)
    requires scheme in {"http", "https"}
    ensures var (path, params) := SplitParams(scheme, text);
            var slash := LastIndexOf(text, '/');
            && (forall k :: 0 <= k < |path| && slash < k ==> path[k] != ';')
            && if exists k :: 0 <= k < |text| && slash < k && text[k] == ';'
               then text == path + ";" + params && slash < |path|
               else path == text && params == ""
  {
    var (path, params) := SplitParams(scheme, text);
    if path != text {
      assert text[|path|] == ';';
      assert text == path + ";" + params;
    }
  }

  /** The ports that go without saying: an origin is printed without one exactly when it is the scheme's own, and a
      redirect without one has the scheme's own. */
  lemma DefaultPorts(hosts: Hosts, o: Origin, uri: string)
    ensures CanonicalOriginUrl(o) ==
            if (o.scheme == "https" && o.port == 443) || (o.scheme == "http" && o.port == 80)
            then o.scheme + "://" + UrlHost(o.host)
            else o.scheme + "://" + UrlHost(o.host) + ":" + Decimal(o.port)
    ensures hosts.IsValidRedirect(uri) ==>
              var origin := hosts.NormalizedOrigin(uri);
              && origin.At?
              && match PortOf(hosts.UrlParse(uri).value.netloc)
                 case NoPort => origin.origin.port == if origin.origin.scheme == "https" then 443 else 80
                 case Number(n) => origin.origin.port == n
                 case BadPort => false
  {
    hide Hosts.UrlParse, HostInfo, LowerHost, Hosts.AllAuthorityChars, Decimal;
    var host, port := UrlHost(o.host), ":" + Decimal(o.port);
    assert host + "" == host;
    assert o.scheme + "://" + (host + port) == o.scheme + "://" + host + ":" + Decimal(o.port);
  }
}
