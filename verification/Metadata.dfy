/** Client metadata documents (oauth_ha_auth.py): whose documents are fetched at all, and what in a document
    decides whether it registers its redirects. */
module Metadata {
  import opened Wrappers
  import opened Text
  import opened Base64Url
  import opened Blobs
  import opened JsonValues
  import opened Urls
  import opened Identity

  // ---- whose documents are fetched ------------------------------------------------------------------------

  /** A dot segment: between slashes, or between a slash and an end of the path. */
  predicate DotsAt(path: string, i: int, j: int) {
    && 0 <= i <= j <= |path| && path[i..j] in {".", ".."}
    && (i == 0 || path[i - 1] == '/') && (j == |path| || path[j] == '/')
  }

  /** The recursion over partitions finds exactly the dot segments of the path. */
  lemma {:induction false} DotSegmentsAreFound(path: string)
    ensures HasDotSegment(path) <==> exists i, j :: DotsAt(path, i, j)
  {
    hide DotsAt;
    var cut := Partition(path, '/');
    var at := |cut.head| + 1;
    FirstSegment(path);
    if cut.found {
      DotSegmentsAreFound(cut.tail);
      forall i, j ensures DotsAt(path, at + i, at + j) && i >= 0 <==> DotsAt(cut.tail, i, j) {
        LaterSegment(cut.head, cut.tail, i, j);
      }
      if i, j :| DotsAt(cut.tail, i, j) {
        assert DotsAt(path, at + i, at + j);
      }
      if i, j :| DotsAt(path, i, j) && i > 0 {
        LaterSegment(cut.head, cut.tail, i - at, j - at);
        assert DotsAt(cut.tail, i - at, j - at);
      }
    }
  }

  lemma FirstSegment(path: string)
    ensures var cut := Partition(path, '/');
            && (DotsAt(path, 0, |cut.head|) <==> cut.head in {".", ".."})
            && (forall i, j :: DotsAt(path, i, j) ==>
                  (i == 0 && j == |cut.head|) || (cut.found && i >= |cut.head| + 1))
            && (cut.found ==> path == cut.head + ['/'] + cut.tail)
  {
    var cut := Partition(path, '/');
    var n := |cut.head|;
    assert path[0..n] == cut.head && forall k :: 0 <= k < n ==> path[k] != '/';
    forall i, j | DotsAt(path, i, j) && i <= n ensures i == 0 && j == n {
      assert forall k :: i <= k < j ==> path[k] == path[i..j][k - i] == '.';
    }
  }

  lemma LaterSegment(head: string, tail: string, i: int, j: int)
    ensures var path, at := head + ['/'] + tail, |head| + 1;
            DotsAt(path, at + i, at + j) && i >= 0 <==> DotsAt(tail, i, j)
  {
    var path, at := head + ['/'] + tail, |head| + 1;
    if 0 <= i <= j <= |tail| { assert path[at + i..at + j] == tail[i..j]; }
  }

  /** A document registers a client only when it is found at an https client_id of a host that is neither
      loopback nor an address, which has a path without dot segments and neither a fragment nor user
      information, and only with redirects that are valid. */
  lemma RegisteredByDocument(env: Env, clientId: string)
    ensures FetchCimdRedirects(env, clientId).Some? <==>
              && env.hosts.UrlParse(clientId).Some?
              && (var url := env.hosts.UrlParse(clientId).value;
                  && url.scheme == "https" && PortOf(url.netloc) != BadPort && '@' !in url.netloc
                  && (match Hostname(url.netloc)
                      case None => false
                      case Some(host) => host != "localhost" && !env.hosts.isLoopbackIp(host) && !env.hosts.isIp(host))
                  && url.path !in {"", "/"}
                  && !exists i, j :: DotsAt(url.path, i, j))
              && '#' !in clientId
              && env.document(clientId).Some?
              && ParseCimd(env.hosts, env.document(clientId).value, clientId).Some?
    ensures FetchCimdRedirects(env, clientId).Some? ==>
              FetchCimdRedirects(env, clientId).value != []
              && AllValidRedirects(env.hosts, FetchCimdRedirects(env, clientId).value)
  {
    hide Hosts.UrlParse, HostInfo, LowerHost, HasDotSegment, MetadataOk, Hosts.IsValidRedirect, DotsAt;
    if env.hosts.UrlParse(clientId).Some? {
      DotSegmentsAreFound(env.hosts.UrlParse(clientId).value.path);
    }
  }

  // ---- what a document says -------------------------------------------------------------------------------

  function With(doc: Json, name: string, value: Json): Json
    requires doc.Obj?
  {
    Obj(doc.fields[name := value])
  }

  /** One field of an accepted document set to another value: what the document then registers. */
  lemma OneFieldChanged(hosts: Hosts, doc: Json, clientId: string, name: string, value: Json)
    requires ParseCimd(hosts, doc, clientId).Some?
    ensures var uris := ParseCimd(hosts, doc, clientId);
            ParseCimd(hosts, With(doc, name, value), clientId) ==
            match name
            case "client_id" => if value == Str(clientId) then uris else None
            case "client_name" => if value.Str? && !Blank(value.s) then uris else None
            case "client_secret" => None
            case "client_secret_expires_at" => None
            case "token_endpoint_auth_method" =>
              if value.Str? && value.s in {"client_secret_basic", "client_secret_jwt", "client_secret_post"}
              then None else uris
            case "redirect_uris" =>
              if value.Arr? && value.items != [] && AllStrings(value.items)
                 && AllValidRedirects(hosts, Strings(value.items))
              then Some(Strings(value.items)) else None
            case _ => uris
  {
    hide Hosts.IsValidRedirect;
  }

  /** One field of an accepted document left out: only the method and fields of no concern may be. */
  lemma OneFieldMissing(hosts: Hosts, doc: Json, clientId: string, name: string)
    requires ParseCimd(hosts, doc, clientId).Some?
    ensures ParseCimd(hosts, Obj(doc.fields - {name}), clientId) ==
            if name in {"client_id", "client_name", "redirect_uris"} then None else ParseCimd(hosts, doc, clientId)
  {
    hide Hosts.IsValidRedirect;
  }
}
