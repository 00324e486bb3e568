/**
 * Routing remote GTFS downloads through the CORS proxy. Parsing a URL is
 * the WHATWG URL parser's job and is not modelled: its outcome is passed
 * in, `None` when `new URL(url)` throws.
 */
module Proxy {
  import opened Wrappers
  import opened Text

  const ProxyBase := "https://gtfs-proxy.sys-dev-run.re/proxy/"

  /** The parts of a parsed URL the proxy reads. */
  datatype UrlParts = UrlParts(protocol: string, host: string, pathname: string, search: string)

  /** A path to a file served by the board itself: `./`, `/` or `../` in front. */
  predicate IsLocalPath(url: string) {
    StartsWith(url, "./") || StartsWith(url, "/") || StartsWith(url, "../")
  }

  predicate IsWebProtocol(protocol: string) {
    protocol == "http:" || protocol == "https:"
  }

  /**
   * Local paths and URLs that do not parse or are not HTTP(S) pass
   * through; HTTP(S) URLs are rewritten onto the proxy, keeping host, path
   * and query but not the scheme, credentials or fragment.
   */
  function ProxyUrl(url: string, parsed: Option<UrlParts>): (r: string)
    ensures r == url || StartsWith(r, ProxyBase)
    ensures IsLocalPath(url) ==> r == url
    ensures r != url ==> !IsLocalPath(url) && parsed.Some? && IsWebProtocol(parsed.value.protocol)
  {
    if IsLocalPath(url) then url
    else match parsed
      case Some(p) =>
        if IsWebProtocol(p.protocol) then ProxyBase + p.host + p.pathname + p.search else url
      case None => url
  }

  // ---------------------------------------------------------------- properties

  /** A remote HTTP(S) URL is proxied, and the proxied URL still names its target after the proxy prefix. */
  lemma RemoteTargetRecoverable(url: string, p: UrlParts)
    requires !IsLocalPath(url) && IsWebProtocol(p.protocol)
    ensures var r := ProxyUrl(url, Some(p));
      StartsWith(r, ProxyBase) && r[|ProxyBase|..] == p.host + p.pathname + p.search
  {
    var r := ProxyUrl(url, Some(p));
    assert r == ProxyBase + (p.host + p.pathname + p.search);
  }

  /** Anything not proxied is returned unchanged: unparsable text and other schemes. */
  lemma NonWebUntouched(url: string, parsed: Option<UrlParts>)
    requires parsed.None? || !IsWebProtocol(parsed.value.protocol)
    ensures ProxyUrl(url, parsed) == url
  {
  }

  /** The same target behind `http:` and `https:` goes to the same proxied URL. */
  lemma SchemeForgotten(url: string, url': string, p: UrlParts)
    requires !IsLocalPath(url) && !IsLocalPath(url')
    ensures ProxyUrl(url, Some(p.(protocol := "http:"))) == ProxyUrl(url', Some(p.(protocol := "https:")))
  {
  }

  /**
   * Proxying is not idempotent: a proxied URL, parsed as what it is, is
   * proxied a second time and grows.
   */
  lemma ProxyTwiceNests(url: string, p: UrlParts, q: UrlParts)
    requires !IsLocalPath(url) && IsWebProtocol(p.protocol)
    requires var r := ProxyUrl(url, Some(p));
      q.protocol == "https:" && q.host + q.pathname + q.search == r[|"https://"|..]
    ensures var r := ProxyUrl(url, Some(p));
      ProxyUrl(r, Some(q)) == ProxyBase + r[|"https://"|..] && |ProxyUrl(r, Some(q))| > |r|
  {
    var r := ProxyUrl(url, Some(p));
    assert r[0] == 'h' && r[1] == 't';
    assert !IsLocalPath(r);
  }
}
