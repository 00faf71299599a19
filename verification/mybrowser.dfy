/** The request interception of the browser's `MyBrowser` web client: a
    per-client map from request URL to the ad decision, filled on first sight
    of a URL and read back afterwards, and the response chosen from the
    decision. */
module MyBrowser {
  import opened Wrappers
  import opened AdBlocker

  /** The client's `loadedUrls` map after a request, and the response handed
      back to the web view; None is the pass-through of the default
      `shouldInterceptRequest`, which lets the request go to the network. */
  datatype Interception = Interception(loadedUrls: map<string, bool>,
                                       response: Option<WebResourceResponse>)

  /** `shouldInterceptRequest`: the decision for `url` is taken from
      `loadedUrls` when present, otherwise computed against the current
      blocklist and stored (`getOrPut`); a blocked request is answered with the
      empty resource. */
  function ShouldInterceptRequest(loadedUrls: map<string, bool>, blocklist: set<string>,
                                  parser: UrlParser, url: string): (r: Interception)
    ensures url in r.loadedUrls
    ensures r.loadedUrls.Keys == loadedUrls.Keys + {url}
    ensures forall u :: u in loadedUrls ==> r.loadedUrls[u] == loadedUrls[u]
    ensures url !in loadedUrls ==> r.loadedUrls[url] == IsAd(blocklist, parser, url)
    ensures url in loadedUrls ==> r.loadedUrls == loadedUrls
    ensures r.response.Some? <==> r.loadedUrls[url]
    ensures r.response.Some? ==> r.response.value.mimeType == "text/plain" &&
                                 r.response.value.encoding == "utf-8" &&
                                 |r.response.value.data| == 0
  {
    var decided := if url in loadedUrls then loadedUrls
                   else loadedUrls[url := IsAd(blocklist, parser, url)];
    var response := if decided[url] then Some(CreateEmptyResource()) else None;
    Interception(decided, response)
  }

  /** Every stored `true` still holds against `blocklist`. Stored `false`
      decisions are allowed to be stale. */
  ghost predicate BlockedEntriesHold(loadedUrls: map<string, bool>, blocklist: set<string>, parser: UrlParser) {
    forall u :: u in loadedUrls && loadedUrls[u] ==> IsAd(blocklist, parser, u)
  }

  /** Every stored decision equals the decision against `blocklist`. */
  ghost predicate EntriesExact(loadedUrls: map<string, bool>, blocklist: set<string>, parser: UrlParser) {
    forall u :: u in loadedUrls ==> loadedUrls[u] == IsAd(blocklist, parser, u)
  }

  /** While the blocklist only grows (the background load adding lines), a
      blocked answer from the map is never wrong for the current blocklist. */
  lemma InterceptKeepsBlockedEntries(loadedUrls: map<string, bool>, before: set<string>, after: set<string>,
                                     parser: UrlParser, url: string)
    requires before <= after
    requires BlockedEntriesHold(loadedUrls, before, parser)
    ensures BlockedEntriesHold(ShouldInterceptRequest(loadedUrls, after, parser, url).loadedUrls, after, parser)
    ensures ShouldInterceptRequest(loadedUrls, after, parser, url).response.Some? ==> IsAd(after, parser, url)
  {
    var r := ShouldInterceptRequest(loadedUrls, after, parser, url);
    forall u | u in r.loadedUrls && r.loadedUrls[u]
      ensures IsAd(after, parser, u)
    {
      if u in loadedUrls {
        IsAdMonotone(before, after, parser, u);
      }
    }
  }

  /** With a fixed blocklist the map is transparent: a request is answered
      exactly as the unmemoised decision would answer it, and the map stays
      exact. */
  lemma InterceptIsTransparent(loadedUrls: map<string, bool>, blocklist: set<string>, parser: UrlParser, url: string)
    requires EntriesExact(loadedUrls, blocklist, parser)
    ensures EntriesExact(ShouldInterceptRequest(loadedUrls, blocklist, parser, url).loadedUrls, blocklist, parser)
    ensures ShouldInterceptRequest(loadedUrls, blocklist, parser, url).response.Some? <==> IsAd(blocklist, parser, url)
  {
  }

  /** A `false` stored before the blocklist grew is served even when the
      grown blocklist would block the URL. */
  lemma StaleFalseIsServed()
    ensures var parser := UrlParser(u => Some("ads.example.com"), u => None);
            var r := ShouldInterceptRequest(map["https://ads.example.com/" := false], {"ads.example.com"},
                                            parser, "https://ads.example.com/");
            IsAd({"ads.example.com"}, parser, "https://ads.example.com/") && r.response.None?
  {
    var parser := UrlParser(u => Some("ads.example.com"), u => None);
    var host := "ads.example.com";
    assert '.' in host by { assert host[3] == '.'; }
  }

  /** A sequence of requests against one blocklist. */
  function InterceptAll(loadedUrls: map<string, bool>, blocklist: set<string>, parser: UrlParser,
                        urls: seq<string>): (r: map<string, bool>)
    ensures r.Keys == loadedUrls.Keys + set u | u in urls
    ensures forall u :: u in loadedUrls ==> r[u] == loadedUrls[u]
    ensures forall u :: u in r && u !in loadedUrls ==> r[u] == IsAd(blocklist, parser, u)
    decreases |urls|
  {
    if |urls| == 0 then loadedUrls
    else InterceptAll(ShouldInterceptRequest(loadedUrls, blocklist, parser, urls[0]).loadedUrls,
                      blocklist, parser, urls[1..])
  }
}
