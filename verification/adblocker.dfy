/** The ad-request decision of the `AdBlocker` object: the hostname suffix
    walk, the URL decision built on it, the line-by-line blocklist load and
    the empty replacement response.

    The blocklist (the source's process-wide `AD_HOSTS` set) is passed in as a
    value rather than held as global mutable state. */
module AdBlocker {
  import opened Wrappers

  // ---------------------------------------------------------------------------
  // Strings
  // ---------------------------------------------------------------------------

  /** The position of the first `c` in `s`, or -1 when `s` has none
      (Kotlin's `String.indexOf`). */
  function IndexOf(s: string, c: char): (i: int)
    ensures -1 <= i < |s|
    ensures i < 0 ==> forall k :: 0 <= k < |s| ==> s[k] != c
    ensures 0 <= i ==> s[i] == c && forall k :: 0 <= k < i ==> s[k] != c
  {
    if |s| == 0 then -1
    else if s[0] == c then 0
    else
      var j := IndexOf(s[1..], c);
      if j < 0 then -1
      else j + 1
  }

  // ---------------------------------------------------------------------------
  // Host suffix walk
  // ---------------------------------------------------------------------------

  /** `isAdHost`: a non-empty host that contains a dot is blocked when it is
      listed itself, or when the text after its first dot (if any text
      remains) is blocked. A host without a dot is never looked up. */
  function IsAdHost(blocklist: set<string>, host: string): (r: bool)
    ensures |host| == 0 ==> !r
    ensures '.' !in host ==> !r
    ensures '.' in host && host in blocklist ==> r
    ensures 0 <= IndexOf(host, '.') == |host| - 1 ==> (r <==> host in blocklist)
    decreases |host|
  {
    if |host| == 0 then false
    else
      var index := IndexOf(host, '.');
      index >= 0 && (host in blocklist ||
        (index + 1 < |host| && IsAdHost(blocklist, host[index + 1..])))
  }

  /** Position `j` starts a label of `host`: it is the start of the host or
      immediately follows a dot. */
  ghost predicate IsLabelStart(host: string, j: int) {
    0 <= j <= |host| && (j == 0 || host[j - 1] == '.')
  }

  /** The reference reading of the suffix walk: some suffix of `host` that
      starts a label and still contains a dot is listed. */
  ghost predicate ListedSuffix(blocklist: set<string>, host: string) {
    exists j :: IsLabelStart(host, j) && '.' in host[j..] && host[j..] in blocklist
  }

  /** A listed label suffix of the text after the first dot is a listed
      label suffix of the host. */
  lemma ListedSuffixFromRest(blocklist: set<string>, host: string, index: nat)
    requires index < |host| && host[index] == '.'
    requires ListedSuffix(blocklist, host[index + 1..])
    ensures ListedSuffix(blocklist, host)
  {
    var rest := host[index + 1..];
    var k :| IsLabelStart(rest, k) && '.' in rest[k..] && rest[k..] in blocklist;
    var j := k + index + 1;
    assert host[j..] == rest[k..];
    assert IsLabelStart(host, j) by {
      if k > 0 {
        assert rest[k - 1] == host[j - 1];
      }
    }
  }

  /** A listed label suffix of an unlisted host lies in the text after its
      first dot, and that text is not empty. */
  lemma ListedSuffixInRest(blocklist: set<string>, host: string, index: nat)
    requires index < |host| && host[index] == '.' && '.' !in host[..index]
    requires host !in blocklist && ListedSuffix(blocklist, host)
    ensures index + 1 < |host| && ListedSuffix(blocklist, host[index + 1..])
  {
    var rest := host[index + 1..];
    var j :| IsLabelStart(host, j) && '.' in host[j..] && host[j..] in blocklist;
    assert j != 0;
    assert j - 1 >= index;
    assert j < |host|;
    var k := j - (index + 1);
    assert host[j..] == rest[k..];
    assert IsLabelStart(rest, k) by {
      if k > 0 {
        assert rest[k - 1] == host[j - 1];
      }
    }
  }

  /** The suffix walk blocks exactly the hosts with a listed, dot-containing
      label suffix. */
  lemma {:induction false} IsAdHostIffListedSuffix(blocklist: set<string>, host: string)
    ensures IsAdHost(blocklist, host) <==> ListedSuffix(blocklist, host)
    decreases |host|
  {
    if |host| > 0 {
      var index := IndexOf(host, '.');
      if index < 0 {
        // No suffix contains a dot; both sides are false.
      } else if host in blocklist {
        assert IsLabelStart(host, 0) && host[0..] == host;
      } else {
        if index + 1 < |host| {
          IsAdHostIffListedSuffix(blocklist, host[index + 1..]);
          if IsAdHost(blocklist, host) {
            ListedSuffixFromRest(blocklist, host, index);
          }
        }
        if ListedSuffix(blocklist, host) {
          ListedSuffixInRest(blocklist, host, index);
        }
      }
    }
  }

  /** A listed domain that contains a dot blocks all of its subdomains. */
  lemma SubdomainOfListedIsAdHost(blocklist: set<string>, domain: string, prefix: string)
    requires '.' in domain && domain in blocklist
    ensures IsAdHost(blocklist, prefix + "." + domain)
  {
    var host := prefix + "." + domain;
    var j := |prefix| + 1;
    assert host[j..] == domain;
    assert IsLabelStart(host, j);
    IsAdHostIffListedSuffix(blocklist, host);
  }

  /** A listed domain blocks itself. */
  lemma ListedDomainExample(listed: string)
    requires listed == "ads.example.com"
    ensures IsAdHost({listed}, listed)
  {
    assert listed[3] == '.';
  }

  /** A listed domain blocks a subdomain one label down. */
  lemma SubdomainExample(listed: string, sub: string)
    requires listed == "ads.example.com" && sub == "x.ads.example.com"
    ensures IsAdHost({listed}, sub)
  {
    assert listed[3] == '.';
    assert sub == "x" + "." + listed;
    SubdomainOfListedIsAdHost({listed}, listed, "x");
  }

  /** A listed domain blocks a subdomain two labels down. */
  lemma NestedSubdomainExample(listed: string, subsub: string)
    requires listed == "ads.example.com" && subsub == "y.x.ads.example.com"
    ensures IsAdHost({listed}, subsub)
  {
    assert listed[3] == '.';
    assert subsub == "y.x" + "." + listed;
    SubdomainOfListedIsAdHost({listed}, listed, "y.x");
  }

  /** A listed domain does not block its parent: the walk on `example.com`
      tests `example.com` and stops at the dot-free `com`. */
  lemma ParentOfListedExample(parent: string, listed: string)
    requires parent == "example.com" && listed == "ads.example.com"
    ensures !IsAdHost({listed}, parent)
  {
    assert IndexOf(parent, '.') == 7 by { assert parent[7] == '.' && '.' !in parent[..7]; }
    assert parent != listed by { assert parent[0] != listed[0]; }
    var rest := parent[8..];
    assert '.' !in rest by { assert rest == "com"; }
  }

  /** A listed single label never blocks the same host. */
  lemma SingleLabelExample()
    ensures !IsAdHost({"tracker"}, "tracker")
  {
  }

  /** Adding entries to the blocklist never unblocks a host. */
  lemma IsAdHostMonotone(small: set<string>, large: set<string>, host: string)
    requires small <= large
    ensures IsAdHost(small, host) ==> IsAdHost(large, host)
  {
    IsAdHostIffListedSuffix(small, host);
    IsAdHostIffListedSuffix(large, host);
  }

  /** The walk written as a loop instead of recursion; it decides exactly as
      `IsAdHost` does. */
  method IsAdHostIterative(blocklist: set<string>, host: string) returns (r: bool)
    ensures r == IsAdHost(blocklist, host)
    ensures r <==> ListedSuffix(blocklist, host)
  {
    IsAdHostIffListedSuffix(blocklist, host);
    var h := host;
    while |h| > 0
      invariant IsAdHost(blocklist, h) == IsAdHost(blocklist, host)
      decreases |h|
    {
      var index := IndexOf(h, '.');
      if index < 0 {
        return false;
      }
      if h in blocklist {
        return true;
      }
      if index + 1 >= |h| {
        return false;
      }
      h := h[index + 1..];
    }
    return false;
  }

  // ---------------------------------------------------------------------------
  // URL decision
  // ---------------------------------------------------------------------------

  /** The two library parsers the decision depends on. `host` stands for
      `java.net.URL(url).host`, with None for a `MalformedURLException`;
      `lastPathSegment` stands for `Uri.parse(url).lastPathSegment`, with
      None for a null segment. */
  datatype UrlParser = UrlParser(host: string -> Option<string>,
                                 lastPathSegment: string -> Option<string>)

  /** `isAd`: a URL is an ad when its host parses and either the host walk
      blocks it or its last path segment is listed. A malformed URL fails
      open. */
  function IsAd(blocklist: set<string>, parser: UrlParser, url: string): (r: bool)
    ensures parser.host(url).None? ==> !r
    ensures r <==> parser.host(url).Some? &&
                   (ListedSuffix(blocklist, parser.host(url).value) ||
                    (parser.lastPathSegment(url).Some? && parser.lastPathSegment(url).value in blocklist))
  {
    match parser.host(url)
    case None => false
    case Some(host) =>
      IsAdHostIffListedSuffix(blocklist, host);
      IsAdHost(blocklist, host) ||
        (match parser.lastPathSegment(url)
         case None => false
         case Some(segment) => segment in blocklist)
  }

  /** Adding entries to the blocklist never unblocks a URL. */
  lemma IsAdMonotone(small: set<string>, large: set<string>, parser: UrlParser, url: string)
    requires small <= large
    ensures IsAd(small, parser, url) ==> IsAd(large, parser, url)
  {
    if parser.host(url).Some? {
      IsAdHostMonotone(small, large, parser.host(url).value);
    }
  }

  /** With an empty blocklist nothing is blocked. */
  lemma EmptyBlocklistBlocksNothing(parser: UrlParser, url: string)
    ensures !IsAd({}, parser, url)
  {
  }

  // ---------------------------------------------------------------------------
  // Blocklist load
  // ---------------------------------------------------------------------------

  /** The blocklist after inserting each line verbatim, in order. */
  function InsertLines(hosts: set<string>, lines: seq<string>): (r: set<string>)
    ensures r == hosts + set l | l in lines
    decreases |lines|
  {
    if |lines| == 0 then hosts
    else InsertLines(hosts + {lines[0]}, lines[1..])
  }

  /** One call of `readLine()`: a line, or an I/O failure. The end of the
      sequence of calls is the null that ends the loop. */
  datatype ReadResult = Line(text: string) | IoFailure

  /** The lines returned before the first failure. */
  function LinesRead(results: seq<ReadResult>): (lines: seq<string>)
    ensures |lines| <= |results|
    ensures forall m :: 0 <= m < |lines| ==> results[m] == Line(lines[m])
    ensures |lines| == |results| || results[|lines|].IoFailure?
    decreases |results|
  {
    if |results| == 0 || results[0].IoFailure? then []
    else [results[0].text] + LinesRead(results[1..])
  }

  /** The reading loop of `loadFromAssets`: every line read is added to the
      blocklist; an I/O failure ends the load, keeping the lines read so far,
      and is reported instead of propagated. */
  method LoadFromAssets(hosts: set<string>, results: seq<ReadResult>) returns (loaded: set<string>, failed: bool)
    ensures failed <==> |LinesRead(results)| < |results|
    ensures loaded == hosts + set l | l in LinesRead(results)
  {
    var lines := LinesRead(results);
    loaded := hosts;
    var n := 0;
    while n < |results|
      invariant n <= |lines|
      invariant forall k :: 0 <= k < n ==> results[k].Line?
      invariant loaded == hosts + set l | l in lines[..n]
    {
      match results[n]
      case IoFailure =>
        assert lines[..n] == lines;
        return loaded, true;
      case Line(text) =>
        assert lines[..n + 1] == lines[..n] + [text];
        loaded := loaded + {text};
        n := n + 1;
    }
    assert lines[..n] == lines;
    failed := false;
  }

  /** A reader that sees a load still in progress, or one cut short by a
      failure, sees a subset of the complete blocklist, and so blocks no URL
      the complete blocklist would pass. */
  lemma PartialLoadBlocksLess(hosts: set<string>, lines: seq<string>, k: nat, parser: UrlParser, url: string)
    requires k <= |lines|
    ensures InsertLines(hosts, lines[..k]) <= InsertLines(hosts, lines)
    ensures IsAd(InsertLines(hosts, lines[..k]), parser, url) ==> IsAd(InsertLines(hosts, lines), parser, url)
  {
    IsAdMonotone(InsertLines(hosts, lines[..k]), InsertLines(hosts, lines), parser, url);
  }

  /** Loading an empty resource into an empty set blocks nothing. */
  lemma EmptyResourceBlocksNothing(parser: UrlParser, url: string)
    ensures !IsAd(InsertLines({}, []), parser, url)
  {
  }

  // ---------------------------------------------------------------------------
  // Empty response
  // ---------------------------------------------------------------------------

  /** A `WebResourceResponse`: MIME type, encoding and body bytes. */
  datatype WebResourceResponse = WebResourceResponse(mimeType: string, encoding: string, data: seq<bv8>)

  /** `createEmptyResource`: the plain-text, UTF-8 response with no body. */
  function CreateEmptyResource(): (r: WebResourceResponse)
    ensures r.mimeType == "text/plain" && r.encoding == "utf-8"
    ensures |r.data| == 0
  {
    WebResourceResponse("text/plain", "utf-8", [])
  }
}
