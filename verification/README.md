# Ad Blocker Pro: the ad-request decision

A Dafny model of the request filter of the Ad Blocker Pro Android browser.
The app loads a list of blocked hostnames from a bundled text file into a
set. For each resource request its web client decides whether the request
is an ad and, if so, answers it with an empty response. The decision has
three parts:

- a **suffix walk over the host**. `isAdHost` blocks a host that contains
  a dot and is listed. Otherwise it drops everything up to and including
  the first dot and retries on the rest.
- a **URL decision**. `isAd` checks the host, or failing that, whether the
  URL's last path segment is listed. A URL whose host cannot be parsed
  fails open.
- a **per-client memo** (`loadedUrls`). It stores the first decision taken
  for each URL and serves that decision for every later request of the URL.

Modules:

- `Wrappers`: `Option`. It stands for Kotlin's nullable values and for the
  parse error thrown by `java.net.URL`.
- `AdBlocker` (`AdBlocker.kt`): `IndexOf`, `IsAdHost` and its loop form
  `IsAdHostIterative`, and `IsAd`. It also holds the blocklist load
  (`InsertLines`, `LinesRead`, `LoadFromAssets`) and `CreateEmptyResource`.
- `MyBrowser` (`MainActivity.kt`): `ShouldInterceptRequest`, which works on
  the `loadedUrls` map, and `InterceptAll`, which runs a sequence of requests.

The blocklist is passed in as a `set<string>` value. The source keeps it in
a process-wide mutable set instead. The two library parsers,
`java.net.URL(url).host` and `Uri.parse(url).lastPathSegment`, are
parameters: a `UrlParser` holds two functions from the URL to
`Option<string>`. A `None` host means `MalformedURLException`, and a `None`
segment means a null segment.

The suffix walk keeps the source's boundaries as written:

- A host without a dot is never looked up, so a listed single label such as
  `tracker` never blocks the host `tracker`.
- The final label of a host is never looked up.
- A host whose first dot is its last character is tested once, and the
  walk does not recurse.

`IsAdHostIffListedSuffix` characterises the walk. A host is blocked exactly
when some suffix of it is listed and contains a dot, where the suffix starts
either at the beginning of the host or right after a dot.

## Model

| member | source | states |
|---|---|---|
| AdBlocker.IndexOf | app/src/main/java/com/app/adblokerpro/AdBlocker.kt:66 | the result is -1 exactly when the character is absent; otherwise it is the position of the first occurrence |
| AdBlocker.IsAdHost | app/src/main/java/com/app/adblokerpro/AdBlocker.kt:62-69 | an empty host is not blocked; a host with no dot is not blocked even if it is listed; a listed host that contains a dot is blocked; a host whose first dot is its last character is blocked exactly when it is listed |
| AdBlocker.ListedSuffixFromRest | app/src/main/java/com/app/adblokerpro/AdBlocker.kt:68 | a listed label suffix of the text after the first dot is a listed label suffix of the whole host |
| AdBlocker.ListedSuffixInRest | app/src/main/java/com/app/adblokerpro/AdBlocker.kt:66-68 | for an unlisted host, any listed dot-containing label suffix lies strictly after the first dot, so text remains after that dot |
| AdBlocker.IsAdHostIffListedSuffix | app/src/main/java/com/app/adblokerpro/AdBlocker.kt:66-68 | the walk blocks a host exactly when a listed suffix that starts a label and still contains a dot exists |
| AdBlocker.SubdomainOfListedIsAdHost | app/src/main/java/com/app/adblokerpro/AdBlocker.kt:66-68 | a listed domain that contains a dot blocks every host of the form prefix + "." + domain |
| AdBlocker.ListedDomainExample | app/src/main/java/com/app/adblokerpro/AdBlocker.kt:66-67 | listing ads.example.com blocks ads.example.com |
| AdBlocker.SubdomainExample | app/src/main/java/com/app/adblokerpro/AdBlocker.kt:66-68 | listing ads.example.com blocks x.ads.example.com |
| AdBlocker.NestedSubdomainExample | app/src/main/java/com/app/adblokerpro/AdBlocker.kt:66-68 | listing ads.example.com blocks y.x.ads.example.com |
| AdBlocker.ParentOfListedExample | app/src/main/java/com/app/adblokerpro/AdBlocker.kt:66-68 | listing ads.example.com does not block example.com |
| AdBlocker.SingleLabelExample | app/src/main/java/com/app/adblokerpro/AdBlocker.kt:66-67 | listing tracker does not block the host tracker |
| AdBlocker.IsAdHostMonotone | app/src/main/java/com/app/adblokerpro/AdBlocker.kt:67 | adding entries to the blocklist never unblocks a host |
| AdBlocker.IsAdHostIterative | app/src/main/java/com/app/adblokerpro/AdBlocker.kt:62-69 | a loop version of the walk decides exactly as the recursive one and as the suffix characterisation |
| AdBlocker.IsAd | app/src/main/java/com/app/adblokerpro/AdBlocker.kt:52-60 | a URL is blocked exactly when its host parses and either a listed dot-containing label suffix of the host exists or the last path segment is present and listed; a malformed URL is not blocked even if its segment is listed |
| AdBlocker.IsAdMonotone | app/src/main/java/com/app/adblokerpro/AdBlocker.kt:55 | adding entries to the blocklist never unblocks a URL |
| AdBlocker.EmptyBlocklistBlocksNothing | app/src/main/java/com/app/adblokerpro/AdBlocker.kt:55 | with an empty blocklist no URL is blocked |
| AdBlocker.InsertLines | app/src/main/java/com/app/adblokerpro/AdBlocker.kt:42-45 | inserting lines yields the old set together with exactly the lines, each stored verbatim |
| AdBlocker.LinesRead | app/src/main/java/com/app/adblokerpro/AdBlocker.kt:43 | the lines returned before the first failure: a prefix of the read results, all of them lines, ending at the end of input or at a failure |
| AdBlocker.LoadFromAssets | app/src/main/java/com/app/adblokerpro/AdBlocker.kt:27-45 | the load reports a failure exactly when a read fails; the blocklist ends up as the old set together with exactly the lines read before the first failure |
| AdBlocker.PartialLoadBlocksLess | app/src/main/java/com/app/adblokerpro/AdBlocker.kt:42-45 | the set after any prefix of the lines is a subset of the set after all of them, and a URL blocked against the prefix is blocked against the whole |
| AdBlocker.EmptyResourceBlocksNothing | app/src/main/java/com/app/adblokerpro/AdBlocker.kt:42-45 | loading an empty resource into an empty set blocks no URL |
| AdBlocker.CreateEmptyResource | app/src/main/java/com/app/adblokerpro/AdBlocker.kt:75-77 | the replacement response is text/plain, utf-8, with an empty body |
| MyBrowser.ShouldInterceptRequest | app/src/main/java/com/app/adblokerpro/MainActivity.kt:97-104 | afterwards the URL is a key of loadedUrls; the key set grows by at most that URL; other entries are unchanged; on a miss the stored value is the decision against the current blocklist; on a hit the map is unchanged; the empty text/plain utf-8 response is returned exactly when the stored decision is true, and otherwise the request passes through |
| MyBrowser.InterceptKeepsBlockedEntries | app/src/main/java/com/app/adblokerpro/MainActivity.kt:102-103 | while the blocklist only grows, every stored true still holds for the current blocklist, so a blocked answer is never wrong for it |
| MyBrowser.InterceptIsTransparent | app/src/main/java/com/app/adblokerpro/MainActivity.kt:102-103 | with a fixed blocklist and exact stored decisions, the response equals the unmemoised decision and the map stays exact |
| MyBrowser.StaleFalseIsServed | app/src/main/java/com/app/adblokerpro/MainActivity.kt:102 | a false stored before the blocklist grew is served even when the grown blocklist blocks the URL |
| MyBrowser.InterceptAll | app/src/main/java/com/app/adblokerpro/MainActivity.kt:97-102 | after a run of requests the keys are the old keys plus the requested URLs, old entries are unchanged, and each new entry is the decision against the blocklist |

## Left out

- The asset I/O, coroutine dispatch and logging of `init` and `loadFromAssets` are not modelled. The reader is the sequence of its `readLine()` results, and the end of that sequence stands for the null that ends the loop.
- Concurrency between the background load and the matcher is not modelled. A partly loaded blocklist is a prefix of the lines (`PartialLoadBlocksLess`), and the matcher takes the blocklist as a value.
- The internals of `java.net.URL` host parsing and `android.net.Uri` path-segment parsing are not modelled. They are library code, and they are parameters here.
- Null hosts are not modelled separately: `IsAdHost` takes a `string`, not a nullable one. `URL.host` returns a non-null string, and `isNullOrEmpty` treats null and "" alike, so the empty host covers both.
- The rest of `MainActivity` is not modelled: the WebView settings, back navigation and exit dialog, `shouldOverrideUrlLoading`, the error page and the JavaScript dialog client. These are UI code with no decision logic.
- Kotlin strings are UTF-16; characters here are Dafny `char`s, and `indexOf(".")` searches for one character.
