# Magic Training service worker: caching policy in Dafny

This project models the request-routing and caching policy of the Magic Training
progressive web app's service worker (`sw.js`), and proves properties about it.
The worker sits between the app's pages and the network. It handles four events:

- **install** pre-populates the static cache `magic-training-v1` with six mandatory
  assets, all or none.
- **activate** deletes every cache whose name is neither `magic-training-v1` nor
  `magic-training-videos-v1`.
- **fetch** classifies the request and hands it to one of three executors:
  - Google Drive previews go to a video-cache-then-network handler with an HTML
    fallback page.
  - Navigations go to network-first, falling back to the cached page and then to
    the cached root document.
  - Everything else goes to cache-first, with a guard on what gets stored.
- **message** `CACHE_VIDEOS` populates the video cache in bulk, skipping URLs whose
  fetch fails.

The model is functional. Each handler is a function from the origin's caches, the
request and a network oracle to the response the worker answers with and the caches
afterwards.

- **Caches** (`CacheStorage.Storage`) are a map from cache name to entries, plus the
  caches' creation order. `caches.match` searches every cache in creation order,
  so the order decides which entry a page gets when two caches hold the same URL.
  `Valid` states that every name is listed once and that the listed names are the
  existing caches. Every operation preserves it.
- **The network** (`Http.Network`) is a total function from a request (URL and
  mode) to `Some(response)`, or to `None` when the fetch promise rejects.
- **A failed request** is a `None` response: the worker hands `respondWith` a
  rejected promise or no response, which the page sees as a network error.
- **Puts the worker does not wait for** are applied before the handler returns.

Modules: `Http` (requests, responses, network), `Config` (the worker's constants),
`Strings` (`includes`), `CacheStorage` (the Cache API as used), `Strategies` (the
three executors), `Lifecycle` (install, activate, message), `Router` (classifier
and fetch handler) and `Properties` (properties relating several events).

Points where the code's behaviour is easy to misread:

- Cache-first and the navigation fallback use `caches.match`. That searches every
  cache of the origin, the video cache and not-yet-deleted old caches included,
  not only the static cache.
- Installation fails both when an asset fetch rejects and when it settles with a
  status outside 200-299. `cache.addAll` refuses such responses.
- The intended navigation handler stores responses whatever their status or type;
  only cache-first checks for status 200 and type `basic`. As written, the
  navigation put is lost for every response with a body (see Findings).
- The Drive handler opens, and so creates, the video cache even when it serves the
  fallback page. Installation opens the static cache even when it then fails.

## Model

| member | source | states |
|---|---|---|
| Strings.IncludesIsContains | sw.js:59 | the left-to-right `includes` scan answers true exactly when the substring occurs somewhere in the URL |
| Router.Classify | sw.js:56-90 | a Drive preview is a URL containing both the Drive file path and `/preview`, whatever the mode; otherwise mode navigate means network-first and every other request is cache-first; the three classes are exclusive and exhaustive |
| Router.OnFetch | sw.js:55-110 | dispatches navigations to the intended network-first, not the branch as written; the worker always answers a Drive preview with a response, and that request never touches the static cache; no other request touches the video cache; no stale cache changes; no entry is ever removed; validity is preserved |
| Properties.DriveRouteIgnoresMode | sw.js:59-64 | whether a request goes to the Drive handler depends on its URL alone: any two modes of one URL, navigation included, are routed there alike |
| Properties.ClassifyExamples | sw.js:59-67 | a concrete preview URL requested as a navigation is a Drive request; a plain navigation and a plain asset get their own classes |
| CacheStorage.Open | sw.js:114 | opening a cache creates it empty and last in creation order when missing, adds no other cache, and changes no entry |
| CacheStorage.Put | sw.js:72-74 | a put adds or overwrites exactly one entry of one cache, creating that cache last in creation order when missing; every other entry of every cache is unchanged |
| CacheStorage.Delete | sw.js:43 | deleting a cache removes that name only; all other caches keep their entries and their relative creation order |
| CacheStorage.MatchIn | sw.js:117 | a single-cache lookup finds exactly the stored entry for the key |
| CacheStorage.MatchAll | sw.js:91 | the origin-wide lookup finds something exactly when some cache holds the key, and returns the entry of the first such cache in creation order |
| CacheStorage.SoleHolder | sw.js:78 | when only one cache holds a key, the origin-wide lookup returns that cache's entry |
| Strategies.CacheFirst | sw.js:90-108 | on a hit the cached entry is returned and the caches are unchanged; on a miss the network answer is returned, and it is stored in the static cache exactly when it is present, has status 200 and type basic |
| Strategies.OfflineNavigation | sw.js:77-83 | an offline navigation gets the cached request, else the cached root document, and gets nothing exactly when neither is cached |
| Strategies.NetworkFirst | sw.js:67-85 | a network answer is returned and stored in the static cache without any check; without network the caches are unchanged and the worker answers with the cached request, else the cached root document, and with nothing exactly when neither is cached |
| Strategies.NetworkFirstAsWritten | sw.js:68-76 | as written, a network answer is returned and the static cache opened; a response with a body is not stored, since its copy is cloned after the body was locked, while a null-body response (an opaque redirect, a 204) is stored |
| Strategies.DrivePreview | sw.js:113-156 | always yields a response and opens the video cache; a video-cache hit is returned without change to any entry; a fetched answer, opaque or not, is returned and stored in the video cache; without network the fixed text/html page is returned |
| Lifecycle.AddAllSpec | sw.js:23 | `addAll` succeeds exactly when every response has an ok status other than 206, and then adds exactly those responses, keeping the other entries |
| Lifecycle.Install | sw.js:19-29 | installation succeeds exactly when every mandatory asset is accepted, and then the static cache holds each asset's response, keeps its earlier other entries, and gains nothing else; on failure no entry changes; other caches never change |
| Lifecycle.Sweep | sw.js:38-46 | after the sweep the listed names are exactly the input names equal to one of the two current names, in their relative order; no current cache is deleted and every kept cache keeps its entries; an empty name list is a no-op |
| Lifecycle.Activate | sw.js:37-46 | deleting the stale names one by one, as the handler does, leaves exactly what the sweep leaves |
| Lifecycle.PopulateSpec | sw.js:166-174 | the per-URL fetch-then-put adds exactly the URLs whose fetch settled, with their responses, and keeps every other entry |
| Lifecycle.CacheVideos | sw.js:164-176 | the video cache afterwards holds its prior entries plus exactly the URLs whose fetch succeeded; failures are skipped; other caches are unchanged |
| Lifecycle.OnMessage | sw.js:159-178 | only the `CACHE_VIDEOS` action changes anything, and it only touches the video cache |
| Properties.CacheFirstHitIgnoresNetwork | sw.js:91-95 | on a cache hit the outcome does not depend on the network at all |
| Properties.CacheFirstIdempotent | sw.js:91-106 | after a cacheable miss, the same request is answered from the cache with the same response and no change, whatever the network then does |
| Properties.CacheFirstStoresOnlyCacheable | sw.js:97-104 | whenever cache-first changes the caches at all, it missed and the network answer had status 200 and type basic |
| Properties.CacheFirstRefusedGoesToNetwork | sw.js:97-99 | a response the guard refuses is not kept: the next request for it goes to the network again |
| Properties.NetworkFirstThenOffline | sw.js:68-83 | after a navigation reached the network, the same navigation offline still gets a response, the very one served before when no other cache holds the URL |
| Properties.NavigationPutLost | sw.js:72-73 | on a fresh origin, a page with a body served from the network is gone offline under the handler as written, and served again under the intended one |
| Properties.InstalledAppWorksOffline | sw.js:77-83 | after a successful installation and the activation sweep, every navigation without network gets a response, because the root document is cached |
| Properties.FailedInstallStoresNothing | sw.js:19-29 | when any one mandatory asset is refused, installation fails and no entry is added anywhere |
| Properties.DrivePreviewReplays | sw.js:117-133 | a fetched Drive preview is replayed from the video cache later, whatever the network does then |
| Properties.DriveOfflineFallback | sw.js:135-155 | with no network and no cached copy, a Drive preview gets the fallback page, served as text/html with status 200 |
| Properties.CacheVideosOrderIrrelevant | sw.js:166-174 | the caches after bulk population do not depend on the order or repetition of the URLs, so the concurrent fetches may settle in any order |
| Properties.CacheVideosExample | sw.js:164-175 | five videos of which two cannot be fetched leave exactly three entries in a fresh video cache |
| Properties.SweepIdempotent | sw.js:38-46 | a second sweep deletes nothing more |
| Properties.SweepExample | sw.js:40-44 | an older version's cache is deleted, and the two current caches are kept in their order |

## Left out

- Strategies.NetworkFirst: stores the navigation response, the evidently intended
  behaviour. The handler as written clones the response only after handing it
  over, so the put at sw.js:72-74 is lost for a response with a body. `Strategies.NetworkFirstAsWritten`
  models that (see Findings).
- The browser's checks on the response given to `respondWith` are not modelled. An
  opaque response answering a request whose mode is not no-cors becomes a network
  error. A cors-mode Drive preview is one such case, and so is a cache-first hit on a
  video stored opaque. Navigations to other origins never reach the worker. The
  model states what the worker answers with, not what the page finally sees.
- The fetch options `credentials: 'omit'` (Drive handler) and the default
  credentials of `CACHE_VIDEOS` are not part of the request model. Both no-cors
  fetches of one URL are the same oracle query.

- The browser's `fetch`, Cache API and `Response.clone()` are foreign calls. They are
  replaced by the network oracle and the map-based caches. A response's body is a
  plain value, so clones and consumed bodies do not arise.
- `event.waitUntil`, `event.respondWith`, `self.skipWaiting()` and
  `self.clients.claim()` are runtime lifecycle hooks. A failed installation is
  reported as `ok == false`; discarding the new worker is the browser's business.
- Concurrency between in-flight requests and the puts the worker does not wait for
  is not modelled. Each event runs alone and its puts take effect before it returns.
  The concurrent fetches of `CACHE_VIDEOS` and `addAll` are taken one after the
  other, which gives the same caches because the network oracle is deterministic.
- Logging (`console.log`) has no effect on the model.
- The markup of the Drive fallback page is not modelled. It is a fixed constant
  body, served as `text/html`.
- URL parsing and cache-key normalisation are not modelled: fragments, the request
  method, `Vary` headers, and the relative video URLs of a `CACHE_VIDEOS` message.
  Keys are absolute URLs. The worker's own root-relative paths are resolved as origin
  plus path.
- Refusals by the Cache API are not modelled, except `addAll`'s refusal of statuses
  outside 200-299 and of 206: a put of a 206 response, of a `Vary: *` response or
  of a non-GET request, and `addAll` with duplicate requests. Puts are taken to
  succeed.
- Failures of `caches.open`, of `caches.delete` during the sweep, and messages
  without a data object are not modelled. These are storage or runtime errors that
  the worker does not handle.

## Findings

| source | as written | input that shows it | evidently intended | confidence | as-written member | corrected member |
|---|---|---|---|---|---|---|
| sw.js:72-73 | the navigation branch calls `response.clone()` inside the `caches.open` callback, after `response` was returned to `respondWith`, which locks its body, so `clone()` throws and the put is skipped for every response with a body | a navigation answered with a body from the network on an origin with no caches, then the same navigation offline: nothing is cached, so the page fails | clone before opening the cache, as the cache-first branch does at sw.js:101, so the page is stored | medium, not executed | Strategies.NetworkFirstAsWritten, Properties.NavigationPutLost | Strategies.NetworkFirst, Properties.NetworkFirstThenOffline |
