/** The three ways the worker answers an intercepted request. Each executor
    returns the response the worker answers with together with the caches
    afterwards; the puts the worker does not wait for are applied before
    returning. */
module Strategies {
  import opened Http
  import opened Config
  import opened CacheStorage

  /** The response the worker hands to `respondWith` (`None`: a rejected
      promise or no response, which the page sees as a network error) and the
      caches afterwards. */
  datatype Served = Served(response: Option<Response>, storage: Storage)

  /** The cache-first guard: only a complete same-origin response is stored. */
  predicate Cacheable(r: Response) {
    r.status == 200 && r.kind == Basic
  }

  /** Cache-first, for every request that is neither a Drive preview nor a
      navigation: any cache of the origin wins; on a miss the network answer
      is passed through and stored in the static cache when cacheable. */
  function CacheFirst(st: Storage, req: Request, net: Network): (r: Served)
    ensures Cached(st, req.url) ==> r.response == MatchAll(st, req.url) && r.storage == st
    ensures !Cached(st, req.url) ==> r.response == net(req)
    ensures !Cached(st, req.url) && net(req).Some? && Cacheable(net(req).value) ==>
              PutApplied(r.storage, st, CacheName, req.url, net(req).value)
    ensures Cached(st, req.url) || net(req).None? || !Cacheable(net(req).value) ==> r.storage == st
    ensures Valid(st) ==> Valid(r.storage)
  {
    match MatchAll(st, req.url)
    case Some(cached) => Served(Some(cached), st)
    case None =>
      match net(req)
      case None => Served(None, st)
      case Some(resp) =>
        if Cacheable(resp) then Served(Some(resp), Put(st, CacheName, req.url, resp))
        else Served(Some(resp), st)
  }

  /** What an offline navigation gets: the cached request, else the cached
      root document, else nothing. */
  function OfflineNavigation(st: Storage, req: Request, origin: string): (r: Option<Response>)
    ensures Cached(st, req.url) ==> r == MatchAll(st, req.url)
    ensures !Cached(st, req.url) ==> r == MatchAll(st, Resolve(origin, RootPath))
    ensures r.Some? <==> Cached(st, req.url) || Cached(st, Resolve(origin, RootPath))
  {
    match MatchAll(st, req.url)
    case Some(cached) => Some(cached)
    case None => MatchAll(st, Resolve(origin, RootPath))
  }

  /** Network-first, for navigations: a network answer of any status is
      returned and stored in the static cache; without the network the page
      gets the cached request, else the cached root document, else nothing.
      The stored copy is taken before the cache is opened, as the cache-first
      branch does it. */
  function NetworkFirst(st: Storage, req: Request, net: Network, origin: string): (r: Served)
    ensures net(req).Some? ==> r.response == net(req) && PutApplied(r.storage, st, CacheName, req.url, net(req).value)
    ensures net(req).None? ==> r.storage == st
    ensures net(req).None? && Cached(st, req.url) ==> r.response == MatchAll(st, req.url)
    ensures net(req).None? && !Cached(st, req.url) ==> r.response == MatchAll(st, Resolve(origin, RootPath))
    ensures net(req).None? ==> (r.response.Some? <==> Cached(st, req.url) || Cached(st, Resolve(origin, RootPath)))
    ensures Valid(st) ==> Valid(r.storage)
  {
    match net(req)
    case Some(resp) => Served(Some(resp), Put(st, CacheName, req.url, resp))
    case None => Served(OfflineNavigation(st, req, origin), st)
  }

  /** Network-first as the navigation branch is written: the copy for the cache
      is cloned inside the `caches.open` callback, after the response has been
      handed to `respondWith`, whose reader locks a body that is not null, so
      `clone()` throws. The cache is opened, and only a null-body response
      (which nothing locks) is stored. */
  function NetworkFirstAsWritten(st: Storage, req: Request, net: Network, origin: string): (r: Served)
    ensures net(req).Some? ==> r.response == net(req) && Opened(r.storage, st, CacheName)
    ensures net(req).Some? && !HasNullBody(net(req).value) ==> SameEntries(r.storage, st)
    ensures net(req).Some? && HasNullBody(net(req).value) ==>
              PutApplied(r.storage, st, CacheName, req.url, net(req).value)
    ensures net(req).None? ==> r.response == OfflineNavigation(st, req, origin) && r.storage == st
    ensures Valid(st) ==> Valid(r.storage)
  {
    match net(req)
    case Some(resp) =>
      if HasNullBody(resp) then Served(Some(resp), Put(st, CacheName, req.url, resp))
      else Served(Some(resp), Open(st, CacheName))
    case None => Served(OfflineNavigation(st, req, origin), st)
  }

  /** The fetch the Drive handler makes: the same URL in no-cors mode. The
      `credentials: 'omit'` option is not part of the request model, so this
      fetch and the bulk population's fetch of the same URL are one oracle query. */
  function NoCorsFetch(url: Key): Request {
    Request(url, NoCors)
  }

  /** The Drive preview handler: only the video cache is consulted; a network
      answer is stored there whatever its status or type; without the network
      the fixed unavailability page is served. The page always gets a response. */
  function DrivePreview(st: Storage, req: Request, net: Network): (r: Served)
    ensures r.response.Some?
    ensures Opened(r.storage, st, VideoCacheName)
    ensures req.url in Entries(st, VideoCacheName) ==>
              r.response == Some(Entries(st, VideoCacheName)[req.url]) && SameEntries(r.storage, st)
    ensures req.url !in Entries(st, VideoCacheName) && net(NoCorsFetch(req.url)).Some? ==>
              && r.response == net(NoCorsFetch(req.url))
              && PutApplied(r.storage, st, VideoCacheName, req.url, net(NoCorsFetch(req.url)).value)
    ensures req.url !in Entries(st, VideoCacheName) && net(NoCorsFetch(req.url)).None? ==>
              r.response == Some(UnavailablePage) && SameEntries(r.storage, st)
    ensures Valid(st) ==> Valid(r.storage)
  {
    var withVideo := Open(st, VideoCacheName);
    match MatchIn(Entries(withVideo, VideoCacheName), req.url)
    case Some(cached) => Served(Some(cached), withVideo)
    case None =>
      match net(NoCorsFetch(req.url))
      case Some(resp) => Served(Some(resp), Put(withVideo, VideoCacheName, req.url, resp))
      case None => Served(Some(UnavailablePage), withVideo)
  }
}
