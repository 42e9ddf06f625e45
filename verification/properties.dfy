/** Properties that relate several events of the worker. */
module Properties {
  import opened Http
  import opened Config
  import opened Strings
  import opened CacheStorage
  import opened Strategies
  import opened Lifecycle
  import opened Router

  /** Whether a request goes to the Drive handler depends on its URL alone:
      two requests for one URL in any two modes, a navigation included, are
      routed there alike. */
  lemma DriveRouteIgnoresMode(url: string, m1: Mode, m2: Mode)
    ensures Classify(Request(url, m1)) == MediaPreview <==> Classify(Request(url, m2)) == MediaPreview
  {
  }

  /** `sub` occurs in any string that has it as a middle part. */
  lemma ContainsMiddle(a: string, sub: string, c: string)
    ensures Contains(a + sub + c, sub)
  {
    var s := a + sub + c;
    var slice := s[|a|..|a| + |sub|];
    assert forall k :: 0 <= k < |slice| ==> slice[k] == sub[k];
    assert OccursAt(s, sub, |a|);
  }

  /** An embedded preview URL requested as a navigation is still a Drive
      request; a short same-origin asset URL is a generic asset. */
  lemma ClassifyExamples()
    ensures Classify(Request("https://" + DriveFilePath + "abc" + PreviewPath, Navigate)) == MediaPreview
    ensures Classify(Request("/app.js", SameOrigin)) == GenericAsset
    ensures Classify(Request("/", Navigate)) == NavigationDocument
  {
    var url := "https://" + DriveFilePath + "abc" + PreviewPath;
    ContainsMiddle("https://", DriveFilePath, "abc" + PreviewPath);
    assert "https://" + DriveFilePath + ("abc" + PreviewPath) == url;
    ContainsMiddle("https://" + DriveFilePath + "abc", PreviewPath, "");
    assert "https://" + DriveFilePath + "abc" + PreviewPath + "" == url;
  }

  /** On a cache hit the cache-first strategy does not depend on the network. */
  lemma CacheFirstHitIgnoresNetwork(st: Storage, req: Request, net: Network, other: Network)
    requires Cached(st, req.url)
    ensures CacheFirst(st, req, net) == CacheFirst(st, req, other)
    ensures CacheFirst(st, req, net).response.Some?
  {
  }

  /** A cacheable miss is served from the cache the next time, whatever the
      network does then, and the second request changes nothing. */
  lemma CacheFirstIdempotent(st: Storage, req: Request, net: Network, later: Network)
    requires Valid(st)
    requires !Cached(st, req.url) && net(req).Some? && Cacheable(net(req).value)
    ensures CacheFirst(CacheFirst(st, req, net).storage, req, later) == CacheFirst(st, req, net)
  {
  }

  /** The cache-first guard is the only way into the static cache: when the
      strategy changes the caches at all, it missed and the network answer has
      status 200 and type basic. */
  lemma CacheFirstStoresOnlyCacheable(st: Storage, req: Request, net: Network)
    ensures CacheFirst(st, req, net).storage != st ==>
              !Cached(st, req.url) && net(req).Some? && Cacheable(net(req).value)
  {
  }

  /** A response the guard refuses is not kept: the next request for it goes
      to the network again. */
  lemma CacheFirstRefusedGoesToNetwork(st: Storage, req: Request, net: Network, later: Network)
    requires !Cached(st, req.url) && net(req).Some? && !Cacheable(net(req).value)
    ensures CacheFirst(CacheFirst(st, req, net).storage, req, later).response == later(req)
  {
  }

  /** A navigation that once reached the network is answered from the cache
      when the network is gone; with no other cache holding the URL, the page
      gets exactly the response it was last served. */
  lemma NetworkFirstThenOffline(st: Storage, req: Request, net: Network, offline: Network, origin: string)
    requires Valid(st)
    requires net(req).Some? && offline(req).None?
    ensures NetworkFirst(NetworkFirst(st, req, net, origin).storage, req, offline, origin).response.Some?
    ensures (forall n :: n in st.order && n != CacheName ==> req.url !in Entries(st, n)) ==>
              NetworkFirst(NetworkFirst(st, req, net, origin).storage, req, offline, origin).response == net(req)
  {
  }

  /** The navigation put as written is lost for a response with a body: on a
      fresh origin, a page served from the network is not there when the
      network goes away, while the intended network-first serves it again. */
  lemma NavigationPutLost(req: Request, net: Network, offline: Network, origin: string)
    requires net(req).Some? && !HasNullBody(net(req).value) && offline(req).None?
    ensures NetworkFirstAsWritten(NetworkFirstAsWritten(Storage([], map[]), req, net, origin).storage, req, offline, origin).response == None
    ensures NetworkFirst(NetworkFirst(Storage([], map[]), req, net, origin).storage, req, offline, origin).response == net(req)
  {
  }

  /** After a successful installation and the activation sweep, a navigation
      without network always gets a response: the root document is cached. */
  lemma InstalledAppWorksOffline(st: Storage, net: Network, origin: string, req: Request, offline: Network)
    requires Valid(st)
    requires Install(st, net, origin).ok
    requires offline(req).None?
    ensures NetworkFirst(Sweep(Install(st, net, origin).storage), req, offline, origin).response.Some?
  {
  }

  /** One refused asset, whichever it is, fails the installation, and then
      no entry is added anywhere. */
  lemma FailedInstallStoresNothing(st: Storage, net: Network, origin: string, i: int)
    requires 0 <= i < |StaticAssets|
    requires !AddAllAccepts(net(AddAllFetch(Resolve(origin, StaticAssets[i]))))
    ensures !Install(st, net, origin).ok
    ensures SameEntries(Install(st, net, origin).storage, st)
  {
  }

  /** A fetched Drive preview is replayed from the video cache later, whatever
      the network does then. */
  lemma DrivePreviewReplays(st: Storage, req: Request, net: Network, later: Network)
    requires req.url !in Entries(st, VideoCacheName) && net(NoCorsFetch(req.url)).Some?
    ensures DrivePreview(DrivePreview(st, req, net).storage, req, later).response ==
              DrivePreview(st, req, net).response
  {
  }

  /** Without network and without a cached copy, a Drive preview gets the
      unavailability page, served as HTML with status 200. */
  lemma DriveOfflineFallback(st: Storage, req: Request, offline: Network)
    requires req.url !in Entries(st, VideoCacheName) && offline(NoCorsFetch(req.url)).None?
    ensures DrivePreview(st, req, offline).response.Some?
    ensures DrivePreview(st, req, offline).response.value.contentType == "text/html"
    ensures DrivePreview(st, req, offline).response.value.status == 200
  {
  }

  /** The per-URL fetches of the video population run concurrently; the caches
      afterwards do not depend on the order of the URLs (or on repetitions). */
  lemma CacheVideosOrderIrrelevant(st: Storage, a: seq<Key>, b: seq<Key>, net: Network)
    requires forall u :: u in a <==> u in b
    ensures CacheVideos(st, a, net) == CacheVideos(st, b, net)
  {
    assert Fetched(a, net) == Fetched(b, net);
    var ra := CacheVideos(st, a, net);
    var rb := CacheVideos(st, b, net);
    assert ra.order == Open(st, VideoCacheName).order == rb.order;
    assert Entries(ra, VideoCacheName) == Entries(rb, VideoCacheName);
    assert ra.caches == rb.caches;
  }

  lemma FetchedExample(net: Network)
    requires forall u :: net(Request(u, NoCors)).Some? <==> u != "v2" && u != "v4"
    ensures Fetched(["v1", "v2", "v3", "v4", "v5"], net) == {"v1", "v3", "v5"}
  {
  }

  /** Five videos, two of which cannot be fetched, leave exactly three entries
      in a fresh video cache. */
  lemma CacheVideosExample(net: Network)
    requires forall u :: net(Request(u, NoCors)).Some? <==> u != "v2" && u != "v4"
    ensures |Entries(CacheVideos(Storage([], map[]), ["v1", "v2", "v3", "v4", "v5"], net), VideoCacheName)| == 3
  {
    var r := CacheVideos(Storage([], map[]), ["v1", "v2", "v3", "v4", "v5"], net);
    FetchedExample(net);
    assert Entries(Storage([], map[]), VideoCacheName) == map[];
    assert Entries(r, VideoCacheName).Keys == {"v1", "v3", "v5"};
  }

  /** A second sweep deletes nothing more. */
  lemma SweepIdempotent(st: Storage)
    ensures Sweep(Sweep(st)) == Sweep(st)
  {
    var once := Sweep(st);
    FilterTwice(st.order, IsCurrent, IsCurrent, IsCurrent);
    assert Sweep(once).caches == once.caches;
  }

  /** The caches of an older version are deleted, the current ones kept in
      their order. */
  lemma SweepExample(st: Storage)
    requires st.order == [CacheName, "magic-training-v0", VideoCacheName]
    ensures Sweep(st).order == [CacheName, VideoCacheName]
  {
    var names := st.order;
    assert names[1..][1..][1..] == [];
    assert Filter(names[1..][1..], IsCurrent) == [VideoCacheName];
    assert Filter(names[1..], IsCurrent) == [VideoCacheName];
  }
}
