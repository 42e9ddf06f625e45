/** The fetch handler: which executor answers a request. */
module Router {
  import opened Http
  import opened Config
  import opened Strings
  import opened CacheStorage
  import opened Strategies

  /** The routing class of an intercepted request. */
  datatype RoutingClass = MediaPreview | NavigationDocument | GenericAsset

  /** A Google Drive preview URL: it mentions both the Drive file path and the
      preview sub-resource, anywhere and in any order. */
  ghost predicate IsDrivePreviewUrl(url: string) {
    Contains(url, DriveFilePath) && Contains(url, PreviewPath)
  }

  /** The classifier: the Drive test comes first and ignores the mode; then a
      navigation; everything else is a generic asset. */
  function Classify(req: Request): (c: RoutingClass)
    ensures c == MediaPreview <==> IsDrivePreviewUrl(req.url)
    ensures c == NavigationDocument <==> !IsDrivePreviewUrl(req.url) && req.mode == Navigate
    ensures c == GenericAsset <==> !IsDrivePreviewUrl(req.url) && req.mode != Navigate
  {
    IncludesIsContains(req.url, DriveFilePath);
    IncludesIsContains(req.url, PreviewPath);
    if Includes(req.url, DriveFilePath) && Includes(req.url, PreviewPath) then MediaPreview
    else if req.mode == Navigate then NavigationDocument
    else GenericAsset
  }

  /** The fetch event: the classified request handed to its executor. Navigations
      go to the intended network-first, which stores the page; the branch as
      written loses that put for responses with a body (`NetworkFirstAsWritten`). */
  function OnFetch(st: Storage, req: Request, net: Network, origin: string): (r: Served)
    ensures IsDrivePreviewUrl(req.url) ==> r.response.Some?
    ensures IsDrivePreviewUrl(req.url) ==> Entries(r.storage, CacheName) == Entries(st, CacheName)
    ensures !IsDrivePreviewUrl(req.url) ==> Entries(r.storage, VideoCacheName) == Entries(st, VideoCacheName)
    ensures forall n :: !IsCurrent(n) ==> Entries(r.storage, n) == Entries(st, n)
    ensures forall n, k :: k in Entries(st, n) ==> k in Entries(r.storage, n)
    ensures Valid(st) ==> Valid(r.storage)
  {
    match Classify(req)
    case MediaPreview => DrivePreview(st, req, net)
    case NavigationDocument => NetworkFirst(st, req, net, origin)
    case GenericAsset => CacheFirst(st, req, net)
  }
}
