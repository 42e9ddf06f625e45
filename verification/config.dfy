/** The constants the worker is built around. */
module Config {
  import opened Http

  /** Name of the static-assets cache of the current version. */
  const CacheName: string := "magic-training-v1"

  /** Name of the video cache of the current version. */
  const VideoCacheName: string := "magic-training-videos-v1"

  /** The application's root document, the last resort of an offline navigation. */
  const RootPath: string := "/MagicTraining/"

  /** The assets that installation must store, all of them or none. */
  const StaticAssets: seq<string> := [
    RootPath,
    "/MagicTraining/index.html",
    "/MagicTraining/manifest.json",
    "/MagicTraining/icons/icon-152.png",
    "/MagicTraining/icons/icon-192.png",
    "/MagicTraining/icons/icon-512.png"
  ]

  /** The two substrings that together mark a Google Drive preview URL. */
  const DriveFilePath: string := "drive.google.com/file/d/"
  const PreviewPath: string := "/preview"

  /** The action tag of the bulk video population message. */
  const CacheVideosAction: string := "CACHE_VIDEOS"

  /** Stands for the fixed HTML page shown when a Drive video cannot be loaded;
      its markup is not modelled. */
  const UnavailableBody: string := "video-unavailable-page"

  /** The synthesized fallback: a script-built response (status 200, the
      `Response` constructor's default) served as `text/html`. */
  const UnavailablePage: Response := Response(200, Default, "text/html", UnavailableBody)

  /** A cache name that survives activation. */
  predicate IsCurrent(name: string) {
    name == CacheName || name == VideoCacheName
  }

  /** An absolute URL for a root-relative path of the worker's own origin. */
  function Resolve(origin: string, path: string): Key {
    origin + path
  }
}
