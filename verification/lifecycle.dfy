/** Installation, activation and the bulk video population message. */
module Lifecycle {
  import opened Http
  import opened Config
  import opened CacheStorage

  /** How a lifecycle step settled, and the caches afterwards. */
  datatype Settled = Settled(ok: bool, storage: Storage)

  /** `cache.addAll` accepts a fetched response only with an ok status
      (200-299) other than 206 Partial Content. */
  predicate AddAllAccepts(resp: Option<Response>) {
    resp.Some? && 200 <= resp.value.status <= 299 && resp.value.status != 206
  }

  /** The request `cache.addAll` makes for a URL: mode "cors". */
  function AddAllFetch(url: Key): Request {
    Request(url, CrossOrigin)
  }

  /** The absolute URLs of the mandatory assets. */
  function AssetKeys(origin: string): (keys: seq<Key>)
    ensures |keys| == |StaticAssets|
    ensures forall i :: 0 <= i < |keys| ==> keys[i] == Resolve(origin, StaticAssets[i])
  {
    seq(|StaticAssets|, i requires 0 <= i < |StaticAssets| => Resolve(origin, StaticAssets[i]))
  }

  /** `cache.addAll(urls)` on one cache: the store with every response added,
      or `None` as soon as one response is refused. */
  function AddAll(store: Store, urls: seq<Key>, net: Network): Option<Store>
    decreases |urls|
  {
    if |urls| == 0 then Some(store)
    else
      var resp := net(AddAllFetch(urls[0]));
      if AddAllAccepts(resp) then AddAll(store[urls[0] := resp.value], urls[1..], net)
      else None
  }

  /** `addAll` is all or nothing: it succeeds exactly when every response is
      accepted, and then adds exactly those responses. */
  lemma {:induction false} AddAllSpec(store: Store, urls: seq<Key>, net: Network)
    ensures AddAll(store, urls, net).Some? <==>
              forall i :: 0 <= i < |urls| ==> AddAllAccepts(net(AddAllFetch(urls[i])))
    ensures AddAll(store, urls, net).Some? ==>
              var m := AddAll(store, urls, net).value;
              && (forall k :: k in m <==> k in store || k in urls)
              && (forall k :: k in urls ==> m[k] == net(AddAllFetch(k)).value)
              && (forall k :: k in store && k !in urls ==> m[k] == store[k])
    decreases |urls|
  {
    if |urls| > 0 {
      var resp := net(AddAllFetch(urls[0]));
      if AddAllAccepts(resp) {
        AddAllSpec(store[urls[0] := resp.value], urls[1..], net);
        if forall i :: 0 <= i < |urls[1..]| ==> AddAllAccepts(net(AddAllFetch(urls[1..][i]))) {
          forall i | 0 <= i < |urls|
            ensures AddAllAccepts(net(AddAllFetch(urls[i])))
          {
            if i > 0 { assert urls[i] == urls[1..][i - 1]; }
          }
        }
        forall k ensures k in urls <==> k == urls[0] || k in urls[1..] {
          assert urls == [urls[0]] + urls[1..];
        }
      } else {
        assert !AddAllAccepts(net(AddAllFetch(urls[0])));
      }
    }
  }

  /** The install handler: opens the static cache, then stores every
      mandatory asset, or none of them when one fetch fails or is refused. */
  function Install(st: Storage, net: Network, origin: string): (r: Settled)
    ensures r.ok <==> forall i :: 0 <= i < |StaticAssets| ==>
                        AddAllAccepts(net(AddAllFetch(Resolve(origin, StaticAssets[i]))))
    ensures r.ok ==> forall i :: 0 <= i < |StaticAssets| ==>
                       var k := Resolve(origin, StaticAssets[i]);
                       k in Entries(r.storage, CacheName) &&
                       Entries(r.storage, CacheName)[k] == net(AddAllFetch(k)).value
    ensures r.ok ==> forall k :: k in Entries(r.storage, CacheName) && k !in AssetKeys(origin) ==>
                       k in Entries(st, CacheName) && Entries(r.storage, CacheName)[k] == Entries(st, CacheName)[k]
    ensures r.ok ==> forall k :: k in Entries(st, CacheName) && k !in AssetKeys(origin) ==>
                       k in Entries(r.storage, CacheName) && Entries(r.storage, CacheName)[k] == Entries(st, CacheName)[k]
    ensures !r.ok ==> SameEntries(r.storage, st)
    ensures forall n :: n != CacheName ==> Entries(r.storage, n) == Entries(st, n)
    ensures Opened(r.storage, st, CacheName)
    ensures Valid(st) ==> Valid(r.storage)
  {
    var withStatic := Open(st, CacheName);
    var keys := AssetKeys(origin);
    AddAllSpec(Entries(withStatic, CacheName), keys, net);
    match AddAll(Entries(withStatic, CacheName), keys, net)
    case Some(store) =>
      assert forall i :: 0 <= i < |StaticAssets| ==> keys[i] in keys;
      Settled(true, WithEntries(withStatic, CacheName, store))
    case None => Settled(false, withStatic)
  }

  /** The activation sweep, stated at once: every listed cache that is not
      current is gone, and the rest keep their place in the creation order. */
  function Sweep(st: Storage): (r: Storage)
    ensures forall n :: n in r.order <==> n in st.order && IsCurrent(n)
    ensures IsSubsequence(r.order, st.order)
    ensures forall n :: n in r.caches ==> n in st.caches && r.caches[n] == st.caches[n]
    ensures forall n :: n in st.caches && IsCurrent(n) ==> n in r.caches
    ensures Valid(st) ==> Valid(r) && forall n :: n in r.caches <==> n in st.caches && IsCurrent(n)
    ensures |st.order| == 0 ==> r == st
  {
    var r := Storage(Filter(st.order, IsCurrent),
                     map n | n in st.caches && (IsCurrent(n) || n !in st.order) :: st.caches[n]);
    if Distinct(st.order) then FilterKeepsDistinct(st.order, IsCurrent); r else r
  }

  /** A name the sweep keeps once it has visited the names in `visited`. */
  predicate Survives(visited: seq<string>, name: string) {
    IsCurrent(name) || name !in visited
  }

  /** The test that keeps what survives `visited`. */
  function SurvivesAll(visited: seq<string>): string -> bool {
    n => Survives(visited, n)
  }

  /** The caches left after deleting the stale names among `visited`. */
  function Survivors(st: Storage, visited: seq<string>): Storage {
    Storage(Filter(st.order, SurvivesAll(visited)),
            map n | n in st.caches && Survives(visited, n) :: st.caches[n])
  }

  lemma SurvivorsNone(st: Storage)
    ensures Survivors(st, []) == st
  {
    FilterKeepsAll(st.order, SurvivesAll([]));
  }

  lemma SurvivorsStepOrder(st: Storage, visited: seq<string>, name: string)
    ensures Filter(st.order, SurvivesAll(visited + [name])) ==
              if IsCurrent(name) then Filter(st.order, SurvivesAll(visited))
              else Filter(Filter(st.order, SurvivesAll(visited)), Other(name))
  {
    if IsCurrent(name) {
      FilterAgree(st.order, SurvivesAll(visited), SurvivesAll(visited + [name]));
    } else {
      FilterTwice(st.order, SurvivesAll(visited), Other(name), SurvivesAll(visited + [name]));
    }
  }

  lemma SurvivorsStepCaches(st: Storage, visited: seq<string>, name: string)
    ensures Survivors(st, visited + [name]).caches ==
              if IsCurrent(name) then Survivors(st, visited).caches
              else Survivors(st, visited).caches - {name}
  {
  }

  /** Visiting one more name deletes it exactly when it is stale. */
  lemma SurvivorsStep(st: Storage, visited: seq<string>, name: string)
    ensures Survivors(st, visited + [name]) ==
              if IsCurrent(name) then Survivors(st, visited) else Delete(Survivors(st, visited), name)
  {
    SurvivorsStepOrder(st, visited, name);
    SurvivorsStepCaches(st, visited, name);
  }

  /** One turn of the activation loop keeps `r` equal to the survivors of
      the names visited so far. */
  lemma ActivateStep(st: Storage, names: seq<string>, i: nat, r: Storage)
    requires i < |names| && r == Survivors(st, names[..i])
    ensures (if IsCurrent(names[i]) then r else Delete(r, names[i])) == Survivors(st, names[..i + 1])
  {
    assert names[..i + 1] == names[..i] + [names[i]];
    SurvivorsStep(st, names[..i], names[i]);
  }

  /** Having visited every listed name leaves what the sweep leaves. */
  lemma SurvivorsAll(st: Storage)
    ensures Survivors(st, st.order) == Sweep(st)
  {
    FilterAgree(st.order, SurvivesAll(st.order), IsCurrent);
  }

  /** The activate handler: walks `caches.keys()` and deletes each name that
      is neither current cache name. */
  method Activate(st: Storage) returns (r: Storage)
    ensures r == Sweep(st)
  {
    var names := st.order;
    r := st;
    var i := 0;
    SurvivorsNone(st);
    while i < |names|
      invariant 0 <= i <= |names|
      invariant r == Survivors(st, names[..i])
    {
      var name := names[i];
      ActivateStep(st, names, i, r);
      if !IsCurrent(name) {
        r := Delete(r, name);
      }
      i := i + 1;
    }
    assert names[..i] == st.order;
    SurvivorsAll(st);
  }

  /** The URLs of `urls` whose no-cors fetch settles with a response. */
  ghost function Fetched(urls: seq<Key>, net: Network): set<Key> {
    set u | u in urls && net(Request(u, NoCors)).Some?
  }

  /** The per-URL fetch-then-put of the video population, one URL after the
      other; a rejected fetch is skipped. */
  function Populate(store: Store, urls: seq<Key>, net: Network): Store
    decreases |urls|
  {
    if |urls| == 0 then store
    else
      var resp := net(Request(urls[0], NoCors));
      Populate(if resp.Some? then store[urls[0] := resp.value] else store, urls[1..], net)
  }

  /** Population adds exactly the URLs that fetched, with their responses,
      and keeps every other entry. */
  lemma {:induction false} PopulateSpec(store: Store, urls: seq<Key>, net: Network)
    ensures forall k :: k in Populate(store, urls, net) <==> k in store || k in Fetched(urls, net)
    ensures forall k :: k in Fetched(urls, net) ==> Populate(store, urls, net)[k] == net(Request(k, NoCors)).value
    ensures forall k :: k in store && k !in Fetched(urls, net) ==> Populate(store, urls, net)[k] == store[k]
    decreases |urls|
  {
    if |urls| > 0 {
      var resp := net(Request(urls[0], NoCors));
      var next := if resp.Some? then store[urls[0] := resp.value] else store;
      PopulateSpec(next, urls[1..], net);
      assert urls == [urls[0]] + urls[1..];
      assert Fetched(urls, net) == (if resp.Some? then {urls[0]} else {}) + Fetched(urls[1..], net);
    }
  }

  /** The `CACHE_VIDEOS` message: the video cache keeps its entries and gains
      exactly the URLs whose fetch succeeded; failures are skipped, so the
      population always completes. */
  function CacheVideos(st: Storage, urls: seq<Key>, net: Network): (r: Storage)
    ensures forall k :: k in Entries(r, VideoCacheName) <==>
              k in Entries(st, VideoCacheName) || k in Fetched(urls, net)
    ensures forall k :: k in Fetched(urls, net) ==>
              Entries(r, VideoCacheName)[k] == net(Request(k, NoCors)).value
    ensures forall k :: k in Entries(st, VideoCacheName) && k !in Fetched(urls, net) ==>
              Entries(r, VideoCacheName)[k] == Entries(st, VideoCacheName)[k]
    ensures forall n :: n != VideoCacheName ==> Entries(r, n) == Entries(st, n)
    ensures Opened(r, st, VideoCacheName)
    ensures Valid(st) ==> Valid(r)
  {
    var withVideo := Open(st, VideoCacheName);
    PopulateSpec(Entries(withVideo, VideoCacheName), urls, net);
    WithEntries(withVideo, VideoCacheName, Populate(Entries(withVideo, VideoCacheName), urls, net))
  }

  /** A message to the worker: an action tag and, for population, the URLs. */
  datatype Message = Message(action: string, videos: seq<Key>)

  /** The message handler: only `CACHE_VIDEOS` does anything. */
  function OnMessage(st: Storage, msg: Message, net: Network): (r: Storage)
    ensures msg.action != CacheVideosAction ==> r == st
    ensures msg.action == CacheVideosAction ==>
              forall k :: k in Entries(r, VideoCacheName) <==>
                k in Entries(st, VideoCacheName) || k in Fetched(msg.videos, net)
    ensures forall n :: n != VideoCacheName ==> Entries(r, n) == Entries(st, n)
    ensures Valid(st) ==> Valid(r)
  {
    if msg.action == CacheVideosAction then CacheVideos(st, msg.videos, net) else st
  }
}
