/** The origin's CacheStorage: named caches of request-keyed responses. */
module CacheStorage {
  import opened Http

  /** One cache: the response stored under each key. */
  type Store = map<Key, Response>

  /** All caches of the origin. `order` lists the names in creation order,
      which is the order `caches.keys()` reports and `caches.match` searches. */
  datatype Storage = Storage(order: seq<string>, caches: map<string, Store>)

  predicate Distinct(s: seq<string>) {
    forall i, j :: 0 <= i < j < |s| ==> s[i] != s[j]
  }

  /** Every name is listed once, and the listed names are the existing caches. */
  ghost predicate Valid(st: Storage) {
    && Distinct(st.order)
    && forall n :: n in st.caches <==> n in st.order
  }

  /** The entries of the named cache; a missing cache has none. */
  function Entries(st: Storage, name: string): Store {
    if name in st.caches then st.caches[name] else map[]
  }

  /** `a` is `b` with some elements left out, the rest in their order. */
  ghost predicate IsSubsequence(a: seq<string>, b: seq<string>)
    decreases |b|
  {
    || |a| == 0
    || (&& |b| > 0
        && ((a[0] == b[0] && IsSubsequence(a[1..], b[1..])) || IsSubsequence(a, b[1..])))
  }

  /** The elements of `s` that `keep` accepts, in their order. */
  function Filter(s: seq<string>, keep: string -> bool): (r: seq<string>)
    ensures forall x :: x in r <==> x in s && keep(x)
    ensures IsSubsequence(r, s)
    ensures |r| <= |s|
  {
    if |s| == 0 then []
    else
      var tail := Filter(s[1..], keep);
      if keep(s[0]) then
        assert ([s[0]] + tail)[1..] == tail;
        [s[0]] + tail
      else tail
  }

  lemma {:induction false} FilterKeepsDistinct(s: seq<string>, keep: string -> bool)
    requires Distinct(s)
    ensures Distinct(Filter(s, keep))
  {
    if |s| > 0 {
      var tail := Filter(s[1..], keep);
      FilterKeepsDistinct(s[1..], keep);
      assert s[0] !in s[1..];
      assert s[0] !in tail;
    }
  }

  /** Filtering twice keeps what both filters keep. */
  lemma {:induction false} FilterTwice(s: seq<string>, p: string -> bool, q: string -> bool, pq: string -> bool)
    requires forall x :: x in s ==> (pq(x) <==> p(x) && q(x))
    ensures Filter(Filter(s, p), q) == Filter(s, pq)
  {
    if |s| > 0 {
      FilterTwice(s[1..], p, q, pq);
      var t := Filter(s[1..], p);
      if p(s[0]) {
        assert Filter(s, p) == [s[0]] + t;
        assert ([s[0]] + t)[1..] == t;
      } else {
        assert Filter(s, p) == t;
      }
    }
  }

  /** A filter that accepts every element changes nothing. */
  lemma {:induction false} FilterKeepsAll(s: seq<string>, keep: string -> bool)
    requires forall x :: x in s ==> keep(x)
    ensures Filter(s, keep) == s
  {
    if |s| > 0 {
      FilterKeepsAll(s[1..], keep);
      assert s == [s[0]] + s[1..];
    }
  }

  /** Filters that agree on the elements of `s` select the same subsequence. */
  lemma {:induction false} FilterAgree(s: seq<string>, p: string -> bool, q: string -> bool)
    requires forall x :: x in s ==> (p(x) <==> q(x))
    ensures Filter(s, p) == Filter(s, q)
  {
    if |s| > 0 {
      FilterAgree(s[1..], p, q);
    }
  }

  /** `after` is `before` with the named cache opened: the same caches, plus
      that one listed last when it was missing. */
  ghost predicate Opened(after: Storage, before: Storage, name: string) {
    && after.order == (if name in before.caches then before.order else before.order + [name])
    && after.caches.Keys == before.caches.Keys + {name}
  }

  /** `caches.open(name)`: the named cache, created empty and listed last when missing. */
  function Open(st: Storage, name: string): (r: Storage)
    ensures Opened(r, st, name)
    ensures forall n :: Entries(r, n) == Entries(st, n)
    ensures name in st.caches ==> r == st
    ensures Valid(st) ==> Valid(r) && name in r.order
  {
    if name in st.caches then st
    else Storage(st.order + [name], st.caches[name := map[]])
  }

  /** Opens the named cache and replaces its entries by `store`. */
  function WithEntries(st: Storage, name: string, store: Store): (r: Storage)
    ensures Entries(r, name) == store
    ensures forall n :: n != name ==> Entries(r, n) == Entries(st, n)
    ensures Opened(r, st, name)
    ensures Valid(st) ==> Valid(r) && name in r.order
  {
    var s := Open(st, name);
    Storage(s.order, s.caches[name := store])
  }

  /** `cache.put(key, resp)` on `caches.open(name)`: one entry of one cache
      is added or overwritten. */
  function Put(st: Storage, name: string, key: Key, resp: Response): (r: Storage)
    ensures key in Entries(r, name) && Entries(r, name)[key] == resp
    ensures forall k :: k != key ==> (k in Entries(r, name) <==> k in Entries(st, name))
    ensures forall k :: k != key && k in Entries(st, name) ==> Entries(r, name)[k] == Entries(st, name)[k]
    ensures forall n :: n != name ==> Entries(r, n) == Entries(st, n)
    ensures Opened(r, st, name)
    ensures Valid(st) ==> Valid(r) && name in r.order
  {
    WithEntries(st, name, Entries(st, name)[key := resp])
  }

  /** `after` is `before` with one entry of one cache added or overwritten. */
  ghost predicate PutApplied(after: Storage, before: Storage, name: string, key: Key, resp: Response) {
    && Opened(after, before, name)
    && Entries(after, name) == Entries(before, name)[key := resp]
    && forall n :: n != name ==> Entries(after, n) == Entries(before, n)
  }

  /** No cache gained, lost or changed an entry. */
  ghost predicate SameEntries(after: Storage, before: Storage) {
    forall n :: Entries(after, n) == Entries(before, n)
  }

  /** The test that keeps every name but `name`. */
  function Other(name: string): string -> bool {
    n => n != name
  }

  /** `caches.delete(name)`: the named cache is gone, all others stay as they are. */
  function Delete(st: Storage, name: string): (r: Storage)
    ensures name !in r.caches && name !in r.order
    ensures IsSubsequence(r.order, st.order)
    ensures forall n :: n != name ==> Entries(r, n) == Entries(st, n)
    ensures forall n :: n != name ==> (n in r.order <==> n in st.order)
    ensures Valid(st) ==> Valid(r)
  {
    var r := Storage(Filter(st.order, Other(name)), st.caches - {name});
    if Distinct(st.order) then FilterKeepsDistinct(st.order, Other(name)); r else r
  }

  /** `cache.match(key)` on one cache. */
  function MatchIn(store: Store, key: Key): (r: Option<Response>)
    ensures r.Some? <==> key in store
    ensures r.Some? ==> r.value == store[key]
  {
    if key in store then Some(store[key]) else None
  }

  /** Some cache of the origin holds `key`. */
  ghost predicate Cached(st: Storage, key: Key) {
    exists i :: 0 <= i < |st.order| && key in Entries(st, st.order[i])
  }

  /** Index in `names` of the first cache holding `key`; `|names|` when none does. */
  function FirstHolder(st: Storage, names: seq<string>, key: Key): (i: nat)
    ensures i <= |names|
    ensures forall j :: 0 <= j < i ==> key !in Entries(st, names[j])
    ensures i < |names| ==> key in Entries(st, names[i])
  {
    if |names| == 0 then 0
    else if key in Entries(st, names[0]) then 0
    else 1 + FirstHolder(st, names[1..], key)
  }

  /** `caches.match(key)`: the entry of the first cache, in creation order,
      that holds `key`. */
  function MatchAll(st: Storage, key: Key): (r: Option<Response>)
    ensures r.Some? <==> Cached(st, key)
    ensures r.Some? ==> exists i :: && 0 <= i < |st.order|
                                    && key in Entries(st, st.order[i])
                                    && r.value == Entries(st, st.order[i])[key]
                                    && forall j :: 0 <= j < i ==> key !in Entries(st, st.order[j])
  {
    var i := FirstHolder(st, st.order, key);
    if i < |st.order| then Some(Entries(st, st.order[i])[key]) else None
  }

  /** When only one listed cache holds `key`, `caches.match` returns its entry. */
  lemma SoleHolder(st: Storage, name: string, key: Key)
    requires name in st.order && key in Entries(st, name)
    requires forall n :: n in st.order && n != name ==> key !in Entries(st, n)
    ensures MatchAll(st, key) == Some(Entries(st, name)[key])
  {
  }
}
