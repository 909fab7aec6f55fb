/** The offline cache controller (mysite/static/js/sw.js): install, activate and fetch
    handlers acting on the browser's Cache Storage. */
module ServiceWorker {
  import opened Seqs
  import opened Strings

  /** The one cache generation this version of the worker keeps. */
  const CacheName: string := "mate-cache-v11"

  /** The app shell stored on install. */
  const StaticAssets: seq<string> := [
    "/",
    "/journal",
    "/projects",
    "/about",
    "/resources",
    "/static/css/style.css",
    "/static/js/script.js",
    "/static/js/storage.js",
    "/static/js/browser.js",
    "/static/js/thirdparty.js",
    "/static/images/1.png",
    "/static/images/temp.webp",
    "/manifest.json"
  ]

  /** An intercepted request. `url` is the cache key, written origin-relative, and
      `pathname` is `new URL(url).pathname`, its path without query or fragment;
      `accept` is the Accept header, which the page's requests always carry. */
  datatype Request = Request(httpMethod: string, url: string, pathname: string, accept: string)

  datatype Response = Response(status: int, body: string)

  predicate Ok(r: Response) {
    200 <= r.status <= 299
  }

  /** A response the Cache API agrees to store: `cache.put` throws on, and
      `cache.addAll` rejects, a partial (206) response. */
  predicate Storable(r: Response) {
    r.status != 206
  }

  /** How a network fetch ended: rejected, or resolved with some response
      (HTTP error statuses included). */
  datatype NetResult = NetworkError | Fetched(response: Response)

  /** One cache generation: URL to stored response. */
  type Cache = map<string, Response>

  // ---------------------------------------------------------------------------
  // Routing

  /** The routing test of the fetch handler (sw.js:48): a request goes to the network
      first exactly when 'text/html' occurs somewhere in its Accept header or its
      pathname starts with '/api/'; every other request is served cache-first. */
  predicate NetworkFirst(req: Request): (b: bool)
    ensures b <==>
      (exists i :: OccursAt(req.accept, "text/html", i)) ||
      (|req.pathname| >= 5 && req.pathname[..4] == "/api" && req.pathname[4] == '/')
  {
    ContainsAt(req.accept, "text/html");
    assert |req.pathname| >= 5 ==> req.pathname[..5] == req.pathname[..4] + [req.pathname[4]];
    Contains(req.accept, "text/html") || StartsWith(req.pathname, "/api/")
  }

  // ---------------------------------------------------------------------------
  // Cache Storage

  /** `caches.match`'s search: the first generation, in creation order, holding `url`. */
  function FirstHit(names: seq<string>, caches: map<string, Cache>, url: string): (r: Option<Response>)
    ensures r.Some? ==> exists n :: n in names && n in caches && url in caches[n] && caches[n][url] == r.value
    ensures r.Some? ==> exists i ::
      && 0 <= i < |names| && names[i] in caches && url in caches[names[i]]
      && r.value == caches[names[i]][url]
      && forall j :: 0 <= j < i ==> !(names[j] in caches && url in caches[names[j]])
    ensures r.None? ==> forall n :: n in names && n in caches ==> url !in caches[n]
  {
    if names == [] then None
    else if names[0] in caches && url in caches[names[0]] then Some(caches[names[0]][url])
    else
      var rest := FirstHit(names[1..], caches, url);
      assert rest.Some? ==> exists i ::
        && 1 <= i < |names| && names[i] in caches && url in caches[names[i]]
        && rest.value == caches[names[i]][url]
        && forall j :: 0 <= j < i ==> !(names[j] in caches && url in caches[names[j]])
      by {
        if rest.Some? {
          var k :| 0 <= k < |names| - 1 && names[1..][k] in caches && url in caches[names[1..][k]]
            && rest.value == caches[names[1..][k]][url]
            && forall j :: 0 <= j < k ==> !(names[1..][j] in caches && url in caches[names[1..][j]]);
          MissesShift(names, caches, url, k);
        }
      }
      rest
  }

  /** A generation before the first hit of `names[1..]` misses `url` in `names` too, when
      `names[0]` misses it. */
  lemma MissesShift(names: seq<string>, caches: map<string, Cache>, url: string, k: int)
    requires 0 <= k < |names| - 1 && !(names[0] in caches && url in caches[names[0]])
    requires forall j :: 0 <= j < k ==> !(names[1..][j] in caches && url in caches[names[1..][j]])
    ensures forall j :: 0 <= j < k + 1 ==> !(names[j] in caches && url in caches[names[j]])
  {
    assert forall j :: 1 <= j < k + 1 ==> names[j] == names[1..][j - 1];
  }

  /** Conversely, the generation `caches.match` answers from is determined: if `names[i]`
      is the first generation holding `url`, its copy is the answer, even when a later
      generation holds a different response for the same URL. */
  lemma {:induction false} FirstHitIsFirst(names: seq<string>, caches: map<string, Cache>, url: string, i: int)
    requires 0 <= i < |names| && names[i] in caches && url in caches[names[i]]
    requires forall j :: 0 <= j < i ==> !(names[j] in caches && url in caches[names[j]])
    ensures FirstHit(names, caches, url) == Some(caches[names[i]][url])
  {
    if i > 0 {
      assert forall j :: 0 <= j < i - 1 ==> names[1..][j] == names[j + 1];
      FirstHitIsFirst(names[1..], caches, url, i - 1);
    }
  }

  /** The cache `caches.open(CacheName)` yields: the existing one, or a new empty one. */
  function OpenedCache(caches: map<string, Cache>): Cache {
    if CacheName in caches then caches[CacheName] else map[]
  }

  /** `cache.put(request, response)`: the Cache API stores only GET requests and only
      storable responses (otherwise the put promise rejects and nothing is stored). */
  function PutInto(c: Cache, req: Request, resp: Response): Cache {
    if req.httpMethod == "GET" && Storable(resp) then c[req.url := resp] else c
  }

  /** The generation names after `caches.open(CacheName)`. */
  function OpenedNames(names: seq<string>, caches: map<string, Cache>): seq<string> {
    if CacheName in caches then names else names + [CacheName]
  }

  /** `cache.addAll(urls)` succeeds only if every fetch resolved with an ok response
      that is not partial. */
  predicate AllOk(results: seq<NetResult>) {
    forall i :: 0 <= i < |results| ==> results[i].Fetched? && Ok(results[i].response) && Storable(results[i].response)
  }

  /** What a successful `cache.addAll(urls)` stores, all at once. */
  function Batch(urls: seq<string>, results: seq<NetResult>): (b: Cache)
    requires |urls| == |results| && AllOk(results)
    ensures b.Keys == set u | u in urls
    ensures NoDups(urls) ==> forall i :: 0 <= i < |urls| ==> b[urls[i]] == results[i].response
  {
    if urls == [] then map[]
    else
      var rest := Batch(urls[1..], results[1..]);
      assert forall u :: u in urls <==> u == urls[0] || u in urls[1..];
      assert NoDups(urls) ==> NoDups(urls[1..]) && forall i :: 1 <= i < |urls| ==> urls[i] != urls[0];
      rest[urls[0] := results[0].response]
  }

  lemma BatchCovers(c: Cache, urls: seq<string>, results: seq<NetResult>)
    requires |urls| == |results| && AllOk(results)
    ensures forall u :: u in urls ==> u in c + Batch(urls, results)
  {
  }

  /** The key `caches.delete(name)` filters the name list by: the name itself. */
  function NameOf(n: string): string {
    n
  }

  /** The key the purge filters by: `RemoveKey(names, IsCurrent, false)` drops every
      name that is not CacheName, so CacheName is the only one kept. */
  function IsCurrent(n: string): bool {
    n == CacheName
  }

  /** The generation names the activate handler leaves: every name but CacheName is
      deleted. */
  function Purged(names: seq<string>): (r: seq<string>)
    ensures forall n :: n in r ==> n == CacheName
    ensures CacheName in names <==> CacheName in r
  {
    RemoveKey(names, IsCurrent, false)
  }

  /** Running the purge a second time deletes nothing more. */
  lemma PurgeIdempotent(names: seq<string>)
    ensures Purged(Purged(names)) == Purged(names)
  {
    RemoveKeyAbsent(Purged(names), IsCurrent, false);
  }

  /** With distinct names, at most one generation survives activation. */
  lemma {:induction false} PurgedAtMostOne(names: seq<string>)
    requires NoDups(names)
    ensures Purged(names) == [] || Purged(names) == [CacheName]
  {
    if names != [] {
      assert NoDups(names[1..]);
      PurgedAtMostOne(names[1..]);
      if names[0] == CacheName {
        assert forall i :: 1 <= i < |names| ==> names[i] != CacheName;
        assert CacheName !in names[1..];
        assert Purged(names[1..]) == [];
      }
    }
  }

  /** The browser's Cache Storage for this origin. */
  class CacheStorage {
    var names: seq<string>             // caches.keys(), in creation order
    var caches: map<string, Cache>

    ghost predicate Valid()
      reads this
    {
      (forall n :: n in names <==> n in caches) && NoDups(names)
    }

    constructor ()
      ensures Valid() && names == [] && caches == map[]
    {
      names := [];
      caches := map[];
    }

    /** `caches.match(request)`: non-GET requests never match. */
    function Match(req: Request): (r: Option<Response>)
      reads this
      ensures req.httpMethod != "GET" ==> r.None?
      ensures r.Some? <==> req.httpMethod == "GET" && exists n :: n in names && n in caches && req.url in caches[n]
      ensures r.Some? ==> exists i ::
        && 0 <= i < |names| && names[i] in caches && req.url in caches[names[i]]
        && r.value == caches[names[i]][req.url]
        && forall j :: 0 <= j < i ==> !(names[j] in caches && req.url in caches[names[j]])
    {
      if req.httpMethod != "GET" then None else FirstHit(names, caches, req.url)
    }

    /** `caches.open(name)`: creates the generation if it does not exist yet. */
    method Open(name: string)
      requires Valid()
      modifies this
      ensures Valid()
      ensures name in old(caches) ==> names == old(names) && caches == old(caches)
      ensures name !in old(caches) ==> names == old(names) + [name] && caches == old(caches)[name := map[]]
    {
      if name !in caches {
        names := names + [name];
        caches := caches[name := map[]];
      }
    }

    /** `cache.put(request, response)` on an opened generation. */
    method Put(name: string, req: Request, resp: Response)
      requires Valid() && name in caches
      modifies this
      ensures Valid() && names == old(names)
      ensures caches == old(caches)[name := PutInto(old(caches)[name], req, resp)]
    {
      caches := caches[name := PutInto(caches[name], req, resp)];
    }

    /** `cache.addAll(urls)`: stores every response, or nothing at all. */
    method AddAll(name: string, urls: seq<string>, results: seq<NetResult>) returns (ok: bool)
      requires Valid() && name in caches && |urls| == |results|
      modifies this
      ensures Valid() && names == old(names)
      ensures ok == AllOk(results)
      ensures ok ==> caches == old(caches)[name := old(caches)[name] + Batch(urls, results)]
      ensures !ok ==> caches == old(caches)
    {
      ok := AllOk(results);
      if ok {
        caches := caches[name := caches[name] + Batch(urls, results)];
      }
    }

    /** `caches.delete(name)` */
    method Delete(name: string) returns (deleted: bool)
      requires Valid()
      modifies this
      ensures Valid()
      ensures deleted == (name in old(caches))
      ensures names == RemoveKey(old(names), NameOf, name)
      ensures caches == old(caches) - {name}
    {
      deleted := name in caches;
      ghost var before := names;
      names := RemoveKey(names, NameOf, name);
      caches := caches - {name};
      RemoveKeySubsequence(before, NameOf, name);
      SubsequenceNoDups(names, before);
    }
  }

  lemma {:induction false} SubsequenceNoDups(r: seq<string>, s: seq<string>)
    requires Subsequence(r, s) && NoDups(s)
    ensures NoDups(r)
  {
    if r != [] && s != [] {
      assert NoDups(s[1..]);
      if r[0] == s[0] && Subsequence(r[1..], s[1..]) {
        SubsequenceNoDups(r[1..], s[1..]);
        SubsequenceMembers(r[1..], s[1..]);
        forall i, j | 0 <= i < j < |r| ensures r[i] != r[j] {
          if i == 0 {
            assert r[j] in r[1..];
            assert forall k :: 1 <= k < |s| ==> s[k] != s[0];
          } else {
            assert r[i] == r[1..][i - 1] && r[j] == r[1..][j - 1];
          }
        }
      } else {
        SubsequenceNoDups(r, s[1..]);
      }
    }
  }

  lemma {:induction false} SubsequenceMembers(r: seq<string>, s: seq<string>)
    requires Subsequence(r, s)
    ensures forall x :: x in r ==> x in s
  {
    if r != [] && s != [] {
      if r[0] == s[0] && Subsequence(r[1..], s[1..]) {
        SubsequenceMembers(r[1..], s[1..]);
        assert forall x :: x in r ==> x == r[0] || x in r[1..];
      } else {
        SubsequenceMembers(r, s[1..]);
      }
    }
  }

  // ---------------------------------------------------------------------------
  // The three event handlers

  /** 'install': open CacheName, then store the whole manifest in one addAll. A failed
      asset leaves every generation's contents as they were; only the open's effect of
      creating an empty CacheName remains. */
  method Install(cs: CacheStorage, results: seq<NetResult>) returns (installed: bool)
    requires cs.Valid() && |results| == |StaticAssets|
    modifies cs
    ensures cs.Valid()
    ensures installed == AllOk(results)
    ensures cs.names == OpenedNames(old(cs.names), old(cs.caches))
    ensures installed ==>
      cs.caches == old(cs.caches)[CacheName := OpenedCache(old(cs.caches)) + Batch(StaticAssets, results)]
    ensures !installed ==> cs.caches == old(cs.caches)[CacheName := OpenedCache(old(cs.caches))]
  {
    ghost var shell := OpenedCache(cs.caches);
    cs.Open(CacheName);
    assert cs.caches == old(cs.caches)[CacheName := shell];
    installed := cs.AddAll(CacheName, StaticAssets, results);
  }

  /** 'activate': delete every generation whose name is not CacheName. */
  method Activate(cs: CacheStorage)
    requires cs.Valid()
    modifies cs
    ensures cs.Valid()
    ensures cs.names == Purged(old(cs.names))
    ensures forall n :: n in cs.caches ==> n == CacheName
    ensures forall n :: n in cs.caches ==> n in old(cs.caches) && cs.caches[n] == old(cs.caches)[n]
    ensures CacheName in old(cs.caches) ==> CacheName in cs.caches
  {
    var keyList := cs.names;
    var i := 0;
    while i < |keyList|
      invariant 0 <= i <= |keyList|
      invariant cs.Valid() && NoDups(keyList)
      invariant cs.names == Purged(keyList[..i]) + keyList[i..]
      invariant forall n :: n in cs.caches ==> n in old(cs.caches) && cs.caches[n] == old(cs.caches)[n]
    {
      PurgeOne(cs, keyList, i);
      i := i + 1;
    }
    assert keyList[..|keyList|] == keyList;
    forall n | n in cs.caches ensures n == CacheName {
      assert n in Purged(keyList);
    }
  }

  /** The body of the activate loop: delete `keyList[i]` unless it is CacheName. */
  method PurgeOne(cs: CacheStorage, keyList: seq<string>, i: int)
    requires 0 <= i < |keyList| && NoDups(keyList)
    requires cs.Valid() && cs.names == Purged(keyList[..i]) + keyList[i..]
    modifies cs
    ensures cs.Valid() && cs.names == Purged(keyList[..i + 1]) + keyList[i + 1..]
    ensures forall n :: n in cs.caches ==> n in old(cs.caches) && cs.caches[n] == old(cs.caches)[n]
  {
    var key := keyList[i];
    ghost var after := PurgeStep(keyList, i, cs.names);
    if key != CacheName {
      var _ := cs.Delete(key);
    }
  }

  /** One step of the activate loop: deleting `keyList[i]` (unless it is CacheName)
      from the names already purged up to `i` extends the purge by one. */
  lemma PurgeStep(keyList: seq<string>, i: int, before: seq<string>) returns (after: seq<string>)
    requires 0 <= i < |keyList| && NoDups(keyList)
    requires before == Purged(keyList[..i]) + keyList[i..]
    ensures after == Purged(keyList[..i + 1]) + keyList[i + 1..]
    ensures keyList[i] == CacheName ==> after == before
    ensures keyList[i] != CacheName ==> after == RemoveKey(before, NameOf, keyList[i])
  {
    var key := keyList[i];
    var kept := Purged(keyList[..i]);
    var later := keyList[i + 1..];
    assert keyList[i..] == [key] + later;
    assert keyList[..i + 1] == keyList[..i] + [key];
    PurgedSnoc(keyList[..i], key);
    NoDupsAt(keyList, i);
    if key != CacheName {
      RemoveFresh(kept, key, later);
    } else {
      assert kept + [key] + later == kept + ([key] + later);
    }
    after := Purged(keyList[..i + 1]) + later;
  }

  /** Purging a name list extended by one name purges that name on its own. */
  lemma PurgedSnoc(a: seq<string>, key: string)
    ensures key == CacheName ==> Purged(a + [key]) == Purged(a) + [key]
    ensures key != CacheName ==> Purged(a + [key]) == Purged(a)
  {
    RemoveKeyAppend(a, [key], IsCurrent, false);
    assert RemoveKey([key], IsCurrent, false) == if key == CacheName then [key] else [];
  }

  /** In a list without duplicates, the name at `i` occurs neither before nor after `i`. */
  lemma NoDupsAt(s: seq<string>, i: int)
    requires NoDups(s) && 0 <= i < |s|
    ensures s[i] !in s[..i] && s[i] !in s[i + 1..]
  {
    assert forall j :: 0 <= j < i ==> s[..i][j] != s[i];
    var t := s[i + 1..];
    assert forall j :: 0 <= j < |t| ==> t[j] == s[i + 1 + j];
  }

  /** Deleting a name that occurs once, between `kept` and `later`, removes just it. */
  lemma RemoveFresh(kept: seq<string>, key: string, later: seq<string>)
    requires key !in kept && key !in later
    ensures RemoveKey(kept + ([key] + later), NameOf, key) == kept + later
  {
    RemoveKeyAppend(kept, [key] + later, NameOf, key);
    RemoveKeyAppend([key], later, NameOf, key);
    RemoveKeyAbsent(kept, NameOf, key);
    RemoveKeyAbsent(later, NameOf, key);
  }

  /** 'fetch': network-first for HTML and API requests, cache-first otherwise.
      `net` is how the network fetch would end; `usedNetwork` says whether it was made.
      A result of None is a failed response (a rejected fetch, or nothing cached). */
  method HandleFetch(cs: CacheStorage, req: Request, net: NetResult)
    returns (res: Option<Response>, usedNetwork: bool)
    requires cs.Valid()
    modifies cs
    ensures cs.Valid()
    ensures usedNetwork == (NetworkFirst(req) || old(cs.Match(req)).None?)
    ensures NetworkFirst(req) && net.Fetched? ==>
      && res == Some(net.response)
      && cs.names == OpenedNames(old(cs.names), old(cs.caches))
      && cs.caches == old(cs.caches)[CacheName := PutInto(OpenedCache(old(cs.caches)), req, net.response)]
    ensures NetworkFirst(req) && net.NetworkError? ==>
      res == old(cs.Match(req)) && cs.names == old(cs.names) && cs.caches == old(cs.caches)
    ensures !NetworkFirst(req) ==> cs.names == old(cs.names) && cs.caches == old(cs.caches)
    ensures !NetworkFirst(req) && old(cs.Match(req)).Some? ==> res == old(cs.Match(req))
    ensures !NetworkFirst(req) && old(cs.Match(req)).None? ==>
      res == (if net.Fetched? then Some(net.response) else None)
  {
    if NetworkFirst(req) {
      usedNetwork := true;
      match net
      case Fetched(response) =>
        cs.Open(CacheName);
        cs.Put(CacheName, req, response);
        res := Some(response);
      case NetworkError =>
        res := cs.Match(req);
    } else {
      var cached := cs.Match(req);
      if cached.Some? {
        usedNetwork := false;
        res := cached;
      } else {
        usedNetwork := true;
        res := if net.Fetched? then Some(net.response) else None;
      }
    }
  }

  /** After a successful install, a cache-first GET for a manifest path is answered
      from the cache, with no network request. */
  method OfflineAfterInstall(cs: CacheStorage, results: seq<NetResult>, req: Request, net: NetResult)
    returns (res: Option<Response>, usedNetwork: bool)
    requires cs.Valid() && |results| == |StaticAssets| && AllOk(results)
    requires req.httpMethod == "GET" && req.url in StaticAssets && !NetworkFirst(req)
    modifies cs
    ensures !usedNetwork && res.Some?
  {
    ghost var shell := OpenedCache(cs.caches);
    var installed := Install(cs, results);
    BatchCovers(shell, StaticAssets, results);
    assert CacheName in cs.names && req.url in cs.caches[CacheName];
    res, usedNetwork := HandleFetch(cs, req, net);
  }

  /** A page or API GET fetched once over the network is still answered after the
      network goes away, unless the response was a partial one the cache refused. */
  method OfflineAfterNetworkFirst(cs: CacheStorage, req: Request, response: Response)
    returns (res: Option<Response>, usedNetwork: bool)
    requires cs.Valid() && req.httpMethod == "GET" && NetworkFirst(req)
    modifies cs
    ensures usedNetwork
    ensures Storable(response) ==> res.Some?
  {
    var first, _ := HandleFetch(cs, req, Fetched(response));
    if Storable(response) {
      assert CacheName in cs.names && req.url in cs.caches[CacheName];
    }
    res, usedNetwork := HandleFetch(cs, req, NetworkError);
  }

  lemma StaticAssetsDistinct()
    ensures NoDups(StaticAssets)
  {
  }
}
