/**
 * The offline-caching service worker: its version tag and app-shell list, and
 * its four event handlers (install, activate, fetch, message) as methods of a
 * worker object over an injected cache storage. Each handler runs as one
 * sequential step; network outcomes are parameters.
 */
module ServiceWorker {
  import opened Wrappers
  import opened Http
  import opened Cache
  import opened Storage

  /** The current cache generation. */
  const CacheName: string := "pwa-playground-v3"

  /** The application shell seeded at install, in order. */
  const Assets: seq<string> := ["./", "./index.html", "./style.css", "./app.js?v=5", "./manifest.json", "./icons/icon.svg"]

  /** No path is listed twice in the shell, so seeding an empty cache lists exactly these URLs. */
  lemma AssetsDistinct()
    ensures Distinct(Assets)
  {
  }

  /**
   * A successful seeding makes every shell path answer with what the network
   * delivered for it; seeding a new cache lists exactly the shell, in order.
   */
  lemma SeedingStoresShell(entries: seq<Entry>, assets: seq<string>, net: string -> NetResult)
    requires Distinct(assets)
    requires forall a :: a in assets ==> Fetchable(net(a))
    ensures forall a :: a in assets ==> Cache.Match(PutAll(entries, assets, net), a) == Some(Delivered(net(a)))
    ensures entries == [] ==> Urls(PutAll(entries, assets, net)) == assets
  {
    forall a | a in assets
      ensures Cache.Match(PutAll(entries, assets, net), a) == Some(Delivered(net(a)))
    {
      PutAllMatch(entries, assets, net, a);
    }
    if entries == [] {
      PutAllUrls(entries, assets, net);
    }
  }

  /** The shell entry point served to a navigation the network cannot answer. */
  const ShellEntry: string := "./index.html"

  /** The two control-channel commands. */
  const ListCommand: string := "GET_CACHE_CONTENTS"
  const ClearCommand: string := "CLEAR_CACHE"

  /** What the fetch handler does with a request: leave it to the browser, or answer it (possibly with nothing). */
  datatype FetchOutcome = NotIntercepted | Respond(response: Option<Response>)

  /** The message posted back on the reply port. */
  datatype Reply = CacheContents(urls: seq<string>) | Cleared(success: bool)

  /** Every cache other than the current generation is as it was, and none appeared or vanished. */
  ghost predicate OthersUnchanged(name: string, before: map<string, seq<Entry>>, after: map<string, seq<Entry>>) {
    forall n :: n != name ==> (n in after <==> n in before) && (n in before ==> after[n] == before[n])
  }

  /** The cache names after `caches.open(name)`. */
  function NamesAfterOpen(name: string, names: seq<string>, caches: map<string, seq<Entry>>): seq<string> {
    if name in caches then names else names + [name]
  }

  /** Once `name` is the only cache left, `caches.match` answers from that cache alone. */
  lemma OnlyCurrentAnswers(names: seq<string>, caches: map<string, seq<Entry>>, name: string)
    requires forall n :: n in names <==> n in caches
    requires forall n :: n in caches ==> n == name
    ensures forall key :: MatchAcross(names, caches, key) == Cache.Match(ContentsOrEmpty(caches, name), key)
  {
    forall key
      ensures MatchAcross(names, caches, key) == Cache.Match(ContentsOrEmpty(caches, name), key)
    {
      MatchAcrossOnly(names, caches, name, key);
    }
  }

  class Worker {
    /** `self.location.origin`. */
    const origin: string
    /** The script's `CACHE_NAME`. */
    const cacheName: string
    /** The script's `ASSETS`. */
    const assets: seq<string>
    /** The origin's cache storage, shared with every other handler. */
    const storage: CacheStorage
    /** Set by `self.skipWaiting()`. */
    var waitingSkipped: bool
    /** Set by `self.clients.claim()`. */
    var clientsClaimed: bool

    ghost predicate Valid()
      reads this, storage
    {
      storage.Valid() && Distinct(assets)
    }

    /** What `caches.match(key)` would answer now. */
    ghost function Lookup(key: string): Option<Response>
      reads this, storage
      requires Valid()
    {
      MatchAcross(storage.names, storage.caches, key)
    }

    /** The fetch handler writes to the cache exactly for a GET miss answered 200 whose URL is same-origin. */
    ghost predicate Persists(req: Request, net: NetResult)
      reads this, storage
      requires Valid()
    {
      IsGet(req) && Lookup(req.url).None? && Storable(net) && FromOrigin(req, origin)
    }

    constructor (origin: string, storage: CacheStorage)
      requires storage.Valid()
      ensures Valid()
      ensures this.origin == origin && this.storage == storage
      ensures cacheName == CacheName && assets == Assets
      ensures !waitingSkipped && !clientsClaimed
    {
      AssetsDistinct();
      cacheName := CacheName;
      assets := Assets;
      this.origin := origin;
      this.storage := storage;
      waitingSkipped := false;
      clientsClaimed := false;
    }

    /**
     * The install handler: open the current cache, `addAll` the shell, and skip
     * waiting only when that succeeded. All or nothing: a failed fetch leaves
     * the current cache as it was (empty if it is new).
     */
    method Install(net: string -> NetResult) returns (ok: bool)
      requires Valid()
      modifies this, storage
      ensures Valid()
      ensures ok <==> forall a :: a in assets ==> Fetchable(net(a))
      ensures waitingSkipped == (old(waitingSkipped) || ok) && clientsClaimed == old(clientsClaimed)
      ensures storage.names == NamesAfterOpen(cacheName, old(storage.names), old(storage.caches))
      ensures OthersUnchanged(cacheName, old(storage.caches), storage.caches)
      ensures cacheName in storage.caches
      ensures !ok ==> storage.caches[cacheName] == ContentsOrEmpty(old(storage.caches), cacheName)
      ensures ok ==> storage.caches[cacheName] == PutAll(ContentsOrEmpty(old(storage.caches), cacheName), assets, net)
      ensures ok ==> forall a :: a in assets ==> Cache.Match(storage.caches[cacheName], a) == Some(Delivered(net(a)))
      ensures ok && cacheName !in old(storage.caches) ==> Urls(storage.caches[cacheName]) == assets
    {
      storage.Open(cacheName);
      ghost var seeded := storage.caches[cacheName];
      ok := storage.AddAll(cacheName, assets, net);
      if ok {
        waitingSkipped := true;
        SeedingStoresShell(seeded, assets, net);
      }
    }

    /**
     * The activate handler: delete every cache whose name is not the current
     * generation's, then claim the open pages.
     */
    method Activate()
      requires Valid()
      modifies this, storage
      ensures Valid()
      ensures clientsClaimed && waitingSkipped == old(waitingSkipped)
      ensures forall n :: n in storage.caches <==> n == cacheName && n in old(storage.caches)
      ensures cacheName in old(storage.caches) ==> storage.caches[cacheName] == old(storage.caches)[cacheName]
      ensures old(storage.caches).Keys <= {cacheName} ==>
                storage.names == old(storage.names) && storage.caches == old(storage.caches)
      ensures forall key :: MatchAcross(storage.names, storage.caches, key) ==
                Cache.Match(ContentsOrEmpty(storage.caches, cacheName), key)
    {
      DeleteStaleCaches();
      clientsClaimed := true;
      OnlyCurrentAnswers(storage.names, storage.caches, cacheName);
    }

    /**
     * `caches.keys()`, keep the names that differ from the current one, and
     * `caches.delete` each of them.
     */
    method DeleteStaleCaches()
      requires Valid()
      modifies storage
      ensures Valid()
      ensures forall n :: n in storage.caches <==> n == cacheName && n in old(storage.caches)
      ensures forall n :: n in storage.caches ==> storage.caches[n] == old(storage.caches)[n]
      ensures old(storage.caches).Keys <= {cacheName} ==>
                storage.names == old(storage.names) && storage.caches == old(storage.caches)
    {
      var keys := storage.names;
      ghost var gone: set<string> := {};
      var i := 0;
      while i < |keys|
        invariant 0 <= i <= |keys|
        invariant storage.Valid()
        invariant gone <= old(storage.caches).Keys - {cacheName}
        invariant forall j :: 0 <= j < i && keys[j] != cacheName ==> keys[j] in gone
        invariant storage.caches == old(storage.caches) - gone
        invariant gone == {} ==> storage.names == old(storage.names)
      {
        if keys[i] != cacheName {
          var _ := storage.Delete(keys[i]);
          gone := gone + {keys[i]};
        }
        i := i + 1;
      }
    }

    /**
     * The fetch handler, cache first: non-GET requests are left alone; a hit in
     * any cache is answered from it; a miss goes to the network, and a 200
     * answer to a same-origin URL is also stored in the current cache; when the
     * network fails, a navigation is answered with the cached shell, if any.
     */
    method Fetch(req: Request, net: NetResult) returns (out: FetchOutcome)
      requires Valid()
      modifies storage
      ensures Valid()
      ensures !IsGet(req) ==> out == NotIntercepted
      ensures IsGet(req) && old(Lookup(req.url)).Some? ==> out == Respond(old(Lookup(req.url)))
      ensures IsGet(req) && old(Lookup(req.url)).None? && net.Answer? ==> out == Respond(net.response)
      ensures IsGet(req) && old(Lookup(req.url)).None? && net.Fail? ==>
                out == Respond(if req.mode == Navigate then old(Lookup(ShellEntry)) else None)
      ensures !old(Persists(req, net)) ==>
                storage.names == old(storage.names) && storage.caches == old(storage.caches)
      ensures old(Persists(req, net)) ==>
                storage.names == NamesAfterOpen(cacheName, old(storage.names), old(storage.caches)) &&
                storage.caches == old(storage.caches)[cacheName :=
                  Cache.Put(ContentsOrEmpty(old(storage.caches), cacheName), req.url, net.response.value)]
      ensures old(Persists(req, net)) ==> Lookup(req.url) == net.response
    {
      if !IsGet(req) {
        return NotIntercepted;
      }
      var cached := storage.Match(req.url);
      if cached.Some? {
        return Respond(cached);
      }
      match net
      case Fail =>
        if req.mode == Navigate {
          var shell := storage.Match(ShellEntry);
          return Respond(shell);
        }
        return Respond(None);
      case Answer(response) =>
        if response.None? || response.value.status != 200 {
          return Respond(response);
        }
        if FromOrigin(req, origin) {
          var copy := response.value;
          Persist(req.url, copy);
        }
        return Respond(response);
    }

    /**
     * `caches.open(CACHE_NAME).then(cache => cache.put(request, clone))`: store
     * a copy of a response no cache holds a key for; afterwards a lookup of
     * that key finds the copy.
     */
    method Persist(key: string, response: Response)
      requires Valid() && Lookup(key).None?
      modifies storage
      ensures Valid()
      ensures storage.names == NamesAfterOpen(cacheName, old(storage.names), old(storage.caches))
      ensures storage.caches == old(storage.caches)[cacheName :=
                Cache.Put(ContentsOrEmpty(old(storage.caches), cacheName), key, response)]
      ensures Lookup(key) == Some(response)
    {
      ghost var before := storage.caches;
      storage.Open(cacheName);
      ghost var current := storage.caches[cacheName];
      storage.Put(cacheName, key, response);
      PutMatch(current, key, response, key);
      forall n | n in storage.names && n != cacheName
        ensures Cache.Match(storage.caches[n], key).None?
      {
        assert n in before;
      }
      MatchAcrossOnly(storage.names, storage.caches, cacheName, key);
    }

    /**
     * The message handler: `GET_CACHE_CONTENTS` opens the current cache and
     * replies with its URLs in stored order; `CLEAR_CACHE` deletes it and
     * replies whether it existed; anything else gets no reply.
     */
    method Message(data: string) returns (reply: Option<Reply>)
      requires Valid()
      modifies storage
      ensures Valid()
      ensures data == ListCommand ==>
                reply == Some(CacheContents(Urls(ContentsOrEmpty(old(storage.caches), cacheName)))) &&
                storage.names == NamesAfterOpen(cacheName, old(storage.names), old(storage.caches)) &&
                storage.caches == old(storage.caches)[cacheName := ContentsOrEmpty(old(storage.caches), cacheName)]
      ensures data == ClearCommand ==>
                reply == Some(Cleared(cacheName in old(storage.caches))) &&
                storage.names == Erase(old(storage.names), cacheName) &&
                storage.caches == old(storage.caches) - {cacheName}
      ensures data != ListCommand && data != ClearCommand ==>
                reply == None && storage.names == old(storage.names) && storage.caches == old(storage.caches)
    {
      reply := None;
      if data == ListCommand {
        storage.Open(cacheName);
        var urls := Urls(storage.caches[cacheName]);
        reply := Some(CacheContents(urls));
      }
      if data == ClearCommand {
        var success := storage.Delete(cacheName);
        reply := Some(Cleared(success));
      }
    }
  }
}
