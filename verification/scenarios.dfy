/**
 * Client-side sequences of handler calls, in the manner of the page talking to
 * the worker: what a caller can conclude from the handlers' contracts alone.
 */
module Scenarios {
  import opened Wrappers
  import opened Http
  import opened Cache
  import opened Storage
  import opened ServiceWorker

  /** `CLEAR_CACHE` then `GET_CACHE_CONTENTS`: the second reply lists no URL. */
  method ClearThenList(w: Worker) returns (cleared: Option<Reply>, listed: Option<Reply>)
    requires w.Valid()
    modifies w.storage
    ensures w.Valid()
    ensures cleared == Some(Cleared(w.cacheName in old(w.storage.caches)))
    ensures listed == Some(CacheContents([]))
  {
    assert ClearCommand[0] == 'C' && ListCommand[0] == 'G';
    cleared := w.Message(ClearCommand);
    listed := w.Message(ListCommand);
  }

  /** Installing into a storage without the current cache, then listing: exactly the shell, in order. */
  method InstallThenList(w: Worker, net: string -> NetResult) returns (ok: bool, listed: Option<Reply>)
    requires w.Valid() && w.cacheName !in w.storage.caches
    requires forall a :: a in w.assets ==> Fetchable(net(a))
    modifies w, w.storage
    ensures w.Valid()
    ensures ok && listed == Some(CacheContents(w.assets))
  {
    ok := w.Install(net);
    listed := w.Message(ListCommand);
  }

  /**
   * A same-origin GET miss answered 200 is stored, so the same request made
   * while the network is down is answered from the cache.
   */
  method StoredThenOffline(w: Worker, req: Request, response: Response) returns (online: FetchOutcome, offline: FetchOutcome)
    requires w.Valid() && IsGet(req) && FromOrigin(req, w.origin)
    requires response.status == 200 && w.Lookup(req.url).None?
    modifies w.storage
    ensures w.Valid()
    ensures online == Respond(Some(response)) && offline == Respond(Some(response))
  {
    online := w.Fetch(req, Answer(Some(response)));
    offline := w.Fetch(req, Fail);
  }

  /**
   * A cross-origin GET miss answered 200 is returned but not stored: the same
   * request made while the network is down gets no response.
   */
  method CrossOriginThenOffline(w: Worker, req: Request, response: Response) returns (online: FetchOutcome, offline: FetchOutcome)
    requires w.Valid() && IsGet(req) && !FromOrigin(req, w.origin) && req.mode != Navigate
    requires response.status == 200 && w.Lookup(req.url).None?
    modifies w.storage
    ensures w.Valid()
    ensures online == Respond(Some(response)) && offline == Respond(None)
  {
    online := w.Fetch(req, Answer(Some(response)));
    offline := w.Fetch(req, Fail);
  }

  /**
   * Install, activate, then a navigation to a page no cache holds while the
   * network is down: the answer is the seeded shell entry point.
   */
  method NavigateOffline(w: Worker, net: string -> NetResult, req: Request) returns (ok: bool, out: FetchOutcome)
    requires w.Valid() && ShellEntry in w.assets
    requires forall a :: a in w.assets ==> Fetchable(net(a))
    requires IsGet(req) && req.mode == Navigate && req.url !in w.assets
    requires Cache.Match(ContentsOrEmpty(w.storage.caches, w.cacheName), req.url).None?
    modifies w, w.storage
    ensures w.Valid()
    ensures ok && out == Respond(Some(Delivered(net(ShellEntry))))
  {
    ghost var before := ContentsOrEmpty(w.storage.caches, w.cacheName);
    ok := w.Install(net);
    PutAllMatch(before, w.assets, net, req.url);
    w.Activate();
    out := w.Fetch(req, Fail);
  }
}
