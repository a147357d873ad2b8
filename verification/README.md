# Offline-caching service worker, modelled in Dafny

This project models `sw.js`, the service worker of a progressive web app that
keeps the app's shell available offline. The worker owns one versioned cache
generation (`pwa-playground-v3`) in the origin's cache storage and has four
event handlers:

- **install** opens the current cache and seeds it with the six shell paths by `cache.addAll`, all or nothing, then skips waiting;
- **activate** deletes every cache whose name is not the current one, then claims the open pages;
- **fetch** applies a cache-first policy to GET requests: a hit in any cache is served; a miss goes to the network; a status-200 answer for a same-origin URL is also stored; a failed navigation falls back to the cached `./index.html`;
- **message** answers two control commands: `GET_CACHE_CONTENTS` replies with the current cache's URLs, and `CLEAR_CACHE` deletes the current cache and replies whether it existed.

## Layout

- `wrappers.dfy` (`Wrappers`): `Option`.
- `http.dfy` (`Http`): requests, responses and the outcome of a network fetch, plus the pure tests the handlers make: GET, same origin, ok status for `addAll`, and status 200 for storing.
- `cache.dfy` (`Cache`): one cache as an ordered list of (URL key, response) entries. It gives `match`, `put` (drop the entry with the same key, append the new one), the batch of puts `addAll` performs, and `keys()` mapped to URLs, with the lemmas relating them.
- `storage.dfy` (`Storage`): the class `CacheStorage`. Its fields are `caches: map<string, seq<Entry>>` and `names: seq<string>`, the cache names in creation order. The order is what `caches.keys()` returns and the order in which `caches.match` searches. The class has methods for `open`, `delete`, `match`, `put` and `addAll`.
- `service_worker.dfy` (`ServiceWorker`): the constants `CacheName` and `Assets`, and the class `Worker`. It has one method per handler over a shared `CacheStorage`, plus two flags for `skipWaiting` and `clients.claim`.
- `scenarios.dfy` (`Scenarios`): client sequences of handler calls. They show what the page can rely on: clear then list, install then list, store then serve offline, cross-origin not stored, and the offline navigation fallback.

The worker's origin (`self.location.origin`) is a constant of the `Worker`.
`CACHE_NAME` and `ASSETS` are module constants. The constructor copies them
into the worker's `cacheName` and `assets` fields, and the handlers read them
from there. Each network outcome is a parameter: `Install` takes a function
from asset path to outcome, and `Fetch` takes the outcome of its one request.
Each handler runs as one sequential step.

The model follows the code at these points:

- The fetch path and the navigation fallback look up keys with `caches.match`. That searches every cache in creation order, not only the current generation (sw.js:37, sw.js:55). `Worker.Activate` proves that once activation has run, this search is the same as a search of the current cache alone.
- The same-origin test is on the request URL, not on the response (sw.js:45-46).
- The comment at sw.js:33 speaks of skipping non-GET and cross-origin requests, but sw.js:34 skips only non-GET ones. A cross-origin GET is still looked up in the caches and fetched; only its storing is refused (sw.js:46). `Worker.Fetch` follows the code.
- A response is stored only if its status is exactly 200 (sw.js:42). Any other 2xx is returned and not stored.
- `caches.open` creates a cache when it is missing. A failed install therefore still leaves the current cache in place: empty if it is new, unchanged if it already existed. `GET_CACHE_CONTENTS` also creates an empty current cache when none exists, and replies with an empty list (sw.js:14, sw.js:65).
- `GET_CACHE_CONTENTS` replies with the URLs in stored order. Seeding a new cache lists the shell paths in `ASSETS` order.

## Model

| member | source | states |
|---|---|---|
| Http.IsGet | sw.js:34 | only a request whose method is exactly `GET` is intercepted |
| Http.FromOrigin | sw.js:45-46 | the same-origin test compares the request URL's origin with the worker's origin |
| Http.Storable | sw.js:42 | a network answer is worth storing only when it exists and its status is exactly 200 |
| Http.Fetchable | sw.js:15 | `addAll` accepts a fetched answer only when it exists and its status is ok (200-299) |
| Storage.ContentsOrEmpty | sw.js:14 | the contents of a cache, or the empty cache `caches.open` creates when the name is missing |
| Cache.Match | sw.js:37 | the lookup finds nothing exactly when no entry has the key; what it finds is a stored entry for that key |
| Cache.Remove | sw.js:48 | keeps exactly the entries under other keys and keeps keys unique; with the key absent it changes nothing |
| Cache.Put | sw.js:48 | the new entry comes last; the result holds it plus the old entries under other keys; keys stay unique; a new key is simply appended |
| Cache.RemoveAt | sw.js:48 | removing the key of the i-th entry cuts exactly that entry out; the other entries keep their stored order |
| Cache.PutAt | sw.js:48 | putting under an already stored key cuts the old entry out, keeps the others in stored order and appends the new entry last |
| Cache.PutMatch | sw.js:48 | after a put, the key finds the new response and every other key finds what it found before |
| Cache.MatchRemove | sw.js:48 | removing one key leaves every other key's lookup unchanged |
| Cache.Urls | sw.js:66-67 | one URL per stored entry |
| Cache.UrlsAt | sw.js:66-67 | the i-th URL replied is the key of the i-th stored entry |
| Cache.PutAll | sw.js:15 | the batch of puts of `addAll` keeps keys unique |
| Cache.PutAllMatch | sw.js:15 | after the batch, each batched key finds the response the network gave it; other keys are unaffected |
| Cache.PutAllUrls | sw.js:15 | distinct new keys are listed after the old URLs, in batch order |
| Storage.Erase | sw.js:74 | `caches.delete` drops exactly that name from the creation order and keeps the order distinct |
| Storage.EraseAt | sw.js:74 | deleting the i-th cache name cuts exactly it out; the other names keep their creation order |
| Storage.MatchAcross | sw.js:37 | `caches.match` has no answer exactly when no cache holds the key; any answer comes from some cache |
| Storage.MatchAcrossFirst | sw.js:37 | `caches.match` answers from the first cache, in creation order, that holds the key, so an older generation shadows the current one until activation |
| Storage.MatchAcrossOnly | sw.js:37 | if only one cache can hold the key, `caches.match` answers from that cache alone |
| Storage.CacheStorage.Match | sw.js:37 | the loop over caches in creation order returns the `caches.match` answer |
| Storage.CacheStorage.Open | sw.js:14 | an existing cache is left as is; a missing one is created empty and listed last |
| Storage.CacheStorage.Delete | sw.js:74 | replies whether the cache existed; removes exactly it |
| Storage.CacheStorage.Put | sw.js:48 | only the named cache changes, by one put |
| Storage.CacheStorage.AddAll | sw.js:15 | succeeds exactly when every request fetches with an ok status; on failure nothing changes, on success the batch is stored |
| ServiceWorker.AssetsDistinct | sw.js:2-9 | no shell path is listed twice |
| ServiceWorker.SeedingStoresShell | sw.js:13-16 | after seeding, every shell path finds its fetched response; a new cache lists exactly `ASSETS` in order |
| ServiceWorker.OnlyCurrentAnswers | sw.js:23-25 | when only the current cache is left, `caches.match` answers from it alone |
| ServiceWorker.Worker.constructor | sw.js:1-9 | the worker carries `CACHE_NAME`, `ASSETS` and its origin; no lifecycle flag is set |
| ServiceWorker.Worker.Install | sw.js:12-18 | succeeds exactly when every asset fetches ok; other caches untouched; on failure the current cache is as before (empty if new); on success every asset is stored and waiting is skipped; a new cache lists exactly `ASSETS` |
| ServiceWorker.Worker.Activate | sw.js:21-29 | afterwards only the current cache can exist, with unchanged contents; idempotent; later lookups see the current cache alone; clients are claimed |
| ServiceWorker.Worker.DeleteStaleCaches | sw.js:23-26 | every listed name other than the current one is deleted, and the rest are left unchanged |
| ServiceWorker.Worker.Fetch | sw.js:32-60 | non-GET is not intercepted; a hit is served unchanged and the network outcome is not used; a miss returns the network answer as-is; a network failure gives the cached shell for a navigation and no response otherwise; storage changes only for a same-origin 200 miss, by one put into the current cache, after which the URL is a hit |
| ServiceWorker.Worker.Persist | sw.js:44-49 | opens the current cache and puts the copy; only that cache changes, and the key then finds the copy |
| ServiceWorker.Worker.Message | sw.js:63-78 | `GET_CACHE_CONTENTS` replies with the current cache's URLs in order and only opens that cache; `CLEAR_CACHE` deletes only it and replies whether it existed; any other message gets no reply and changes nothing |
| Scenarios.ClearThenList | sw.js:64-77 | listing after clearing replies with an empty list |
| Scenarios.InstallThenList | sw.js:12-18 | after a successful install into a storage without the current cache, the listing is exactly `ASSETS` |
| Scenarios.StoredThenOffline | sw.js:37-51 | a same-origin 200 answer, once stored, is served again with the network down |
| Scenarios.CrossOriginThenOffline | sw.js:44-57 | a cross-origin 200 answer is returned but not stored, so with the network down there is no response |
| Scenarios.NavigateOffline | sw.js:52-56 | after install and activate, a navigation to an uncached page with the network down is answered with the seeded `./index.html` |

## Left out

- app.js is not part of this model. It holds the page's UI bindings to device APIs (camera, QR codes, geolocation, sensors, clipboard, speech, share, notifications, battery, network information), float formatting and timer-driven animation. Its cache buttons are only the client side of the message protocol, which `Scenarios` stands in for.
- Service worker registration and the install prompt are browser plumbing.
- `self.skipWaiting()` and `self.clients.claim()` are lifecycle signals to the browser. They are modelled only as two flags.
- The lifecycle states are not modelled: installing, waiting, activating, active, and the browser discarding a failed install and retrying it.
- Promises and interleaving are not modelled. Each handler is one sequential step. The fire-and-forget `cache.put` of the fetch path is treated as done before the response is returned. Concurrent intercepts and control requests are not modelled.
- Response bodies are immutable values. `response.clone()` is therefore a copy, and stream consumption is not modelled.
- `new URL(...).origin` is not modelled: a request carries its origin as a field. Keys are URL strings as given, so relative paths are not resolved against the scope. The exception a bad URL would raise inside the fetch chain is not modelled either.
- Cache API request matching is by URL only. Vary headers, `ignoreSearch` and matching on the request method are not modelled.
- Storage.CacheStorage.AddAll: rejects only on a failed fetch or a status outside 200-299. Two other rejections of the Cache API are not modelled: duplicate requests within one batch, and partial (206) responses.
- Storage errors are not modelled: `caches.open`, `cache.put`, `cache.addAll` and `caches.delete` never reject here for storage reasons such as an exceeded quota or unavailable storage. So `Worker.Install` succeeds exactly when every asset fetches ok only under this assumption; a storage rejection of `addAll` would fail the install too (sw.js:15). `Worker.Fetch`, `Worker.Persist` and `Scenarios.StoredThenOffline` likewise assume the fire-and-forget `put` (sw.js:48) succeeds; if it were rejected, the response would still be returned but nothing would be stored.
- `event.data` is modelled as a string. The reply on `event.ports[0]` is the handler's return value. A message that arrives without a port, which would throw, is not modelled.
