# feieryuu-wallpaper: wallpaper pages, page cache, downloads, asset rewrite

A Dafny model of the main-process core of the feieryuu-wallpaper Electron
app. The model covers:

- **Slot chains.** Each of the eight slots of a page tries the nguaduot.cn
  `bizhihui` endpoint, then `snake` (fetch handler only), then a Picsum
  photo. Each slot builds one candidate record: thumb, url, id, title and
  copyright.
- **Page assembly.** The `Promise.allSettled` results are walked in slot
  order. A rejected slot is replaced by a rescue record. The fetch handler's
  outer catch returns an emergency page of eight records instead.
- **Page cache.** This is a module-level `Map` keyed by `page-<n>` and
  bounded at 50 entries. When full, it evicts the first-inserted key before
  each write. Both IPC handlers use it: `fetch-bing-wallpapers` returns the
  page; `preload-next-page` only fills the cache.
- **Downloads.** `downloadToFile` follows at most three redirects.
  `fastDownload` makes one `fetch` and falls back to `downloadToFile` on any
  failure.
- **Asset rewrite.** `fix-assets.js` rewrites `src="/assets/` and
  `href="/assets/` to `./assets/` in `dist/index.html`.

How the model treats the environment:

- The network is a parameter:
  - an upstream answer is `Upstream` (`Ok(url)` or `Failed`);
  - an HTTP server is a function from URL to `Reply`;
  - the result of the fast path's `fetch` is `FastOutcome`.
- `Date.now()` and `Math.random()` are per-slot parameters (`SlotInput`,
  `Rescue`). All `Date.now()` readings inside one object literal are treated
  as a single reading.
- Some exceptions are never thrown by the code shown. Two of these are
  parameters:
  - `fault`: an exception between the cache lookup and the cache write;
  - `setupFault`: a throw while a slot sets up its request timer.

Modules:

- `Text`: decimal rendering of `${n}` and its inverse.
- `Candidates`: records and slot chains.
- `Batch`: assembly and page-level properties.
- `Cache`: a pure `CacheState` with its lemmas, plus the `PageCache` class updated in place.
- `Handlers`: the two IPC handlers as methods on the cache.
- `Download`: `downloadToFile` and `fastDownload`.
- `Assets`: the asset-path rewrite.
- `Options`: a shared `Option` type.

Facts about the code that the model keeps:

- The cache key is `page-<n>` and has no category.
- A page always has exactly eight entries. A slot whose upstreams all fail
  gets a Picsum record, and a rejected slot gets a rescue record; no slot
  is omitted.
- The fast path accepts any 2xx status (`response.ok`). The stream path
  accepts only 200.
- A write of a key that is already present still evicts the oldest entry
  when the cache is full. The handlers only write after a miss, so this
  does not arise in sequential use.

## Model

| member | source | states |
|---|---|---|
| Text.IntToString | electron-main.js:251-251 | `${n}` is never empty and starts with `-` exactly when n is negative |
| Text.ParseNatToString | electron-main.js:251-251 | Reading back the digits of a non-negative integer gives that integer |
| Text.ParseIntToString | electron-main.js:251-251 | Reading back `${n}` gives n, for every integer |
| Text.IntToStringInjective | electron-main.js:251-251 | Different integers render differently |
| Candidates.SlotId | electron-main.js:278-278 | An id is non-empty and its first character is that of its origin's tag (`bizhihui`, `snake`, `picsum`, `fallback`, `emergency`), so ids of different origins differ in their first character |
| Candidates.PicsumIdFields | electron-main.js:325-325 | A Picsum id reads back as its tag (`picsum`, or `picsum-preload`), a dash, the image id, a dash, the page, a dash and the slot number, each field at its own offset |
| Candidates.StampedIdFields | electron-main.js:278-278 | Every other id reads back as its tag (`bizhihui`, `snake`, `fallback`, `emergency`, with `-preload` on the preload path), a dash, the page, a dash, the slot number, a dash and the timestamp, each field at its own offset |
| Candidates.Title | electron-main.js:279-279 | A title is never empty, and for slots 0..8 it ends in the digit of the slot number counted from 1 |
| Candidates.UpstreamCandidate | electron-main.js:274-281 | A record from an endpoint that answered ok uses the final response URL as both its thumbnail and its full image |
| Candidates.PicsumCandidate | electron-main.js:319-328 | A Picsum record's thumbnail and full URL both point at `https://picsum.photos/id/`, and it is credited to Picsum Photos |
| Candidates.RescueCandidate | electron-main.js:342-349 | A rescue record (fallback, emergency) is always credited to Picsum Photos |
| Candidates.FetchChain | electron-main.js:260-330 | The fetch slot requests bizhihui, and snake only after bizhihui failed. The record comes from bizhihui exactly when bizhihui answered, from snake exactly when bizhihui failed and snake answered, and from Picsum exactly when both failed or the timer setup threw. Its id and title are those of its origin and slot |
| Candidates.PreloadChain | electron-main.js:395-442 | The preload slot requests only bizhihui. It uses bizhihui exactly when that answered and Picsum exactly when it failed. A throw outside the request gives a fallback-preload record. Id and title match origin and slot |
| Candidates.SlotIdShape | electron-main.js:325-325 | The slot digit is the last character of a Picsum id, and sits right after the page in every other id |
| Candidates.SlotIdsDistinct | electron-main.js:278-325 | Two records from different slots of one page never share an id, whatever their origins, image ids and timestamps |
| Candidates.PicsumUrlsDifferOnlyInSize | electron-main.js:319-324 | A Picsum record's thumbnail and full URL share the image id and the `?random=` timestamp and differ only in `300/225` vs `2560/1440` |
| Candidates.FetchChainStopsAtBizhihui | electron-main.js:273-281 | Once bizhihui answers, the snake outcome and the random draw do not affect the record, whose url is bizhihui's |
| Candidates.FetchChainStopsAtSnake | electron-main.js:298-306 | Once snake answers, the random draw does not affect the record, whose url is snake's |
| Batch.Assemble | electron-main.js:333-351 | Entry i of the page is slot i's value when it was fulfilled, else a rescue record for slot i (fallback on the fetch path, emergency-preload on the preload path); the page has one entry per slot |
| Batch.EmergencyPage | electron-main.js:364-379 | The handler's outer catch returns the eight emergency records for slots 0..7, in order |
| Batch.AllFulfilledAssembly | electron-main.js:444-460 | Because every chain ends in a branch that returns, assembly returns exactly the chains' records in slot order; no replacement ever happens |
| Batch.FetchPageDistinctIds | electron-main.js:333-351 | Ids on a fetched page are pairwise distinct |
| Batch.FetchPageNumbersTitles | electron-main.js:279-347 | Entry k of a fetched page carries the title number k + 1 |
| Batch.PreloadPageDistinctIds | electron-main.js:444-460 | Ids on a preloaded page are pairwise distinct |
| Batch.PreloadPageNumbersTitles | electron-main.js:412-456 | Entry k of a preloaded page carries the title number k + 1 |
| Batch.EmergencyPageDistinctIds | electron-main.js:368-376 | The emergency page has distinct ids, titles numbered 1..8, and every record is credited to Picsum Photos |
| Batch.SnakeServesWholePage | electron-main.js:285-306 | When bizhihui fails and snake answers for every slot, every record is snake's image with snake's credit |
| Cache.Set | electron-main.js:359-359 | `Map.set` stores the value under the key. A new key goes last in insertion order, and an existing key keeps its place. Every other entry is unchanged |
| Cache.EvictOldest | electron-main.js:354-358 | Eviction keeps the cache well formed, removes the first-inserted key from the insertion order and from the map, and keeps every other key with its value; on an empty cache nothing changes |
| Cache.Insert | electron-main.js:353-359 | After a cache write the key holds the new page; every other key it holds was there before with the same page; below capacity no key is lost; at capacity the oldest key is gone unless it is the key written |
| Cache.InsertKeepsInvariant | electron-main.js:353-359 | A cache write keeps the insertion order and the entries in step and the size at or below the capacity |
| Cache.InsertFreshKey | electron-main.js:462-467 | A new key into a full cache evicts exactly the oldest key and appends the new one; below capacity nothing is evicted |
| Cache.InsertFreshWindow | electron-main.js:353-359 | After a write of a new key, the order is the last `cap` keys of the old order with the key appended, and no key other than the new one appears |
| Cache.InsertKeepsOthers | electron-main.js:353-359 | A write never disturbs any key except the evicted first one |
| Cache.InsertAllKeepsWindow | electron-main.js:93-94 | After any sequence of writes of distinct new pages, the cache holds exactly the last 50 (in general `cap`) keys written, oldest first |
| Cache.CapacityTwoScenario | electron-main.js:353-359 | With capacity 2, three distinct pages written in turn leave exactly the last two, in order |
| Cache.PageCache.constructor | electron-main.js:93-93 | `new Map()` is empty and valid |
| Cache.PageCache.Has | electron-main.js:252-252 | `has` answers whether the key is stored |
| Cache.PageCache.Get | electron-main.js:254-254 | `get` returns the stored page, and nothing on a miss |
| Cache.PageCache.Put | electron-main.js:353-359 | The in-place write keeps the cache valid and leaves it in the state `Insert` describes |
| Handlers.CacheKey | electron-main.js:251-251 | The key is `page-` followed by the decimal rendering of the page number |
| Handlers.CacheKeyInjective | electron-main.js:388-388 | Different pages never share a cache entry |
| Handlers.EmptyIsShaped | electron-main.js:93-93 | The cache starts empty, so every stored page trivially has eight records with distinct ids and numbered titles |
| Handlers.InsertKeepsShaped | electron-main.js:354-359 | Writing a page of eight records with distinct ids and numbered titles keeps every stored page of that shape |
| Handlers.FetchBingWallpapers | electron-main.js:246-380 | Every call returns eight records with distinct ids and numbered titles, a hit included, and the cache stays of that shape. A hit returns the stored page and leaves the cache alone. On a miss without a fault, the result is the fetch page, written into the cache. On a miss with a fault, it is the emergency page, and nothing is cached |
| Handlers.PreloadNextPage | electron-main.js:383-473 | A hit or a fault leaves the cache unchanged; otherwise the preload page is written. The cache keeps holding only pages of eight records with distinct ids and numbered titles |
| Handlers.PreloadThenFetch | electron-main.js:388-392 | A fetch of a page that was preloaded returns the preloaded records, whatever the upstreams do at fetch time |
| Handlers.FetchTwice | electron-main.js:251-255 | After a first fetch that did not fault, a second fetch of the same page returns what the first returned |
| Download.DownloadToFile | electron-main.js:18-65 | Success always resolves with the target path; past depth 3 it fails with too many redirects before any request |
| Download.FastDownload | electron-main.js:68-90 | Succeeds with the path exactly when the buffered fetch got a 2xx and wrote the file, or the stream download succeeds; any failure is the stream download's failure |
| Download.RedirectsStop | electron-main.js:40-45 | Fewer redirects in a row than allowed means the chain ends at a reply that is not a followed redirect |
| Download.DownloadFollowsChain | electron-main.js:18-65 | From depth d the download fails with too many redirects exactly when the server gives 4 - d redirects in a row, and otherwise ends as the final reply does: network error, non-200 status, or the file |
| Download.DownloadSucceedsIff | electron-main.js:19-58 | A download succeeds exactly when at most three redirects lead to a 200 |
| Download.FourRedirectsFail | electron-main.js:19-19 | Four redirects in a row fail with too many redirects |
| Download.ThreeRedirectsSucceed | electron-main.js:41-58 | Three redirects and then a 200 write the file |
| Download.RedirectWithoutLocationFails | electron-main.js:41-50 | A 3xx without a non-empty Location is not followed and fails with its status |
| Assets.FixAssetPaths | fix-assets.js:11-27 | Nothing is written when `dist/index.html` is missing; otherwise the rewritten page is written, and it holds no `src="/assets/` and no `href="/assets/` |
| Assets.ReplaceAllFree | fix-assets.js:22-23 | A global replace leaves no occurrence of a pattern p when each p sits where the replaced pattern does and no p can overlap the replacement text |
| Assets.ReplaceAll | fix-assets.js:22-23 | A global replace of a literal pattern leaves text without the pattern unchanged |
| Assets.Rewrite | fix-assets.js:22-23 | After both passes no absolute asset reference remains; the second pass cannot bring back what the first removed |
| Assets.RewriteKeepsRelativePages | fix-assets.js:19-25 | A page without absolute asset references is written back unchanged |
| Assets.RewriteIdempotent | fix-assets.js:22-23 | Running the script a second time changes nothing |
| Assets.SplitJoinsBack | fix-assets.js:22-22 | The text is its pieces between the matches, joined by the pattern |
| Assets.SplitJoinReplaces | fix-assets.js:22-22 | The replace result is the same pieces joined by the replacement |
| Assets.SplitPiecesFree | fix-assets.js:22-22 | No piece between two matches holds the pattern, so every occurrence is replaced |

## Left out

- Electron window management, the theme, the save dialog, `apply-wallpaper` (an AppleScript and `execFile` call), `open-external` and the footer-text handler are outside this model.
- `preload.js`, `preload.cjs` and the renderer are not part of this model.
- File and network I/O are parameters, not effects:
  - request headers, keep-alive agents and the choice between `https` and `http` are not modelled;
  - a timeout (2 s per upstream, 10 s fast path, 30 s stream) is just a failed outcome;
  - a stream or write-file error after a 200 is not modelled, so a 200 always counts as a written file;
  - `fetch` follows redirects by itself, so the fast path's result is one abstract outcome.
- A relative `Location` header is followed as an opaque URL. Node would reject it.
- Concurrency is not modelled:
  - the eight slots run one after another;
  - the handlers run one at a time;
  - a fetch and a preload of the same page interleaving between `has` and `set` is not represented.
- Console logging is not modelled.
- Pages are integers. The IPC default `page = 1` is the caller's business. Non-integer or non-numeric page values, which JavaScript would render differently in keys and titles, are not modelled.
- Text.IntToString: agrees with JavaScript's `${n}` only for integers of magnitude below 10^21. From there JavaScript uses exponent notation (`1e+21`). Beyond 2^53 a JavaScript number no longer holds every integer. Pages and timestamps that large are not modelled.
- `Date.now()` readings inside one object literal are one reading.
- A throw from the logging before the cache lookup or after the cache write, both inside the handlers' `try`, is not modelled; `fault` covers only the code between lookup and write.
- Candidates.SlotIdsDistinct: stated for slots 0..9 only, since a page has eight slots.
- Batch.FetchPageDistinctIds: stated for pages of at most ten slots, for the same reason.
- Batch.PreloadPageDistinctIds: stated for pages of at most ten slots, for the same reason.
- Batch.EmergencyPageDistinctIds: stated for at most ten rescue records, for the same reason.
- Assets.ReplaceAllFree: `String.prototype.replace` is modelled for a pattern that matches a literal string and a replacement without `$` patterns, which is all the script uses.
