/** The `fetch-bing-wallpapers` and `preload-next-page` handlers: a cache
    lookup under `page-<page>`, eight slot chains on a miss, assembly in
    slot order, and the cache write. */
module Handlers {
  import opened Text
  import opened Candidates
  import opened Batch
  import opened Cache

  /** `` `page-${page}` ``: the key carries no category. */
  function CacheKey(page: int): (key: string)
    ensures |key| > 5 && key[..5] == "page-" && key[5..] == IntToString(page)
  {
    "page-" + IntToString(page)
  }

  /** Distinct pages never share a cache entry. */
  lemma CacheKeyInjective(a: int, b: int)
    requires a != b
    ensures CacheKey(a) != CacheKey(b)
  {
    IntToStringInjective(a, b);
  }

  /** What every page the handlers store looks like: eight records with
      distinct ids and titles numbered from 1. The cache is private to the
      two handlers, so this holds of it at every call. */
  ghost predicate Shaped(c: CacheState<seq<Candidate>>) {
    forall k :: k in c.entries ==>
      |c.entries[k]| == SLOTS && DistinctIds(c.entries[k]) && NumberedTitles(c.entries[k])
  }

  /** The cache starts out empty, and so shaped. */
  lemma EmptyIsShaped()
    ensures Shaped(Empty<seq<Candidate>>())
  {
  }

  /** A handler's write of a well-shaped page keeps the cache shaped. */
  lemma InsertKeepsShaped(c: CacheState<seq<Candidate>>, key: string, page: seq<Candidate>)
    requires Shaped(c) && |page| == SLOTS && DistinctIds(page) && NumberedTitles(page)
    ensures Shaped(Insert(CACHE_SIZE, c, key, page))
  {
    var e := if |c.order| >= CACHE_SIZE then EvictOldest(c) else c;
    assert Shaped(e);
  }

  /** `fetch-bing-wallpapers`. On a hit the stored page comes back and
      nothing is requested or written. On a miss the eight chains run and
      the page is stored; `fault` stands for an exception escaping the
      handler's try block, after which the outer catch returns eight
      emergency records and leaves the cache alone. */
  method FetchBingWallpapers(cache: PageCache, page: int, slots: seq<SlotInput>, rescues: seq<Rescue>, fault: bool)
    returns (wallpapers: seq<Candidate>)
    requires cache.Valid() && Shaped(cache.State()) && |slots| == SLOTS && |rescues| == SLOTS
    modifies cache
    ensures cache.Valid() && Shaped(cache.State())
    ensures |wallpapers| == SLOTS && DistinctIds(wallpapers) && NumberedTitles(wallpapers)
    ensures CacheKey(page) in old(cache.entries) ==>
              wallpapers == old(cache.entries)[CacheKey(page)] && cache.State() == old(cache.State())
    ensures CacheKey(page) !in old(cache.entries) && fault ==>
              wallpapers == EmergencyCandidates(page, rescues) && cache.State() == old(cache.State())
    ensures CacheKey(page) !in old(cache.entries) && !fault ==>
              wallpapers == FetchPage(page, slots) &&
              cache.State() == Insert(CACHE_SIZE, old(cache.State()), CacheKey(page), wallpapers)
  {
    var cacheKey := CacheKey(page);
    var hit := cache.Has(cacheKey);
    if hit {
      var cached := cache.Get(cacheKey);
      wallpapers := cached.value;
      return;
    }
    if fault {
      wallpapers := EmergencyPage(page, rescues);
      EmergencyPageDistinctIds(page, rescues);
      return;
    }
    var settled := FetchSettled(page, slots);
    wallpapers := Assemble(Fetch, page, settled, rescues);
    AllFulfilledAssembly(Fetch, page, slots, wallpapers, rescues);
    FetchPageDistinctIds(page, slots);
    FetchPageNumbersTitles(page, slots);
    InsertKeepsShaped(cache.State(), cacheKey, wallpapers);
    cache.Put(cacheKey, wallpapers);
  }

  /** `preload-next-page`: nothing on a hit; otherwise the eight preload
      chains run and the page is stored. Nothing is returned, and a fault
      is only logged. */
  method PreloadNextPage(cache: PageCache, page: int, slots: seq<SlotInput>, rescues: seq<Rescue>, fault: bool)
    requires cache.Valid() && Shaped(cache.State()) && |slots| == SLOTS && |rescues| == SLOTS
    modifies cache
    ensures cache.Valid() && Shaped(cache.State())
    ensures CacheKey(page) in old(cache.entries) || fault ==> cache.State() == old(cache.State())
    ensures CacheKey(page) !in old(cache.entries) && !fault ==>
              cache.State() == Insert(CACHE_SIZE, old(cache.State()), CacheKey(page), PreloadPage(page, slots))
  {
    var cacheKey := CacheKey(page);
    var hit := cache.Has(cacheKey);
    if hit || fault {
      return;
    }
    var settled := PreloadSettled(page, slots);
    var results := Assemble(Preload, page, settled, rescues);
    AllFulfilledAssembly(Preload, page, slots, results, rescues);
    PreloadPageDistinctIds(page, slots);
    PreloadPageNumbersTitles(page, slots);
    InsertKeepsShaped(cache.State(), cacheKey, results);
    cache.Put(cacheKey, results);
  }

  /** A page stored by a preload or a fetch is what the next fetch of that
      page returns, whatever the upstreams do then. */
  method PreloadThenFetch(cache: PageCache, page: int, slots1: seq<SlotInput>, slots2: seq<SlotInput>,
                          rescues: seq<Rescue>, fault: bool)
    returns (wallpapers: seq<Candidate>)
    requires cache.Valid() && Shaped(cache.State())
    requires |slots1| == SLOTS && |slots2| == SLOTS && |rescues| == SLOTS
    requires CacheKey(page) !in cache.entries
    modifies cache
    ensures cache.Valid() && Shaped(cache.State())
    ensures wallpapers == PreloadPage(page, slots1)
    ensures cache.State() == Insert(CACHE_SIZE, old(cache.State()), CacheKey(page), PreloadPage(page, slots1))
  {
    PreloadNextPage(cache, page, slots1, rescues, false);
    wallpapers := FetchBingWallpapers(cache, page, slots2, rescues, fault);
  }

  /** After a fetch that did not fault, asking for the same page again
      gives the same wallpapers, whether the first request hit or missed
      and whatever the upstreams do the second time. */
  method FetchTwice(cache: PageCache, page: int, slots1: seq<SlotInput>, slots2: seq<SlotInput>,
                    rescues1: seq<Rescue>, rescues2: seq<Rescue>, fault: bool)
    returns (first: seq<Candidate>, second: seq<Candidate>)
    requires cache.Valid() && Shaped(cache.State()) && |slots1| == SLOTS && |slots2| == SLOTS
    requires |rescues1| == SLOTS && |rescues2| == SLOTS
    modifies cache
    ensures cache.Valid() && Shaped(cache.State())
    ensures second == first
    ensures cache.State() == if CacheKey(page) in old(cache.entries) then old(cache.State())
                             else Insert(CACHE_SIZE, old(cache.State()), CacheKey(page), first)
  {
    first := FetchBingWallpapers(cache, page, slots1, rescues1, false);
    second := FetchBingWallpapers(cache, page, slots2, rescues2, fault);
  }
}
