/** The page cache: a module-level `Map` from `page-<n>` keys to pages,
    bounded at 50 entries. Eviction removes the first key in the map's
    insertion order (FIFO); a lookup never changes that order. */
module Cache {
  import opened Options
  import opened Candidates

  /** `CACHE_SIZE`. */
  const CACHE_SIZE: nat := 50

  /** A JavaScript `Map` as the model sees it: its keys in insertion
      order, and its entries. */
  datatype CacheState<V> = CacheState(order: seq<string>, entries: map<string, V>)

  ghost predicate NoDuplicates(s: seq<string>) {
    forall i, j :: 0 <= i < j < |s| ==> s[i] != s[j]
  }

  /** The order lists every key exactly once. */
  ghost predicate WellFormed<V>(c: CacheState<V>) {
    NoDuplicates(c.order) && forall k :: k in c.entries <==> k in c.order
  }

  function Empty<V>(): (c: CacheState<V>)
    ensures WellFormed(c) && |c.order| == 0
  {
    CacheState([], map[])
  }

  /** `Map.prototype.set`: a new key goes last, an existing key keeps its
      place and only its value changes. */
  function Set<V>(c: CacheState<V>, key: string, v: V): (r: CacheState<V>)
    ensures key in r.entries && r.entries[key] == v
    ensures forall k :: k != key ==> (k in r.entries <==> k in c.entries)
    ensures forall k :: k != key && k in c.entries ==> r.entries[k] == c.entries[k]
    ensures key in c.entries ==> r.order == c.order
    ensures key !in c.entries ==> r.order == c.order + [key]
  {
    CacheState(if key in c.entries then c.order else c.order + [key], c.entries[key := v])
  }

  /** `delete(keys().next().value)`: drops the first-inserted key; on an
      empty map the key is `undefined` and nothing is deleted. */
  function EvictOldest<V>(c: CacheState<V>): (r: CacheState<V>)
    ensures WellFormed(c) ==> WellFormed(r)
    ensures |c.order| == 0 ==> r == c
    ensures |c.order| > 0 ==> [c.order[0]] + r.order == c.order && c.order[0] !in r.entries
    ensures r.entries.Keys <= c.entries.Keys
    ensures forall k :: k in c.entries && (|c.order| == 0 || k != c.order[0]) ==>
              k in r.entries && r.entries[k] == c.entries[k]
  {
    if |c.order| == 0 then c
    else
      DropFirstKeepsWellFormed(c);
      CacheState(c.order[1..], c.entries - {c.order[0]})
  }

  lemma DropFirstKeepsWellFormed<V>(c: CacheState<V>)
    requires |c.order| > 0
    ensures WellFormed(c) ==> WellFormed(CacheState(c.order[1..], c.entries - {c.order[0]}))
  {
    if WellFormed(c) {
      var rest := c.order[1..];
      forall i, j | 0 <= i < j < |rest| ensures rest[i] != rest[j] {
        assert rest[i] == c.order[i + 1] && rest[j] == c.order[j + 1];
      }
      forall k ensures k in c.entries - {c.order[0]} <==> k in rest {
        assert k in c.order <==> k == c.order[0] || k in rest;
        forall j | 0 <= j < |rest| ensures rest[j] != c.order[0] {
          assert rest[j] == c.order[j + 1];
        }
      }
    }
  }

  /** The cache write of both handlers: evict when `size >= cap`, then
      set. The size of a well-formed state is the length of its order. */
  function Insert<V>(cap: nat, c: CacheState<V>, key: string, v: V): (r: CacheState<V>)
    ensures key in r.entries && r.entries[key] == v
    ensures forall k :: k in r.entries && k != key ==> k in c.entries && r.entries[k] == c.entries[k]
    ensures |c.order| < cap ==> c.entries.Keys <= r.entries.Keys
    ensures |c.order| >= cap && |c.order| > 0 && c.order[0] != key ==> c.order[0] !in r.entries
  {
    Set(if |c.order| >= cap then EvictOldest(c) else c, key, v)
  }

  /** Inserts the pairs left to right. */
  function InsertAll<V>(cap: nat, c: CacheState<V>, kvs: seq<(string, V)>): CacheState<V>
    decreases |kvs|
  {
    if kvs == [] then c else InsertAll(cap, Insert(cap, c, kvs[0].0, kvs[0].1), kvs[1..])
  }

  // ---------------------------------------------------------------------
  // Properties of Insert

  /** The order and the entries stay in step, and the size never passes
      the capacity. */
  lemma InsertKeepsInvariant<V>(cap: nat, c: CacheState<V>, key: string, v: V)
    requires WellFormed(c) && |c.order| <= cap && cap >= 1
    ensures WellFormed(Insert(cap, c, key, v))
    ensures |Insert(cap, c, key, v).order| <= cap
  {
    var e := if |c.order| >= cap then EvictOldest(c) else c;
    assert WellFormed(e) && |e.order| < cap + (if |c.order| >= cap then 0 else 1) by {
      if |c.order| >= cap {
        assert |[c.order[0]] + e.order| == |c.order|;
      }
    }
    assert Insert(cap, c, key, v) == Set(e, key, v);
    assert forall k :: k in Set(e, key, v).order <==> k in e.order || k == key;
  }

  /** A fresh key into a full cache: exactly the first-inserted key leaves,
      the new key is appended, and every other entry is unchanged. Below
      capacity the key is appended and nothing leaves. */
  lemma InsertFreshKey<V>(cap: nat, c: CacheState<V>, key: string, v: V)
    requires WellFormed(c) && |c.order| <= cap && cap >= 1
    requires key !in c.entries
    ensures var r := Insert(cap, c, key, v);
            if |c.order| == cap then
              && r.order == c.order[1..] + [key]
              && r.entries == (c.entries - {c.order[0]})[key := v]
              && |r.order| == cap
            else
              && r.order == c.order + [key]
              && r.entries == c.entries[key := v]
              && |r.order| == |c.order| + 1
  {
    if |c.order| == cap {
      assert key != c.order[0];
    }
  }

  lemma InsertFreshWindow<V>(cap: nat, c: CacheState<V>, key: string, v: V)
    requires WellFormed(c) && |c.order| <= cap && cap >= 1
    requires key !in c.entries
    ensures Insert(cap, c, key, v).order == Window(cap, c.order + [key])
    ensures Insert(cap, c, key, v).entries.Keys <= c.entries.Keys + {key}
  {
    InsertFreshKey(cap, c, key, v);
  }

  /** A fresh key never disturbs a key other than the evicted one. */
  lemma InsertKeepsOthers<V>(cap: nat, c: CacheState<V>, key: string, v: V, other: string)
    requires WellFormed(c) && |c.order| <= cap && cap >= 1
    requires other in c.entries && other != key
    requires |c.order| < cap || other != c.order[0]
    ensures other in Insert(cap, c, key, v).entries
    ensures Insert(cap, c, key, v).entries[other] == c.entries[other]
  {
  }

  /** The last `cap` keys of a sequence. */
  function Window(cap: nat, s: seq<string>): seq<string> {
    if |s| <= cap then s else s[|s| - cap..]
  }

  /** Inserting distinct fresh keys one after another leaves the last
      `cap` keys of the whole insertion history, oldest first. */
  lemma {:induction false} InsertAllKeepsWindow<V>(cap: nat, c: CacheState<V>, kvs: seq<(string, V)>)
    requires WellFormed(c) && |c.order| <= cap && cap >= 1
    requires forall i :: 0 <= i < |kvs| ==> kvs[i].0 !in c.entries
    requires forall i, j :: 0 <= i < j < |kvs| ==> kvs[i].0 != kvs[j].0
    ensures WellFormed(InsertAll(cap, c, kvs))
    ensures InsertAll(cap, c, kvs).order == Window(cap, c.order + KeysOf(kvs))
    decreases |kvs|
  {
    if kvs != [] {
      var key := kvs[0].0;
      var c' := Insert(cap, c, key, kvs[0].1);
      var rest := kvs[1..];
      InsertKeepsInvariant(cap, c, key, kvs[0].1);
      InsertFreshWindow(cap, c, key, kvs[0].1);
      RestStaysFresh(c, c', kvs);
      InsertAllKeepsWindow(cap, c', rest);
      assert InsertAll(cap, c, kvs) == InsertAll(cap, c', rest);
      assert KeysOf(kvs) == [key] + KeysOf(rest);
      AppendAssociative(c.order, [key], KeysOf(rest));
      WindowOfWindow(cap, c.order + [key], KeysOf(rest));
    }
  }

  lemma RestStaysFresh<V>(c: CacheState<V>, c': CacheState<V>, kvs: seq<(string, V)>)
    requires |kvs| > 0
    requires forall i :: 0 <= i < |kvs| ==> kvs[i].0 !in c.entries
    requires forall i, j :: 0 <= i < j < |kvs| ==> kvs[i].0 != kvs[j].0
    requires c'.entries.Keys <= c.entries.Keys + {kvs[0].0}
    ensures forall i :: 0 <= i < |kvs[1..]| ==> kvs[1..][i].0 !in c'.entries
    ensures forall i, j :: 0 <= i < j < |kvs[1..]| ==> kvs[1..][i].0 != kvs[1..][j].0
  {
    var rest := kvs[1..];
    forall i | 0 <= i < |rest| ensures rest[i].0 !in c'.entries {
      assert rest[i] == kvs[i + 1];
      assert kvs[0].0 != kvs[i + 1].0;
    }
    forall i, j | 0 <= i < j < |rest| ensures rest[i].0 != rest[j].0 {
      assert rest[i] == kvs[i + 1] && rest[j] == kvs[j + 1];
    }
  }

  lemma AppendAssociative(a: seq<string>, b: seq<string>, d: seq<string>)
    ensures a + (b + d) == (a + b) + d
  {
  }

  /** The keys of the pairs, in order. */
  function KeysOf<V>(kvs: seq<(string, V)>): (ks: seq<string>)
    ensures |ks| == |kvs|
  {
    if kvs == [] then [] else [kvs[0].0] + KeysOf(kvs[1..])
  }

  lemma WindowOfWindow(cap: nat, s: seq<string>, t: seq<string>)
    ensures Window(cap, Window(cap, s) + t) == Window(cap, s + t)
  {
    if |s| > cap {
      var w := s[|s| - cap..];
      assert Window(cap, s) == w && |w| == cap;
      if |t| == 0 {
        assert w + t == w && s + t == s;
      } else {
        var lhs := (w + t)[|t|..];
        var rhs := (s + t)[|s| + |t| - cap..];
        assert Window(cap, w + t) == lhs && Window(cap, s + t) == rhs;
        assert |lhs| == cap == |rhs|;
        forall k | 0 <= k < cap
          ensures lhs[k] == rhs[k]
        {
          if |t| + k < cap {
            assert lhs[k] == w[|t| + k] == s[|s| - cap + |t| + k];
          } else {
            assert lhs[k] == t[|t| + k - cap];
          }
        }
      }
    }
  }

  /** Capacity 2, three distinct keys (say "p1", "p2", "p3") inserted into
      an empty cache: the cache then holds exactly the last two. */
  lemma CapacityTwoScenario<V>(k1: string, k2: string, k3: string, a: V, b: V, d: V)
    requires k1 != k2 && k2 != k3 && k1 != k3
    ensures InsertAll(2, Empty<V>(), [(k1, a), (k2, b), (k3, d)]).order == [k2, k3]
    ensures InsertAll(2, Empty<V>(), [(k1, a), (k2, b), (k3, d)]).entries.Keys == {k2, k3}
  {
    var kvs := [(k1, a), (k2, b), (k3, d)];
    var c1 := Insert(2, Empty<V>(), k1, a);
    assert c1.order == [k1] && c1.entries.Keys == {k1};
    var c2 := Insert(2, c1, k2, b);
    assert c2.order == [k1, k2] && c2.entries.Keys == {k1, k2};
    var c3 := Insert(2, c2, k3, d);
    assert c3.order == [k2, k3] by {
      assert EvictOldest(c2).order == [k2];
    }
    assert c3.entries.Keys == {k2, k3} by {
      assert EvictOldest(c2).entries.Keys == {k2};
    }
    assert kvs[1..] == [(k2, b), (k3, d)];
    assert kvs[1..][1..] == [(k3, d)];
    assert InsertAll(2, c3, kvs[1..][1..][1..]) == c3;
    assert InsertAll(2, c2, kvs[1..][1..]) == c3;
    assert InsertAll(2, c1, kvs[1..]) == c3;
    assert InsertAll(2, Empty<V>(), kvs) == c3;
  }

  // ---------------------------------------------------------------------
  // The module-level map, updated in place

  class PageCache {
    var order: seq<string>
    var entries: map<string, seq<Candidate>>

    function State(): CacheState<seq<Candidate>>
      reads this
    {
      CacheState(order, entries)
    }

    ghost predicate Valid()
      reads this
    {
      WellFormed(State()) && |order| <= CACHE_SIZE
    }

    /** `new Map()`. */
    constructor ()
      ensures Valid() && State() == Empty()
    {
      order := [];
      entries := map[];
    }

    /** `imageCache.has(key)`. */
    method Has(key: string) returns (hit: bool)
      requires Valid()
      ensures hit <==> key in State().entries
      ensures hit <==> key in State().order
    {
      hit := key in entries;
    }

    /** `imageCache.get(key)`: the stored page, or nothing on a miss. */
    method Get(key: string) returns (page: Option<seq<Candidate>>)
      requires Valid()
      ensures key in entries ==> page == Some(entries[key])
      ensures key !in entries ==> page == None
    {
      page := if key in entries then Some(entries[key]) else None;
    }

    /** The cache write of both handlers. */
    method Put(key: string, page: seq<Candidate>)
      requires Valid()
      modifies this
      ensures Valid()
      ensures State() == Insert(CACHE_SIZE, old(State()), key, page)
    {
      InsertKeepsInvariant(CACHE_SIZE, State(), key, page);
      if |order| >= CACHE_SIZE {
        var firstKey := order[0];
        order := order[1..];
        entries := entries - {firstKey};
      }
      if key !in entries {
        order := order + [key];
      }
      entries := entries[key := page];
    }
  }
}
