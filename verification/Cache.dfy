/** The consensus cache of CacheManager (src/consensus.go) as the finality engine uses it. */
module Cache {
  import opened Events

  // The one entry a round has: whichever kind of list was stored last.
  datatype CacheEntry = Clothos(list: seq<EventID>) | FamousWitnesses(list: seq<EventID>)

  class CacheManager {
    var consensusCache: map<nat, CacheEntry>
    const maxCacheSize: nat

    constructor (maxSize: nat)
      ensures consensusCache == map[] && maxCacheSize == maxSize
    {
      consensusCache, maxCacheSize := map[], maxSize;
    }

    method GetConsensusCache(round: nat) returns (data: Option<CacheEntry>)
      ensures data == if round in consensusCache then Some(consensusCache[round]) else None
    {
      data := if round in consensusCache then Some(consensusCache[round]) else None;
    }

    /** Stores the entry, after an eviction if the cache is full; nothing else is added or altered. */
    method SetConsensusCache(round: nat, data: CacheEntry)
      modifies this
      ensures round in consensusCache && consensusCache[round] == data
      ensures forall r :: r in consensusCache && r != round ==>
        r in old(consensusCache) && consensusCache[r] == old(consensusCache)[r]
      ensures |old(consensusCache)| < maxCacheSize ==> consensusCache == old(consensusCache)[round := data]
      ensures 5 <= maxCacheSize && |old(consensusCache)| <= maxCacheSize ==> |consensusCache| <= maxCacheSize
    {
      if |consensusCache| >= maxCacheSize {
        EvictOldest();
      }
      assert (consensusCache[round := data]).Keys == consensusCache.Keys + {round};
      consensusCache := consensusCache[round := data];
    }

    /** Despite its name, drops a fifth of the capacity in whatever order the map is iterated. */
    method EvictOldest()
      modifies this
      ensures forall r :: r in consensusCache ==> r in old(consensusCache) && consensusCache[r] == old(consensusCache)[r]
      ensures var evict := maxCacheSize / 5; var size := |old(consensusCache)|;
        |consensusCache| == if size > evict then size - evict else size
    {
      var evictCount := maxCacheSize / 5;
      if |consensusCache| > evictCount {
        for i := 0 to evictCount
          invariant |consensusCache| == |old(consensusCache)| - i
          invariant forall r :: r in consensusCache ==> r in old(consensusCache) && consensusCache[r] == old(consensusCache)[r]
        {
          assert |consensusCache.Keys| > 0;
          var k :| k in consensusCache.Keys;
          assert (consensusCache - {k}).Keys == consensusCache.Keys - {k};
          consensusCache := consensusCache - {k};
        }
      }
    }
  }
}
