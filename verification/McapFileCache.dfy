/**
 * `McapFileCache` in place: the fields of the Python object, one method per coroutine, each
 * proved to do to the fields exactly what the functions of `McapCache` say. With nobody else
 * running, the episode lock is always free and the second look at the cache never hits.
 */
module McapCacheClass {
  import opened Collections
  import opened McapCache

  class McapFileCache {
    const cfg: Config
    var cache: seq<Entry>
    var episodeLocks: set<EpisodeId>
    var disk: set<Path>

    ghost function Current(): State
      reads this
    {
      State(cache, episodeLocks, disk)
    }

    constructor (cfg: Config, disk: set<Path>)
      ensures this.cfg == cfg && Current() == State([], {}, disk)
    {
      this.cfg, this.disk := cfg, disk;
      cache, episodeLocks := [], {};
    }

    method RemoveFile(path: Path)
      modifies this`disk
      ensures disk == old(disk) - {path}
    {
      disk := disk - {path};
    }

    method GetOrDownload(id: EpisodeId, download: Download, now: real) returns (r: Outcome)
      requires DistinctIds(cache)
      modifies this
      ensures (Current(), r) == Access(cfg, old(Current()), id, download, now)
      ensures DistinctIds(cache)
    {
      hide Without, Assign, Lookup;
      AccessDistinct(cfg, Current(), id, download, now);
      if Has(cache, id) {
        var path := Lookup(cache, id).path;
        if path in disk {
          cache := Without(cache, id) + [Entry(id, path, now)];
          return Served(path);
        }
        WithoutFacts(cache, id);
        cache := Without(cache, id);
        episodeLocks := episodeLocks - {id};
      }
      WithoutFacts(old(cache), id);
      if id !in episodeLocks {
        episodeLocks := episodeLocks + {id};
      }

      // The second check, under the episode lock: with nobody else running it never hits.
      assert !Has(cache, id);
      var tmpPath := cfg.PathOf(id);
      match download {
        case Failed(partialFile) =>
          if partialFile {
            disk := disk + {tmpPath};
          }
          RemoveFile(tmpPath);
          episodeLocks := episodeLocks - {id};
          assert Current() == State(Without(old(cache), id), old(episodeLocks) - {id}, old(disk) - {tmpPath});
          return DownloadFailed;
        case Stored =>
          disk := disk + {tmpPath};
      }

      ghost var full := Current();
      assert full == State(Without(old(cache), id), old(episodeLocks) + {id}, old(disk) + {tmpPath});
      while |cache| >= cfg.maxSize
        invariant EvictWhileFull(cfg, Current()) == EvictWhileFull(cfg, full)
        decreases |cache|
      {
        if cache == [] {
          return PopFromEmpty;
        }
        var oldest := cache[0];
        cache := cache[1..];
        episodeLocks := episodeLocks - {oldest.id};
        RemoveFile(oldest.path);
      }
      cache := Assign(cache, Entry(id, tmpPath, now));
      return Served(tmpPath);
    }

    /** The list comprehension that opens `cleanup_expired`. */
    method ListExpired(now: real) returns (expired: seq<EpisodeId>)
      requires DistinctIds(cache)
      ensures AsSet(expired) == ExpiredIds(cfg, cache, now)
      ensures forall k | 0 <= k < |expired| :: Has(cache, expired[k])
      ensures forall k, l | 0 <= k < l < |expired| :: expired[k] != expired[l]
    {
      expired := [];
      for i := 0 to |cache|
        invariant AsSet(expired) == ExpiredIds(cfg, cache[..i], now)
        invariant forall k | 0 <= k < |expired| :: Has(cache[..i], expired[k])
        invariant forall k, l | 0 <= k < l < |expired| :: expired[k] != expired[l]
      {
        assert cache[..i + 1] == cache[..i] + [cache[i]];
        assert !Has(cache[..i], cache[i].id);
        if Expired(cfg, cache[i], now) {
          assert AsSet(expired + [cache[i].id]) == AsSet(expired) + {cache[i].id};
          expired := expired + [cache[i].id];
        }
        assert cache[..i + 1][i] == cache[i];
        assert forall e :: e in cache[..i + 1] <==> e in cache[..i] || e == cache[i];
        forall k | 0 <= k < |expired| ensures Has(cache[..i + 1], expired[k]) {
          if expired[k] != cache[i].id {
            var j :| 0 <= j < i && cache[..i][j].id == expired[k];
            assert cache[..i + 1][j].id == expired[k];
          }
        }
      }
      assert cache[..|cache|] == cache;
    }

    method Pop(id: EpisodeId)
      requires Has(cache, id)
      modifies this
      ensures Current() ==
              State(Without(old(cache), id), old(episodeLocks) - {id}, old(disk) - {Lookup(old(cache), id).path})
    {
      var path := Lookup(cache, id).path;
      cache := Without(cache, id);
      episodeLocks := episodeLocks - {id};
      RemoveFile(path);
    }

    method CleanupExpired(now: real)
      requires DistinctIds(cache)
      modifies this
      ensures Current() == McapCache.CleanupExpired(cfg, old(Current()), now)
      ensures DistinctIds(cache)
    {
      hide Keep, Without, Lookup, ExpiredIds;
      var expired := ListExpired(now);
      KeepAll(cache, {});
      assert AsSet(expired[..0]) == {};
      for k := 0 to |expired|
        invariant cache == Keep(old(cache), AsSet(expired[..k]))
        invariant episodeLocks == old(episodeLocks) - AsSet(expired[..k])
        invariant disk == old(disk) - PathsOf(old(cache), AsSet(expired[..k]))
      {
        var id := expired[k];
        PopNext(old(cache), expired, k);
        WithoutKeep(old(cache), AsSet(expired[..k]), id);
        Pop(id);
      }
      assert expired[..|expired|] == expired;
      assert DistinctIds(cache) by {
        KeepFacts(old(cache), AsSet(expired));
      }
    }

    method Clear()
      modifies this
      ensures Current() == McapCache.Clear(old(Current())) && DistinctIds(cache)
    {
      for i := 0 to |cache|
        invariant cache == old(cache) && episodeLocks == old(episodeLocks)
        invariant disk == old(disk) - (set e | e in cache[..i] :: e.path)
      {
        assert cache[..i + 1] == cache[..i] + [cache[i]];
        RemoveFile(cache[i].path);
      }
      assert cache[..|cache|] == cache;
      cache, episodeLocks := [], {};
    }
  }

  lemma AsSetOneMore(ids: seq<EpisodeId>, k: nat)
    requires k < |ids|
    ensures AsSet(ids[..k + 1]) == AsSet(ids[..k]) + {ids[k]}
  {
    assert ids[..k + 1] == ids[..k] + [ids[k]];
  }

  lemma PathsOfOneMore(cache: seq<Entry>, ids: set<EpisodeId>, e: Entry)
    requires DistinctIds(cache) && e in cache
    ensures PathsOf(cache, ids + {e.id}) == PathsOf(cache, ids) + {e.path}
  {
    forall f | f in cache && f.id == e.id ensures f == e {
      LookupIs(cache, f);
      LookupIs(cache, e);
    }
  }

  /** What popping the next expired id finds: one entry, with the path to remove. */
  lemma PopNext(cache: seq<Entry>, expired: seq<EpisodeId>, k: nat)
    requires DistinctIds(cache) && k < |expired| && Has(cache, expired[k])
    requires forall i, j | 0 <= i < j < |expired| :: expired[i] != expired[j]
    ensures var popped := AsSet(expired[..k]);
            var id := expired[k];
            Has(Keep(cache, popped), id)
            && AsSet(expired[..k + 1]) == popped + {id}
            && PathsOf(cache, popped + {id}) == PathsOf(cache, popped) + {Lookup(Keep(cache, popped), id).path}
  {
    hide PathsOf, Keep;
    var popped := AsSet(expired[..k]);
    var i :| 0 <= i < |cache| && cache[i].id == expired[k];
    KeepFacts(cache, popped);
    LookupIs(Keep(cache, popped), cache[i]);
    AsSetOneMore(expired, k);
    PathsOfOneMore(cache, popped, cache[i]);
  }
}
