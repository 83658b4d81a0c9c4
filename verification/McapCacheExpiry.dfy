/**
 * Last-access times along the LRU order. With a clock that never goes back, the order of the
 * dict is the order of the times, so eviction takes the stalest entry and expiry takes a prefix.
 */
module McapCacheExpiry {
  import opened McapCache
  import opened McapCacheRuns

  /** The times in the trace never decrease and none is later than `now`. */
  predicate Clocked(trace: seq<Event>, now: real) {
    trace == [] ||
    var init, last := trace[..|trace| - 1], trace[|trace| - 1];
    if last.Access? || last.Cleanup? then last.now <= now && Clocked(init, last.now) else Clocked(init, now)
  }

  ghost predicate Sorted(cache: seq<Entry>) {
    forall i, j | 0 <= i < j < |cache| :: cache[i].lastAccess <= cache[j].lastAccess
  }

  ghost predicate NoneLater(cache: seq<Entry>, now: real) {
    forall e | e in cache :: e.lastAccess <= now
  }

  lemma {:induction false} WithoutSorted(cache: seq<Entry>, id: EpisodeId)
    requires Sorted(cache) && DistinctIds(cache)
    ensures Sorted(Without(cache, id))
  {
    hide Has, Lookup;
    if cache != [] {
      WithoutSorted(cache[1..], id);
      WithoutFacts(cache[1..], id);
      var w := Without(cache[1..], id);
      forall i | 0 <= i < |w| ensures cache[0].lastAccess <= w[i].lastAccess {
        assert w[i] in cache[1..];
      }
      assert forall i | 0 < i < |w| + 1 :: ([cache[0]] + w)[i] == w[i - 1];
    }
  }

  lemma {:induction false} EvictSorted(cfg: Config, s: State, id: EpisodeId, now: real)
    requires Sorted(s.cache) && NoneLater(s.cache, now) && !Has(s.cache, id)
    ensures var kept := EvictWhileFull(cfg, s).cache;
            Sorted(kept) && NoneLater(kept, now) && !Has(kept, id)
    decreases |s.cache|
  {
    if !(|s.cache| < cfg.maxSize || s.cache == []) {
      var rest := State(s.cache[1..], s.locks - {s.cache[0].id}, s.disk - {s.cache[0].path});
      assert forall i | 0 <= i < |rest.cache| :: rest.cache[i] == s.cache[i + 1];
      EvictSorted(cfg, rest, id, now);
    }
  }

  lemma AppendSorted(cache: seq<Entry>, e: Entry)
    requires Sorted(cache) && NoneLater(cache, e.lastAccess)
    ensures Sorted(cache + [e]) && NoneLater(cache + [e], e.lastAccess)
  {
    assert forall i | 0 <= i < |cache| :: cache[i] in cache;
  }

  lemma AccessSorted(cfg: Config, s: State, id: EpisodeId, download: Download, now: real)
    requires DistinctIds(s.cache) && Sorted(s.cache) && NoneLater(s.cache, now)
    ensures var t := McapCache.Access(cfg, s, id, download, now).0;
            Sorted(t.cache) && NoneLater(t.cache, now)
  {
    WithoutFacts(s.cache, id);
    WithoutSorted(s.cache, id);
    var w := Without(s.cache, id);
    if Has(s.cache, id) && Lookup(s.cache, id).path in s.disk {
      AppendSorted(w, Entry(id, Lookup(s.cache, id).path, now));
    } else if download.Stored? {
      var full := State(w, s.locks + {id}, s.disk + {cfg.PathOf(id)});
      EvictSorted(cfg, full, id, now);
      var kept := EvictWhileFull(cfg, full).cache;
      AssignNew(kept, Entry(id, cfg.PathOf(id), now));
      AppendSorted(kept, Entry(id, cfg.PathOf(id), now));
    }
  }

  lemma {:induction false} KeepPrefix(cfg: Config, cache: seq<Entry>, drop: set<EpisodeId>, now: real) returns (n: nat)
    requires Sorted(cache)
    requires forall e | e in cache :: e.id in drop <==> Expired(cfg, e, now)
    ensures n <= |cache| && Keep(cache, drop) == cache[n..]
    ensures forall i | 0 <= i < |cache| :: Expired(cfg, cache[i], now) <==> i < n
  {
    if cache == [] {
      n := 0;
    } else if cache[0].id in drop {
      n := KeepPrefix(cfg, cache[1..], drop, now);
      assert forall i | 0 < i < |cache| :: cache[i] == cache[1..][i - 1];
      assert Expired(cfg, cache[0], now);
      n := n + 1;
    } else {
      n := 0;
      assert !Expired(cfg, cache[0], now);
      assert forall i | 0 <= i < |cache| :: cache[i] in cache && !Expired(cfg, cache[i], now);
      KeepAll(cache, drop);
    }
  }

  lemma {:induction false} RunSorted(cfg: Config, foreign: set<Path>, trace: seq<Event>, now: real)
    requires cfg.HashIsInjective() && Foreign(cfg, foreign) && cfg.maxSize >= 1 && Clocked(trace, now)
    ensures var cache := Run(cfg, foreign, trace).cache;
            DistinctIds(cache) && Sorted(cache) && NoneLater(cache, now)
  {
    RunKeeps(cfg, foreign, trace);
    if trace != [] {
      var init, last := trace[..|trace| - 1], trace[|trace| - 1];
      var s := Run(cfg, foreign, init);
      RunKeeps(cfg, foreign, init);
      match last
      case Access(id, download, at) =>
        RunSorted(cfg, foreign, init, at);
        AccessSorted(cfg, s, id, download, at);
      case Cleanup(at) =>
        RunSorted(cfg, foreign, init, at);
        ExpiredById(cfg, s.cache, at);
        var n := KeepPrefix(cfg, s.cache, ExpiredIds(cfg, s.cache, at), at);
      case ClearAll =>
      case DeletedByOthers(path) =>
        RunSorted(cfg, foreign, init, now);
    }
  }

  /** The entry eviction would take next has the smallest last-access time of all. */
  lemma VictimIsStalest(cfg: Config, foreign: set<Path>, trace: seq<Event>, now: real)
    requires cfg.HashIsInjective() && Foreign(cfg, foreign) && cfg.maxSize >= 1 && Clocked(trace, now)
    ensures var cache := Run(cfg, foreign, trace).cache;
            forall e | e in cache :: cache[0].lastAccess <= e.lastAccess <= now
  {
    RunSorted(cfg, foreign, trace, now);
  }

  /** Cleanup removes a prefix of the LRU order, exactly the entries past their time to live. */
  lemma CleanupRemovesExpiredPrefix(cfg: Config, foreign: set<Path>, trace: seq<Event>, now: real)
    requires cfg.HashIsInjective() && Foreign(cfg, foreign) && cfg.maxSize >= 1 && Clocked(trace, now)
    ensures var s := Run(cfg, foreign, trace);
            exists n :: 0 <= n <= |s.cache|
                        && CleanupExpired(cfg, s, now).cache == s.cache[n..]
                        && (forall i | 0 <= i < n :: now - s.cache[i].lastAccess > cfg.ttl)
                        && (forall i | n <= i < |s.cache| :: now - s.cache[i].lastAccess <= cfg.ttl)
  {
    RunSorted(cfg, foreign, trace, now);
    var s := Run(cfg, foreign, trace);
    ExpiredById(cfg, s.cache, now);
    var n := KeepPrefix(cfg, s.cache, ExpiredIds(cfg, s.cache, now), now);
    assert forall i | 0 <= i < |s.cache| :: Expired(cfg, s.cache[i], now) <==> i < n;
  }
}
