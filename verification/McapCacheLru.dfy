/**
 * The LRU law of the MCAP cache: after any sequential run of requests the dict holds exactly
 * the most recently used distinct episodes, in order of their last use. Inclusion of smaller
 * caches in larger ones follows from it.
 */
module McapCacheLru {
  import opened Collections
  import opened McapCache
  import opened McapCacheRuns

  /** The distinct ids of `uses`, ordered by where each occurs last. */
  function ByLastUse(uses: seq<EpisodeId>): seq<EpisodeId> {
    if uses == [] then []
    else if uses[0] in uses[1..] then ByLastUse(uses[1..])
    else [uses[0]] + ByLastUse(uses[1..])
  }

  function LastK(ids: seq<EpisodeId>, k: nat): (r: seq<EpisodeId>)
    ensures |r| <= k
  {
    if |ids| <= k then ids else ids[|ids| - k..]
  }

  function Omit(ids: seq<EpisodeId>, x: EpisodeId): seq<EpisodeId> {
    if ids == [] then []
    else if ids[0] == x then Omit(ids[1..], x)
    else [ids[0]] + Omit(ids[1..], x)
  }

  predicate OnlyRequests(trace: seq<Event>) {
    forall i | 0 <= i < |trace| :: trace[i].Access?
  }

  /** The requests of a run that returned a path, in order. */
  function Uses(cfg: Config, foreign: set<Path>, trace: seq<Event>): seq<EpisodeId>
    requires OnlyRequests(trace)
  {
    if trace == [] then []
    else
      var init, last := trace[..|trace| - 1], trace[|trace| - 1];
      var outcome := McapCache.Access(cfg, Run(cfg, foreign, init), last.id, last.download, last.now).1;
      Uses(cfg, foreign, init) + if outcome.Served? then [last.id] else []
  }

  // ---- sequences of ids ----

  lemma {:induction false} OmitFacts(ids: seq<EpisodeId>, x: EpisodeId)
    ensures x !in ids ==> Omit(ids, x) == ids
    ensures forall y :: y in Omit(ids, x) <==> y in ids && y != x
    ensures Distinct(ids) ==> Distinct(Omit(ids, x)) && |Omit(ids, x)| == |ids| - if x in ids then 1 else 0
  {
    if ids != [] {
      var t := ids[1..];
      OmitFacts(t, x);
      assert forall y :: y in ids <==> y == ids[0] || y in t;
      var o := Omit(t, x);
      if ids[0] != x && Distinct(ids) {
        forall i | 0 <= i < |o| ensures o[i] != ids[0] {
          assert o[i] in t;
        }
        assert forall i | 0 < i < |o| + 1 :: ([ids[0]] + o)[i] == o[i - 1];
      }
    }
  }

  lemma {:induction false} OmitConcat(a: seq<EpisodeId>, b: seq<EpisodeId>, x: EpisodeId)
    ensures Omit(a + b, x) == Omit(a, x) + Omit(b, x)
  {
    if a == [] {
      assert a + b == b;
    } else {
      assert (a + b)[1..] == a[1..] + b;
      OmitConcat(a[1..], b, x);
    }
  }

  lemma {:induction false} ByLastUseFacts(uses: seq<EpisodeId>)
    ensures Distinct(ByLastUse(uses))
    ensures forall x :: x in ByLastUse(uses) <==> x in uses
  {
    if uses != [] {
      var t, d := uses[1..], ByLastUse(uses[1..]);
      ByLastUseFacts(t);
      assert forall y :: y in uses <==> y == uses[0] || y in t;
      if uses[0] !in t {
        assert forall i | 0 < i < |d| + 1 :: ([uses[0]] + d)[i] == d[i - 1] && d[i - 1] in t;
      }
    }
  }

  lemma {:induction false} ByLastUseSnoc(uses: seq<EpisodeId>, x: EpisodeId)
    ensures ByLastUse(uses + [x]) == Omit(ByLastUse(uses), x) + [x]
  {
    if uses == [] {
      assert uses + [x] == [x];
    } else {
      var t := uses[1..];
      assert (uses + [x])[1..] == t + [x];
      ByLastUseSnoc(t, x);
    }
  }

  lemma {:induction false} IdsConcat(a: seq<Entry>, b: seq<Entry>)
    ensures Ids(a + b) == Ids(a) + Ids(b)
  {
  }

  lemma {:induction false} IdsWithout(cache: seq<Entry>, id: EpisodeId)
    requires DistinctIds(cache)
    ensures Ids(Without(cache, id)) == Omit(Ids(cache), id)
  {
    if cache != [] {
      IdsWithout(cache[1..], id);
      assert Ids(cache)[1..] == Ids(cache[1..]);
      if cache[0].id == id {
        OmitFacts(Ids(cache[1..]), id);
      }
    }
  }

  lemma LastKConcat(p: seq<EpisodeId>, q: seq<EpisodeId>, k: nat)
    requires p == [] || |q| >= k
    ensures LastK(p + q, k) == LastK(q, k)
  {
    assert (p + q)[|p|..] == q;
    if p != [] {
      assert (p + q)[|p| + |q| - k..] == q[|q| - k..];
    }
  }

  lemma UseSplit(p: seq<EpisodeId>, w: seq<EpisodeId>, k: nat, x: EpisodeId)
    requires Distinct(w) && 1 <= k && |w| <= k && (p == [] || |w| == k)
    ensures LastK(Omit(p + w, x) + [x], k) ==
            if x in w then Omit(w, x) + [x] else w[if |w| < k then 0 else 1..] + [x]
  {
    OmitConcat(p, w, x);
    OmitFacts(w, x);
    var q := Omit(w, x) + [x];
    assert Omit(p + w, x) + [x] == Omit(p, x) + q;
    LastKConcat(Omit(p, x), q, k);
    if x !in w && |w| == k {
      assert q[1..] == w[1..] + [x];
    }
  }

  /** Using `x` once more moves it to the end of the window, or pushes the oldest id out. */
  lemma WindowAfterUse(d: seq<EpisodeId>, k: nat, x: EpisodeId)
    requires Distinct(d) && k >= 1
    ensures var w := LastK(d, k);
            LastK(Omit(d, x) + [x], k) ==
            if x in w then Omit(w, x) + [x]
            else w[if |w| < k then 0 else 1..] + [x]
  {
    var w := LastK(d, k);
    var p := d[..|d| - |w|];
    assert d == p + w;
    UseSplit(p, w, k, x);
  }

  // ---- the run ----

  lemma HitMovesToEnd(cfg: Config, foreign: set<Path>, s: State, id: EpisodeId, download: Download, now: real)
    requires Exact(cfg, foreign, s) && Has(s.cache, id)
    ensures var (t, outcome) := McapCache.Access(cfg, s, id, download, now);
            outcome.Served? && Ids(t.cache) == Omit(Ids(s.cache), id) + [id]
  {
    assert Lookup(s.cache, id).path in PathSet(s.cache);
    IdsWithout(s.cache, id);
    IdsConcat(Without(s.cache, id), [Entry(id, Lookup(s.cache, id).path, now)]);
  }

  lemma FailedMiss(cfg: Config, foreign: set<Path>, s: State, id: EpisodeId, partialFile: bool, now: real)
    requires cfg.HashIsInjective() && Foreign(cfg, foreign) && Exact(cfg, foreign, s) && !Has(s.cache, id)
    ensures McapCache.Access(cfg, s, id, Failed(partialFile), now) == (s, DownloadFailed)
  {
    var path := cfg.PathOf(id);
    WithoutFacts(s.cache, id);
    forall e | e in s.cache ensures e.id != id && e.path != path {
      var i :| 0 <= i < |s.cache| && s.cache[i] == e;
      assert s.cache[i].id != id;
      cfg.PathsAreDistinct(e.id, id);
    }
    assert s.locks - {id} == s.locks && s.disk - {path} == s.disk;
  }

  lemma StoredMiss(cfg: Config, foreign: set<Path>, s: State, id: EpisodeId, now: real)
    requires cfg.HashIsInjective() && Foreign(cfg, foreign) && Exact(cfg, foreign, s) && !Has(s.cache, id)
    requires cfg.maxSize >= 1
    ensures var (t, outcome) := McapCache.Access(cfg, s, id, Stored, now);
            && outcome.Served?
            && Ids(t.cache) == Ids(s.cache)[if |s.cache| < cfg.maxSize then 0 else 1..] + [id]
  {
    hide Assign, EvictWhileFull, Without, Foreign;
    var path := cfg.PathOf(id);
    WithoutFacts(s.cache, id);
    EvictKeeps(cfg, foreign, s, id);
    var kept := EvictWhileFull(cfg, State(s.cache, s.locks + {id}, s.disk + {path})).cache;
    assert !Has(kept, id);
    AssignNew(kept, Entry(id, path, now));
    IdsConcat(kept, [Entry(id, path, now)]);
    assert Ids(kept) == Ids(s.cache)[if |s.cache| < cfg.maxSize then 0 else 1..];
  }

  /** One request, hit or miss, successful or not, seen on the ids alone. */
  lemma RequestMovesWindow(cfg: Config, foreign: set<Path>, s: State, id: EpisodeId, download: Download, now: real)
    requires cfg.HashIsInjective() && Foreign(cfg, foreign) && cfg.maxSize >= 1 && Exact(cfg, foreign, s)
    ensures var (t, outcome) := McapCache.Access(cfg, s, id, download, now);
            var w := Ids(s.cache);
            && (outcome.Served? <==> id in w || download.Stored?)
            && (!outcome.Served? ==> t == s)
            && (outcome.Served? ==>
                  Ids(t.cache) == if id in w then Omit(w, id) + [id]
                                  else w[if |w| < cfg.maxSize then 0 else 1..] + [id])
  {
    assert id in Ids(s.cache) <==> Has(s.cache, id);
    if Has(s.cache, id) {
      HitMovesToEnd(cfg, foreign, s, id, download, now);
    } else if download.Stored? {
      StoredMiss(cfg, foreign, s, id, now);
    } else {
      FailedMiss(cfg, foreign, s, id, download.partialFile, now);
    }
  }

  /** A failed download changes neither the dict, nor the lock table, nor the disk. */
  lemma FailedDownloadChangesNothing(cfg: Config, foreign: set<Path>, trace: seq<Event>, id: EpisodeId,
      partialFile: bool, now: real)
    requires cfg.HashIsInjective() && Foreign(cfg, foreign) && cfg.maxSize >= 1 && Undisturbed(trace)
    ensures var s := Run(cfg, foreign, trace);
            var (t, outcome) := McapCache.Access(cfg, s, id, Failed(partialFile), now);
            && (outcome.DownloadFailed? <==> !Has(s.cache, id))
            && (outcome.DownloadFailed? ==> t == s)
  {
    RunKeeps(cfg, foreign, trace);
    var s := Run(cfg, foreign, trace);
    RequestMovesWindow(cfg, foreign, s, id, Failed(partialFile), now);
    assert id in Ids(s.cache) <==> Has(s.cache, id);
  }

  /** The cached ids, in order, are the `maxSize` most recently used distinct ones. */
  lemma {:induction false} CacheIsMostRecentlyUsed(cfg: Config, foreign: set<Path>, trace: seq<Event>)
    requires cfg.HashIsInjective() && Foreign(cfg, foreign) && cfg.maxSize >= 1 && OnlyRequests(trace)
    ensures Ids(Run(cfg, foreign, trace).cache) == LastK(ByLastUse(Uses(cfg, foreign, trace)), cfg.maxSize)
  {
    if trace != [] {
      var init, last := trace[..|trace| - 1], trace[|trace| - 1];
      CacheIsMostRecentlyUsed(cfg, foreign, init);
      RunKeeps(cfg, foreign, init);
      var s, uses := Run(cfg, foreign, init), Uses(cfg, foreign, init);
      RequestMovesWindow(cfg, foreign, s, last.id, last.download, last.now);
      if McapCache.Access(cfg, s, last.id, last.download, last.now).1.Served? {
        ByLastUseFacts(uses);
        ByLastUseSnoc(uses, last.id);
        WindowAfterUse(ByLastUse(uses), cfg.maxSize, last.id);
      } else {
        assert uses + [] == uses;
      }
    }
  }

  // ---- inclusion ----

  predicate AllStored(trace: seq<Event>) {
    forall i | 0 <= i < |trace| :: trace[i].Access? && trace[i].download.Stored?
  }

  function Requested(trace: seq<Event>): (ids: seq<EpisodeId>)
    requires AllStored(trace)
  {
    if trace == [] then [] else Requested(trace[..|trace| - 1]) + [trace[|trace| - 1].id]
  }

  /** How many requests of a run found their episode in the cache. */
  function Hits(cfg: Config, foreign: set<Path>, trace: seq<Event>): nat
    requires AllStored(trace)
  {
    if trace == [] then 0
    else
      var init, last := trace[..|trace| - 1], trace[|trace| - 1];
      Hits(cfg, foreign, init) + if Has(Run(cfg, foreign, init).cache, last.id) then 1 else 0
  }

  lemma {:induction false} EveryRequestIsServed(cfg: Config, foreign: set<Path>, trace: seq<Event>)
    requires cfg.maxSize >= 1 && AllStored(trace)
    ensures OnlyRequests(trace) && Uses(cfg, foreign, trace) == Requested(trace)
  {
    if trace != [] {
      EveryRequestIsServed(cfg, foreign, trace[..|trace| - 1]);
    }
  }

  lemma SmallerWindowIsSuffix(d: seq<EpisodeId>, k: nat, l: nat)
    requires k <= l
    ensures var few, many := LastK(d, k), LastK(d, l);
            |few| <= |many| && few == many[|many| - |few|..]
  {
  }

  lemma SameFiles(cfg: Config, larger: Config, foreign: set<Path>)
    requires cfg.HashIsInjective() && Foreign(cfg, foreign) && larger.digest == cfg.digest && larger.dir == cfg.dir
    ensures larger.HashIsInjective() && Foreign(larger, foreign)
  {
    forall id ensures larger.PathOf(id) == cfg.PathOf(id) {}
  }

  /** On one failure-free trace a cache with room for fewer files holds a suffix of what a larger one holds. */
  lemma LargerCacheHoldsMore(cfg: Config, larger: Config, foreign: set<Path>, trace: seq<Event>)
    requires cfg.HashIsInjective() && Foreign(cfg, foreign) && 1 <= cfg.maxSize <= larger.maxSize
    requires larger.digest == cfg.digest && larger.dir == cfg.dir && AllStored(trace)
    ensures var few, many := Ids(Run(cfg, foreign, trace).cache), Ids(Run(larger, foreign, trace).cache);
            |few| <= |many| && few == many[|many| - |few|..]
  {
    hide Run, ByLastUse, Requested, Ids, Foreign;
    SameFiles(cfg, larger, foreign);
    EveryRequestIsServed(cfg, foreign, trace);
    EveryRequestIsServed(larger, foreign, trace);
    CacheIsMostRecentlyUsed(cfg, foreign, trace);
    CacheIsMostRecentlyUsed(larger, foreign, trace);
    SmallerWindowIsSuffix(ByLastUse(Requested(trace)), cfg.maxSize, larger.maxSize);
  }

  /** ... and so it never has more hits. */
  lemma {:induction false} LargerCacheHitsMore(cfg: Config, larger: Config, foreign: set<Path>, trace: seq<Event>)
    requires cfg.HashIsInjective() && Foreign(cfg, foreign) && 1 <= cfg.maxSize <= larger.maxSize
    requires larger.digest == cfg.digest && larger.dir == cfg.dir && AllStored(trace)
    ensures Hits(cfg, foreign, trace) <= Hits(larger, foreign, trace)
  {
    if trace != [] {
      var init, last := trace[..|trace| - 1], trace[|trace| - 1];
      LargerCacheHitsMore(cfg, larger, foreign, init);
      LargerCacheHoldsMore(cfg, larger, foreign, init);
      var c, l := Run(cfg, foreign, init).cache, Run(larger, foreign, init).cache;
      var few, many := Ids(c), Ids(l);
      if Has(c, last.id) {
        assert last.id in few;
        assert last.id in many;
      }
    }
  }
}
