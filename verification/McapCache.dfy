/**
 * The LRU disk cache for downloaded MCAP files, run one operation at a time.
 *
 * The functions say what one operation does to the ordered dict, the lock table and the disk;
 * the class performs the same operations in place, statement by statement, and is proved
 * against them. The hash in the file name is a parameter.
 */
module McapCache {

  type EpisodeId = string
  type Path = string

  datatype Entry = Entry(id: EpisodeId, path: Path, lastAccess: real)

  datatype Config = Config(maxSize: int, ttl: real, dir: Path, digest: EpisodeId -> string) {
    function PathOf(id: EpisodeId): Path {
      dir + "/mcap_" + digest(id) + ".mcap"
    }

    ghost predicate HashIsInjective() {
      forall a, b :: digest(a) == digest(b) ==> a == b
    }

    /** The file lies in the cache directory and is named after the hash. */
    lemma PathIsInDir(id: EpisodeId)
      ensures var path, m, n := PathOf(id), |dir| + 6, |PathOf(id)| - 5;
              && m <= n && path[..m] == dir + "/mcap_" && path[m..n] == digest(id) && path[n..] == ".mcap"
    {
      assert PathOf(id) == (dir + "/mcap_") + (digest(id) + ".mcap");
    }

    lemma PathsAreDistinct(a: EpisodeId, b: EpisodeId)
      requires HashIsInjective() && a != b
      ensures PathOf(a) != PathOf(b)
    {
      var m, n := |dir + "/mcap_"|, |".mcap"|;
      forall id ensures PathOf(id)[m..|PathOf(id)| - n] == digest(id) {
        assert PathOf(id) == (dir + "/mcap_") + (digest(id) + ".mcap");
      }
    }
  }

  /** `cache` is the OrderedDict, least recently used entry first. */
  datatype State = State(cache: seq<Entry>, locks: set<EpisodeId>, disk: set<Path>)

  datatype Download = Stored | Failed(partialFile: bool)

  /** `PopFromEmpty` is the KeyError of `popitem` on an empty dict. */
  datatype Outcome = Served(path: Path) | DownloadFailed | PopFromEmpty

  predicate Has(cache: seq<Entry>, id: EpisodeId) {
    exists i | 0 <= i < |cache| :: cache[i].id == id
  }

  ghost predicate DistinctIds(cache: seq<Entry>) {
    forall i, j | 0 <= i < j < |cache| :: cache[i].id != cache[j].id
  }

  function Lookup(cache: seq<Entry>, id: EpisodeId): (e: Entry)
    requires Has(cache, id)
    ensures e.id == id && e in cache
  {
    if cache[0].id == id then cache[0] else Lookup(cache[1..], id)
  }

  /** Deleting a key from the dict. */
  function Without(cache: seq<Entry>, id: EpisodeId): (c: seq<Entry>) {
    if cache == [] then []
    else if cache[0].id == id then cache[1..]
    else [cache[0]] + Without(cache[1..], id)
  }

  /** Assigning a key: an existing key keeps its position, a new one goes last. */
  function Assign(cache: seq<Entry>, e: Entry): seq<Entry> {
    if cache == [] then [e]
    else if cache[0].id == e.id then [e] + cache[1..]
    else [cache[0]] + Assign(cache[1..], e)
  }

  /** `while len(self._cache) >= self._max_size: popitem(last=False)`, stopping where it raises. */
  function EvictWhileFull(cfg: Config, s: State): State
    decreases |s.cache|
  {
    if |s.cache| < cfg.maxSize || s.cache == [] then s
    else
      EvictWhileFull(cfg, State(s.cache[1..], s.locks - {s.cache[0].id}, s.disk - {s.cache[0].path}))
  }

  function Access(cfg: Config, s: State, id: EpisodeId, download: Download, now: real): (State, Outcome) {
    if Has(s.cache, id) && Lookup(s.cache, id).path in s.disk then
      var path := Lookup(s.cache, id).path;
      (s.(cache := Without(s.cache, id) + [Entry(id, path, now)]), Served(path))
    else
      var cache := Without(s.cache, id);
      if download.Failed? then
        (State(cache, s.locks - {id}, s.disk - {cfg.PathOf(id)}), DownloadFailed)
      else
        var t := EvictWhileFull(cfg, State(cache, s.locks + {id}, s.disk + {cfg.PathOf(id)}));
        if cfg.maxSize <= 0 then (t, PopFromEmpty)
        else (t.(cache := Assign(t.cache, Entry(id, cfg.PathOf(id), now))), Served(cfg.PathOf(id)))
  }

  predicate Expired(cfg: Config, e: Entry, now: real) {
    now - e.lastAccess > cfg.ttl
  }

  function ExpiredIds(cfg: Config, cache: seq<Entry>, now: real): set<EpisodeId> {
    set e | e in cache && Expired(cfg, e, now) :: e.id
  }

  function Keep(cache: seq<Entry>, drop: set<EpisodeId>): seq<Entry> {
    if cache == [] then []
    else if cache[0].id in drop then Keep(cache[1..], drop)
    else [cache[0]] + Keep(cache[1..], drop)
  }

  function PathsOf(cache: seq<Entry>, ids: set<EpisodeId>): set<Path> {
    set e | e in cache && e.id in ids :: e.path
  }

  function CleanupExpired(cfg: Config, s: State, now: real): State {
    var expired := ExpiredIds(cfg, s.cache, now);
    State(Keep(s.cache, expired),
          s.locks - expired,
          s.disk - PathsOf(s.cache, expired))
  }

  function Clear(s: State): State {
    State([], {}, s.disk - (set e | e in s.cache :: e.path))
  }

  // ---- facts about the ordered dict ----

  function IdSet(cache: seq<Entry>): set<EpisodeId> {
    set e | e in cache :: e.id
  }

  lemma HasMeansInIdSet(cache: seq<Entry>)
    ensures forall id :: Has(cache, id) <==> id in IdSet(cache)
  {
    forall id ensures Has(cache, id) <==> id in IdSet(cache) {
      if id in IdSet(cache) {
        var e :| e in cache && e.id == id;
        var i :| 0 <= i < |cache| && cache[i] == e;
        assert cache[i].id == id;
      }
    }
  }

  function Ids(cache: seq<Entry>): (ids: seq<EpisodeId>)
    ensures |ids| == |cache|
    ensures forall i | 0 <= i < |ids| :: ids[i] == cache[i].id
  {
    if cache == [] then [] else [cache[0].id] + Ids(cache[1..])
  }

  lemma OneInFront(e: Entry, tail: seq<Entry>, kept: seq<Entry>)
    requires DistinctIds([e] + tail) && DistinctIds(kept) && forall f | f in kept :: f in tail
    ensures DistinctIds([e] + kept)
  {
    forall f | f in tail ensures f.id != e.id {
      var i :| 0 <= i < |tail| && tail[i] == f;
      assert ([e] + tail)[0] == e && ([e] + tail)[i + 1] == f;
    }
    forall i | 0 <= i < |kept| ensures kept[i].id != e.id {
      assert kept[i] in tail;
    }
  }

  lemma HasInFront(e: Entry, tail: seq<Entry>, id: EpisodeId)
    ensures Has([e] + tail, id) <==> e.id == id || Has(tail, id)
  {
    if Has(tail, id) {
      var i :| 0 <= i < |tail| && tail[i].id == id;
      assert ([e] + tail)[i + 1].id == id;
    }
    if Has([e] + tail, id) && e.id != id {
      var i :| 0 <= i < |tail| + 1 && ([e] + tail)[i].id == id;
      assert tail[i - 1].id == id;
    }
    assert ([e] + tail)[0] == e;
  }

  lemma NotAgain(e: Entry, tail: seq<Entry>)
    requires DistinctIds([e] + tail)
    ensures DistinctIds(tail) && !Has(tail, e.id) && forall f | f in tail :: f.id != e.id
  {
    forall i | 0 <= i < |tail| ensures tail[i].id != e.id {
      assert ([e] + tail)[0] == e && ([e] + tail)[i + 1] == tail[i];
    }
    forall i, j | 0 <= i < j < |tail| ensures tail[i].id != tail[j].id {
      assert ([e] + tail)[i + 1] == tail[i] && ([e] + tail)[j + 1] == tail[j];
    }
  }

  lemma {:induction false} WithoutFacts(cache: seq<Entry>, id: EpisodeId)
    requires DistinctIds(cache)
    ensures DistinctIds(Without(cache, id))
    ensures forall e :: e in Without(cache, id) <==> e in cache && e.id != id
    ensures |Without(cache, id)| == if Has(cache, id) then |cache| - 1 else |cache|
    ensures !Has(cache, id) ==> Without(cache, id) == cache
    ensures !Has(Without(cache, id), id)
  {
    hide DistinctIds, Has;
    NoneHeld(id);
    if cache != [] {
      var head, tail := cache[0], cache[1..];
      assert cache == [head] + tail;
      NotAgain(head, tail);
      HasInFront(head, tail, id);
      WithoutFacts(tail, id);
      if head.id != id {
        var w := Without(tail, id);
        OneInFront(head, tail, w);
        HasInFront(head, w, id);
      }
    }
  }

  lemma NoneHeld(id: EpisodeId)
    ensures DistinctIds([]) && !Has([], id)
  {
  }

  lemma {:induction false} AssignNew(cache: seq<Entry>, e: Entry)
    requires !Has(cache, e.id)
    ensures Assign(cache, e) == cache + [e]
  {
    if cache != [] {
      assert cache[0].id != e.id;
      assert forall i | 0 <= i < |cache[1..]| :: cache[1..][i] == cache[i + 1];
      AssignNew(cache[1..], e);
    }
  }

  lemma {:induction false} LookupIs(cache: seq<Entry>, e: Entry)
    requires DistinctIds(cache) && e in cache
    ensures Has(cache, e.id) && Lookup(cache, e.id) == e
  {
    var i :| 0 <= i < |cache| && cache[i] == e;
    assert cache[i].id == e.id;
    if i != 0 {
      assert cache[1..][i - 1] == e;
      LookupIs(cache[1..], e);
    }
  }

  lemma ExpiredById(cfg: Config, cache: seq<Entry>, now: real)
    requires DistinctIds(cache)
    ensures forall e | e in cache :: e.id in ExpiredIds(cfg, cache, now) <==> Expired(cfg, e, now)
  {
    forall e, f | e in cache && f in cache && e.id == f.id ensures e == f {
      LookupIs(cache, e);
      LookupIs(cache, f);
    }
  }

  lemma {:induction false} KeepElements(cache: seq<Entry>, drop: set<EpisodeId>)
    ensures forall e :: e in Keep(cache, drop) <==> e in cache && e.id !in drop
    ensures |Keep(cache, drop)| <= |cache|
    ensures drop == {} ==> Keep(cache, drop) == cache
  {
    if cache != [] {
      KeepElements(cache[1..], drop);
      assert forall e :: e in cache <==> e == cache[0] || e in cache[1..];
    }
  }

  lemma {:induction false} KeepFacts(cache: seq<Entry>, drop: set<EpisodeId>)
    requires DistinctIds(cache)
    ensures DistinctIds(Keep(cache, drop))
    ensures forall e :: e in Keep(cache, drop) <==> e in cache && e.id !in drop
    ensures |Keep(cache, drop)| <= |cache|
    ensures drop == {} ==> Keep(cache, drop) == cache
  {
    KeepElements(cache, drop);
    if cache != [] {
      var tail := cache[1..];
      KeepFacts(tail, drop);
      OneInFront(cache[0], tail, Keep(tail, drop));
    }
  }

  lemma {:induction false} KeepAll(cache: seq<Entry>, drop: set<EpisodeId>)
    requires forall e | e in cache :: e.id !in drop
    ensures Keep(cache, drop) == cache
  {
    if cache != [] {
      assert cache[0] in cache;
      KeepAll(cache[1..], drop);
    }
  }

  lemma {:induction false} WithoutKeep(cache: seq<Entry>, drop: set<EpisodeId>, id: EpisodeId)
    requires DistinctIds(cache)
    ensures Without(Keep(cache, drop), id) == Keep(cache, drop + {id})
  {
    if cache != [] {
      WithoutKeep(cache[1..], drop, id);
      if cache[0].id == id && id !in drop {
        KeepFacts(cache[1..], drop);
        KeepFacts(cache[1..], drop + {id});
        WithoutFacts(Keep(cache[1..], drop), id);
        assert !Has(Keep(cache[1..], drop), id);
      }
    }
  }

  lemma {:induction false} EvictDistinct(cfg: Config, s: State, id: EpisodeId)
    requires DistinctIds(s.cache) && !Has(s.cache, id)
    ensures DistinctIds(EvictWhileFull(cfg, s).cache) && !Has(EvictWhileFull(cfg, s).cache, id)
    decreases |s.cache|
  {
    if |s.cache| >= cfg.maxSize && s.cache != [] {
      EvictDistinct(cfg, State(s.cache[1..], s.locks - {s.cache[0].id}, s.disk - {s.cache[0].path}), id);
    }
  }

  lemma AccessDistinct(cfg: Config, s: State, id: EpisodeId, download: Download, now: real)
    requires DistinctIds(s.cache)
    ensures DistinctIds(Access(cfg, s, id, download, now).0.cache)
  {
    hide EvictWhileFull, Without, Lookup, Assign;
    WithoutFacts(s.cache, id);
    var w := Without(s.cache, id);
    var full := State(w, s.locks + {id}, s.disk + {cfg.PathOf(id)});
    EvictDistinct(cfg, full, id);
    AssignNew(EvictWhileFull(cfg, full).cache, Entry(id, cfg.PathOf(id), now));
  }
}
