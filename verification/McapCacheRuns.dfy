/**
 * What whole sequential runs of the MCAP cache keep: which episodes are cached and in which
 * order, what is on disk, which locks exist, and in which order entries expire.
 */
module McapCacheRuns {
  import opened McapCache

  datatype Event =
    | Access(id: EpisodeId, download: Download, now: real)
    | Cleanup(now: real)
    | ClearAll
    | DeletedByOthers(path: Path)

  function Step(cfg: Config, s: State, e: Event): State {
    match e
    case Access(id, download, now) => McapCache.Access(cfg, s, id, download, now).0
    case Cleanup(now) => CleanupExpired(cfg, s, now)
    case ClearAll => Clear(s)
    case DeletedByOthers(path) => s.(disk := s.disk - {path})
  }

  /** A run starts with an empty cache in a directory that may hold files of others. */
  function Run(cfg: Config, foreign: set<Path>, trace: seq<Event>): State {
    if trace == [] then State([], {}, foreign)
    else Step(cfg, Run(cfg, foreign, trace[..|trace| - 1]), trace[|trace| - 1])
  }

  function PathSet(cache: seq<Entry>): set<Path> {
    set e | e in cache :: e.path
  }

  ghost predicate Foreign(cfg: Config, foreign: set<Path>) {
    forall id :: cfg.PathOf(id) !in foreign
  }

  /** Keys are distinct, every entry's path is its own, no lock is leaked and no file orphaned. */
  ghost predicate Tidy(cfg: Config, foreign: set<Path>, s: State) {
    && DistinctIds(s.cache)
    && (forall e | e in s.cache :: e.path == cfg.PathOf(e.id))
    && s.locks == IdSet(s.cache)
    && s.disk <= foreign + PathSet(s.cache)
    && (s.cache == [] || |s.cache| <= cfg.maxSize)
  }

  /** Tidy, and no file is missing either. */
  ghost predicate Exact(cfg: Config, foreign: set<Path>, s: State) {
    Tidy(cfg, foreign, s) && s.disk == foreign + PathSet(s.cache)
  }

  predicate Undisturbed(trace: seq<Event>) {
    forall i | 0 <= i < |trace| :: !trace[i].DeletedByOthers?
  }

  /** What holds after the last operation of a run. */
  ghost predicate Consistent(cfg: Config, foreign: set<Path>, trace: seq<Event>) {
    var s := Run(cfg, foreign, trace);
    Tidy(cfg, foreign, s) && (Undisturbed(trace) ==> Exact(cfg, foreign, s))
  }

  // ---- one operation keeps the invariant ----

  lemma DropOne(cfg: Config, foreign: set<Path>, s: State, id: EpisodeId)
    requires cfg.HashIsInjective() && Foreign(cfg, foreign) && Tidy(cfg, foreign, s)
    ensures var t := State(Without(s.cache, id), s.locks - {id}, s.disk - {cfg.PathOf(id)});
            Tidy(cfg, foreign, t) && (Exact(cfg, foreign, s) ==> Exact(cfg, foreign, t))
  {
    WithoutFacts(s.cache, id);
    forall e | e in s.cache && e.id != id ensures e.path != cfg.PathOf(id) {
      cfg.PathsAreDistinct(e.id, id);
    }
  }

  lemma {:induction false} EvictKeeps(cfg: Config, foreign: set<Path>, s: State, id: EpisodeId)
    requires cfg.HashIsInjective() && Foreign(cfg, foreign) && Tidy(cfg, foreign, s)
    requires cfg.maxSize >= 1 && !Has(s.cache, id)
    ensures var t := EvictWhileFull(cfg, State(s.cache, s.locks + {id}, s.disk + {cfg.PathOf(id)}));
            var u := State(t.cache, t.locks - {id}, t.disk - {cfg.PathOf(id)});
            && id in t.locks && cfg.PathOf(id) in t.disk
            && Tidy(cfg, foreign, u) && (Exact(cfg, foreign, s) ==> Exact(cfg, foreign, u))
            && t.cache == s.cache[if |s.cache| < cfg.maxSize then 0 else 1..]
  {
    forall e | e in s.cache ensures e.id != id && e.path != cfg.PathOf(id) {
      var i :| 0 <= i < |s.cache| && s.cache[i] == e;
      assert s.cache[i].id != id;
      cfg.PathsAreDistinct(e.id, id);
    }
    var full := State(s.cache, s.locks + {id}, s.disk + {cfg.PathOf(id)});
    if |s.cache| < cfg.maxSize {
      assert s.disk + {cfg.PathOf(id)} - {cfg.PathOf(id)} == s.disk;
      assert State(s.cache, full.locks - {id}, full.disk - {cfg.PathOf(id)}) == s;
    } else {
      var victim := s.cache[0];
      var rest := State(s.cache[1..], full.locks - {victim.id}, full.disk - {victim.path});
      assert EvictWhileFull(cfg, full) == EvictWhileFull(cfg, rest) == rest;
      assert Without(s.cache, victim.id) == s.cache[1..];
      DropOne(cfg, foreign, s, victim.id);
      assert victim in s.cache;
      assert rest.locks - {id} == s.locks - {victim.id};
      assert rest.disk - {cfg.PathOf(id)} == s.disk - {victim.path};
    }
  }

  lemma AppendFacts(cache: seq<Entry>, e: Entry)
    requires DistinctIds(cache) && !Has(cache, e.id)
    ensures DistinctIds(cache + [e])
    ensures forall f :: f in cache + [e] <==> f in cache || f == e
    ensures IdSet(cache + [e]) == IdSet(cache) + {e.id}
    ensures PathSet(cache + [e]) == PathSet(cache) + {e.path}
  {
    var c := cache + [e];
    assert forall f :: f in c <==> f in cache || f == e;
    assert forall i | 0 <= i < |cache| :: cache[i].id != e.id;
  }

  lemma TouchKeeps(cfg: Config, foreign: set<Path>, s: State, id: EpisodeId, now: real)
    requires Tidy(cfg, foreign, s) && Has(s.cache, id)
    ensures var e := Lookup(s.cache, id);
            var t := s.(cache := Without(s.cache, id) + [Entry(id, e.path, now)]);
            Tidy(cfg, foreign, t) && (Exact(cfg, foreign, s) ==> Exact(cfg, foreign, t))
  {
    var path := Lookup(s.cache, id).path;
    WithoutFacts(s.cache, id);
    AppendFacts(Without(s.cache, id), Entry(id, path, now));
    assert IdSet(Without(s.cache, id)) + {id} == IdSet(s.cache);
    assert PathSet(Without(s.cache, id)) + {path} == PathSet(s.cache);
  }

  lemma InsertKeeps(cfg: Config, foreign: set<Path>, s: State, e: Entry)
    requires var hidden := State(s.cache, s.locks - {e.id}, s.disk - {e.path}); Tidy(cfg, foreign, hidden)
    requires e.path == cfg.PathOf(e.id) && e.id in s.locks && e.path in s.disk
    requires !Has(s.cache, e.id) && |s.cache| < cfg.maxSize
    ensures var t := s.(cache := Assign(s.cache, e));
            && Tidy(cfg, foreign, t)
            && (Exact(cfg, foreign, State(s.cache, s.locks - {e.id}, s.disk - {e.path})) ==> Exact(cfg, foreign, t))
            && t.cache == s.cache + [e]
  {
    hide Assign, Has;
    AssignNew(s.cache, e);
    AppendFacts(s.cache, e);
    assert s.locks - {e.id} + {e.id} == s.locks;
    assert s.disk - {e.path} + {e.path} == s.disk;
  }

  lemma StoredMissKeeps(cfg: Config, foreign: set<Path>, s: State, id: EpisodeId, now: real)
    requires cfg.HashIsInjective() && Foreign(cfg, foreign) && cfg.maxSize >= 1
    requires Tidy(cfg, foreign, s) && !Has(s.cache, id) && id !in s.locks && cfg.PathOf(id) !in s.disk
    ensures var path := cfg.PathOf(id);
            var u := EvictWhileFull(cfg, State(s.cache, s.locks + {id}, s.disk + {path}));
            var t := u.(cache := Assign(u.cache, Entry(id, path, now)));
            Tidy(cfg, foreign, t) && (Exact(cfg, foreign, s) ==> Exact(cfg, foreign, t))
  {
    var path := cfg.PathOf(id);
    EvictKeeps(cfg, foreign, s, id);
    var u := EvictWhileFull(cfg, State(s.cache, s.locks + {id}, s.disk + {path}));
    assert !Has(u.cache, id);
    InsertKeeps(cfg, foreign, u, Entry(id, path, now));
  }

  lemma AccessKeeps(cfg: Config, foreign: set<Path>, s: State, id: EpisodeId, download: Download, now: real)
    requires cfg.HashIsInjective() && Foreign(cfg, foreign) && cfg.maxSize >= 1
    requires Tidy(cfg, foreign, s)
    ensures var t := McapCache.Access(cfg, s, id, download, now).0;
            Tidy(cfg, foreign, t) && (Exact(cfg, foreign, s) ==> Exact(cfg, foreign, t))
  {
    if Has(s.cache, id) && Lookup(s.cache, id).path in s.disk {
      TouchKeeps(cfg, foreign, s, id, now);
    } else {
      DropOne(cfg, foreign, s, id);
      if download.Stored? {
        var path := cfg.PathOf(id);
        var t := State(Without(s.cache, id), s.locks - {id}, s.disk - {path});
        assert t.locks + {id} == s.locks + {id} && t.disk + {path} == s.disk + {path};
        WithoutFacts(s.cache, id);
        StoredMissKeeps(cfg, foreign, t, id, now);
      }
    }
  }

  lemma CleanupKeeps(cfg: Config, foreign: set<Path>, s: State, now: real)
    requires cfg.HashIsInjective() && Foreign(cfg, foreign) && Tidy(cfg, foreign, s)
    ensures var t := CleanupExpired(cfg, s, now);
            Tidy(cfg, foreign, t) && (Exact(cfg, foreign, s) ==> Exact(cfg, foreign, t))
  {
    ExpiredById(cfg, s.cache, now);
    KeepFacts(s.cache, ExpiredIds(cfg, s.cache, now));
    forall e, f | e in s.cache && f in s.cache && e.id != f.id ensures e.path != f.path {
      cfg.PathsAreDistinct(e.id, f.id);
    }
  }

  lemma {:induction false} RunKeeps(cfg: Config, foreign: set<Path>, trace: seq<Event>)
    requires cfg.HashIsInjective() && Foreign(cfg, foreign) && cfg.maxSize >= 1
    ensures Consistent(cfg, foreign, trace)
  {
    if trace != [] {
      var init, last := trace[..|trace| - 1], trace[|trace| - 1];
      RunKeeps(cfg, foreign, init);
      var s := Run(cfg, foreign, init);
      match last
      case Access(id, download, now) => AccessKeeps(cfg, foreign, s, id, download, now);
      case Cleanup(now) => CleanupKeeps(cfg, foreign, s, now);
      case ClearAll => assert forall e | e in s.cache :: e.path !in foreign;
      case DeletedByOthers(path) =>
    }
  }

  /**
   * After every operation of every run the files on disk are the cached ids' paths (and what
   * was there before), and the lock table's keys are the cached ids; failed downloads,
   * evictions, expiry and clear included. Somebody else deleting files can only make files
   * go missing. This is true of a cache if and only if its size limit is at least one.
   */
  lemma DiskAndLocksMatchCache(cfg: Config, foreign: set<Path>)
    requires cfg.HashIsInjective() && Foreign(cfg, foreign)
    ensures cfg.maxSize >= 1 <==> forall trace :: Consistent(cfg, foreign, trace)
  {
    if cfg.maxSize >= 1 {
      forall trace ensures Consistent(cfg, foreign, trace) {
        RunKeeps(cfg, foreign, trace);
      }
    } else {
      var trace := [Access("a", Stored, 0.0)];
      assert trace[..0] == [];
      var s := Run(cfg, foreign, trace);
      assert Run(cfg, foreign, trace[..0]) == State([], {}, foreign);
      assert s == Step(cfg, State([], {}, foreign), trace[0]);
      assert s == State([], {"a"}, foreign + {cfg.PathOf("a")});
      assert "a" in s.locks && "a" !in IdSet(s.cache);
      assert !Consistent(cfg, foreign, trace);
    }
  }
}
