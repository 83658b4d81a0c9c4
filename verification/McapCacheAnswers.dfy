/**
 * What one request gets and leaves, whatever run of requests, cleanups, clears and deletions by
 * others came before: its own episode's file, on disk, its entry renewed, the others as they were.
 */
module McapCacheAnswers {
  import opened McapCache
  import opened McapCacheRuns

  /** The entries of all other episodes, in their order. */
  function Others(cache: seq<Entry>, id: EpisodeId): seq<Entry> {
    Keep(cache, {id})
  }

  /** The episode is cached and its own file is there. */
  predicate Available(cfg: Config, s: State, id: EpisodeId) {
    id in IdSet(s.cache) && cfg.PathOf(id) in s.disk
  }

  /** The other files: foreign ones and those of the entries that are cached before and after. */
  ghost predicate OtherFilesStay(cfg: Config, foreign: set<Path>, s: State, t: State, id: EpisodeId) {
    && (forall p | p in foreign :: p in t.disk <==> p in s.disk)
    && (forall e | e in t.cache && e.id != id :: e in s.cache && (e.path in t.disk <==> e.path in s.disk))
  }

  lemma WithoutIsOthers(cache: seq<Entry>, id: EpisodeId)
    requires DistinctIds(cache)
    ensures Without(cache, id) == Others(cache, id)
  {
    KeepAll(cache, {});
    WithoutKeep(cache, {}, id);
    assert {} + {id} == {id};
  }

  lemma OwnEntry(cfg: Config, foreign: set<Path>, s: State, id: EpisodeId)
    requires Tidy(cfg, foreign, s)
    ensures Has(s.cache, id) <==> id in IdSet(s.cache)
    ensures Has(s.cache, id) ==> Lookup(s.cache, id).path == cfg.PathOf(id)
  {
    HasMeansInIdSet(s.cache);
  }

  lemma HitAnswers(cfg: Config, foreign: set<Path>, s: State, id: EpisodeId, download: Download, now: real)
    requires Tidy(cfg, foreign, s) && Available(cfg, s, id)
    ensures McapCache.Access(cfg, s, id, download, now) ==
            (s.(cache := Others(s.cache, id) + [Entry(id, cfg.PathOf(id), now)]), Served(cfg.PathOf(id)))
  {
    hide Without, Lookup, Keep;
    OwnEntry(cfg, foreign, s, id);
    WithoutIsOthers(s.cache, id);
  }

  /** The oldest of the others goes if they fill the cache, and nothing else does. */
  lemma RoomMade(cfg: Config, s: State)
    requires 1 <= cfg.maxSize && |s.cache| <= cfg.maxSize
    ensures EvictWhileFull(cfg, s) ==
            if |s.cache| < cfg.maxSize then s
            else State(s.cache[1..], s.locks - {s.cache[0].id}, s.disk - {s.cache[0].path})
  {
  }

  lemma MissAnswers(cfg: Config, foreign: set<Path>, s: State, id: EpisodeId, now: real)
    requires cfg.maxSize >= 1 && Tidy(cfg, foreign, s) && !Available(cfg, s, id)
    ensures var (t, outcome) := McapCache.Access(cfg, s, id, Stored, now);
            var others := Others(s.cache, id);
            var path, evicts := cfg.PathOf(id), |others| == cfg.maxSize;
            && outcome == Served(path)
            && t.cache == others[if evicts then 1 else 0..] + [Entry(id, path, now)]
            && t.disk == s.disk + {path} - (if evicts then {others[0].path} else {})
  {
    hide EvictWhileFull, Without, Lookup, Keep, Assign, DistinctIds, Has;
    OwnEntry(cfg, foreign, s, id);
    WithoutFacts(s.cache, id);
    WithoutIsOthers(s.cache, id);
    var full := State(Others(s.cache, id), s.locks + {id}, s.disk + {cfg.PathOf(id)});
    RoomMade(cfg, full);
    EvictDistinct(cfg, full, id);
    AssignNew(EvictWhileFull(cfg, full).cache, Entry(id, cfg.PathOf(id), now));
  }

  lemma FailureAnswers(cfg: Config, foreign: set<Path>, s: State, id: EpisodeId, partialFile: bool, now: real)
    requires Tidy(cfg, foreign, s) && !Available(cfg, s, id)
    ensures var (t, outcome) := McapCache.Access(cfg, s, id, Failed(partialFile), now);
            outcome == DownloadFailed && t.cache == Others(s.cache, id) && t.disk == s.disk - {cfg.PathOf(id)}
  {
    hide Without, Lookup, Keep;
    OwnEntry(cfg, foreign, s, id);
    WithoutIsOthers(s.cache, id);
  }

  lemma OthersFacts(cfg: Config, foreign: set<Path>, s: State, id: EpisodeId)
    requires cfg.HashIsInjective() && Tidy(cfg, foreign, s)
    ensures var others := Others(s.cache, id);
            && DistinctIds(others)
            && (forall e | e in others :: e in s.cache && e.id != id && e.path != cfg.PathOf(id))
            && (forall i, j | 0 <= i < j < |others| :: others[i].path != others[j].path)
            && |others| <= |s.cache|
  {
    hide Keep;
    KeepFacts(s.cache, {id});
    var others := Others(s.cache, id);
    forall e | e in others ensures e.path != cfg.PathOf(id) {
      cfg.PathsAreDistinct(e.id, id);
    }
    forall i, j | 0 <= i < j < |others| ensures others[i].path != others[j].path {
      assert others[i] in others && others[j] in others;
      cfg.PathsAreDistinct(others[i].id, others[j].id);
    }
  }

  /**
   * A request in state `s` is answered unless the episode is not available and its download fails.
   * The answer is the episode's own path, and the file is there. The episode is then the most
   * recently used one, at the time of the request; all others are as they were and where they were,
   * but for the oldest one if there is no room. A failed request leaves neither entry nor file of
   * the episode. No other file is touched.
   */
  ghost predicate Answers(cfg: Config, foreign: set<Path>, s: State, id: EpisodeId, download: Download, now: real,
                          t: State, outcome: Outcome)
    requires cfg.maxSize >= 1
  {
    var others, path := Others(s.cache, id), cfg.PathOf(id);
    var answered := Available(cfg, s, id) || download.Stored?;
    && outcome == (if answered then Served(path) else DownloadFailed)
    && (path in t.disk <==> answered)
    && t.cache == (if answered then others[if |others| < cfg.maxSize then 0 else 1..] + [Entry(id, path, now)]
                   else others)
    && OtherFilesStay(cfg, foreign, s, t, id)
  }

  lemma FewerOthers(cfg: Config, foreign: set<Path>, s: State, id: EpisodeId)
    requires Tidy(cfg, foreign, s) && Available(cfg, s, id)
    ensures |Others(s.cache, id)| < cfg.maxSize && cfg.PathOf(id) in s.disk
  {
    hide Keep;
    OwnEntry(cfg, foreign, s, id);
    WithoutFacts(s.cache, id);
    WithoutIsOthers(s.cache, id);
  }

  lemma RequestInTidyState(cfg: Config, foreign: set<Path>, s: State, id: EpisodeId, download: Download, now: real)
    requires cfg.HashIsInjective() && Foreign(cfg, foreign) && cfg.maxSize >= 1 && Tidy(cfg, foreign, s)
    ensures var (t, outcome) := McapCache.Access(cfg, s, id, download, now);
            Answers(cfg, foreign, s, id, download, now, t, outcome)
  {
    hide McapCache.Access, Others, Available, DistinctIds;
    OthersFacts(cfg, foreign, s, id);
    if Available(cfg, s, id) {
      HitAnswers(cfg, foreign, s, id, download, now);
      FewerOthers(cfg, foreign, s, id);
    } else if download.Stored? {
      MissAnswers(cfg, foreign, s, id, now);
    } else {
      FailureAnswers(cfg, foreign, s, id, download.partialFile, now);
    }
  }

  /** So it is after every run. */
  lemma RequestIsAnswered(cfg: Config, foreign: set<Path>, trace: seq<Event>,
      id: EpisodeId, download: Download, now: real)
    requires cfg.HashIsInjective() && Foreign(cfg, foreign) && cfg.maxSize >= 1
    ensures var s := Run(cfg, foreign, trace);
            var (t, outcome) := McapCache.Access(cfg, s, id, download, now);
            Answers(cfg, foreign, s, id, download, now, t, outcome)
  {
    hide Run, Others, Tidy, Exact;
    var s := Run(cfg, foreign, trace);
    RunKeeps(cfg, foreign, trace);
    RequestInTidyState(cfg, foreign, s, id, download, now);
  }

  /** After any run, `clear` leaves no entry, no lock, and of the files exactly those that are not the cache's. */
  lemma ClearLeavesForeignFiles(cfg: Config, foreign: set<Path>, trace: seq<Event>)
    requires cfg.HashIsInjective() && Foreign(cfg, foreign) && cfg.maxSize >= 1
    ensures var s := Run(cfg, foreign, trace); var t := McapCache.Clear(s);
            && t.cache == [] && t.locks == {}
            && t.disk == s.disk * foreign && (Undisturbed(trace) ==> t.disk == foreign)
  {
    hide Run;
    RunKeeps(cfg, foreign, trace);
    var s := Run(cfg, foreign, trace);
    forall e | e in s.cache ensures e.path !in foreign {
      assert e.path == cfg.PathOf(e.id);
    }
  }
}
