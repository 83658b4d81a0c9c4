/**
 * The MCAP cache under concurrent requests, as a step system.
 *
 * A section under the global lock holds no `await`, so it is one atomic step; between steps any
 * other request, the cleanup task or `clear` may run. A request that finds the cache empty of
 * its episode waits for the lock object the table had at that moment. Eviction, expiry, failure
 * and a missing file drop lock objects from the table while others may still wait on them.
 * An action that is not enabled leaves the state alone, so every list of actions is a run.
 */
module McapCacheConcurrent {
  import opened McapCache

  type LockId = nat

  datatype Pc =
    | Start
    | Waiting(lock: LockId)
    | Checking(lock: LockId)
    | Downloading(lock: LockId)
    | Storing(lock: LockId)
    | Failing(lock: LockId)
    | Done(path: Path)
    | Raised
    | Cancelled
  {
    predicate Holds(l: LockId) {
      (Checking? || Downloading? || Storing? || Failing?) && lock == l
    }
  }

  /** `Done` carries the path the request was answered with. */
  datatype Request = Request(id: EpisodeId, pc: Pc)

  /** `fetched` counts the completed downloads of each episode. */
  datatype System = System(
    cache: seq<Entry>, locks: map<EpisodeId, LockId>, nextLock: LockId, disk: set<Path>,
    requests: seq<Request>, fetched: multiset<EpisodeId>)

  datatype Action =
    | Begin(r: nat, now: real)
    | Acquire(r: nat)
    | Recheck(r: nat, now: real)
    | WritePart(r: nat)
    | FetchDone(r: nat)
    | FetchFails(r: nat)
    | GiveUp(r: nat)
    | Store(r: nat, now: real)
    | Cancel(r: nat)
    | Expire(ids: set<EpisodeId>)
    | ClearAll
    | DeletedByOthers(path: Path)
  {
    predicate OfRequest() {
      !Expire? && !ClearAll? && !DeletedByOthers?
    }
  }

  predicate Free(s: System, l: LockId) {
    forall i | 0 <= i < |s.requests| :: !s.requests[i].pc.Holds(l)
  }

  predicate Enabled(s: System, a: Action) {
    a.OfRequest() ==>
      a.r < |s.requests| &&
      var pc := s.requests[a.r].pc;
      match a
      case Begin(_, _) => pc.Start?
      case Acquire(_) => pc.Waiting? && Free(s, pc.lock)
      case Recheck(_, _) => pc.Checking?
      case WritePart(_) => pc.Downloading?
      case FetchDone(_) => pc.Downloading?
      case FetchFails(_) => pc.Downloading?
      case GiveUp(_) => pc.Failing?
      case Store(_, _) => pc.Storing?
      case Cancel(_) => pc.Waiting? || pc.Downloading?
      case _ => true
  }

  function Goto(s: System, r: nat, pc: Pc): System
    requires r < |s.requests|
  {
    s.(requests := s.requests[r := s.requests[r].(pc := pc)])
  }

  predicate IsHit(s: System, id: EpisodeId) {
    Has(s.cache, id) && Lookup(s.cache, id).path in s.disk
  }

  function Touch(s: System, id: EpisodeId, now: real): System
    requires Has(s.cache, id)
  {
    s.(cache := Without(s.cache, id) + [Entry(id, Lookup(s.cache, id).path, now)])
  }

  function FastCheck(s: System, r: nat, now: real): System
    requires r < |s.requests|
  {
    var id := s.requests[r].id;
    if IsHit(s, id) then Goto(Touch(s, id, now), r, Done(Lookup(s.cache, id).path))
    else
      var t := if Has(s.cache, id) then s.(cache := Without(s.cache, id), locks := s.locks - {id}) else s;
      if id in t.locks then Goto(t, r, Waiting(t.locks[id]))
      else Goto(t.(locks := t.locks[id := t.nextLock], nextLock := t.nextLock + 1), r, Waiting(t.nextLock))
  }

  function EvictAndInsert(cfg: Config, s: System, r: nat, now: real): System
    requires r < |s.requests|
  {
    var id := s.requests[r].id;
    var t := EvictWhileFull(cfg, McapCache.State(s.cache, s.locks.Keys, s.disk));
    var u := s.(cache := t.cache, locks := (map k | k in s.locks && k in t.locks :: s.locks[k]), disk := t.disk);
    if cfg.maxSize <= 0 then Goto(u, r, Raised)
    else Goto(u.(cache := Assign(u.cache, Entry(id, cfg.PathOf(id), now))), r, Done(cfg.PathOf(id)))
  }

  function Next(cfg: Config, s: System, a: Action): System {
    if !Enabled(s, a) then s
    else
      match a
      case Begin(r, now) => FastCheck(s, r, now)
      case Acquire(r) => Goto(s, r, Checking(s.requests[r].pc.lock))
      case Recheck(r, now) =>
        var id := s.requests[r].id;
        if IsHit(s, id) then Goto(Touch(s, id, now), r, Done(Lookup(s.cache, id).path))
        else Goto(s, r, Downloading(s.requests[r].pc.lock))
      case WritePart(r) => s.(disk := s.disk + {cfg.PathOf(s.requests[r].id)})
      case FetchDone(r) =>
        Goto(s.(disk := s.disk + {cfg.PathOf(s.requests[r].id)},
                fetched := s.fetched + multiset{s.requests[r].id}),
             r, Storing(s.requests[r].pc.lock))
      case FetchFails(r) =>
        Goto(s.(disk := s.disk - {cfg.PathOf(s.requests[r].id)}), r, Failing(s.requests[r].pc.lock))
      case GiveUp(r) => Goto(s.(locks := s.locks - {s.requests[r].id}), r, Raised)
      case Store(r, now) => EvictAndInsert(cfg, s, r, now)
      case Cancel(r) => Goto(s, r, Cancelled)
      case Expire(ids) =>
        s.(cache := Keep(s.cache, ids),
           locks := s.locks - (set e | e in s.cache && e.id in ids :: e.id),
           disk := s.disk - PathsOf(s.cache, ids))
      case ClearAll => s.(cache := [], locks := map[], disk := s.disk - (set e | e in s.cache :: e.path))
      case DeletedByOthers(path) => s.(disk := s.disk - {path})
  }

  function Exec(cfg: Config, s: System, actions: seq<Action>): System
    decreases |actions|
  {
    if actions == [] then s else Exec(cfg, Next(cfg, s, actions[0]), actions[1..])
  }

  function Init(ids: seq<EpisodeId>, disk: set<Path>): System {
    System([], map[], 0, disk, seq(|ids|, i requires 0 <= i < |ids| => Request(ids[i], Start)), multiset{})
  }

  // ---- every interleaving ----

  ghost predicate Safe(cfg: Config, s: System) {
    && DistinctIds(s.cache)
    && |s.cache| <= cfg.maxSize
    && (forall e | e in s.cache :: e.path == cfg.PathOf(e.id))
  }

  lemma {:induction false} EvictMakesRoom(cfg: Config, s: McapCache.State)
    requires cfg.maxSize >= 1 && DistinctIds(s.cache)
    ensures var t := EvictWhileFull(cfg, s);
            && DistinctIds(t.cache) && |t.cache| < cfg.maxSize
            && (forall e | e in t.cache :: e in s.cache)
            && (forall p | p in s.disk && p !in t.disk :: exists e :: e in s.cache && e !in t.cache && e.path == p)
    decreases |s.cache|
  {
    if |s.cache| >= cfg.maxSize {
      var victim := s.cache[0];
      var rest := McapCache.State(s.cache[1..], s.locks - {victim.id}, s.disk - {victim.path});
      EvictMakesRoom(cfg, rest);
      var t := EvictWhileFull(cfg, s);
      assert t == EvictWhileFull(cfg, rest);
      assert victim in s.cache && victim !in rest.cache;
      forall p | p in s.disk && p !in t.disk
        ensures exists e :: e in s.cache && e !in t.cache && e.path == p
      {
        if p != victim.path {
          var e :| e in rest.cache && e !in t.cache && e.path == p;
          assert e in s.cache;
        }
      }
    }
  }

  lemma {:induction false} AssignFacts(cache: seq<Entry>, e: Entry)
    requires DistinctIds(cache)
    ensures DistinctIds(Assign(cache, e))
    ensures forall f :: f in Assign(cache, e) <==> f == e || (f in cache && f.id != e.id)
    ensures |Assign(cache, e)| == if Has(cache, e.id) then |cache| else |cache| + 1
  {
    if cache != [] {
      var tail := cache[1..];
      AssignFacts(tail, e);
      assert forall f :: f in cache <==> f == cache[0] || f in tail;
      assert Has(cache, e.id) <==> cache[0].id == e.id || Has(tail, e.id);
      var w := Assign(tail, e);
      if cache[0].id == e.id {
        assert forall f | f in tail :: f.id != e.id;
        assert Assign(cache, e) == [e] + tail;
        assert forall i | 0 < i < |cache| :: ([e] + tail)[i] == cache[i];
      } else {
        forall i | 0 <= i < |w| ensures w[i].id != cache[0].id {
          assert w[i] in w;
        }
        assert forall i | 0 < i < |w| + 1 :: ([cache[0]] + w)[i] == w[i - 1];
      }
    }
  }

  lemma TouchFacts(s: System, id: EpisodeId, now: real)
    requires DistinctIds(s.cache) && Has(s.cache, id)
    ensures var c := Touch(s, id, now).cache;
            && DistinctIds(c) && |c| == |s.cache|
            && (forall e :: e in c <==> e == Entry(id, Lookup(s.cache, id).path, now) || (e in s.cache && e.id != id))
  {
    WithoutFacts(s.cache, id);
    var w := Without(s.cache, id);
    var e := Entry(id, Lookup(s.cache, id).path, now);
    assert forall f :: f in w + [e] <==> f in w || f == e;
    assert forall i | 0 <= i < |w| :: w[i] in w;
  }

  lemma StepIsSafe(cfg: Config, s: System, a: Action)
    requires cfg.maxSize >= 1 && Safe(cfg, s)
    ensures Safe(cfg, Next(cfg, s, a))
  {
    hide EvictWhileFull, Assign, Lookup, Without, Keep, Free;
    if Enabled(s, a) {
      match a
      case Begin(r, now) =>
        WithoutFacts(s.cache, s.requests[r].id);
        if IsHit(s, s.requests[r].id) {
          TouchFacts(s, s.requests[r].id, now);
        }
      case Recheck(r, now) =>
        if IsHit(s, s.requests[r].id) {
          TouchFacts(s, s.requests[r].id, now);
        }
      case Store(r, now) =>
        var full := McapCache.State(s.cache, s.locks.Keys, s.disk);
        EvictMakesRoom(cfg, full);
        AssignFacts(EvictWhileFull(cfg, full).cache, Entry(s.requests[r].id, cfg.PathOf(s.requests[r].id), now));
      case Expire(ids) => KeepFacts(s.cache, ids);
      case _ =>
    }
  }

  /**
   * In every interleaving, failures, cancellations, expiry, clear and deletions by others
   * included, the cache never holds more than `maxSize` entries, each under its own key and
   * with its own path; and from wherever the run is, the eviction loop ends by its own test, so
   * it never pops from an empty dict.
   */
  lemma {:induction false} CacheIsBounded(cfg: Config, s: System, actions: seq<Action>)
    requires cfg.maxSize >= 1 && Safe(cfg, s)
    ensures var t := Exec(cfg, s, actions);
            && Safe(cfg, t)
            && |EvictWhileFull(cfg, McapCache.State(t.cache, t.locks.Keys, t.disk)).cache| < cfg.maxSize
    decreases |actions|
  {
    hide Next;
    if actions != [] {
      StepIsSafe(cfg, s, actions[0]);
      CacheIsBounded(cfg, Next(cfg, s, actions[0]), actions[1..]);
    } else {
      EvictMakesRoom(cfg, McapCache.State(s.cache, s.locks.Keys, s.disk));
    }
  }

  /**
   * A step that takes an episode out never unlinks the file of one that stays: a cached
   * episode loses its file only to somebody outside, or to a request for that same episode.
   */
  lemma OnlyOwnFilesUnlinked(cfg: Config, s: System, a: Action, e: Entry)
    requires cfg.maxSize >= 1 && cfg.HashIsInjective() && Safe(cfg, s)
    requires e in Next(cfg, s, a).cache && e.path in s.disk && e.path !in Next(cfg, s, a).disk
    requires !a.DeletedByOthers?
    ensures a.FetchFails? || a.Store?
    ensures s.requests[a.r].id == e.id && Has(s.cache, e.id)
  {
    hide EvictWhileFull, Assign, Lookup, Without, Free;
    StepIsSafe(cfg, s, a);
    forall x, y: EpisodeId | x != y ensures cfg.PathOf(x) != cfg.PathOf(y) {
      cfg.PathsAreDistinct(x, y);
    }
    match a
    case Store(r, now) =>
      var full := McapCache.State(s.cache, s.locks.Keys, s.disk);
      EvictMakesRoom(cfg, full);
      var t := EvictWhileFull(cfg, full);
      AssignFacts(t.cache, Entry(s.requests[r].id, cfg.PathOf(s.requests[r].id), now));
      var gone :| gone in s.cache && gone !in t.cache && gone.path == e.path;
      LookupIs(s.cache, gone);
      if e in t.cache {
        LookupIs(s.cache, e);
      }
    case FetchFails(r) => LookupIs(s.cache, e);
    case Expire(ids) => KeepFacts(s.cache, ids);
    case _ =>
  }

  // ---- what a request is answered with ----

  /** Every request answered got the path of its own episode. */
  ghost predicate AnswersOwn(cfg: Config, s: System) {
    forall i | 0 <= i < |s.requests| && s.requests[i].pc.Done? :: s.requests[i].pc.path == cfg.PathOf(s.requests[i].id)
  }

  lemma StepAnswersOwn(cfg: Config, s: System, a: Action)
    requires Safe(cfg, s) && AnswersOwn(cfg, s)
    ensures AnswersOwn(cfg, Next(cfg, s, a))
  {
    hide EvictWhileFull, Assign, Without, Keep, Lookup, Free;
  }

  /** In every interleaving, hit or download, under whatever lock object: nobody is handed another episode's file. */
  lemma {:induction false} AnswersAreOwnPaths(cfg: Config, s: System, actions: seq<Action>)
    requires cfg.maxSize >= 1 && Safe(cfg, s) && AnswersOwn(cfg, s)
    ensures AnswersOwn(cfg, Exec(cfg, s, actions))
    decreases |actions|
  {
    hide Next, Safe, AnswersOwn;
    if actions != [] {
      StepIsSafe(cfg, s, actions[0]);
      StepAnswersOwn(cfg, s, actions[0]);
      AnswersAreOwnPaths(cfg, Next(cfg, s, actions[0]), actions[1..]);
    }
  }

  /** The step answers request `r` at time `now`. */
  predicate Answers(cfg: Config, s: System, a: Action, r: nat, now: real) {
    && (a == Begin(r, now) || a == Recheck(r, now) || a == Store(r, now)) && Enabled(s, a)
    && r < |Next(cfg, s, a).requests| && Next(cfg, s, a).requests[r].pc.Done?
  }

  /**
   * Whoever answers a request leaves its episode cached, used just then; and a hit moves it behind
   * all others, which stay what they were.
   */
  lemma AnswerRenews(cfg: Config, s: System, a: Action, r: nat, now: real)
    requires cfg.maxSize >= 1 && Safe(cfg, s) && Answers(cfg, s, a, r, now)
    ensures var t, id := Next(cfg, s, a), s.requests[r].id; var renewed := Entry(id, cfg.PathOf(id), now);
            && renewed in t.cache
            && (forall e | e in t.cache && e.id != id :: e in s.cache)
            && (!a.Store? ==> t.cache[|t.cache| - 1] == renewed && t.disk == s.disk
                              && forall e | e in s.cache && e.id != id :: e in t.cache)
  {
    hide EvictWhileFull, Assign, Without, Free;
    if a.Store? {
      var full := McapCache.State(s.cache, s.locks.Keys, s.disk);
      EvictMakesRoom(cfg, full);
      AssignFacts(EvictWhileFull(cfg, full).cache, Entry(s.requests[r].id, cfg.PathOf(s.requests[r].id), now));
    } else {
      TouchFacts(s, s.requests[r].id, now);
    }
  }

  /** A second look that finds nothing changes nothing, not even an entry whose file is missing. */
  lemma SecondLookOnlyLooks(cfg: Config, s: System, r: nat, now: real)
    requires Enabled(s, Recheck(r, now))
    ensures var t := Next(cfg, s, Recheck(r, now));
            && |t.requests| == |s.requests|
            && (if t.requests[r].pc.Done? then IsHit(s, s.requests[r].id)
                else t == s.(requests := t.requests) && t.requests[r].pc == Downloading(s.requests[r].pc.lock))
  {
    hide Lookup, Without, Has;
  }

  // ---- one request alone ----

  /** A request that nobody interrupts takes these steps. */
  function Alone(s: System, r: nat, download: Download, now: real): seq<Action>
    requires r < |s.requests|
  {
    if IsHit(s, s.requests[r].id) then [Begin(r, now)]
    else [Begin(r, now), Acquire(r), Recheck(r, now)] +
         if download.Stored? then [FetchDone(r), Store(r, now)] else [FetchFails(r), GiveUp(r)]
  }

  function Seen(s: System): McapCache.State {
    McapCache.State(s.cache, s.locks.Keys, s.disk)
  }

  lemma ExecStep(cfg: Config, s: System, a: Action, rest: seq<Action>)
    ensures Exec(cfg, s, [a] + rest) == Exec(cfg, Next(cfg, s, a), rest)
  {
    assert ([a] + rest)[1..] == rest;
  }

  lemma AloneUntilDownload(cfg: Config, s: System, r: nat, now: real, rest: seq<Action>) returns (t: System)
    requires DistinctIds(s.cache) && r < |s.requests| && s.requests[r].pc.Start?
    requires forall l :: Free(s, l)
    requires !IsHit(s, s.requests[r].id)
    ensures Exec(cfg, s, [Begin(r, now), Acquire(r), Recheck(r, now)] + rest) == Exec(cfg, t, rest)
    ensures t.cache == Without(s.cache, s.requests[r].id) && t.disk == s.disk
    ensures t.locks.Keys == s.locks.Keys + {s.requests[r].id}
    ensures |t.requests| == |s.requests|
    ensures t.requests[r].id == s.requests[r].id && t.requests[r].pc.Downloading?
  {
    hide EvictAndInsert, EvictWhileFull, Assign, Exec;
    var id := s.requests[r].id;
    WithoutFacts(s.cache, id);
    var a := Next(cfg, s, Begin(r, now));
    var l := a.requests[r].pc.lock;
    assert Free(a, l) by {
      assert Free(s, l);
      assert forall i | 0 <= i < |s.requests| && i != r :: a.requests[i] == s.requests[i];
    }
    var b := Goto(a, r, Checking(l));
    t := Goto(b, r, Downloading(l));
    assert [Begin(r, now), Acquire(r), Recheck(r, now)] + rest ==
           [Begin(r, now)] + ([Acquire(r)] + ([Recheck(r, now)] + rest));
    ExecStep(cfg, s, Begin(r, now), [Acquire(r)] + ([Recheck(r, now)] + rest));
    ExecStep(cfg, a, Acquire(r), [Recheck(r, now)] + rest);
    ExecStep(cfg, b, Recheck(r, now), rest);
  }

  lemma ExecTwo(cfg: Config, s: System, a: Action, b: Action)
    ensures Exec(cfg, s, [a, b]) == Next(cfg, Next(cfg, s, a), b)
  {
    assert [a, b] == [a] + ([b] + []);
    ExecStep(cfg, s, a, [b] + []);
    ExecStep(cfg, Next(cfg, s, a), b, []);
  }

  lemma AloneFailing(cfg: Config, s: System, r: nat)
    requires r < |s.requests| && s.requests[r].pc.Downloading?
    ensures var id, path := s.requests[r].id, cfg.PathOf(s.requests[r].id);
            var t := Exec(cfg, s, [FetchFails(r), GiveUp(r)]);
            && Seen(t) == McapCache.State(s.cache, s.locks.Keys - {id}, s.disk - {path})
            && |t.requests| == |s.requests| && t.requests[r].pc == Raised
  {
    hide Exec, EvictAndInsert, FastCheck, IsHit, Touch;
    ExecTwo(cfg, s, FetchFails(r), GiveUp(r));
  }

  lemma StoreSeen(cfg: Config, s: System, r: nat, now: real)
    requires r < |s.requests|
    ensures var id, path := s.requests[r].id, cfg.PathOf(s.requests[r].id); var u := EvictWhileFull(cfg, Seen(s));
            var t := EvictAndInsert(cfg, s, r, now);
            && Seen(t) == (if cfg.maxSize <= 0 then u else u.(cache := Assign(u.cache, Entry(id, path, now))))
            && |t.requests| == |s.requests| && t.requests[r].pc == if cfg.maxSize <= 0 then Raised else Done(path)
  {
    hide EvictWhileFull, Assign;
    EvictOnlyDropsLocks(cfg, Seen(s));
  }

  lemma AloneStoring(cfg: Config, s: System, r: nat, now: real)
    requires r < |s.requests| && s.requests[r].pc.Downloading?
    ensures var id, path := s.requests[r].id, cfg.PathOf(s.requests[r].id);
            var u := EvictWhileFull(cfg, McapCache.State(s.cache, s.locks.Keys, s.disk + {path}));
            var t := Exec(cfg, s, [FetchDone(r), Store(r, now)]);
            && Seen(t) == (if cfg.maxSize <= 0 then u else u.(cache := Assign(u.cache, Entry(id, path, now))))
            && |t.requests| == |s.requests| && t.requests[r].pc == if cfg.maxSize <= 0 then Raised else Done(path)
  {
    hide Exec, EvictWhileFull, EvictAndInsert, Assign, FastCheck, IsHit, Touch;
    ExecTwo(cfg, s, FetchDone(r), Store(r, now));
    var t := Next(cfg, s, FetchDone(r));
    assert t.requests[r] == Request(s.requests[r].id, Storing(s.requests[r].pc.lock));
    StoreSeen(cfg, t, r, now);
  }

  lemma {:induction false} EvictOnlyDropsLocks(cfg: Config, s: McapCache.State)
    ensures EvictWhileFull(cfg, s).locks <= s.locks
    decreases |s.cache|
  {
    if |s.cache| >= cfg.maxSize && s.cache != [] {
      EvictOnlyDropsLocks(cfg, McapCache.State(s.cache[1..], s.locks - {s.cache[0].id}, s.disk - {s.cache[0].path}));
    }
  }

  /** How the sequential outcome shows on the request. */
  predicate Reports(pc: Pc, outcome: Outcome) {
    match outcome
    case Served(path) => pc == Done(path)
    case _ => pc == Raised
  }

  /** The step system refines the sequential cache: a request run alone does, and answers, what `Access` says. */
  lemma AloneIsSequential(cfg: Config, s: System, r: nat, download: Download, now: real)
    requires DistinctIds(s.cache) && r < |s.requests| && s.requests[r].pc.Start?
    requires forall l :: Free(s, l)
    ensures var t := Exec(cfg, s, Alone(s, r, download, now));
            var (seen, outcome) := Access(cfg, Seen(s), s.requests[r].id, download, now);
            Seen(t) == seen && |t.requests| == |s.requests| && Reports(t.requests[r].pc, outcome)
  {
    var id := s.requests[r].id;
    if IsHit(s, id) {
      assert [Begin(r, now)] == [Begin(r, now)] + [];
      ExecStep(cfg, s, Begin(r, now), []);
    } else {
      var rest := if download.Stored? then [FetchDone(r), Store(r, now)] else [FetchFails(r), GiveUp(r)];
      var t := AloneUntilDownload(cfg, s, r, now, rest);
      if download.Stored? { AloneStoring(cfg, t, r, now); } else { AloneFailing(cfg, t, r); }
      assert s.locks.Keys + {id} - {id} == s.locks.Keys - {id};
    }
  }

  /** So do the cleanup task, with the expired ids, and `clear`. */
  lemma MaintenanceIsSequential(cfg: Config, s: System, now: real)
    ensures Seen(Next(cfg, s, Expire(ExpiredIds(cfg, s.cache, now)))) == McapCache.CleanupExpired(cfg, Seen(s), now)
    ensures Seen(Next(cfg, s, ClearAll)) == McapCache.Clear(Seen(s))
  {
    hide Keep;
    var expired := ExpiredIds(cfg, s.cache, now);
    assert (set e | e in s.cache && e.id in expired :: e.id) == expired;
    assert (s.locks - expired).Keys == s.locks.Keys - expired;
  }
}
