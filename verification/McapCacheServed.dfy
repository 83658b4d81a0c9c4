/**
 * Whether the file is there when its path is served. A hit looks first; a store does not look
 * again after evicting, and evicts its own episode's entry, and with it the file just fetched, if two
 * downloads of that episode overlapped and its entry has become the oldest by the second store.
 */
module McapCacheServed {
  import opened Collections
  import opened McapCache
  import opened McapCacheConcurrent
  import opened McapCacheSingleFlight
  import opened McapCacheOverflow

  /** If the step answers its request, the path it answers with is on disk. */
  ghost predicate ServesPresent(cfg: Config, s: System, a: Action) {
    var t := Next(cfg, s, a);
    a.OfRequest() && a.r < |s.requests| == |t.requests| && !s.requests[a.r].pc.Done? && t.requests[a.r].pc.Done? ==>
      t.requests[a.r].pc.path in t.disk
  }

  /** What every step of every calm run of requests for at most `n` distinct episodes does. */
  ghost predicate AlwaysServesPresent(cfg: Config, n: nat) {
    forall requests, disk, actions, a | |AsSet(requests)| <= n && Calm(actions) && CalmAction(a) ::
      ServesPresent(cfg, Exec(cfg, Init(requests, disk), actions), a)
  }

  /** While all episodes fit, what was served not only is on disk but stays there. */
  lemma ServedStaysPresent(cfg: Config, requests: seq<EpisodeId>, disk: set<Path>, fails: bool, actions: seq<Action>)
    requires cfg.maxSize >= 1 && |AsSet(requests)| <= cfg.maxSize && Allowed(fails, actions)
    requires fails ==> cfg.HashIsInjective() && AtMostTwo(Init(requests, disk).requests)
    ensures var s := Exec(cfg, Init(requests, disk), actions);
            forall i | 0 <= i < |s.requests| && s.requests[i].pc.Done? :: s.requests[i].pc.path in s.disk
  {
    hide Exec, LocksKept;
    InitialInv(cfg, requests, fails, disk);
    RunKeeps(cfg, AsSet(requests), fails, Init(requests, disk), actions);
    AnswersAreOwnPaths(cfg, Init(requests, disk), actions);
  }

  lemma FittingServesPresent(cfg: Config, requests: seq<EpisodeId>, disk: set<Path>, actions: seq<Action>, a: Action)
    requires cfg.maxSize >= 1 && |AsSet(requests)| <= cfg.maxSize && Calm(actions) && CalmAction(a)
    ensures ServesPresent(cfg, Exec(cfg, Init(requests, disk), actions), a)
  {
    hide Next, Exec;
    var s := Exec(cfg, Init(requests, disk), actions);
    ServedStaysPresent(cfg, requests, disk, false, actions + [a]);
    ExecConcat(cfg, Init(requests, disk), actions, [a]);
    OneStep(cfg, s, a);
    SameIds(cfg, s, a);
  }

  lemma OneStep(cfg: Config, s: System, a: Action)
    ensures Exec(cfg, s, [a]) == Next(cfg, s, a)
  {
    hide Next;
    assert [a][1..] == [];
  }

  lemma SameIds(cfg: Config, s: System, a: Action)
    ensures var t := Next(cfg, s, a);
            |t.requests| == |s.requests| && forall i | 0 <= i < |s.requests| :: t.requests[i].id == s.requests[i].id
  {
    hide EvictWhileFull, Assign, Without, Lookup, IsHit, Keep, PathsOf, Free;
  }

  // ---- with one episode more ----

  /** The cached episodes after episodes 1 to `j` were fetched again, each evicting the next. */
  function Turn(k: nat, j: nat): (ids: seq<EpisodeId>)
    requires j < k
    ensures |ids| == k
  {
    Names(j + 2, k + 1) + Names(0, j + 1)
  }

  /** Request 2 still downloads episode 0; the first of its two downloads is stored. */
  ghost predicate Turned(k: nat, j: nat, s: System)
    requires j < k
  {
    && Latecomers(k, j, s.requests)
    && s.requests[2] == Request(Name(0), Downloading(k + 1))
    && (forall i | 0 <= i < k + 3 + j && i != 2 :: s.requests[i].pc.Done?)
    && Ids(s.cache) == Turn(k, j)
    && s.locks.Keys == AsSet(Turn(k, j)) && s.nextLock == k + 2 + j
  }

  lemma NotInTurn(k: nat, j: nat, m: nat)
    requires j < k && m == j + 1
    ensures Name(m) !in AsSet(Turn(k, j))
  {
    NameOutside(j + 2, k + 1, m);
    NameOutside(0, j + 1, m);
  }

  /** Evicting the oldest name and appending one that is not there. */
  lemma Rotate(ids: seq<EpisodeId>, x: EpisodeId)
    requires ids != [] && ids[0] !in ids[1..] && x != ids[0]
    ensures AsSet(ids) + {x} - {ids[0]} == AsSet(ids[1..] + [x])
  {
    assert ids == [ids[0]] + ids[1..];
  }

  lemma TurnTo(k: nat, j: nat)
    requires 1 <= j < k
    ensures var ids := Turn(k, j - 1);
            && ids[0] !in ids[1..] && ids[0] != Name(j) && ids[1..] + [Name(j)] == Turn(k, j)
  {
    var ids := Turn(k, j - 1);
    assert ids[0] == Name(j + 1);
    assert forall i | 0 < i < k :: |ids[i]| != j + 1;
  }

  lemma FirstTurn(k: nat)
    requires 1 <= k
    ensures var ids := Names(1, k + 1);
            && ids[0] !in ids[1..] && ids[0] != Name(0) && ids[1..] + [Name(0)] == Turn(k, 0)
  {
    var ids := Names(1, k + 1);
    assert ids[0] == Name(1);
    assert forall i | 0 < i < k :: |ids[i]| != 1;
  }

  lemma TurnStart(cfg: Config, s: System) returns (t: System)
    requires 1 <= cfg.maxSize && Twice(cfg.maxSize, s)
    ensures Reaches(cfg, s, t) && Turned(cfg.maxSize, 0, t)
  {
    hide Reaches, AsSet, IdSet, Turn;
    var k := cfg.maxSize;
    CachedIds(s.cache);
    NameOutside(1, k + 1, 0);
    t := FinishDownload(cfg, s, 1);
    FirstTurn(k);
    OneNameBefore(k);
    Rotate(Names(1, k + 1), Name(0));
  }

  lemma TurnNext(cfg: Config, j: nat, s: System) returns (t: System)
    requires 1 <= j < cfg.maxSize && Turned(cfg.maxSize, j - 1, s)
    ensures Reaches(cfg, s, t) && Turned(cfg.maxSize, j, t)
  {
    hide Reaches, AsSet, IdSet, Turn;
    var k := cfg.maxSize;
    var r := k + 2 + j;
    assert s.requests[r] == Request(Name(j), Start);
    NotInTurn(k, j - 1, j);
    CachedIds(s.cache);
    var u := StartDownload(cfg, s, r);
    t := FinishDownload(cfg, u, r);
    Then(cfg, s, u, t);
    TurnTo(k, j);
    Rotate(Turn(k, j - 1), Name(j));
  }

  lemma {:induction false} TurnAll(cfg: Config, j: nat) returns (t: System)
    requires j < cfg.maxSize
    ensures Reaches(cfg, Init(Crowd(cfg.maxSize), {}), t) && Turned(cfg.maxSize, j, t)
    decreases j
  {
    hide Reaches, Twice, Turned;
    if j == 0 {
      var s := Overflowing(cfg);
      t := TurnStart(cfg, s);
      Then(cfg, Init(Crowd(cfg.maxSize), {}), s, t);
    } else {
      var s := TurnAll(cfg, j - 1);
      t := TurnNext(cfg, j, s);
      Then(cfg, Init(Crowd(cfg.maxSize), {}), s, t);
    }
  }

  lemma ReachedIsSafe(cfg: Config, requests: seq<EpisodeId>, s: System)
    requires cfg.maxSize >= 1 && Reaches(cfg, Init(requests, {}), s)
    ensures Safe(cfg, s)
  {
    var actions :| Calm(actions) && Exec(cfg, Init(requests, {}), actions) == s;
    CacheIsBounded(cfg, Init(requests, {}), actions);
  }

  /** Storing over one's own oldest entry unlinks the file that was just fetched. */
  lemma StoreUnlinksOwn(cfg: Config, s: System, r: nat)
    requires cfg.maxSize >= 1 && |s.cache| == cfg.maxSize && Safe(cfg, s)
    requires r < |s.requests| && s.requests[r].pc.Storing? && s.cache[0].id == s.requests[r].id
    ensures !ServesPresent(cfg, s, Store(r, 0.0))
  {
    hide Assign;
    assert s.cache[0] in s.cache;
    var full := McapCache.State(s.cache, s.locks.Keys, s.disk);
    assert EvictWhileFull(cfg, full).disk == s.disk - {s.cache[0].path};
  }

  /** The end of the run: request 2 stores, and its path is gone. */
  lemma OverflowServesAbsent(cfg: Config) returns (s: System)
    requires cfg.maxSize >= 1
    ensures Reaches(cfg, Init(Crowd(cfg.maxSize), {}), s) && !ServesPresent(cfg, s, Store(2, 0.0))
  {
    hide Reaches, AsSet, ServesPresent;
    var k := cfg.maxSize;
    var t := TurnAll(cfg, k - 1);
    s := Next(cfg, t, FetchDone(2));
    One(cfg, t, FetchDone(2));
    Then(cfg, Init(Crowd(k), {}), t, s);
    ReachedIsSafe(cfg, Crowd(k), s);
    assert Turn(k, k - 1)[0] == Name(0);
    StoreUnlinksOwn(cfg, s, 2);
  }

  /** In calm runs every path served is on disk when it is served exactly while all episodes fit. */
  lemma ServedIsPresentIffAllFit(cfg: Config, n: nat)
    requires cfg.maxSize >= 1
    ensures AlwaysServesPresent(cfg, n) <==> n <= cfg.maxSize
  {
    hide Exec, AsSet, ServesPresent;
    if n <= cfg.maxSize {
      forall requests, disk, actions, a | |AsSet(requests)| <= n && Calm(actions) && CalmAction(a)
        ensures ServesPresent(cfg, Exec(cfg, Init(requests, disk), actions), a)
      {
        FittingServesPresent(cfg, requests, disk, actions, a);
      }
    } else {
      CrowdCount(cfg.maxSize);
      var s := OverflowServesAbsent(cfg);
      var actions :| Calm(actions) && Exec(cfg, Init(Crowd(cfg.maxSize), {}), actions) == s;
      assert CalmAction(Store(2, 0.0));
      assert !ServesPresent(cfg, Exec(cfg, Init(Crowd(cfg.maxSize), {}), actions), Store(2, 0.0));
    }
  }
}
