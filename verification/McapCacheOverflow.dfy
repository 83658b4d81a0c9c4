/**
 * Why "at most `maxSize` distinct episodes" is needed for one download per episode: with one
 * episode more, storing it evicts another together with its lock object, a request still
 * waiting on that object and a newcomer with a fresh one then download side by side. The run that
 * shows it is one an event loop makes: all downloads finish within one iteration, and the waiting
 * request, woken when the first of them releases its lock object, goes on in the next.
 */
module McapCacheOverflow {
  import opened Collections
  import opened McapCache
  import opened McapCacheConcurrent
  import opened McapCacheSingleFlight

  function Name(j: nat): (id: EpisodeId)
    ensures |id| == j
  {
    seq(j, _ => 'e')
  }

  function Names(lo: nat, hi: nat): (ids: seq<EpisodeId>)
    requires lo <= hi
    ensures |ids| == hi - lo && forall i | 0 <= i < |ids| :: ids[i] == Name(lo + i)
  {
    seq(hi - lo, i requires 0 <= i < hi - lo => Name(lo + i))
  }

  /** Three requests for episode 0, then one each for episodes 1 to `k`, then one more each for 1 to `k - 1`. */
  function Crowd(k: nat): (ids: seq<EpisodeId>)
    requires 1 <= k
    ensures |ids| == 2 * k + 2
  {
    [Name(0), Name(0)] + Names(0, k + 1) + Names(1, k)
  }

  // ---- calm runs, composed ----

  ghost predicate Reaches(cfg: Config, s: System, t: System) {
    exists actions :: Calm(actions) && Exec(cfg, s, actions) == t
  }

  lemma {:induction false} ExecConcat(cfg: Config, s: System, a: seq<Action>, b: seq<Action>)
    ensures Exec(cfg, s, a + b) == Exec(cfg, Exec(cfg, s, a), b)
    decreases |a|
  {
    if a == [] {
      assert a + b == b;
    } else {
      assert (a + b)[1..] == a[1..] + b;
      ExecConcat(cfg, Next(cfg, s, a[0]), a[1..], b);
    }
  }

  lemma Then(cfg: Config, s: System, t: System, u: System)
    requires Reaches(cfg, s, t) && Reaches(cfg, t, u)
    ensures Reaches(cfg, s, u)
  {
    var a :| Calm(a) && Exec(cfg, s, a) == t;
    var b :| Calm(b) && Exec(cfg, t, b) == u;
    ExecConcat(cfg, s, a, b);
    assert Calm(a + b);
  }

  lemma One(cfg: Config, s: System, a: Action)
    requires CalmAction(a)
    ensures Reaches(cfg, s, Next(cfg, s, a))
  {
    assert Calm([a]) && Exec(cfg, s, [a]) == Next(cfg, s, a);
  }

  // ---- one request served ----

  /** From the first look to the start of the download, for an episode nobody knows. */
  lemma StartDownload(cfg: Config, s: System, r: nat) returns (t: System)
    requires (forall i | 0 <= i < |s.requests| :: !s.requests[i].pc.Holds(s.nextLock))
    requires r < |s.requests| && s.requests[r].pc.Start?
    requires s.requests[r].id !in IdSet(s.cache) && s.requests[r].id !in s.locks
    ensures Reaches(cfg, s, t)
    ensures t.requests == s.requests[r := Request(s.requests[r].id, Downloading(s.nextLock))]
    ensures t.cache == s.cache && t.locks == s.locks[s.requests[r].id := s.nextLock]
    ensures t.nextLock == s.nextLock + 1
  {
    HasMeansInIdSet(s.cache);
    var u := Next(cfg, s, Begin(r, 0.0));
    assert Free(u, s.nextLock);
    One(cfg, s, Begin(r, 0.0));
    t := LockAndMiss(cfg, u, r);
    Then(cfg, s, u, t);
  }

  lemma JoinQueue(cfg: Config, s: System, r: nat) returns (t: System)
    requires s.cache == [] && r < |s.requests| && s.requests[r].pc.Start? && s.requests[r].id in s.locks
    ensures Reaches(cfg, s, t)
    ensures t == s.(requests := s.requests[r := Request(s.requests[r].id, Waiting(s.locks[s.requests[r].id]))])
  {
    t := Next(cfg, s, Begin(r, 0.0));
    One(cfg, s, Begin(r, 0.0));
  }

  /** Acquiring a free lock object and still not finding the episode. */
  lemma LockAndMiss(cfg: Config, s: System, r: nat) returns (t: System)
    requires r < |s.requests| && s.requests[r].pc.Waiting? && Free(s, s.requests[r].pc.lock)
    requires s.requests[r].id !in IdSet(s.cache)
    ensures Reaches(cfg, s, t)
    ensures t == s.(requests := s.requests[r := Request(s.requests[r].id, Downloading(s.requests[r].pc.lock))])
  {
    HasMeansInIdSet(s.cache);
    var u := Goto(s, r, Checking(s.requests[r].pc.lock));
    assert Next(cfg, s, Acquire(r)) == u;
    t := Next(cfg, u, Recheck(r, 0.0));
    One(cfg, s, Acquire(r));
    One(cfg, u, Recheck(r, 0.0));
    Then(cfg, s, u, t);
  }

  /** Inserting a new episode: the oldest entry and its lock go if the cache is full. */
  lemma StoreNew(cfg: Config, s: System, r: nat) returns (t: System)
    requires 1 <= cfg.maxSize && |s.cache| <= cfg.maxSize
    requires r < |s.requests| && s.requests[r].pc.Storing? && !Has(s.cache, s.requests[r].id)
    ensures Reaches(cfg, s, t)
    ensures t.requests == s.requests[r := Request(s.requests[r].id, Done(cfg.PathOf(s.requests[r].id)))]
    ensures var full := |s.cache| == cfg.maxSize;
            && Ids(t.cache) == Ids(s.cache)[if full then 1 else 0..] + [s.requests[r].id]
            && t.locks.Keys == s.locks.Keys - (if full then {Ids(s.cache)[0]} else {})
    ensures t.nextLock == s.nextLock
  {
    var id := s.requests[r].id;
    var kept := s.cache[if |s.cache| == cfg.maxSize then 1 else 0..];
    assert EvictWhileFull(cfg, McapCache.State(s.cache, s.locks.Keys, s.disk)).cache == kept;
    assert !Has(kept, id);
    AssignNew(kept, Entry(id, cfg.PathOf(id), 0.0));
    IdsAppend(kept, Entry(id, cfg.PathOf(id), 0.0));
    assert Ids(kept) == Ids(s.cache)[if |s.cache| == cfg.maxSize then 1 else 0..];
    t := Next(cfg, s, Store(r, 0.0));
    One(cfg, s, Store(r, 0.0));
  }

  /** From the download to the answer. */
  lemma FinishDownload(cfg: Config, s: System, r: nat) returns (t: System)
    requires 1 <= cfg.maxSize && |s.cache| <= cfg.maxSize
    requires r < |s.requests| && s.requests[r].pc.Downloading? && s.requests[r].id !in IdSet(s.cache)
    ensures Reaches(cfg, s, t)
    ensures t.requests == s.requests[r := Request(s.requests[r].id, Done(cfg.PathOf(s.requests[r].id)))]
    ensures var full := |s.cache| == cfg.maxSize;
            && Ids(t.cache) == Ids(s.cache)[if full then 1 else 0..] + [s.requests[r].id]
            && t.locks.Keys == s.locks.Keys - (if full then {Ids(s.cache)[0]} else {})
    ensures t.nextLock == s.nextLock
  {
    HasMeansInIdSet(s.cache);
    var u := Next(cfg, s, FetchDone(r));
    One(cfg, s, FetchDone(r));
    t := StoreNew(cfg, u, r);
    Then(cfg, s, u, t);
  }

  lemma IdsAppend(cache: seq<Entry>, e: Entry)
    ensures Ids(cache + [e]) == Ids(cache) + [e.id]
  {
  }

  lemma CachedIds(cache: seq<Entry>)
    ensures IdSet(cache) == AsSet(Ids(cache))
  {
    forall e | e in cache ensures e.id in Ids(cache) {
      var i :| 0 <= i < |cache| && cache[i] == e;
      assert Ids(cache)[i] == e.id;
    }
    forall id | id in Ids(cache) ensures id in IdSet(cache) {
      var i :| 0 <= i < |cache| && Ids(cache)[i] == id;
      assert cache[i] in cache;
    }
  }

  // ---- everybody downloads, then everybody stores ----

  /** The request that downloads episode `j`. */
  function Reader(j: nat): nat {
    if j == 0 then 0 else j + 2
  }

  /** Requests 1 and 2 for episode 0: one waits on the first lock object, one has not begun; nor have the last ones. */
  ghost predicate Bystanders(k: nat, requests: seq<Request>)
    requires 1 <= k
  {
    && |requests| == 2 * k + 2
    && requests[1] == Request(Name(0), Waiting(0))
    && requests[2] == Request(Name(0), Start)
    && Latecomers(k, 0, requests)
  }

  /** The second requests for episodes `j + 1` to `k - 1` have not begun. */
  ghost predicate Latecomers(k: nat, j: nat, requests: seq<Request>) {
    |requests| == 2 * k + 2 && forall i | k + 3 + j <= i < 2 * k + 2 :: requests[i] == Request(Name(i - k - 2), Start)
  }

  /** Episodes 0 to `j` are being downloaded, each under its own lock object. */
  ghost predicate Loading(k: nat, j: nat, s: System)
    requires 1 <= k && j <= k
  {
    && Bystanders(k, s.requests) && s.cache == []
    && s.locks.Keys == AsSet(Names(0, j + 1)) && s.nextLock == j + 1
    && (forall i | 0 <= i <= k ::
          s.requests[Reader(i)] == Request(Name(i), if i <= j then Downloading(i) else Start))
  }

  /** All have been downloaded, and the first `n` are stored. */
  ghost predicate Storing(k: nat, n: nat, s: System)
    requires 1 <= k && n <= k + 1
  {
    && Bystanders(k, s.requests)
    && Ids(s.cache) == Names(First(k, n), n)
    && s.locks.Keys == AsSet(Names(First(k, n), k + 1)) && s.nextLock == k + 1
    && (forall i | 0 <= i <= k ::
          && s.requests[Reader(i)].id == Name(i)
          && if i < n then s.requests[Reader(i)].pc.Done? else s.requests[Reader(i)].pc == Downloading(i))
  }

  /** The oldest episode cached: the last store evicts episode 0. */
  function First(k: nat, n: nat): nat {
    if n <= k then 0 else 1
  }

  lemma NameOutside(lo: nat, hi: nat, j: nat)
    requires lo <= hi && !(lo <= j < hi)
    ensures Name(j) !in AsSet(Names(lo, hi))
  {
    assert forall i | 0 <= i < hi - lo :: |Names(lo, hi)[i]| != j;
  }

  lemma InitialCrowd(k: nat)
    requires 1 <= k
    ensures var requests := Init(Crowd(k), {}).requests;
            && |requests| == 2 * k + 2 && Latecomers(k, 0, requests)
            && requests[0] == Request(Name(0), Start) && requests[1] == Request(Name(0), Start)
            && (forall i | 2 <= i < k + 3 :: requests[i] == Request(Name(i - 2), Start))
  {
  }

  /** Request 1 begins while 0 downloads. */
  lemma QueueUp(cfg: Config, requests: seq<EpisodeId>, s: System) returns (t: System)
    requires |requests| >= 2 && requests[0] == requests[1] == Name(0) && s == Init(requests, {})
    ensures Reaches(cfg, s, t) && t.cache == [] && t.locks == map[Name(0) := 0] && t.nextLock == 1
    ensures t.requests ==
            s.requests[0 := Request(Name(0), Downloading(0))][1 := Request(Name(0), Waiting(0))]
  {
    assert IdSet(s.cache) == {};
    var a := StartDownload(cfg, s, 0);
    t := JoinQueue(cfg, a, 1);
    Then(cfg, s, a, t);
  }

  lemma Opening(cfg: Config) returns (t: System)
    requires 1 <= cfg.maxSize
    ensures Reaches(cfg, Init(Crowd(cfg.maxSize), {}), t) && Loading(cfg.maxSize, 0, t)
  {
    hide Reaches;
    var s := Init(Crowd(cfg.maxSize), {});
    InitialCrowd(cfg.maxSize);
    t := QueueUp(cfg, Crowd(cfg.maxSize), s);
    assert AsSet(Names(0, 1)) == {Name(0)} by {
      assert Names(0, 1) == [Name(0)];
    }
  }

  lemma OneMoreName(lo: nat, j: nat)
    requires lo <= j
    ensures Names(lo, j + 1) == Names(lo, j) + [Name(j)]
    ensures AsSet(Names(lo, j + 1)) == AsSet(Names(lo, j)) + {Name(j)}
  {
  }

  /** If no reader holds a lock object, nobody does: the others only wait or have not begun. */
  lemma NobodyHolds(k: nat, s: System, l: LockId)
    requires 1 <= k && Bystanders(k, s.requests) && forall j | 0 <= j <= k :: !s.requests[Reader(j)].pc.Holds(l)
    ensures forall i | 0 <= i < |s.requests| :: !s.requests[i].pc.Holds(l)
  {
    forall i | 0 <= i < |s.requests| ensures !s.requests[i].pc.Holds(l) {
      if i != 1 && i != 2 && i < k + 3 {
        assert Reader(if i == 0 then 0 else i - 2) == i;
      }
    }
  }

  lemma LoadNext(cfg: Config, j: nat, s: System) returns (t: System)
    requires 1 <= j <= cfg.maxSize && Loading(cfg.maxSize, j - 1, s)
    ensures Reaches(cfg, s, t) && Loading(cfg.maxSize, j, t)
  {
    hide Reaches, AsSet;
    NameOutside(0, j, j);
    assert s.requests[Reader(j)] == Request(Name(j), Start);
    NobodyHolds(cfg.maxSize, s, j);
    assert IdSet(s.cache) == {};
    t := StartDownload(cfg, s, j + 2);
    OneMoreName(0, j);
  }

  lemma {:induction false} LoadAll(cfg: Config, j: nat) returns (t: System)
    requires 1 <= cfg.maxSize && j <= cfg.maxSize
    ensures Reaches(cfg, Init(Crowd(cfg.maxSize), {}), t) && Loading(cfg.maxSize, j, t)
    decreases j
  {
    if j == 0 {
      t := Opening(cfg);
    } else {
      var s := LoadAll(cfg, j - 1);
      t := LoadNext(cfg, j, s);
      Then(cfg, Init(Crowd(cfg.maxSize), {}), s, t);
    }
  }

  /** What the next store does to the window of cached episodes and to the locks. */
  lemma NextWindow(k: nat, n: nat)
    requires n <= k && 1 <= k
    ensures Names(First(k, n), n)[if n == k then 1 else 0..] + [Name(n)] == Names(First(k, n + 1), n + 1)
    ensures AsSet(Names(First(k, n), k + 1)) - (if n == k then {Name(0)} else {}) ==
            AsSet(Names(First(k, n + 1), k + 1))
  {
    if n == k {
      NameOutside(1, k + 1, 0);
      assert Names(0, k + 1) == [Name(0)] + Names(1, k + 1);
    }
  }

  lemma StoreNext(cfg: Config, n: nat, s: System) returns (t: System)
    requires 1 <= cfg.maxSize && n <= cfg.maxSize && Storing(cfg.maxSize, n, s)
    ensures Reaches(cfg, s, t) && Storing(cfg.maxSize, n + 1, t)
  {
    hide Reaches, AsSet, IdSet;
    var k := cfg.maxSize;
    assert s.requests[Reader(n)] == Request(Name(n), Downloading(n));
    NameOutside(0, n, n);
    CachedIds(s.cache);
    t := FinishDownload(cfg, s, Reader(n));
    NextWindow(k, n);
  }

  lemma {:induction false} StoreAll(cfg: Config, n: nat) returns (t: System)
    requires 1 <= cfg.maxSize && n <= cfg.maxSize + 1
    ensures Reaches(cfg, Init(Crowd(cfg.maxSize), {}), t) && Storing(cfg.maxSize, n, t)
    decreases n
  {
    hide Reaches;
    if n == 0 {
      t := LoadAll(cfg, cfg.maxSize);
    } else {
      var s := StoreAll(cfg, n - 1);
      t := StoreNext(cfg, n - 1, s);
      Then(cfg, Init(Crowd(cfg.maxSize), {}), s, t);
    }
  }

  /** Episode 0 is downloaded by requests 1 and 2 at once, the cache holds all others. */
  ghost predicate Twice(k: nat, s: System)
    requires 1 <= k
  {
    && Latecomers(k, 0, s.requests)
    && s.requests[1] == Request(Name(0), Downloading(0))
    && s.requests[2] == Request(Name(0), Downloading(k + 1))
    && (forall i | 0 <= i < k + 3 && i != 1 && i != 2 :: s.requests[i].pc.Done?)
    && Ids(s.cache) == Names(1, k + 1)
    && s.locks.Keys == AsSet(Names(0, k + 1)) && s.nextLock == k + 2
  }

  /** The request that waited goes on, a newcomer begins: two downloads of episode 0 at once. */
  lemma Finale(cfg: Config, s: System) returns (v: System)
    requires 1 <= cfg.maxSize && Storing(cfg.maxSize, cfg.maxSize + 1, s)
    ensures Reaches(cfg, s, v) && Twice(cfg.maxSize, v)
  {
    hide Reaches, AsSet, IdSet, Twice;
    var k := cfg.maxSize;
    NameOutside(1, k + 1, 0);
    CachedIds(s.cache);
    NobodyHolds(k, s, 0);
    NobodyHolds(k, s, s.nextLock);
    var t := LockAndMiss(cfg, s, 1);
    v := StartDownload(cfg, t, 2);
    Then(cfg, s, t, v);
    NowTwice(k, s, v);
  }

  lemma NowTwice(k: nat, s: System, v: System)
    requires 1 <= k && Storing(k, k + 1, s) && v.cache == s.cache && v.nextLock == k + 2
    requires v.requests ==
             s.requests[1 := Request(Name(0), Downloading(0))][2 := Request(Name(0), Downloading(k + 1))]
    requires v.locks.Keys == s.locks.Keys + {Name(0)}
    ensures Twice(k, v)
  {
    hide AsSet;
    OneNameBefore(k);
    ReadersDone(k, s);
  }

  lemma ReadersDone(k: nat, s: System)
    requires 1 <= k && Storing(k, k + 1, s)
    ensures forall i | 0 <= i < k + 3 && i != 1 && i != 2 :: s.requests[i].pc.Done?
  {
    hide AsSet, Names;
    forall i | 0 <= i < k + 3 && i != 1 && i != 2 ensures s.requests[i].pc.Done? {
      assert Reader(if i == 0 then 0 else i - 2) == i;
    }
  }

  lemma OneNameBefore(k: nat)
    ensures AsSet(Names(0, k + 1)) == AsSet(Names(1, k + 1)) + {Name(0)}
  {
    assert Names(0, k + 1) == [Name(0)] + Names(1, k + 1);
  }

  /** A calm run to two downloads of one episode at once, in which one episode more is asked for than fits. */
  lemma Overflowing(cfg: Config) returns (v: System)
    requires 1 <= cfg.maxSize
    ensures Reaches(cfg, Init(Crowd(cfg.maxSize), {}), v) && Twice(cfg.maxSize, v)
  {
    hide Reaches, Twice;
    var t := StoreAll(cfg, cfg.maxSize + 1);
    v := Finale(cfg, t);
    Then(cfg, Init(Crowd(cfg.maxSize), {}), t, v);
  }

  lemma CrowdCount(k: nat)
    requires 1 <= k
    ensures |AsSet(Crowd(k))| == k + 1
  {
    assert AsSet(Crowd(k)) == AsSet(Names(0, k + 1)) by {
      assert Names(0, k + 1)[0] == Name(0);
      forall id | id in Names(1, k) ensures id in Names(0, k + 1) {
        var i :| 0 <= i < k - 1 && Names(1, k)[i] == id;
        assert Names(0, k + 1)[i + 1] == id;
      }
    }
    NamesCount(k + 1);
  }

  lemma {:induction false} NamesCount(n: nat)
    ensures |AsSet(Names(0, n))| == n
  {
    if n == 0 {
      assert AsSet(Names(0, n)) == {};
    } else {
      NamesCount(n - 1);
      assert Names(0, n) == Names(0, n - 1) + [Name(n - 1)];
      assert AsSet(Names(0, n)) == AsSet(Names(0, n - 1)) + {Name(n - 1)};
      NameOutside(0, n - 1, n - 1);
    }
  }

  /** What every calm run of requests for at most `n` distinct episodes does. */
  ghost predicate AlwaysSingleFlight(cfg: Config, n: nat) {
    forall requests, disk, actions | |AsSet(requests)| <= n && Calm(actions) ::
      SingleFlight(Exec(cfg, Init(requests, disk), actions))
  }

  /** Each episode is downloaded once, one download at a time, exactly while they all fit. */
  lemma SingleFlightIffAllFit(cfg: Config, n: nat)
    requires cfg.maxSize >= 1
    ensures AlwaysSingleFlight(cfg, n) <==> n <= cfg.maxSize
  {
    hide Exec, AsSet;
    if n <= cfg.maxSize {
      forall requests, disk, actions | |AsSet(requests)| <= n && Calm(actions)
        ensures SingleFlight(Exec(cfg, Init(requests, disk), actions))
      {
        OneDownloadPerEpisode(cfg, requests, disk, false, actions);
      }
    } else {
      var s := Init(Crowd(cfg.maxSize), {});
      CrowdCount(cfg.maxSize);
      var u := Overflowing(cfg);
      var actions :| Calm(actions) && Exec(cfg, s, actions) == u;
      assert u.requests[1].pc.Downloading? && u.requests[2].pc.Downloading?;
      assert !SingleFlight(Exec(cfg, Init(Crowd(cfg.maxSize), {}), actions));
    }
  }
}
