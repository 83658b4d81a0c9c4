/**
 * One download per episode. While no lock object is dropped, the lock table keeps requests for
 * one episode apart; requests for at most `maxSize` distinct episodes never evict, so it holds
 * in every interleaving of theirs. A failed download drops the lock object; with at most two
 * requests for an episode nobody is left who could meet the other under a new one.
 */
module McapCacheSingleFlight {
  import opened Collections
  import opened McapCache
  import opened McapCacheConcurrent

  /** No failed download, expiry, clear or deletion by others. Requests may be cancelled. */
  predicate Calm(actions: seq<Action>) {
    forall i | 0 <= i < |actions| :: CalmAction(actions[i])
  }

  predicate CalmAction(a: Action) {
    a.OfRequest() && !a.FetchFails?
  }

  /** The same, but if `fails` downloads may fail. */
  predicate Allowed(fails: bool, actions: seq<Action>) {
    forall i | 0 <= i < |actions| :: AllowedAction(fails, actions[i])
  }

  predicate AllowedAction(fails: bool, a: Action) {
    a.OfRequest() && (a.FetchFails? ==> fails)
  }

  predicate InProgress(pc: Pc) {
    pc.Waiting? || Exclusive(pc)
  }

  predicate Exclusive(pc: Pc) {
    pc.Checking? || pc.Downloading? || pc.Storing? || pc.Failing?
  }

  predicate IsStoring(s: System, id: EpisodeId) {
    exists i | 0 <= i < |s.requests| :: s.requests[i].id == id && s.requests[i].pc.Storing?
  }

  predicate OtherRaised(s: System, i: nat)
    requires i < |s.requests|
  {
    exists j | 0 <= j < |s.requests| :: j != i && s.requests[j].id == s.requests[i].id && s.requests[j].pc.Raised?
  }

  /** A request in progress has the lock object of the table, unless another one dropped that and raised. */
  ghost predicate LocksKept(s: System) {
    && (forall id | id in s.locks :: s.locks[id] < s.nextLock)
    && (forall x, y | x in s.locks && y in s.locks && x != y :: s.locks[x] != s.locks[y])
    && (forall i | 0 <= i < |s.requests| && InProgress(s.requests[i].pc) ::
          (s.requests[i].id in s.locks && s.requests[i].pc.lock == s.locks[s.requests[i].id]) || OtherRaised(s, i))
    && (forall i, j | 0 <= i < j < |s.requests| && Exclusive(s.requests[i].pc) && Exclusive(s.requests[j].pc) ::
          s.requests[i].id != s.requests[j].id)
  }

  ghost predicate AtMostTwo(requests: seq<Request>) {
    forall i, j, k | 0 <= i < j < k < |requests| :: requests[i].id != requests[j].id || requests[j].id != requests[k].id
  }

  /** Nobody fails, or there are at most two requests for each episode. */
  ghost predicate Tame(fails: bool, s: System) {
    if fails then AtMostTwo(s.requests)
    else forall i | 0 <= i < |s.requests| :: !s.requests[i].pc.Failing? && !s.requests[i].pc.Raised?
  }

  ghost predicate FilesKept(cfg: Config, s: System) {
    && Safe(cfg, s)
    && (forall e | e in s.cache :: e.path in s.disk)
    && (forall i | 0 <= i < |s.requests| && s.requests[i].pc.Storing? :: cfg.PathOf(s.requests[i].id) in s.disk)
    && (forall i | 0 <= i < |s.requests| && (s.requests[i].pc.Downloading? || s.requests[i].pc.Storing?) ::
          s.requests[i].id !in IdSet(s.cache))
  }

  ghost predicate FetchesCounted(s: System) {
    && (forall id :: s.fetched[id] == if id in IdSet(s.cache) || IsStoring(s, id) then 1 else 0)
    && (forall i | 0 <= i < |s.requests| && s.requests[i].pc.Done? :: s.requests[i].id in IdSet(s.cache))
  }

  /** Only the episodes in `ids` are asked for or cached. */
  ghost predicate Within(ids: set<EpisodeId>, s: System) {
    (forall i | 0 <= i < |s.requests| :: s.requests[i].id in ids) && IdSet(s.cache) <= ids
  }

  ghost predicate Inv(cfg: Config, ids: set<EpisodeId>, fails: bool, s: System) {
    LocksKept(s) && Tame(fails, s) && FilesKept(cfg, s) && FetchesCounted(s) && Within(ids, s)
  }

  /** A request that goes on with its lock object, or is done with it, leaves the locks in order. */
  lemma MoveKeepsLocks(s: System, t: System, r: nat)
    requires LocksKept(s) && r < |s.requests| && !s.requests[r].pc.Raised?
    requires |t.requests| == |s.requests| && t.requests == s.requests[r := Request(s.requests[r].id, t.requests[r].pc)]
    requires t.locks == s.locks && t.nextLock == s.nextLock
    requires var pc, now := s.requests[r].pc, t.requests[r].pc;
             && (InProgress(now) ==> InProgress(pc) && now.lock == pc.lock)
             && (Exclusive(now) ==> Exclusive(pc))
    ensures LocksKept(t)
  {
    OthersStayRaised(s, t, r);
  }

  lemma OthersStayRaised(s: System, t: System, r: nat)
    requires r < |s.requests| && !s.requests[r].pc.Raised?
    requires |t.requests| == |s.requests| && t.requests == s.requests[r := Request(s.requests[r].id, t.requests[r].pc)]
    ensures forall i | 0 <= i < |s.requests| && OtherRaised(s, i) :: OtherRaised(t, i)
  {
    forall i | 0 <= i < |s.requests| && OtherRaised(s, i) ensures OtherRaised(t, i) {
      var j :| 0 <= j < |s.requests| && j != i && s.requests[j].id == s.requests[i].id && s.requests[j].pc.Raised?;
      assert t.requests[j] == s.requests[j];
    }
  }

  lemma HitIsCached(cfg: Config, s: System, id: EpisodeId)
    requires FilesKept(cfg, s)
    ensures IsHit(s, id) <==> id in IdSet(s.cache)
  {
    HasMeansInIdSet(s.cache);
  }

  lemma TouchKeepsIds(s: System, id: EpisodeId, now: real)
    requires DistinctIds(s.cache) && Has(s.cache, id)
    ensures IdSet(Touch(s, id, now).cache) == IdSet(s.cache)
  {
    TouchFacts(s, id, now);
    assert Entry(id, Lookup(s.cache, id).path, now) in Touch(s, id, now).cache;
  }

  /** A request that moves between two points where it is not storing leaves the count alone. */
  lemma StoringUnchanged(s: System, r: nat, pc: Pc)
    requires r < |s.requests| && !s.requests[r].pc.Storing? && !pc.Storing?
    ensures forall id :: IsStoring(Goto(s, r, pc), id) <==> IsStoring(s, id)
  {
    var t := Goto(s, r, pc);
    forall id | IsStoring(s, id) ensures IsStoring(t, id) {
      var i :| 0 <= i < |s.requests| && s.requests[i].id == id && s.requests[i].pc.Storing?;
      assert t.requests[i] == s.requests[i];
    }
    forall id | IsStoring(t, id) ensures IsStoring(s, id) {
      var i :| 0 <= i < |t.requests| && t.requests[i].id == id && t.requests[i].pc.Storing?;
      assert t.requests[i] == s.requests[i];
    }
  }

  lemma StoringElsewhere(s: System, t: System, r: nat)
    requires r < |s.requests| == |t.requests|
    requires t.requests == s.requests[r := Request(s.requests[r].id, t.requests[r].pc)]
    ensures forall x | x != s.requests[r].id :: IsStoring(t, x) <==> IsStoring(s, x)
  {
    forall x | x != s.requests[r].id ensures IsStoring(t, x) <==> IsStoring(s, x) {
      if IsStoring(s, x) {
        var i :| 0 <= i < |s.requests| && s.requests[i].id == x && s.requests[i].pc.Storing?;
        assert t.requests[i] == s.requests[i];
      }
      if IsStoring(t, x) {
        var i :| 0 <= i < |t.requests| && t.requests[i].id == x && t.requests[i].pc.Storing?;
        assert t.requests[i] == s.requests[i];
      }
    }
  }

  /** A hit: the request is done, the entry moves to the end. */
  lemma HitKeeps(cfg: Config, ids: set<EpisodeId>, fails: bool, s: System, r: nat, now: real)
    requires Inv(cfg, ids, fails, s) && r < |s.requests| && (s.requests[r].pc.Start? || s.requests[r].pc.Checking?)
    requires Has(s.cache, s.requests[r].id)
    ensures Inv(cfg, ids, fails, Goto(Touch(s, s.requests[r].id, now), r, Done(Lookup(s.cache, s.requests[r].id).path)))
  {
    hide IdSet, LocksKept, Has, Lookup, Without;
    var id := s.requests[r].id;
    var done := Done(Lookup(s.cache, id).path);
    var t := Goto(Touch(s, id, now), r, done);
    HitKeepsFiles(cfg, s, r, now, done.path);
    MoveKeepsLocks(s, t, r);
    TouchKeepsIds(s, id, now);
    StoringUnchanged(s, r, done);
    HasMeansInIdSet(s.cache);
    assert forall x :: IsStoring(t, x) <==> IsStoring(Goto(s, r, done), x);
  }

  lemma HitKeepsFiles(cfg: Config, s: System, r: nat, now: real, path: Path)
    requires FilesKept(cfg, s) && r < |s.requests| && Has(s.cache, s.requests[r].id)
    ensures FilesKept(cfg, Goto(Touch(s, s.requests[r].id, now), r, Done(path)))
  {
    hide Has, Lookup, Without, IdSet;
    TouchFacts(s, s.requests[r].id, now);
    TouchKeepsIds(s, s.requests[r].id, now);
  }

  /** A first miss with a lock object in the table: the request takes that one. */
  lemma MissTakesLock(cfg: Config, ids: set<EpisodeId>, fails: bool, s: System, r: nat)
    requires Inv(cfg, ids, fails, s) && r < |s.requests| && s.requests[r].pc.Start?
    requires s.requests[r].id in s.locks
    ensures Inv(cfg, ids, fails, Goto(s, r, Waiting(s.locks[s.requests[r].id])))
  {
    hide IdSet;
    StoringUnchanged(s, r, Waiting(s.locks[s.requests[r].id]));
    OthersStayRaised(s, Goto(s, r, Waiting(s.locks[s.requests[r].id])), r);
  }

  /** A first miss without one: the table gets a new lock object, equal to no other. */
  lemma MissMakesLock(cfg: Config, ids: set<EpisodeId>, fails: bool, s: System, id: EpisodeId)
    requires Inv(cfg, ids, fails, s) && id !in s.locks
    ensures Inv(cfg, ids, fails, s.(locks := s.locks[id := s.nextLock], nextLock := s.nextLock + 1))
  {
    hide IdSet;
    var t := s.(locks := s.locks[id := s.nextLock], nextLock := s.nextLock + 1);
    assert forall x :: IsStoring(t, x) <==> IsStoring(s, x);
    assert forall i | 0 <= i < |s.requests| && OtherRaised(s, i) :: OtherRaised(t, i);
  }

  /** Two requests in progress for one episode have the same lock object: no third one can have raised. */
  lemma SameLock(s: System, fails: bool, i: nat, j: nat)
    requires LocksKept(s) && Tame(fails, s)
    requires i < |s.requests| && j < |s.requests| && i != j && s.requests[i].id == s.requests[j].id
    requires InProgress(s.requests[i].pc) && InProgress(s.requests[j].pc)
    ensures s.requests[i].pc.lock == s.requests[j].pc.lock
  {
    NoneRaised(s, fails, i, j);
    NoneRaised(s, fails, j, i);
  }

  lemma NoneRaised(s: System, fails: bool, i: nat, j: nat)
    requires Tame(fails, s)
    requires i < |s.requests| && j < |s.requests| && i != j && s.requests[i].id == s.requests[j].id
    requires InProgress(s.requests[j].pc)
    ensures !OtherRaised(s, i)
  {
    forall k | 0 <= k < |s.requests| && k != i && s.requests[k].pc.Raised?
      ensures s.requests[k].id != s.requests[i].id
    {
      assert k != j;
    }
  }

  lemma AcquireKeeps(cfg: Config, ids: set<EpisodeId>, fails: bool, s: System, r: nat)
    requires Inv(cfg, ids, fails, s) && Enabled(s, Acquire(r))
    ensures Inv(cfg, ids, fails, Next(cfg, s, Acquire(r)))
  {
    hide IdSet, EvictAndInsert, FastCheck, Touch, LocksKept;
    StoringUnchanged(s, r, Checking(s.requests[r].pc.lock));
    AcquireKeepsLocks(cfg, s, fails, r);
  }

  lemma AcquireKeepsLocks(cfg: Config, s: System, fails: bool, r: nat)
    requires LocksKept(s) && Tame(fails, s) && Enabled(s, Acquire(r))
    ensures LocksKept(Next(cfg, s, Acquire(r)))
  {
    hide EvictAndInsert, FastCheck, Touch, Tame;
    OthersStayRaised(s, Next(cfg, s, Acquire(r)), r);
    forall i | 0 <= i < |s.requests| && Exclusive(s.requests[i].pc) ensures s.requests[i].id != s.requests[r].id {
      assert s.requests[i].pc.Holds(s.requests[i].pc.lock);
      if s.requests[i].id == s.requests[r].id {
        SameLock(s, fails, i, r);
      }
    }
  }

  lemma SecondMissKeeps(cfg: Config, ids: set<EpisodeId>, fails: bool, s: System, r: nat)
    requires Inv(cfg, ids, fails, s) && r < |s.requests| && s.requests[r].pc.Checking?
    requires s.requests[r].id !in IdSet(s.cache)
    ensures Inv(cfg, ids, fails, Goto(s, r, Downloading(s.requests[r].pc.lock)))
  {
    hide IdSet, LocksKept;
    StoringUnchanged(s, r, Downloading(s.requests[r].pc.lock));
    MoveKeepsLocks(s, Goto(s, r, Downloading(s.requests[r].pc.lock)), r);
  }

  lemma FetchKeeps(cfg: Config, ids: set<EpisodeId>, fails: bool, s: System, r: nat)
    requires Inv(cfg, ids, fails, s) && Enabled(s, FetchDone(r))
    ensures Inv(cfg, ids, fails, Next(cfg, s, FetchDone(r)))
  {
    hide EvictAndInsert, FastCheck, Touch, Without, Assign, IdSet, Lookup, Has, FetchesCounted;
    FetchIsCounted(cfg, s, r);
    MoveKeepsLocks(s, Next(cfg, s, FetchDone(r)), r);
  }

  /** A failed download removes the file of nobody else. */
  lemma FailureKeeps(cfg: Config, ids: set<EpisodeId>, s: System, r: nat)
    requires cfg.HashIsInjective() && Inv(cfg, ids, true, s) && Enabled(s, FetchFails(r))
    ensures Inv(cfg, ids, true, Next(cfg, s, FetchFails(r)))
  {
    hide EvictAndInsert, FastCheck, Touch, Without, Assign, Lookup, Has, LocksKept, FilesKept, IdSet;
    var t := Next(cfg, s, FetchFails(r));
    StoringUnchanged(s, r, Failing(s.requests[r].pc.lock));
    MoveKeepsLocks(s, t, r);
    FailureKeepsFiles(cfg, s, r);
    assert forall x :: IsStoring(t, x) <==> IsStoring(Goto(s, r, Failing(s.requests[r].pc.lock)), x);
  }

  lemma FailureKeepsFiles(cfg: Config, s: System, r: nat)
    requires cfg.HashIsInjective() && FilesKept(cfg, s) && LocksKept(s) && Enabled(s, FetchFails(r))
    ensures FilesKept(cfg, Next(cfg, s, FetchFails(r)))
  {
    hide EvictAndInsert, FastCheck, Touch, Without, Assign, Lookup, Has, LocksKept;
    var id := s.requests[r].id;
    forall x: EpisodeId | x != id ensures cfg.PathOf(x) != cfg.PathOf(id) {
      cfg.PathsAreDistinct(x, id);
    }
    OnlyOneExclusive(s, r);
    assert forall e | e in s.cache :: e.id in IdSet(s.cache);
  }

  lemma OnlyOneExclusive(s: System, r: nat)
    requires LocksKept(s) && r < |s.requests| && Exclusive(s.requests[r].pc)
    ensures forall i | 0 <= i < |s.requests| && i != r && Exclusive(s.requests[i].pc) ::
              s.requests[i].id != s.requests[r].id
  {
  }

  /** Dropping the lock object leaves whoever else asked for the episode alone with it. */
  lemma GiveUpKeeps(cfg: Config, ids: set<EpisodeId>, s: System, r: nat)
    requires Inv(cfg, ids, true, s) && Enabled(s, GiveUp(r))
    ensures Inv(cfg, ids, true, Next(cfg, s, GiveUp(r)))
  {
    hide EvictAndInsert, FastCheck, Touch, Without, Assign, Lookup, Has, IdSet, LocksKept;
    var t := Next(cfg, s, GiveUp(r));
    StoringUnchanged(s, r, Raised);
    GiveUpKeepsLocks(s, t, r);
    assert forall x :: IsStoring(t, x) <==> IsStoring(Goto(s, r, Raised), x);
  }

  lemma GiveUpKeepsLocks(s: System, t: System, r: nat)
    requires LocksKept(s) && r < |s.requests| && s.requests[r].pc.Failing?
    requires t.requests == s.requests[r := Request(s.requests[r].id, Raised)]
    requires t.locks == s.locks - {s.requests[r].id} && t.nextLock == s.nextLock
    ensures LocksKept(t)
  {
    OthersStayRaised(s, t, r);
    forall i | 0 <= i < |s.requests| && InProgress(t.requests[i].pc) && t.requests[i].id == t.requests[r].id
      ensures OtherRaised(t, i)
    {
      assert t.requests[r].pc.Raised? && r != i;
    }
  }

  lemma FetchIsCounted(cfg: Config, s: System, r: nat)
    requires FetchesCounted(s) && LocksKept(s) && FilesKept(cfg, s) && Enabled(s, FetchDone(r))
    ensures FetchesCounted(Next(cfg, s, FetchDone(r)))
  {
    hide EvictAndInsert, FastCheck, Touch, Without, Assign, IdSet, Safe;
    var id := s.requests[r].id;
    var t := Next(cfg, s, FetchDone(r));
    assert t.requests[r].id == id && t.requests[r].pc.Storing?;
    assert !IsStoring(s, id);
    StoringElsewhere(s, t, r);
  }

  lemma {:induction false} DistinctCount(cache: seq<Entry>)
    requires DistinctIds(cache)
    ensures |IdSet(cache)| == |cache|
  {
    if cache == [] {
      assert IdSet(cache) == {};
    } else {
      var head, tail := cache[0], cache[1..];
      DistinctCount(tail);
      assert cache == [head] + tail;
      assert IdSet(cache) == {head.id} + IdSet(tail);
      forall i | 0 <= i < |tail| ensures tail[i].id != head.id {
        assert tail[i] == cache[i + 1];
      }
      assert head.id !in IdSet(tail);
    }
  }

  /** With room for every episode asked for, storing one never evicts. */
  lemma StoreAppends(cfg: Config, ids: set<EpisodeId>, fails: bool, s: System, r: nat, now: real)
    requires Inv(cfg, ids, fails, s) && |ids| <= cfg.maxSize && Enabled(s, Store(r, now))
    ensures var e := Entry(s.requests[r].id, cfg.PathOf(s.requests[r].id), now);
            Next(cfg, s, Store(r, now)) == Goto(s.(cache := s.cache + [e]), r, Done(e.path))
  {
    var id := s.requests[r].id;
    DistinctCount(s.cache);
    SubsetCount(IdSet(s.cache) + {id}, ids);
    HasMeansInIdSet(s.cache);
    AssignNew(s.cache, Entry(id, cfg.PathOf(id), now));
    assert (map k | k in s.locks && k in s.locks.Keys :: s.locks[k]) == s.locks;
  }

  lemma StoreKeeps(cfg: Config, ids: set<EpisodeId>, fails: bool, s: System, r: nat, now: real)
    requires Inv(cfg, ids, fails, s) && |ids| <= cfg.maxSize && Enabled(s, Store(r, now)) && cfg.maxSize >= 1
    ensures Inv(cfg, ids, fails, Next(cfg, s, Store(r, now)))
  {
    hide Next, EvictWhileFull, IsHit, FetchesCounted, IsStoring, LocksKept;
    var id := s.requests[r].id;
    var e := Entry(id, cfg.PathOf(id), now);
    StoreAppends(cfg, ids, fails, s, r, now);
    StepIsSafe(cfg, s, Store(r, now));
    var t := Next(cfg, s, Store(r, now));
    assert forall f :: f in t.cache <==> f in s.cache || f == e;
    assert IdSet(t.cache) == IdSet(s.cache) + {id};
    StoredIsCounted(s, t, r);
    MoveKeepsLocks(s, t, r);
    OnlyOneExclusive(s, r);
  }

  lemma StoredIsCounted(s: System, t: System, r: nat)
    requires FetchesCounted(s) && r < |s.requests| && s.requests[r].pc.Storing?
    requires |t.requests| == |s.requests| && t.requests[r].pc.Done? && t.fetched == s.fetched
    requires t.requests == s.requests[r := Request(s.requests[r].id, t.requests[r].pc)]
    requires IdSet(t.cache) == IdSet(s.cache) + {s.requests[r].id}
    ensures FetchesCounted(t)
  {
    hide IdSet;
    assert IsStoring(s, s.requests[r].id);
    StoringElsewhere(s, t, r);
  }

  lemma CancelKeeps(cfg: Config, ids: set<EpisodeId>, fails: bool, s: System, r: nat)
    requires Inv(cfg, ids, fails, s) && Enabled(s, Cancel(r))
    ensures Inv(cfg, ids, fails, Goto(s, r, Cancelled))
  {
    hide IdSet, LocksKept;
    StoringUnchanged(s, r, Cancelled);
    MoveKeepsLocks(s, Goto(s, r, Cancelled), r);
  }

  lemma WritePartKeeps(cfg: Config, ids: set<EpisodeId>, fails: bool, s: System, r: nat)
    requires Inv(cfg, ids, fails, s) && r < |s.requests|
    ensures Inv(cfg, ids, fails, s.(disk := s.disk + {cfg.PathOf(s.requests[r].id)}))
  {
    hide IdSet;
    var t := s.(disk := s.disk + {cfg.PathOf(s.requests[r].id)});
    assert forall x :: IsStoring(t, x) <==> IsStoring(s, x);
  }

  lemma StepKeeps(cfg: Config, ids: set<EpisodeId>, fails: bool, s: System, a: Action)
    requires Inv(cfg, ids, fails, s) && |ids| <= cfg.maxSize && cfg.maxSize >= 1
    requires AllowedAction(fails, a) && (fails ==> cfg.HashIsInjective())
    ensures Inv(cfg, ids, fails, Next(cfg, s, a))
  {
    hide FetchesCounted, Within, IdSet, Safe, Without, EvictWhileFull, Assign, EvictAndInsert, Lookup, Has, LocksKept;
    if Enabled(s, a) {
      HitIsCached(cfg, s, s.requests[a.r].id);
      HasMeansInIdSet(s.cache);
      match a
      case Begin(r, now) =>
        if IsHit(s, s.requests[r].id) {
          HitKeeps(cfg, ids, fails, s, r, now);
        } else if s.requests[r].id in s.locks {
          MissTakesLock(cfg, ids, fails, s, r);
        } else {
          MissMakesLock(cfg, ids, fails, s, s.requests[r].id);
          var id := s.requests[r].id;
          MissTakesLock(cfg, ids, fails, s.(locks := s.locks[id := s.nextLock], nextLock := s.nextLock + 1), r);
        }
      case Acquire(r) => AcquireKeeps(cfg, ids, fails, s, r);
      case Recheck(r, now) =>
        if IsHit(s, s.requests[r].id) {
          HitKeeps(cfg, ids, fails, s, r, now);
        } else {
          SecondMissKeeps(cfg, ids, fails, s, r);
        }
      case FetchDone(r) => FetchKeeps(cfg, ids, fails, s, r);
      case Store(r, now) => StoreKeeps(cfg, ids, fails, s, r, now);
      case Cancel(r) => CancelKeeps(cfg, ids, fails, s, r);
      case WritePart(r) => WritePartKeeps(cfg, ids, fails, s, r);
      case FetchFails(r) => FailureKeeps(cfg, ids, s, r);
      case GiveUp(r) =>
        if fails {
          GiveUpKeeps(cfg, ids, s, r);
        }
    }
  }

  lemma {:induction false} RunKeeps(cfg: Config, ids: set<EpisodeId>, fails: bool, s: System, actions: seq<Action>)
    requires Inv(cfg, ids, fails, s) && |ids| <= cfg.maxSize && cfg.maxSize >= 1
    requires Allowed(fails, actions) && (fails ==> cfg.HashIsInjective())
    ensures Inv(cfg, ids, fails, Exec(cfg, s, actions))
    decreases |actions|
  {
    hide Next, Inv;
    if actions != [] {
      StepKeeps(cfg, ids, fails, s, actions[0]);
      RunKeeps(cfg, ids, fails, Next(cfg, s, actions[0]), actions[1..]);
    }
  }

  /** At most one download of each episode in flight, and one in all for each one served. */
  ghost predicate SingleFlight(s: System) {
    && (forall i, j | 0 <= i < j < |s.requests| && s.requests[i].pc.Downloading? && s.requests[j].pc.Downloading? ::
          s.requests[i].id != s.requests[j].id)
    && (forall id :: s.fetched[id] <= 1)
    && (forall i | 0 <= i < |s.requests| && s.requests[i].pc.Done? :: s.fetched[s.requests[i].id] == 1)
  }

  lemma InitialInv(cfg: Config, requests: seq<EpisodeId>, fails: bool, disk: set<Path>)
    requires cfg.maxSize >= 1 && (fails ==> AtMostTwo(Init(requests, disk).requests))
    ensures Inv(cfg, AsSet(requests), fails, Init(requests, disk))
  {
    assert IdSet(Init(requests, disk).cache) == {};
  }

  lemma InvIsSingleFlight(cfg: Config, ids: set<EpisodeId>, fails: bool, s: System)
    requires Inv(cfg, ids, fails, s)
    ensures SingleFlight(s)
  {
  }

  lemma OneDownloadPerEpisode(
    cfg: Config, requests: seq<EpisodeId>, disk: set<Path>, fails: bool, actions: seq<Action>)
    requires cfg.maxSize >= 1 && |AsSet(requests)| <= cfg.maxSize && Allowed(fails, actions)
    requires fails ==> cfg.HashIsInjective() && AtMostTwo(Init(requests, disk).requests)
    ensures SingleFlight(Exec(cfg, Init(requests, disk), actions))
  {
    hide Exec;
    InitialInv(cfg, requests, fails, disk);
    RunKeeps(cfg, AsSet(requests), fails, Init(requests, disk), actions);
    InvIsSingleFlight(cfg, AsSet(requests), fails, Exec(cfg, Init(requests, disk), actions));
  }
}
