/**
 * What holds after every run of overlapping frame loads: each call has few requests in flight and
 * asks for each of its topics at most once, what is cached is not asked for again, and every frame
 * cached or displayed was fetched for its own topic and 100 ms bucket.
 */
module FrameSafety {
  import opened Options
  import FetchPool
  import opened FrameCache

  // ---- steps only add ----

  ghost predicate Extends(h: Hook, t: Hook) {
    && |h.calls| <= |t.calls|
    && (forall c | 0 <= c < |h.calls| ::
          && t.calls[c].kind == h.calls[c].kind && t.calls[c].episodeId == h.calls[c].episodeId
          && t.calls[c].topics == h.calls[c].topics && t.calls[c].timestamp == h.calls[c].timestamp)
    && h.begun <= t.begun && h.answers <= t.answers
  }

  lemma StepExtends(h: Hook, a: Action)
    ensures Extends(h, Next(h, a))
  {
    hide FetchPool.Next, FetchPool.Enabled, CacheKey;
  }

  // ---- the pools ----

  predicate NoneRejects(p: FetchPool.Pool) {
    forall i | 0 <= i < |p.tasks| :: p.tasks[i] == FetchPool.Running || p.tasks[i].ok
  }

  ghost predicate PoolHolds(h: Hook, c: nat)
    requires c < |h.calls|
  {
    var call := h.calls[c];
    && FetchPool.Holds(call.pool) && NoneRejects(call.pool)
    && call.pool.size == |call.topics| && call.pool.concurrency == MAX_CONCURRENT
    && forall i: nat | i < |call.pool.tasks| && call.pool.tasks[i].Running? :: Fetch(c, i) in h.begun
  }

  ghost predicate PoolsHold(h: Hook) {
    forall c: nat | c < |h.calls| :: PoolHolds(h, c)
  }

  lemma PoolStep(p: FetchPool.Pool, e: FetchPool.Event)
    requires FetchPool.Holds(p) && NoneRejects(p) && (e.Settle? ==> e.ok)
    ensures var q := FetchPool.Next(p, e);
            && FetchPool.Holds(q) && NoneRejects(q) && q.size == p.size && q.concurrency == p.concurrency
            && |p.tasks| <= |q.tasks|
            && (forall i | 0 <= i < |p.tasks| && q.tasks[i].Running? :: p.tasks[i].Running?)
            && (!e.Start? ==> |q.tasks| == |p.tasks|)
            && (e.Settle? && e.i < |q.tasks| ==> !q.tasks[e.i].Running?)
  {
    FetchPool.StepHolds(p, e);
  }

  lemma NewPoolHolds(size: nat)
    ensures FetchPool.Holds(FetchPool.Init(size, MAX_CONCURRENT)) && NoneRejects(FetchPool.Init(size, MAX_CONCURRENT))
  {
  }

  /** The calls that do not act keep their pool, and requests begun stay begun. */
  lemma OtherPoolHolds(h: Hook, t: Hook, c: nat)
    requires c < |h.calls| && PoolHolds(h, c) && c < |t.calls| && t.calls[c].pool == h.calls[c].pool && Extends(h, t)
    ensures PoolHolds(t, c)
  {
    hide FetchPool.Holds, NoneRejects;
  }

  lemma StartedPoolHolds(h: Hook, c: nat)
    requires CanStart(h, c) && PoolHolds(h, c)
    ensures PoolHolds(StartNext(h, c), c)
  {
    hide FetchPool.Holds, NoneRejects, CacheKey, FetchPool.SpliceOut, FetchPool.Notice;
    var p := h.calls[c].pool;
    PoolStep(p, FetchPool.Start);
    PoolStep(FetchPool.Next(p, FetchPool.Start), FetchPool.Settle(|p.tasks|, true));
  }

  lemma AnsweredPoolHolds(h: Hook, c: nat, i: nat, url: Option<string>)
    requires CanArrive(h, c, i) && PoolHolds(h, c)
    ensures PoolHolds(ArriveAt(h, c, i, url), c)
  {
    hide FetchPool.Holds, NoneRejects, CacheKey, FetchPool.Next;
    PoolStep(h.calls[c].pool, FetchPool.Settle(i, true));
  }

  lemma AdvancedPoolHolds(h: Hook, c: nat, e: FetchPool.Event)
    requires c < |h.calls| && (e.Remove? || e.Drain? || e.Resume?) && PoolHolds(h, c)
    ensures PoolHolds(AdvancePool(h, c, e), c)
  {
    hide FetchPool.Holds, NoneRejects, CacheKey, FetchPool.Next;
    PoolStep(h.calls[c].pool, e);
  }

  lemma StepKeepsPools(h: Hook, a: Action)
    requires PoolsHold(h)
    ensures PoolsHold(Next(h, a))
  {
    hide PoolHolds, StartNext, ArriveAt, AdvancePool, Extends;
    var t := Next(h, a);
    StepExtends(h, a);
    OneActs(h, a);
    forall c: nat | c < |t.calls| ensures PoolHolds(t, c) {
      if c >= |h.calls| {
        BegunPoolHolds(h, a);
      } else if t.calls[c].pool == h.calls[c].pool {
        OtherPoolHolds(h, t, c);
      } else {
        match a
        case StartTask(_) => StartedPoolHolds(h, c);
        case Arrive(_, i, url) => AnsweredPoolHolds(h, c, i, url);
        case Advance(_, e) => AdvancedPoolHolds(h, c, e);
      }
    }
  }

  lemma OneActs(h: Hook, a: Action)
    ensures var t := Next(h, a);
            && |h.calls| <= |t.calls| <= |h.calls| + 1
            && (|t.calls| > |h.calls| ==> a.Begin? && a.topics != [])
            && (a.Begin? ==> forall c | 0 <= c < |h.calls| ::
                                t.calls[c].pool == h.calls[c].pool && t.calls[c].frames == h.calls[c].frames)
            && (!a.Begin? ==> forall c | 0 <= c < |h.calls| && c != a.c :: t.calls[c] == h.calls[c])
  {
    hide FetchPool.Next, FetchPool.Enabled, CacheKey;
  }

  lemma BegunPoolHolds(h: Hook, a: Action)
    requires a.Begin? && a.topics != []
    ensures PoolHolds(Next(h, a), |h.calls|)
  {
    hide FetchPool.Holds, NoneRejects;
    NewPoolHolds(|a.topics|);
  }

  // ---- requests ----

  ghost predicate IsRequest(h: Hook, f: Fetch) {
    f.call < |h.calls| && f.item < |h.calls[f.call].topics|
  }

  /** No call begins the request for one of its topics twice, nor before that topic's task was started. */
  ghost predicate RequestsHold(h: Hook) {
    && (forall k | 0 <= k < |h.begun| ::
            IsRequest(h, h.begun[k]) && h.begun[k].item < |h.calls[h.begun[k].call].pool.tasks|)
    && (forall j, k | 0 <= j < k < |h.begun| :: h.begun[j] != h.begun[k])
  }

  lemma TasksGrow(h: Hook, a: Action, c: nat)
    requires PoolsHold(h) && c < |h.calls|
    ensures c < |Next(h, a).calls| && |h.calls[c].pool.tasks| <= |Next(h, a).calls[c].pool.tasks|
    ensures a.StartTask? && a.c == c && CanStart(h, c) ==> |Next(h, a).calls[c].pool.tasks| > |h.calls[c].pool.tasks|
  {
    hide FetchPool.Holds, NoneRejects, CacheKey, FetchPool.SpliceOut, FetchPool.Notice, Extends;
    assert PoolHolds(h, c);
    OneActs(h, a);
    StepExtends(h, a);
  }

  lemma StepKeepsRequests(h: Hook, a: Action)
    requires PoolsHold(h) && RequestsHold(h)
    ensures RequestsHold(Next(h, a))
  {
    hide PoolsHold, CacheKey, FetchPool.Next, FetchPool.Enabled, FetchPool.Holds;
    var t := Next(h, a);
    StepExtends(h, a);
    forall c: nat | c < |h.calls| ensures |h.calls[c].pool.tasks| <= |t.calls[c].pool.tasks| {
      TasksGrow(h, a, c);
    }
    if t.begun != h.begun {
      TasksGrow(h, a, a.c);
    }
  }

  // ---- answers, cache and frames ----

  function TopicOf(h: Hook, f: Fetch): string
    requires IsRequest(h, f)
  {
    h.calls[f.call].topics[f.item]
  }

  function TimeOf(h: Hook, f: Fetch): real
    requires IsRequest(h, f)
  {
    h.calls[f.call].timestamp
  }

  /** `url` answered a request begun for this topic and a timestamp in this bucket. */
  ghost predicate Answers(h: Hook, k: nat, topic: string, bucket: int, url: string) {
    && k < |h.answers| && h.answers[k].url == url
    && var f := h.answers[k].fetch;
       f in h.begun && IsRequest(h, f) && TopicOf(h, f) == topic && Bucket(TimeOf(h, f)) == bucket
  }

  ghost predicate Fetched(h: Hook, topic: string, bucket: int, url: string) {
    exists k :: Answers(h, k, topic, bucket, url)
  }

  ghost predicate CacheHolds(h: Hook) {
    forall key | key in h.cache ::
      exists topic, timestamp :: key == CacheKey(topic, timestamp) && Fetched(h, topic, Bucket(timestamp), h.cache[key])
  }

  ghost predicate FramesHold(h: Hook) {
    forall c, topic | 0 <= c < |h.calls| && topic in h.calls[c].frames ::
      Fetched(h, topic, Bucket(h.calls[c].timestamp), h.calls[c].frames[topic])
  }

  lemma FetchedStays(h: Hook, t: Hook, topic: string, bucket: int, url: string)
    requires Extends(h, t) && Fetched(h, topic, bucket, url)
    ensures Fetched(t, topic, bucket, url)
  {
    hide Bucket;
    var k :| Answers(h, k, topic, bucket, url);
    assert Answers(t, k, topic, bucket, url);
  }

  /** A cached URL under the key of a topic and a time was fetched for that topic and bucket. */
  lemma CachedWasFetched(h: Hook, topic: string, timestamp: real)
    requires CacheHolds(h) && CacheKey(topic, timestamp) in h.cache
    ensures Fetched(h, topic, Bucket(timestamp), h.cache[CacheKey(topic, timestamp)])
  {
    hide CacheKey, Bucket, Fetched;
    var key := CacheKey(topic, timestamp);
    var other, u :| key == CacheKey(other, u) && Fetched(h, other, Bucket(u), h.cache[key]);
    CacheKeysEqualIff(topic, timestamp, other, u);
  }

  lemma ArrivalIsFetched(h: Hook, c: nat, i: nat, url: string)
    requires PoolsHold(h) && CanArrive(h, c, i)
    ensures var call := h.calls[c]; Fetched(ArriveAt(h, c, i, Some(url)), call.topics[i], Bucket(call.timestamp), url)
  {
    hide FetchPool.Next, FetchPool.Holds, CacheKey, Bucket;
    assert PoolHolds(h, c);
    var t := ArriveAt(h, c, i, Some(url));
    assert Answers(t, |h.answers|, h.calls[c].topics[i], Bucket(h.calls[c].timestamp), url);
  }

  lemma StepKeepsCache(h: Hook, a: Action)
    requires PoolsHold(h) && CacheHolds(h)
    ensures CacheHolds(Next(h, a))
  {
    hide FetchPool.Next, FetchPool.Enabled, CacheKey, Bucket, Fetched, Extends, PoolsHold;
    var t := Next(h, a);
    StepExtends(h, a);
    forall key | key in t.cache
      ensures exists topic, timestamp ::
        key == CacheKey(topic, timestamp) && Fetched(t, topic, Bucket(timestamp), t.cache[key])
    {
      if key in h.cache && t.cache[key] == h.cache[key] {
        var topic, timestamp :| key == CacheKey(topic, timestamp) && Fetched(h, topic, Bucket(timestamp), h.cache[key]);
        FetchedStays(h, t, topic, Bucket(timestamp), h.cache[key]);
      } else {
        ArrivalIsFetched(h, a.c, a.i, a.url.value);
      }
    }
  }

  lemma StepKeepsFrames(h: Hook, a: Action)
    requires PoolsHold(h) && CacheHolds(h) && FramesHold(h)
    ensures FramesHold(Next(h, a))
  {
    hide FetchPool.Next, FetchPool.Enabled, CacheKey, Bucket, Fetched, PoolsHold, CacheHolds;
    var t := Next(h, a);
    StepExtends(h, a);
    OneActs(h, a);
    forall c, topic | 0 <= c < |t.calls| && topic in t.calls[c].frames
      ensures Fetched(t, topic, Bucket(t.calls[c].timestamp), t.calls[c].frames[topic])
    {
      if c < |h.calls| && topic in h.calls[c].frames && t.calls[c].frames[topic] == h.calls[c].frames[topic] {
        FetchedStays(h, t, topic, Bucket(h.calls[c].timestamp), h.calls[c].frames[topic]);
      } else if a.Arrive? {
        ArrivalIsFetched(h, a.c, a.i, a.url.value);
      } else {
        CachedWasFetched(h, topic, h.calls[c].timestamp);
        FetchedStays(h, t, topic, Bucket(h.calls[c].timestamp), t.calls[c].frames[topic]);
      }
    }
  }

  // ---- what is displayed ----

  ghost predicate ShownHolds(h: Hook) {
    h.shown.Some? ==>
      && h.shown.value < |h.calls| && h.calls[h.shown.value].kind.Load?
      && h.calls[h.shown.value].pool.pc.Returned? && h.calls[h.shown.value].frames != map[]
  }

  lemma ReturnedIsOver(p: FetchPool.Pool, e: FetchPool.Event)
    requires FetchPool.Holds(p) && p.pc.Returned?
    ensures FetchPool.Next(p, e) == p && !FetchPool.Enabled(p, e)
  {
  }

  lemma StepKeepsShown(h: Hook, a: Action)
    requires PoolsHold(h) && ShownHolds(h)
    ensures ShownHolds(Next(h, a))
  {
    hide FetchPool.Next, FetchPool.Enabled, FetchPool.Holds, NoneRejects, CacheKey, Bucket, Extends, PoolHolds;
    OneActs(h, a);
    StepExtends(h, a);
    if h.shown.Some? {
      ReturnedStays(h, a, h.shown.value);
    }
  }

  lemma ReturnedStays(h: Hook, a: Action, c: nat)
    requires PoolsHold(h) && c < |h.calls| && h.calls[c].pool.pc.Returned?
    ensures c < |Next(h, a).calls| &&
            Next(h, a).calls[c].pool == h.calls[c].pool && Next(h, a).calls[c].frames == h.calls[c].frames
  {
    hide FetchPool.Next, FetchPool.Enabled, FetchPool.Holds, NoneRejects, CacheKey, Bucket, Extends;
    OneActs(h, a);
    assert PoolHolds(h, c);
    ReturnedIsOver(h.calls[c].pool, FetchPool.Start);
    match a
    case Arrive(_, i, _) => ReturnedIsOver(h.calls[c].pool, FetchPool.Settle(i, true));
    case Advance(_, e) => ReturnedIsOver(h.calls[c].pool, e);
    case _ =>
  }

  // ---- runs ----

  ghost predicate Holds(h: Hook) {
    PoolsHold(h) && RequestsHold(h) && CacheHolds(h) && FramesHold(h) && ShownHolds(h)
  }

  lemma {:induction false} RunHolds(h: Hook, actions: seq<Action>)
    requires Holds(h)
    ensures Holds(Exec(h, actions))
    decreases |actions|
  {
    hide Next, PoolsHold, RequestsHold, CacheHolds, FramesHold, ShownHolds;
    if actions != [] {
      var a := actions[0];
      StepKeepsPools(h, a);
      StepKeepsRequests(h, a);
      StepKeepsCache(h, a);
      StepKeepsFrames(h, a);
      StepKeepsShown(h, a);
      RunHolds(Next(h, a), actions[1..]);
    }
  }

  lemma EveryRunHolds(actions: seq<Action>)
    ensures Holds(Exec(MOUNTED, actions))
  {
    hide Exec, Holds;
    NothingYetHolds();
    RunHolds(MOUNTED, actions);
  }

  lemma NothingYetHolds()
    ensures Holds(MOUNTED)
  {
    hide CacheKey, Bucket, PoolHolds, Fetched, IsRequest;
    assert |MOUNTED.calls| == 0 && |MOUNTED.begun| == 0 && MOUNTED.cache == map[] && MOUNTED.shown == None;
  }

  /**
   * However the calls overlap: each has at most two requests in flight, never throws, and asks for
   * each of its topics at most once.
   */
  lemma RequestsAreBounded(actions: seq<Action>, c: nat)
    requires c < |Exec(MOUNTED, actions).calls|
    ensures var h := Exec(MOUNTED, actions); var running := FetchPool.RunningTasks(h.calls[c].pool);
            && |running| <= 2 && (forall i | i in running :: Fetch(c, i) in h.begun)
            && !h.calls[c].pool.pc.Threw?
            && forall j, k | 0 <= j < k < |h.begun| :: h.begun[j] != h.begun[k]
  {
    hide Exec, CacheHolds, FramesHold, ShownHolds;
    EveryRunHolds(actions);
    var h := Exec(MOUNTED, actions);
    assert PoolHolds(h, c);
    FetchPool.ListCoversSet(h.calls[c].pool.executing, FetchPool.RunningTasks(h.calls[c].pool));
  }

  /** Every cached URL came from a request for its key's own topic and bucket. */
  lemma CachedFramesBelong(actions: seq<Action>, topic: string, timestamp: real)
    ensures var h, key := Exec(MOUNTED, actions), CacheKey(topic, timestamp);
            key in h.cache ==> Fetched(h, topic, Bucket(timestamp), h.cache[key])
  {
    hide Exec, PoolsHold, RequestsHold, FramesHold, ShownHolds, CacheKey, Bucket, Fetched;
    EveryRunHolds(actions);
    if CacheKey(topic, timestamp) in Exec(MOUNTED, actions).cache {
      CachedWasFetched(Exec(MOUNTED, actions), topic, timestamp);
    }
  }

  /**
   * What is displayed is a load all of whose tasks finished, with at least one frame, each fetched
   * for its topic and for the bucket of the timestamp the load was made for.
   */
  lemma ShownFramesBelong(actions: seq<Action>)
    ensures var h := Exec(MOUNTED, actions);
            h.shown.Some? ==>
              && h.shown.value < |h.calls|
              && var call := h.calls[h.shown.value];
                 && call.kind.Load? && call.frames != map[] && |call.pool.tasks| == |call.topics|
                 && (forall i | 0 <= i < |call.topics| :: call.pool.tasks[i] == FetchPool.Removed(true))
                 && (forall topic | topic in call.frames ::
                       Fetched(h, topic, Bucket(call.timestamp), call.frames[topic]))
  {
    hide Exec, RequestsHold, CacheHolds, Bucket, Fetched;
    EveryRunHolds(actions);
    var h := Exec(MOUNTED, actions);
    if h.shown.Some? {
      assert PoolHolds(h, h.shown.value);
    }
  }

  // ---- what is cached is not asked for again ----

  predicate Cached(h: Hook, key: string) {
    key in h.cache && h.cache[key] != ""
  }

  /** Every URL that arrives is one; object URLs are never empty. */
  predicate RealUrls(actions: seq<Action>) {
    forall i | 0 <= i < |actions| && actions[i].Arrive? :: actions[i].url != Some("")
  }

  /** From position `from` on, no request for this key. */
  ghost predicate NoneFor(h: Hook, from: nat, key: string) {
    forall k | from <= k < |h.begun| && IsRequest(h, h.begun[k]) ::
        CacheKey(TopicOf(h, h.begun[k]), TimeOf(h, h.begun[k])) != key
  }

  lemma StepOfCached(h: Hook, a: Action, key: string)
    requires Cached(h, key) && (a.Arrive? ==> a.url != Some(""))
    ensures Cached(Next(h, a), key)
    ensures Next(h, a).begun == h.begun || (|Next(h, a).begun| == |h.begun| + 1 && NoneFor(Next(h, a), |h.begun|, key))
  {
    hide CacheKey, FetchPool.Next, FetchPool.Enabled;
  }

  lemma NoneForStays(h: Hook, t: Hook, from: nat, key: string)
    requires Extends(h, t) && NoneFor(h, from, key) && NoneFor(t, |h.begun|, key)
    requires forall k | 0 <= k < |h.begun| :: IsRequest(h, h.begun[k])
    ensures NoneFor(t, from, key)
  {
    hide CacheKey;
  }

  lemma BegunAreRequests(h: Hook, a: Action)
    requires forall k | 0 <= k < |h.begun| :: IsRequest(h, h.begun[k])
    ensures forall k | 0 <= k < |Next(h, a).begun| :: IsRequest(Next(h, a), Next(h, a).begun[k])
  {
    hide CacheKey, FetchPool.Next, FetchPool.Enabled;
    StepExtends(h, a);
  }

  lemma {:induction false} CachedIsNotFetchedAgain(h: Hook, actions: seq<Action>, from: nat, key: string)
    requires Cached(h, key) && RealUrls(actions) && NoneFor(h, from, key) && from <= |h.begun|
    requires forall k | 0 <= k < |h.begun| :: IsRequest(h, h.begun[k])
    ensures Cached(Exec(h, actions), key) && NoneFor(Exec(h, actions), from, key)
    decreases |actions|
  {
    hide Next, NoneFor, Cached, IsRequest, CacheKey;
    if actions != [] {
      var t := Next(h, actions[0]);
      StepOfCached(h, actions[0], key);
      StepExtends(h, actions[0]);
      BegunAreRequests(h, actions[0]);
      if t.begun == h.begun { NothingAfter(t, key); }
      NoneForStays(h, t, from, key);
      CachedIsNotFetchedAgain(t, actions[1..], from, key);
    }
  }

  lemma NothingAfter(h: Hook, key: string)
    ensures NoneFor(h, |h.begun|, key)
  {
  }

  /** Once a frame is cached, no call, whenever it began, starts a request for its topic and bucket. */
  lemma CachedIsNeverRefetched(before: seq<Action>, after: seq<Action>, key: string)
    requires Cached(Exec(MOUNTED, before), key) && RealUrls(after)
    ensures var h := Exec(MOUNTED, before);
            NoneFor(Exec(h, after), |h.begun|, key) && Cached(Exec(h, after), key)
  {
    hide Exec, PoolsHold, CacheHolds, FramesHold, ShownHolds, Cached, NoneFor;
    var h := Exec(MOUNTED, before);
    EveryRunHolds(before);
    NothingAfter(h, key);
    CachedIsNotFetchedAgain(h, after, |h.begun|, key);
  }
}
