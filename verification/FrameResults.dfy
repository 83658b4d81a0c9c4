/**
 * What loads and preloads achieve: the cache is exactly the latest answer for every topic and bucket,
 * a load that is not superseded shows a frame for every topic, and only a later load supersedes one.
 */
module FrameResults {
  import opened Options
  import FetchPool
  import opened FrameCache
  import opened FrameSafety

  // ---- the cache ----

  function KeyOf(h: Hook, f: Fetch): string
    requires IsRequest(h, f)
  {
    CacheKey(TopicOf(h, f), TimeOf(h, f))
  }

  /** The URL of the last of the first `n` answers to a request for this key. */
  ghost function LatestAnswer(h: Hook, n: nat, key: string): Option<string>
    requires n <= |h.answers|
  {
    if n == 0 then None
    else if IsRequest(h, h.answers[n - 1].fetch) && KeyOf(h, h.answers[n - 1].fetch) == key then
      Some(h.answers[n - 1].url)
    else LatestAnswer(h, n - 1, key)
  }

  ghost predicate CacheIsLatest(h: Hook) {
    && (forall k | 0 <= k < |h.answers| :: IsRequest(h, h.answers[k].fetch))
    && (forall key :: if key in h.cache then LatestAnswer(h, |h.answers|, key) == Some(h.cache[key])
                      else LatestAnswer(h, |h.answers|, key) == None)
  }

  lemma {:induction false} LatestStays(h: Hook, t: Hook, n: nat, key: string)
    requires Extends(h, t) && n <= |h.answers|
    requires forall k | 0 <= k < |h.answers| :: IsRequest(h, h.answers[k].fetch)
    ensures LatestAnswer(t, n, key) == LatestAnswer(h, n, key)
  {
    hide CacheKey;
    if n > 0 {
      LatestStays(h, t, n - 1, key);
      assert t.answers[n - 1] == h.answers[n - 1];
    }
  }

  /** An answer is cached, whichever kind of call asked; and a load collects it for display. */
  lemma ArrivalIsCached(h: Hook, c: nat, i: nat, url: string)
    requires CanArrive(h, c, i)
    ensures var t, call := Next(h, Arrive(c, i, Some(url))), h.calls[c];
            && t.cache == h.cache[CacheKey(call.topics[i], call.timestamp) := url]
            && t.answers == h.answers + [Answer(Fetch(c, i), url)]
            && |t.calls| == |h.calls| && t.calls[c].kind == call.kind
            && (call.kind.Load? ==> t.calls[c].frames == call.frames[call.topics[i] := url])
  {
    hide CacheKey, FetchPool.Next;
  }

  lemma OnlyArrivalsCache(h: Hook, a: Action)
    ensures var t := Next(h, a);
            (t.cache == h.cache && t.answers == h.answers) || (a.Arrive? && a.url.Some? && CanArrive(h, a.c, a.i))
  {
    hide CacheKey, FetchPool.Next, FetchPool.Enabled;
  }

  lemma StepKeepsLatest(h: Hook, a: Action)
    requires CacheIsLatest(h)
    ensures CacheIsLatest(Next(h, a))
  {
    hide Next, CacheKey, IsRequest;
    var t := Next(h, a);
    StepExtends(h, a);
    OnlyArrivalsCache(h, a);
    RequestsStay(h, t);
    forall key ensures LatestAnswer(t, |h.answers|, key) == LatestAnswer(h, |h.answers|, key) {
      LatestStays(h, t, |h.answers|, key);
    }
    if t.answers != h.answers || t.cache != h.cache {
      ArrivalIsCached(h, a.c, a.i, a.url.value);
      ArrivalIsRequest(h, t, a.c, a.i);
    }
  }

  lemma RequestsStay(h: Hook, t: Hook)
    requires Extends(h, t)
    ensures forall f | IsRequest(h, f) :: IsRequest(t, f) && KeyOf(t, f) == KeyOf(h, f)
  {
  }

  lemma ArrivalIsRequest(h: Hook, t: Hook, c: nat, i: nat)
    requires CanArrive(h, c, i) && Extends(h, t)
    ensures IsRequest(h, Fetch(c, i)) && IsRequest(t, Fetch(c, i))
    ensures KeyOf(t, Fetch(c, i)) == CacheKey(h.calls[c].topics[i], h.calls[c].timestamp)
  {
  }

  lemma {:induction false} RunKeepsLatest(h: Hook, actions: seq<Action>)
    requires CacheIsLatest(h)
    ensures CacheIsLatest(Exec(h, actions))
    decreases |actions|
  {
    hide Next, CacheIsLatest;
    if actions != [] {
      StepKeepsLatest(h, actions[0]);
      RunKeepsLatest(Next(h, actions[0]), actions[1..]);
    }
  }

  /**
   * In every run: there is a frame cached for a topic and bucket exactly if some request for them was
   * answered, and it is the one that came with the latest answer.
   */
  lemma CacheIsTheLatestAnswers(actions: seq<Action>, topic: string, timestamp: real)
    ensures var h, key := Exec(MOUNTED, actions), CacheKey(topic, timestamp);
            && (key in h.cache <==> exists k :: 0 <= k < |h.answers| && IsRequest(h, h.answers[k].fetch)
                                                && KeyOf(h, h.answers[k].fetch) == key)
            && (key in h.cache ==>
                  exists k :: 0 <= k < |h.answers| && h.answers[k].url == h.cache[key]
                              && IsRequest(h, h.answers[k].fetch) && KeyOf(h, h.answers[k].fetch) == key
                              && forall l | k < l < |h.answers| ::
                                   IsRequest(h, h.answers[l].fetch) ==> KeyOf(h, h.answers[l].fetch) != key)
  {
    hide Exec, CacheKey, KeyOf;
    var h, key := Exec(MOUNTED, actions), CacheKey(topic, timestamp);
    assert CacheIsLatest(MOUNTED) by {
      assert |MOUNTED.answers| == 0 && MOUNTED.cache == map[];
    }
    RunKeepsLatest(MOUNTED, actions);
    LatestMeans(h, |h.answers|, key);
  }

  lemma {:induction false} LatestMeans(h: Hook, n: nat, key: string)
    requires n <= |h.answers|
    ensures match LatestAnswer(h, n, key)
            case None => forall l | 0 <= l < n ::
                           IsRequest(h, h.answers[l].fetch) ==> KeyOf(h, h.answers[l].fetch) != key
            case Some(url) => exists k :: 0 <= k < n && h.answers[k].url == url
                                          && IsRequest(h, h.answers[k].fetch) && KeyOf(h, h.answers[k].fetch) == key
                                          && forall l | k < l < n ::
                                               IsRequest(h, h.answers[l].fetch) ==> KeyOf(h, h.answers[l].fetch) != key
  {
    hide KeyOf, IsRequest;
    if n > 0 {
      LatestMeans(h, n - 1, key);
    }
  }

  /**
   * What a call, load or preload, fetched serves every other call: from its answer on no request is
   * begun for that topic and bucket any more.
   */
  lemma AnswerServesAll(before: seq<Action>, c: nat, i: nat, url: string, after: seq<Action>)
    requires CanArrive(Exec(MOUNTED, before), c, i) && url != "" && RealUrls(after)
    ensures var h := Exec(MOUNTED, before);
            var key, t := CacheKey(h.calls[c].topics[i], h.calls[c].timestamp), Next(h, Arrive(c, i, Some(url)));
            NoneFor(Exec(t, after), |h.begun|, key) && Cached(Exec(t, after), key)
  {
    hide Exec, Next, CacheKey, NoneFor;
    var h, a := Exec(MOUNTED, before), Arrive(c, i, Some(url));
    ExecConcat(MOUNTED, before, [a]);
    ExecOne(h, a);
    ArrivalIsCached(h, c, i, url);
    ArrivalBeginsNothing(h, a);
    CachedIsNeverRefetched(before + [a], after, CacheKey(h.calls[c].topics[i], h.calls[c].timestamp));
  }

  lemma ArrivalBeginsNothing(h: Hook, a: Action)
    requires a.Arrive?
    ensures Next(h, a).begun == h.begun
  {
    hide CacheKey, FetchPool.Next, FetchPool.Enabled;
  }

  // ---- what a load shows ----

  /** No request fails. */
  predicate AllAnswered(actions: seq<Action>) {
    forall i | 0 <= i < |actions| && actions[i].Arrive? :: actions[i].url.Some?
  }

  /** A load not superseded has a frame for each of its topics whose task is not running any more. */
  ghost predicate Collects(call: Call) {
    call.kind.Load? && !call.aborted ==>
      && |call.pool.tasks| <= |call.topics|
      && forall i | 0 <= i < |call.pool.tasks| && !call.pool.tasks[i].Running? :: call.topics[i] in call.frames
  }

  ghost predicate AllCollect(h: Hook) {
    forall c | 0 <= c < |h.calls| :: Collects(h.calls[c])
  }

  lemma StartTasks(p: FetchPool.Pool)
    requires FetchPool.Enabled(p, FetchPool.Start)
    ensures var q := FetchPool.Next(p, FetchPool.Start);
            && q.tasks == p.tasks + [FetchPool.Running]
            && FetchPool.Next(q, FetchPool.Settle(|p.tasks|, true)).tasks == p.tasks + [FetchPool.Settled(true)]
  {
    var q := FetchPool.Next(p, FetchPool.Start);
    assert q.tasks[|p.tasks| := FetchPool.Settled(true)] == p.tasks + [FetchPool.Settled(true)];
  }

  lemma NoneRunsAgain(p: FetchPool.Pool, e: FetchPool.Event)
    requires e.Remove? || e.Drain? || e.Resume?
    ensures var q := FetchPool.Next(p, e);
            |q.tasks| == |p.tasks| && forall i | 0 <= i < |p.tasks| :: q.tasks[i].Running? <==> p.tasks[i].Running?
  {
  }

  lemma StartCollects(h: Hook, c: nat)
    requires CanStart(h, c) && Collects(h.calls[c])
    ensures Collects(StartNext(h, c).calls[c])
  {
    hide CacheKey, FetchPool.Next;
    StartTasks(h.calls[c].pool);
  }

  lemma ArrivalCollects(h: Hook, c: nat, i: nat, url: string)
    requires CanArrive(h, c, i) && Collects(h.calls[c])
    ensures Collects(ArriveAt(h, c, i, Some(url)).calls[c])
  {
    hide CacheKey;
  }

  lemma AdvanceCollects(h: Hook, c: nat, e: FetchPool.Event)
    requires c < |h.calls| && Collects(h.calls[c]) && (e.Remove? || e.Drain? || e.Resume?)
    ensures Collects(AdvancePool(h, c, e).calls[c])
  {
    hide FetchPool.Next;
    NoneRunsAgain(h.calls[c].pool, e);
  }

  lemma StepCollects(h: Hook, a: Action)
    requires AllCollect(h) && (a.Arrive? ==> a.url.Some?)
    ensures AllCollect(Next(h, a))
  {
    hide Collects, StartNext, ArriveAt, AdvancePool, FetchPool.Enabled, FetchPool.Next;
    OneActs(h, a);
    match a
    case Begin(_, _, _, _) => BeginCollects(h, a);
    case StartTask(c) =>
      if CanStart(h, c) {
        StartCollects(h, c);
      }
    case Arrive(c, i, url) =>
      if CanArrive(h, c, i) {
        ArrivalCollects(h, c, i, url.value);
      }
    case Advance(c, e) =>
      if c < |h.calls| && (e.Remove? || e.Drain? || e.Resume?) {
        AdvanceCollects(h, c, e);
      }
  }

  lemma BeginCollects(h: Hook, a: Action)
    requires AllCollect(h) && a.Begin?
    ensures AllCollect(Next(h, a))
  {
  }

  lemma {:induction false} RunCollects(h: Hook, actions: seq<Action>)
    requires AllCollect(h) && AllAnswered(actions)
    ensures AllCollect(Exec(h, actions))
    decreases |actions|
  {
    hide Next, AllCollect;
    if actions != [] {
      StepCollects(h, actions[0]);
      RunCollects(Next(h, actions[0]), actions[1..]);
    }
  }

  /** If no request fails, a load that returned without being superseded has a frame for every topic. */
  lemma LoadsShowEveryTopic(actions: seq<Action>, c: nat, topic: string)
    requires AllAnswered(actions) && c < |Exec(MOUNTED, actions).calls|
    ensures var call := Exec(MOUNTED, actions).calls[c];
            call.kind.Load? && !call.aborted && call.pool.pc.Returned? && topic in call.topics ==> topic in call.frames
  {
    hide Exec, RequestsHold, CacheHolds, FramesHold, ShownHolds;
    var h := Exec(MOUNTED, actions);
    EveryRunHolds(actions);
    RunCollects(MOUNTED, actions);
    assert PoolHolds(h, c) && Collects(h.calls[c]);
  }

  // ---- who is superseded ----

  /** The latest load, if any, is the current one; the loads before it are superseded, preloads never. */
  ghost predicate CurrentIsLatest(h: Hook) {
    && (h.current.Some? ==> h.current.value < |h.calls| && h.calls[h.current.value].kind.Load?)
    && (forall c | 0 <= c < |h.calls| && h.calls[c].kind.Load? :: h.current.Some? && c <= h.current.value)
    && (forall c | 0 <= c < |h.calls| ::
          h.calls[c].aborted <==> h.calls[c].kind.Load? && h.current.Some? && c < h.current.value)
  }

  lemma StepKeepsCurrent(h: Hook, a: Action)
    requires CurrentIsLatest(h)
    ensures CurrentIsLatest(Next(h, a))
  {
    hide StartNext, ArriveAt, AdvancePool, CanStart, CanArrive;
    if !a.Begin? {
      NobodyElseSupersedes(h, a);
    }
  }

  lemma NobodyElseSupersedes(h: Hook, a: Action)
    requires !a.Begin?
    ensures var t := Next(h, a);
            && t.current == h.current && |t.calls| == |h.calls|
            && forall c | 0 <= c < |h.calls| ::
                 t.calls[c].kind == h.calls[c].kind && t.calls[c].aborted == h.calls[c].aborted
  {
    hide CacheKey, FetchPool.Next, FetchPool.Enabled;
  }

  lemma {:induction false} RunKeepsCurrent(h: Hook, actions: seq<Action>)
    requires CurrentIsLatest(h)
    ensures CurrentIsLatest(Exec(h, actions))
    decreases |actions|
  {
    hide Next, CurrentIsLatest;
    if actions != [] {
      StepKeepsCurrent(h, actions[0]);
      RunKeepsCurrent(Next(h, actions[0]), actions[1..]);
    }
  }

  /** In every run a call is superseded exactly if it is a load and a later call is a load, too. */
  lemma SupersededIff(actions: seq<Action>, c: nat)
    requires c < |Exec(MOUNTED, actions).calls|
    ensures var calls := Exec(MOUNTED, actions).calls;
            calls[c].aborted <==> calls[c].kind.Load? && exists d :: c < d < |calls| && calls[d].kind.Load?
  {
    hide Exec;
    RunKeepsCurrent(MOUNTED, actions);
  }
}
