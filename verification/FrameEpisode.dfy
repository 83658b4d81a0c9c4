/**
 * Whose frames are displayed: the cache has no episode in its keys and outlives a change of
 * episode, so what is displayed is the episode's own exactly while the hook serves one episode.
 */
module FrameEpisode {
  import opened Options
  import FetchPool
  import opened FrameCache
  import opened FrameSafety

  /** Every frame displayed answered a request for the episode of the load that displays it. */
  ghost predicate ShowsOwn(h: Hook) {
    h.shown.Some? && h.shown.value < |h.calls| ==>
      var call := h.calls[h.shown.value];
      forall topic | topic in call.frames ::
        exists k :: Answers(h, k, topic, Bucket(call.timestamp), call.frames[topic]) && ForEpisode(h, k, call.episodeId)
  }

  ghost predicate ForEpisode(h: Hook, k: nat, episodeId: string) {
    k < |h.answers| && h.answers[k].fetch.call < |h.calls| && h.calls[h.answers[k].fetch.call].episodeId == episodeId
  }

  predicate Serves(actions: seq<Action>, episodes: set<string>) {
    forall i | 0 <= i < |actions| && actions[i].Begin? :: actions[i].episodeId in episodes
  }

  ghost predicate CallsServe(h: Hook, episodes: set<string>) {
    forall c | 0 <= c < |h.calls| :: h.calls[c].episodeId in episodes
  }

  lemma StepServes(h: Hook, a: Action, episodes: set<string>)
    requires CallsServe(h, episodes) && (a.Begin? ==> a.episodeId in episodes)
    ensures CallsServe(Next(h, a), episodes)
  {
    hide CacheKey, FetchPool.Next, FetchPool.Enabled;
  }

  lemma {:induction false} RunServes(h: Hook, actions: seq<Action>, episodes: set<string>)
    requires CallsServe(h, episodes) && Serves(actions, episodes)
    ensures CallsServe(Exec(h, actions), episodes)
    decreases |actions|
  {
    hide Next, CallsServe;
    if actions != [] {
      StepServes(h, actions[0], episodes);
      RunServes(Next(h, actions[0]), actions[1..], episodes);
    }
  }

  lemma OneEpisodeShowsOwn(actions: seq<Action>, episodes: set<string>)
    requires Serves(actions, episodes) && forall a, b | a in episodes && b in episodes :: a == b
    ensures ShowsOwn(Exec(MOUNTED, actions))
  {
    hide Exec, Bucket, FetchPool.RunningTasks;
    var h := Exec(MOUNTED, actions);
    RunServes(MOUNTED, actions, episodes);
    ShownFramesBelong(actions);
    if h.shown.Some? && h.shown.value < |h.calls| {
      var call := h.calls[h.shown.value];
      forall topic | topic in call.frames
        ensures exists k ::
          Answers(h, k, topic, Bucket(call.timestamp), call.frames[topic]) && ForEpisode(h, k, call.episodeId)
      {
        var k :| Answers(h, k, topic, Bucket(call.timestamp), call.frames[topic]);
        assert ForEpisode(h, k, call.episodeId);
      }
    }
  }

  // ---- two episodes ----

  const CAM: seq<string> := ["cam"]

  /** A load for the first episode is answered ... */
  const ANSWERED: seq<Action> := [StartTask(0), Arrive(0, 0, Some("u"))]

  /** ... a load for the second finds the answer cached and displays it. */
  const DISPLAYED: seq<Action> :=
    [StartTask(1), Advance(1, FetchPool.Remove(0)), Advance(1, FetchPool.Drain), Advance(1, FetchPool.Resume)]

  function SwitchEpisode(first: string, second: string): seq<Action> {
    [Begin(Load, first, 0.0, CAM)] + ANSWERED + [Begin(Load, second, 0.0, CAM)] + DISPLAYED
  }

  function OneTask(task: FetchPool.Task, executing: seq<nat>, pc: FetchPool.Pc): FetchPool.Pool {
    FetchPool.Pool(1, 2, [task], executing, pc)
  }

  function ServedOnce(first: string, aborted: bool): Call {
    Call(Load, first, 0.0, CAM, OneTask(FetchPool.Settled(true), [0], FetchPool.Looping), aborted, map["cam" := "u"])
  }

  function AfterFirst(first: string): Hook {
    Hook([ServedOnce(first, false)], map[CacheKey("cam", 0.0) := "u"],
         [Fetch(0, 0)], [Answer(Fetch(0, 0), "u")], Some(0), None)
  }

  function AfterSecond(first: string, second: string, pool: FetchPool.Pool, shown: Option<nat>): Hook {
    Hook([ServedOnce(first, true), Call(Load, second, 0.0, CAM, pool, false, map["cam" := "u"])],
         map[CacheKey("cam", 0.0) := "u"], [Fetch(0, 0)], [Answer(Fetch(0, 0), "u")], Some(1), shown)
  }

  lemma PoolOfOne()
    ensures FetchPool.Next(FetchPool.Init(1, 2), FetchPool.Start) == OneTask(FetchPool.Running, [0], FetchPool.Looping)
    ensures FetchPool.Next(OneTask(FetchPool.Running, [0], FetchPool.Looping), FetchPool.Settle(0, true)) == Settled()
    ensures FetchPool.Next(Settled(), FetchPool.Remove(0)) == OneTask(FetchPool.Removed(true), [], FetchPool.Looping)
    ensures FetchPool.Next(OneTask(FetchPool.Removed(true), [], FetchPool.Looping), FetchPool.Drain) ==
            OneTask(FetchPool.Removed(true), [], FetchPool.Draining([], false))
    ensures FetchPool.Next(OneTask(FetchPool.Removed(true), [], FetchPool.Draining([], false)), FetchPool.Resume) ==
            Over()
  {
    assert [FetchPool.Running][0 := FetchPool.Settled(true)] == [FetchPool.Settled(true)];
    assert [FetchPool.Settled(true)][0 := FetchPool.Removed(true)] == [FetchPool.Removed(true)];
    assert FetchPool.SpliceOut([0], 0) == [];
  }

  function Settled(): FetchPool.Pool {
    OneTask(FetchPool.Settled(true), [0], FetchPool.Looping)
  }

  function Over(): FetchPool.Pool {
    OneTask(FetchPool.Removed(true), [], FetchPool.Returned)
  }

  lemma FirstIsServed(first: string)
    ensures Exec(MOUNTED, [Begin(Load, first, 0.0, CAM)] + ANSWERED) == AfterFirst(first)
  {
    hide CacheKey, FetchPool.Next;
    var a, b, c := Begin(Load, first, 0.0, CAM), StartTask(0), Arrive(0, 0, Some("u"));
    assert [a] + ANSWERED == [a, b, c];
    ExecThree(MOUNTED, a, b, c);
    PoolOfOne();
    var started := Call(Load, first, 0.0, CAM, OneTask(FetchPool.Running, [0], FetchPool.Looping), false, map[]);
    var t := Next(Next(MOUNTED, a), b);
    assert t == Hook([started], map[], [Fetch(0, 0)], [], Some(0), None);
    assert [started][0 := ServedOnce(first, false)] == [ServedOnce(first, false)];
  }

  lemma SecondIsServed(first: string, second: string)
    ensures var s := AfterFirst(first);
            Next(Next(s, Begin(Load, second, 0.0, CAM)), StartTask(1)) == AfterSecond(first, second, Settled(), None)
  {
    hide CacheKey, FetchPool.Next;
    PoolOfOne();
    var begun := Call(Load, second, 0.0, CAM, FetchPool.Init(1, 2), false, map[]);
    var t := Next(AfterFirst(first), Begin(Load, second, 0.0, CAM));
    assert t == AfterFirst(first).(calls := [ServedOnce(first, true), begun], current := Some(1));
    assert t.calls[1 := AfterSecond(first, second, Settled(), None).calls[1]] ==
           AfterSecond(first, second, Settled(), None).calls;
  }

  lemma SecondMoves(first: string, second: string, pool: FetchPool.Pool, e: FetchPool.Event, shown: Option<nat>)
    requires e.Remove? || e.Drain? || e.Resume?
    requires !pool.pc.Returned?
    ensures var moved := FetchPool.Next(pool, e);
            Next(AfterSecond(first, second, pool, shown), Advance(1, e)) ==
            AfterSecond(first, second, moved, if moved.pc.Returned? then Some(1) else shown)
  {
    hide CacheKey, FetchPool.Next;
    var s := AfterSecond(first, second, pool, shown);
    assert s.calls[1].frames["cam"] == "u";
    assert s.calls[1 := s.calls[1].(pool := FetchPool.Next(pool, e))] ==
           AfterSecond(first, second, FetchPool.Next(pool, e), shown).calls;
  }

  lemma SecondReturns(first: string, second: string)
    ensures var s := AfterSecond(first, second, Settled(), None);
            Next(Next(Next(s, Advance(1, FetchPool.Remove(0))), Advance(1, FetchPool.Drain)),
                 Advance(1, FetchPool.Resume)) ==
            AfterSecond(first, second, Over(), Some(1))
  {
    hide Next, FetchPool.Next, AfterSecond;
    PoolOfOne();
    SecondMoves(first, second, Settled(), FetchPool.Remove(0), None);
    SecondMoves(first, second, OneTask(FetchPool.Removed(true), [], FetchPool.Looping), FetchPool.Drain, None);
    SecondMoves(first, second, OneTask(FetchPool.Removed(true), [], FetchPool.Draining([], false)),
                FetchPool.Resume, None);
  }

  lemma SwitchShowsOther(first: string, second: string)
    requires first != second
    ensures !ShowsOwn(Exec(MOUNTED, SwitchEpisode(first, second)))
  {
    hide Next, Bucket, CacheKey;
    var b := Begin(Load, second, 0.0, CAM);
    var r, d, u := Advance(1, FetchPool.Remove(0)), Advance(1, FetchPool.Drain), Advance(1, FetchPool.Resume);
    assert SwitchEpisode(first, second) ==
           ([Begin(Load, first, 0.0, CAM)] + ANSWERED) + ([b, StartTask(1)] + [r, d, u]);
    FirstIsServed(first);
    SecondIsServed(first, second);
    SecondReturns(first, second);
    var s := AfterFirst(first);
    ExecConcat(MOUNTED, [Begin(Load, first, 0.0, CAM)] + ANSWERED, [b, StartTask(1)] + [r, d, u]);
    ExecConcat(s, [b, StartTask(1)], [r, d, u]);
    ExecTwo(s, b, StartTask(1));
    ExecThree(Next(Next(s, b), StartTask(1)), r, d, u);
    var t := Exec(MOUNTED, SwitchEpisode(first, second));
    assert t == AfterSecond(first, second, Over(), Some(1));
    assert "cam" in t.calls[1].frames && forall k: nat :: !ForEpisode(t, k, second);
  }

  ghost predicate AlwaysShowsOwn(episodes: set<string>) {
    forall actions | Serves(actions, episodes) :: ShowsOwn(Exec(MOUNTED, actions))
  }

  /** What is displayed belongs to the episode of the load displaying it exactly while there is one episode. */
  lemma OwnFramesIffOneEpisode(episodes: set<string>)
    ensures AlwaysShowsOwn(episodes) <==> |episodes| <= 1
  {
    hide Exec, ShowsOwn, SwitchEpisode;
    if |episodes| <= 1 {
      AtMostOne(episodes);
      forall actions | Serves(actions, episodes) ensures ShowsOwn(Exec(MOUNTED, actions)) {
        OneEpisodeShowsOwn(actions, episodes);
      }
    } else {
      var a :| a in episodes;
      var rest := episodes - {a};
      assert |rest| >= 1;
      var b :| b in rest;
      SwitchServes(a, b, episodes);
      SwitchShowsOther(a, b);
    }
  }

  lemma AtMostOne<T>(s: set<T>)
    requires |s| <= 1
    ensures forall a, b | a in s && b in s :: a == b
  {
    forall a, b | a in s && b in s ensures a == b {
      var rest := s - {a};
      assert |rest| == |s| - 1;
      assert b in rest || b == a;
    }
  }

  lemma SwitchServes(first: string, second: string, episodes: set<string>)
    requires first in episodes && second in episodes
    ensures Serves(SwitchEpisode(first, second), episodes)
  {
  }
}
