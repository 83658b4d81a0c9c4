/**
 * Whether the display ever goes back: a superseded load still displays what it collected when it
 * returns, so frames of an older load replace those of a newer one that returned before it.
 */
module FrameNewest {
  import opened Options
  import FetchPool
  import opened FrameCache
  import opened FrameSafety
  import opened FrameEpisode

  /** The step does not replace displayed frames by those of an older load. */
  predicate ShowsNoOlder(h: Hook, a: Action) {
    h.shown.Some? ==> Next(h, a).shown.Some? && h.shown.value <= Next(h, a).shown.value
  }

  function Loads(h: Hook): set<nat> {
    set c: nat | c < |h.calls| && h.calls[c].kind.Load?
  }

  /** What every step of every run of at most `n` loads, and any preloads, does. */
  ghost predicate NeverGoesBack(n: nat) {
    forall actions, a | |Loads(Exec(MOUNTED, actions))| <= n :: ShowsNoOlder(Exec(MOUNTED, actions), a)
  }

  lemma ShownMoves(h: Hook, a: Action)
    ensures var t := Next(h, a);
            t.shown == h.shown || (t.shown.Some? && t.shown.value in Loads(h))
  {
    hide CacheKey, FetchPool.Next, FetchPool.Enabled;
  }

  lemma OneLoadNeverGoesBack(actions: seq<Action>, a: Action)
    requires |Loads(Exec(MOUNTED, actions))| <= 1
    ensures ShowsNoOlder(Exec(MOUNTED, actions), a)
  {
    hide Exec, Next, Fetched;
    var h := Exec(MOUNTED, actions);
    ShownMoves(h, a);
    ShownFramesBelong(actions);
    AtMostOne(Loads(h));
    assert h.shown.Some? ==> h.shown.value in Loads(h);
  }

  // ---- two loads, the first answered last ----

  function Requesting(aborted: bool): Call {
    Call(Load, "ep", 0.0, CAM, OneTask(FetchPool.Running, [0], FetchPool.Looping), aborted, map[])
  }

  function Collected(aborted: bool, url: string, pool: FetchPool.Pool): Call {
    Call(Load, "ep", 0.0, CAM, pool, aborted, map["cam" := url])
  }

  /** All but the last step of a load from the arrival of its answer to its return. */
  function Finish(c: nat, url: string): seq<Action> {
    [Arrive(c, 0, Some(url)), Advance(c, FetchPool.Remove(0)), Advance(c, FetchPool.Drain)]
  }

  function Drained(): FetchPool.Pool {
    OneTask(FetchPool.Removed(true), [], FetchPool.Draining([], false))
  }

  lemma Arrives(h: Hook, c: nat, aborted: bool, url: string)
    requires c < |h.calls| && h.calls[c] == Requesting(aborted)
    ensures var t := Next(h, Arrive(c, 0, Some(url)));
            t.calls == h.calls[c := Collected(aborted, url, Settled())] && t.shown == h.shown
  {
    hide CacheKey, FetchPool.Next;
    PoolOfOne();
  }

  lemma Moves(h: Hook, c: nat, aborted: bool, url: string, pool: FetchPool.Pool, e: FetchPool.Event)
    requires c < |h.calls| && h.calls[c] == Collected(aborted, url, pool) && (e.Remove? || e.Drain? || e.Resume?)
    requires !pool.pc.Returned?
    ensures var t, moved := Next(h, Advance(c, e)), FetchPool.Next(pool, e);
            && t.calls == h.calls[c := Collected(aborted, url, moved)]
            && t.shown == if moved.pc.Returned? then Some(c) else h.shown
  {
    hide FetchPool.Next;
    assert "cam" in h.calls[c].frames;
  }

  lemma AlmostReturns(h: Hook, c: nat, aborted: bool, url: string)
    requires c < |h.calls| && h.calls[c] == Requesting(aborted)
    ensures var t := Exec(h, Finish(c, url));
            t.calls == h.calls[c := Collected(aborted, url, Drained())] && t.shown == h.shown
  {
    hide Next, FetchPool.Next;
    PoolOfOne();
    ExecThree(h, Arrive(c, 0, Some(url)), Advance(c, FetchPool.Remove(0)), Advance(c, FetchPool.Drain));
    Arrives(h, c, aborted, url);
    var t := Next(h, Arrive(c, 0, Some(url)));
    Moves(t, c, aborted, url, Settled(), FetchPool.Remove(0));
    var removed := OneTask(FetchPool.Removed(true), [], FetchPool.Looping);
    Moves(Next(t, Advance(c, FetchPool.Remove(0))), c, aborted, url, removed, FetchPool.Drain);
  }

  lemma Returns(h: Hook, c: nat, aborted: bool, url: string)
    requires c < |h.calls| && h.calls[c] == Collected(aborted, url, Drained())
    ensures var t := Next(h, Advance(c, FetchPool.Resume));
            t.shown == Some(c) && t.calls == h.calls[c := Collected(aborted, url, Over())]
  {
    hide Next, FetchPool.Next;
    PoolOfOne();
    Moves(h, c, aborted, url, Drained(), FetchPool.Resume);
  }

  const TWO_BEGIN: seq<Action> :=
    [Begin(Load, "ep", 0.0, CAM), StartTask(0)] + [Begin(Load, "ep", 0.0, CAM), StartTask(1)]

  lemma BeginsAndRequests(h: Hook, actions: seq<Action>)
    requires h.cache == map[] && actions == [Begin(Load, "ep", 0.0, CAM), StartTask(|h.calls|)]
    ensures var t := Exec(h, actions);
            && t.cache == map[] && t.shown == h.shown && t.current == Some(|h.calls|)
            && t.calls == Abort(h.calls, h.current) + [Requesting(false)]
  {
    hide CacheKey, FetchPool.Next, Exec;
    PoolOfOne();
    var begun := Call(Load, "ep", 0.0, CAM, FetchPool.Init(1, 2), false, map[]);
    ExecTwo(h, actions[0], actions[1]);
    assert Next(h, actions[0]).calls == Abort(h.calls, h.current) + [begun];
  }

  lemma BothRequest()
    ensures var t := Exec(MOUNTED, TWO_BEGIN); t.calls == [Requesting(true), Requesting(false)] && t.shown == None
  {
    hide Exec;
    var a := [Begin(Load, "ep", 0.0, CAM), StartTask(0)];
    var b := [Begin(Load, "ep", 0.0, CAM), StartTask(1)];
    ExecConcat(MOUNTED, a, b);
    BeginsAndRequests(MOUNTED, a);
    BeginsAndRequests(Exec(MOUNTED, a), b);
  }

  function NewerFirst(): seq<Action> {
    TWO_BEGIN + (Finish(1, "new") + ([Advance(1, FetchPool.Resume)] + Finish(0, "old")))
  }

  /** The newer load is displayed; when the older one returns, its frames are displayed instead. */
  lemma OlderReplacesNewer()
    ensures var h := Exec(MOUNTED, NewerFirst()); var t := Next(h, Advance(0, FetchPool.Resume));
            && h.calls == [Collected(true, "old", Drained()), Collected(false, "new", Over())]
            && h.shown == Some(1) && t.shown == Some(0)
  {
    hide Exec, Next, Collected, Requesting;
    BothRequest();
    var s := Exec(MOUNTED, TWO_BEGIN);
    ExecConcat(MOUNTED, TWO_BEGIN, Finish(1, "new") + ([Advance(1, FetchPool.Resume)] + Finish(0, "old")));
    ExecConcat(s, Finish(1, "new"), [Advance(1, FetchPool.Resume)] + Finish(0, "old"));
    AlmostReturns(s, 1, false, "new");
    var u := Exec(s, Finish(1, "new"));
    ExecConcat(u, [Advance(1, FetchPool.Resume)], Finish(0, "old"));
    ExecOne(u, Advance(1, FetchPool.Resume));
    Returns(u, 1, false, "new");
    var v := Next(u, Advance(1, FetchPool.Resume));
    AlmostReturns(v, 0, true, "old");
    Returns(Exec(v, Finish(0, "old")), 0, true, "old");
  }

  /** The display never goes back to an older load exactly while there is one load. */
  lemma NeverGoesBackIff(n: nat)
    ensures NeverGoesBack(n) <==> n <= 1
  {
    hide Exec, Next, NewerFirst, Collected;
    if n <= 1 {
      forall actions, a | |Loads(Exec(MOUNTED, actions))| <= n ensures ShowsNoOlder(Exec(MOUNTED, actions), a) {
        OneLoadNeverGoesBack(actions, a);
      }
    } else {
      OlderReplacesNewer();
      var h := Exec(MOUNTED, NewerFirst());
      assert Loads(h) <= {0, 1};
      AtMostTwoLoads(h);
      assert !ShowsNoOlder(h, Advance(0, FetchPool.Resume));
    }
  }

  lemma AtMostTwoLoads(h: Hook)
    requires |h.calls| == 2
    ensures |Loads(h)| <= 2
  {
    var rest := {0, 1} - Loads(h);
    assert {0, 1} == Loads(h) + rest;
  }
}
