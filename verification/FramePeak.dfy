/**
 * How many frame requests can be in flight: two for each call made, no more; and since superseded
 * loads are not cancelled, that many are reached.
 */
module FramePeak {
  import FetchPool
  import opened FrameCache
  import opened FrameSafety

  function InFlight(calls: seq<Call>): nat {
    if calls == [] then 0
    else InFlight(calls[..|calls| - 1]) + |FetchPool.RunningTasks(calls[|calls| - 1].pool)|
  }

  lemma InFlightSnoc(calls: seq<Call>, call: Call)
    ensures InFlight(calls + [call]) == InFlight(calls) + |FetchPool.RunningTasks(call.pool)|
  {
    assert (calls + [call])[..|calls|] == calls;
  }

  lemma {:induction false} OnlyPoolsMatter(a: seq<Call>, b: seq<Call>)
    requires |a| == |b| && forall i | 0 <= i < |a| :: a[i].pool == b[i].pool
    ensures InFlight(a) == InFlight(b)
  {
    if a != [] {
      OnlyPoolsMatter(a[..|a| - 1], b[..|b| - 1]);
    }
  }

  lemma {:induction false} AtMostTwoEach(h: Hook, n: nat)
    requires PoolsHold(h) && n <= |h.calls|
    ensures InFlight(h.calls[..n]) <= 2 * n
  {
    hide FetchPool.RunningTasks;
    if n > 0 {
      AtMostTwoEach(h, n - 1);
      assert h.calls[..n][..n - 1] == h.calls[..n - 1];
      assert PoolHolds(h, n - 1);
      PoolAtMostTwo(h.calls[n - 1].pool);
    }
  }

  lemma PoolAtMostTwo(p: FetchPool.Pool)
    requires FetchPool.Holds(p) && p.concurrency == MAX_CONCURRENT
    ensures |FetchPool.RunningTasks(p)| <= 2
  {
    FetchPool.ListCoversSet(p.executing, FetchPool.RunningTasks(p));
  }

  // ---- piling up ----

  const BOTH: seq<string> := ["front", "rear"]

  /** One more load over two topics, nothing cached: two more requests, those before go on. */
  lemma OneMoreLoad(h: Hook) returns (t: Hook)
    requires h.cache == map[]
    ensures t == Exec(h, [Begin(Load, "ep", 0.0, BOTH), StartTask(|h.calls|), StartTask(|h.calls|)])
    ensures t.cache == map[] && |t.calls| == |h.calls| + 1 && InFlight(t.calls) == InFlight(h.calls) + 2
  {
    hide CacheKey;
    var n := |h.calls|;
    var a := Next(h, Begin(Load, "ep", 0.0, BOTH));
    var b := Next(a, StartTask(n));
    t := Next(b, StartTask(n));
    ExecThree(h, Begin(Load, "ep", 0.0, BOTH), StartTask(n), StartTask(n));
    assert t.calls[n].pool.tasks == [FetchPool.Running, FetchPool.Running];
    assert FetchPool.RunningTasks(t.calls[n].pool) == {0, 1};
    assert t.calls == t.calls[..n] + [t.calls[n]];
    InFlightSnoc(t.calls[..n], t.calls[n]);
    OnlyPoolsMatter(h.calls, t.calls[..n]);
  }

  lemma {:induction false} LoadsPileUp(n: nat) returns (actions: seq<Action>)
    ensures var h := Exec(MOUNTED, actions);
            h.cache == map[] && |h.calls| == n && InFlight(h.calls) == 2 * n
  {
    if n == 0 {
      actions := [];
    } else {
      var before := LoadsPileUp(n - 1);
      var h := Exec(MOUNTED, before);
      var more := [Begin(Load, "ep", 0.0, BOTH), StartTask(|h.calls|), StartTask(|h.calls|)];
      var t := OneMoreLoad(h);
      actions := before + more;
      ExecConcat(MOUNTED, before, more);
    }
  }

  ghost predicate NeverMoreThan(n: nat, peak: nat) {
    forall actions | |Exec(MOUNTED, actions).calls| == n :: InFlight(Exec(MOUNTED, actions).calls) <= peak
  }

  /** Runs of `n` overlapping calls stay within a number of requests exactly from `2 * n` on. */
  lemma PeakIsTwoPerCall(n: nat, peak: nat)
    ensures NeverMoreThan(n, peak) <==> 2 * n <= peak
  {
    hide Exec, InFlight, Holds;
    var pile := LoadsPileUp(n);
    if 2 * n <= peak {
      forall actions | |Exec(MOUNTED, actions).calls| == n ensures InFlight(Exec(MOUNTED, actions).calls) <= peak {
        var h := Exec(MOUNTED, actions);
        EveryRunHasPools(actions);
        AtMostTwoEach(h, n);
        assert h.calls[..n] == h.calls;
      }
    } else {
      assert InFlight(Exec(MOUNTED, pile).calls) == 2 * n;
    }
  }

  lemma EveryRunHasPools(actions: seq<Action>)
    ensures PoolsHold(Exec(MOUNTED, actions))
  {
    hide Exec, PoolsHold;
    EveryRunHolds(actions);
  }
}
