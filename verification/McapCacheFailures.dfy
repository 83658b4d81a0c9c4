/**
 * One download per episode when downloads may fail. A failed download drops the lock object from
 * the table: whoever waits on it and whoever comes new are no longer kept apart. That takes three
 * requests for one episode, and three are enough.
 */
module McapCacheFailures {
  import opened Collections
  import opened McapCache
  import opened McapCacheConcurrent
  import opened McapCacheSingleFlight
  import opened McapCacheOverflow

  /** No episode is asked for more than `m` times. */
  ghost predicate AtMost(requests: seq<EpisodeId>, m: nat) {
    forall id :: multiset(requests)[id] <= m
  }

  lemma ThreeAreMoreThanTwo(requests: seq<EpisodeId>, i: nat, j: nat, k: nat)
    requires i < j < k < |requests| && requests[i] == requests[j] == requests[k]
    ensures multiset(requests)[requests[i]] >= 3
  {
    var x := requests[i];
    assert requests ==
           requests[..i] + [x] + requests[i + 1..j] + [x] + requests[j + 1..k] + [x] + requests[k + 1..];
  }

  lemma AtMostTwoOf(requests: seq<EpisodeId>, disk: set<Path>)
    requires AtMost(requests, 2)
    ensures AtMostTwo(Init(requests, disk).requests)
  {
    forall i, j, k | 0 <= i < j < k < |requests| ensures requests[i] != requests[j] || requests[j] != requests[k] {
      if requests[i] == requests[j] == requests[k] {
        ThreeAreMoreThanTwo(requests, i, j, k);
      }
    }
  }

  // ---- three requests for one episode ----

  lemma FailAndGiveUp(cfg: Config, s: System, r: nat) returns (t: System)
    requires r < |s.requests| && s.requests[r].pc.Downloading?
    ensures Exec(cfg, s, [FetchFails(r), GiveUp(r)]) == t
    ensures t.requests == s.requests[r := Request(s.requests[r].id, Raised)]
    ensures t.cache == s.cache && t.locks == s.locks - {s.requests[r].id} && t.nextLock == s.nextLock
  {
    hide EvictAndInsert, FastCheck, Exec;
    ExecTwo(cfg, s, FetchFails(r), GiveUp(r));
    t := Next(cfg, Next(cfg, s, FetchFails(r)), GiveUp(r));
  }

  /** Once the lock object is dropped, the one who waited on it and a newcomer download at once. */
  lemma BothDownload(cfg: Config, s: System) returns (t: System)
    requires s.cache == [] && |s.requests| == 3 && s.requests[0].pc.Raised? && Name(0) !in s.locks && s.nextLock == 1
    requires s.requests[1] == Request(Name(0), Waiting(0)) && s.requests[2] == Request(Name(0), Start)
    ensures Reaches(cfg, s, t) && !SingleFlight(t)
  {
    hide Reaches;
    assert IdSet(s.cache) == {};
    var u := LockAndMiss(cfg, s, 1);
    t := StartDownload(cfg, u, 2);
    Then(cfg, s, u, t);
    assert t.requests[1].pc.Downloading? && t.requests[2].pc.Downloading?;
  }

  /** The first downloads and the second waits; the download fails; the second goes on, the third begins. */
  lemma ThreeBreakIt(cfg: Config) returns (actions: seq<Action>)
    ensures Allowed(true, actions)
    ensures !SingleFlight(Exec(cfg, Init([Name(0), Name(0), Name(0)], {}), actions))
  {
    hide Exec, SingleFlight, Calm, Allowed;
    var s := Init([Name(0), Name(0), Name(0)], {});
    var t := QueueUp(cfg, [Name(0), Name(0), Name(0)], s);
    var first :| Calm(first) && Exec(cfg, s, first) == t;
    var u := FailAndGiveUp(cfg, t, 0);
    var v := BothDownload(cfg, u);
    var last :| Calm(last) && Exec(cfg, u, last) == v;
    actions := first + ([FetchFails(0), GiveUp(0)] + last);
    ExecConcat(cfg, s, first, [FetchFails(0), GiveUp(0)] + last);
    ExecConcat(cfg, t, [FetchFails(0), GiveUp(0)], last);
    AllAllowed(first, last);
  }

  lemma AllAllowed(first: seq<Action>, last: seq<Action>)
    requires Calm(first) && Calm(last)
    ensures Allowed(true, first + ([FetchFails(0), GiveUp(0)] + last))
  {
    assert forall a | a in first || a in last :: CalmAction(a);
  }

  // ---- exactly when ----

  /** What every run of requests for at most `n` distinct episodes, `m` times each, does even if downloads fail. */
  ghost predicate AlwaysSingleFlightDespiteFailures(cfg: Config, n: nat, m: nat) {
    forall requests, disk, actions | |AsSet(requests)| <= n && AtMost(requests, m) && Allowed(true, actions) ::
      SingleFlight(Exec(cfg, Init(requests, disk), actions))
  }

  /** While all episodes fit, failed downloads do no harm exactly if no episode is asked for three times. */
  lemma SingleFlightDespiteFailuresIff(cfg: Config, n: nat, m: nat)
    requires 1 <= n <= cfg.maxSize && cfg.HashIsInjective()
    ensures AlwaysSingleFlightDespiteFailures(cfg, n, m) <==> m <= 2
  {
    hide Exec, AsSet, SingleFlight;
    if m <= 2 {
      forall requests, disk, actions | |AsSet(requests)| <= n && AtMost(requests, m) && Allowed(true, actions)
        ensures SingleFlight(Exec(cfg, Init(requests, disk), actions))
      {
        AtMostTwoOf(requests, disk);
        OneDownloadPerEpisode(cfg, requests, disk, true, actions);
      }
    } else {
      var actions := ThreeBreakIt(cfg);
      ThreeOfOne();
      assert AtMost([Name(0), Name(0), Name(0)], m);
    }
  }

  lemma ThreeOfOne()
    ensures var requests := [Name(0), Name(0), Name(0)]; |AsSet(requests)| == 1 && AtMost(requests, 3)
  {
    assert AsSet([Name(0), Name(0), Name(0)]) == {Name(0)};
  }
}
