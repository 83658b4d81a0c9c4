/**
 * The count test of a complete request: `received_chunks` counts requests whose increment took
 * effect, not chunks stored. Which requests wrote and which were counted is noted along the run,
 * whatever the outcomes; what the test says about the stored chunks follows from these two sets.
 */
module UploadCounting {
  import opened Collections
  import opened ChunkedUpload
  import opened UploadProtocol
  import opened UploadSafety

  predicate Sends(s: System, i: nat, sid: string)
    requires i < |s.requests|
  {
    s.requests[i].call.Chunk? && s.requests[i].call.session == sid && s.requests[i].call.n >= 0
  }

  predicate Completed(s: System, sid: string) {
    sid in s.sessions && s.sessions[sid].completed
  }

  // ---- what a run did ----

  /** The chunk requests whose store, and whose increment, took effect; reporting an error or not. */
  datatype Tally = Tally(written: set<nat>, counted: set<nat>)

  predicate Writes(s: System, a: Action) {
    a.r < |s.requests| && s.requests[a.r].call.Chunk? && s.requests[a.r].call.n >= 0
    && s.requests[a.r].pc.Put? && !a.outcome.Fails?
  }

  predicate Counts(s: System, a: Action) {
    a.r < |s.requests| && s.requests[a.r].call.Chunk? && s.requests[a.r].call.session in s.sessions
    && s.requests[a.r].pc.Increment? && !a.outcome.Fails?
  }

  function Noted(s: System, y: Tally, a: Action): Tally {
    Tally(if Writes(s, a) then y.written + {a.r} else y.written, if Counts(s, a) then y.counted + {a.r} else y.counted)
  }

  function TallyOn(s: System, y: Tally, actions: seq<Action>): Tally
    decreases |actions|
  {
    if actions == [] then y else TallyOn(Next(s, actions[0]), Noted(s, y, actions[0]), actions[1..])
  }

  function TallyOf(calls: seq<Call>, actions: seq<Action>): Tally {
    TallyOn(Initial(calls), Tally({}, {}), actions)
  }

  /** Those of a session. */
  function Of(s: System, of: set<nat>, sid: string): set<nat> {
    set i | i in of && i < |s.requests| && Sends(s, i, sid)
  }

  // ---- the invariant ----

  ghost predicate SendersHold(s: System) {
    forall i | 0 <= i < |s.requests| && s.requests[i].call.Chunk?
               && (s.requests[i].pc.Put? || s.requests[i].pc.Increment? || s.requests[i].pc.Done?) ::
      var c := s.requests[i].call; c.session in s.sessions && 0 <= c.n < s.sessions[c.session].total
  }

  /** Whoever wrote is past its store, whoever was counted past its increment, and the other way if it saw no error. */
  ghost predicate MembersHold(s: System, y: Tally) {
    && y.counted <= y.written
    && (forall i | i in y.written ::
          && i < |s.requests| && s.requests[i].call.Chunk? && s.requests[i].call.session in s.sessions
          && 0 <= s.requests[i].call.n < s.sessions[s.requests[i].call.session].total
          && (s.requests[i].pc.Increment? || s.requests[i].pc.Done? || s.requests[i].pc.Rejected?))
    && (forall i | i in y.counted :: !s.requests[i].pc.Increment?)
    && (forall i: nat | i < |s.requests| && s.requests[i].call.Chunk? ::
          && (s.requests[i].pc.Increment? || s.requests[i].pc.Done? ==> i in y.written)
          && (s.requests[i].pc.Done? ==> i in y.counted))
  }

  ghost predicate WroteChunk(s: System, y: Tally, sid: string, n: nat) {
    exists i :: i in Of(s, y.written, sid) && s.requests[i].call.n == n
  }

  /** Until its session is completed, a chunk is stored exactly if some request for it wrote it. */
  ghost predicate StoredHold(s: System, y: Tally) {
    forall sid, n: nat | !Completed(s, sid) :: ChunkKey(sid, n) in s.objects <==> WroteChunk(s, y, sid, n)
  }

  ghost predicate CountsHold(s: System, y: Tally) {
    forall sid | sid in s.sessions :: s.sessions[sid].received == |Of(s, y.counted, sid)|
  }

  /** Whoever deletes chunks has marked the session completed. */
  ghost predicate DeletersHold(s: System) {
    forall i | 0 <= i < |s.requests| && s.requests[i].call.Complete?
               && (s.requests[i].pc.SetEpisode? || s.requests[i].pc.Publish? || s.requests[i].pc.DeleteChunk?) ::
      Completed(s, s.requests[i].call.session)
  }

  ghost predicate Tallies(s: System, y: Tally) {
    RequestsHold(s) && SendersHold(s) && DeletersHold(s) && MembersHold(s, y) && StoredHold(s, y) && CountsHold(s, y)
  }

  // ---- one step ----

  lemma StepKeepsSenders(s: System, a: Action)
    requires SendersHold(s)
    ensures SendersHold(Next(s, a))
  {
    hide ChunkKey, EpisodePath, AllStored, Parts, Concat, TotalChunks, ValidInit;
  }

  lemma ComposeIsNoMark(s: System, r: nat, a: Action, sid: string, job: Job)
    requires r < |s.requests|
    ensures var pc := ComposeObject(s, r, a, sid, job).requests[r].pc; pc.MarkSession? || pc.Rejected?
  {
    hide AllStored, Parts, Concat, Advances;
  }

  lemma DeleterMarked(s: System, r: nat, a: Action)
    requires DeletersHold(s) && r < |s.requests| && s.requests[r].call.Complete?
    ensures var t := CompleteStep(s, r, a); var pc := t.requests[r].pc;
            pc.SetEpisode? || pc.Publish? || pc.DeleteChunk? ==> Completed(t, s.requests[r].call.session)
  {
    hide ChunkKey, EpisodePath, AllStored, Parts, Concat, Advances, ComposeObject;
    if s.requests[r].pc.Compose? {
      ComposeIsNoMark(s, r, a, s.requests[r].call.session, s.requests[r].pc.job);
    }
  }

  lemma StepKeepsDeleters(s: System, a: Action)
    requires DeletersHold(s)
    ensures DeletersHold(Next(s, a))
  {
    hide InitStep, ChunkStep, CompleteStep;
    if a.r < |s.requests| && s.requests[a.r].call.Complete? {
      DeleterMarked(s, a.r, a);
    }
  }

  lemma StepKeepsMembers(s: System, y: Tally, a: Action)
    requires SendersHold(s) && MembersHold(s, y)
    ensures MembersHold(Next(s, a), Noted(s, y, a))
  {
    hide ChunkKey, InitStep, CompleteStep;
  }

  // ---- what is stored ----

  /** The chunks of the sessions not completed are as they were. */
  ghost predicate LeavesChunks(s: System, t: System) {
    forall sid, n: nat | !Completed(t, sid) ::
      !Completed(s, sid) && (ChunkKey(sid, n) in t.objects <==> ChunkKey(sid, n) in s.objects)
  }

  lemma ComposeLeavesChunk(s: System, r: nat, a: Action, session: string, job: Job, sid: string, n: nat)
    requires r < |s.requests| && job.episodeId in s.episodes
    requires job.path == EpisodePath(job.episodeId, s.episodes[job.episodeId].filename)
    ensures ChunkKey(sid, n) in ComposeObject(s, r, a, session, job).objects <==> ChunkKey(sid, n) in s.objects
  {
    hide AllStored, Parts, Concat, ChunkKey, EpisodePath, Advances;
    ChunkKeyIsNoPath(sid, n, job.episodeId, s.episodes[job.episodeId].filename);
  }

  lemma RemoveLeavesChunk(s: System, r: nat, a: Action, session: string, total: nat, i: nat, sid: string, n: nat)
    requires r < |s.requests| && sid != session
    ensures ChunkKey(sid, n) in RemoveChunk(s, r, a, session, total, i).objects <==> ChunkKey(sid, n) in s.objects
  {
    hide ChunkKey, Advances;
    if ChunkKey(sid, n) == ChunkKey(session, i) {
      ChunkKeysInjective(sid, n, session, i);
    }
  }

  lemma CompleteLeavesChunk(s: System, r: nat, a: Action, sid: string, n: nat)
    requires RequestsHold(s) && DeletersHold(s) && r < |s.requests| && s.requests[r].call.Complete?
    requires !Completed(s, sid)
    ensures ChunkKey(sid, n) in CompleteStep(s, r, a).objects <==> ChunkKey(sid, n) in s.objects
  {
    hide ComposeObject, RemoveChunk, Stage, ChunkKey, EpisodePath, Advances;
    var session, pc := s.requests[r].call.session, s.requests[r].pc;
    if pc.Compose? {
      assert RequestHolds(s, session, pc);
      ComposeLeavesChunk(s, r, a, session, pc.job, sid, n);
    } else if pc.DeleteChunk? {
      RemoveLeavesChunk(s, r, a, session, pc.total, pc.i, sid, n);
    }
  }

  lemma CompleteLeavesChunks(s: System, r: nat, a: Action)
    requires RequestsHold(s) && DeletersHold(s) && r < |s.requests| && s.requests[r].call.Complete?
    ensures LeavesChunks(s, CompleteStep(s, r, a))
  {
    hide CompleteStep, RequestsHold, DeletersHold, ChunkKey;
    var t := CompleteStep(s, r, a);
    forall sid, n: nat | !Completed(t, sid)
      ensures !Completed(s, sid) && (ChunkKey(sid, n) in t.objects <==> ChunkKey(sid, n) in s.objects)
    {
      assert Advances(s, t, r);
      CompleteLeavesChunk(s, r, a, sid, n);
    }
  }

  lemma OfKept(s: System, t: System, r: nat, of: set<nat>, sid: string)
    requires Advances(s, t, r)
    ensures Of(t, of, sid) == Of(s, of, sid)
  {
  }

  lemma StoredKept(s: System, t: System, r: nat, y: Tally)
    requires StoredHold(s, y) && LeavesChunks(s, t) && Advances(s, t, r)
    ensures StoredHold(t, y)
  {
    hide ChunkKey, Of;
    forall sid, n: nat | !Completed(t, sid) ensures ChunkKey(sid, n) in t.objects <==> WroteChunk(t, y, sid, n) {
      OfKept(s, t, r, y.written, sid);
      SameWriters(s, t, r, y, sid, n);
    }
  }

  lemma SameWriters(s: System, t: System, r: nat, y: Tally, sid: string, n: nat)
    requires Advances(s, t, r)
    ensures WroteChunk(t, y, sid, n) <==> WroteChunk(s, y, sid, n)
  {
    OfKept(s, t, r, y.written, sid);
  }

  /** Storing a chunk adds its key, and makes its request one that wrote it. */
  lemma PutStores(s: System, y: Tally, a: Action)
    requires StoredHold(s, y) && Writes(s, a)
    ensures StoredHold(Next(s, a), Noted(s, y, a))
  {
    hide ChunkKey, InitStep, CompleteStep;
    var c, t, z := s.requests[a.r].call, Next(s, a), Noted(s, y, a);
    forall sid, n: nat | !Completed(t, sid) ensures ChunkKey(sid, n) in t.objects <==> WroteChunk(t, z, sid, n) {
      SameWriters(s, t, a.r, y, sid, n);
      OneMoreWriter(t, y, a.r, sid, n);
      if ChunkKey(sid, n) == ChunkKey(c.session, c.n) {
        ChunkKeysInjective(sid, n, c.session, c.n);
      }
    }
  }

  lemma OneMoreWriter(s: System, y: Tally, r: nat, sid: string, n: nat)
    requires r < |s.requests| && s.requests[r].call.Chunk? && s.requests[r].call.n >= 0
    ensures WroteChunk(s, y.(written := y.written + {r}), sid, n) <==>
            WroteChunk(s, y, sid, n) || (s.requests[r].call.session == sid && s.requests[r].call.n == n)
  {
    var z := y.(written := y.written + {r});
    if WroteChunk(s, y, sid, n) {
      var i :| i in Of(s, y.written, sid) && s.requests[i].call.n == n;
      assert i in Of(s, z.written, sid);
    }
    if s.requests[r].call.session == sid && s.requests[r].call.n == n {
      assert r in Of(s, z.written, sid);
    }
  }

  lemma StepLeavesChunks(s: System, a: Action)
    requires RequestsHold(s) && DeletersHold(s) && !Writes(s, a)
    ensures LeavesChunks(s, Next(s, a))
  {
    hide CompleteStep, RequestsHold, DeletersHold, TotalChunks, ValidInit, ChunkKey;
    if a.r < |s.requests| && s.requests[a.r].call.Complete? {
      CompleteLeavesChunks(s, a.r, a);
    } else {
      var t := Next(s, a);
      assert t.objects == s.objects;
      assert forall sid | !Completed(t, sid) :: !Completed(s, sid);
    }
  }

  lemma StepKeepsStored(s: System, y: Tally, a: Action)
    requires RequestsHold(s) && DeletersHold(s) && StoredHold(s, y)
    ensures StoredHold(Next(s, a), Noted(s, y, a))
  {
    hide Next, RequestsHold, DeletersHold, LeavesChunks, Writes;
    if Writes(s, a) {
      PutStores(s, y, a);
    } else {
      StepLeavesChunks(s, a);
      StoredKept(s, Next(s, a), a.r, y);
      CountedIsNoMatter(Next(s, a), y, Noted(s, y, a).counted);
    }
  }

  lemma CountedIsNoMatter(s: System, y: Tally, counted: set<nat>)
    requires StoredHold(s, y)
    ensures StoredHold(s, y.(counted := counted))
  {
    hide ChunkKey;
    assert forall sid, n: nat :: WroteChunk(s, y.(counted := counted), sid, n) <==> WroteChunk(s, y, sid, n);
  }

  // ---- what is counted ----

  /** No counter moves; new sessions start at zero. */
  ghost predicate LeavesCounts(s: System, t: System) {
    forall sid | sid in t.sessions ::
      t.sessions[sid].received == if sid in s.sessions then s.sessions[sid].received else 0
  }

  lemma CompleteLeavesCounts(s: System, r: nat, a: Action)
    requires r < |s.requests| && s.requests[r].call.Complete?
    ensures LeavesCounts(s, CompleteStep(s, r, a))
  {
    hide ChunkKey, EpisodePath, AllStored, Parts, Concat, Advances;
  }

  lemma StepLeavesCounts(s: System, a: Action)
    requires !Counts(s, a)
    ensures LeavesCounts(s, Next(s, a))
  {
    hide CompleteStep, TotalChunks, ValidInit, ChunkKey, Advances;
    if a.r < |s.requests| && s.requests[a.r].call.Complete? {
      CompleteLeavesCounts(s, a.r, a);
    }
  }

  lemma CountsKept(s: System, t: System, r: nat, y: Tally)
    requires CountsHold(s, y) && MembersHold(s, y) && LeavesCounts(s, t) && Advances(s, t, r)
    ensures forall sid | sid in t.sessions :: t.sessions[sid].received == |Of(t, y.counted, sid)|
  {
    forall sid | sid in t.sessions ensures t.sessions[sid].received == |Of(t, y.counted, sid)| {
      OfKept(s, t, r, y.counted, sid);
      if sid !in s.sessions {
        assert Of(s, y.counted, sid) == {};
      }
    }
  }

  lemma OneMoreCounted(s: System, of: set<nat>, r: nat, sid: string)
    requires r < |s.requests| && s.requests[r].call.Chunk? && s.requests[r].call.n >= 0 && r !in of
    ensures |Of(s, of + {r}, sid)| == |Of(s, of, sid)| + if s.requests[r].call.session == sid then 1 else 0
  {
    if s.requests[r].call.session == sid {
      assert Of(s, of + {r}, sid) == Of(s, of, sid) + {r};
    } else {
      assert Of(s, of + {r}, sid) == Of(s, of, sid);
    }
  }

  lemma CountingAddsOne(s: System, y: Tally, a: Action)
    requires CountsHold(s, y) && MembersHold(s, y) && SendersHold(s) && Counts(s, a)
    ensures CountsHold(Next(s, a), Noted(s, y, a))
  {
    hide Of, InitStep, CompleteStep;
    var t := Next(s, a);
    assert t.sessions == OneMoreReceived(s.sessions, s.requests[a.r].call.session);
    forall sid | sid in t.sessions ensures t.sessions[sid].received == |Of(t, y.counted + {a.r}, sid)| {
      OfKept(s, t, a.r, y.counted, sid);
      OneMoreCounted(t, y.counted, a.r, sid);
    }
  }

  lemma StepKeepsCounts(s: System, y: Tally, a: Action)
    requires CountsHold(s, y) && MembersHold(s, y) && SendersHold(s)
    ensures CountsHold(Next(s, a), Noted(s, y, a))
  {
    hide Next, MembersHold, SendersHold, Counts, LeavesCounts, Of;
    if Counts(s, a) {
      CountingAddsOne(s, y, a);
    } else {
      StepLeavesCounts(s, a);
      CountsKept(s, Next(s, a), a.r, y);
    }
  }

  // ---- runs ----

  lemma {:induction false} RunTallies(s: System, y: Tally, actions: seq<Action>)
    requires Tallies(s, y)
    ensures Tallies(Exec(s, actions), TallyOn(s, y, actions))
    decreases |actions|
  {
    hide Next, Noted, RequestsHold, SendersHold, DeletersHold, MembersHold, StoredHold, CountsHold;
    if actions != [] {
      var a := actions[0];
      StepKeepsRequests(s, a);
      StepKeepsSenders(s, a);
      StepKeepsDeleters(s, a);
      StepKeepsMembers(s, y, a);
      StepKeepsStored(s, y, a);
      StepKeepsCounts(s, y, a);
      RunTallies(Next(s, a), Noted(s, y, a), actions[1..]);
    }
  }

  lemma EveryRunTallies(calls: seq<Call>, actions: seq<Action>)
    ensures Tallies(Exec(Initial(calls), actions), TallyOf(calls, actions))
  {
    hide Exec, TallyOn, ChunkKey;
    RunTallies(Initial(calls), Tally({}, {}), actions);
  }

  // ---- what the count says ----

  function Numbers(s: System, of: set<nat>): set<nat>
    requires forall i | i in of :: i < |s.requests| && s.requests[i].call.Chunk? && s.requests[i].call.n >= 0
  {
    set i | i in of :: s.requests[i].call.n
  }

  ghost predicate NoIndexTwice(s: System, of: set<nat>)
    requires forall i | i in of :: i < |s.requests| && s.requests[i].call.Chunk?
  {
    forall i, j | i in of && j in of && s.requests[i].call.n == s.requests[j].call.n :: i == j
  }

  /** There are as many numbers as requests exactly if no number repeats. */
  lemma {:induction false} AsManyNumbersIff(s: System, of: set<nat>)
    requires forall i | i in of :: i < |s.requests| && s.requests[i].call.Chunk? && s.requests[i].call.n >= 0
    ensures |Numbers(s, of)| <= |of|
    ensures |Numbers(s, of)| == |of| <==> NoIndexTwice(s, of)
    decreases |of|
  {
    if of != {} {
      var i :| i in of;
      var rest := of - {i};
      AsManyNumbersIff(s, rest);
      var n := s.requests[i].call.n;
      if n in Numbers(s, rest) {
        assert Numbers(s, of) == Numbers(s, rest);
        var j :| j in rest && s.requests[j].call.n == n;
        assert !NoIndexTwice(s, of);
      } else {
        assert Numbers(s, of) == Numbers(s, rest) + {n};
        assert NoIndexTwice(s, rest) <==> NoIndexTwice(s, of);
      }
    }
  }

  function UpTo(total: nat): (numbers: set<nat>)
    ensures |numbers| == total && forall n: nat :: n in numbers <==> n < total
  {
    if total == 0 then {} else UpTo(total - 1) + {total - 1}
  }

  /** A set of numbers below `total` has `total` of them only if it is all of them. */
  lemma FullIff(numbers: set<nat>, total: nat)
    requires forall n | n in numbers :: n < total
    ensures |numbers| == total <==> numbers == UpTo(total)
  {
    if |numbers| == total {
      SubsetCount(numbers, UpTo(total));
    }
  }

  /** What the counter and the stored chunks of a session not completed are, in terms of the two sets. */
  lemma TallyMeans(s: System, y: Tally, sid: string)
    requires Tallies(s, y) && sid in s.sessions && !s.sessions[sid].completed
    ensures var written, counted, total := Of(s, y.written, sid), Of(s, y.counted, sid), s.sessions[sid].total;
            && counted <= written && s.sessions[sid].received == |counted|
            && Numbers(s, counted) <= Numbers(s, written) <= UpTo(total)
            && (AllStored(s.objects, sid, total) <==> Numbers(s, written) == UpTo(total))
  {
    hide ChunkKey, RequestsHold, SendersHold, DeletersHold;
    var numbers, total := Numbers(s, Of(s, y.written, sid)), s.sessions[sid].total;
    forall n: nat ensures n in numbers <==> ChunkKey(sid, n) in s.objects {
      assert WroteChunk(s, y, sid, n) <==> n in numbers;
    }
    assert numbers == UpTo(total) <==> forall n: nat | n < total :: n in numbers;
  }

  /**
   * In every run, whatever fails or takes effect and reports an error: a session not completed
   * passes the count test exactly if as many requests were counted as there are chunks, and is
   * completely stored exactly if as many different indices were written.
   */
  lemma CountAndStoreIff(calls: seq<Call>, actions: seq<Action>, sid: string)
    ensures var s, y := Exec(Initial(calls), actions), TallyOf(calls, actions);
            sid in s.sessions && !s.sessions[sid].completed ==>
              var written, counted, total := Of(s, y.written, sid), Of(s, y.counted, sid), s.sessions[sid].total;
              && counted <= written
              && (CountTest(s, sid) <==> |counted| == total)
              && (AllStored(s.objects, sid, total) <==> |Numbers(s, written)| == total)
  {
    hide Exec, TallyOn, AllStored;
    var s, y := Exec(Initial(calls), actions), TallyOf(calls, actions);
    EveryRunTallies(calls, actions);
    if sid in s.sessions && !s.sessions[sid].completed {
      TallyMeans(s, y, sid);
      FullIff(Numbers(s, Of(s, y.written, sid)), s.sessions[sid].total);
    }
  }

  /**
   * What a passed count test means, in every run. Every chunk is stored if and only if as many
   * different indices were written as requests counted. No index counted twice is enough for that;
   * and it is exactly that if every index written was counted.
   */
  lemma PassedTestMeansStoredIff(calls: seq<Call>, actions: seq<Action>, sid: string)
    ensures var s, y := Exec(Initial(calls), actions), TallyOf(calls, actions);
            CountTest(s, sid) ==>
              var written, counted := Of(s, y.written, sid), Of(s, y.counted, sid);
              var stored := AllStored(s.objects, sid, s.sessions[sid].total);
              && (stored <==> |Numbers(s, written)| == |counted|)
              && (NoIndexTwice(s, counted) ==> stored)
              && (Numbers(s, counted) == Numbers(s, written) ==> (stored <==> NoIndexTwice(s, counted)))
  {
    hide Exec, TallyOn, AllStored;
    var s, y := Exec(Initial(calls), actions), TallyOf(calls, actions);
    EveryRunTallies(calls, actions);
    CountAndStoreIff(calls, actions, sid);
    if CountTest(s, sid) {
      TallyMeans(s, y, sid);
      AsManyNumbersIff(s, Of(s, y.counted, sid));
      SubsetCount(Numbers(s, Of(s, y.counted, sid)), Numbers(s, Of(s, y.written, sid)));
      SubsetCount(Numbers(s, Of(s, y.written, sid)), UpTo(s.sessions[sid].total));
    }
  }

  /**
   * The other way round: once every chunk is stored, the test passes if and only if as many requests
   * were counted as different indices written; if every one of these was counted, that is exactly if
   * no index was counted twice.
   */
  lemma CountTestAfterAllStoredIff(calls: seq<Call>, actions: seq<Action>, sid: string)
    ensures var s, y := Exec(Initial(calls), actions), TallyOf(calls, actions);
            sid in s.sessions && !s.sessions[sid].completed && AllStored(s.objects, sid, s.sessions[sid].total) ==>
              var written, counted := Of(s, y.written, sid), Of(s, y.counted, sid);
              && (CountTest(s, sid) <==> |counted| == |Numbers(s, written)|)
              && (Numbers(s, counted) == Numbers(s, written) ==> (CountTest(s, sid) <==> NoIndexTwice(s, counted)))
  {
    hide Exec, TallyOn, AllStored;
    var s, y := Exec(Initial(calls), actions), TallyOf(calls, actions);
    EveryRunTallies(calls, actions);
    CountAndStoreIff(calls, actions, sid);
    if sid in s.sessions && !s.sessions[sid].completed {
      TallyMeans(s, y, sid);
      AsManyNumbersIff(s, Of(s, y.counted, sid));
    }
  }

  // ---- each index sent at most once ----

  ghost predicate SentOnce(calls: seq<Call>, sid: string) {
    forall i, j | 0 <= i < |calls| && 0 <= j < |calls| && calls[i].Chunk? && calls[j].Chunk?
                  && calls[i].session == sid == calls[j].session && calls[i].n == calls[j].n :: i == j
  }

  lemma {:induction false} RunKeepsCalls(s: System, actions: seq<Action>)
    ensures var t := Exec(s, actions);
            |t.requests| == |s.requests| && forall i | 0 <= i < |s.requests| :: t.requests[i].call == s.requests[i].call
    decreases |actions|
  {
    hide Next;
    if actions != [] {
      RunKeepsCalls(Next(s, actions[0]), actions[1..]);
    }
  }

  lemma SentOnceCountsOnce(s: System, calls: seq<Call>, of: set<nat>, sid: string)
    requires SentOnce(calls, sid)
    requires |s.requests| == |calls| && forall i | 0 <= i < |calls| :: s.requests[i].call == calls[i]
    ensures NoIndexTwice(s, Of(s, of, sid))
  {
  }

  /**
   * If each index of a session is sent at most once, whatever fails: the count test passes exactly
   * when every chunk is stored and every store was counted.
   */
  lemma SentOnceTestIff(calls: seq<Call>, actions: seq<Action>, sid: string)
    requires SentOnce(calls, sid)
    ensures var s, y := Exec(Initial(calls), actions), TallyOf(calls, actions);
            sid in s.sessions && !s.sessions[sid].completed ==>
              (CountTest(s, sid) <==>
                 AllStored(s.objects, sid, s.sessions[sid].total) && Of(s, y.written, sid) == Of(s, y.counted, sid))
  {
    hide Exec, TallyOn, AllStored, NoIndexTwice;
    var s, y := Exec(Initial(calls), actions), TallyOf(calls, actions);
    EveryRunTallies(calls, actions);
    CountAndStoreIff(calls, actions, sid);
    RunKeepsCalls(Initial(calls), actions);
    if sid in s.sessions && !s.sessions[sid].completed {
      var written, counted := Of(s, y.written, sid), Of(s, y.counted, sid);
      TallyMeans(s, y, sid);
      SentOnceCountsOnce(s, calls, y.written, sid);
      SentOnceCountsOnce(s, calls, y.counted, sid);
      AsManyNumbersIff(s, written);
      AsManyNumbersIff(s, counted);
      SubsetCount(Numbers(s, written), UpTo(s.sessions[sid].total));
      SubsetCount(counted, written);
    }
  }

  // ---- and no store or increment fails ----

  ghost predicate WritesSucceed(s: System, actions: seq<Action>)
    decreases |actions|
  {
    actions != [] ==> WriteSucceeds(s, actions[0]) && WritesSucceed(Next(s, actions[0]), actions[1..])
  }

  predicate WriteSucceeds(s: System, a: Action) {
    a.r < |s.requests| && s.requests[a.r].call.Chunk? && (s.requests[a.r].pc.Put? || s.requests[a.r].pc.Increment?) ==>
      a.outcome.Ok?
  }

  ghost predicate NoWriterRejected(s: System, y: Tally) {
    forall i | i in y.written :: i < |s.requests| && (s.requests[i].pc.Increment? || s.requests[i].pc.Done?)
  }

  lemma StepRejectsNoWriter(s: System, y: Tally, a: Action)
    requires MembersHold(s, y) && NoWriterRejected(s, y) && WriteSucceeds(s, a)
    ensures NoWriterRejected(Next(s, a), Noted(s, y, a))
  {
    hide ChunkKey, InitStep, CompleteStep;
  }

  lemma {:induction false} RunRejectsNoWriter(s: System, y: Tally, actions: seq<Action>)
    requires SendersHold(s) && MembersHold(s, y) && NoWriterRejected(s, y) && WritesSucceed(s, actions)
    ensures NoWriterRejected(Exec(s, actions), TallyOn(s, y, actions))
    decreases |actions|
  {
    hide Next, Noted, SendersHold, MembersHold, NoWriterRejected, WriteSucceeds;
    if actions != [] {
      StepKeepsSenders(s, actions[0]);
      StepKeepsMembers(s, y, actions[0]);
      StepRejectsNoWriter(s, y, actions[0]);
      RunRejectsNoWriter(Next(s, actions[0]), Noted(s, y, actions[0]), actions[1..]);
    }
  }

  /** Some request stored a chunk of the session but has not counted it yet. */
  predicate Uncounted(s: System, sid: string) {
    exists i: nat :: i < |s.requests| && Sends(s, i, sid) && s.requests[i].pc.Increment?
  }

  lemma AllCountedIff(s: System, y: Tally, sid: string)
    requires MembersHold(s, y) && NoWriterRejected(s, y)
    ensures Of(s, y.written, sid) == Of(s, y.counted, sid) <==> !Uncounted(s, sid)
  {
    if Uncounted(s, sid) {
      var i: nat :| i < |s.requests| && Sends(s, i, sid) && s.requests[i].pc.Increment?;
      assert i in Of(s, y.written, sid) && i !in Of(s, y.counted, sid);
    }
  }

  /**
   * If moreover no store or increment fails, the test of a session not completed passes exactly when
   * every chunk is stored and no request is between its store and its increment.
   */
  lemma CountTestIff(calls: seq<Call>, actions: seq<Action>, sid: string)
    requires WritesSucceed(Initial(calls), actions) && SentOnce(calls, sid)
    ensures var s := Exec(Initial(calls), actions);
            sid in s.sessions && !s.sessions[sid].completed
            ==> (CountTest(s, sid) <==> AllStored(s.objects, sid, s.sessions[sid].total) && !Uncounted(s, sid))
  {
    hide Exec, TallyOn, Of, AllStored, WritesSucceed, NoWriterRejected, Uncounted;
    EveryRunTallies(calls, actions);
    SentOnceTestIff(calls, actions, sid);
    NobodyYet(calls);
    RunRejectsNoWriter(Initial(calls), Tally({}, {}), actions);
    AllCountedIff(Exec(Initial(calls), actions), TallyOf(calls, actions), sid);
  }

  lemma NobodyYet(calls: seq<Call>)
    ensures var s, y := Initial(calls), Tally({}, {}); SendersHold(s) && MembersHold(s, y) && NoWriterRejected(s, y)
  {
  }
}
