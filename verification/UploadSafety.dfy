/**
 * What holds after every run of the upload protocol: no event before the object, the completed
 * session and the updated row; and the composed object is the uploaded file.
 */
module UploadSafety {
  import opened Options
  import opened ChunkedUpload
  import opened UploadProtocol

  // ---- the order of effects ----

  /** How far the log got, in this order: composed to `path`, session completed, row set to `path`. */
  function Stage(log: seq<Effect>, session: string, episodeId: string, path: string): (n: nat)
    ensures n <= 3
  {
    if log == [] then 0
    else
      var n, e := Stage(log[..|log| - 1], session, episodeId, path), log[|log| - 1];
      if (n == 0 && e.Composed? && e.session == session && e.path == path)
         || (n == 1 && e == SessionCompleted(session))
         || (n == 2 && e == EpisodeSet(episodeId, path))
      then n + 1 else n
  }

  lemma {:induction false} StageMeans(log: seq<Effect>, session: string, episodeId: string,
      path: string) returns (i: int, j: int, k: int)
    ensures var n := Stage(log, session, episodeId, path);
            && (n >= 1 ==> 0 <= i < |log| && log[i].Composed? && log[i].session == session && log[i].path == path)
            && (n >= 2 ==> i < j < |log| && log[j] == SessionCompleted(session))
            && (n >= 3 ==> j < k < |log| && log[k] == EpisodeSet(episodeId, path))
  {
    i, j, k := 0, 0, 0;
    if log != [] {
      var last := |log| - 1;
      var n := Stage(log[..last], session, episodeId, path);
      i, j, k := StageMeans(log[..last], session, episodeId, path);
      if n == 0 { i := last; } else if n == 1 { j := last; } else if n == 2 { k := last; }
    }
  }

  lemma StageAfter(log: seq<Effect>, e: Effect, session: string, episodeId: string, path: string)
    ensures Stage(log + [e], session, episodeId, path) >= Stage(log, session, episodeId, path)
    ensures e.Composed? && e.session == session && e.path == path ==> Stage(log + [e], session, episodeId, path) >= 1
    ensures e == SessionCompleted(session) && Stage(log, session, episodeId, path) >= 1 ==>
        Stage(log + [e], session, episodeId, path) >= 2
    ensures e == EpisodeSet(episodeId, path) && Stage(log, session, episodeId, path) >= 2 ==>
        Stage(log + [e], session, episodeId, path) >= 3
  {
    assert (log + [e])[..|log|] == log;
  }

  /** How far a request's own operations got. */
  function StageOf(pc: Pc): nat {
    match pc
    case MarkSession(_) => 1
    case SetEpisode(_) => 2
    case Publish(_) => 3
    case _ => 0
  }

  function JobOf(pc: Pc): Job
    requires pc.Compose? || StageOf(pc) >= 1
  {
    pc.job
  }

  /** What a complete request read is still what the tables say. */
  ghost predicate ReadsHold(s: System, sid: string, pc: Pc) {
    && (pc.FetchEpisode? ==>
          && sid in s.sessions && s.sessions[sid].total == pc.total && s.sessions[sid].episodeId == pc.episodeId
          && pc.total <= s.sessions[sid].received)
    && (pc.Compose? || StageOf(pc) >= 1 ==>
          var job := JobOf(pc);
          && sid in s.sessions && s.sessions[sid].total == job.total && s.sessions[sid].episodeId == job.episodeId
          && job.total <= s.sessions[sid].received
          && job.episodeId in s.episodes
          && job.path == EpisodePath(job.episodeId, s.episodes[job.episodeId].filename)
          && job.format == s.episodes[job.episodeId].format)
  }

  /** What one complete request relies on. */
  ghost predicate RequestHolds(s: System, sid: string, pc: Pc) {
    && ReadsHold(s, sid, pc)
    && (StageOf(pc) >= 1 ==> Stage(s.log, sid, JobOf(pc).episodeId, JobOf(pc).path) >= StageOf(pc))
  }

  ghost predicate RequestsHold(s: System) {
    forall i | 0 <= i < |s.requests| && s.requests[i].call.Complete? ::
        RequestHolds(s, s.requests[i].call.session, s.requests[i].pc)
  }

  lemma StageKept(s: System, t: System, r: nat, sid: string, eid: string, path: string)
    requires Advances(s, t, r)
    ensures Stage(t.log, sid, eid, path) >= Stage(s.log, sid, eid, path)
  {
    if t.log != s.log {
      var e :| t.log == s.log + [e];
      StageAfter(s.log, e, sid, eid, path);
    }
  }

  /** A request that does not move keeps what it relies on. */
  lemma OthersHold(s: System, t: System, r: nat, sid: string, pc: Pc)
    requires RequestHolds(s, sid, pc) && Advances(s, t, r)
    ensures RequestHolds(t, sid, pc)
  {
    hide Stage;
    if StageOf(pc) >= 1 {
      StageKept(s, t, r, sid, JobOf(pc).episodeId, JobOf(pc).path);
    }
  }

  lemma MoverReads(s: System, r: nat, a: Action)
    requires r < |s.requests| && s.requests[r].call.Complete?
    requires ReadsHold(s, s.requests[r].call.session, s.requests[r].pc)
    ensures ReadsHold(CompleteStep(s, r, a), s.requests[r].call.session, CompleteStep(s, r, a).requests[r].pc)
  {
    hide ChunkKey, EpisodePath, AllStored, Parts, Concat, Advances;
  }

  /** The effect a request has just logged when it reached `pc`. */
  ghost predicate JustDid(e: Effect, sid: string, pc: Pc) {
    match pc
    case MarkSession(job) => e.Composed? && e.session == sid && e.path == job.path
    case SetEpisode(job) => e == SessionCompleted(sid)
    case Publish(job) => e == EpisodeSet(job.episodeId, job.path)
    case _ => false
  }

  lemma WritesLog(s: System, r: nat, a: Action, sid: string, job: Job)
    requires r < |s.requests|
    ensures var t := ComposeObject(s, r, a, sid, job);
            t.requests[r].pc == Rejected
            || (t.requests[r].pc == MarkSession(job) && exists e ::
                t.log == s.log + [e] && JustDid(e, sid, MarkSession(job)))
    ensures sid in s.sessions ==>
              var t := CompleteSession(s, r, a, sid, job);
              t.requests[r].pc == Rejected || (t.requests[r].pc == SetEpisode(job) &&
                  t.log == s.log + [SessionCompleted(sid)])
    ensures job.episodeId in s.episodes ==>
              var t := UpdateEpisode(s, r, a, job);
              t.requests[r].pc == Rejected || (t.requests[r].pc == Publish(job) &&
                  t.log == s.log + [EpisodeSet(job.episodeId, job.path)])
  {
    hide ChunkKey, EpisodePath, AllStored, Parts, Concat, Advances;
    if AllStored(s.objects, sid, job.total) {
      assert JustDid(Composed(sid, job.path, Concat(Parts(s.objects, sid, job.total))), sid, MarkSession(job));
    }
  }

  lemma MoverStage(s: System, r: nat, a: Action)
    requires r < |s.requests| && s.requests[r].call.Complete?
    ensures var t := CompleteStep(s, r, a); var pc, now := s.requests[r].pc, t.requests[r].pc;
            StageOf(now) >= 1 && now != pc ==>
              && StageOf(now) == StageOf(pc) + 1 && (pc.Compose? || StageOf(pc) >= 1) && JobOf(pc) == JobOf(now)
              && exists e :: t.log == s.log + [e] && JustDid(e, s.requests[r].call.session, now)
  {
    hide ChunkKey, EpisodePath, AllStored, Parts, Concat, ComposeObject, CompleteSession, UpdateEpisode;
    var pc := s.requests[r].pc;
    if pc.Compose? || StageOf(pc) >= 1 {
      WritesLog(s, r, a, s.requests[r].call.session, JobOf(pc));
    }
  }

  /** The request that moves relies on no more than it did or has just read or written. */
  lemma MoverHolds(s: System, r: nat, a: Action)
    requires r < |s.requests| && s.requests[r].call.Complete?
    requires RequestHolds(s, s.requests[r].call.session, s.requests[r].pc)
    ensures RequestHolds(CompleteStep(s, r, a), s.requests[r].call.session, CompleteStep(s, r, a).requests[r].pc)
  {
    hide CompleteStep, Stage, ReadsHold;
    var sid, t := s.requests[r].call.session, CompleteStep(s, r, a);
    MoverReads(s, r, a);
    MoverStage(s, r, a);
    var pc := t.requests[r].pc;
    if StageOf(pc) >= 1 {
      var job := JobOf(pc);
      StageKept(s, t, r, sid, job.episodeId, job.path);
      if pc != s.requests[r].pc {
        var e :| t.log == s.log + [e] && JustDid(e, sid, pc);
        StageAfter(s.log, e, sid, job.episodeId, job.path);
      }
    }
  }

  lemma StepKeepsRequests(s: System, a: Action)
    requires RequestsHold(s)
    ensures RequestsHold(Next(s, a))
  {
    hide InitStep, ChunkStep, CompleteStep, RequestHolds;
    var t := Next(s, a);
    forall i | 0 <= i < |t.requests| && t.requests[i].call.Complete?
      ensures RequestHolds(t, t.requests[i].call.session, t.requests[i].pc)
    {
      if i == a.r {
        MoverHolds(s, i, a);
      } else {
        OthersHold(s, t, a.r, t.requests[i].call.session, t.requests[i].pc);
      }
    }
  }

  // ---- what an effect leaves behind ----

  /** A row in status "processing" points to the episode's own path. */
  ghost predicate RowsHold(s: System) {
    forall id | id in s.episodes && s.episodes[id].status == "processing" ::
      s.episodes[id].storagePath == Some(EpisodePath(id, s.episodes[id].filename))
  }

  predicate IsEpisodePath(path: string) {
    |path| > 0 && path[0] == 'e'
  }

  /** Composed objects and ingested rows are never undone. */
  ghost predicate Settles(s: System, t: System) {
    && (forall path | path in s.objects && IsEpisodePath(path) :: path in t.objects)
    && (forall id | id in s.episodes && id in t.episodes && s.episodes[id].status == "processing" ::
          t.episodes[id].status == "processing")
  }

  lemma CompleteSettles(s: System, r: nat, a: Action)
    requires r < |s.requests| && s.requests[r].call.Complete?
    ensures Settles(s, CompleteStep(s, r, a))
  {
    hide EpisodePath, AllStored, Parts, Concat, Advances;
  }

  lemma StepSettles(s: System, a: Action)
    ensures Settles(s, Next(s, a))
  {
    hide CompleteStep, Parts, Concat, TotalChunks, ValidInit, Advances;
    if a.r < |s.requests| && s.requests[a.r].call.Complete? {
      CompleteSettles(s, a.r, a);
    }
  }

  lemma StepKeepsRows(s: System, a: Action)
    requires RequestsHold(s) && RowsHold(s)
    ensures RowsHold(Next(s, a))
  {
    hide ChunkKey, AllStored, Parts, Concat, TotalChunks, ValidInit, Advances, Stage, EpisodePath;
    if a.r < |s.requests| && s.requests[a.r].call.Complete? {
      assert RequestHolds(s, s.requests[a.r].call.session, s.requests[a.r].pc);
    }
  }

  /** What every logged effect still has to show for it. */
  ghost predicate Stands(s: System, e: Effect) {
    match e
    case Composed(sid, path, _) =>
      path in s.objects && IsEpisodePath(path) && sid in s.sessions && s.sessions[sid].total <= s.sessions[sid].received
    case SessionCompleted(sid) => sid in s.sessions && s.sessions[sid].completed
    case EpisodeSet(id, path) =>
      id in s.episodes && s.episodes[id].status == "processing" && path == EpisodePath(id, s.episodes[id].filename)
    case Published(id, _, format) => id in s.episodes && format == s.episodes[id].format
  }

  /** Some session of the event's episode went through all three stages before the event. */
  ghost predicate Justified(s: System, before: seq<Effect>, e: Effect)
    requires e.Published?
  {
    exists sid ::
      sid in s.sessions && s.sessions[sid].episodeId == e.episodeId && Stage(before, sid, e.episodeId, e.path) >= 3
  }

  ghost predicate LogHolds(s: System) {
    forall p | 0 <= p < |s.log| :: Stands(s, s.log[p]) && (s.log[p].Published? ==> Justified(s, s.log[..p], s.log[p]))
  }

  lemma EffectKept(s: System, t: System, r: nat, before: seq<Effect>, e: Effect)
    requires Advances(s, t, r) && Settles(s, t) && Stands(s, e)
    ensures Stands(t, e)
    ensures e.Published? && Justified(s, before, e) ==> Justified(t, before, e)
  {
    hide Stage, EpisodePath;
  }

  lemma NewEffectHolds(s: System, a: Action)
    requires RequestsHold(s)
    ensures var t := Next(s, a);
            t.log != s.log ==> && |t.log| == |s.log| + 1 && t.log[..|s.log|] == s.log && Stands(t, t.log[|s.log|])
                               && (t.log[|s.log|].Published? ==> Justified(t, s.log, t.log[|s.log|]))
  {
    hide ChunkKey, AllStored, Parts, Concat, TotalChunks, ValidInit, Advances, Stage;
    if a.r < |s.requests| && s.requests[a.r].call.Complete? {
      assert RequestHolds(s, s.requests[a.r].call.session, s.requests[a.r].pc);
    }
  }

  lemma StepKeepsLog(s: System, a: Action)
    requires RequestsHold(s) && LogHolds(s)
    ensures LogHolds(Next(s, a))
  {
    hide Next, Stands, Justified, Settles;
    var t := Next(s, a);
    StepSettles(s, a);
    NewEffectHolds(s, a);
    forall p | 0 <= p < |t.log| ensures Stands(t, t.log[p]) && (t.log[p].Published? ==>
        Justified(t, t.log[..p], t.log[p])) {
      if p < |s.log| {
        assert t.log[p] == s.log[p] && t.log[..p] == s.log[..p];
        EffectKept(s, t, a.r, s.log[..p], s.log[p]);
      }
    }
  }

  /** Every episode row is one an init request may announce. */
  ghost predicate RowsValid(s: System) {
    forall id | id in s.episodes ::
      && s.episodes[id].filename != "" && 1 <= s.episodes[id].sizeBytes < 0x8000_0000_0000_0000
      && (s.episodes[id].format == "mcap" || s.episodes[id].format == "hdf5")
  }

  lemma StepKeepsRowsValid(s: System, a: Action)
    requires RowsValid(s)
    ensures RowsValid(Next(s, a))
  {
    hide ChunkKey, AllStored, Parts, Concat, TotalChunks, Advances, ComposeObject, EpisodePath;
  }

  /** Whatever init requests announce, only valid episodes are recorded. */
  lemma {:induction false} RecordedEpisodesAreValid(s: System, actions: seq<Action>)
    requires RowsValid(s)
    ensures RowsValid(Exec(s, actions))
    decreases |actions|
  {
    hide Next, RowsValid;
    if actions != [] {
      StepKeepsRowsValid(s, actions[0]);
      RecordedEpisodesAreValid(Next(s, actions[0]), actions[1..]);
    }
  }

  lemma {:induction false} RunKeeps(s: System, actions: seq<Action>)
    requires RequestsHold(s) && RowsHold(s) && LogHolds(s)
    ensures var t := Exec(s, actions); RequestsHold(t) && RowsHold(t) && LogHolds(t)
    decreases |actions|
  {
    hide Next, RequestsHold, RowsHold, LogHolds;
    if actions != [] {
      StepKeepsRequests(s, actions[0]);
      StepKeepsRows(s, actions[0]);
      StepKeepsLog(s, actions[0]);
      RunKeeps(Next(s, actions[0]), actions[1..]);
    }
  }

  /** At `i`, `j`, `k`, in this order: composed to `path`, session completed, row set to `path`. */
  ghost predicate InOrder(log: seq<Effect>, i: int, j: int, k: int, sid: string, episodeId: string, path: string) {
    && 0 <= i < j < k < |log|
    && log[i].Composed? && log[i].session == sid && log[i].path == path
    && log[j] == SessionCompleted(sid) && log[k] == EpisodeSet(episodeId, path)
  }

  /**
   * Whatever the interleaving and the failures: an event is published only after the object was
   * composed to the event's path, then the session marked completed, then the row set to
   * processing with that same path; at least as many chunk requests were counted as there are
   * chunks; and object, session and row still say so at the end of the run.
   */
  lemma EventImpliesIngested(calls: seq<Call>, actions: seq<Action>, p: nat)
    requires p < |Exec(Initial(calls), actions).log| && Exec(Initial(calls), actions).log[p].Published?
    ensures var s := Exec(Initial(calls), actions); var e := s.log[p];
            && (exists sid, i, j, k ::
                  && InOrder(s.log[..p], i, j, k, sid, e.episodeId, e.path)
                  && sid in s.sessions && s.sessions[sid].episodeId == e.episodeId && s.sessions[sid].completed
                  && s.sessions[sid].total <= s.sessions[sid].received)
            && e.path in s.objects
            && e.episodeId in s.episodes && s.episodes[e.episodeId].status == "processing"
            && s.episodes[e.episodeId].storagePath == Some(e.path) && s.episodes[e.episodeId].format == e.format
  {
    hide Next, Exec, Stage, EpisodePath, RequestsHold;
    var s := Exec(Initial(calls), actions);
    InitialHolds(calls);
    RunKeeps(Initial(calls), actions);
    var e := s.log[p];
    assert Justified(s, s.log[..p], e);
    var sid :|
      sid in s.sessions && s.sessions[sid].episodeId == e.episodeId && Stage(s.log[..p], sid, e.episodeId, e.path) >= 3;
    var i, j, k := StageMeans(s.log[..p], sid, e.episodeId, e.path);
    assert Stands(s, s.log[i]) && Stands(s, s.log[j]) && Stands(s, s.log[k]);
    assert InOrder(s.log[..p], i, j, k, sid, e.episodeId, e.path);
  }

  lemma InitialHolds(calls: seq<Call>)
    ensures RequestsHold(Initial(calls)) && RowsHold(Initial(calls)) && LogHolds(Initial(calls))
  {
  }

  // ---- after completion ----

  ghost predicate TurnedAway(s: System, r: nat) {
    && r < |s.requests| && (s.requests[r].call.Chunk? || s.requests[r].call.Complete?)
    && (s.requests[r].pc.Start? || s.requests[r].pc.Rejected?)
    && s.requests[r].call.session in s.sessions && s.sessions[s.requests[r].call.session].completed
  }

  lemma StepTurnsAway(s: System, a: Action, r: nat)
    requires TurnedAway(s, r)
    ensures TurnedAway(Next(s, a), r)
  {
    hide InitStep, PutChunk, CountChunk, ComposeObject, CompleteSession, UpdateEpisode, PublishEvent, RemoveChunk;
  }

  /** A completed session is closed: a request that comes after is turned away, whatever else happens. */
  lemma CompletedIsClosed(s: System, actions: seq<Action>, r: nat)
    requires r < |s.requests| && (s.requests[r].call.Chunk? || s.requests[r].call.Complete?) && s.requests[r].pc.Start?
    requires s.requests[r].call.session in s.sessions && s.sessions[s.requests[r].call.session].completed
    ensures r < |Exec(s, actions).requests| &&
            (Exec(s, actions).requests[r].pc.Start? || Exec(s, actions).requests[r].pc.Rejected?)
  {
    hide Exec;
    StaysTurnedAway(s, actions, r);
  }

  lemma {:induction false} StaysTurnedAway(s: System, actions: seq<Action>, r: nat)
    requires TurnedAway(s, r)
    ensures TurnedAway(Exec(s, actions), r)
    decreases |actions|
  {
    hide Next, TurnedAway;
    if actions != [] {
      StepTurnsAway(s, actions[0], r);
      StaysTurnedAway(Next(s, actions[0]), actions[1..], r);
    }
  }
}
