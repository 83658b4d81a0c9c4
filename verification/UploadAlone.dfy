/**
 * One upload that nobody interrupts and in which nothing fails but possibly the event: what its
 * requests leave behind, row by row and object by object.
 */
module UploadAlone {
  import opened Bytes
  import opened Options
  import opened ChunkedUpload
  import opened UploadProtocol

  /** `n` steps of request `r`, each reporting success. */
  function Steps(r: nat, n: nat): seq<Action>
    ensures |Steps(r, n)| == n
  {
    if n == 0 then [] else [Step(r, Ok, "")] + Steps(r, n - 1)
  }

  lemma {:induction false} ExecConcat(s: System, a: seq<Action>, b: seq<Action>)
    ensures Exec(s, a + b) == Exec(Exec(s, a), b)
    decreases |a|
  {
    hide Next;
    if a == [] {
      assert a + b == b;
    } else {
      assert (a + b)[1..] == a[1..] + b;
      ExecConcat(Next(s, a[0]), a[1..], b);
    }
  }

  lemma ExecOne(s: System, a: Action)
    ensures Exec(s, [a]) == Next(s, a)
  {
    hide Next;
    assert [a][1..] == [];
  }

  // ---- the chunks go ----

  function KeysFrom(sid: string, i: nat, total: nat): set<string> {
    set k | i <= k < total :: ChunkKey(sid, k)
  }

  lemma {:induction false} DeletesAll(s: System, r: nat, total: nat, i: nat)
    requires r < |s.requests| && s.requests[r].call.Complete? && s.requests[r].pc == DeleteChunk(total, i) && i <= total
    ensures Exec(s, Steps(r, total - i + 1)) ==
            Goto(s.(objects := s.objects - KeysFrom(s.requests[r].call.session, i, total)), r, Done)
    decreases total - i
  {
    hide ChunkKey, Advances;
    var sid, a := s.requests[r].call.session, Step(r, Ok, "");
    var t := Next(s, a);
    assert Steps(r, total - i + 1)[1..] == Steps(r, total - i);
    if i < total {
      DeletesAll(t, r, total, i + 1);
      assert KeysFrom(sid, i, total) == {ChunkKey(sid, i)} + KeysFrom(sid, i + 1, total);
      assert t.objects - KeysFrom(sid, i + 1, total) == s.objects - KeysFrom(sid, i, total);
    } else {
      assert KeysFrom(sid, i, total) == {};
      assert s.objects - {} == s.objects;
    }
  }

  // ---- complete ----

  /** The three writes of a complete request: object, session, row. */
  function WithObject(s: System, sid: string, job: Job): System
    requires AllStored(s.objects, sid, job.total)
  {
    var data := Concat(Parts(s.objects, sid, job.total));
    s.(objects := s.objects[job.path := data], log := s.log + [Composed(sid, job.path, data)])
  }

  function WithSession(s: System, sid: string): System
    requires sid in s.sessions
  {
    s.(sessions := s.sessions[sid := s.sessions[sid].(completed := true)], log := s.log + [SessionCompleted(sid)])
  }

  function WithRow(s: System, job: Job): System
    requires job.episodeId in s.episodes
  {
    s.(episodes :=
         s.episodes[job.episodeId := s.episodes[job.episodeId].(status := "processing", storagePath := Some(job.path))],
       log := s.log + [EpisodeSet(job.episodeId, job.path)])
  }

  function Written(s: System, sid: string, job: Job): System
    requires sid in s.sessions && job.episodeId in s.episodes && AllStored(s.objects, sid, job.total)
  {
    WithRow(WithSession(WithObject(s, sid, job), sid), job)
  }

  /** The event, if it goes out, and the chunks removed. */
  function Announced(s: System, sid: string, job: Job, publish: Outcome): System {
    s.(objects := s.objects - Keys(sid, job.total),
       log := s.log + if publish.Fails? then [] else [Published(job.episodeId, job.path, job.format)])
  }

  function CompleteRun(r: nat, total: nat, publish: Outcome): seq<Action> {
    Steps(r, 2) + (Steps(r, 3) + ([Step(r, publish, "")] + Steps(r, total + 1)))
  }

  lemma ExecStep(s: System, r: nat, n: nat)
    ensures Exec(s, Steps(r, n + 1)) == Exec(Next(s, Step(r, Ok, "")), Steps(r, n))
  {
    hide Next;
    assert Steps(r, n + 1)[1..] == Steps(r, n);
  }

  lemma Reads(s: System, r: nat)
    requires r < |s.requests| && s.requests[r].call.Complete? && s.requests[r].pc.Start?
    requires CountTest(s, s.requests[r].call.session) && s.sessions[s.requests[r].call.session].episodeId in s.episodes
    ensures var row := s.sessions[s.requests[r].call.session];
            Exec(s, Steps(r, 2)) == Goto(s, r, Compose(JobFor(s, row.total, row.episodeId)))
  {
    hide JobFor, Advances, ComposeObject, CompleteSession, UpdateEpisode, PublishEvent, RemoveChunk;
    var row := s.sessions[s.requests[r].call.session];
    ExecStep(s, r, 1);
    var t := Next(s, Step(r, Ok, ""));
    ExecStep(t, r, 0);
    SameJob(s, t, row.total, row.episodeId);
  }

  lemma SameJob(s: System, t: System, total: nat, episodeId: string)
    requires t.episodes == s.episodes && episodeId in s.episodes
    ensures JobFor(t, total, episodeId) == JobFor(s, total, episodeId)
  {
  }

  lemma ObjectStep(s: System, r: nat, sid: string, job: Job)
    requires r < |s.requests| && s.requests[r].call == Complete(sid) && s.requests[r].pc == Compose(job) &&
        AllStored(s.objects, sid, job.total)
    ensures Next(s, Step(r, Ok, "")) == Goto(WithObject(s, sid, job), r, MarkSession(job))
  {
    hide AllStored, Concat, Parts, Advances, CompleteSession, UpdateEpisode, PublishEvent, RemoveChunk;
  }

  lemma SessionStep(s: System, r: nat, sid: string, job: Job)
    requires r < |s.requests| && s.requests[r].call == Complete(sid) && s.requests[r].pc == MarkSession(job) &&
        sid in s.sessions
    ensures Next(s, Step(r, Ok, "")) == Goto(WithSession(s, sid), r, SetEpisode(job))
  {
    hide Advances, ComposeObject, UpdateEpisode, PublishEvent, RemoveChunk;
  }

  lemma RowStep(s: System, r: nat, job: Job)
    requires r < |s.requests| && s.requests[r].call.Complete? && s.requests[r].pc == SetEpisode(job) &&
        job.episodeId in s.episodes
    ensures Next(s, Step(r, Ok, "")) == Goto(WithRow(s, job), r, Publish(job))
  {
    hide Advances, ComposeObject, CompleteSession, PublishEvent, RemoveChunk;
  }

  /** Where the request stands does not matter to what a write does. */
  lemma WritesElsewhere(s: System, r: nat, sid: string, job: Job, pc: Pc, next: Pc)
    requires r < |s.requests|
    ensures sid in s.sessions ==> Goto(WithSession(Goto(s, r, pc), sid), r, next) == Goto(WithSession(s, sid), r, next)
    ensures job.episodeId in s.episodes ==>
              Goto(WithRow(Goto(s, r, pc), job), r, next) == Goto(WithRow(s, job), r, next)
  {
    hide Advances;
  }

  lemma Writes(s: System, r: nat, job: Job)
    requires r < |s.requests| && s.requests[r].call.Complete? && s.requests[r].pc == Compose(job)
    requires s.requests[r].call.session in s.sessions && job.episodeId in s.episodes
    requires AllStored(s.objects, s.requests[r].call.session, job.total)
    ensures Exec(s, Steps(r, 3)) == Goto(Written(s, s.requests[r].call.session, job), r, Publish(job))
  {
    hide Next, AllStored, Concat, Parts, Advances;
    var sid := s.requests[r].call.session;
    ObjectStep(s, r, sid, job);
    var t := WithObject(s, sid, job);
    ExecStep(s, r, 2);
    SessionStep(Goto(t, r, MarkSession(job)), r, sid, job);
    WritesElsewhere(t, r, sid, job, MarkSession(job), SetEpisode(job));
    var u := WithSession(t, sid);
    ExecStep(Goto(t, r, MarkSession(job)), r, 1);
    RowStep(Goto(u, r, SetEpisode(job)), r, job);
    WritesElsewhere(u, r, sid, job, SetEpisode(job), Publish(job));
    ExecStep(Goto(u, r, SetEpisode(job)), r, 0);
  }

  function Logged(s: System, job: Job, publish: Outcome): System {
    s.(log := s.log + if publish.Fails? then [] else [Published(job.episodeId, job.path, job.format)])
  }

  lemma PublishStep(s: System, r: nat, job: Job, publish: Outcome)
    requires r < |s.requests| && s.requests[r].call.Complete? && s.requests[r].pc == Publish(job)
    ensures Next(s, Step(r, publish, "")) == Goto(Logged(s, job, publish), r, DeleteChunk(job.total, 0))
  {
    hide ComposeObject, CompleteSession, UpdateEpisode, RemoveChunk, Advances;
    assert s.log + [] == s.log;
  }

  lemma GotoTwice(s: System, r: nat, pc: Pc, next: Pc, objects: map<string, Bytes>)
    requires r < |s.requests|
    ensures Goto(Goto(s, r, pc).(objects := objects), r, next) == Goto(s.(objects := objects), r, next)
  {
    hide Advances;
  }

  lemma Finishes(s: System, r: nat, job: Job, publish: Outcome)
    requires r < |s.requests| && s.requests[r].call.Complete? && s.requests[r].pc == Publish(job)
    ensures Exec(s, [Step(r, publish, "")] + Steps(r, job.total + 1)) ==
            Goto(Announced(s, s.requests[r].call.session, job, publish), r, Done)
  {
    hide Next, Exec, Steps, Advances, ChunkKey;
    ExecConcat(s, [Step(r, publish, "")], Steps(r, job.total + 1));
    ExecOne(s, Step(r, publish, ""));
    PublishStep(s, r, job, publish);
    var t := Logged(s, job, publish);
    DeletesAll(Goto(t, r, DeleteChunk(job.total, 0)), r, job.total, 0);
    assert KeysFrom(s.requests[r].call.session, 0, job.total) == Keys(s.requests[r].call.session, job.total);
    GotoTwice(t, r, DeleteChunk(job.total, 0), Done, s.objects - Keys(s.requests[r].call.session, job.total));
  }

  lemma WrittenElsewhere(s: System, r: nat, sid: string, job: Job, pc: Pc, next: Pc)
    requires r < |s.requests| && sid in s.sessions && job.episodeId in s.episodes
             && AllStored(s.objects, sid, job.total)
    ensures AllStored(Goto(s, r, pc).objects, sid, job.total)
    ensures Goto(Written(Goto(s, r, pc), sid, job), r, next) == Goto(Written(s, sid, job), r, next)
  {
    hide AllStored, Concat, Parts, Advances;
  }

  lemma AnnouncedElsewhere(s: System, r: nat, sid: string, job: Job, publish: Outcome, pc: Pc)
    requires r < |s.requests|
    ensures Goto(Announced(Goto(s, r, pc), sid, job, publish), r, Done) ==
            Goto(Announced(s, sid, job, publish), r, Done)
  {
    hide Keys, Advances;
  }

  /**
   * A complete request that passes its test and finds every chunk stored composes the object,
   * completes the session, sets the row, publishes, and removes the chunks; an event that fails to
   * go out changes nothing but the log.
   */
  lemma CompleteAlone(s: System, r: nat, publish: Outcome)
    requires r < |s.requests| && s.requests[r].call.Complete? && s.requests[r].pc.Start?
    requires var sid := s.requests[r].call.session;
             CountTest(s, sid) && s.sessions[sid].episodeId in s.episodes &&
             AllStored(s.objects, sid, s.sessions[sid].total)
    ensures var sid := s.requests[r].call.session;
            var job := JobFor(s, s.sessions[sid].total, s.sessions[sid].episodeId);
            Exec(s, CompleteRun(r, job.total, publish)) ==
            Goto(Announced(Written(s, sid, job), sid, job, publish), r, Done)
  {
    hide Next, Exec, Steps, AllStored, Advances, Announced, EpisodePath;
    var sid := s.requests[r].call.session;
    var job := JobFor(s, s.sessions[sid].total, s.sessions[sid].episodeId);
    var rest := [Step(r, publish, "")] + Steps(r, job.total + 1);
    ExecConcat(s, Steps(r, 2), Steps(r, 3) + rest);
    Reads(s, r);
    var t := Goto(s, r, Compose(job));
    ExecConcat(t, Steps(r, 3), rest);
    WrittenElsewhere(s, r, sid, job, Compose(job), Publish(job));
    Writes(t, r, job);
    var u := Goto(Written(s, sid, job), r, Publish(job));
    Finishes(u, r, job, publish);
    AnnouncedElsewhere(Written(s, sid, job), r, sid, job, publish, Publish(job));
  }

  // ---- init and one chunk ----

  function WithChunk(s: System, sid: string, n: nat, data: Bytes, count: Outcome): System
    requires sid in s.sessions
  {
    s.(objects := s.objects[ChunkKey(sid, n) := data],
       sessions := if count.Fails? then s.sessions else OneMoreReceived(s.sessions, sid))
  }

  lemma EpisodeStep(s: System, r: nat, episodeId: string)
    requires r < |s.requests| && s.requests[r].call.Init? && s.requests[r].pc.Start? && ValidInit(s.requests[r].call)
    requires episodeId !in s.episodes
    ensures var c := s.requests[r].call;
            var row := Episode(c.filename, c.format, c.size, "uploading", None);
            Next(s, Step(r, Ok, episodeId)) ==
            Goto(s.(episodes := s.episodes[episodeId := row]), r, CreateSession(episodeId))
  {
    hide ValidInit, Advances;
  }

  lemma UploadSessionStep(s: System, r: nat, episodeId: string, sid: string)
    requires r < |s.requests| && s.requests[r].call.Init? && ValidInit(s.requests[r].call)
    requires s.requests[r].pc == CreateSession(episodeId) && sid !in s.sessions
    ensures var row := Session(episodeId, TotalChunks(s.requests[r].call.size), 0, false);
            Next(s, Step(r, Ok, sid)) == Goto(s.(sessions := s.sessions[sid := row]), r, Done)
  {
    hide TotalChunks, Advances;
  }

  /** An init request leaves an uploading episode and a session that counts its chunks. */
  lemma InitAlone(s: System, r: nat, episodeId: string, sid: string)
    requires r < |s.requests| && s.requests[r].call.Init? && s.requests[r].pc.Start?
    requires var c := s.requests[r].call;
             c.filename != "" && 1 <= c.size < 0x8000_0000_0000_0000 && (c.format == "mcap" || c.format == "hdf5")
    requires episodeId !in s.episodes && sid !in s.sessions
    ensures var c := s.requests[r].call;
            Exec(s, [Step(r, Ok, episodeId), Step(r, Ok, sid)]) ==
            Goto(s.(episodes := s.episodes[episodeId := Episode(c.filename, c.format, c.size, "uploading", None)],
                    sessions := s.sessions[sid := Session(episodeId, TotalChunks(c.size), 0, false)]), r, Done)
  {
    hide Next, TotalChunks, Advances;
    var c := s.requests[r].call;
    ExecTwo(s, Step(r, Ok, episodeId), Step(r, Ok, sid));
    EpisodeStep(s, r, episodeId);
    var t := s.(episodes := s.episodes[episodeId := Episode(c.filename, c.format, c.size, "uploading", None)]);
    UploadSessionStep(Goto(t, r, CreateSession(episodeId)), r, episodeId, sid);
    CountedElsewhere(t, r, CreateSession(episodeId),
                     s.sessions[sid := Session(episodeId, TotalChunks(c.size), 0, false)], Done);
  }

  lemma ExecTwo(s: System, a: Action, b: Action)
    ensures Exec(s, [a, b]) == Next(Next(s, a), b)
  {
    hide Next;
    assert [a, b] == [a] + [b];
    ExecConcat(s, [a], [b]);
    ExecOne(s, a);
    ExecOne(Next(s, a), b);
  }

  lemma AcceptStep(s: System, r: nat)
    requires r < |s.requests| && s.requests[r].call.Chunk? && s.requests[r].pc.Start?
    requires Accepts(s, s.requests[r].call.session, s.requests[r].call.n)
    ensures Next(s, Step(r, Ok, "")) == Goto(s, r, Put)
  {
    hide PutChunk, CountChunk, Accepts, Advances;
  }

  lemma StoreStep(s: System, r: nat)
    requires r < |s.requests| && s.requests[r].call.Chunk? && s.requests[r].call.n >= 0 && s.requests[r].pc.Put?
    ensures var c := s.requests[r].call;
            Next(s, Step(r, Ok, "")) == Goto(s.(objects := s.objects[ChunkKey(c.session, c.n) := c.data]), r, Increment)
  {
    hide ChunkKey, CountChunk, Accepts, Advances;
  }

  lemma CountStep(s: System, r: nat, count: Outcome)
    requires r < |s.requests| && s.requests[r].call.Chunk? && s.requests[r].pc.Increment?
    requires s.requests[r].call.session in s.sessions
    ensures var counted := OneMoreReceived(s.sessions, s.requests[r].call.session);
            Next(s, Step(r, count, "")) ==
            Goto(s.(sessions := if count.Fails? then s.sessions else counted), r, if count.Ok? then Done else Rejected)
  {
    hide PutChunk, Accepts, Advances;
  }

  lemma CountedElsewhere(s: System, r: nat, pc: Pc, sessions: map<string, Session>, next: Pc)
    requires r < |s.requests|
    ensures Goto(Goto(s, r, pc).(sessions := sessions), r, next) == Goto(s.(sessions := sessions), r, next)
  {
    hide Advances;
  }

  /** The steps of a chunk request whose increment ends as `count` says. */
  function ChunkRun(r: nat, count: Outcome): seq<Action> {
    Steps(r, 2) + [Step(r, count, "")]
  }

  /**
   * A chunk request that is accepted and stores its chunk counts it once unless the increment fails
   * outright; it is rejected unless the increment reports success.
   */
  lemma ChunkAlone(s: System, r: nat, count: Outcome)
    requires r < |s.requests| && s.requests[r].call.Chunk? && s.requests[r].pc.Start?
    requires var c := s.requests[r].call;
             c.session in s.sessions && !s.sessions[c.session].completed && 0 <= c.n < s.sessions[c.session].total
    ensures var c := s.requests[r].call;
            Exec(s, ChunkRun(r, count)) ==
            Goto(WithChunk(s, c.session, c.n, c.data, count), r, if count.Ok? then Done else Rejected)
  {
    hide Next, ChunkKey, Advances;
    var c := s.requests[r].call;
    var objects := s.objects[ChunkKey(c.session, c.n) := c.data];
    ExecConcat(s, Steps(r, 2), [Step(r, count, "")]);
    ExecStep(s, r, 1);
    AcceptStep(s, r);
    var t := Goto(s, r, Put);
    ExecStep(t, r, 0);
    StoreStep(t, r);
    GotoTwice(s, r, Put, Increment, objects);
    var u := s.(objects := objects);
    ExecOne(Goto(u, r, Increment), Step(r, count, ""));
    CountStep(Goto(u, r, Increment), r, count);
    CountedElsewhere(u, r, Increment, if count.Fails? then s.sessions else OneMoreReceived(s.sessions, c.session),
                     if count.Ok? then Done else Rejected);
  }
}
