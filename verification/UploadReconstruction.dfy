/**
 * The composed object is the uploaded file, for any arrival order, any repeated sends, any number
 * of sessions and any failures, as long as every client slices its own file.
 */
module UploadReconstruction {
  import opened Bytes
  import opened ChunkedUpload
  import opened UploadProtocol
  import opened UploadSafety

  /** Every chunk request of a session carries that slice of the session's file. */
  ghost predicate SlicesOf(s: System, files: string -> Bytes) {
    forall i | 0 <= i < |s.requests| && s.requests[i].call.Chunk? && s.requests[i].call.n >= 0 ::
      s.requests[i].call.data == ChunkedUpload.Chunk(files(s.requests[i].call.session), s.requests[i].call.n)
  }

  ghost predicate ChunksHold(objects: map<string, Bytes>, files: string -> Bytes) {
    forall sid, n: nat | ChunkKey(sid, n) in objects :: objects[ChunkKey(sid, n)] == ChunkedUpload.Chunk(files(sid), n)
  }

  function PathOf(s: System, sid: string): string
    requires sid in s.sessions && s.sessions[sid].episodeId in s.episodes
  {
    EpisodePath(s.sessions[sid].episodeId, s.episodes[s.sessions[sid].episodeId].filename)
  }

  /** What composing the session's chunks gives. */
  ghost function Assembled(s: System, files: string -> Bytes, sid: string): Bytes
    requires sid in s.sessions
  {
    Concat(Chunks(files(sid), s.sessions[sid].total))
  }

  ghost predicate AssembledFrom(s: System, files: string -> Bytes, sid: string, path: string, data: Bytes) {
    sid in s.sessions && s.sessions[sid].episodeId in s.episodes && path == PathOf(s, sid) &&
        data == Assembled(s, files, sid)
  }

  /** Every object at an episode path, and every logged compose, is some session's file assembled. */
  ghost predicate ComposedHold(s: System, files: string -> Bytes) {
    && (forall path | path in s.objects && IsEpisodePath(path) :: exists sid ::
        AssembledFrom(s, files, sid, path, s.objects[path]))
    && (forall p | 0 <= p < |s.log| && s.log[p].Composed? ::
          AssembledFrom(s, files, s.log[p].session, s.log[p].path, s.log[p].data))
  }

  lemma PartsAreChunks(s: System, files: string -> Bytes, sid: string, total: nat)
    requires ChunksHold(s.objects, files) && AllStored(s.objects, sid, total)
    ensures Parts(s.objects, sid, total) == Chunks(files(sid), total)
  {
    hide ChunkKey, ChunkedUpload.Chunk;
  }

  lemma ChunkKept(objects: map<string, Bytes>, files: string -> Bytes, sid: string, n: nat, data: Bytes)
    requires ChunksHold(objects, files) && data == ChunkedUpload.Chunk(files(sid), n)
    ensures ChunksHold(objects[ChunkKey(sid, n) := data], files)
  {
    forall t, m: nat | ChunkKey(t, m) == ChunkKey(sid, n) ensures t == sid && m == n {
      ChunkKeysInjective(t, m, sid, n);
    }
  }

  lemma PathKept(objects: map<string, Bytes>, files: string -> Bytes, path: string, data: Bytes)
    requires ChunksHold(objects, files) && IsEpisodePath(path)
    ensures ChunksHold(objects[path := data], files)
  {
    forall t, m: nat ensures ChunkKey(t, m) != path {
      assert ChunkKey(t, m)[0] == 't';
    }
  }

  predicate Composing(s: System, a: Action) {
    a.r < |s.requests| && s.requests[a.r].call.Complete? && s.requests[a.r].pc.Compose?
  }

  /** The objects after anything but a compose: the same, one more slice, or one chunk fewer. */
  ghost predicate ChunksChange(objects: map<string, Bytes>, after: map<string, Bytes>, files: string -> Bytes) {
    || after == objects
    || (exists sid, n: nat :: after == objects[ChunkKey(sid, n) := ChunkedUpload.Chunk(files(sid), n)])
    || (exists sid, n: nat :: after == objects - {ChunkKey(sid, n)})
  }

  lemma ChunkStepChanges(s: System, files: string -> Bytes, r: nat, a: Action)
    requires SlicesOf(s, files) && r < |s.requests| && s.requests[r].call.Chunk?
    ensures ChunksChange(s.objects, ChunkStep(s, r, a).objects, files) && ChunkStep(s, r, a).log == s.log
  {
    hide ChunkKey, Advances, ChunkedUpload.Chunk;
  }

  lemma CompleteStepChanges(s: System, files: string -> Bytes, r: nat, a: Action)
    requires r < |s.requests| && s.requests[r].call.Complete? && !s.requests[r].pc.Compose?
    ensures var t := CompleteStep(s, r, a);
            ChunksChange(s.objects, t.objects, files) && (t.log == s.log || exists e: Effect ::
                !e.Composed? && t.log == s.log + [e])
  {
    hide ChunkKey, EpisodePath, Advances, ChunkedUpload.Chunk, ComposeObject;
  }

  lemma OtherStepsChange(s: System, files: string -> Bytes, a: Action)
    requires SlicesOf(s, files) && !Composing(s, a)
    ensures ChunksChange(s.objects, Next(s, a).objects, files)
    ensures Next(s, a).log == s.log || exists e: Effect :: !e.Composed? && Next(s, a).log == s.log + [e]
  {
    hide ChunkStep, CompleteStep, ChunksChange, SlicesOf, Advances, TotalChunks, ValidInit;
    if a.r < |s.requests| {
      match s.requests[a.r].call
      case Init(_, _, _) => assert ChunksChange(s.objects, s.objects, files) by { Same(s.objects, files); }
      case Chunk(_, _, _) => ChunkStepChanges(s, files, a.r, a);
      case Complete(_) => CompleteStepChanges(s, files, a.r, a);
    } else {
      Same(s.objects, files);
    }
  }

  lemma Same(objects: map<string, Bytes>, files: string -> Bytes)
    ensures ChunksChange(objects, objects, files)
  {
  }

  /** A compose that takes effect stores and logs the session's file assembled. */
  ghost predicate Assembles(s: System, t: System, files: string -> Bytes, sid: string, path: string, data: Bytes) {
    && t.objects == s.objects[path := data] && t.log == s.log + [Composed(sid, path, data)]
    && AssembledFrom(s, files, sid, path, data) && IsEpisodePath(path)
  }

  lemma ComposeAssembles(s: System, files: string -> Bytes, a: Action)
    requires RequestsHold(s) && ChunksHold(s.objects, files) && Composing(s, a)
    ensures var t := Next(s, a);
            (t.objects == s.objects && t.log == s.log)
            || exists sid, path, data :: Assembles(s, t, files, sid, path, data)
  {
    hide Advances, Stage, ChunkedUpload.Chunk, ChunkKey, Concat, ChunksHold, AllStored;
    var sid, job, t := s.requests[a.r].call.session, s.requests[a.r].pc.job, Next(s, a);
    assert RequestHolds(s, sid, s.requests[a.r].pc);
    if AllStored(s.objects, sid, job.total) {
      PartsAreChunks(s, files, sid, job.total);
      assert a.outcome.Fails? || Assembles(s, t, files, sid, job.path, Assembled(s, files, sid));
    }
  }

  lemma StepKeepsChunks(s: System, files: string -> Bytes, a: Action)
    requires RequestsHold(s) && SlicesOf(s, files) && ChunksHold(s.objects, files)
    ensures ChunksHold(Next(s, a).objects, files)
  {
    hide Next, RequestsHold, SlicesOf, AssembledFrom, ChunkedUpload.Chunk, ChunkKey;
    var t := Next(s, a);
    if Composing(s, a) {
      ComposeAssembles(s, files, a);
      if t.objects != s.objects {
        var sid, path, data :| Assembles(s, t, files, sid, path, data);
        PathKept(s.objects, files, path, data);
      }
    } else {
      OtherStepsChange(s, files, a);
      if sid, n: nat :| t.objects == s.objects[ChunkKey(sid, n) := ChunkedUpload.Chunk(files(sid), n)] {
        ChunkKept(s.objects, files, sid, n, ChunkedUpload.Chunk(files(sid), n));
      }
    }
  }

  /** An assembled file stays what it is: rows keep their episode, chunk count and filename. */
  lemma AssembledKept(s: System, t: System, r: nat, files: string -> Bytes, sid: string, path: string, data: Bytes)
    requires Advances(s, t, r) && AssembledFrom(s, files, sid, path, data)
    ensures AssembledFrom(t, files, sid, path, data)
  {
    hide EpisodePath, Concat;
  }

  lemma StepKeepsComposed(s: System, files: string -> Bytes, a: Action)
    requires RequestsHold(s) && SlicesOf(s, files) && ChunksHold(s.objects, files) && ComposedHold(s, files)
    ensures ComposedHold(Next(s, a), files)
  {
    hide Next, RequestsHold, SlicesOf, AssembledFrom, ChunkedUpload.Chunk, ChunksHold, Advances;
    var t := Next(s, a);
    if Composing(s, a) { ComposeAssembles(s, files, a); } else { OtherStepsChange(s, files, a); }
    forall path | path in t.objects && IsEpisodePath(path)
      ensures exists sid :: AssembledFrom(t, files, sid, path, t.objects[path])
    {
      if path in s.objects && t.objects[path] == s.objects[path] {
        var sid :| AssembledFrom(s, files, sid, path, s.objects[path]);
        AssembledKept(s, t, a.r, files, sid, path, s.objects[path]);
      } else {
        var sid, p, data :| Assembles(s, t, files, sid, p, data);
        AssembledKept(s, t, a.r, files, sid, p, data);
      }
    }
    forall p | 0 <= p < |t.log| && t.log[p].Composed?
      ensures AssembledFrom(t, files, t.log[p].session, t.log[p].path, t.log[p].data)
    {
      if p < |s.log| {
        assert t.log[p] == s.log[p];
        AssembledKept(s, t, a.r, files, t.log[p].session, t.log[p].path, t.log[p].data);
      } else {
        var sid, path, data :| Assembles(s, t, files, sid, path, data);
        AssembledKept(s, t, a.r, files, sid, path, data);
      }
    }
  }

  // ---- sessions own their episodes ----

  /** A UUID has no slash; no episode belongs to two sessions, or to one and to an init still under way. */
  ghost predicate Owned(s: System) {
    && (forall id | id in s.episodes :: '/' !in id)
    && (forall sid | sid in s.sessions :: s.sessions[sid].episodeId in s.episodes)
    && (forall sid, tid | sid in s.sessions && tid in s.sessions &&
        s.sessions[sid].episodeId == s.sessions[tid].episodeId :: sid == tid)
    && (forall i | 0 <= i < |s.requests| && s.requests[i].pc.CreateSession? ::
          && s.requests[i].pc.episodeId in s.episodes
          && (forall sid | sid in s.sessions :: s.sessions[sid].episodeId != s.requests[i].pc.episodeId)
          && (forall j | 0 <= j < |s.requests| && s.requests[j].pc == s.requests[i].pc :: j == i))
  }

  lemma InitStepKeepsOwned(s: System, r: nat, a: Action)
    requires Owned(s) && '/' !in a.id && r < |s.requests| && s.requests[r].call.Init?
    ensures Owned(InitStep(s, r, a))
  {
    hide TotalChunks, ValidInit, Advances;
  }

  /** Chunk and complete requests add no row. */
  ghost predicate AddsNoRow(s: System, t: System, r: nat) {
    && t.sessions.Keys == s.sessions.Keys && t.episodes.Keys == s.episodes.Keys
    && (r < |t.requests| ==> !t.requests[r].pc.CreateSession? || t.requests == s.requests)
  }

  lemma ChunkAddsNoRow(s: System, r: nat, a: Action)
    requires r < |s.requests| && s.requests[r].call.Chunk?
    ensures AddsNoRow(s, ChunkStep(s, r, a), r)
  {
    hide ChunkKey, Advances;
  }

  lemma ComposeAddsNoRow(s: System, r: nat, a: Action, sid: string, job: Job)
    requires r < |s.requests|
    ensures AddsNoRow(s, ComposeObject(s, r, a, sid, job), r)
  {
    hide AllStored, Parts, Concat, Advances;
  }

  lemma CompleteAddsNoRow(s: System, r: nat, a: Action)
    requires r < |s.requests| && s.requests[r].call.Complete?
    ensures AddsNoRow(s, CompleteStep(s, r, a), r)
  {
    hide JobFor, CountTest, ComposeObject, ChunkKey, Advances;
    if s.requests[r].pc.Compose? {
      ComposeAddsNoRow(s, r, a, s.requests[r].call.session, s.requests[r].pc.job);
    }
  }

  lemma NextAddsNoRow(s: System, a: Action)
    requires a.r < |s.requests| ==> !s.requests[a.r].call.Init?
    ensures AddsNoRow(s, Next(s, a), a.r)
  {
    hide ChunkStep, CompleteStep;
    if a.r < |s.requests| {
      match s.requests[a.r].call
      case Chunk(_, _, _) => ChunkAddsNoRow(s, a.r, a);
      case Complete(_) => CompleteAddsNoRow(s, a.r, a);
    }
  }

  lemma OwnedKept(s: System, t: System, r: nat)
    requires Owned(s) && Advances(s, t, r) && AddsNoRow(s, t, r)
    ensures Owned(t)
  {
    assert forall sid | sid in t.sessions :: sid in s.sessions.Keys;
    assert forall id | id in t.episodes :: id in s.episodes.Keys;
  }

  // ---- sessions have as many chunks as their episode's size takes ----

  /** A session counts the chunks of its episode's size. */
  ghost predicate SessionSized(s: System, sid: string)
    requires sid in s.sessions
  {
    s.sessions[sid].episodeId in s.episodes ==>
      var size := s.episodes[s.sessions[sid].episodeId].sizeBytes;
      1 <= size < 0x8000_0000_0000_0000 && s.sessions[sid].total == TotalChunks(size)
  }

  ghost predicate InitSized(s: System, i: nat)
    requires i < |s.requests|
  {
    var c, pc := s.requests[i].call, s.requests[i].pc;
    c.Init? && pc.CreateSession? ==> pc.episodeId in s.episodes && s.episodes[pc.episodeId].sizeBytes == c.size
  }

  ghost predicate Sized(s: System) {
    && (forall sid | sid in s.sessions :: SessionSized(s, sid))
    && (forall i: nat | i < |s.requests| :: InitSized(s, i))
  }

  lemma CreateEpisodeKeepsSized(s: System, r: nat, a: Action)
    requires Owned(s) && Sized(s) && r < |s.requests| && s.requests[r].call.Init? &&
        ValidInit(s.requests[r].call) && a.id !in s.episodes
    ensures Sized(CreateEpisode(s, r, a, s.requests[r].call))
  {
    hide TotalChunks;
    var t := CreateEpisode(s, r, a, s.requests[r].call);
    forall sid | sid in t.sessions ensures SessionSized(t, sid) {
      assert sid in s.sessions ==> SessionSized(s, sid);
    }
    forall i: nat | i < |t.requests| ensures InitSized(t, i) {
      assert InitSized(s, i);
    }
  }

  lemma CreateSessionKeepsSized(s: System, r: nat, a: Action)
    requires Sized(s) && r < |s.requests| && s.requests[r].call.Init? && ValidInit(s.requests[r].call) &&
        a.id !in s.sessions
    requires s.requests[r].pc.CreateSession?
    ensures Sized(CreateUploadSession(s, r, a, s.requests[r].call, s.requests[r].pc.episodeId))
  {
    hide TotalChunks;
    var t := CreateUploadSession(s, r, a, s.requests[r].call, s.requests[r].pc.episodeId);
    assert InitSized(s, r);
    forall sid | sid in t.sessions ensures SessionSized(t, sid) {
      assert sid in s.sessions ==> SessionSized(s, sid);
    }
    forall i: nat | i < |t.requests| ensures InitSized(t, i) {
      assert InitSized(s, i);
    }
  }

  lemma RejectedKeepsSized(s: System, r: nat)
    requires Sized(s) && r < |s.requests|
    ensures Sized(Goto(s, r, Rejected))
  {
    hide TotalChunks;
    var t := Goto(s, r, Rejected);
    forall sid | sid in t.sessions ensures SessionSized(t, sid) {
      assert sid in s.sessions ==> SessionSized(s, sid);
    }
    forall i: nat | i < |t.requests| ensures InitSized(t, i) {
      assert InitSized(s, i);
    }
  }

  lemma InitStepKeepsSized(s: System, r: nat, a: Action)
    requires Owned(s) && Sized(s) && r < |s.requests| && s.requests[r].call.Init?
    ensures Sized(InitStep(s, r, a))
  {
    hide TotalChunks, ValidInit, CreateEpisode, CreateUploadSession, Advances, Owned, Sized;
    RejectedKeepsSized(s, r);
    if ValidInit(s.requests[r].call) {
      if s.requests[r].pc.Start? && a.id !in s.episodes {
        CreateEpisodeKeepsSized(s, r, a);
      } else if s.requests[r].pc.CreateSession? && a.id !in s.sessions {
        CreateSessionKeepsSized(s, r, a);
      }
    }
  }

  lemma SessionSizedKept(s: System, t: System, r: nat, sid: string)
    requires Advances(s, t, r) && sid in s.sessions && s.sessions[sid].episodeId in s.episodes && SessionSized(s, sid)
    ensures SessionSized(t, sid)
  {
    hide TotalChunks;
  }

  lemma SizedKept(s: System, t: System, r: nat)
    requires Owned(s) && Sized(s) && Advances(s, t, r) && AddsNoRow(s, t, r)
    ensures Sized(t)
  {
    hide TotalChunks, SessionSized;
    forall sid | sid in t.sessions ensures SessionSized(t, sid) {
      assert sid in s.sessions.Keys;
      SessionSizedKept(s, t, r, sid);
    }
    forall i: nat | i < |t.requests| ensures InitSized(t, i) {
      assert InitSized(s, i);
    }
  }

  // ---- runs ----

  ghost predicate Holds(s: System, files: string -> Bytes) {
    && RequestsHold(s) && RowsHold(s) && LogHolds(s) && Owned(s) && Sized(s)
    && SlicesOf(s, files) && ChunksHold(s.objects, files) && ComposedHold(s, files)
  }

  lemma StepHolds(s: System, files: string -> Bytes, a: Action)
    requires Holds(s, files) && '/' !in a.id
    ensures Holds(Next(s, a), files)
  {
    hide RequestsHold, RowsHold, LogHolds, Owned, Sized, ChunksHold, ComposedHold, InitStep, ChunkStep,
        CompleteStep, AddsNoRow;
    StepKeepsRequests(s, a);
    StepKeepsRows(s, a);
    StepKeepsLog(s, a);
    StepKeepsChunks(s, files, a);
    StepKeepsComposed(s, files, a);
    if a.r < |s.requests| && s.requests[a.r].call.Init? {
      InitStepKeepsOwned(s, a.r, a);
      InitStepKeepsSized(s, a.r, a);
    } else {
      NextAddsNoRow(s, a);
      OwnedKept(s, Next(s, a), a.r);
      SizedKept(s, Next(s, a), a.r);
    }
  }

  lemma {:induction false} RunHolds(s: System, files: string -> Bytes, actions: seq<Action>)
    requires Holds(s, files) && forall i | 0 <= i < |actions| :: '/' !in actions[i].id
    ensures Holds(Exec(s, actions), files)
    decreases |actions|
  {
    hide Next, Holds;
    if actions != [] {
      StepHolds(s, files, actions[0]);
      RunHolds(Next(s, actions[0]), files, actions[1..]);
    }
  }

  /** Clients send slices of their files and announced their size, and the UUIDs drawn have no slash. */
  ghost predicate Honest(calls: seq<Call>, actions: seq<Action>, files: string -> Bytes) {
    && SlicesOf(Initial(calls), files)
    && (forall i | 0 <= i < |actions| :: '/' !in actions[i].id)
    && var s := Exec(Initial(calls), actions);
       forall sid | sid in s.sessions && s.sessions[sid].episodeId in s.episodes ::
         |files(sid)| == s.episodes[s.sessions[sid].episodeId].sizeBytes
  }

  lemma HonestRunHolds(calls: seq<Call>, actions: seq<Action>, files: string -> Bytes)
    requires Honest(calls, actions, files)
    ensures var s := Exec(Initial(calls), actions);
            && Holds(s, files)
            && forall sid | sid in s.sessions ::
                 1 <= |files(sid)| < 0x8000_0000_0000_0000 && s.sessions[sid].total == TotalChunks(|files(sid)|)
  {
    hide Exec, RequestsHold, RowsHold, LogHolds, TotalChunks, SlicesOf;
    InitialHolds(calls);
    RunHolds(Initial(calls), files, actions);
  }

  lemma AssembledIsTheFileIff(s: System, files: string -> Bytes, sid: string)
    requires sid in s.sessions && 1 <= |files(sid)| < 0x8000_0000_0000_0000 &&
        s.sessions[sid].total == TotalChunks(|files(sid)|)
    ensures Assembled(s, files, sid) == files(sid) <==> !RoundsDownToBoundary(|files(sid)|)
  {
    ComposeGivesFileIff(files(sid));
  }

  /**
   * Every compose that takes effect, in any run, stores exactly the bytes of its session's file,
   * unless the file's size rounds down to a chunk boundary (past 2^53 bytes): then never.
   */
  lemma ComposedIsTheFileIff(calls: seq<Call>, actions: seq<Action>, files: string -> Bytes, p: nat)
    requires Honest(calls, actions, files)
    requires p < |Exec(Initial(calls), actions).log| && Exec(Initial(calls), actions).log[p].Composed?
    ensures var s := Exec(Initial(calls), actions); var e := s.log[p];
            && e.session in s.sessions && 1 <= |files(e.session)| < 0x8000_0000_0000_0000
            && (e.data == files(e.session) <==> !RoundsDownToBoundary(|files(e.session)|))
  {
    hide Exec, RequestsHold, RowsHold, LogHolds, Owned, SlicesOf, ChunksHold, TotalChunks,
        RoundsDownToBoundary, Assembled, PathOf;
    HonestRunHolds(calls, actions, files);
    var s := Exec(Initial(calls), actions);
    AssembledIsTheFileIff(s, files, s.log[p].session);
  }

  /** Episode ids have no slash, so a path names its episode and its file. */
  lemma PathNamesEpisode(id: string, filename: string, other: string, otherName: string)
    requires '/' !in id && '/' !in other && EpisodePath(id, filename) == EpisodePath(other, otherName)
    ensures id == other && filename == otherName
  {
    var p := EpisodePath(id, filename);
    assert p == EpisodePath(other, otherName);
    assert p[9 + |id|] == '/' && p[9 + |other|] == '/';
    assert p[9..9 + |id|] == id && p[9..9 + |other|] == other;
    assert p[10 + |id|..] == filename && p[10 + |other|..] == otherName;
  }

  /**
   * And at the end of the run, the object an event points to is the file of the one session of the
   * event's episode, under the same condition on its size.
   */
  lemma PublishedObjectIsTheFileIff(calls: seq<Call>, actions: seq<Action>, files: string -> Bytes, p: nat)
    requires Honest(calls, actions, files)
    requires p < |Exec(Initial(calls), actions).log| && Exec(Initial(calls), actions).log[p].Published?
    ensures var s := Exec(Initial(calls), actions); var e := s.log[p];
            && e.path in s.objects
            && exists sid :: && sid in s.sessions && s.sessions[sid].episodeId == e.episodeId
                             && (forall tid | tid in s.sessions && s.sessions[tid].episodeId == e.episodeId ::
                                 tid == sid)
                             && 1 <= |files(sid)| < 0x8000_0000_0000_0000
                             && (s.objects[e.path] == files(sid) <==> !RoundsDownToBoundary(|files(sid)|))
  {
    hide Exec, RequestsHold, RowsHold, LogHolds, SlicesOf, ChunksHold, TotalChunks,
         RoundsDownToBoundary, Assembled, Next;
    HonestRunHolds(calls, actions, files);
    EventImpliesIngested(calls, actions, p);
    var s := Exec(Initial(calls), actions);
    var e := s.log[p];
    PathIsEpisodePath(s, e.episodeId);
    var sid :| AssembledFrom(s, files, sid, e.path, s.objects[e.path]);
    PathNamesEpisode(e.episodeId, s.episodes[e.episodeId].filename, s.sessions[sid].episodeId,
        s.episodes[s.sessions[sid].episodeId].filename);
    AssembledIsTheFileIff(s, files, sid);
  }

  lemma PathIsEpisodePath(s: System, id: string)
    requires id in s.episodes
    ensures IsEpisodePath(EpisodePath(id, s.episodes[id].filename))
  {
  }
}
