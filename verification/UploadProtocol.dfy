/**
 * The chunked upload as a step system: any number of init, chunk and complete requests, their
 * database and object-store operations interleaved one by one, any of which may fail, with or
 * without having taken effect.
 */
module UploadProtocol {
  import opened Bytes
  import opened Options
  import opened ChunkedUpload

  datatype Episode = Episode(
    filename: string, format: string, sizeBytes: nat, status: string, storagePath: Option<string>)

  datatype Session = Session(episodeId: string, total: nat, received: nat, completed: bool)

  datatype Effect =
    | Composed(session: string, path: string, data: Bytes)
    | SessionCompleted(session: string)
    | EpisodeSet(episodeId: string, path: string)
    | Published(episodeId: string, path: string, format: string)

  datatype Call =
    | Init(filename: string, format: string, size: int)
    | Chunk(session: string, n: int, data: Bytes)
    | Complete(session: string)

  /** What a complete request carries from its reads of the session and the episode rows. */
  datatype Job = Job(total: nat, episodeId: string, path: string, format: string)

  /** The next operation of a request. */
  datatype Pc =
    | Start
    | CreateSession(episodeId: string)
    | Put
    | Increment
    | FetchEpisode(total: nat, episodeId: string)
    | Compose(job: Job)
    | MarkSession(job: Job)
    | SetEpisode(job: Job)
    | Publish(job: Job)
    | DeleteChunk(total: nat, i: nat)
    | Done
    | Rejected

  datatype Request = Request(call: Call, pc: Pc)

  datatype System = System(
    sessions: map<string, Session>, episodes: map<string, Episode>, objects: map<string, Bytes>,
    log: seq<Effect>, requests: seq<Request>)

  /** `Lost`: the operation took effect, but the caller saw an error. */
  datatype Outcome = Ok | Fails | Lost

  /** Request `r` takes its next step; `id` is the UUID drawn if it inserts a row. */
  datatype Action = Step(r: nat, outcome: Outcome, id: string)

  /**
   * What any step of request `r` may do: tables grow (no row disappears, and what the handlers read
   * of a row does not change), at most one effect is logged, and only `r` moves on.
   */
  ghost predicate Advances(s: System, t: System, r: nat) {
    && (forall id | id in s.sessions ::
          && id in t.sessions && t.sessions[id].episodeId == s.sessions[id].episodeId
          && t.sessions[id].total == s.sessions[id].total && s.sessions[id].received <= t.sessions[id].received
          && (s.sessions[id].completed ==> t.sessions[id].completed))
    && (forall id | id in s.episodes ::
          && id in t.episodes && t.episodes[id].filename == s.episodes[id].filename
          && t.episodes[id].format == s.episodes[id].format && t.episodes[id].sizeBytes == s.episodes[id].sizeBytes)
    && (t.log == s.log || exists e :: t.log == s.log + [e])
    && |t.requests| == |s.requests|
    && (forall i | 0 <= i < |s.requests| ::
          t.requests[i].call == s.requests[i].call && (i != r ==> t.requests[i] == s.requests[i]))
  }

  function Goto(s: System, r: nat, pc: Pc): (t: System)
    requires r < |s.requests|
    ensures Advances(s, t, r)
  {
    s.(requests := s.requests[r := s.requests[r].(pc := pc)])
  }

  /** A write: its effect unless it fails outright, and on to `pc` only if it reports success. */
  function Write(s: System, effect: System, r: nat, outcome: Outcome, pc: Pc): (t: System)
    requires r < |s.requests| && effect.requests == s.requests
    ensures Advances(s, effect, r) ==> Advances(s, t, r)
  {
    if outcome.Fails? then Goto(s, r, Rejected)
    else Goto(effect, r, if outcome.Ok? then pc else Rejected)
  }

  // ---- init ----

  predicate ValidInit(c: Call)
    requires c.Init?
  {
    c.filename != "" && 1 <= c.size < 0x8000_0000_0000_0000 && c.format in {"mcap", "hdf5"}
  }

  function CreateEpisode(s: System, r: nat, a: Action, c: Call): (t: System)
    requires r < |s.requests| && c.Init? && ValidInit(c) && a.id !in s.episodes
    ensures Advances(s, t, r)
    ensures t.sessions == s.sessions && t.objects == s.objects && t.log == s.log
    ensures t.episodes == if a.outcome.Fails? then s.episodes
                          else s.episodes[a.id := Episode(c.filename, c.format, c.size, "uploading", None)]
  {
    var row := Episode(c.filename, c.format, c.size, "uploading", None);
    Write(s, s.(episodes := s.episodes[a.id := row]), r, a.outcome, CreateSession(a.id))
  }

  function CreateUploadSession(s: System, r: nat, a: Action, c: Call, episodeId: string): (t: System)
    requires r < |s.requests| && c.Init? && ValidInit(c) && a.id !in s.sessions
    ensures Advances(s, t, r)
    ensures t.episodes == s.episodes && t.objects == s.objects && t.log == s.log
    ensures t.sessions == if a.outcome.Fails? then s.sessions
                          else s.sessions[a.id := Session(episodeId, TotalChunks(c.size), 0, false)]
  {
    var row := Session(episodeId, TotalChunks(c.size), 0, false);
    Write(s, s.(sessions := s.sessions[a.id := row]), r, a.outcome, Done)
  }

  /** Nothing, or one new row. */
  predicate Inserts<T(==)>(table: map<string, T>, after: map<string, T>, id: string) {
    after == table
    || (id !in table && after.Keys == table.Keys + {id} && forall k | k in table :: after[k] == table[k])
  }

  /** A UUID that exists already is not drawn. */
  function InitStep(s: System, r: nat, a: Action): (t: System)
    requires r < |s.requests| && s.requests[r].call.Init?
    ensures Advances(s, t, r)
    ensures t.objects == s.objects && t.log == s.log
    ensures || (t.sessions == s.sessions && Inserts(s.episodes, t.episodes, a.id))
            || (t.episodes == s.episodes && Inserts(s.sessions, t.sessions, a.id))
  {
    var c := s.requests[r].call;
    match s.requests[r].pc
    case Start =>
      if !ValidInit(c) then Goto(s, r, Rejected)
      else if a.id in s.episodes then s
      else CreateEpisode(s, r, a, c)
    case CreateSession(episodeId) =>
      if a.id in s.sessions || !ValidInit(c) then s
      else CreateUploadSession(s, r, a, c, episodeId)
    case _ => s
  }

  // ---- one chunk ----

  predicate Accepts(s: System, sid: string, n: int) {
    sid in s.sessions && !s.sessions[sid].completed && 0 <= n < s.sessions[sid].total
  }

  function PutChunk(s: System, r: nat, a: Action, sid: string, n: nat, data: Bytes): (t: System)
    requires r < |s.requests|
    ensures Advances(s, t, r)
    ensures t.sessions == s.sessions && t.episodes == s.episodes && t.log == s.log
    ensures t.objects == if a.outcome.Fails? then s.objects else s.objects[ChunkKey(sid, n) := data]
  {
    Write(s, s.(objects := s.objects[ChunkKey(sid, n) := data]), r, a.outcome, Increment)
  }

  /** The sessions after one more chunk of `sid` was counted. */
  function OneMoreReceived(sessions: map<string, Session>, sid: string): map<string, Session>
    requires sid in sessions
  {
    sessions[sid := sessions[sid].(received := sessions[sid].received + 1)]
  }

  function CountChunk(s: System, r: nat, a: Action, sid: string): (t: System)
    requires r < |s.requests| && sid in s.sessions
    ensures Advances(s, t, r)
    ensures t.episodes == s.episodes && t.objects == s.objects && t.log == s.log
    ensures t.sessions == if a.outcome.Fails? then s.sessions else OneMoreReceived(s.sessions, sid)
  {
    Write(s, s.(sessions := OneMoreReceived(s.sessions, sid)), r, a.outcome, Done)
  }

  function ChunkStep(s: System, r: nat, a: Action): (t: System)
    requires r < |s.requests| && s.requests[r].call.Chunk?
    ensures Advances(s, t, r)
    ensures t.episodes == s.episodes && t.log == s.log
    ensures var c := s.requests[r].call;
            || (t.sessions == s.sessions && t.objects == s.objects)
            || (c.n >= 0 && t.sessions == s.sessions && t.objects == s.objects[ChunkKey(c.session, c.n) := c.data])
            || (c.session in s.sessions && t.sessions == OneMoreReceived(s.sessions, c.session)
                && t.objects == s.objects)
  {
    var c := s.requests[r].call;
    match s.requests[r].pc
    case Start => Goto(s, r, if a.outcome.Ok? && Accepts(s, c.session, c.n) then Put else Rejected)
    case Put => if c.n < 0 then s else PutChunk(s, r, a, c.session, c.n, c.data)
    case Increment => if c.session !in s.sessions then s else CountChunk(s, r, a, c.session)
    case _ => s
  }

  // ---- complete ----

  predicate CountTest(s: System, sid: string) {
    sid in s.sessions && !s.sessions[sid].completed && s.sessions[sid].received == s.sessions[sid].total
  }

  function JobFor(s: System, total: nat, episodeId: string): Job
    requires episodeId in s.episodes
  {
    var ep := s.episodes[episodeId];
    Job(total, episodeId, EpisodePath(episodeId, ep.filename), ep.format)
  }

  function ComposeObject(s: System, r: nat, a: Action, sid: string, job: Job): (t: System)
    requires r < |s.requests|
    ensures Advances(s, t, r)
    ensures t.sessions == s.sessions && t.episodes == s.episodes
  {
    if !AllStored(s.objects, sid, job.total) then Goto(s, r, Rejected)
    else
      var data := Concat(Parts(s.objects, sid, job.total));
      Write(s, s.(objects := s.objects[job.path := data], log := s.log + [Composed(sid, job.path, data)]),
            r, a.outcome, MarkSession(job))
  }

  function CompleteSession(s: System, r: nat, a: Action, sid: string, job: Job): (t: System)
    requires r < |s.requests| && sid in s.sessions
    ensures Advances(s, t, r)
    ensures t.episodes == s.episodes && t.objects == s.objects
    ensures t.sessions == if a.outcome.Fails? then s.sessions
                          else s.sessions[sid := s.sessions[sid].(completed := true)]
    ensures t.log == if a.outcome.Fails? then s.log else s.log + [SessionCompleted(sid)]
  {
    var row := s.sessions[sid].(completed := true);
    Write(s, s.(sessions := s.sessions[sid := row], log := s.log + [SessionCompleted(sid)]),
          r, a.outcome, SetEpisode(job))
  }

  function UpdateEpisode(s: System, r: nat, a: Action, job: Job): (t: System)
    requires r < |s.requests| && job.episodeId in s.episodes
    ensures Advances(s, t, r)
    ensures t.sessions == s.sessions && t.objects == s.objects
    ensures t.episodes ==
            if a.outcome.Fails? then s.episodes
            else s.episodes[job.episodeId :=
                              s.episodes[job.episodeId].(status := "processing", storagePath := Some(job.path))]
    ensures t.log == if a.outcome.Fails? then s.log else s.log + [EpisodeSet(job.episodeId, job.path)]
  {
    var row := s.episodes[job.episodeId].(status := "processing", storagePath := Some(job.path));
    Write(s, s.(episodes := s.episodes[job.episodeId := row], log := s.log + [EpisodeSet(job.episodeId, job.path)]),
          r, a.outcome, Publish(job))
  }

  /** The event may get lost; the request goes on either way. */
  function PublishEvent(s: System, r: nat, a: Action, job: Job): (t: System)
    requires r < |s.requests|
    ensures Advances(s, t, r)
    ensures t.sessions == s.sessions && t.episodes == s.episodes && t.objects == s.objects
  {
    var log := if a.outcome.Fails? then s.log else s.log + [Published(job.episodeId, job.path, job.format)];
    Goto(s.(log := log), r, DeleteChunk(job.total, 0))
  }

  function RemoveChunk(s: System, r: nat, a: Action, sid: string, total: nat, i: nat): (t: System)
    requires r < |s.requests|
    ensures Advances(s, t, r)
    ensures t.sessions == s.sessions && t.episodes == s.episodes && t.log == s.log
  {
    if i >= total then Goto(s, r, Done)
    else
      var objects := if a.outcome.Fails? then s.objects else s.objects - {ChunkKey(sid, i)};
      Goto(s.(objects := objects), r, DeleteChunk(total, i + 1))
  }

  function CompleteStep(s: System, r: nat, a: Action): (t: System)
    requires r < |s.requests| && s.requests[r].call.Complete?
    ensures Advances(s, t, r)
  {
    var sid := s.requests[r].call.session;
    match s.requests[r].pc
    case Start =>
      if a.outcome.Ok? && CountTest(s, sid) then
        Goto(s, r, FetchEpisode(s.sessions[sid].total, s.sessions[sid].episodeId))
      else Goto(s, r, Rejected)
    case FetchEpisode(total, episodeId) =>
      if a.outcome.Ok? && episodeId in s.episodes then Goto(s, r, Compose(JobFor(s, total, episodeId)))
      else Goto(s, r, Rejected)
    case Compose(job) => ComposeObject(s, r, a, sid, job)
    case MarkSession(job) => if sid !in s.sessions then s else CompleteSession(s, r, a, sid, job)
    case SetEpisode(job) => if job.episodeId !in s.episodes then s else UpdateEpisode(s, r, a, job)
    case Publish(job) => PublishEvent(s, r, a, job)
    case DeleteChunk(total, i) => RemoveChunk(s, r, a, sid, total, i)
    case _ => s
  }

  // ---- runs ----

  function Next(s: System, a: Action): (t: System)
    ensures Advances(s, t, a.r)
  {
    if a.r >= |s.requests| then s
    else
      match s.requests[a.r].call
      case Init(_, _, _) => InitStep(s, a.r, a)
      case Chunk(_, _, _) => ChunkStep(s, a.r, a)
      case Complete(_) => CompleteStep(s, a.r, a)
  }

  function Exec(s: System, actions: seq<Action>): System
    decreases |actions|
  {
    if actions == [] then s else Exec(Next(s, actions[0]), actions[1..])
  }

  function Initial(calls: seq<Call>): System {
    System(map[], map[], map[], [], seq(|calls|, i requires 0 <= i < |calls| => Request(calls[i], Start)))
  }
}
