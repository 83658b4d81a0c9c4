/**
 * Stream ingestion: the event loop of one stream, and sealing its buffer into an episode.
 *
 * What `select` delivers, in which order, and which writes fail is given as input; the row
 * table, the object store and the order of effects are state.
 */
module StreamServers {
  import opened Bytes
  import opened Options
  import opened Decimal
  import opened FrameBuffers
  import opened FrameCodec

  const WINDOW_NS: int64 := 5_000_000_000

  datatype Event =
    | Received(frame: Frame, sendOk: bool)
    | EndOfStream
    | Canceled
    | RecvFailed
    | Inactivity

  datatype Row = Row(
    filename: string, format: string, sizeBytes: nat, status: string,
    storagePath: Option<string>, recordingSession: string)

  datatype Effect =
    | AckSent(seqNum: uint64, episodeId: string, status: string)
    | SealStarted(frames: seq<Frame>, session: string)
    | RowCreated(id: string, sizeBytes: nat)
    | ObjectPut(key: string, data: Bytes)
    | RowUpdated(id: string, status: string, path: string)
    | Published(id: string, path: string, format: string)

  /** `Lost`: the write took effect, but the caller saw an error. */
  datatype Outcome = Ok | Fails | Lost

  /** The new episode's id, the time in its filename, and how the four writes of a seal end. */
  datatype SealEnv = SealEnv(id: string, nanos: int, create: Outcome, put: Outcome, update: Outcome, publish: Outcome)

  datatype SealResult = Sealed(episodeId: string) | SealFailed

  /** How a stream stopped; `Waiting` if the script ran out first. */
  datatype End = LastFrame(sendOk: bool) | Closed | RecvBroke | SendBroke | Waiting

  function StreamFile(session: string, nanos: int): string {
    "stream_" + session + "_" + Signed(nanos) + ".bin"
  }

  function StreamPath(id: string): string {
    "episodes/" + id + "/stream.bin"
  }

  // ---- what the loop does with a script ----

  /** The frames added to the buffer, and how the stream ended. */
  function Consumed(script: seq<Event>): (r: (seq<Frame>, End))
    ensures r.1.LastFrame? || r.1.SendBroke? ==> r.0 != []
  {
    if script == [] then ([], Waiting)
    else
      match script[0]
      case Received(f, ok) =>
        if f.isLast then ([f], LastFrame(ok))
        else if !ok then ([f], SendBroke)
        else var (frames, end) := Consumed(script[1..]); ([f] + frames, end)
      case RecvFailed => ([], RecvBroke)
      case _ => ([], Closed)
  }

  /** The session of the first frame that has one. */
  function SessionOf(frames: seq<Frame>): string {
    if frames == [] then ""
    else
      var before := SessionOf(frames[..|frames| - 1]);
      if before == "" then frames[|frames| - 1].sessionId else before
  }

  function Acks(frames: seq<Frame>): seq<Effect> {
    if frames == [] then []
    else Acks(frames[..|frames| - 1]) + [AckSent(frames[|frames| - 1].seqNum, "", "ok")]
  }

  /** The effects of a seal whose buffer serialized to `data`: a write that reports an error is the last. */
  function SealEffects(env: SealEnv, data: Bytes): seq<Effect> {
    var path := StreamPath(env.id);
    var row, put := RowCreated(env.id, |data|), ObjectPut(path, data);
    var update, event := RowUpdated(env.id, "processing", path), Published(env.id, path, "mcap");
    if env.create.Fails? then []
    else if env.create.Lost? || env.put.Fails? then [row]
    else if env.put.Lost? || env.update.Fails? then [row, put]
    else if env.update.Lost? || env.publish.Fails? then [row, put, update]
    else [row, put, update, event]
  }

  ghost predicate SealOutcome(codec: Codec, window: seq<Frame>, sealed: Option<Bytes>) {
    && (sealed.None? <==> exists f :: f in window && codec.marshal(f).None?)
    && (sealed.Some? ==> IsSerialization(codec, window, sealed.value))
  }

  ghost function SealLog(window: seq<Frame>, session: string, env: SealEnv, sealed: Option<Bytes>): seq<Effect> {
    [SealStarted(window, session)] + if sealed.Some? then SealEffects(env, sealed.value) else []
  }

  ghost function FinalAck(f: Frame, env: SealEnv, sealed: Option<Bytes>): Effect {
    if sealed.Some? && Persisted(env) then AckSent(f.seqNum, env.id, "ok") else AckSent(f.seqNum, "", "error")
  }

  /**
   * Everything a stream does to the log: its acks echo the sequence numbers in order, and only a
   * stream that ends by a last frame, or is closed after at least one frame, is sealed, once,
   * with what is in the window of all its frames.
   */
  ghost predicate StreamEffects(codec: Codec, frames: seq<Frame>, end: End, env: SealEnv,
      sealed: Option<Bytes>, before: seq<Effect>, after: seq<Effect>)
    requires end.LastFrame? || end.SendBroke? ==> frames != []
  {
    var window := Window(WINDOW_NS, frames);
    match end
    case LastFrame(ok) =>
      && SealOutcome(codec, window, sealed)
      && after == before + Acks(frames[..|frames| - 1]) + SealLog(window, SessionOf(frames), env, sealed)
                  + if ok then [FinalAck(frames[|frames| - 1], env, sealed)] else []
    case Closed =>
      if frames == [] then sealed == None && after == before
      else
        && SealOutcome(codec, window, sealed)
        && after == before + Acks(frames) + SealLog(window, SessionOf(frames), env, sealed)
    case SendBroke => sealed == None && after == before + Acks(frames[..|frames| - 1])
    case _ => sealed == None && after == before + Acks(frames)
  }

  predicate Persisted(env: SealEnv) {
    env.create.Ok? && env.put.Ok? && env.update.Ok?
  }

  /** An event is preceded by the row's creation, the object and the row's final update, in this order. */
  ghost predicate WritesBeforeEvents(log: seq<Effect>) {
    forall i | 0 <= i < |log| && log[i].Published? :: WrittenBefore(log, i, log[i].id, log[i].path)
  }

  ghost predicate WrittenBefore(log: seq<Effect>, i: nat, id: string, path: string)
    requires i <= |log|
  {
    exists a, b, c :: 0 <= a < b < c < i
                      && log[a].RowCreated? && log[a].id == id
                      && log[b].ObjectPut? && log[b].key == path
                      && log[c] == RowUpdated(id, "processing", path)
  }

  lemma WrittenBeforeShifts(log: seq<Effect>, all: seq<Effect>, n: nat, i: nat, id: string, path: string)
    requires i <= |log| && n + |log| <= |all| && all[n..n + |log|] == log
    requires WrittenBefore(log, i, id, path)
    ensures WrittenBefore(all, n + i, id, path)
  {
    var a, b, c :| 0 <= a < b < c < i
                   && log[a].RowCreated? && log[a].id == id
                   && log[b].ObjectPut? && log[b].key == path
                   && log[c] == RowUpdated(id, "processing", path);
    assert all[n + a] == log[a] && all[n + b] == log[b] && all[n + c] == log[c];
  }

  lemma AppendKeepsOrder(log: seq<Effect>, tail: seq<Effect>)
    requires WritesBeforeEvents(log) && WritesBeforeEvents(tail)
    ensures WritesBeforeEvents(log + tail)
  {
    hide WrittenBefore;
    var all := log + tail;
    assert all[0..0 + |log|] == log && all[|log|..|log| + |tail|] == tail;
    forall i | 0 <= i < |all| && all[i].Published? ensures WrittenBefore(all, i, all[i].id, all[i].path) {
      if i < |log| {
        WrittenBeforeShifts(log, all, 0, i, log[i].id, log[i].path);
      } else {
        var k := i - |log|;
        assert all[i] == tail[k];
        WrittenBeforeShifts(tail, all, |log|, k, tail[k].id, tail[k].path);
      }
    }
  }

  lemma SealOrder(env: SealEnv, data: Bytes)
    ensures WritesBeforeEvents(SealEffects(env, data))
  {
    var e := SealEffects(env, data);
    forall i | 0 <= i < |e| && e[i].Published? ensures WrittenBefore(e, i, e[i].id, e[i].path) {
      assert i == 3;
      assert e[0].RowCreated? && e[1].ObjectPut? && e[2].RowUpdated?;
    }
  }

  lemma LenIsZeroIff(frames: seq<Frame>)
    ensures Window(WINDOW_NS, frames) == [] <==> frames == []
  {
    if frames != [] {
      var init, last := frames[..|frames| - 1], frames[|frames| - 1];
      assert frames == init + [last];
      NewestSurvives(WINDOW_NS, init, last);
    }
  }

  lemma OneMoreFrame(frames: seq<Frame>, f: Frame)
    ensures SessionOf(frames + [f]) == if SessionOf(frames) == "" then f.sessionId else SessionOf(frames)
    ensures Acks(frames + [f]) == Acks(frames) + [AckSent(f.seqNum, "", "ok")]
    ensures (frames + [f])[..|frames|] == frames
  {
    assert (frames + [f])[..|frames|] == frames;
  }

  function Prefixed(before: seq<Frame>, rest: (seq<Frame>, End)): (seq<Frame>, End) {
    (before + rest.0, rest.1)
  }

  lemma ConsumedStart(script: seq<Event>)
    ensures Consumed(script) == Prefixed([], Consumed(script[0..]))
    ensures SessionOf([]) == "" && Acks([]) == []
  {
    assert script[0..] == script;
    assert [] + Consumed(script).0 == Consumed(script).0;
  }

  lemma ConsumedEnd(script: seq<Event>, before: seq<Frame>)
    ensures Prefixed(before, Consumed(script[|script|..])) == (before, Waiting)
  {
    assert before + [] == before;
  }

  /** What the next event does to the frames consumed so far. */
  lemma ConsumedStep(script: seq<Event>, i: nat, before: seq<Frame>)
    requires i < |script|
    ensures Prefixed(before, Consumed(script[i..])) ==
            match script[i]
            case Received(f, ok) =>
              if f.isLast then (before + [f], LastFrame(ok))
              else if !ok then (before + [f], SendBroke)
              else Prefixed(before + [f], Consumed(script[i + 1..]))
            case RecvFailed => (before, RecvBroke)
            case _ => (before, Closed)
  {
    assert script[i..][0] == script[i] && script[i..][1..] == script[i + 1..];
    assert before + [] == before;
    if script[i].Received? {
      var f, rest := script[i].frame, Consumed(script[i + 1..]).0;
      assert before + ([f] + rest) == before + [f] + rest;
    }
  }

  // ---- the server ----

  /** The row table after a seal, given what the buffer serialized to, if it did. */
  function RowsAfter(rows: map<string, Row>, env: SealEnv, sealed: Option<Bytes>, session: string): map<string, Row> {
    if sealed.None? || env.create.Fails? then rows
    else
      var path := if env.create.Ok? && env.put.Ok? && !env.update.Fails? then Some(StreamPath(env.id)) else None;
      rows[env.id := Row(StreamFile(session, env.nanos), "mcap", |sealed.value|, "processing", path, session)]
  }

  function ObjectsAfter(objects: map<string, Bytes>, env: SealEnv, sealed: Option<Bytes>): map<string, Bytes> {
    if sealed.None? || !env.create.Ok? || env.put.Fails? then objects else objects[StreamPath(env.id) := sealed.value]
  }

  class StreamServer {
    var rows: map<string, Row>
    var objects: map<string, Bytes>
    var log: seq<Effect>

    constructor ()
      ensures rows == map[] && objects == map[] && log == []
    {
      rows, objects, log := map[], map[], [];
    }

    /** Insert the row, put the object, update the row, publish; stops at the first failure. */
    method Persist(data: Bytes, session: string, env: SealEnv) returns (r: SealResult)
      requires env.id !in rows
      modifies this
      ensures log == old(log) + SealEffects(env, data)
      ensures r == if Persisted(env) then Sealed(env.id) else SealFailed
      ensures rows == RowsAfter(old(rows), env, Some(data), session) &&
              objects == ObjectsAfter(old(objects), env, Some(data))
    {
      hide StreamFile, StreamPath;
      if env.create.Fails? {
        return SealFailed;
      }
      rows := rows[env.id := Row(StreamFile(session, env.nanos), "mcap", |data|, "processing", None, session)];
      log := log + [RowCreated(env.id, |data|)];
      var path := StreamPath(env.id);
      if env.create.Lost? || env.put.Fails? {
        return SealFailed;
      }
      objects := objects[path := data];
      log := log + [ObjectPut(path, data)];
      if env.put.Lost? || env.update.Fails? {
        return SealFailed;
      }
      rows := rows[env.id := rows[env.id].(status := "processing", storagePath := Some(path))];
      log := log + [RowUpdated(env.id, "processing", path)];
      if env.update.Lost? {
        return SealFailed;
      }
      if !env.publish.Fails? {
        log := log + [Published(env.id, path, "mcap")];
      }
      r := Sealed(env.id);
    }

    /** Serialize, reset the buffer, then write; a failed publish does not fail the seal. */
    method SealEpisode(codec: Codec, buffer: FrameBuffer, session: string, env: SealEnv)
      returns (r: SealResult, ghost data: Option<Bytes>)
      requires buffer.Valid() && env.id !in rows
      modifies this, buffer
      ensures buffer.Valid() && buffer.frames == old(buffer.frames)
      ensures data.None? <==> exists f :: f in old(buffer.Contents()) && codec.marshal(f).None?
      ensures data.Some? ==> IsSerialization(codec, old(buffer.Contents()), data.value)
      ensures log == old(log) + [SealStarted(old(buffer.Contents()),
          session)] + if data.Some? then SealEffects(env, data.value) else []
      ensures r == if data.Some? && Persisted(env) then Sealed(env.id) else SealFailed
      ensures rows == RowsAfter(old(rows), env, data, session) && objects == ObjectsAfter(old(objects), env, data)
    {
      hide StreamFile, SealEffects, StreamPath;
      log := log + [SealStarted(buffer.frames[..buffer.n], session)];
      var serialized := Serialize(codec, buffer);
      data := serialized;
      if serialized.None? {
        return SealFailed, data;
      }
      buffer.Reset();
      r := Persist(serialized.value, session, env);
    }

    /** On inactivity, end of stream or cancel: seal what is pending, if anything. */
    method SealOnClose(codec: Codec, buffer: FrameBuffer, session: string, env: SealEnv)
        returns (ghost sealed: Option<Bytes>)
      requires buffer.Valid() && buffer.maxAge == WINDOW_NS && env.id !in rows
      modifies this, buffer
      ensures var frames := old(buffer.history);
              if frames == [] then sealed == None && log == old(log)
              else
                && SealOutcome(codec, Window(WINDOW_NS, frames), sealed)
                && log == old(log) + SealLog(Window(WINDOW_NS, frames), session, env, sealed)
      ensures rows == RowsAfter(old(rows), env, sealed, session) && objects == ObjectsAfter(old(objects), env, sealed)
    {
      hide Survives, IsSerialization, SealEffects;
      sealed := None;
      LenIsZeroIff(buffer.history);
      var size := buffer.Len();
      if size > 0 {
        var r, data := SealEpisode(codec, buffer, session, env);
        sealed := data;
      }
    }

    /** On a last frame: seal, then ack with the episode's id or an error. */
    method SealAndAck(codec: Codec, buffer: FrameBuffer, session: string, env: SealEnv, frame: Frame, sendOk: bool)
      returns (ghost sealed: Option<Bytes>)
      requires buffer.Valid() && buffer.maxAge == WINDOW_NS && env.id !in rows
      modifies this, buffer
      ensures var window := Window(WINDOW_NS, old(buffer.history));
              && SealOutcome(codec, window, sealed)
              && log == old(log) + SealLog(window, session, env, sealed)
                         + if sendOk then [FinalAck(frame, env, sealed)] else []
      ensures rows == RowsAfter(old(rows), env, sealed, session) && objects == ObjectsAfter(old(objects), env, sealed)
    {
      hide Window, Survives, IsSerialization, SealEffects, RowsAfter, ObjectsAfter, StreamFile;
      var r, data := SealEpisode(codec, buffer, session, env);
      sealed := data;
      if sendOk {
        var ack := if r.Sealed? then AckSent(frame.seqNum, r.episodeId, "ok") else AckSent(frame.seqNum, "", "error");
        log := log + [ack];
      }
    }

    /**
     * The event loop. The acks of the frames before the last come first, then at most one seal
     * of everything still in the window, then the ack of a last frame.
     */
    method OpenStream(codec: Codec, script: seq<Event>, env: SealEnv) returns (end: End, ghost sealed: Option<Bytes>)
      requires env.id !in rows
      modifies this
      ensures end == Consumed(script).1
      ensures StreamEffects(codec, Consumed(script).0, end, env, sealed, old(log), log)
      ensures rows == RowsAfter(old(rows), env, sealed, SessionOf(Consumed(script).0))
      ensures objects == ObjectsAfter(old(objects), env, sealed)
    {
      hide Window, Survives, IsSerialization, Acks, SessionOf, Consumed, StreamFile, SealEffects;
      var buffer := new FrameBuffer(WINDOW_NS);
      var session := "";
      sealed := None;
      var i := 0;
      ConsumedStart(script);
      while i < |script|
        invariant i <= |script|
        invariant buffer.Valid() && fresh(buffer) && fresh(buffer.frames) && buffer.maxAge == WINDOW_NS
        invariant session == SessionOf(buffer.history)
        invariant log == old(log) + Acks(buffer.history)
        invariant sealed == None && rows == old(rows) && objects == old(objects)
        invariant Consumed(script) == Prefixed(buffer.history, Consumed(script[i..]))
      {
        ConsumedStep(script, i, buffer.history);
        match script[i]
        case Inactivity | EndOfStream | Canceled =>
          sealed := SealOnClose(codec, buffer, session, env);
          return Closed, sealed;
        case RecvFailed =>
          return RecvBroke, sealed;
        case Received(frame, sendOk) =>
          OneMoreFrame(buffer.history, frame);
          if session == "" {
            session := frame.sessionId;
          }
          buffer.Add(frame);
          if frame.isLast {
            sealed := SealAndAck(codec, buffer, session, env, frame, sendOk);
            return LastFrame(sendOk), sealed;
          }
          if !sendOk {
            return SendBroke, sealed;
          }
          log := log + [AckSent(frame.seqNum, "", "ok")];
          i := i + 1;
      }
      ConsumedEnd(script, buffer.history);
      end := Waiting;
    }
  }

  // ---- what follows for every stream ----

  function SealCount(log: seq<Effect>): nat {
    if log == [] then 0 else SealCount(log[..|log| - 1]) + if log[|log| - 1].SealStarted? then 1 else 0
  }

  function AckedSeqs(log: seq<Effect>): seq<uint64> {
    if log == [] then []
    else AckedSeqs(log[..|log| - 1]) + if log[|log| - 1].AckSent? then [log[|log| - 1].seqNum] else []
  }

  function SeqNums(frames: seq<Frame>): seq<uint64> {
    if frames == [] then [] else SeqNums(frames[..|frames| - 1]) + [frames[|frames| - 1].seqNum]
  }

  lemma {:induction false} CountsConcat(a: seq<Effect>, b: seq<Effect>)
    ensures SealCount(a + b) == SealCount(a) + SealCount(b)
    ensures AckedSeqs(a + b) == AckedSeqs(a) + AckedSeqs(b)
  {
    if b == [] {
      assert a + b == a;
    } else {
      assert (a + b)[..|a + b| - 1] == a + b[..|b| - 1];
      CountsConcat(a, b[..|b| - 1]);
    }
  }

  lemma {:induction false} AcksEcho(frames: seq<Frame>)
    ensures SealCount(Acks(frames)) == 0 && AckedSeqs(Acks(frames)) == SeqNums(frames)
    ensures WritesBeforeEvents(Acks(frames))
  {
    if frames != [] {
      var init, ack := Acks(frames[..|frames| - 1]), AckSent(frames[|frames| - 1].seqNum, "", "ok");
      AcksEcho(frames[..|frames| - 1]);
      CountsConcat(init, [ack]);
      assert [ack][..0] == [];
      AppendKeepsOrder(init, [ack]);
    }
  }

  lemma SealCounts(window: seq<Frame>, session: string, env: SealEnv, sealed: Option<Bytes>)
    ensures SealCount(SealLog(window, session, env, sealed)) == 1
    ensures AckedSeqs(SealLog(window, session, env, sealed)) == []
    ensures WritesBeforeEvents(SealLog(window, session, env, sealed))
  {
    var start := [SealStarted(window, session)];
    var rest := if sealed.Some? then SealEffects(env, sealed.value) else [];
    CountsConcat(start, rest);
    assert start[..0] == [];
    NoSealOrAck(rest);
    if sealed.Some? {
      SealOrder(env, sealed.value);
    }
    AppendKeepsOrder(start, rest);
  }

  lemma {:induction false} NoSealOrAck(log: seq<Effect>)
    requires forall e | e in log :: !e.SealStarted? && !e.AckSent?
    ensures SealCount(log) == 0 && AckedSeqs(log) == []
  {
    if log != [] {
      NoSealOrAck(log[..|log| - 1]);
    }
  }

  lemma OneAck(f: Frame, env: SealEnv, sealed: Option<Bytes>)
    ensures var log := [FinalAck(f, env, sealed)];
            SealCount(log) == 0 && AckedSeqs(log) == [f.seqNum] && WritesBeforeEvents(log)
  {
    assert [FinalAck(f, env, sealed)][..0] == [];
  }

  /** The stream ended in a way that seals what is pending. */
  predicate Seals(frames: seq<Frame>, end: End) {
    end.LastFrame? || (end.Closed? && frames != [])
  }

  /** The frames whose ack was sent: all of them, unless sending the last one failed. */
  function AckedFrames(frames: seq<Frame>, end: End): seq<Frame> {
    if frames != [] && (end.SendBroke? || (end.LastFrame? && !end.sendOk)) then frames[..|frames| - 1] else frames
  }

  /**
   * Every stream makes at most one seal attempt, exactly one if it ends by a last frame, or by
   * end of stream, cancel or inactivity after at least one frame; the acks echo the received
   * sequence numbers in order; an event is published only after the row, the object and the
   * row's final update were written.
   */
  lemma StreamLaws(codec: Codec, frames: seq<Frame>, end: End, env: SealEnv, sealed: Option<Bytes>,
      before: seq<Effect>, after: seq<Effect>)
    requires (end.LastFrame? || end.SendBroke? ==> frames != []) && WritesBeforeEvents(before)
    requires StreamEffects(codec, frames, end, env, sealed, before, after)
    ensures SealCount(after) == SealCount(before) + if Seals(frames, end) then 1 else 0
    ensures AckedSeqs(after) == AckedSeqs(before) + SeqNums(AckedFrames(frames, end))
    ensures WritesBeforeEvents(after)
  {
    hide WritesBeforeEvents, SealOutcome, Window, SealLog, FinalAck, SealCount, AckedSeqs, Acks, SessionOf;
    var plain := if end.LastFrame? || end.SendBroke? then frames[..|frames| - 1] else frames;
    var seal := if Seals(frames, end) then SealLog(Window(WINDOW_NS, frames), SessionOf(frames), env, sealed) else [];
    var last := if end.LastFrame? && end.sendOk then [FinalAck(frames[|frames| - 1], env, sealed)] else [];
    assert after == before + Acks(plain) + seal + last by {
      NoAcks();
    }
    AcksEcho(plain);
    NothingLogged();
    if Seals(frames, end) {
      SealCounts(Window(WINDOW_NS, frames), SessionOf(frames), env, sealed);
    }
    if last != [] {
      OneAck(frames[|frames| - 1], env, sealed);
    }
    ThreeParts(before, Acks(plain), seal, last);
  }

  lemma NoAcks()
    ensures Acks([]) == []
  {
  }

  lemma NothingLogged()
    ensures SealCount([]) == 0 && AckedSeqs([]) == [] && WritesBeforeEvents([])
  {
  }

  lemma ThreeParts(before: seq<Effect>, a: seq<Effect>, b: seq<Effect>, c: seq<Effect>)
    requires WritesBeforeEvents(before) && WritesBeforeEvents(a) && WritesBeforeEvents(b) && WritesBeforeEvents(c)
    ensures SealCount(before + a + b + c) == SealCount(before) + SealCount(a) + SealCount(b) + SealCount(c)
    ensures AckedSeqs(before + a + b + c) == AckedSeqs(before) + AckedSeqs(a) + AckedSeqs(b) + AckedSeqs(c)
    ensures WritesBeforeEvents(before + a + b + c)
  {
    CountsConcat(before, a);
    CountsConcat(before + a, b);
    CountsConcat(before + a + b, c);
    AppendKeepsOrder(before, a);
    AppendKeepsOrder(before + a, b);
    AppendKeepsOrder(before + a + b, c);
  }

  /**
   * What a sealed stream leaves behind: the stored bytes parse, to the end, to the frames of
   * the stream that are within the window of every later timestamp, sorted by sequence
   * number; the last frame received is always among them.
   */
  lemma SealedBytesAreTheWindow(codec: Codec, frames: seq<Frame>, sealed: Option<Bytes>)
    requires codec.Lawful() && frames != [] && sealed.Some?
    requires SealOutcome(codec, Window(WINDOW_NS, frames), sealed)
    ensures Parse(codec, sealed.value).Some?
    ensures var stored := Parse(codec, sealed.value).value;
            && IsSortedCopy(Window(WINDOW_NS, frames), stored)
            && frames[|frames| - 1] in stored
  {
    var init, last := frames[..|frames| - 1], frames[|frames| - 1];
    assert frames == init + [last];
    SerializationRoundTrip(codec, Window(WINDOW_NS, frames), sealed.value);
    NewestSurvives(WINDOW_NS, init, last);
    assert last in multiset(Window(WINDOW_NS, frames));
    assert last in multiset(Parse(codec, sealed.value).value);
  }
}
