/**
 * What a stream leaves in the row table and the object store, and what its acks and events say
 * about it: read off the stores and the script alone, whichever write failed or got lost.
 */
module StreamResults {
  import opened Bytes
  import opened Options
  import opened FrameBuffers
  import opened FrameCodec
  import opened StreamServers

  /** The fields of a server at one moment. */
  datatype Stores = Stores(rows: map<string, Row>, objects: map<string, Bytes>, log: seq<Effect>)

  /** What `OpenStream` ensures of the fields before and after. */
  ghost predicate Streams(codec: Codec, script: seq<Event>, env: SealEnv, sealed: Option<Bytes>, s: Stores, t: Stores) {
    var (frames, end) := Consumed(script);
    && StreamEffects(codec, frames, end, env, sealed, s.log, t.log)
    && t.rows == RowsAfter(s.rows, env, sealed, SessionOf(frames))
    && t.objects == ObjectsAfter(s.objects, env, sealed)
  }

  /** The bytes parse, to the end, to the frames in the window, sorted; the last one received is among them. */
  ghost predicate HoldWindow(codec: Codec, frames: seq<Frame>, data: Bytes) {
    && frames != [] && Parse(codec, data).Some?
    && IsSortedCopy(Window(WINDOW_NS, frames), Parse(codec, data).value)
    && frames[|frames| - 1] in Parse(codec, data).value
  }

  // ---- which frames are received, and how a stream ends ----

  /** The event lets the stream go on. */
  predicate GoesOn(e: Event) {
    e.Received? && !e.frame.isLast && e.sendOk
  }

  /**
   * A stream receives a frame at a time up to the first event that does not let it go on: a last
   * frame, an ack that cannot be sent, a failed receive, or the end.
   */
  lemma {:induction false} ConsumedMeans(script: seq<Event>)
    ensures var (frames, end) := Consumed(script);
            var n := |frames|;
            && n <= |script|
            && (forall i | 0 <= i < n :: script[i].Received? && script[i].frame == frames[i])
            && (forall i | 0 <= i < n - 1 :: GoesOn(script[i]))
            && (match end
                case LastFrame(ok) => n > 0 && frames[n - 1].isLast && script[n - 1].sendOk == ok
                case SendBroke => n > 0 && !frames[n - 1].isLast && !script[n - 1].sendOk
                case _ =>
                  && (n > 0 ==> GoesOn(script[n - 1]))
                  && (end.Waiting? <==> n == |script|)
                  && (end.RecvBroke? <==> n < |script| && script[n].RecvFailed?)
                  && (end.Closed? ==> script[n].EndOfStream? || script[n].Canceled? || script[n].Inactivity?))
  {
    if script != [] && GoesOn(script[0]) {
      var rest := script[1..];
      ConsumedMeans(rest);
      assert forall i | 0 <= i < |rest| :: rest[i] == script[i + 1];
      var (frames, end) := Consumed(script);
      assert frames == [script[0].frame] + Consumed(rest).0;
    }
  }

  /** The session of a stream is that of its first frame that has one. */
  lemma {:induction false} SessionIsFirst(frames: seq<Frame>)
    ensures if SessionOf(frames) == "" then forall i | 0 <= i < |frames| :: frames[i].sessionId == ""
            else exists i | 0 <= i < |frames| :: frames[i].sessionId == SessionOf(frames)
                                                 && forall j | 0 <= j < i :: frames[j].sessionId == ""
  {
    if frames != [] {
      var before := frames[..|frames| - 1];
      SessionIsFirst(before);
      if SessionOf(before) != "" {
        var i :| 0 <= i < |before| && before[i].sessionId == SessionOf(before)
                 && forall j | 0 <= j < i :: before[j].sessionId == "";
        assert frames[i].sessionId == SessionOf(frames) && forall j | 0 <= j < i :: frames[j] == before[j];
      } else {
        assert forall j | 0 <= j < |before| :: frames[j] == before[j];
      }
    }
  }

  // ---- what a stream logs ----

  ghost function SealPart(frames: seq<Frame>, end: End, env: SealEnv, sealed: Option<Bytes>): seq<Effect> {
    if Seals(frames, end) then SealLog(Window(WINDOW_NS, frames), SessionOf(frames), env, sealed) else []
  }

  ghost function LastPart(frames: seq<Frame>, end: End, env: SealEnv, sealed: Option<Bytes>): seq<Effect>
    requires end.LastFrame? ==> frames != []
  {
    if end.LastFrame? && end.sendOk then [FinalAck(frames[|frames| - 1], env, sealed)] else []
  }

  /** The acks before the last event, what the seal did, and the ack of a last frame. */
  ghost function News(frames: seq<Frame>, end: End, env: SealEnv, sealed: Option<Bytes>): seq<Effect>
    requires end.LastFrame? || end.SendBroke? ==> frames != []
  {
    Acks(if end.LastFrame? || end.SendBroke? then frames[..|frames| - 1] else frames)
    + SealPart(frames, end, env, sealed) + LastPart(frames, end, env, sealed)
  }

  lemma LoggedNews(codec: Codec, frames: seq<Frame>, end: End, env: SealEnv, sealed: Option<Bytes>,
      before: seq<Effect>, after: seq<Effect>)
    requires (end.LastFrame? || end.SendBroke? ==> frames != [])
    requires StreamEffects(codec, frames, end, env, sealed, before, after)
    ensures after == before + News(frames, end, env, sealed)
    ensures sealed.Some? ==> frames != [] && Seals(frames, end)
    ensures Seals(frames, end) ==> SealOutcome(codec, Window(WINDOW_NS, frames), sealed)
  {
    hide Window, SealLog, FinalAck, SessionOf, SealOutcome;
    if frames == [] {
      NoAcks();
    }
  }

  lemma {:induction false} PlainAcks(frames: seq<Frame>)
    ensures forall e | e in Acks(frames) :: e.AckSent? && e.episodeId == "" && e.status == "ok"
  {
    if frames != [] {
      PlainAcks(frames[..|frames| - 1]);
    }
  }

  /** Every write of a seal went well, and was seen to. */
  predicate AllOk(env: SealEnv) {
    env.create == Ok && env.put == Ok && env.update == Ok
  }

  lemma SealNews(env: SealEnv, data: Bytes)
    ensures forall e | e in SealEffects(env, data) ::
              !e.AckSent? && (e.Published? ==> AllOk(env) && e == Published(env.id, StreamPath(env.id), "mcap"))
    ensures AllOk(env) && env.publish != Fails ==>
              Published(env.id, StreamPath(env.id), "mcap") in SealEffects(env, data)
  {
    hide StreamPath;
    var effects := SealEffects(env, data);
    if AllOk(env) && env.publish != Fails {
      assert effects[3] == Published(env.id, StreamPath(env.id), "mcap");
    }
  }

  lemma SealPartNews(frames: seq<Frame>, end: End, env: SealEnv, sealed: Option<Bytes>)
    ensures var event, seal := Published(env.id, StreamPath(env.id), "mcap"), SealPart(frames, end, env, sealed);
            && (forall e | e in seal :: !e.AckSent? && (e.Published? ==> e == event))
            && (event in seal <==> Seals(frames, end) && sealed.Some? && AllOk(env) && env.publish != Fails)
  {
    hide SealEffects, StreamPath, Window, SessionOf, AllOk;
    if sealed.Some? {
      SealNews(env, sealed.value);
      assert forall e | e in SealPart(frames, end, env, sealed) ::
               e.SealStarted? || e in SealEffects(env, sealed.value);
      NoEventUnless(env, sealed.value);
    }
  }

  lemma NoEventUnless(env: SealEnv, data: Bytes)
    ensures Published(env.id, StreamPath(env.id), "mcap") in SealEffects(env, data) ==>
              AllOk(env) && env.publish != Fails
  {
    hide StreamPath;
  }

  /** The events among what a stream logs. */
  lemma EventsAmongNews(frames: seq<Frame>, end: End, env: SealEnv, sealed: Option<Bytes>)
    requires end.LastFrame? || end.SendBroke? ==> frames != []
    ensures var event, news := Published(env.id, StreamPath(env.id), "mcap"), News(frames, end, env, sealed);
            && (forall e | e in news && e.Published? :: e == event)
            && (event in news <==> Seals(frames, end) && sealed.Some? && AllOk(env) && env.publish != Fails)
  {
    hide Acks, StreamPath, SealPart, AllOk, Seals;
    PlainAcks(if end.LastFrame? || end.SendBroke? then frames[..|frames| - 1] else frames);
    SealPartNews(frames, end, env, sealed);
  }

  /** The acks among what a stream logs. */
  lemma AcksAmongNews(frames: seq<Frame>, end: End, env: SealEnv, sealed: Option<Bytes>)
    requires end.LastFrame? || end.SendBroke? ==> frames != []
    ensures var news := News(frames, end, env, sealed);
            && (forall i | 0 <= i < |news| && news[i].AckSent? && !(end.LastFrame? && i == |news| - 1) ::
                  news[i].episodeId == "" && news[i].status == "ok")
            && (end.LastFrame? && end.sendOk ==>
                  news != [] && news[|news| - 1] == FinalAck(frames[|frames| - 1], env, sealed))
  {
    hide Acks, StreamPath, SealPart, AllOk, Seals, FinalAck;
    var plain := Acks(if end.LastFrame? || end.SendBroke? then frames[..|frames| - 1] else frames);
    PlainAcks(if end.LastFrame? || end.SendBroke? then frames[..|frames| - 1] else frames);
    SealPartNews(frames, end, env, sealed);
    OnlyTheLastDiffers(plain, SealPart(frames, end, env, sealed), LastPart(frames, end, env, sealed));
  }

  lemma OnlyTheLastDiffers(plain: seq<Effect>, seal: seq<Effect>, last: seq<Effect>)
    requires forall e | e in plain :: e.AckSent? ==> e.episodeId == "" && e.status == "ok"
    requires |last| <= 1 && forall e | e in seal :: !e.AckSent?
    ensures var news := plain + seal + last;
            && (forall i | 0 <= i < |news| && news[i].AckSent? && (last == [] || i < |news| - 1) ::
                  news[i].episodeId == "" && news[i].status == "ok")
            && (last != [] ==> news[|news| - 1] == last[0])
  {
    var news := plain + seal + last;
    assert forall i | 0 <= i < |plain| :: news[i] == plain[i] && news[i] in plain;
    assert forall i | 0 <= i < |seal| :: news[|plain| + i] == seal[i] && !seal[i].AckSent?;
    assert forall i | |plain| <= i < |plain| + |seal| :: news[i] == seal[i - |plain|];
  }

  // ---- the laws ----

  /** Nothing but the new episode's row and its object changes. */
  ghost predicate OthersStay(id: string, s: Stores, t: Stores) {
    && (forall k | k != StreamPath(id) :: (k in t.objects <==> k in s.objects) &&
                                          (k in s.objects ==> t.objects[k] == s.objects[k]))
    && (forall k | k != id :: (k in t.rows <==> k in s.rows) && (k in s.rows ==> t.rows[k] == s.rows[k]))
  }

  /** A row that names an object is complete: the object is there, is the window, and has the size the row says. */
  ghost predicate Complete(codec: Codec, frames: seq<Frame>, id: string, t: Stores) {
    && id in t.rows && t.rows[id].storagePath == Some(StreamPath(id))
    && StreamPath(id) in t.objects && HoldWindow(codec, frames, t.objects[StreamPath(id)])
    && t.rows[id].sizeBytes == |t.objects[StreamPath(id)]|
  }

  /**
   * Whatever a script does and whichever write fails or gets lost: only the new episode's row and
   * object may change. An object stored holds exactly the window of the frames received. A row
   * inserted is that of the stream's session, and if it names an object it is complete. A row is
   * complete whenever an event is published for it, and every event of the stream is for that row.
   */
  lemma StoredIsTheWindow(
      codec: Codec, script: seq<Event>, env: SealEnv, sealed: Option<Bytes>, s: Stores, t: Stores)
    requires codec.Lawful() && env.id !in s.rows && Streams(codec, script, env, sealed, s, t)
    ensures var frames := Consumed(script).0;
            && OthersStay(env.id, s, t)
            && (t.objects == s.objects || (StreamPath(env.id) in t.objects
                                           && HoldWindow(codec, frames, t.objects[StreamPath(env.id)])))
            && (env.id in t.rows ==>
                  var row := t.rows[env.id];
                  && row.filename == StreamFile(SessionOf(frames), env.nanos) && row.format == "mcap"
                  && row.status == "processing" && row.recordingSession == SessionOf(frames)
                  && (row.storagePath.Some? ==> Complete(codec, frames, env.id, t)))
            && |s.log| <= |t.log| && t.log[..|s.log|] == s.log
            && (forall i | |s.log| <= i < |t.log| && t.log[i].Published? ::
                  && t.log[i] == Published(env.id, StreamPath(env.id), "mcap")
                  && Complete(codec, frames, env.id, t))
  {
    hide Consumed, StreamPath, StreamFile, News, HoldWindow, Window, SealOutcome, Seals, StreamEffects;
    var (frames, end) := Consumed(script);
    LoggedNews(codec, frames, end, env, sealed, s.log, t.log);
    EventsAmongNews(frames, end, env, sealed);
    if sealed.Some? {
      SealedHoldWindow(codec, frames, sealed);
    }
    var news := News(frames, end, env, sealed);
    forall i | |s.log| <= i < |t.log| && t.log[i].Published?
      ensures t.log[i] == Published(env.id, StreamPath(env.id), "mcap") && Complete(codec, frames, env.id, t)
    {
      assert t.log[i] == news[i - |s.log|] && t.log[i] in news;
    }
  }

  lemma SealedHoldWindow(codec: Codec, frames: seq<Frame>, sealed: Option<Bytes>)
    requires codec.Lawful() && frames != [] && sealed.Some?
    requires SealOutcome(codec, Window(WINDOW_NS, frames), sealed)
    ensures HoldWindow(codec, frames, sealed.value)
  {
    SealedBytesAreTheWindow(codec, frames, sealed);
  }

  /** The frames of a stream are sealed: it ended by a last frame or was closed, and all in the window marshal. */
  ghost predicate Sealable(codec: Codec, script: seq<Event>) {
    var (frames, end) := Consumed(script);
    Seals(frames, end) && forall f | f in Window(WINDOW_NS, frames) :: codec.marshal(f).Some?
  }

  /** A stream publishes an event exactly if it is sealed, no write fails or gets lost, and the event goes out. */
  lemma PublishesIff(codec: Codec, script: seq<Event>, env: SealEnv, sealed: Option<Bytes>, s: Stores, t: Stores)
    requires Streams(codec, script, env, sealed, s, t)
    ensures |s.log| <= |t.log|
    ensures (exists i | |s.log| <= i < |t.log| :: t.log[i].Published?) <==>
            Sealable(codec, script) && AllOk(env) && env.publish != Fails
  {
    hide Consumed, StreamPath, News, Window, Seals, StreamEffects;
    var (frames, end) := Consumed(script);
    LoggedNews(codec, frames, end, env, sealed, s.log, t.log);
    EventsAmongNews(frames, end, env, sealed);
    var news, event := News(frames, end, env, sealed), Published(env.id, StreamPath(env.id), "mcap");
    assert forall i | |s.log| <= i < |t.log| :: t.log[i] == news[i - |s.log|] && t.log[i] in news;
    if event in news {
      var k :| 0 <= k < |news| && news[k] == event;
      assert t.log[|s.log| + k].Published?;
    }
  }

  /**
   * The acks. Every frame but a last one is acknowledged with "ok" and no episode. A last frame is
   * acknowledged with the new episode's id and "ok" exactly if it is sealed and no write fails or
   * gets lost, and then the row is complete; otherwise with "error" and no episode.
   */
  lemma AcksTellTheOutcome(
      codec: Codec, script: seq<Event>, env: SealEnv, sealed: Option<Bytes>, s: Stores, t: Stores)
    requires codec.Lawful() && env.id !in s.rows && Streams(codec, script, env, sealed, s, t)
    ensures var (frames, end) := Consumed(script); var n := |t.log| - 1;
            && (forall i | |s.log| <= i < |t.log| && t.log[i].AckSent? && !(end.LastFrame? && i == n) ::
                  t.log[i].episodeId == "" && t.log[i].status == "ok")
            && (end.LastFrame? && end.sendOk ==>
                  var saved := Sealable(codec, script) && AllOk(env);
                  && n >= |s.log|
                  && t.log[n] == AckSent(frames[|frames| - 1].seqNum, if saved then env.id else "",
                                         if saved then "ok" else "error")
                  && (saved ==> Complete(codec, frames, env.id, t)))
  {
    hide Consumed, StreamPath, StreamFile, News, HoldWindow, Window, StreamEffects;
    var (frames, end) := Consumed(script);
    LoggedNews(codec, frames, end, env, sealed, s.log, t.log);
    AcksAmongNews(frames, end, env, sealed);
    if sealed.Some? {
      SealedHoldWindow(codec, frames, sealed);
    }
    var news := News(frames, end, env, sealed);
    assert forall i | |s.log| <= i < |t.log| :: t.log[i] == news[i - |s.log|];
  }

  /** The log tells the truth: what it says was stored, inserted or updated stands at the end. */
  ghost predicate Stands(e: Effect, frames: seq<Frame>, t: Stores) {
    match e
    case SealStarted(window, session) => window == Window(WINDOW_NS, frames) && session == SessionOf(frames)
    case RowCreated(id, sizeBytes) => id in t.rows && t.rows[id].sizeBytes == sizeBytes
    case ObjectPut(key, data) => key in t.objects && t.objects[key] == data
    case RowUpdated(id, status, path) =>
      id in t.rows && t.rows[id].status == status && t.rows[id].storagePath == Some(path)
    case _ => true
  }

  lemma LoggedEffectsStand(
      codec: Codec, script: seq<Event>, env: SealEnv, sealed: Option<Bytes>, s: Stores, t: Stores)
    requires env.id !in s.rows && Streams(codec, script, env, sealed, s, t)
    ensures |s.log| <= |t.log| && forall i | |s.log| <= i < |t.log| :: Stands(t.log[i], Consumed(script).0, t)
  {
    hide Consumed, StreamPath, StreamFile, Acks, Window, StreamEffects, SessionOf;
    var (frames, end) := Consumed(script);
    LoggedNews(codec, frames, end, env, sealed, s.log, t.log);
    PlainAcks(if end.LastFrame? || end.SendBroke? then frames[..|frames| - 1] else frames);
    var news := News(frames, end, env, sealed);
    assert forall i | |s.log| <= i < |t.log| :: t.log[i] == news[i - |s.log|] && t.log[i] in news;
    if sealed.Some? {
      SealEffectsStand(frames, env, sealed, s, t);
    }
  }

  lemma SealEffectsStand(frames: seq<Frame>, env: SealEnv, sealed: Option<Bytes>, s: Stores, t: Stores)
    requires sealed.Some? && t.rows == RowsAfter(s.rows, env, sealed, SessionOf(frames))
    requires t.objects == ObjectsAfter(s.objects, env, sealed)
    ensures forall e | e in SealEffects(env, sealed.value) :: Stands(e, frames, t)
  {
    hide StreamPath, StreamFile, Window, SessionOf;
  }

  /**
   * What a failure leaves: a row from the insert on, an object from the put on, and the object's path
   * in the row from the update on; a write that got lost counts, but ends the seal.
   */
  lemma LeftBehindIff(codec: Codec, script: seq<Event>, env: SealEnv, sealed: Option<Bytes>, s: Stores, t: Stores)
    requires env.id !in s.rows && StreamPath(env.id) !in s.objects && Streams(codec, script, env, sealed, s, t)
    ensures env.id in t.rows <==> Sealable(codec, script) && env.create != Fails
    ensures StreamPath(env.id) in t.objects <==> Sealable(codec, script) && env.create == Ok && env.put != Fails
    ensures env.id in t.rows ==>
              (t.rows[env.id].storagePath.Some? <==> env.create == Ok && env.put == Ok && env.update != Fails)
  {
    hide Consumed, StreamPath, StreamFile, News, Window, StreamEffects, SessionOf;
    var (frames, end) := Consumed(script);
    LoggedNews(codec, frames, end, env, sealed, s.log, t.log);
  }

  /** Streams with different episode ids never write to one object. */
  lemma StreamPathsDistinct(id: string, other: string)
    requires id != other
    ensures StreamPath(id) != StreamPath(other)
  {
    forall x: string ensures StreamPath(x)[9..|StreamPath(x)| - 11] == x {
      assert StreamPath(x) == "episodes/" + (x + "/stream.bin");
    }
  }
}
