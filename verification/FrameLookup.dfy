/**
 * Looking up the frame of a topic closest to a timestamp: the target is clamped to the file's
 * time range, then one pass over the messages keeps the closest one so far and stops at the
 * first within the tolerance.
 */
module FrameLookup {
  import opened Bytes
  import opened Options

  /**
   * A message as the reader yields it. `payload` is what its bytes deserialize to, None if that
   * raises; `image` is what decoding makes of the payload, None if that fails.
   */
  datatype Message = Message(
    topic: string, schema: Option<string>, encoding: string, logTime: int, payload: Option<Payload>)

  datatype Payload = Payload(image: Option<Bytes>)

  datatype FrameResult = FrameResult(data: Bytes, timestamp: int)

  predicate IsImageSchema(name: string) {
    name in {"sensor_msgs/msg/Image", "sensor_msgs/msg/CompressedImage",
             "sensor_msgs/Image", "sensor_msgs/CompressedImage"}
  }

  /** A message without a schema passes this test; it then fails to decode. */
  predicate Candidate(m: Message, topic: string) {
    m.topic == topic && (m.schema.Some? ==> IsImageSchema(m.schema.value))
  }

  /** Deserialized without an exception and in a known encoding. */
  predicate Deserializes(m: Message) {
    m.schema.Some? && m.encoding in {"ros1", "cdr", "ros2"} && m.payload.Some?
  }

  predicate Decodes(m: Message) {
    Deserializes(m) && m.payload.value.image.Some?
  }

  function Clamp(target: int, range: Option<(int, int)>): int {
    if range.None? then target
    else if target < range.value.0 then range.value.0
    else if target > range.value.1 then range.value.1
    else target
  }

  /** The message was logged `d` before the target or `d` after it. */
  function Diff(m: Message, target: int): (d: nat)
    ensures m.logTime == target - d || m.logTime == target + d
  {
    if m.logTime < target then target - m.logTime else m.logTime - target
  }

  predicate InRange(t: int, range: Option<(int, int)>) {
    range.Some? ==> range.value.0 <= t <= range.value.1
  }

  /** `t` is nearer to `target` than `c`: it lies strictly between `c` and the mirror image of `c`. */
  predicate Nearer(t: int, c: int, target: int) {
    c < t < 2 * target - c || 2 * target - c < t < c
  }

  /**
   * A target in the file's time range stays; any other becomes the time of the range that is nearest.
   * For a range whose start lies after its end, targets before the start become the start, all others
   * the end.
   */
  lemma ClampIsNearest(target: int, range: Option<(int, int)>)
    ensures InRange(target, range) ==> Clamp(target, range) == target
    ensures (exists t :: InRange(t, range)) ==>
              && InRange(Clamp(target, range), range)
              && forall t | InRange(t, range) :: !Nearer(t, Clamp(target, range), target)
    ensures range.Some? && range.value.0 > range.value.1 ==>
              Clamp(target, range) == if target < range.value.0 then range.value.0 else range.value.1
  {
  }

  // ---- the scan, message by message ----

  /** `best` is the index behind `best_timestamp` and `min_diff`, `frame` what is in `best_frame`. */
  datatype Scan = Scan(best: Option<nat>, frame: Option<Bytes>, stopped: bool)

  function ScanStep(s: Scan, msgs: seq<Message>, i: nat, topic: string, target: int, tolerance: int): Scan
    requires i < |msgs| && (s.best.Some? ==> s.best.value < i)
  {
    var m := msgs[i];
    if s.stopped || !Candidate(m, topic) then s
    else if s.best.None? || Diff(m, target) < Diff(msgs[s.best.value], target) then
      if !Deserializes(m) then s.(best := Some(i))
      else Scan(Some(i), m.payload.value.image, Diff(m, target) < tolerance)
    else s.(stopped := Diff(msgs[s.best.value], target) < tolerance)
  }

  function ScanTo(msgs: seq<Message>, n: nat, topic: string, target: int, tolerance: int): (s: Scan)
    requires n <= |msgs|
    ensures s.best.Some? ==> s.best.value < n && Candidate(msgs[s.best.value], topic)
  {
    if n == 0 then Scan(None, None, false)
    else ScanStep(ScanTo(msgs, n - 1, topic, target, tolerance), msgs, n - 1, topic, target, tolerance)
  }

  function Answer(msgs: seq<Message>, s: Scan): Option<FrameResult>
    requires s.best.Some? ==> s.best.value < |msgs|
  {
    if s.frame.None? || s.best.None? then None else Some(FrameResult(s.frame.value, msgs[s.best.value].logTime))
  }

  lemma {:induction false} StoppedStays(msgs: seq<Message>, n: nat, topic: string, target: int, tolerance: int)
    requires n <= |msgs| && ScanTo(msgs, n, topic, target, tolerance).stopped
    ensures ScanTo(msgs, |msgs|, topic, target, tolerance) == ScanTo(msgs, n, topic, target, tolerance)
    decreases |msgs| - n
  {
    if n < |msgs| {
      assert ScanTo(msgs, n + 1, topic, target, tolerance) == ScanTo(msgs, n, topic, target, tolerance);
      StoppedStays(msgs, n + 1, topic, target, tolerance);
    }
  }

  lemma ScanNext(msgs: seq<Message>, i: nat, topic: string, target: int, tolerance: int)
    requires i < |msgs|
    ensures ScanTo(msgs, i + 1, topic, target, tolerance) ==
            ScanStep(ScanTo(msgs, i, topic, target, tolerance), msgs, i, topic, target, tolerance)
  {
  }

  lemma ScanNothing(msgs: seq<Message>, topic: string, target: int, tolerance: int)
    ensures ScanTo(msgs, 0, topic, target, tolerance) == Scan(None, None, false)
  {
  }

  /** `extract_frame`: clamp, check that the topic has a channel, scan with early exit. */
  method ExtractFrame(msgs: seq<Message>, range: Option<(int, int)>, hasChannel: bool, topic: string,
                      target: int, tolerance: int, offset: int)
    returns (r: Option<FrameResult>)
    ensures r == if !hasChannel then None
                 else Answer(msgs, ScanTo(msgs, |msgs|, topic, Clamp(target + offset, range), tolerance))
  {
    hide IsImageSchema, Diff, ScanTo;
    var absoluteTarget := target + offset;
    if range.Some? {
      if absoluteTarget < range.value.0 {
        absoluteTarget := range.value.0;
      } else if absoluteTarget > range.value.1 {
        absoluteTarget := range.value.1;
      }
    }
    if !hasChannel {
      return None;
    }
    var bestFrame: Option<Bytes> := None;
    var bestTimestamp: Option<int> := None;
    var minDiff: Option<nat> := None;
    ghost var best: Option<nat> := None;
    ScanNothing(msgs, topic, absoluteTarget, tolerance);
    for i := 0 to |msgs|
      invariant ScanTo(msgs, i, topic, absoluteTarget, tolerance) == Scan(best, bestFrame, false)
      invariant best.None? ==> bestTimestamp.None? && minDiff.None?
      invariant best.Some? ==>
                  && bestTimestamp == Some(msgs[best.value].logTime)
                  && minDiff == Some(Diff(msgs[best.value], absoluteTarget))
    {
      ScanNext(msgs, i, topic, absoluteTarget, tolerance);
      var message := msgs[i];
      if message.topic != topic {
        continue;
      }
      if message.schema.Some? && !IsImageSchema(message.schema.value) {
        continue;
      }
      var timeDiff := Diff(message, absoluteTarget);
      if minDiff.None? || timeDiff < minDiff.value {
        minDiff := Some(timeDiff);
        bestTimestamp := Some(message.logTime);
        best := Some(i);
        if !Deserializes(message) {
          continue;
        }
        bestFrame := message.payload.value.image;
      }
      if minDiff.value < tolerance {
        StoppedStays(msgs, i + 1, topic, absoluteTarget, tolerance);
        break;
      }
    }
    if bestFrame.None? || bestTimestamp.None? {
      return None;
    }
    return Some(FrameResult(bestFrame.value, bestTimestamp.value));
  }

  function Lookup(msgs: seq<Message>, range: Option<(int, int)>, topic: string, target: int,
      tolerance: int): Option<FrameResult> {
    Answer(msgs, ScanTo(msgs, |msgs|, topic, Clamp(target, range), tolerance))
  }

  // ---- which message is selected ----

  /** The first candidate within the tolerance, or if there is none the first of the closest. */
  ghost predicate Selected(msgs: seq<Message>, topic: string, target: int, tolerance: int, i: nat) {
    && i < |msgs| && Candidate(msgs[i], topic)
    && (if Diff(msgs[i], target) < tolerance then
          forall j | 0 <= j < i && Candidate(msgs[j], topic) :: Diff(msgs[j], target) >= tolerance
        else
          forall j | 0 <= j < |msgs| && Candidate(msgs[j], topic) ::
            && Diff(msgs[j], target) >= tolerance
            && Diff(msgs[j], target) >= Diff(msgs[i], target)
            && (j < i ==> Diff(msgs[j], target) > Diff(msgs[i], target)))
  }

  ghost predicate AllDecode(msgs: seq<Message>, topic: string) {
    forall i | 0 <= i < |msgs| && Candidate(msgs[i], topic) :: Decodes(msgs[i])
  }

  ghost predicate LogOrdered(msgs: seq<Message>) {
    forall i, j | 0 <= i < j < |msgs| :: msgs[i].logTime <= msgs[j].logTime
  }

  lemma {:induction false} ScanSelects(msgs: seq<Message>, n: nat, topic: string, target: int, tolerance: int)
    requires n <= |msgs| && AllDecode(msgs, topic)
    ensures var s := ScanTo(msgs, n, topic, target, tolerance);
            && (s.best.None? ==> !s.stopped && forall j | 0 <= j < n :: !Candidate(msgs[j], topic))
            && (s.best.Some? ==> s.frame == msgs[s.best.value].payload.value.image)
            && (s.best.Some? ==> s.stopped == (Diff(msgs[s.best.value], target) < tolerance))
            && (s.stopped ==> forall j | 0 <= j < s.best.value && Candidate(msgs[j], topic) ::
                Diff(msgs[j], target) >= tolerance)
            && (s.best.Some? && !s.stopped ==> Selected(msgs[..n], topic, target, tolerance, s.best.value))
  {
    hide IsImageSchema, Candidate, Diff;
    if n > 0 {
      ScanSelects(msgs, n - 1, topic, target, tolerance);
      assert msgs[..n][..n - 1] == msgs[..n - 1];
    }
  }

  /**
   * With decodable candidates the answer is the selected message: its own bytes and its own time. It
   * is selected for the requested time itself if that is in the file's range.
   */
  lemma LookupSelects(msgs: seq<Message>, range: Option<(int, int)>, topic: string, target: int,
      tolerance: int) returns (i: nat)
    requires AllDecode(msgs, topic) && exists j :: 0 <= j < |msgs| && Candidate(msgs[j], topic)
    ensures Selected(msgs, topic, Clamp(target, range), tolerance, i)
    ensures InRange(target, range) ==> Selected(msgs, topic, target, tolerance, i)
    ensures Lookup(msgs, range, topic, target, tolerance) ==
            Some(FrameResult(msgs[i].payload.value.image.value, msgs[i].logTime))
  {
    var t := Clamp(target, range);
    ClampIsNearest(target, range);
    ScanSelects(msgs, |msgs|, topic, t, tolerance);
    assert msgs[..|msgs|] == msgs;
    i := ScanTo(msgs, |msgs|, topic, t, tolerance).best.value;
  }

  /** The message is an image of the topic, by the four schema and three encoding names known, and decodes. */
  predicate DecodesAsImage(m: Message, topic: string) {
    && m.topic == topic && m.schema.Some? && m.payload.Some? && m.payload.value.image.Some?
    && (m.encoding == "ros1" || m.encoding == "ros2" || m.encoding == "cdr")
    && (m.schema.value == "sensor_msgs/msg/Image" || m.schema.value == "sensor_msgs/msg/CompressedImage"
        || m.schema.value == "sensor_msgs/Image" || m.schema.value == "sensor_msgs/CompressedImage")
  }

  lemma {:induction false} ScanFindsImages(msgs: seq<Message>, n: nat, topic: string, target: int, tolerance: int)
    requires n <= |msgs|
    ensures var s := ScanTo(msgs, n, topic, target, tolerance);
            s.frame.Some? ==>
              exists k :: 0 <= k < n && DecodesAsImage(msgs[k], topic) && msgs[k].payload.value.image == s.frame
  {
    hide Diff;
    if n > 0 {
      ScanFindsImages(msgs, n - 1, topic, target, tolerance);
      var s := ScanTo(msgs, n, topic, target, tolerance);
      if s.frame.Some? && s.frame != ScanTo(msgs, n - 1, topic, target, tolerance).frame {
        assert DecodesAsImage(msgs[n - 1], topic);
      }
    }
  }

  /** Whatever the log holds, the bytes of an answer are those of an image of the topic. */
  lemma AnswersAreImages(msgs: seq<Message>, range: Option<(int, int)>, topic: string, target: int, tolerance: int)
    ensures var r := Lookup(msgs, range, topic, target, tolerance);
            r.Some? ==> exists k :: 0 <= k < |msgs| && DecodesAsImage(msgs[k], topic)
                                    && msgs[k].payload.value.image == Some(r.value.data)
  {
    hide ScanTo;
    ScanFindsImages(msgs, |msgs|, topic, Clamp(target, range), tolerance);
  }

  /** If the topic has messages and all are images that decode, there is an answer. */
  lemma ImagesAreFound(msgs: seq<Message>, range: Option<(int, int)>, topic: string, target: int, tolerance: int)
    requires exists j :: 0 <= j < |msgs| && msgs[j].topic == topic
    requires forall j | 0 <= j < |msgs| && msgs[j].topic == topic :: DecodesAsImage(msgs[j], topic)
    ensures Lookup(msgs, range, topic, target, tolerance).Some?
  {
    hide ScanTo, Diff, Selected;
    var j :| 0 <= j < |msgs| && msgs[j].topic == topic;
    assert Candidate(msgs[j], topic);
    var i := LookupSelects(msgs, range, topic, target, tolerance);
  }

  /** For messages in log-time order, a later target never selects an earlier message. */
  lemma SelectionIsMonotone(msgs: seq<Message>, topic: string, t: int, t': int, tolerance: int, i: nat, i': nat)
    requires LogOrdered(msgs) && t <= t'
    requires Selected(msgs, topic, t, tolerance, i) && Selected(msgs, topic, t', tolerance, i')
    ensures i <= i'
  {
  }

  lemma ClampIsMonotoneIff(range: Option<(int, int)>)
    ensures (forall t, t' | t <= t' :: Clamp(t, range) <= Clamp(t', range)) <==>
            (range.None? || range.value.0 <= range.value.1)
  {
    if range.Some? && range.value.0 > range.value.1 {
      var t, t' := range.value.0 - 1, range.value.0;
      assert Clamp(t, range) == range.value.0 && Clamp(t', range) == range.value.1;
    }
  }

  /**
   * For messages in log-time order that all decode, a larger requested timestamp never yields
   * an earlier frame, across clamping, early exit within the tolerance, and the nearest fallback.
   */
  lemma LookupIsMonotone(msgs: seq<Message>, range: Option<(int, int)>, topic: string, target: int,
      target': int, tolerance: int)
    requires LogOrdered(msgs) && AllDecode(msgs, topic) && target <= target'
    requires range.Some? ==> range.value.0 <= range.value.1
    ensures var r, r' := Lookup(msgs, range, topic, target, tolerance), Lookup(msgs, range, topic, target', tolerance);
            (r.Some? <==> r'.Some?) && (r.Some? ==> r.value.timestamp <= r'.value.timestamp)
  {
    hide IsImageSchema, Candidate, Decodes, Selected, Diff;
    if exists j :: 0 <= j < |msgs| && Candidate(msgs[j], topic) {
      var i := LookupSelects(msgs, range, topic, target, tolerance);
      var i' := LookupSelects(msgs, range, topic, target', tolerance);
      SelectionIsMonotone(msgs, topic, Clamp(target, range), Clamp(target', range), tolerance, i, i');
      if i < i' {
        assert msgs[i].logTime <= msgs[i'].logTime;
      }
    } else {
      ScanSelects(msgs, |msgs|, topic, Clamp(target, range), tolerance);
      ScanSelects(msgs, |msgs|, topic, Clamp(target', range), tolerance);
    }
  }

  // ---- messages that do not decode ----

  /** A candidate strictly closer than every candidate before it. */
  predicate Closer(msgs: seq<Message>, topic: string, target: int, i: nat) {
    && i < |msgs| && Candidate(msgs[i], topic)
    && forall j | 0 <= j < i && Candidate(msgs[j], topic) :: Diff(msgs[j], target) > Diff(msgs[i], target)
  }

  /** Some candidate up to `i` is within the tolerance. */
  predicate Near(msgs: seq<Message>, topic: string, target: int, tolerance: int, i: nat)
    requires i < |msgs|
  {
    exists j | 0 <= j <= i :: Candidate(msgs[j], topic) && Diff(msgs[j], target) < tolerance
  }

  /**
   * A candidate at which the loop breaks, if it gets there: something is within the tolerance, and
   * the candidate is not one whose failure to deserialize skips that test.
   */
  predicate Ends(msgs: seq<Message>, topic: string, target: int, tolerance: int, e: nat) {
    && e < |msgs| && Candidate(msgs[e], topic) && Near(msgs, topic, target, tolerance, e)
    && (Closer(msgs, topic, target, e) ==> Deserializes(msgs[e]))
  }

  /** The last of the ever closer candidates before the loop breaks. */
  ghost predicate Chosen(msgs: seq<Message>, topic: string, target: int, tolerance: int, i: nat) {
    && Closer(msgs, topic, target, i)
    && (forall e | 0 <= e < i :: !Ends(msgs, topic, target, tolerance, e))
    && (forall r | i < r < |msgs| && Closer(msgs, topic, target, r) ::
          exists e :: 0 <= e < r && Ends(msgs, topic, target, tolerance, e))
  }

  /** The last of the ever closer candidates among the first `n` that deserializes. */
  function Supplier(msgs: seq<Message>, topic: string, target: int, n: nat): (k: Option<nat>)
    requires n <= |msgs|
    ensures k.Some? ==> k.value < n && Closer(msgs, topic, target, k.value) && Deserializes(msgs[k.value])
    ensures forall l | (if k.Some? then k.value + 1 else 0) <= l < n ::
              !(Closer(msgs, topic, target, l) && Deserializes(msgs[l]))
  {
    if n == 0 then None
    else if Closer(msgs, topic, target, n - 1) && Deserializes(msgs[n - 1]) then Some(n - 1)
    else Supplier(msgs, topic, target, n - 1)
  }

  function ImageOf(msgs: seq<Message>, k: Option<nat>): Option<Bytes>
    requires k.Some? ==> k.value < |msgs| && Deserializes(msgs[k.value])
  {
    if k.None? then None else msgs[k.value].payload.value.image
  }

  lemma {:induction false} SupplierStays(msgs: seq<Message>, topic: string, target: int, a: nat, n: nat)
    requires a <= n <= |msgs| && forall l | a <= l < n :: !Closer(msgs, topic, target, l)
    ensures Supplier(msgs, topic, target, n) == Supplier(msgs, topic, target, a)
  {
    if a < n {
      SupplierStays(msgs, topic, target, a, n - 1);
    }
  }

  /** What the scan of the first `n` messages knows, said of the messages alone. */
  ghost predicate Tracks(msgs: seq<Message>, n: nat, topic: string, target: int, tolerance: int, s: Scan)
    requires n <= |msgs|
  {
    && (s.stopped <==> exists e :: 0 <= e < n && Ends(msgs, topic, target, tolerance, e))
    && (s.best.None? ==> s.frame.None? && forall j | 0 <= j < n :: !Candidate(msgs[j], topic))
    && (s.best.Some? ==>
          var b := s.best.value;
          && b < n && Closer(msgs, topic, target, b)
          && (forall e | 0 <= e < b :: !Ends(msgs, topic, target, tolerance, e))
          && (forall r | b < r < n && Closer(msgs, topic, target, r) ::
                exists e :: 0 <= e < r && Ends(msgs, topic, target, tolerance, e))
          && (!s.stopped ==>
                forall j | 0 <= j < n && Candidate(msgs[j], topic) :: Diff(msgs[j], target) >= Diff(msgs[b], target))
          && s.frame == ImageOf(msgs, Supplier(msgs, topic, target, b + 1)))
  }

  lemma {:induction false} ScanTracks(msgs: seq<Message>, n: nat, topic: string, target: int, tolerance: int)
    requires n <= |msgs|
    ensures Tracks(msgs, n, topic, target, tolerance, ScanTo(msgs, n, topic, target, tolerance))
  {
    hide ScanStep, Closer, Ends, Supplier, ImageOf;
    if n > 0 {
      ScanTracks(msgs, n - 1, topic, target, tolerance);
      StepTracks(msgs, n - 1, topic, target, tolerance, ScanTo(msgs, n - 1, topic, target, tolerance));
    }
  }

  lemma IdleTracks(msgs: seq<Message>, i: nat, topic: string, target: int, tolerance: int, s: Scan)
    requires i < |msgs| && Tracks(msgs, i, topic, target, tolerance, s) && (s.stopped || !Candidate(msgs[i], topic))
    ensures Tracks(msgs, i + 1, topic, target, tolerance, s)
  {
    hide IsImageSchema, Diff, Deserializes, Candidate, Near, ImageOf, Supplier;
    if s.stopped {
      var e :| 0 <= e < i && Ends(msgs, topic, target, tolerance, e);
      assert e < i + 1 && Ends(msgs, topic, target, tolerance, e);
    }
  }

  /** Before the loop breaks, the message kept is the closest so far; so the next one is closer, or it is not. */
  lemma NextMessage(msgs: seq<Message>, i: nat, topic: string, target: int, tolerance: int, s: Scan)
    requires i < |msgs| && Tracks(msgs, i, topic, target, tolerance, s) && !s.stopped && Candidate(msgs[i], topic)
    ensures Closer(msgs, topic, target, i) <==> s.best.None? || Diff(msgs[i], target) < Diff(msgs[s.best.value], target)
    ensures Near(msgs, topic, target, tolerance, i) <==>
            Diff(msgs[i], target) < tolerance || (s.best.Some? && Diff(msgs[s.best.value], target) < tolerance)
    ensures s.best.Some? ==> forall l | s.best.value < l < i :: !Closer(msgs, topic, target, l)
  {
    hide IsImageSchema, Diff, Deserializes, ImageOf, Supplier;
  }

  lemma CloserStep(msgs: seq<Message>, i: nat, topic: string, target: int, tolerance: int, s: Scan)
    requires i < |msgs| && Tracks(msgs, i, topic, target, tolerance, s) && !s.stopped && Candidate(msgs[i], topic)
    requires Closer(msgs, topic, target, i)
    ensures ScanStep(s, msgs, i, topic, target, tolerance) ==
            Scan(Some(i), if Deserializes(msgs[i]) then msgs[i].payload.value.image else s.frame,
                 Ends(msgs, topic, target, tolerance, i))
  {
    hide IsImageSchema, Candidate, Diff, Near, Supplier, ImageOf;
    NextMessage(msgs, i, topic, target, tolerance, s);
  }

  /** The frame kept is that of the last supplier so far. */
  lemma FrameSoFar(msgs: seq<Message>, i: nat, topic: string, target: int, tolerance: int, s: Scan)
    requires i < |msgs| && Tracks(msgs, i, topic, target, tolerance, s) && !s.stopped && Candidate(msgs[i], topic)
    ensures s.frame == ImageOf(msgs, Supplier(msgs, topic, target, i))
  {
    hide IsImageSchema, Candidate, Diff, Ends, Near, Deserializes, Supplier;
    NextMessage(msgs, i, topic, target, tolerance, s);
    SupplierStays(msgs, topic, target, if s.best.Some? then s.best.value + 1 else 0, i);
  }

  lemma CloserTracks(msgs: seq<Message>, i: nat, topic: string, target: int, tolerance: int, s: Scan)
    requires i < |msgs| && Tracks(msgs, i, topic, target, tolerance, s) && !s.stopped && Candidate(msgs[i], topic)
    requires Closer(msgs, topic, target, i)
    ensures Tracks(msgs, i + 1, topic, target, tolerance, ScanStep(s, msgs, i, topic, target, tolerance))
  {
    hide ScanStep, IsImageSchema, Candidate, Diff, Ends;
    CloserStep(msgs, i, topic, target, tolerance, s);
    FrameSoFar(msgs, i, topic, target, tolerance, s);
    assert i < i + 1 && Ends(msgs, topic, target, tolerance, i) ==>
           exists e :: 0 <= e < i + 1 && Ends(msgs, topic, target, tolerance, e);
  }

  lemma FartherStep(msgs: seq<Message>, i: nat, topic: string, target: int, tolerance: int, s: Scan)
    requires i < |msgs| && Tracks(msgs, i, topic, target, tolerance, s) && !s.stopped && Candidate(msgs[i], topic)
    requires !Closer(msgs, topic, target, i)
    ensures s.best.Some? && Diff(msgs[s.best.value], target) <= Diff(msgs[i], target)
    ensures ScanStep(s, msgs, i, topic, target, tolerance) == s.(stopped := Ends(msgs, topic, target, tolerance, i))
  {
    hide IsImageSchema, Diff, Deserializes, Candidate, Near, Supplier, ImageOf;
    NextMessage(msgs, i, topic, target, tolerance, s);
  }

  lemma FartherTracks(msgs: seq<Message>, i: nat, topic: string, target: int, tolerance: int, s: Scan)
    requires i < |msgs| && Tracks(msgs, i, topic, target, tolerance, s) && !s.stopped && Candidate(msgs[i], topic)
    requires !Closer(msgs, topic, target, i)
    ensures Tracks(msgs, i + 1, topic, target, tolerance, ScanStep(s, msgs, i, topic, target, tolerance))
  {
    hide ScanStep, Candidate, Closer, Ends, Diff, Supplier, ImageOf;
    FartherStep(msgs, i, topic, target, tolerance, s);
    assert i < i + 1 && Ends(msgs, topic, target, tolerance, i) ==>
           exists e :: 0 <= e < i + 1 && Ends(msgs, topic, target, tolerance, e);
  }

  lemma StepTracks(msgs: seq<Message>, i: nat, topic: string, target: int, tolerance: int, s: Scan)
    requires i < |msgs| && Tracks(msgs, i, topic, target, tolerance, s)
    ensures Tracks(msgs, i + 1, topic, target, tolerance, ScanStep(s, msgs, i, topic, target, tolerance))
  {
    hide Tracks, Candidate, Closer;
    if s.stopped || !Candidate(msgs[i], topic) {
      IdleTracks(msgs, i, topic, target, tolerance, s);
    } else if Closer(msgs, topic, target, i) {
      CloserTracks(msgs, i, topic, target, tolerance, s);
    } else {
      FartherTracks(msgs, i, topic, target, tolerance, s);
    }
  }

  lemma OneChosen(msgs: seq<Message>, topic: string, target: int, tolerance: int, i: nat, j: nat)
    requires Chosen(msgs, topic, target, tolerance, i) && Chosen(msgs, topic, target, tolerance, j)
    ensures i == j
  {
    hide Ends, Candidate, Diff;
  }

  lemma KeptIsChosen(msgs: seq<Message>, topic: string, target: int, tolerance: int, s: Scan)
    requires Tracks(msgs, |msgs|, topic, target, tolerance, s) && s.best.Some?
    ensures Chosen(msgs, topic, target, tolerance, s.best.value)
  {
    hide Closer, Ends, Supplier, ImageOf, Candidate, Diff;
  }

  /** There is a chosen message exactly if there is a candidate, and only one; it is the one the scan ends with. */
  lemma ScanEndsWithChosen(msgs: seq<Message>, topic: string, target: int, tolerance: int)
    ensures var s := ScanTo(msgs, |msgs|, topic, target, tolerance);
            && (s.best.Some? <==> exists j :: 0 <= j < |msgs| && Candidate(msgs[j], topic))
            && (forall i: nat | Chosen(msgs, topic, target, tolerance, i) ::
                  s.best == Some(i) && s.frame == ImageOf(msgs, Supplier(msgs, topic, target, i + 1)))
            && (s.best.Some? ==> Chosen(msgs, topic, target, tolerance, s.best.value))
  {
    hide ScanTo, Chosen, Diff, IsImageSchema;
    var s := ScanTo(msgs, |msgs|, topic, target, tolerance);
    ScanTracks(msgs, |msgs|, topic, target, tolerance);
    if s.best.Some? {
      KeptIsChosen(msgs, topic, target, tolerance, s);
    }
    forall i: nat | Chosen(msgs, topic, target, tolerance, i)
      ensures s.best == Some(i) && s.frame == ImageOf(msgs, Supplier(msgs, topic, target, i + 1))
    {
      ChosenIsCandidate(msgs, topic, target, tolerance, i);
      OneChosen(msgs, topic, target, tolerance, i, s.best.value);
    }
  }

  lemma ChosenIsCandidate(msgs: seq<Message>, topic: string, target: int, tolerance: int, i: nat)
    requires Chosen(msgs, topic, target, tolerance, i)
    ensures i < |msgs| && Candidate(msgs[i], topic)
  {
  }

  /**
   * Whatever decodes or not, the answer has the time of the chosen message and the bytes of the last
   * ever closer candidate up to it that deserializes, and there is none if that one does not decode.
   * So time and bytes are of one message if and only if the chosen message deserializes.
   */
  lemma TimeAndBytesAgreeIff(msgs: seq<Message>, range: Option<(int, int)>, topic: string,
                             target: int, tolerance: int, i: nat)
    requires Chosen(msgs, topic, Clamp(target, range), tolerance, i)
    ensures var k := Supplier(msgs, topic, Clamp(target, range), i + 1);
            && Lookup(msgs, range, topic, target, tolerance) ==
               (if k.None? || !Decodes(msgs[k.value]) then None
                else Some(FrameResult(msgs[k.value].payload.value.image.value, msgs[i].logTime)))
            && (k == Some(i) <==> Deserializes(msgs[i]))
  {
    hide ScanTo, IsImageSchema, Diff, Ends;
    ScanEndsWithChosen(msgs, topic, Clamp(target, range), tolerance);
  }

  /** No message is chosen only if there is no candidate; then there is no answer. */
  lemma NothingChosen(msgs: seq<Message>, range: Option<(int, int)>, topic: string, target: int, tolerance: int)
    requires forall i: nat :: !Chosen(msgs, topic, Clamp(target, range), tolerance, i)
    ensures Lookup(msgs, range, topic, target, tolerance) == None
    ensures forall j | 0 <= j < |msgs| :: !Candidate(msgs[j], topic)
  {
    hide ScanTo, Chosen, Candidate;
    ScanEndsWithChosen(msgs, topic, Clamp(target, range), tolerance);
  }

  /** Such a mismatch exists: a good frame at 0, then a broken one at the target, gives 0's bytes at time 10. */
  lemma MismatchExample()
    ensures var image := "sensor_msgs/Image";
            var good := Message("/cam", Some(image), "cdr", 0, Some(Payload(Some([7]))));
            var broken := Message("/cam", Some(image), "cdr", 10, None);
            Lookup([good, broken], Some((0, 10)), "/cam", 10, 5) == Some(FrameResult([7], 10))
  {
    var good := Message("/cam", Some("sensor_msgs/Image"), "cdr", 0, Some(Payload(Some([7]))));
    var broken := Message("/cam", Some("sensor_msgs/Image"), "cdr", 10, None);
    var msgs := [good, broken];
    assert IsImageSchema("sensor_msgs/Image");
    assert ScanTo(msgs, 0, "/cam", 10, 5) == Scan(None, None, false);
    assert ScanTo(msgs, 1, "/cam", 10, 5) == Scan(Some(0), Some([7]), false);
    assert ScanTo(msgs, 2, "/cam", 10, 5) == Scan(Some(1), Some([7]), false);
  }
}
