/**
 * The frame cache of the hook: overlapping `loadFrames` and `preloadFrames` calls, each with its own
 * promise pool, filling one cache keyed by topic and 100 ms bucket.
 */
module FrameCache {
  import opened Options
  import opened Decimal
  import opened FetchPool

  const BUCKET: real := 100_000_000.0
  const MAX_CONCURRENT: int := 2

  // ---- keys ----

  function Bucket(timestamp: real): int {
    (timestamp / BUCKET).Floor
  }

  function CacheKey(topic: string, timestamp: real): string {
    topic + "_" + Signed(Bucket(timestamp))
  }

  /** Keys are equal exactly for the same topic and bucket, underscores in topics included. */
  lemma CacheKeysEqualIff(topic: string, t: real, other: string, u: real)
    ensures CacheKey(topic, t) == CacheKey(other, u) <==> topic == other && Bucket(t) == Bucket(u)
  {
    if CacheKey(topic, t) == CacheKey(other, u) {
      SignedHasNoUnderscore(Bucket(t));
      SignedHasNoUnderscore(Bucket(u));
      LastUnderscore(topic, Signed(Bucket(t)), other, Signed(Bucket(u)));
      SignedInjective(Bucket(t), Bucket(u));
    }
  }

  lemma SignedHasNoUnderscore(n: int)
    ensures '_' !in Signed(n)
  {
    var d := Digits(if n < 0 then -n else n);
    assert forall i | 0 <= i < |d| :: IsDigit(d[i]);
  }

  /** `Math.round`, which `getFrame` applies to the timestamp it sends. */
  function Round(timestamp: real): int {
    (timestamp + 0.5).Floor
  }

  lemma BucketIs(timestamp: real, b: int)
    ensures Bucket(timestamp) == b <==> b as real * BUCKET <= timestamp < (b + 1) as real * BUCKET
  {
    var q := timestamp / BUCKET;
    assert timestamp == q * 100_000_000.0;
  }

  /**
   * The timestamp sent falls in the bucket of the key exactly if the unrounded one is not within
   * half a nanosecond of the next bucket.
   */
  lemma SentBucketIff(timestamp: real)
    ensures Bucket(Round(timestamp) as real) == Bucket(timestamp) <==>
        timestamp < (Bucket(timestamp) + 1) as real * BUCKET - 0.5
  {
    var b := Bucket(timestamp);
    BucketIs(timestamp, b);
    BucketIs(Round(timestamp) as real, b);
    RoundBelowIff(timestamp, (b + 1) * 100_000_000);
    RoundBelowIff(timestamp, b * 100_000_000);
  }

  lemma RoundBelowIff(timestamp: real, n: int)
    ensures Round(timestamp) < n <==> timestamp < n as real - 0.5
  {
    var f := Round(timestamp);
    assert f as real <= timestamp + 0.5 < f as real + 1.0;
    if f < n {
      RealsKeepOrder(f + 1, n);
    } else {
      RealsKeepOrder(n, f);
    }
  }

  lemma RealsKeepOrder(m: int, n: int)
    requires m <= n
    ensures m as real <= n as real
  {
  }

  // ---- overlapping calls ----

  datatype Kind = Load | Preload

  /**
   * One call of `loadFrames` or `preloadFrames`, for the episode and topics the hook then had;
   * `frames` is what a load collects for display.
   */
  datatype Call = Call(kind: Kind, episodeId: string, timestamp: real, topics: seq<string>, pool: Pool, aborted: bool,
      frames: map<string, string>)

  /** The request of a call for its `item`-th topic. */
  datatype Fetch = Fetch(call: nat, item: nat)

  datatype Answer = Answer(fetch: Fetch, url: string)

  /** `current` is the load whose abort controller is the latest; `shown` the load displayed last. */
  datatype Hook = Hook(
    calls: seq<Call>, cache: map<string, string>, begun: seq<Fetch>, answers: seq<Answer>,
    current: Option<nat>, shown: Option<nat>)

  datatype Action =
    | Begin(kind: Kind, episodeId: string, timestamp: real, topics: seq<string>)
    | StartTask(c: nat)
    | Arrive(c: nat, i: nat, url: Option<string>)
    | Advance(c: nat, event: Event)

  const MOUNTED: Hook := Hook([], map[], [], [], None, None)

  function Abort(calls: seq<Call>, current: Option<nat>): (aborted: seq<Call>)
    ensures |aborted| == |calls|
  {
    if current.Some? && current.value < |calls| then calls[current.value := calls[current.value].(aborted := true)]
    else calls
  }

  function BeginCall(h: Hook, kind: Kind, episodeId: string, timestamp: real, topics: seq<string>): Hook {
    if topics == [] then h
    else
      var call := Call(kind, episodeId, timestamp, topics, Init(|topics|, MAX_CONCURRENT), false, map[]);
      match kind
      case Preload => h.(calls := h.calls + [call])
      case Load => h.(calls := Abort(h.calls, h.current) + [call], current := Some(|h.calls|))
  }

  /** A load collects the URL for its topic; a preload only caches it. */
  function Collect(call: Call, topic: string, url: string): Call {
    if call.kind.Load? then call.(frames := call.frames[topic := url]) else call
  }

  /** The loop of a call takes its next topic: skip it if superseded, serve it if cached, else fetch it. */
  function StartNext(h: Hook, c: nat): Hook
    requires c < |h.calls| && |h.calls[c].pool.tasks| < |h.calls[c].topics|
  {
    var call := h.calls[c];
    var i := |call.pool.tasks|;
    var topic, key := call.topics[i], CacheKey(call.topics[i], call.timestamp);
    var started := call.(pool := FetchPool.Next(call.pool, Start));
    var finished := call.(pool := FetchPool.Next(started.pool, Settle(i, true)));
    if call.kind.Load? && call.aborted then h.(calls := h.calls[c := finished])
    else if key in h.cache && h.cache[key] != "" then h.(calls := h.calls[c := Collect(finished, topic, h.cache[key])])
    else h.(calls := h.calls[c := started], begun := h.begun + [Fetch(c, i)])
  }

  /** A request is answered, or fails, which is logged or ignored. */
  function ArriveAt(h: Hook, c: nat, i: nat, url: Option<string>): Hook
    requires c < |h.calls| && i < |h.calls[c].topics|
  {
    var call := h.calls[c];
    var topic, finished := call.topics[i], call.(pool := FetchPool.Next(call.pool, Settle(i, true)));
    match url
    case None => h.(calls := h.calls[c := finished])
    case Some(u) =>
      h.(calls := h.calls[c := Collect(finished, topic, u)],
         cache := h.cache[CacheKey(topic, call.timestamp) := u],
         answers := h.answers + [Answer(Fetch(c, i), u)])
  }

  /** The pool of a call moves on; a load that returns with any frames displays them. */
  function AdvancePool(h: Hook, c: nat, e: Event): Hook
    requires c < |h.calls|
  {
    var call := h.calls[c].(pool := FetchPool.Next(h.calls[c].pool, e));
    var over := call.kind.Load? && call.pool.pc.Returned? && !h.calls[c].pool.pc.Returned?;
    h.(calls := h.calls[c := call], shown := if over && call.frames != map[] then Some(c) else h.shown)
  }

  predicate CanStart(h: Hook, c: nat) {
    c < |h.calls| && Enabled(h.calls[c].pool, Start) && |h.calls[c].pool.tasks| < |h.calls[c].topics|
  }

  predicate CanArrive(h: Hook, c: nat, i: nat) {
    c < |h.calls| && i < |h.calls[c].topics| && Enabled(h.calls[c].pool, Settle(i, true))
  }

  function Next(h: Hook, a: Action): Hook {
    match a
    case Begin(kind, episodeId, timestamp, topics) => BeginCall(h, kind, episodeId, timestamp, topics)
    case StartTask(c) => if CanStart(h, c) then StartNext(h, c) else h
    case Arrive(c, i, url) => if CanArrive(h, c, i) then ArriveAt(h, c, i, url) else h
    case Advance(c, e) => if c < |h.calls| && (e.Remove? || e.Drain? || e.Resume?) then AdvancePool(h, c, e) else h
  }

  function Exec(h: Hook, actions: seq<Action>): Hook
    decreases |actions|
  {
    if actions == [] then h else Exec(Next(h, actions[0]), actions[1..])
  }

  lemma {:induction false} ExecConcat(h: Hook, a: seq<Action>, b: seq<Action>)
    ensures Exec(h, a + b) == Exec(Exec(h, a), b)
    decreases |a|
  {
    hide Next;
    if a == [] {
      assert a + b == b;
    } else {
      assert (a + b)[1..] == a[1..] + b;
      ExecConcat(Next(h, a[0]), a[1..], b);
    }
  }

  lemma ExecOne(h: Hook, a: Action)
    ensures Exec(h, [a]) == Next(h, a)
  {
    hide Next;
    assert [a][1..] == [];
  }

  lemma ExecTwo(h: Hook, a: Action, b: Action)
    ensures Exec(h, [a, b]) == Next(Next(h, a), b)
  {
    hide Next;
    var t := Next(h, a);
    assert [a, b][1..] == [b];
    assert Exec(t, [b]) == Next(t, b);
  }

  lemma ExecThree(h: Hook, a: Action, b: Action, c: Action)
    ensures Exec(h, [a, b, c]) == Next(Next(Next(h, a), b), c)
  {
    hide Next;
    var t := Next(h, a);
    assert [a, b, c][1..] == [b, c] && [b, c][1..] == [c];
    assert Exec(Next(t, b), [c]) == Next(Next(t, b), c);
    assert Exec(t, [b, c]) == Exec(Next(t, b), [c]);
  }

  // ---- a superseded load starts no request ----

  function FetchesOf(begun: seq<Fetch>, c: nat): seq<Fetch> {
    if begun == [] then []
    else
      var last := begun[|begun| - 1];
      FetchesOf(begun[..|begun| - 1], c) + if last.call == c then [last] else []
  }

  predicate Superseded(h: Hook, c: nat) {
    c < |h.calls| && h.calls[c].kind.Load? && h.calls[c].aborted
  }

  lemma StepOfSuperseded(h: Hook, a: Action, c: nat)
    requires Superseded(h, c)
    ensures Superseded(Next(h, a), c)
    ensures Next(h, a).begun == h.begun || exists f: Fetch :: f.call != c && Next(h, a).begun == h.begun + [f]
  {
    hide FetchPool.Next, CacheKey, Enabled;
  }

  /** Whatever happens after a load was superseded, the requests it has begun stay those it had begun. */
  lemma {:induction false} SupersededStartsNoFetch(h: Hook, actions: seq<Action>, c: nat)
    requires Superseded(h, c)
    ensures Superseded(Exec(h, actions), c) && FetchesOf(Exec(h, actions).begun, c) == FetchesOf(h.begun, c)
    decreases |actions|
  {
    hide Next;
    if actions != [] {
      var t := Next(h, actions[0]);
      StepOfSuperseded(h, actions[0], c);
      if t.begun != h.begun {
        var f: Fetch :| f.call != c && t.begun == h.begun + [f];
        assert t.begun[..|h.begun|] == h.begun;
      }
      SupersededStartsNoFetch(t, actions[1..], c);
    }
  }
}
