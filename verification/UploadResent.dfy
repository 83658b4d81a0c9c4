/**
 * A chunk sent twice, be it for no reason or because its increment took effect and reported an error:
 * the count test passes with a chunk missing, and no longer passes once the chunk is there.
 */
module UploadResent {
  import opened Bytes
  import opened Options
  import opened ChunkedUpload
  import opened UploadProtocol
  import opened UploadAlone
  import opened UploadCounting

  /** An upload of two chunks: chunk 0 is sent, chunk 0 is sent again, then chunk 1. */
  function Resending(first: Bytes, second: Bytes): seq<Call> {
    [Call.Init("f", "mcap", 0x400_0001), Call.Chunk("s", 0, first),
     Call.Chunk("s", 0, first), Call.Chunk("s", 1, second)]
  }

  /** The first three requests, one after the other; the increment of the first chunk ends as `count` says. */
  function ThreeInTurn(count: Outcome): seq<Action> {
    [Step(0, Ok, "e"), Step(0, Ok, "s")] + (ChunkRun(1, count) + ChunkRun(2, Ok))
  }

  function After(count: Outcome): Pc {
    if count.Ok? then Done else Rejected
  }

  /** Where the four requests stand: the first `n` are done with, the others have not begun. */
  function Standing(first: Bytes, second: Bytes, count: Outcome, n: nat): seq<Request> {
    var calls := Resending(first, second);
    seq(4, i requires 0 <= i < 4 => Request(calls[i], if i >= n then Start else if i == 1 then After(count) else Done))
  }

  /** The tables when `received` chunk requests were counted and `objects` are stored. */
  function Tables(first: Bytes, second: Bytes, count: Outcome, n: nat, received: nat, objects: map<string, Bytes>)
    : System
  {
    System(map["s" := Session("e", 2, received, false)],
           map["e" := Episode("f", "mcap", 0x400_0001, "uploading", None)],
           objects, [], Standing(first, second, count, n))
  }

  lemma TwoChunks()
    ensures TotalChunks(0x400_0001) == 2
  {
  }

  lemma AfterInit(first: Bytes, second: Bytes, count: Outcome)
    ensures Exec(Initial(Resending(first, second)), [Step(0, Ok, "e"), Step(0, Ok, "s")]) ==
            Tables(first, second, count, 1, 0, map[])
  {
    hide Exec, Next, TotalChunks, Advances;
    var s := Initial(Resending(first, second));
    TwoChunks();
    InitAlone(s, 0, "e", "s");
    assert s.requests[0 := Request(s.requests[0].call, Done)] == Standing(first, second, count, 1);
  }

  lemma AfterChunk(first: Bytes, second: Bytes, count: Outcome, n: nat, received: nat, objects: map<string, Bytes>)
    requires 1 <= n < 4 && !count.Fails?
    ensures var c := Resending(first, second)[n];
            Exec(Tables(first, second, count, n, received, objects), ChunkRun(n, if n == 1 then count else Ok)) ==
            Tables(first, second, count, n + 1, received + 1, objects[ChunkKey("s", c.n) := c.data])
  {
    hide Exec, Next, ChunkKey, ChunkRun, Advances;
    var s := Tables(first, second, count, n, received, objects);
    ChunkAlone(s, n, if n == 1 then count else Ok);
    var pc := if n == 1 then After(count) else Done;
    assert s.requests[n := Request(s.requests[n].call, pc)] == Standing(first, second, count, n + 1);
  }

  lemma {:induction false} AllOkSucceeds(s: System, actions: seq<Action>)
    requires forall i | 0 <= i < |actions| :: actions[i].outcome.Ok?
    ensures WritesSucceed(s, actions)
    decreases |actions|
  {
    hide Next;
    if actions != [] {
      AllOkSucceeds(Next(s, actions[0]), actions[1..]);
    }
  }

  lemma {:induction false} StepsAreOk(r: nat, n: nat)
    ensures forall i | 0 <= i < n :: Steps(r, n)[i].outcome.Ok?
  {
    if n > 0 {
      StepsAreOk(r, n - 1);
    }
  }

  lemma ThreeInTurnAreOk()
    ensures forall i | 0 <= i < |ThreeInTurn(Ok)| :: ThreeInTurn(Ok)[i].outcome.Ok?
    ensures forall i | 0 <= i < |ChunkRun(3, Ok)| :: ChunkRun(3, Ok)[i].outcome.Ok?
  {
    StepsAreOk(1, 2);
    StepsAreOk(2, 2);
    StepsAreOk(3, 2);
  }

  lemma NoneUncounted(first: Bytes, second: Bytes, count: Outcome, n: nat, received: nat, objects: map<string, Bytes>)
    ensures !Uncounted(Tables(first, second, count, n, received, objects), "s")
  {
  }

  /**
   * Chunk 0 is sent, and sent again; the increment of the first either succeeds or takes effect and
   * reports an error, so that only one of the two requests is answered with success. The test then
   * passes although chunk 1 is missing; after chunk 1 was sent too, everything is stored and the
   * test does not pass.
   */
  lemma ResentChunkFoolsTheTest(first: Bytes, second: Bytes, count: Outcome)
    requires !count.Fails?
    ensures var start := Initial(Resending(first, second));
            var s := Exec(start, ThreeInTurn(count));
            var t := Exec(s, ChunkRun(3, Ok));
            && (count.Ok? ==> WritesSucceed(start, ThreeInTurn(count)) && WritesSucceed(s, ChunkRun(3, Ok)))
            && |s.requests| == 4 && s.requests[1].pc == After(count) && s.requests[2].pc == Done
            && CountTest(s, "s") && !Uncounted(s, "s") && ChunkKey("s", 1) !in s.objects
            && "s" in t.sessions && AllStored(t.objects, "s", t.sessions["s"].total)
            && !Uncounted(t, "s") && !CountTest(t, "s")
  {
    hide Exec, Next, ChunkKey, Uncounted, ThreeInTurn, ChunkRun, WritesSucceed;
    var start := Initial(Resending(first, second));
    if count.Ok? {
      ThreeInTurnAreOk();
      AllOkSucceeds(start, ThreeInTurn(count));
      AllOkSucceeds(Exec(start, ThreeInTurn(count)), ChunkRun(3, Ok));
    }
    AfterThree(first, second, count);
    var stored := map[ChunkKey("s", 0) := first];
    AfterChunk(first, second, count, 3, 2, stored);
    NoneUncounted(first, second, count, 3, 2, stored);
    NoneUncounted(first, second, count, 4, 3, stored[ChunkKey("s", 1) := second]);
    DifferentKeys();
  }

  lemma AfterThree(first: Bytes, second: Bytes, count: Outcome)
    requires !count.Fails?
    ensures Exec(Initial(Resending(first, second)), ThreeInTurn(count)) ==
            Tables(first, second, count, 3, 2, map[ChunkKey("s", 0) := first])
  {
    hide Exec, Next, ChunkKey, Standing, ChunkRun;
    AfterInit(first, second, count);
    ExecConcat(Initial(Resending(first, second)), [Step(0, Ok, "e"), Step(0, Ok, "s")],
               ChunkRun(1, count) + ChunkRun(2, Ok));
    AfterChunk(first, second, count, 1, 0, map[]);
    ExecConcat(Tables(first, second, count, 1, 0, map[]), ChunkRun(1, count), ChunkRun(2, Ok));
    var stored := map[ChunkKey("s", 0) := first];
    assert map[][ChunkKey("s", 0) := first] == stored;
    AfterChunk(first, second, count, 2, 1, stored);
    assert stored[ChunkKey("s", 0) := first] == stored;
  }

  lemma DifferentKeys()
    ensures ChunkKey("s", 0) != ChunkKey("s", 1)
  {
    if ChunkKey("s", 0) == ChunkKey("s", 1) {
      ChunkKeysInjective("s", 0, "s", 1);
    }
  }
}
