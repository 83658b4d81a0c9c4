/**
 * The sliding-window buffer of one stream: frames in arrival order, with those older than
 * `maxAge` before a newly received timestamp evicted by in-place compaction.
 */
module FrameBuffers {
  import opened Bytes

  type int64 = x: int | -0x8000_0000_0000_0000 <= x < 0x8000_0000_0000_0000

  type uint64 = x: int | 0 <= x < 0x1_0000_0000_0000_0000

  datatype Frame = Frame(
    sessionId: string, projectId: string, robotId: string, seqNum: uint64,
    timestampNs: int64, topic: string, payload: Bytes, isLast: bool)

  /** Two's complement wrap-around of a 64-bit result. */
  function Wrap64(x: int): int64 {
    (x + 0x8000_0000_0000_0000) % 0x1_0000_0000_0000_0000 - 0x8000_0000_0000_0000
  }

  function Cutoff(now: int64, maxAge: int64): int64 {
    Wrap64(now - maxAge)
  }

  /** The int64 subtraction never wraps for a positive timestamp exactly if the window is not negative. */
  lemma CutoffNeverWrapsIff(maxAge: int64)
    ensures maxAge >= 0 <==> forall now: int64 | now > 0 :: Cutoff(now, maxAge) == now - maxAge
  {
    if maxAge < 0 {
      var latest: int64 := 0x7FFF_FFFF_FFFF_FFFF;
      assert Cutoff(latest, maxAge) != latest - maxAge;
    }
  }

  function Keep(frames: seq<Frame>, cutoff: int64): seq<Frame> {
    if frames == [] then []
    else Keep(frames[..|frames| - 1], cutoff) +
         if frames[|frames| - 1].timestampNs >= cutoff then [frames[|frames| - 1]] else []
  }

  /** What one `Add` makes of the buffered frames. */
  function Added(maxAge: int64, frames: seq<Frame>, f: Frame): seq<Frame> {
    if f.timestampNs > 0 then Keep(frames + [f], Cutoff(f.timestampNs, maxAge)) else frames + [f]
  }

  // ---- the whole history ----

  /** Frame `i` is inside the window of every timestamp received from it on. */
  predicate Survives(maxAge: int64, history: seq<Frame>, i: nat)
    requires i < |history|
  {
    forall j | i <= j < |history| && history[j].timestampNs > 0 ::
      history[i].timestampNs >= Cutoff(history[j].timestampNs, maxAge)
  }

  /** The surviving frames from position `i` on, in arrival order. */
  function Window(maxAge: int64, history: seq<Frame>, i: nat := 0): seq<Frame>
    requires i <= |history|
    decreases |history| - i
  {
    if i == |history| then []
    else (if Survives(maxAge, history, i) then [history[i]] else []) + Window(maxAge, history, i + 1)
  }

  function MaxSeq(history: seq<Frame>): uint64 {
    if history == [] then 0
    else
      var m := MaxSeq(history[..|history| - 1]);
      if history[|history| - 1].seqNum > m then history[|history| - 1].seqNum else m
  }

  /** It is the maximum over all frames added, evicted ones included, and 0 if there is none. */
  lemma {:induction false} MaxSeqIsMaximum(history: seq<Frame>)
    ensures forall f | f in history :: f.seqNum <= MaxSeq(history)
    ensures if history == [] then MaxSeq(history) == 0 else exists f :: f in history && f.seqNum == MaxSeq(history)
  {
    if history != [] {
      var init, last := history[..|history| - 1], history[|history| - 1];
      MaxSeqIsMaximum(init);
      assert history == init + [last];
      assert last in history;
    }
  }

  lemma MaxSeqOneMore(history: seq<Frame>, f: Frame)
    ensures MaxSeq(history + [f]) == if f.seqNum > MaxSeq(history) then f.seqNum else MaxSeq(history)
  {
    assert (history + [f])[..|history|] == history;
  }

  lemma {:induction false} KeepConcat(a: seq<Frame>, b: seq<Frame>, cutoff: int64)
    ensures Keep(a + b, cutoff) == Keep(a, cutoff) + Keep(b, cutoff)
  {
    if b == [] {
      assert a + b == a;
    } else {
      assert (a + b)[..|a + b| - 1] == a + b[..|b| - 1];
      KeepConcat(a, b[..|b| - 1], cutoff);
    }
  }

  lemma SurvivesOneMore(maxAge: int64, history: seq<Frame>, f: Frame, i: nat)
    requires i < |history|
    ensures Survives(maxAge, history + [f], i) <==>
            Survives(maxAge, history, i) && Outlasts(maxAge, history[i], f)
  {
    var h := history + [f];
    assert h[|history|] == f && h[i] == history[i];
    if Survives(maxAge, h, i) {
      forall j | i <= j < |history| && history[j].timestampNs > 0
        ensures history[i].timestampNs >= Cutoff(history[j].timestampNs, maxAge)
      {
        assert h[j] == history[j];
      }
    }
  }

  /** The filter a new frame applies to the ones before it. */
  function Evicted(maxAge: int64, frames: seq<Frame>, f: Frame): seq<Frame> {
    if f.timestampNs > 0 then Keep(frames, Cutoff(f.timestampNs, maxAge)) else frames
  }

  predicate Outlasts(maxAge: int64, e: Frame, f: Frame) {
    f.timestampNs > 0 ==> e.timestampNs >= Cutoff(f.timestampNs, maxAge)
  }

  lemma EvictedConcat(maxAge: int64, e: Frame, rest: seq<Frame>, f: Frame)
    ensures Evicted(maxAge, [e] + rest, f) == (if Outlasts(maxAge, e, f) then [e] else []) + Evicted(maxAge, rest, f)
  {
    var cutoff := Cutoff(f.timestampNs, maxAge);
    KeepConcat([e], rest, cutoff);
    assert [e][..0] == [];
  }

  lemma SurvivesItself(maxAge: int64, history: seq<Frame>, f: Frame)
    ensures Window(maxAge, history + [f], |history|) == Evicted(maxAge, [f], f)
  {
    var h := history + [f];
    assert h[|history|] == f;
    assert Window(maxAge, h, |history| + 1) == [];
    assert Survives(maxAge, h, |history|) <==> Outlasts(maxAge, f, f);
    EvictedConcat(maxAge, f, [], f);
    assert [f] + [] == [f];
  }

  lemma {:induction false} WindowOneMore(maxAge: int64, history: seq<Frame>, f: Frame, i: nat)
    requires i <= |history|
    ensures Window(maxAge, history + [f], i) == Evicted(maxAge, Window(maxAge, history, i) + [f], f)
    decreases |history| - i
  {
    if i == |history| {
      SurvivesItself(maxAge, history, f);
      assert [] + [f] == [f];
    } else {
      WindowOneMore(maxAge, history, f, i + 1);
      SurvivesOneMore(maxAge, history, f, i);
      var e, rest := history[i], Window(maxAge, history, i + 1);
      assert (history + [f])[i] == e;
      EvictedConcat(maxAge, e, rest + [f], f);
      assert [e] + rest + [f] == [e] + (rest + [f]);
      assert [] + rest == rest;
    }
  }

  /**
   * Evicting frame by frame equals filtering the whole history: what `Add` makes of the
   * surviving frames of a history are the surviving frames of the longer history.
   */
  lemma EvictionFiltersHistory(maxAge: int64, history: seq<Frame>, f: Frame)
    ensures Added(maxAge, Window(maxAge, history), f) == Window(maxAge, history + [f])
  {
    WindowOneMore(maxAge, history, f, 0);
  }

  /** With a window that is not negative, surviving means what it says, without wrap-around. */
  lemma SurvivesIff(maxAge: int64, history: seq<Frame>, i: nat)
    requires maxAge >= 0 && i < |history|
    ensures Survives(maxAge, history, i) <==>
            forall j | i <= j < |history| && history[j].timestampNs > 0 ::
              history[i].timestampNs >= history[j].timestampNs - maxAge
  {
    CutoffNeverWrapsIff(maxAge);
  }

  /** A new frame survives its own eviction, so a buffer is not empty after a frame was added. */
  lemma NewestSurvives(maxAge: int64, history: seq<Frame>, f: Frame)
    requires maxAge >= 0
    ensures var w := Window(maxAge, history + [f]);
            w != [] && w[|w| - 1] == f
  {
    EvictionFiltersHistory(maxAge, history, f);
    CutoffNeverWrapsIff(maxAge);
    if f.timestampNs > 0 {
      var before := Window(maxAge, history);
      assert f.timestampNs >= Cutoff(f.timestampNs, maxAge);
      assert (before + [f])[..|before|] == before;
    }
  }

  // ---- the buffer in place ----

  class FrameBuffer {
    const maxAge: int64
    var frames: array<Frame>
    var n: nat
    var lastSeq: uint64
    ghost var history: seq<Frame>

    ghost predicate Backed()
      reads this
    {
      n <= frames.Length
    }

    ghost function Contents(): seq<Frame>
      reads this, frames
      requires Backed()
    {
      frames[..n]
    }

    /** The buffer holds exactly the surviving frames of everything added since the last reset. */
    ghost predicate Valid()
      reads this, frames
    {
      && Backed()
      && Contents() == Window(maxAge, history)
      && lastSeq == MaxSeq(history)
    }

    constructor (maxAge: int64)
      ensures Valid() && fresh(frames) && history == [] && this.maxAge == maxAge
    {
      this.maxAge := maxAge;
      frames := new Frame[0];
      n, lastSeq, history := 0, 0, [];
    }

    method Append(f: Frame)
      requires Backed()
      modifies this`frames, this`n, frames
      ensures Backed() && Contents() == old(Contents()) + [f]
      ensures frames == old(frames) || fresh(frames)
    {
      if n == frames.Length {
        var larger := new Frame[2 * n + 1];
        for i := 0 to n
          modifies larger
          invariant larger[..i] == frames[..i]
        {
          larger[i] := frames[i];
        }
        frames := larger;
      }
      frames[n] := f;
      n := n + 1;
    }

    /** Compaction by a write index that never overtakes the read index. */
    method EvictExpired(now: int64)
      requires Backed()
      modifies this`n, frames
      ensures Backed() && Contents() == Keep(old(Contents()), Cutoff(now, maxAge))
    {
      var cutoff := Cutoff(now, maxAge);
      var w := 0;
      for i := 0 to n
        invariant n == old(n) && 0 <= w <= i
        invariant frames[..w] == Keep(old(Contents())[..i], cutoff)
        invariant forall k | i <= k < n :: frames[k] == old(Contents())[k]
      {
        var f := frames[i];
        assert old(Contents())[..i + 1][..i] == old(Contents())[..i];
        if f.timestampNs >= cutoff {
          frames[w] := f;
          w := w + 1;
          assert frames[..w] == frames[..w - 1] + [f];
        }
      }
      assert old(Contents())[..n] == old(Contents());
      n := w;
    }

    /** The body of `Add`, on the buffered frames alone. */
    method AppendAndEvict(f: Frame)
      requires Backed()
      modifies this`frames, this`n, this`lastSeq, frames
      ensures Backed() && Contents() == Added(maxAge, old(Contents()), f)
      ensures lastSeq == if f.seqNum > old(lastSeq) then f.seqNum else old(lastSeq)
      ensures frames == old(frames) || fresh(frames)
    {
      Append(f);
      if f.seqNum > lastSeq {
        lastSeq := f.seqNum;
      }
      if f.timestampNs > 0 {
        EvictExpired(f.timestampNs);
      }
    }

    method Add(f: Frame)
      requires Valid()
      modifies this, frames
      ensures Valid() && history == old(history) + [f]
      ensures frames == old(frames) || fresh(frames)
    {
      EvictionFiltersHistory(maxAge, history, f);
      MaxSeqOneMore(history, f);
      AppendAndEvict(f);
      history := history + [f];
      assert Contents() == Window(maxAge, history);
    }

    method LastSeq() returns (m: uint64)
      requires Valid()
      ensures m == MaxSeq(history)
    {
      m := lastSeq;
    }

    method Len() returns (k: nat)
      requires Valid()
      ensures k == |Window(maxAge, history)|
    {
      k := n;
    }

    method Reset()
      requires Valid()
      modifies this
      ensures Valid() && history == [] && Contents() == []
      ensures frames == old(frames)
    {
      n, lastSeq, history := 0, 0, [];
    }
  }
}
