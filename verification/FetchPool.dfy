/**
 * The promise pool of the frame hook: a loop that starts one task per item, pushes it on a list the
 * task later takes itself off, and waits for a race whenever the list is full.
 */
module FetchPool {
  import opened Collections
  import opened Options

  /** A task runs, settles, and only then runs its `finally` callback, which takes it off the list. */
  datatype Task = Running | Settled(ok: bool) | Removed(ok: bool)

  /**
   * Where the function is: in its loop, awaiting a race among the tasks then on the list, awaiting
   * all of them after the loop, or over.
   */
  datatype Pc =
    | Looping
    | Racing(among: seq<nat>, winner: Option<bool>)
    | Draining(all: seq<nat>, failed: bool)
    | Returned
    | Threw

  /** Tasks are named by the position of their item; the next item to start is `|tasks|`. */
  datatype Pool = Pool(size: nat, concurrency: int, tasks: seq<Task>, executing: seq<nat>, pc: Pc)

  datatype Event = Start | Settle(i: nat, ok: bool) | Remove(i: nat) | Drain | Resume

  function Init(size: nat, concurrency: int): Pool {
    Pool(size, concurrency, [], [], Looping)
  }

  function IndexOf(s: seq<nat>, x: nat): (k: int)
    ensures -1 <= k < |s|
    ensures k >= 0 ==> s[k] == x
    ensures k == -1 <==> x !in s
  {
    if s == [] then -1
    else if s[0] == x then 0
    else
      var k := IndexOf(s[1..], x);
      if k == -1 then -1 else k + 1
  }

  function SpliceOut(s: seq<nat>, x: nat): seq<nat> {
    var k := IndexOf(s, x);
    if k == -1 then s else s[..k] + s[k + 1..]
  }

  /** A race settles as its first member does; waiting for all fails as soon as one rejects. */
  function Notice(pc: Pc, i: nat, ok: bool): Pc {
    match pc
    case Racing(among, None) => if i in among then Racing(among, Some(ok)) else pc
    case Draining(all, failed) => Draining(all, failed || (i in all && !ok))
    case _ => pc
  }

  predicate Enabled(p: Pool, e: Event) {
    match e
    case Start => p.pc.Looping? && |p.tasks| < p.size
    case Drain => p.pc.Looping? && |p.tasks| >= p.size
    case Settle(i, _) => i < |p.tasks| && p.tasks[i].Running?
    case Remove(i) => i < |p.tasks| && p.tasks[i].Settled?
    case Resume =>
      || (p.pc.Racing? && p.pc.winner.Some?)
      || (p.pc.Draining? && (p.pc.failed || forall i | i in p.pc.all :: i < |p.tasks| && p.tasks[i].Removed?))
  }

  function Next(p: Pool, e: Event): Pool {
    if !Enabled(p, e) then p
    else
      match e
      case Start =>
        var executing := p.executing + [|p.tasks|];
        p.(tasks := p.tasks + [Running], executing := executing,
           pc := if |executing| >= p.concurrency then Racing(executing, None) else Looping)
      case Drain => p.(pc := Draining(p.executing, false))
      case Settle(i, ok) => p.(tasks := p.tasks[i := Settled(ok)])
      case Remove(i) =>
        var ok := p.tasks[i].ok;
        p.(tasks := p.tasks[i := Removed(ok)], executing := SpliceOut(p.executing, i), pc := Notice(p.pc, i, ok))
      case Resume =>
        p.(pc := match p.pc
                 case Racing(_, winner) => if winner == Some(false) then Threw else Looping
                 case Draining(_, failed) => if failed then Threw else Returned
                 case _ => p.pc)
  }

  function Exec(p: Pool, events: seq<Event>): Pool
    decreases |events|
  {
    if events == [] then p else Exec(Next(p, events[0]), events[1..])
  }

  // ---- the invariant ----

  function Limit(concurrency: int): nat {
    if concurrency < 1 then 1 else concurrency
  }

  predicate Within(s: seq<nat>, t: seq<nat>) {
    forall x | x in s :: x in t
  }

  ghost predicate SomeRejected(p: Pool) {
    exists i | 0 <= i < |p.tasks| :: p.tasks[i] == Removed(false)
  }

  predicate AllRemoved(p: Pool) {
    |p.tasks| == p.size && forall i | 0 <= i < |p.tasks| :: p.tasks[i].Removed?
  }

  ghost predicate PcHolds(p: Pool) {
    match p.pc
    case Looping => |p.executing| < Limit(p.concurrency)
    case Racing(among, winner) =>
      && |among| == Limit(p.concurrency) && Within(p.executing, among)
      && (winner.None? ==> p.executing == among)
      && (winner.Some? ==> |p.executing| < |among|)
      && (winner == Some(false) ==> SomeRejected(p))
    case Draining(all, failed) =>
      && |p.tasks| == p.size && Within(p.executing, all) && (forall i | i in all :: i < |p.tasks|)
      && (failed ==> SomeRejected(p))
    case Returned => AllRemoved(p)
    case Threw => SomeRejected(p)
  }

  /** The list holds each task not yet removed, once, and never more than the limit. */
  ghost predicate Holds(p: Pool) {
    && |p.tasks| <= p.size
    && Distinct(p.executing)
    && (forall i: nat :: i in p.executing <==> i < |p.tasks| && !p.tasks[i].Removed?)
    && |p.executing| <= Limit(p.concurrency)
    && PcHolds(p)
  }

  lemma SpliceOutRemoves(s: seq<nat>, x: nat)
    requires Distinct(s)
    ensures Distinct(SpliceOut(s, x))
    ensures forall y :: y in SpliceOut(s, x) <==> y in s && y != x
    ensures |SpliceOut(s, x)| == if x in s then |s| - 1 else |s|
  {
    var k := IndexOf(s, x);
    if k >= 0 {
      var r := SpliceOut(s, x);
      forall y ensures y in r <==> y in s && y != x {
        if y in s && y != x {
          var j :| 0 <= j < |s| && s[j] == y;
          assert y == if j < k then r[j] else r[j - 1];
        }
      }
    }
  }

  lemma RejectionsStay(p: Pool, e: Event)
    requires SomeRejected(p)
    ensures SomeRejected(Next(p, e))
  {
    var i :| 0 <= i < |p.tasks| && p.tasks[i] == Removed(false);
    assert Next(p, e).tasks[i] == Removed(false);
  }

  lemma RemoveHolds(p: Pool, i: nat)
    requires Holds(p) && Enabled(p, Remove(i))
    ensures Holds(Next(p, Remove(i)))
  {
    hide SpliceOut;
    var q := Next(p, Remove(i));
    SpliceOutRemoves(p.executing, i);
    assert i in p.executing;
    if SomeRejected(p) {
      RejectionsStay(p, Remove(i));
    }
    assert q.tasks[i] == Removed(p.tasks[i].ok);
  }

  lemma StartHolds(p: Pool)
    requires Holds(p) && Enabled(p, Start)
    ensures Holds(Next(p, Start))
  {
    var q, n := Next(p, Start), |p.tasks|;
    assert n !in p.executing;
    assert forall i: nat :: i in q.executing <==> i in p.executing || i == n;
    assert Distinct(q.executing);
    assert forall i: nat | i < n :: q.tasks[i] == p.tasks[i];
  }

  lemma ResumeHolds(p: Pool)
    requires Holds(p) && Enabled(p, Resume)
    ensures Holds(Next(p, Resume))
  {
    if p.pc.Draining? && !p.pc.failed {
      var all := p.pc.all;
      forall i: nat | i < |p.tasks| ensures p.tasks[i].Removed? {
        assert i in p.executing ==> i in all;
      }
    }
    if SomeRejected(p) {
      RejectionsStay(p, Resume);
    }
  }

  lemma SettleHolds(p: Pool, i: nat, ok: bool)
    requires Holds(p) && Enabled(p, Settle(i, ok))
    ensures Holds(Next(p, Settle(i, ok)))
  {
    if SomeRejected(p) {
      RejectionsStay(p, Settle(i, ok));
    }
  }

  lemma StepHolds(p: Pool, e: Event)
    requires Holds(p)
    ensures Holds(Next(p, e))
  {
    hide SpliceOut, Notice, SomeRejected;
    if Enabled(p, e) {
      match e
      case Start => StartHolds(p);
      case Settle(i, ok) => SettleHolds(p, i, ok);
      case Remove(i) => RemoveHolds(p, i);
      case Resume => ResumeHolds(p);
      case Drain =>
    }
  }

  lemma {:induction false} RunHolds(p: Pool, events: seq<Event>)
    requires Holds(p)
    ensures Holds(Exec(p, events))
    decreases |events|
  {
    if events != [] {
      StepHolds(p, events[0]);
      RunHolds(Next(p, events[0]), events[1..]);
    }
  }

  // ---- what every run keeps ----

  function RunningTasks(p: Pool): set<nat> {
    set i: nat | i < |p.tasks| && p.tasks[i].Running?
  }

  lemma {:induction false} ListCoversSet(list: seq<nat>, of: set<nat>)
    requires forall i | i in of :: i in list
    ensures |of| <= |list|
  {
    if list != [] {
      var rest := of - {list[0]};
      ListCoversSet(list[1..], rest);
      assert of <= rest + {list[0]};
      SubsetCount(of, rest + {list[0]});
    } else {
      assert of == {};
    }
  }

  /**
   * Whatever the order of completion, rejections included: at most `concurrency` tasks run (one, if
   * `concurrency` is below one), and the loop waits only when it is exactly that many.
   */
  lemma AtMostConcurrencyRun(size: nat, concurrency: int, events: seq<Event>)
    ensures var p := Exec(Init(size, concurrency), events);
            && |RunningTasks(p)| <= Limit(concurrency)
            && (p.pc.Racing? && p.pc.winner.None? ==> |p.executing| == Limit(concurrency))
  {
    hide Next;
    var p := Exec(Init(size, concurrency), events);
    RunHolds(Init(size, concurrency), events);
    RunKeepsSize(Init(size, concurrency), events);
    ListCoversSet(p.executing, RunningTasks(p));
  }

  lemma {:induction false} RunKeepsSize(p: Pool, events: seq<Event>)
    ensures Exec(p, events).size == p.size && Exec(p, events).concurrency == p.concurrency
    decreases |events|
  {
    if events != [] {
      RunKeepsSize(Next(p, events[0]), events[1..]);
    }
  }

  /** The items in the order in which their tasks were started. */
  function Starts(p: Pool, events: seq<Event>): seq<nat>
    decreases |events|
  {
    if events == [] then []
    else (if events[0].Start? && Enabled(p, events[0]) then [|p.tasks|] else [])
         + Starts(Next(p, events[0]), events[1..])
  }

  lemma {:induction false} StartsInOrder(p: Pool, events: seq<Event>)
    ensures |Starts(p, events)| == |Exec(p, events).tasks| - |p.tasks|
    ensures forall k | 0 <= k < |Starts(p, events)| :: Starts(p, events)[k] == |p.tasks| + k
    decreases |events|
  {
    if events != [] {
      StartsInOrder(Next(p, events[0]), events[1..]);
    }
  }

  /**
   * Items are started in order, each at most once; when the function returns, every item was
   * started exactly once and every task has finished; and it throws only if some task rejected.
   */
  lemma ReturnsWhenAllFinished(size: nat, concurrency: int, events: seq<Event>)
    ensures var p, starts := Exec(Init(size, concurrency), events), Starts(Init(size, concurrency), events);
            && |starts| <= size && (forall k | 0 <= k < |starts| :: starts[k] == k)
            && (p.pc.Returned? ==> |starts| == |p.tasks| == size && forall i | 0 <= i < size :: p.tasks[i].Removed?)
            && (p.pc.Threw? ==> exists i | 0 <= i < |p.tasks| :: p.tasks[i] == Removed(false))
  {
    hide Next, Starts, Exec;
    RunHolds(Init(size, concurrency), events);
    RunKeepsSize(Init(size, concurrency), events);
    StartsInOrder(Init(size, concurrency), events);
  }

  // ---- progress ----

  function Weight(t: Task): nat {
    match t
    case Running => 2
    case Settled(_) => 1
    case Removed(_) => 0
  }

  function Weights(tasks: seq<Task>): nat {
    if tasks == [] then 0 else Weights(tasks[..|tasks| - 1]) + Weight(tasks[|tasks| - 1])
  }

  function PcWeight(pc: Pc): nat {
    match pc
    case Looping => 2
    case Racing(_, _) => 3
    case Draining(_, _) => 1
    case _ => 0
  }

  /** How many steps are left at most. */
  function Left(p: Pool): nat
    requires |p.tasks| <= p.size
  {
    4 * (p.size - |p.tasks|) + Weights(p.tasks) + PcWeight(p.pc)
  }

  lemma {:induction false} WeightsAfter(tasks: seq<Task>, i: nat, t: Task)
    requires i < |tasks|
    ensures Weights(tasks[i := t]) == Weights(tasks) - Weight(tasks[i]) + Weight(t)
  {
    var last := |tasks| - 1;
    if i == last {
      assert tasks[i := t][..last] == tasks[..last];
    } else {
      assert tasks[i := t][..last] == tasks[..last][i := t];
      WeightsAfter(tasks[..last], i, t);
    }
  }

  lemma StepDescends(p: Pool, e: Event)
    requires Holds(p) && Enabled(p, e)
    ensures |Next(p, e).tasks| <= p.size && Left(Next(p, e)) < Left(p)
  {
    hide SpliceOut, Weights;
    match e
    case Settle(i, ok) => WeightsAfter(p.tasks, i, Settled(ok));
    case Remove(i) => WeightsAfter(p.tasks, i, Removed(p.tasks[i].ok));
    case Start => WeightsOfOneMore(p.tasks);
    case _ =>
  }

  lemma WeightsOfOneMore(tasks: seq<Task>)
    ensures Weights(tasks + [Running]) == Weights(tasks) + 2
  {
    assert (tasks + [Running])[..|tasks|] == tasks;
  }

  /** Nothing can be done. */
  ghost predicate Stuck(p: Pool) {
    forall e :: !Enabled(p, e)
  }

  lemma HeadIsMember(s: seq<nat>)
    ensures s == [] || s[0] in s
  {
  }

  lemma OnlyOverIsStuck(p: Pool)
    requires Holds(p) && Stuck(p)
    ensures p.pc.Returned? || p.pc.Threw?
  {
    assert !Enabled(p, Start) && !Enabled(p, Drain) && !Enabled(p, Resume);
    forall i: nat | i < |p.tasks| ensures p.tasks[i].Removed? {
      assert !Enabled(p, Settle(i, true)) && !Enabled(p, Remove(i));
    }
    HeadIsMember(p.executing);
  }

  /** Every event of the run is one that can happen then. */
  ghost predicate Proper(p: Pool, events: seq<Event>)
    decreases |events|
  {
    events != [] ==> Enabled(p, events[0]) && Proper(Next(p, events[0]), events[1..])
  }

  lemma {:induction false} ProperRunsAreShort(p: Pool, events: seq<Event>)
    requires Holds(p) && Proper(p, events)
    ensures |events| <= Left(p)
    decreases |events|
  {
    hide Next, Left, Enabled;
    if events != [] {
      StepDescends(p, events[0]);
      StepHolds(p, events[0]);
      ProperRunsAreShort(Next(p, events[0]), events[1..]);
    }
  }

  /**
   * The function always gets to its end: a run has at most `4 * size + 2` steps, and one that
   * cannot go on has returned, or thrown because a task rejected; it returned if none did.
   */
  lemma AlwaysEnds(size: nat, concurrency: int, events: seq<Event>)
    requires Proper(Init(size, concurrency), events)
    ensures |events| <= 4 * size + 2
    ensures var p := Exec(Init(size, concurrency), events);
            Stuck(p) ==> && (p.pc.Returned? || (p.pc.Threw? && SomeRejected(p)))
                         && ((forall i | 0 <= i < |p.tasks| :: p.tasks[i] != Removed(false)) ==> p.pc.Returned?)
  {
    hide Next, Exec, Proper, Stuck;
    RunHolds(Init(size, concurrency), events);
    ProperRunsAreShort(Init(size, concurrency), events);
    var p := Exec(Init(size, concurrency), events);
    if Stuck(p) {
      OnlyOverIsStuck(p);
    }
  }
}
