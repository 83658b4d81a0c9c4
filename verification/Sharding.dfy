/**
 * How the WebDataset exporter splits samples into shards: one pass that closes the open shard
 * when the next sample's MCAP bytes would not fit on top of everything already in it. The
 * annotation bytes count towards the shard's size but not in that test.
 */
module Sharding {
  import opened Collections
  import opened Bytes

  datatype Sample = Sample(name: string, mcap: Bytes, anno: Bytes) {
    function Size(): nat {
      |mcap| + |anno|
    }
  }

  type Group = seq<Sample>

  function Last<T>(s: seq<T>): T
    requires s != []
  {
    s[|s| - 1]
  }

  function Init<T>(s: seq<T>): seq<T>
    requires s != []
  {
    s[..|s| - 1]
  }

  function SizeOf(g: Group): nat {
    if g == [] then 0 else SizeOf(Init(g)) + Last(g).Size()
  }

  function Flatten(groups: seq<Group>): Group {
    if groups == [] then [] else Flatten(Init(groups)) + Last(groups)
  }

  function Total(groups: seq<Group>): nat {
    if groups == [] then 0 else Total(Init(groups)) + SizeOf(Last(groups))
  }

  /** The groups after one more sample. */
  function Place(groups: seq<Group>, x: Sample, limit: int): seq<Group> {
    if groups == [] || SizeOf(Last(groups)) + |x.mcap| > limit then groups + [[x]]
    else Init(groups) + [Last(groups) + [x]]
  }

  function Shards(samples: seq<Sample>, limit: int): seq<Group> {
    if samples == [] then [] else Place(Shards(Init(samples), limit), Last(samples), limit)
  }

  /** Every sample after the first was admitted: its MCAP bytes fit on top of all before it. */
  ghost predicate Fits(g: Group, limit: int) {
    forall k | 1 <= k < |g| :: SizeOf(g[..k]) + |g[k].mcap| <= limit
  }

  /** Some way to cut the samples, in order, into groups that all fit. */
  ghost predicate IsSplit(groups: seq<Group>, samples: seq<Sample>, limit: int) {
    Flatten(groups) == samples && forall g | g in groups :: Fits(g, limit)
  }

  // ---- sums ----

  lemma {:induction false} SizeConcat(a: Group, b: Group)
    ensures SizeOf(a + b) == SizeOf(a) + SizeOf(b)
  {
    if b == [] {
      assert a + b == a;
    } else {
      assert Init(a + b) == a + Init(b);
      SizeConcat(a, Init(b));
    }
  }

  lemma SplitLast(groups: seq<Group>, g: Group)
    ensures Flatten(groups + [g]) == Flatten(groups) + g
    ensures Total(groups + [g]) == Total(groups) + SizeOf(g)
  {
    assert Init(groups + [g]) == groups;
  }

  lemma {:induction false} TotalIsSize(groups: seq<Group>)
    ensures Total(groups) == SizeOf(Flatten(groups))
  {
    if groups != [] {
      TotalIsSize(Init(groups));
      SizeConcat(Flatten(Init(groups)), Last(groups));
    }
  }

  // ---- the shards are a split, with no shard empty and no two adjacent ones mergeable ----

  /** `b` could not have joined `a`. */
  ghost predicate Full(a: Group, b: Group, limit: int) {
    b != [] && SizeOf(a) + |b[0].mcap| > limit
  }

  lemma ExtendFits(g: Group, x: Sample, limit: int)
    requires Fits(g, limit) && SizeOf(g) + |x.mcap| <= limit
    ensures Fits(g + [x], limit)
  {
    forall k | 1 <= k < |g| + 1 ensures SizeOf((g + [x])[..k]) + |(g + [x])[k].mcap| <= limit {
      assert (g + [x])[..k] == if k < |g| then g[..k] else g;
    }
  }

  ghost predicate Packed(groups: seq<Group>, limit: int) {
    && (forall j | 0 <= j < |groups| :: groups[j] != [])
    && (forall j | 0 <= j < |groups| - 1 :: Full(groups[j], groups[j + 1], limit))
  }

  lemma OpenKeeps(groups: seq<Group>, samples: seq<Sample>, x: Sample, limit: int)
    requires IsSplit(groups, samples, limit) && Packed(groups, limit)
    requires groups != [] ==> SizeOf(Last(groups)) + |x.mcap| > limit
    ensures IsSplit(groups + [[x]], samples + [x], limit) && Packed(groups + [[x]], limit)
  {
    SplitLast(groups, [x]);
    assert groups != [] ==> Full(Last(groups), [x], limit);
  }

  lemma AppendKeepsSplit(front: seq<Group>, g: Group, samples: seq<Sample>, x: Sample, limit: int)
    requires IsSplit(front + [g], samples, limit) && SizeOf(g) + |x.mcap| <= limit
    ensures IsSplit(front + [g + [x]], samples + [x], limit)
  {
    hide SizeOf, Fits, Flatten;
    var before, after := front + [g], front + [g + [x]];
    assert before[|front|] == g && g in before;
    ExtendFits(g, x, limit);
    SplitLast(front, g);
    SplitLast(front, g + [x]);
    assert Flatten(front) + (g + [x]) == samples + [x];
    forall h | h in after ensures Fits(h, limit) {
      if h != g + [x] {
        assert h in before;
      }
    }
  }

  lemma AppendKeepsPacked(front: seq<Group>, g: Group, x: Sample, limit: int)
    requires Packed(front + [g], limit)
    ensures Packed(front + [g + [x]], limit)
  {
    hide SizeOf;
    var before, after := front + [g], front + [g + [x]];
    assert before[|front|] == g && (g + [x])[0] == g[0];
    assert forall j | 0 <= j < |front| :: after[j] == before[j];
    forall j | 0 <= j < |after| - 1 ensures Full(after[j], after[j + 1], limit) {
      assert Full(before[j], before[j + 1], limit) && after[j] == before[j];
    }
  }

  lemma PlaceKeeps(groups: seq<Group>, samples: seq<Sample>, x: Sample, limit: int)
    requires IsSplit(groups, samples, limit) && Packed(groups, limit)
    ensures IsSplit(Place(groups, x, limit), samples + [x], limit) && Packed(Place(groups, x, limit), limit)
    ensures Place(groups, x, limit) != []
  {
    if groups == [] || SizeOf(Last(groups)) + |x.mcap| > limit {
      OpenKeeps(groups, samples, x, limit);
    } else {
      assert groups == Init(groups) + [Last(groups)];
      AppendKeepsSplit(Init(groups), Last(groups), samples, x, limit);
      AppendKeepsPacked(Init(groups), Last(groups), x, limit);
    }
  }

  /**
   * The shards, one after the other, are all the samples once in order; each sample after the
   * first of its shard was admitted; no shard is empty; a shard was closed only because the
   * next sample's MCAP bytes would have taken it past the limit.
   */
  lemma {:induction false} ShardsAreASplit(samples: seq<Sample>, limit: int)
    ensures var groups := Shards(samples, limit);
            && IsSplit(groups, samples, limit)
            && Packed(groups, limit)
            && (samples != [] ==> groups != [])
  {
    if samples != [] {
      ShardsAreASplit(Init(samples), limit);
      PlaceKeeps(Shards(Init(samples), limit), Init(samples), Last(samples), limit);
      assert Init(samples) + [Last(samples)] == samples;
    }
  }

  /** A shard of two or more samples exceeds the limit by at most its last annotation. */
  lemma ShardSizeBound(samples: seq<Sample>, limit: int, g: Group)
    requires g in Shards(samples, limit) && |g| >= 2
    ensures SizeOf(g) <= limit + |Last(g).anno|
  {
    ShardsAreASplit(samples, limit);
    assert SizeOf(g[..|g| - 1]) + |g[|g| - 1].mcap| <= limit;
  }

  // ---- no split has fewer groups ----

  lemma {:induction false} FlattenSuffix(groups: seq<Group>)
    requires groups != []
    ensures |Last(groups)| <= |Flatten(groups)|
    ensures Flatten(groups)[|Flatten(groups)| - |Last(groups)|..] == Last(groups)
  {
  }

  lemma SuffixNotLarger(s: Group, a: Group, b: Group)
    requires |a| <= |b| <= |s| && s[|s| - |a|..] == a && s[|s| - |b|..] == b
    ensures SizeOf(a) <= SizeOf(b)
  {
    assert b == b[..|b| - |a|] + a;
    SizeConcat(b[..|b| - |a|], a);
  }

  lemma LastNotLarger(mine: seq<Group>, other: seq<Group>, samples: seq<Sample>, limit: int)
    requires mine != [] && other != [] && Flatten(mine) == samples == Flatten(other)
    requires |Last(mine)| <= |Last(other)|
    ensures SizeOf(Last(mine)) <= SizeOf(Last(other))
  {
    FlattenSuffix(mine);
    FlattenSuffix(other);
    SuffixNotLarger(samples, Last(mine), Last(other));
  }

  lemma InitOfSum(a: Group, b: Group)
    requires b != []
    ensures Init(a + b) == a + Init(b) && Last(a + b) == Last(b)
  {
  }

  /** A competing split without its last sample; its last group goes if that was all it held. */
  lemma Shorten(other: seq<Group>, samples: seq<Sample>, limit: int)
    requires IsSplit(other, samples, limit) && other != [] && Last(other) != []
    ensures samples != [] && Last(samples) == Last(Last(other))
    ensures Init(samples) == Flatten(Init(other)) + Init(Last(other))
    ensures Fits(Init(Last(other)), limit)
    ensures |Last(other)| >= 2 ==> SizeOf(Init(Last(other))) + |Last(samples).mcap| <= limit
    ensures forall g | g in Init(other) :: Fits(g, limit)
  {
    assert Last(other) in other;
    InitOfSum(Flatten(Init(other)), Last(other));
    InitFits(Last(other), limit);
  }

  lemma InitFits(g: Group, limit: int)
    requires g != [] && Fits(g, limit)
    ensures Fits(Init(g), limit)
    ensures |g| >= 2 ==> SizeOf(Init(g)) + |Last(g).mcap| <= limit
  {
    assert forall k | 1 <= k < |g| - 1 :: Init(g)[..k] == g[..k];
    assert |g| >= 2 ==> g[..|g| - 1] == Init(g);
  }

  /** The greedy shards are ahead of any split: fewer, or as many with a last shard no longer. */
  lemma {:induction false} StaysAhead(samples: seq<Sample>, limit: int, other: seq<Group>)
    requires IsSplit(other, samples, limit) && samples != [] && other != [] && Last(other) != []
    ensures var mine := Shards(samples, limit);
            |mine| < |other| || (|mine| == |other| && |Last(mine)| <= |Last(other)|)
    decreases |samples|, 0
  {
    hide Flatten, SizeOf, Fits, Packed;
    Shorten(other, samples, limit);
    ShardsAreASplit(Init(samples), limit);
    var g, x := Init(Last(other)), Last(samples);
    var before := Shards(Init(samples), limit);
    if g == [] {
      assert Flatten(Init(other)) + g == Flatten(Init(other));
      FewestShards(Init(samples), limit, Init(other));
    } else {
      var shorter := Init(other) + [g];
      SplitLast(Init(other), g);
      assert shorter != [] && Last(shorter) == g;
      StaysAhead(Init(samples), limit, shorter);
      if |before| == |shorter| {
        LastNotLarger(before, shorter, Init(samples), limit);
      }
    }
  }

  /** No order-preserving split into groups that fit has fewer groups than there are shards. */
  lemma {:induction false} FewestShards(samples: seq<Sample>, limit: int, other: seq<Group>)
    requires IsSplit(other, samples, limit)
    ensures |Shards(samples, limit)| <= |other|
    decreases |samples|, |other| + 1
  {
    if samples != [] && other != [] {
      if Last(other) == [] {
        assert other == Init(other) + [[]];
        SplitLast(Init(other), []);
        FewestShards(samples, limit, Init(other));
      } else {
        StaysAhead(samples, limit, other);
      }
    }
  }

  // ---- how many shards there can be ----

  lemma FullPair(a: Group, b: Group, limit: nat)
    requires Full(a, b, limit)
    ensures SizeOf(a) + SizeOf(b) >= limit + 1
  {
    assert b == [b[0]] + b[1..];
    SizeConcat([b[0]], b[1..]);
    assert Init([b[0]]) == [];
  }

  lemma {:induction false} PairsExceed(groups: seq<Group>, limit: nat)
    requires forall j | 0 <= j < |groups| - 1 :: Full(groups[j], groups[j + 1], limit)
    ensures Total(groups) >= (|groups| / 2) * (limit + 1)
    decreases |groups|
  {
    if |groups| >= 2 {
      var rest := groups[..|groups| - 2];
      var a, b := groups[|groups| - 2], groups[|groups| - 1];
      PairsExceed(rest, limit);
      assert Init(groups) == rest + [a] && groups == rest + [a] + [b];
      SplitLast(rest, a);
      SplitLast(rest + [a], b);
      FullPair(a, b, limit);
      OneMore(|groups| / 2, |rest| / 2, limit + 1);
    }
  }

  lemma OneMore(n: nat, m: nat, u: nat)
    requires n == m + 1
    ensures n * u == m * u + u
  {
  }

  lemma QuotientBound(m: nat, limit: nat, total: nat)
    requires limit >= 1 && m * (limit + 1) <= total
    ensures m <= total / limit
  {
    var q := total / limit;
    assert total == q * limit + total % limit;
    assert m * (limit + 1) == m * limit + m;
    assert (q + 1) * limit == q * limit + limit;
    if m > q {
      ProductsGrow(q + 1, m, limit);
      assert false;
    }
  }

  /** Two adjacent shards together exceed the limit, so there are at most 2 * total / limit + 1. */
  lemma ShardCountBound(samples: seq<Sample>, limit: nat)
    requires limit >= 1
    ensures |Shards(samples, limit)| <= 2 * (SizeOf(samples) / limit) + 1
  {
    var groups := Shards(samples, limit);
    ShardsAreASplit(samples, limit);
    TotalIsSize(groups);
    PairsExceed(groups, limit);
    QuotientBound(|groups| / 2, limit, SizeOf(samples));
  }
}
