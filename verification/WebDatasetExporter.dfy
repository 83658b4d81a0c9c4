/**
 * The WebDataset exporter: one loop that fills tar files and records a `ShardInfo` whenever it
 * closes one, then the manifest. `load` stands for reading the object store, `dumps` for
 * rendering the annotations as JSON.
 */
module WebDatasetExporter {
  import opened Bytes
  import opened Options
  import opened Decimal
  import opened Sharding

  datatype Annotation = Annotation(
    id: string, timeStart: Option<real>, timeEnd: Option<real>, labels: string, version: int)

  datatype EpisodeRef = EpisodeRef(
    episodeId: string, storagePath: string,
    clipStart: Option<real>, clipEnd: Option<real>, annotations: seq<Annotation>)

  datatype Member = Member(name: string, data: Bytes)

  datatype ShardInfo = ShardInfo(path: string, sizeBytes: nat, sampleCount: nat)

  datatype Manifest = Manifest(episodeCount: nat, shardCount: nat, totalSizeBytes: nat, shards: seq<ShardInfo>)

  function SampleName(episodeId: string, i: nat): string {
    "ep_" + (if |episodeId| <= 8 then episodeId else episodeId[..8]) + "_" + Padded(i, 6)
  }

  function ShardPath(dir: string, idx: nat): string {
    dir + "/shard-" + Padded(idx, 6) + ".tar"
  }

  /** What the loop reads for each reference. */
  function Samples(refs: seq<EpisodeRef>, load: string -> Bytes, dumps: seq<Annotation> -> Bytes): (s: seq<Sample>)
    ensures |s| == |refs|
    ensures forall i | 0 <= i < |s| ::
              s[i] == Sample(SampleName(refs[i].episodeId, i), load(refs[i].storagePath), dumps(refs[i].annotations))
  {
    seq(|refs|, i requires 0 <= i < |refs| =>
      Sample(SampleName(refs[i].episodeId, i), load(refs[i].storagePath), dumps(refs[i].annotations)))
  }

  /** The members of a tar: an `.mcap` and a `.json` for each sample, in order. */
  function Members(g: Group): seq<Member> {
    if g == [] then [] else Members(Init(g)) + SampleMembers(Last(g))
  }

  function SampleMembers(x: Sample): seq<Member> {
    [Member(x.name + ".mcap", x.mcap), Member(x.name + ".json", x.anno)]
  }

  function SumOfSizes(shards: seq<ShardInfo>): nat {
    if shards == [] then 0 else SumOfSizes(Init(shards)) + Last(shards).sizeBytes
  }

  function SumOfCounts(shards: seq<ShardInfo>): nat {
    if shards == [] then 0 else SumOfCounts(Init(shards)) + Last(shards).sampleCount
  }

  function BuildManifest(refs: seq<EpisodeRef>, shards: seq<ShardInfo>): Manifest {
    Manifest(|refs|, |shards|, SumOfSizes(shards), shards)
  }

  /** The records of closed groups: shard numbers start at 1. */
  function InfosOf(dir: string, groups: seq<Group>): (infos: seq<ShardInfo>)
    ensures |infos| == |groups|
  {
    if groups == [] then []
    else InfosOf(dir, Init(groups)) + [ShardInfo(ShardPath(dir, |groups|), SizeOf(Last(groups)), |Last(groups)|)]
  }

  /** The tar files on disk; opening one for writing would replace an older one of that name. */
  function FilesOf(dir: string, groups: seq<Group>): map<string, seq<Member>> {
    if groups == [] then map[]
    else FilesOf(dir, Init(groups))[ShardPath(dir, |groups|) := Members(Last(groups))]
  }

  lemma ShardPathsDistinct(dir: string, i: nat, j: nat)
    requires i != j
    ensures ShardPath(dir, i) != ShardPath(dir, j)
  {
    if Padded(i, 6) == Padded(j, 6) {
      PaddedInjective(i, j, 6);
      assert false;
    }
    var p := dir + "/shard-";
    forall k ensures ShardPath(dir, k)[|p|..|ShardPath(dir, k)| - 4] == Padded(k, 6) {
      assert ShardPath(dir, k) == p + (Padded(k, 6) + ".tar");
    }
  }

  /** No two samples of an export share a name, whatever the episode ids are. */
  lemma SampleNamesDistinct(a: string, i: nat, b: string, j: nat)
    requires i != j
    ensures SampleName(a, i) != SampleName(b, j)
  {
    if SampleName(a, i) == SampleName(b, j) {
      LastUnderscore("ep_" + (if |a| <= 8 then a else a[..8]), Padded(i, 6),
                     "ep_" + (if |b| <= 8 then b else b[..8]), Padded(j, 6));
      PaddedInjective(i, j, 6);
      assert false;
    }
  }

  lemma CloseShard(dir: string, groups: seq<Group>, g: Group)
    ensures var path := ShardPath(dir, |groups| + 1);
            && InfosOf(dir, groups + [g]) == InfosOf(dir, groups) + [ShardInfo(path, SizeOf(g), |g|)]
            && FilesOf(dir, groups + [g]) == FilesOf(dir, groups)[path := Members(g)]
  {
    assert Init(groups + [g]) == groups;
  }

  /** The groups so far, with the shard being filled (if any) last. */
  function Groups(closed: seq<Group>, filling: Group): seq<Group> {
    if filling == [] then closed else closed + [filling]
  }

  lemma NextShards(samples: seq<Sample>, i: nat, closed: seq<Group>, filling: Group, limit: int)
    requires i < |samples| && Shards(samples[..i], limit) == Groups(closed, filling)
    requires filling == [] ==> closed == []
    ensures Shards(samples[..i + 1], limit) ==
            if filling == [] || SizeOf(filling) + |samples[i].mcap| > limit
            then Groups(closed, filling) + [[samples[i]]]
            else closed + [filling + [samples[i]]]
  {
    assert Init(samples[..i + 1]) == samples[..i] && Last(samples[..i + 1]) == samples[i];
    assert filling != [] ==> Init(closed + [filling]) == closed;
  }

  lemma AddSample(filling: Group, x: Sample)
    ensures SizeOf(filling + [x]) == SizeOf(filling) + |x.mcap| + |x.anno|
    ensures Members(filling + [x]) == Members(filling) + SampleMembers(x)
  {
    assert Init(filling + [x]) == filling;
  }

  lemma NothingYet(dir: string, limit: int)
    ensures InfosOf(dir, []) == [] && FilesOf(dir, []) == map[] && Shards([], limit) == []
    ensures Members([]) == [] && SizeOf([]) == 0
  {
  }

  /**
   * The export loop. `open` is the shard being filled, `currentSize` and `currentCount` its
   * running totals; it is on disk under `currentPath` and recorded when it is closed.
   */
  method Export(refs: seq<EpisodeRef>, load: string -> Bytes, dumps: seq<Annotation> -> Bytes,
                shardSize: int, dir: string)
    returns (shards: seq<ShardInfo>, manifest: Manifest, files: map<string, seq<Member>>)
    ensures var groups := Shards(Samples(refs, load, dumps), shardSize);
            shards == InfosOf(dir, groups) && files == FilesOf(dir, groups)
    ensures manifest == BuildManifest(refs, shards)
  {
    hide BuildManifest, ShardPath, SampleName, InfosOf, FilesOf, Shards, Members, SizeOf;
    NothingYet(dir, shardSize);
    ghost var samples := Samples(refs, load, dumps);
    ghost var closed: seq<Group> := [];
    ghost var filling: Group := [];
    shards, files := [], map[];
    var shardIdx, currentSize, currentCount := 0, 0, 0;
    var currentTar: Option<seq<Member>> := None;
    var currentPath := "";
    assert samples[..0] == [];
    for i := 0 to |refs|
      invariant shards == InfosOf(dir, closed) && files == FilesOf(dir, closed)
      invariant currentSize == SizeOf(filling) && currentCount == |filling|
      invariant currentTar == if filling == [] then None else Some(Members(filling))
      invariant filling != [] ==> shardIdx == |closed| + 1 && currentPath == ShardPath(dir, shardIdx)
      invariant filling == [] ==> shardIdx == |closed| == 0
      invariant Shards(samples[..i], shardSize) == Groups(closed, filling)
    {
      var mcapData := load(refs[i].storagePath);
      var annoData := dumps(refs[i].annotations);
      var sampleName := SampleName(refs[i].episodeId, i);
      NextShards(samples, i, closed, filling, shardSize);

      if currentTar.None? || currentSize + |mcapData| > shardSize {
        if currentTar.Some? {
          CloseShard(dir, closed, filling);
          files := files[currentPath := currentTar.value];
          shards := shards + [ShardInfo(currentPath, currentSize, currentCount)];
          closed := closed + [filling];
        }
        filling := [];
        assert filling + [samples[i]] == [samples[i]];
        currentSize, currentCount := 0, 0;
        shardIdx := shardIdx + 1;
        currentPath := ShardPath(dir, shardIdx);
        currentTar := Some([]);
      }
      AddSample(filling, samples[i]);
      currentTar := Some(currentTar.value + [Member(sampleName + ".mcap", mcapData),
          Member(sampleName + ".json", annoData)]);
      currentSize := currentSize + |mcapData| + |annoData|;
      currentCount := currentCount + 1;
      filling := filling + [samples[i]];
    }
    assert samples[..|refs|] == samples;
    if currentTar.Some? {
      CloseShard(dir, closed, filling);
      files := files[currentPath := currentTar.value];
      shards := shards + [ShardInfo(currentPath, currentSize, currentCount)];
    }
    manifest := BuildManifest(refs, shards);
  }

  lemma {:induction false} CountsAddUp(dir: string, groups: seq<Group>)
    ensures SumOfSizes(InfosOf(dir, groups)) == Total(groups)
    ensures SumOfCounts(InfosOf(dir, groups)) == |Flatten(groups)|
  {
    if groups != [] {
      CountsAddUp(dir, Init(groups));
      assert Init(InfosOf(dir, groups)) == InfosOf(dir, Init(groups));
    }
  }

  /** The manifest's totals are those of the samples, and its shard count is within the bound. */
  lemma ManifestAgrees(refs: seq<EpisodeRef>, load: string -> Bytes, dumps: seq<Annotation> -> Bytes,
      shardSize: int, dir: string)
    ensures var samples := Samples(refs, load, dumps);
            var m := BuildManifest(refs, InfosOf(dir, Shards(samples, shardSize)));
            && m.episodeCount == SumOfCounts(m.shards) == |samples|
            && m.shardCount == |m.shards|
            && m.totalSizeBytes == SizeOf(samples)
            && (shardSize >= 1 ==> m.shardCount <= 2 * (m.totalSizeBytes / shardSize) + 1)
  {
    var samples := Samples(refs, load, dumps);
    var groups := Shards(samples, shardSize);
    CountsAddUp(dir, groups);
    TotalIsSize(groups);
    ShardsAreASplit(samples, shardSize);
    if shardSize >= 1 {
      ShardCountBound(samples, shardSize);
    }
  }

  // ---- reading the shards back ----

  /** The tars' members, shard after shard in the order of the records. */
  function ReadBack(shards: seq<ShardInfo>, files: map<string, seq<Member>>): seq<Member>
    requires forall s | s in shards :: s.path in files
  {
    if shards == [] then [] else ReadBack(Init(shards), files) + files[Last(shards).path]
  }

  lemma {:induction false} MembersConcat(a: Group, b: Group)
    ensures Members(a + b) == Members(a) + Members(b)
  {
    if b == [] {
      assert a + b == a;
    } else {
      assert Init(a + b) == a + Init(b);
      MembersConcat(a, Init(b));
    }
  }

  lemma {:induction false} FilesStay(dir: string, groups: seq<Group>, k: nat)
    requires 1 <= k <= |groups|
    ensures ShardPath(dir, k) in FilesOf(dir, groups)
    ensures FilesOf(dir, groups)[ShardPath(dir, k)] == Members(groups[k - 1])
  {
    if k < |groups| {
      FilesStay(dir, Init(groups), k);
      ShardPathsDistinct(dir, k, |groups|);
    }
  }

  lemma {:induction false} InfoPaths(dir: string, groups: seq<Group>)
    ensures forall j | 0 <= j < |groups| :: InfosOf(dir, groups)[j].path == ShardPath(dir, j + 1)
  {
    hide SizeOf, ShardPath;
    if groups != [] {
      InfoPaths(dir, Init(groups));
    }
  }

  lemma {:induction false} ReadBackGroups(groups: seq<Group>, shards: seq<ShardInfo>, files: map<string, seq<Member>>)
    requires |shards| == |groups|
    requires forall s | s in shards :: s.path in files
    requires forall j | 0 <= j < |groups| :: files[shards[j].path] == Members(groups[j])
    ensures ReadBack(shards, files) == Members(Flatten(groups))
  {
    if groups != [] {
      ReadBackGroups(Init(groups), Init(shards), files);
      MembersConcat(Flatten(Init(groups)), Last(groups));
    }
  }

  /** No tar overwrites another, so reading them back gives the members of all groups in order. */
  lemma TarsReadBack(dir: string, groups: seq<Group>)
    ensures var shards, files := InfosOf(dir, groups), FilesOf(dir, groups);
            && (forall j | 0 <= j < |groups| ::
                  shards[j].path in files && files[shards[j].path] == Members(groups[j]))
            && (forall s | s in shards :: s.path in files)
            && ReadBack(shards, files) == Members(Flatten(groups))
  {
    hide Members, InfosOf, FilesOf, ShardPath, Flatten;
    var shards, files := InfosOf(dir, groups), FilesOf(dir, groups);
    InfoPaths(dir, groups);
    forall j | 0 <= j < |groups| ensures shards[j].path in files && files[shards[j].path] == Members(groups[j]) {
      FilesStay(dir, groups, j + 1);
    }
    ReadBackGroups(groups, shards, files);
  }

  lemma {:induction false} MembersAre(g: Group)
    ensures |Members(g)| == 2 * |g|
    ensures forall i | 0 <= i < |g| ::
              && Members(g)[2 * i] == Member(g[i].name + ".mcap", g[i].mcap)
              && Members(g)[2 * i + 1] == Member(g[i].name + ".json", g[i].anno)
  {
    if g != [] {
      MembersAre(Init(g));
      assert forall i | 0 <= i < |g| - 1 :: Init(g)[i] == g[i];
    }
  }

  /**
   * No tar overwrites another, and reading the shards back in order gives two members for every
   * reference, in order: under its name, as `.mcap` the bytes its storage path loads, as `.json` its
   * annotations.
   */
  lemma ExportConserves(refs: seq<EpisodeRef>, load: string -> Bytes, dumps: seq<Annotation> -> Bytes,
      shardSize: int, dir: string)
    ensures var groups := Shards(Samples(refs, load, dumps), shardSize);
            var shards, files := InfosOf(dir, groups), FilesOf(dir, groups);
            && (forall s | s in shards :: s.path in files)
            && var members := ReadBack(shards, files);
               && |members| == 2 * |refs|
               && forall i | 0 <= i < |refs| ::
                    var name := SampleName(refs[i].episodeId, i);
                    && members[2 * i] == Member(name + ".mcap", load(refs[i].storagePath))
                    && members[2 * i + 1] == Member(name + ".json", dumps(refs[i].annotations))
  {
    hide Members, SampleName, InfosOf, FilesOf, Shards, ReadBack, Flatten, Packed;
    var samples := Samples(refs, load, dumps);
    ShardsAreASplit(samples, shardSize);
    TarsReadBack(dir, Shards(samples, shardSize));
    MembersAre(samples);
  }

  // ---- what the records say about the tars ----

  function BytesIn(members: seq<Member>): nat {
    if members == [] then 0 else BytesIn(members[..|members| - 1]) + |members[|members| - 1].data|
  }

  lemma BytesOneMore(members: seq<Member>, a: Member, b: Member)
    ensures BytesIn(members + [a, b]) == BytesIn(members) + |a.data| + |b.data|
  {
    assert (members + [a, b])[..|members| + 1] == members + [a];
    assert (members + [a])[..|members|] == members;
  }

  lemma {:induction false} SizeIsBytes(g: Group)
    ensures SizeOf(g) == BytesIn(Members(g))
  {
    if g != [] {
      var x := Last(g);
      SizeIsBytes(Init(g));
      BytesOneMore(Members(Init(g)), Member(x.name + ".mcap", x.mcap), Member(x.name + ".json", x.anno));
    }
  }

  lemma {:induction false} NoOtherFiles(dir: string, groups: seq<Group>)
    ensures forall path | path in FilesOf(dir, groups) :: exists j :: 1 <= j <= |groups| && path == ShardPath(dir, j)
  {
    if groups != [] {
      NoOtherFiles(dir, Init(groups));
      forall path | path in FilesOf(dir, groups) ensures exists j :: 1 <= j <= |groups| && path == ShardPath(dir, j) {
        if path != ShardPath(dir, |groups|) {
          assert path in FilesOf(dir, Init(groups));
          var j :| 1 <= j <= |groups| - 1 && path == ShardPath(dir, j);
        }
      }
    }
  }

  lemma {:induction false} InfoSizes(dir: string, groups: seq<Group>)
    ensures forall j | 0 <= j < |groups| ::
              && InfosOf(dir, groups)[j].sizeBytes == SizeOf(groups[j])
              && InfosOf(dir, groups)[j].sampleCount == |groups[j]|
  {
    hide SizeOf, ShardPath;
    if groups != [] {
      InfoSizes(dir, Init(groups));
    }
  }

  /**
   * The manifest lists the tars on disk, all of them, in the order they were written, each with the
   * bytes and the number of samples it holds; its totals are their sums.
   */
  lemma ManifestDescribesTars(refs: seq<EpisodeRef>, load: string -> Bytes, dumps: seq<Annotation> -> Bytes,
      shardSize: int, dir: string)
    ensures var groups := Shards(Samples(refs, load, dumps), shardSize);
            var files, m := FilesOf(dir, groups), BuildManifest(refs, InfosOf(dir, groups));
            && (forall j | 0 <= j < |m.shards| ::
                  && m.shards[j].path == ShardPath(dir, j + 1) && m.shards[j].path in files
                  && m.shards[j].sizeBytes == BytesIn(files[m.shards[j].path])
                  && 2 * m.shards[j].sampleCount == |files[m.shards[j].path]|)
            && (forall path | path in files :: exists j :: 0 <= j < |m.shards| && m.shards[j].path == path)
            && m.shardCount == |m.shards|
            && (forall s | s in m.shards :: s.path in files)
            && m.totalSizeBytes == BytesIn(ReadBack(m.shards, files))
            && 2 * m.episodeCount == |ReadBack(m.shards, files)|
  {
    hide Members, SampleName, ShardPath, InfosOf, FilesOf, Shards, ReadBack, Flatten, Packed;
    var samples := Samples(refs, load, dumps);
    var groups := Shards(samples, shardSize);
    var shards, files := InfosOf(dir, groups), FilesOf(dir, groups);
    InfoPaths(dir, groups);
    InfoSizes(dir, groups);
    NoOtherFiles(dir, groups);
    TarsReadBack(dir, groups);
    forall j | 0 <= j < |shards|
      ensures SizeOf(groups[j]) == BytesIn(Members(groups[j])) && |Members(groups[j])| == 2 * |groups[j]|
    {
      SizeIsBytes(groups[j]);
      MembersAre(groups[j]);
    }
    forall path | path in files ensures exists j :: 0 <= j < |shards| && shards[j].path == path {
      var j :| 1 <= j <= |groups| && path == ShardPath(dir, j);
      assert shards[j - 1].path == path;
    }
    ShardsAreASplit(samples, shardSize);
    ManifestAgrees(refs, load, dumps, shardSize, dir);
    SizeIsBytes(samples);
    MembersAre(samples);
  }

  /** A name says which sample it is of: the first eight characters of the episode id, and the index. */
  lemma SampleNameSays(episodeId: string, i: nat)
    ensures var name, n := SampleName(episodeId, i), if |episodeId| <= 8 then |episodeId| else 8;
            && |name| >= n + 10 && name[..3] == "ep_" && name[3..3 + n] == episodeId[..n] && name[3 + n] == '_'
            && AllDigits(name[n + 4..]) && Value(name[n + 4..]) == i
  {
    hide Padded, Value, AllDigits;
    var n := if |episodeId| <= 8 then |episodeId| else 8;
    var name := SampleName(episodeId, i);
    assert name == "ep_" + episodeId[..n] + "_" + Padded(i, 6);
    assert name[n + 4..] == Padded(i, 6);
    ValueOfPadded(i, 6);
  }

  /** ... and a tar's name says which shard it is. */
  lemma ShardPathSays(dir: string, j: nat)
    ensures var path, n := ShardPath(dir, j), |dir| + 7;
            && |path| >= n + 10 && path[..n] == dir + "/shard-" && path[|path| - 4..] == ".tar"
            && AllDigits(path[n..|path| - 4]) && Value(path[n..|path| - 4]) == j
  {
    hide Padded, Value, AllDigits;
    var path, n := ShardPath(dir, j), |dir| + 7;
    assert path == dir + "/shard-" + Padded(j, 6) + ".tar";
    assert path[n..|path| - 4] == Padded(j, 6);
    ValueOfPadded(j, 6);
  }
}
