/**
 * The export worker: resolving a version's episode references against the current tables, then
 * exporting, uploading and completing the job.
 */
module ExportWorker {
  import opened Bytes
  import opened Options
  import opened Decimal
  import opened Sharding
  import opened WebDatasetExporter
  import opened DatasetVersions

  /** A row of the `annotations` table. */
  datatype AnnotationRow = AnnotationRow(episodeId: Uuid, status: string, payload: Annotation)

  /** The payloads of the approved annotations of one episode, in row order. */
  function ApprovedFor(rows: seq<AnnotationRow>, u: Uuid): seq<Annotation> {
    if rows == [] then []
    else ApprovedFor(Init(rows), u) +
         if Last(rows).status == "approved" && Last(rows).episodeId == u then [Last(rows).payload] else []
  }

  /** What one reference resolves to: nothing if its string is not the key of a row. */
  function ResolveOne(codec: UuidCodec, table: EpisodeTable, rows: seq<AnnotationRow>, raw: RefIn): seq<EpisodeRef>
    requires codec.parse(raw.episodeId).Some?
  {
    var u := codec.parse(raw.episodeId).value;
    if codec.show(u) == raw.episodeId && u in table then
      [EpisodeRef(raw.episodeId, table[u].storagePath.GetOr(""), raw.clipStart, raw.clipEnd, ApprovedFor(rows, u))]
    else []
  }

  function ResolveAll(codec: UuidCodec, table: EpisodeTable,
                      rows: seq<AnnotationRow>, raws: seq<RefIn>): seq<EpisodeRef>
    requires AllParse(codec, raws)
  {
    if raws == [] then []
    else
      assert AllParse(codec, Init(raws));
      ResolveAll(codec, table, rows, Init(raws)) + ResolveOne(codec, table, rows, Last(raws))
  }

  /** The rows the second query returns: approved, of a referenced episode. */
  predicate Selected(ids: seq<Uuid>, row: AnnotationRow) {
    row.episodeId in ids && row.status == "approved"
  }

  function Get(byEpisode: map<string, seq<Annotation>>, key: string): seq<Annotation> {
    if key in byEpisode then byEpisode[key] else []
  }

  lemma ShowInjective(codec: UuidCodec, u: Uuid, v: Uuid)
    requires codec.Lawful() && codec.show(u) == codec.show(v)
    ensures u == v
  {
    assert codec.parse(codec.show(u)) == Some(u);
    assert codec.parse(codec.show(v)) == Some(v);
  }

  /** The rows the first query returns, by the canonical string of their id. */
  function ById(codec: UuidCodec, table: EpisodeTable, ids: seq<Uuid>): map<string, Episode>
    requires codec.Lawful()
  {
    assert forall u, v: Uuid | codec.show(u) == codec.show(v) :: u == v by {
      forall u, v: Uuid | codec.show(u) == codec.show(v) ensures u == v { ShowInjective(codec, u, v); }
    }
    map u | u in table && u in ids :: codec.show(u) := table[u]
  }

  /** A reference's string is a key of the fetched rows exactly if it is canonical and the row exists. */
  lemma KeyOfRow(codec: UuidCodec, table: EpisodeTable, ids: seq<Uuid>, i: nat, raws: seq<RefIn>)
    requires codec.Lawful() && AllParse(codec, raws) && ids == RefIds(codec, raws) && i < |raws|
    ensures var keys := ById(codec, table, ids);
            var u := codec.parse(raws[i].episodeId).value;
            && (raws[i].episodeId in keys <==> codec.show(u) == raws[i].episodeId && u in table)
            && (raws[i].episodeId in keys ==> keys[raws[i].episodeId] == table[u])
  {
    var u := codec.parse(raws[i].episodeId).value;
    assert ids[i] == u;
    forall v | v in table && v in ids && codec.show(v) == raws[i].episodeId ensures v == u {
      assert codec.parse(codec.show(v)) == Some(v);
    }
  }

  /** The first loop: annotations grouped by the canonical string of their episode. */
  method GroupAnnotations(codec: UuidCodec, ids: seq<Uuid>, rows: seq<AnnotationRow>)
      returns (byEpisode: map<string, seq<Annotation>>)
    requires codec.Lawful()
    ensures forall u | u in ids :: Get(byEpisode, codec.show(u)) == ApprovedFor(rows, u)
  {
    byEpisode := map[];
    for i := 0 to |rows|
      invariant forall u | u in ids :: Get(byEpisode, codec.show(u)) == ApprovedFor(rows[..i], u)
    {
      assert Init(rows[..i + 1]) == rows[..i];
      if Selected(ids, rows[i]) {
        var key := codec.show(rows[i].episodeId);
        byEpisode := byEpisode[key := Get(byEpisode, key) + [rows[i].payload]];
        forall u | u in ids && codec.show(u) == key ensures u == rows[i].episodeId {
          ShowInjective(codec, u, rows[i].episodeId);
        }
      }
    }
    assert rows[..|rows|] == rows;
  }

  lemma ResolveNone(codec: UuidCodec, table: EpisodeTable, rows: seq<AnnotationRow>)
    ensures AllParse(codec, []) && ResolveAll(codec, table, rows, []) == []
  {
  }

  lemma ResolveOneMore(codec: UuidCodec, table: EpisodeTable, rows: seq<AnnotationRow>, raws: seq<RefIn>, i: nat)
    requires AllParse(codec, raws) && i < |raws|
    ensures AllParse(codec, raws[..i]) && AllParse(codec, raws[..i + 1])
    ensures ResolveAll(codec, table, rows, raws[..i + 1]) ==
            ResolveAll(codec, table, rows, raws[..i]) + ResolveOne(codec, table, rows, raws[i])
  {
    hide ResolveOne;
    assert Init(raws[..i + 1]) == raws[..i];
  }

  /** The second loop: one `EpisodeRef` for each reference whose row was found, in order. */
  method ResolveEpisodeRefs(codec: UuidCodec, table: EpisodeTable, rows: seq<AnnotationRow>, raws: seq<RefIn>)
    returns (r: Result<seq<EpisodeRef>>)
    requires codec.Lawful()
    ensures r == if AllParse(codec, raws) then Ok(ResolveAll(codec, table, rows, raws)) else Err(MalformedUuid)
  {
    hide ApprovedFor, ResolveAll, ById;
    if raws == [] {
      ResolveNone(codec, table, rows);
      return Ok([]);
    }
    if !AllParse(codec, raws) {
      return Err(MalformedUuid);
    }
    var ids := RefIds(codec, raws);
    var episodesById := ById(codec, table, ids);
    var byEpisode := GroupAnnotations(codec, ids, rows);
    var refs: seq<EpisodeRef> := [];
    ResolveNone(codec, table, rows);
    assert raws[..0] == [];
    for i := 0 to |raws|
      invariant AllParse(codec, raws[..i]) && refs == ResolveAll(codec, table, rows, raws[..i])
    {
      ResolveOneMore(codec, table, rows, raws, i);
      var epId := raws[i].episodeId;
      KeyOfRow(codec, table, ids, i, raws);
      if epId in episodesById {
        var ep := episodesById[epId];
        refs := refs + [EpisodeRef(epId, ep.storagePath.GetOr(""),
                                   raws[i].clipStart, raws[i].clipEnd, Get(byEpisode, epId))];
      }
    }
    assert raws[..|raws|] == raws;
    r := Ok(refs);
  }

  // ---- from version to manifest ----

  /** A reference that survives resolution: its string is canonical and its episode still exists. */
  predicate Survives(codec: UuidCodec, table: EpisodeTable, raw: RefIn) {
    codec.Canonical(raw.episodeId) && codec.parse(raw.episodeId).value in table
  }

  lemma {:induction false} ResolvedLength(codec: UuidCodec, table: EpisodeTable,
      rows: seq<AnnotationRow>, raws: seq<RefIn>)
    requires AllParse(codec, raws)
    ensures var refs := ResolveAll(codec, table, rows, raws);
            && |refs| <= |raws|
            && (|refs| == |raws| <==> forall i | 0 <= i < |raws| :: Survives(codec, table, raws[i]))
  {
    if raws != [] {
      ResolvedLength(codec, table, rows, Init(raws));
    }
  }

  /**
   * Resolution keeps every reference, in order, each with its own clip and exactly its approved
   * annotations, if and only if every reference string is canonical and every episode exists.
   */
  lemma {:induction false} ResolutionKeepsAllIff(codec: UuidCodec, table: EpisodeTable,
      rows: seq<AnnotationRow>, raws: seq<RefIn>)
    requires AllParse(codec, raws)
    ensures var refs := ResolveAll(codec, table, rows, raws);
            (forall i | 0 <= i < |raws| :: Survives(codec, table, raws[i])) <==>
            && |refs| == |raws|
            && forall i | 0 <= i < |raws| ::
                 && refs[i].episodeId == raws[i].episodeId
                 && refs[i].clipStart == raws[i].clipStart && refs[i].clipEnd == raws[i].clipEnd
                 && refs[i].annotations == ApprovedFor(rows, codec.parse(raws[i].episodeId).value)
  {
    ResolvedLength(codec, table, rows, raws);
    if raws != [] && forall i | 0 <= i < |raws| :: Survives(codec, table, raws[i]) {
      ResolutionKeepsAllIff(codec, table, rows, Init(raws));
      ResolvedLength(codec, table, rows, Init(raws));
      assert forall i | 0 <= i < |raws| - 1 :: Init(raws)[i] == raws[i];
    }
  }

  /** What a reference that survives becomes. */
  ghost predicate ResolvesTo(codec: UuidCodec, table: EpisodeTable, rows: seq<AnnotationRow>, raw: RefIn, r: EpisodeRef)
    requires Survives(codec, table, raw)
  {
    var u := codec.parse(raw.episodeId).value;
    && r.episodeId == raw.episodeId && r.clipStart == raw.clipStart && r.clipEnd == raw.clipEnd
    && r.storagePath == (match table[u].storagePath case Some(path) => path case None => "")
    && r.annotations == ApprovedFor(rows, u)
  }

  lemma ResolveOneMeans(codec: UuidCodec, table: EpisodeTable, rows: seq<AnnotationRow>, raw: RefIn)
    requires codec.parse(raw.episodeId).Some?
    ensures var r := ResolveOne(codec, table, rows, raw);
            if Survives(codec, table, raw) then |r| == 1 && ResolvesTo(codec, table, rows, raw, r[0]) else r == []
  {
    hide ApprovedFor;
  }

  /**
   * Exactly the references that survive are resolved, in their order, each to its own id and clip, the
   * storage path of its episode's row, or none, and its episode's approved annotations.
   */
  lemma {:induction false} ResolvedAreSurvivors(codec: UuidCodec, table: EpisodeTable,
      rows: seq<AnnotationRow>, raws: seq<RefIn>) returns (kept: seq<nat>)
    requires AllParse(codec, raws)
    ensures forall i, j | 0 <= i < j < |kept| :: kept[i] < kept[j]
    ensures forall i: nat :: i in kept <==> i < |raws| && Survives(codec, table, raws[i])
    ensures var refs := ResolveAll(codec, table, rows, raws);
            && |refs| == |kept|
            && forall j | 0 <= j < |kept| ::
                 kept[j] in kept && ResolvesTo(codec, table, rows, raws[kept[j]], refs[j])
  {
    hide ApprovedFor, ResolveOne, ResolvesTo, Survives;
    if raws == [] {
      kept := [];
    } else {
      var before := ResolvedAreSurvivors(codec, table, rows, Init(raws));
      ResolveOneMeans(codec, table, rows, Last(raws));
      assert forall i | 0 <= i < |raws| - 1 :: Init(raws)[i] == raws[i];
      assert forall j | 0 <= j < |before| :: before[j] in before;
      var n := |raws| - 1;
      kept := before + if Survives(codec, table, raws[n]) then [n] else [];
      assert forall i: nat :: i in kept <==> i in before || (i == n && Survives(codec, table, raws[n]));
    }
  }

  lemma NoneApproved(u: Uuid)
    ensures ApprovedFor([], u) == []
  {
  }

  lemma ApprovedForSnoc(rows: seq<AnnotationRow>, row: AnnotationRow, u: Uuid)
    ensures ApprovedFor(rows + [row], u) ==
            ApprovedFor(rows, u) + if row.status == "approved" && row.episodeId == u then [row.payload] else []
  {
    assert Init(rows + [row]) == rows;
  }

  /** Annotations come in row order: those of earlier rows first. */
  lemma {:induction false} ApprovedForConcat(a: seq<AnnotationRow>, b: seq<AnnotationRow>, u: Uuid)
    ensures ApprovedFor(a + b, u) == ApprovedFor(a, u) + ApprovedFor(b, u)
  {
    NoneApproved(u);
    hide ApprovedFor;
    if b == [] {
      assert a + b == a;
    } else {
      ApprovedForConcat(a, Init(b), u);
      ApprovedForSnoc(a + Init(b), Last(b), u);
      ApprovedForSnoc(Init(b), Last(b), u);
      assert a + b == a + Init(b) + [Last(b)] && b == Init(b) + [Last(b)];
    }
  }

  lemma CountAfterAppend<T>(s: seq<T>, x: T, y: T)
    ensures multiset(s + [x])[y] == multiset(s)[y] + if x == y then 1 else 0
  {
    assert multiset(s + [x]) == multiset(s) + multiset{x};
  }

  /** A payload is attached to an episode exactly as often as the table holds it, approved, for that episode. */
  lemma {:induction false} ApprovedForCounts(rows: seq<AnnotationRow>, u: Uuid, a: Annotation)
    ensures multiset(ApprovedFor(rows, u))[a] == multiset(rows)[AnnotationRow(u, "approved", a)]
  {
    NoneApproved(u);
    hide ApprovedFor;
    if rows != [] {
      var row := Last(rows);
      ApprovedForCounts(Init(rows), u, a);
      ApprovedForSnoc(Init(rows), row, u);
      assert rows == Init(rows) + [row];
      CountAfterAppend(Init(rows), row, AnnotationRow(u, "approved", a));
      CountAfterAppend(ApprovedFor(Init(rows), u), row.payload, a);
    }
  }

  /**
   * From version to manifest: if no episode was deleted since the version was created, the manifest
   * counts the version's episodes if and only if every reference string is canonical; and it never
   * counts more.
   */
  lemma ManifestCountsVersionIff(
      codec: UuidCodec, before: EpisodeTable, after: EpisodeTable, project: Uuid, tag: string, raws: seq<RefIn>,
      rows: seq<AnnotationRow>, load: string -> Bytes, dumps: seq<Annotation> -> Bytes, shardSize: int, dir: string)
    requires CreateVersion(true, before, codec, project, tag, raws).Ok?
    requires before.Keys <= after.Keys
    ensures AllParse(codec, raws)
    ensures var version := CreateVersion(true, before, codec, project, tag, raws).value;
            var refs := ResolveAll(codec, after, rows, version.episodeRefs);
            var manifest := BuildManifest(refs, InfosOf(dir, Shards(Samples(refs, load, dumps), shardSize)));
            && manifest.episodeCount == SumOfCounts(manifest.shards) <= version.episodeCount
            && (manifest.episodeCount == version.episodeCount <==>
                  forall i | 0 <= i < |raws| :: codec.Canonical(raws[i].episodeId))
  {
    hide ResolveAll, Shards, Samples, InfosOf, SumOfCounts;
    VersionCreatedIff(true, before, codec, project, tag, raws);
    var ids := RefIds(codec, raws);
    forall i | 0 <= i < |raws| ensures Survives(codec, after, raws[i]) <==> codec.Canonical(raws[i].episodeId) {
      assert ids[i] in ids && ids[i] in after.Keys;
    }
    ResolvedLength(codec, after, rows, raws);
    ManifestAgrees(ResolveAll(codec, after, rows, raws), load, dumps, shardSize, dir);
  }

  /**
   * Wherever a string that is not canonical denotes an episode of the project (a UUID in upper case,
   * say), a version of that one reference is created with count one, and its manifest counts none.
   */
  lemma OtherSpellingIsDropped(
      codec: UuidCodec, table: EpisodeTable, project: Uuid, tag: string, raw: RefIn, rows: seq<AnnotationRow>,
      load: string -> Bytes, dumps: seq<Annotation> -> Bytes, shardSize: int, dir: string)
    requires codec.parse(raw.episodeId).Some? && !codec.Canonical(raw.episodeId)
    requires var u := codec.parse(raw.episodeId).value; u in table && table[u].projectId == project
    ensures var version := CreateVersion(true, table, codec, project, tag, [raw]);
            && version.Ok? && version.value.episodeCount == 1 && AllParse(codec, [raw])
            && var refs := ResolveAll(codec, table, rows, version.value.episodeRefs);
               BuildManifest(refs, InfosOf(dir, Shards(Samples(refs, load, dumps), shardSize))).episodeCount == 0
  {
    hide Shards, Samples, InfosOf;
    VersionCreatedIff(true, table, codec, project, tag, [raw]);
    ResolvedLength(codec, table, rows, [raw]);
  }

  // ---- running a job ----

  datatype Upload = Tar(members: seq<Member>) | ManifestJson(manifest: Manifest)

  function ShardKey(prefix: string, i: nat): string {
    prefix + "/shard-" + Padded(i, 6) + ".tar"
  }

  function ManifestKey(prefix: string): string {
    prefix + "/manifest.json"
  }

  lemma KeysDistinct(prefix: string, i: nat, j: nat)
    requires i != j
    ensures ShardKey(prefix, i) != ShardKey(prefix, j) && ShardKey(prefix, i) != ManifestKey(prefix)
  {
    ShardPathsDistinct(prefix, i, j);
    var at := |prefix| + 1;
    assert ShardKey(prefix, i)[at] == 's' && ManifestKey(prefix)[at] == 'm';
  }

  lemma KeysBelowDistinct(prefix: string, n: nat)
    ensures forall j | 0 <= j < n ::
              ShardKey(prefix, j) != ShardKey(prefix, n) && ShardKey(prefix, j) != ManifestKey(prefix)
  {
    forall j | 0 <= j < n
      ensures ShardKey(prefix, j) != ShardKey(prefix, n) && ShardKey(prefix, j) != ManifestKey(prefix) {
      KeysDistinct(prefix, j, n);
    }
  }

  function Percent(uploaded: nat, shardCount: nat): real
    requires shardCount > 0
  {
    uploaded as real / shardCount as real * 100.0
  }

  /** The bucket after the first `n` shards were uploaded under their own keys. */
  function WithShards(bucket: map<string, Upload>, prefix: string,
      shards: seq<ShardInfo>, files: map<string, seq<Member>>, n: nat): map<string, Upload>
    requires n <= |shards| && forall s | s in shards :: s.path in files
  {
    if n == 0 then bucket
    else WithShards(bucket, prefix, shards, files, n - 1)[ShardKey(prefix, n - 1) := Tar(files[shards[n - 1].path])]
  }

  /** No shard overwrites another one's object. */
  lemma {:induction false} ShardsAreThere(bucket: map<string, Upload>, prefix: string, shards: seq<ShardInfo>,
      files: map<string, seq<Member>>, n: nat)
    requires n <= |shards| && forall s | s in shards :: s.path in files
    ensures var uploaded := WithShards(bucket, prefix, shards, files, n);
            forall j | 0 <= j < n ::
              ShardKey(prefix, j) in uploaded && uploaded[ShardKey(prefix, j)] == Tar(files[shards[j].path])
  {
    hide ShardKey;
    if n > 0 {
      ShardsAreThere(bucket, prefix, shards, files, n - 1);
      KeysBelowDistinct(prefix, n - 1);
    }
  }

  /** The bucket after the first `n` uploads: the shards, then the manifest. */
  function WithUploads(
      bucket: map<string, Upload>, prefix: string, shards: seq<ShardInfo>, files: map<string, seq<Member>>,
      manifest: Manifest, n: nat): map<string, Upload>
    requires n <= |shards| + 1 && forall s | s in shards :: s.path in files
  {
    if n <= |shards| then WithShards(bucket, prefix, shards, files, n)
    else WithShards(bucket, prefix, shards, files, |shards|)[ManifestKey(prefix) := ManifestJson(manifest)]
  }

  /** No object of the bucket differs but under the keys of shards and of the manifest. */
  ghost predicate SameElsewhere(prefix: string, before: map<string, Upload>, after: map<string, Upload>) {
    forall key | key != ManifestKey(prefix) && forall j: nat :: key != ShardKey(prefix, j) ::
      (key in after <==> key in before) && (key in before ==> after[key] == before[key])
  }

  lemma {:induction false} OtherObjectsStay(bucket: map<string, Upload>, prefix: string, shards: seq<ShardInfo>,
      files: map<string, seq<Member>>, manifest: Manifest, n: nat)
    requires n <= |shards| + 1 && forall s | s in shards :: s.path in files
    ensures SameElsewhere(prefix, bucket, WithUploads(bucket, prefix, shards, files, manifest, n))
    decreases n
  {
    hide ShardKey, ManifestKey;
    if n > 0 {
      OtherObjectsStay(bucket, prefix, shards, files, manifest, n - 1);
    }
  }

  lemma UploadsStayApart(bucket: map<string, Upload>, prefix: string, shards: seq<ShardInfo>,
      files: map<string, seq<Member>>, manifest: Manifest)
    requires forall s | s in shards :: s.path in files
    ensures forall n: nat | n <= |shards| + 1 ::
              SameElsewhere(prefix, bucket, WithUploads(bucket, prefix, shards, files, manifest, n))
  {
    hide WithUploads, SameElsewhere;
    forall n: nat | n <= |shards| + 1
      ensures SameElsewhere(prefix, bucket, WithUploads(bucket, prefix, shards, files, manifest, n))
    {
      OtherObjectsStay(bucket, prefix, shards, files, manifest, n);
    }
  }

  /** Nor does an export that stops after `n` uploads leave anything in the place of what was to come. */
  lemma {:induction false} NotYetUploaded(bucket: map<string, Upload>, prefix: string, shards: seq<ShardInfo>,
      files: map<string, seq<Member>>, manifest: Manifest, n: nat, j: nat)
    requires n <= |shards| && n <= j && forall s | s in shards :: s.path in files
    ensures var uploaded := WithUploads(bucket, prefix, shards, files, manifest, n);
            && (ShardKey(prefix, j) in uploaded <==> ShardKey(prefix, j) in bucket)
            && (ManifestKey(prefix) in uploaded <==> ManifestKey(prefix) in bucket)
            && (ShardKey(prefix, j) in bucket ==> uploaded[ShardKey(prefix, j)] == bucket[ShardKey(prefix, j)])
            && (ManifestKey(prefix) in bucket ==> uploaded[ManifestKey(prefix)] == bucket[ManifestKey(prefix)])
    decreases n
  {
    hide ShardKey, ManifestKey;
    if n > 0 {
      NotYetUploaded(bucket, prefix, shards, files, manifest, n - 1, j);
      KeysDistinct(prefix, n - 1, j);
    }
  }

  /** The bucket holds every shard under its own key, and the manifest. */
  ghost predicate Exported(bucket: map<string, Upload>, prefix: string, dir: string, refs: seq<EpisodeRef>,
                           groups: seq<Group>)
  {
    && (forall j | 0 <= j < |groups| ::
          ShardKey(prefix, j) in bucket && bucket[ShardKey(prefix, j)] == Tar(Members(groups[j])))
    && ManifestKey(prefix) in bucket
    && bucket[ManifestKey(prefix)] == ManifestJson(BuildManifest(refs, InfosOf(dir, groups)))
  }

  /** So it is with every upload done. */
  lemma AllIsThere(bucket: map<string, Upload>, prefix: string, dir: string, refs: seq<EpisodeRef>, groups: seq<Group>)
    ensures forall s | s in InfosOf(dir, groups) :: s.path in FilesOf(dir, groups)
    ensures var infos := InfosOf(dir, groups);
            Exported(WithUploads(bucket, prefix, infos, FilesOf(dir, groups), BuildManifest(refs, infos), |groups| + 1),
                     prefix, dir, refs, groups)
  {
    hide ShardKey, ManifestKey, InfosOf, FilesOf, Members, WithShards, BuildManifest;
    var infos := InfosOf(dir, groups);
    ShardFiles(dir, groups);
    forall s | s in infos ensures s.path in FilesOf(dir, groups) {
      var j :| 0 <= j < |infos| && infos[j] == s;
    }
    ShardsAreThere(bucket, prefix, infos, FilesOf(dir, groups), |infos|);
    KeysBelowDistinct(prefix, |infos|);
  }

  /** Which operations on database, bucket and queue succeed while a message is handled. */
  datatype Env = Env(beginOk: bool, uploadOk: nat -> bool, commitOk: nat -> bool, ackOk: bool, failOk: bool)

  /** The references parse, and every upload and every commit up to the last succeeds. */
  ghost predicate Completes(codec: UuidCodec, table: EpisodeTable, rows: seq<AnnotationRow>, version: Option<Version>,
                            load: string -> Bytes, dumps: seq<Annotation> -> Bytes, shardSize: int, env: Env)
  {
    && env.beginOk && version.Some? && AllParse(codec, version.value.episodeRefs)
    && var samples := Samples(ResolveAll(codec, table, rows, version.value.episodeRefs), load, dumps);
       forall k: nat | k <= |Shards(samples, shardSize)| :: env.uploadOk(k) && env.commitOk(k)
  }

  /** A row of the `export_jobs` table as committed, and the bucket the job writes to. */
  class ExportJob {
    const bucketName: string
    const prefix: string
    var status: string
    var progressPct: real
    var manifestUrl: Option<string>
    var bucket: map<string, Upload>

    constructor (bucketName: string, prefix: string, bucket: map<string, Upload>)
      ensures status == "pending" && progressPct == 0.0 && manifestUrl == None
      ensures this.bucketName == bucketName && this.prefix == prefix && this.bucket == bucket
    {
      this.bucketName, this.prefix, this.bucket := bucketName, prefix, bucket;
      status, progressPct, manifestUrl := "pending", 0.0, None;
    }

    function ManifestUrl(): string {
      "s3://" + bucketName + "/" + ManifestKey(prefix)
    }

    /**
     * Uploads the shards, committing the progress after each, then the manifest, then commits the
     * completion. The first upload or commit that raises ends it: the uploads and commits before
     * stay, and no more.
     */
    method UploadAndComplete(shards: seq<ShardInfo>, files: map<string, seq<Member>>, manifest: Manifest, env: Env)
      returns (raised: bool, ghost done: nat, ghost reported: seq<real>)
      requires forall s | s in shards :: s.path in files
      modifies this
      ensures done <= |shards| && (forall k: nat :: k < done ==> env.uploadOk(k) && env.commitOk(k))
      ensures if raised then !env.uploadOk(done) || !env.commitOk(done)
              else done == |shards| && env.uploadOk(|shards|) && env.commitOk(|shards|)
      ensures bucket ==
              WithUploads(old(bucket), prefix, shards, files, manifest, if env.uploadOk(done) then done + 1 else done)
      ensures SameElsewhere(prefix, old(bucket), bucket)
      ensures |reported| == done && Growing(reported) && (done == |shards| > 0 ==> reported[done - 1] == 100.0)
      ensures Proportional(reported, |shards|)
      ensures progressPct == if !raised then 100.0 else if done == 0 then old(progressPct) else reported[done - 1]
      ensures status == if raised then old(status) else "completed"
      ensures manifestUrl == if raised then old(manifestUrl) else Some(ManifestUrl())
    {
      hide ShardKey, ManifestKey, Growing, Proportional, Percent, SameElsewhere;
      done, reported := 0, [];
      UploadsStayApart(bucket, prefix, shards, files, manifest);
      for i := 0 to |shards|
        invariant status == old(status) && manifestUrl == old(manifestUrl)
        invariant done == i && forall k: nat :: k < i ==> env.uploadOk(k) && env.commitOk(k)
        invariant bucket == WithShards(old(bucket), prefix, shards, files, i)
        invariant |reported| == i && forall j | 0 <= j < i :: reported[j] == Percent(j + 1, |shards|)
        invariant progressPct == if i == 0 then old(progressPct) else reported[i - 1]
      {
        ProgressGrows(reported, |shards|);
        if !env.uploadOk(i) {
          return true, done, reported;
        }
        bucket := bucket[ShardKey(prefix, i) := Tar(files[shards[i].path])];
        if !env.commitOk(i) {
          return true, done, reported;
        }
        progressPct := Percent(i + 1, |shards|);
        reported := reported + [progressPct];
        done := done + 1;
      }
      ProgressGrows(reported, |shards|);
      if !env.uploadOk(|shards|) {
        return true, done, reported;
      }
      bucket := bucket[ManifestKey(prefix) := ManifestJson(manifest)];
      if !env.commitOk(|shards|) {
        return true, done, reported;
      }
      status, progressPct := "completed", 100.0;
      manifestUrl := Some(ManifestUrl());
      raised := false;
    }

    /**
     * One message from the queue, for a WebDataset job in whatever status. It is acknowledged
     * exactly when the job completed and acknowledging works; otherwise the job is marked failed,
     * if that works, even one that completed.
     */
    method HandleMessage(codec: UuidCodec, table: EpisodeTable, rows: seq<AnnotationRow>, version: Option<Version>,
                         load: string -> Bytes, dumps: seq<Annotation> -> Bytes, shardSize: int, dir: string, env: Env)
      returns (acked: bool)
      requires codec.Lawful()
      modifies this
      ensures var completes := Completes(codec, table, rows, version, load, dumps, shardSize, env);
              && (acked <==> completes && env.ackOk)
              && status == (if !acked && env.failOk then "failed"
                            else if completes then "completed"
                            else if env.beginOk then "running" else old(status))
              && manifestUrl == (if completes then Some(ManifestUrl()) else old(manifestUrl))
              && SameElsewhere(prefix, old(bucket), bucket) && (completes ==> progressPct == 100.0)
              && (completes ==>
                    var refs := ResolveAll(codec, table, rows, version.value.episodeRefs);
                    var groups := Shards(Samples(refs, load, dumps), shardSize);
                    Exported(bucket, prefix, dir, refs, groups))
    {
      var raised := Execute(codec, table, rows, version, load, dumps, shardSize, dir, env);
      acked := !raised && env.ackOk;
      if !acked && env.failOk {
        status := "failed";
      }
    }

    /** `_execute_job`: running, resolve, export, upload, complete; raises at the first thing that fails. */
    method Execute(codec: UuidCodec, table: EpisodeTable, rows: seq<AnnotationRow>, version: Option<Version>,
                   load: string -> Bytes, dumps: seq<Annotation> -> Bytes, shardSize: int, dir: string, env: Env)
      returns (raised: bool)
      requires codec.Lawful()
      modifies this
      ensures raised <==> !Completes(codec, table, rows, version, load, dumps, shardSize, env)
      ensures status == if !raised then "completed" else if env.beginOk then "running" else old(status)
      ensures manifestUrl == if raised then old(manifestUrl) else Some(ManifestUrl())
      ensures SameElsewhere(prefix, old(bucket), bucket) && (!raised ==> progressPct == 100.0)
      ensures !raised ==>
                var refs := ResolveAll(codec, table, rows, version.value.episodeRefs);
                var groups := Shards(Samples(refs, load, dumps), shardSize);
                Exported(bucket, prefix, dir, refs, groups)
    {
      hide Shards, Members, Samples, ResolveAll, ShardKey, ManifestKey, FilesOf, InfosOf, Growing,
           WithShards, WithUploads, BuildManifest, Proportional, SameElsewhere, Exported;
      SameAsBefore(prefix, bucket);
      if !env.beginOk {
        return true;
      }
      status := "running";
      if version.None? {
        return true;
      }
      var resolved := ResolveEpisodeRefs(codec, table, rows, version.value.episodeRefs);
      if resolved.Err? {
        return true;
      }
      var shards, manifest, files := Export(resolved.value, load, dumps, shardSize, dir);
      AllIsThere(bucket, prefix, dir, resolved.value, Shards(Samples(resolved.value, load, dumps), shardSize));
      ghost var done, reported;
      raised, done, reported := UploadAndComplete(shards, files, manifest, env);
    }
  }

  lemma ShardFiles(dir: string, groups: seq<Group>)
    ensures forall j | 0 <= j < |groups| ::
              var path := InfosOf(dir, groups)[j].path;
              path in FilesOf(dir, groups) && FilesOf(dir, groups)[path] == Members(groups[j])
  {
    InfoPaths(dir, groups);
    forall j | 0 <= j < |groups|
      ensures InfosOf(dir, groups)[j].path in FilesOf(dir, groups)
      ensures FilesOf(dir, groups)[InfosOf(dir, groups)[j].path] == Members(groups[j])
    {
      FilesStay(dir, groups, j + 1);
    }
  }

  /** After `j + 1` of `n` shards, that share of a hundred is reported. */
  ghost predicate Proportional(reported: seq<real>, n: nat) {
    forall j | 0 <= j < |reported| :: reported[j] * n as real == (j + 1) as real * 100.0
  }

  lemma SameAsBefore(prefix: string, bucket: map<string, Upload>)
    ensures SameElsewhere(prefix, bucket, bucket)
  {
  }

  ghost predicate Growing(reported: seq<real>) {
    forall i, j | 0 <= i < j < |reported| :: 0.0 < reported[i] < reported[j] <= 100.0
  }

  lemma ProgressGrows(reported: seq<real>, n: nat)
    requires |reported| <= n
    requires forall j | 0 <= j < |reported| :: reported[j] == Percent(j + 1, n)
    ensures Growing(reported)
    ensures |reported| == n > 0 ==> reported[n - 1] == 100.0
    ensures Proportional(reported, n)
  {
    forall j | 0 <= j < |reported| ensures reported[j] * n as real == (j + 1) as real * 100.0 {
      PercentTimes(j + 1, n);
    }
    forall i, j | 0 <= i < j < |reported| ensures 0.0 < reported[i] < reported[j] <= 100.0 {
      FractionGrows(i + 1, j + 1, n);
    }
    if n > 0 {
      AllIsOne(n);
    }
  }

  lemma PercentTimes(k: nat, n: nat)
    requires n > 0
    ensures Percent(k, n) * n as real == k as real * 100.0
  {
    var q := k as real / n as real;
    assert q * n as real == k as real;
    assert (q * 100.0) * n as real == (q * n as real) * 100.0;
  }

  lemma AllIsOne(n: nat)
    requires n > 0
    ensures n as real / n as real == 1.0
  {
  }

  lemma FractionGrows(a: nat, b: nat, n: nat)
    requires 0 < a < b <= n
    ensures 0.0 < a as real / n as real < b as real / n as real <= 1.0
  {
  }
}
