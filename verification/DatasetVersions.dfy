/**
 * Creating a dataset version: every referenced episode must be in the project, tested by
 * comparing the number of rows found with the number of references.
 */
module DatasetVersions {
  import opened Collections
  import opened Options

  type Uuid = nat

  /** `uuid.UUID(s)` and `str(u)`. Several strings denote one UUID; `show` gives the canonical one. */
  datatype UuidCodec = UuidCodec(parse: string -> Option<Uuid>, show: Uuid -> string) {
    ghost predicate Lawful() {
      forall u: Uuid :: parse(show(u)) == Some(u)
    }

    predicate Canonical(s: string) {
      parse(s).Some? && show(parse(s).value) == s
    }
  }

  datatype Episode = Episode(projectId: Uuid, storagePath: Option<string>, sizeBytes: Option<nat>)

  /** The `episodes` table by primary key. */
  type EpisodeTable = map<Uuid, Episode>

  datatype RefIn = RefIn(episodeId: string, clipStart: Option<real>, clipEnd: Option<real>)

  datatype Version = Version(versionTag: string, episodeRefs: seq<RefIn>, episodeCount: nat,
      totalSizeBytes: nat, isImmutable: bool)

  datatype Error = DatasetNotFound | MalformedUuid | EpisodesNotFound

  datatype Result<T> = Ok(value: T) | Err(error: Error)

  predicate AllParse(codec: UuidCodec, refs: seq<RefIn>) {
    forall i | 0 <= i < |refs| :: codec.parse(refs[i].episodeId).Some?
  }

  function RefIds(codec: UuidCodec, refs: seq<RefIn>): (ids: seq<Uuid>)
    requires AllParse(codec, refs)
    ensures |ids| == |refs|
    ensures forall i | 0 <= i < |ids| :: Some(ids[i]) == codec.parse(refs[i].episodeId)
  {
    seq(|refs|, i requires 0 <= i < |refs| => codec.parse(refs[i].episodeId).value)
  }

  /** The rows `WHERE id IN ids AND project_id = project`: one for each such id, however often listed. */
  function Found(table: EpisodeTable, ids: seq<Uuid>, project: Uuid): set<Uuid> {
    set u | u in ids && u in table && table[u].projectId == project
  }

  function SizeOr0(table: EpisodeTable, u: Uuid): nat {
    if u in table then table[u].sizeBytes.GetOr(0) else 0
  }

  /** `sum(ep.size_bytes or 0 for ep in found_episodes)`, in whatever order the rows came. */
  ghost function SumFound(table: EpisodeTable, found: set<Uuid>): nat {
    if found == {} then 0
    else
      var u :| u in found;
      SizeOr0(table, u) + SumFound(table, found - {u})
  }

  ghost function CreateVersion(
    datasetInProject: bool, table: EpisodeTable, codec: UuidCodec, project: Uuid, tag: string,
        refs: seq<RefIn>): Result<Version>
  {
    if !datasetInProject then Err(DatasetNotFound)
    else if !AllParse(codec, refs) then Err(MalformedUuid)
    else
      var ids := RefIds(codec, refs);
      var found := Found(table, ids, project);
      if ids != [] && |found| != |ids| then Err(EpisodesNotFound)
      else Ok(Version(tag, refs, |refs|, SumFound(table, found), true))
  }

  // ---- pigeonhole ----

  lemma {:induction false} SetCount(ids: seq<Uuid>)
    ensures |AsSet(ids)| <= |ids|
    ensures |AsSet(ids)| == |ids| <==> Distinct(ids)
  {
    if ids == [] {
      assert AsSet(ids) == {};
    } else {
      var init, last := ids[..|ids| - 1], ids[|ids| - 1];
      SetCount(init);
      assert ids == init + [last];
      assert AsSet(ids) == AsSet(init) + {last};
      if last in init {
        var i :| 0 <= i < |init| && init[i] == last;
        assert ids[i] == ids[|ids| - 1];
        assert AsSet(ids) == AsSet(init);
      } else {
        assert Distinct(init) ==> Distinct(ids);
        assert Distinct(ids) ==> Distinct(init);
      }
    }
  }

  /**
   * For a non-empty reference list the count test accepts exactly when the ids are pairwise
   * distinct and every one is an episode of the project.
   */
  lemma CountTestMeansDistinctAndInProject(table: EpisodeTable, ids: seq<Uuid>, project: Uuid)
    ensures |Found(table, ids, project)| == |ids| <==>
            Distinct(ids) && forall u | u in ids :: u in table && table[u].projectId == project
  {
    var found := Found(table, ids, project);
    SetCount(ids);
    SubsetCount(found, AsSet(ids));
    if |found| == |ids| {
      assert found == AsSet(ids);
      forall u | u in ids ensures u in found {
        assert u in AsSet(ids);
      }
    }
    if forall u | u in ids :: u in table && table[u].projectId == project {
      assert found == AsSet(ids);
    }
  }

  // ---- the total size ----

  lemma {:induction false} SumWithout(table: EpisodeTable, found: set<Uuid>, u: Uuid)
    requires u in found
    ensures SumFound(table, found) == SizeOr0(table, u) + SumFound(table, found - {u})
    decreases |found|
  {
    var v :| v in found && SumFound(table, found) == SizeOr0(table, v) + SumFound(table, found - {v});
    if v != u {
      SumWithout(table, found - {v}, u);
      SumWithout(table, found - {u}, v);
      assert found - {v} - {u} == found - {u} - {v};
    }
  }

  /** The sizes of the listed episodes that have one, in the order of the list. */
  function SumInOrder(table: EpisodeTable, ids: seq<Uuid>): nat {
    if ids == [] then 0
    else
      SumInOrder(table, ids[1..]) +
      if ids[0] in table && table[ids[0]].sizeBytes.Some? then table[ids[0]].sizeBytes.value else 0
  }

  lemma {:induction false} SumsAgree(table: EpisodeTable, ids: seq<Uuid>)
    requires Distinct(ids)
    ensures SumFound(table, AsSet(ids)) == SumInOrder(table, ids)
  {
    if ids == [] {
      assert AsSet(ids) == {};
    } else {
      SumsAgree(table, ids[1..]);
      SumWithout(table, AsSet(ids), ids[0]);
      assert ids[0] !in ids[1..];
      assert AsSet(ids) - {ids[0]} == AsSet(ids[1..]);
    }
  }

  /**
   * A version is created exactly for an own dataset and well-formed, distinct ids of episodes
   * in the project; it records the references as given, their number and their summed size. What is
   * wrong is reported in this order: the dataset, the ids, the episodes.
   */
  lemma VersionCreatedIff(datasetInProject: bool, table: EpisodeTable, codec: UuidCodec, project: Uuid,
      tag: string, refs: seq<RefIn>)
    ensures var r := CreateVersion(datasetInProject, table, codec, project, tag, refs);
            && (r.Ok? <==>
                  && datasetInProject && AllParse(codec, refs)
                  && Distinct(RefIds(codec, refs))
                  && forall u | u in RefIds(codec, refs) :: u in table && table[u].projectId == project)
            && (r.Ok? ==> r.value == Version(tag, refs, |refs|, SumInOrder(table, RefIds(codec, refs)), true))
            && (r == Err(DatasetNotFound) <==> !datasetInProject)
            && (r == Err(MalformedUuid) <==> datasetInProject && !AllParse(codec, refs))
  {
    if AllParse(codec, refs) {
      var ids := RefIds(codec, refs);
      var found := Found(table, ids, project);
      CountTestMeansDistinctAndInProject(table, ids, project);
      if |found| == |ids| {
        assert found == AsSet(ids);
        SumsAgree(table, ids);
      }
    }
  }
}
