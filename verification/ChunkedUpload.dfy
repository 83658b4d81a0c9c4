/**
 * Splitting a file into chunks, storing them under generated keys, and composing them again.
 */
module ChunkedUpload {
  import opened Collections
  import opened Bytes
  import opened Decimal

  const CHUNK_SIZE: nat := 0x400_0000

  // ---- how many chunks ----

  /** The spacing of float64 values around `n`. */
  function Spacing(n: nat): (u: nat)
    requires n < 0x8000_0000_0000_0000
    ensures u >= 1 && CHUNK_SIZE % u == 0
    ensures n < 0x20_0000_0000_0000 ==> u == 1
    ensures n == 0x20_0000_0000_0000 ==> u == 2
  {
    if n < 0x20_0000_0000_0000 then 1
    else if n < 0x40_0000_0000_0000 then 2
    else if n < 0x80_0000_0000_0000 then 4
    else if n < 0x100_0000_0000_0000 then 8
    else if n < 0x200_0000_0000_0000 then 16
    else if n < 0x400_0000_0000_0000 then 32
    else if n < 0x800_0000_0000_0000 then 64
    else if n < 0x1000_0000_0000_0000 then 128
    else if n < 0x2000_0000_0000_0000 then 256
    else if n < 0x4000_0000_0000_0000 then 512
    else 1024
  }

  /** `n` rounded to a multiple of `u`, ties to the even multiple. */
  function Rounded(n: nat, u: nat): nat
    requires u >= 1
  {
    var q, r := n / u, n % u;
    if 2 * r < u || (2 * r == u && q % 2 == 0) then q * u else (q + 1) * u
  }

  /** `float64(n)` for an int64. */
  function ToFloat64(n: nat): nat
    requires n < 0x8000_0000_0000_0000
  {
    Rounded(n, Spacing(n))
  }

  function CeilDiv(n: nat, d: nat): nat
    requires d >= 1
  {
    (n + d - 1) / d
  }

  /** `int(math.Ceil(float64(size) / float64(uploadChunkSize)))`; dividing by a power of two is exact. */
  function TotalChunks(size: nat): nat
    requires size < 0x8000_0000_0000_0000
  {
    CeilDiv(ToFloat64(size), CHUNK_SIZE)
  }

  lemma MultipleOf(m: nat, u: nat) returns (k: nat)
    requires u >= 1 && m % u == 0
    ensures m == k * u
  {
    k := m / u;
  }

  lemma ProductsReflect(a: nat, b: nat, r: nat, u: nat)
    requires a * u + r <= b * u && r < u
    ensures a <= b && (a == b ==> r == 0)
  {
    assert (b + 1) * u == b * u + u;
    if a > b {
      ProductsGrow(b + 1, a, u);
      assert false;
    }
  }

  /** Rounding never crosses a representable multiple. */
  lemma RoundingStaysBetween(n: nat, u: nat, m: nat)
    requires u >= 1 && m % u == 0
    ensures n <= m ==> Rounded(n, u) <= m
    ensures n >= m ==> Rounded(n, u) >= m
  {
    var k := MultipleOf(m, u);
    var q, r := n / u, n % u;
    assert n == q * u + r;
    if n <= m {
      ProductsReflect(q, k, r, u);
      if q < k {
        ProductsGrow(q + 1, k, u);
      }
      ProductsGrow(q, k, u);
    }
    if n >= m {
      assert (q + 1) * u == q * u + u;
      ProductsReflect(k, q + 1, 0, u);
      if k == q + 1 {
        assert false;
      }
      ProductsGrow(k, q, u);
      ProductsGrow(k, q + 1, u);
    }
  }

  lemma MultiplesDivide(k: nat, c: nat, u: nat)
    requires u >= 1 && c % u == 0
    ensures (k * c) % u == 0
  {
    var j := MultipleOf(c, u);
    assert k * c == (k * j) * u by {
      assert k * (j * u) == (k * j) * u;
    }
    RemainderOfMultiple(k * j, u);
  }

  lemma LargerMultiple(q: nat, k: nat, u: nat)
    ensures q < k ==> q * u + u <= k * u
  {
    if q < k {
      ProductsGrow(q + 1, k, u);
      assert (q + 1) * u == q * u + u;
    }
  }

  lemma RemainderOfMultiple(k: nat, u: nat)
    requires u >= 1
    ensures (k * u) % u == 0
  {
    var q, r := (k * u) / u, (k * u) % u;
    assert k * u == q * u + r;
    LargerMultiple(q, k, u);
    LargerMultiple(k, q, u);
  }

  /** `Spacing(n)` is the distance of neighbouring float64 values: 53 bits carry `n`, and one fewer would not. */
  lemma SpacingIs53Bits(n: nat)
    requires n < 0x8000_0000_0000_0000
    ensures n < 0x20_0000_0000_0000 * Spacing(n)
    ensures Spacing(n) > 1 ==> n >= 0x10_0000_0000_0000 * Spacing(n)
  {
  }

  /** No multiple of the spacing is nearer to `n` than its rounded value; of two as near, it is the even one. */
  lemma RoundedIsNearestEven(n: nat, u: nat, k: nat)
    requires u >= 1
    ensures Rounded(n, u) % u == 0
    ensures var r, m := Rounded(n, u), k * u;
            && !(r < m < 2 * n - r) && !(2 * n - r < m < r)
            && (m != r && m + r == 2 * n ==> r / u % 2 == 0)
  {
    var q := n / u;
    assert n == q * u + n % u;
    assert (q + 1) * u == q * u + u;
    RemainderOfMultiple(q, u);
    RemainderOfMultiple(q + 1, u);
    QuotientOfMultiple(q, u);
    QuotientOfMultiple(q + 1, u);
    LargerMultiple(k, q, u);
    LargerMultiple(q + 1, k, u);
  }

  lemma QuotientOfMultiple(k: nat, u: nat)
    requires u >= 1
    ensures k * u / u == k
  {
    var q := k * u / u;
    RemainderOfMultiple(k, u);
    assert k * u == q * u;
    LargerMultiple(q, k, u);
    LargerMultiple(k, q, u);
  }

  /** The sizes whose float64 value fell back onto a chunk boundary. */
  predicate RoundsDownToBoundary(size: nat)
    requires size < 0x8000_0000_0000_0000
  {
    ToFloat64(size) < size && ToFloat64(size) % CHUNK_SIZE == 0
  }

  /**
   * The floating-point chunk count is the exact ceiling unless the size rounds down to a chunk
   * boundary, which takes a size beyond 2^53; then it is one too small.
   */
  lemma ChunkCountExactIff(size: nat)
    requires 1 <= size < 0x8000_0000_0000_0000
    ensures TotalChunks(size) == CeilDiv(size, CHUNK_SIZE) <==> !RoundsDownToBoundary(size)
    ensures RoundsDownToBoundary(size) ==> TotalChunks(size) == CeilDiv(size, CHUNK_SIZE) - 1
    ensures size <= 0x20_0000_0000_0000 ==> !RoundsDownToBoundary(size)
  {
    var u, k := Spacing(size), CeilDiv(size, CHUNK_SIZE);
    assert (k - 1) * CHUNK_SIZE < size <= k * CHUNK_SIZE;
    MultiplesDivide(k, CHUNK_SIZE, u);
    MultiplesDivide(k - 1, CHUNK_SIZE, u);
    RoundingStaysBetween(size, u, k * CHUNK_SIZE);
    RoundingStaysBetween(size, u, (k - 1) * CHUNK_SIZE);
    if size <= 0x20_0000_0000_0000 {
      RoundingStaysBetween(size, u, size);
    }
  }

  /** The first size it goes wrong for: 2^53 + 1 bytes get no chunk for the last byte. */
  lemma ChunkCountFailsJustPast2To53()
    ensures RoundsDownToBoundary(0x20_0000_0000_0001)
    ensures TotalChunks(0x20_0000_0000_0001) * CHUNK_SIZE == 0x20_0000_0000_0000
  {
  }

  // ---- slices ----

  /** `file.slice(i * chunk_size, (i + 1) * chunk_size)`: both ends are clamped to the file. */
  function Chunk(file: Bytes, i: nat): Bytes {
    var start, end := i * CHUNK_SIZE, (i + 1) * CHUNK_SIZE;
    if start >= |file| then [] else if end >= |file| then file[start..] else file[start..end]
  }

  function Chunks(file: Bytes, n: nat): (cs: seq<Bytes>)
    ensures |cs| == n && forall i | 0 <= i < n :: cs[i] == Chunk(file, i)
  {
    seq(n, i requires 0 <= i => Chunk(file, i))
  }

  function Concat(parts: seq<Bytes>): Bytes {
    if parts == [] then [] else Concat(parts[..|parts| - 1]) + parts[|parts| - 1]
  }

  /** The first `end` bytes, or all there are. */
  function FirstBytes(file: Bytes, end: nat): Bytes {
    if end >= |file| then file else file[..end]
  }

  lemma NextChunk(file: Bytes, n: nat)
    ensures FirstBytes(file, n * CHUNK_SIZE) + Chunk(file, n) == FirstBytes(file, (n + 1) * CHUNK_SIZE)
  {
    var start, end := n * CHUNK_SIZE, (n + 1) * CHUNK_SIZE;
    assert end == start + CHUNK_SIZE;
    if start < |file| {
      assert FirstBytes(file, end) == file[..start] + FirstBytes(file, end)[start..];
    }
  }

  lemma {:induction false} ChunksConcat(file: Bytes, n: nat)
    ensures Concat(Chunks(file, n)) == if n * CHUNK_SIZE >= |file| then file else file[..n * CHUNK_SIZE]
  {
    hide Chunk;
    if n > 0 {
      ChunksConcat(file, n - 1);
      assert Chunks(file, n)[..n - 1] == Chunks(file, n - 1);
      NextChunk(file, n - 1);
    } else {
      assert file[..0] == [];
    }
  }

  /**
   * Composing the chunks of a file gives the file back exactly when its chunk count did not
   * round down; up to that, every chunk is non-empty and none exceeds the chunk size.
   */
  lemma ComposeGivesFileIff(file: Bytes)
    requires 1 <= |file| < 0x8000_0000_0000_0000
    ensures Concat(Chunks(file, TotalChunks(|file|))) == file <==> !RoundsDownToBoundary(|file|)
    ensures forall i | 0 <= i < TotalChunks(|file|) :: 1 <= |Chunk(file, i)| <= CHUNK_SIZE
  {
    ChunkCountExactIff(|file|);
    ChunksConcat(file, TotalChunks(|file|));
  }

  // ---- keys ----

  function ChunkKey(sessionId: string, n: nat): string {
    "tmp/" + sessionId + "/chunk" + "_" + Padded(n, 5)
  }

  function EpisodePath(episodeId: string, filename: string): string {
    "episodes/" + episodeId + "/" + filename
  }

  /** Chunk keys never collide, within a session or across sessions, past five digits included. */
  lemma ChunkKeysInjective(s: string, m: nat, t: string, n: nat)
    requires ChunkKey(s, m) == ChunkKey(t, n)
    ensures s == t && m == n
  {
    LastUnderscore("tmp/" + s + "/chunk", Padded(m, 5), "tmp/" + t + "/chunk", Padded(n, 5));
    PaddedInjective(m, n, 5);
    var p, q := "tmp/" + s + "/chunk", "tmp/" + t + "/chunk";
    assert s == p[4..|p| - 6] && t == q[4..|q| - 6];
  }

  lemma ChunkKeyIsNoPath(s: string, n: nat, episodeId: string, filename: string)
    ensures ChunkKey(s, n) != EpisodePath(episodeId, filename)
  {
    assert ChunkKey(s, n)[0] == 't' && EpisodePath(episodeId, filename)[0] == 'e';
  }

  // ---- the object store ----

  predicate AllStored(objects: map<string, Bytes>, sessionId: string, total: nat) {
    forall i | 0 <= i < total :: ChunkKey(sessionId, i) in objects
  }

  function Parts(objects: map<string, Bytes>, sessionId: string, total: nat): (ps: seq<Bytes>)
    requires AllStored(objects, sessionId, total)
    ensures |ps| == total && forall i | 0 <= i < total :: ps[i] == objects[ChunkKey(sessionId, i)]
  {
    seq(total, i requires 0 <= i < total => objects[ChunkKey(sessionId, i)])
  }

  function Keys(sessionId: string, n: nat): set<string> {
    set i | 0 <= i < n :: ChunkKey(sessionId, i)
  }

  class MinioStorage {
    var objects: map<string, Bytes>

    constructor ()
      ensures objects == map[]
    {
      objects := map[];
    }

    method UploadChunk(sessionId: string, chunkN: nat, data: Bytes)
      modifies this
      ensures objects == old(objects)[ChunkKey(sessionId, chunkN) := data]
    {
      objects := objects[ChunkKey(sessionId, chunkN) := data];
    }

    /** Server-side compose of the chunk keys in order; fails if one is missing, or for any other reason. */
    method AssembleChunks(sessionId: string, totalChunks: nat, destPath: string, composeOk: bool) returns (ok: bool)
      modifies this
      ensures ok <==> composeOk && AllStored(old(objects), sessionId, totalChunks)
      ensures objects ==
              if ok then old(objects)[destPath := Concat(Parts(old(objects), sessionId, totalChunks))]
              else old(objects)
    {
      var sources: seq<string> := [];
      for i := 0 to totalChunks
        invariant |sources| == i && forall j | 0 <= j < i :: sources[j] == ChunkKey(sessionId, j)
      {
        sources := sources + [ChunkKey(sessionId, i)];
      }
      ok := composeOk && forall j | 0 <= j < |sources| :: sources[j] in objects;
      assert ok ==> AllStored(objects, sessionId, totalChunks) by {
        if ok {
          forall j | 0 <= j < totalChunks ensures ChunkKey(sessionId, j) in objects {
            assert sources[j] in objects;
          }
        }
      }
      if ok {
        objects := objects[destPath := Concat(Parts(objects, sessionId, totalChunks))];
      }
    }

    method DeleteChunks(sessionId: string, totalChunks: nat)
      modifies this
      ensures objects == old(objects) - Keys(sessionId, totalChunks)
    {
      for i := 0 to totalChunks
        invariant objects == old(objects) - Keys(sessionId, i)
      {
        assert Keys(sessionId, i + 1) == Keys(sessionId, i) + {ChunkKey(sessionId, i)};
        objects := objects - {ChunkKey(sessionId, i)};
      }
    }

    /**
     * The client loop, each send handled by `UploadChunk`, then the compose: the destination
     * holds the file exactly if the chunk count did not round down.
     */
    method UploadEpisodeFile(sessionId: string, file: Bytes, destPath: string)
      requires 1 <= |file| < 0x8000_0000_0000_0000 && destPath !in Keys(sessionId, TotalChunks(|file|))
      modifies this
      ensures destPath in objects
      ensures objects[destPath] == file <==> !RoundsDownToBoundary(|file|)
    {
      var total := TotalChunks(|file|);
      for i := 0 to total
        invariant forall j | 0 <= j < i ::
                    ChunkKey(sessionId, j) in objects && objects[ChunkKey(sessionId, j)] == Chunk(file, j)
      {
        forall j | 0 <= j < i ensures ChunkKey(sessionId, j) != ChunkKey(sessionId, i) {
          if ChunkKey(sessionId, j) == ChunkKey(sessionId, i) {
            ChunkKeysInjective(sessionId, j, sessionId, i);
          }
        }
        UploadChunk(sessionId, i, Chunk(file, i));
      }
      assert AllStored(objects, sessionId, total);
      assert Parts(objects, sessionId, total) == Chunks(file, total);
      var ok := AssembleChunks(sessionId, total, destPath, true);
      ComposeGivesFileIff(file);
    }
  }
}
