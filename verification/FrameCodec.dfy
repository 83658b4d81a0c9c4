/**
 * The serialized form of a buffer: frames by ascending sequence number, each as a 4-byte
 * big-endian length and its protobuf bytes. Protobuf itself is a pair of functions, of which
 * only that they are inverse and that messages stay below 4 GiB is used.
 */
module FrameCodec {
  import opened Bytes
  import opened Options
  import opened FrameBuffers

  /** `marshal` is None where `proto.Marshal` returns an error. */
  datatype Codec = Codec(marshal: Frame -> Option<Bytes>, unmarshal: Bytes -> Option<Frame>) {
    ghost predicate Lawful() {
      forall f :: marshal(f).Some? ==> |marshal(f).value| < 0x1_0000_0000 && unmarshal(marshal(f).value) == Some(f)
    }
  }

  type uint32 = x: int | 0 <= x < 0x1_0000_0000

  function PutUint32(n: uint32): (b: Bytes)
    ensures |b| == 4
  {
    [n / 0x100_0000, n / 0x1_0000 % 0x100, n / 0x100 % 0x100, n % 0x100]
  }

  function Uint32(b: Bytes): uint32
    requires |b| == 4
  {
    (b[0] as int * 0x100 + b[1] as int) * 0x1_0000 + (b[2] as int * 0x100 + b[3] as int)
  }

  /** Most significant byte first: the smaller number is the smaller at the first byte that differs. */
  lemma BigEndianOrder(m: uint32, n: uint32)
    requires m < n
    ensures var a, b := PutUint32(m), PutUint32(n);
            exists k :: 0 <= k < 4 && a[..k] == b[..k] && a[k] < b[k]
  {
    var a, b := PutUint32(m), PutUint32(n);
    Uint32RoundTrip(m);
    Uint32RoundTrip(n);
    var k := if a[0] != b[0] then 0 else if a[1] != b[1] then 1 else if a[2] != b[2] then 2 else 3;
    assert a[..k] == b[..k];
  }

  lemma Uint32RoundTrip(n: uint32)
    ensures Uint32(PutUint32(n)) == n
  {
    var high, low := n / 0x1_0000, n % 0x1_0000;
    assert high == n / 0x100_0000 * 0x100 + n / 0x1_0000 % 0x100;
    assert low == n / 0x100 % 0x100 * 0x100 + n % 0x100;
  }

  /** One record; the length is truncated to 32 bits, as `uint32(len(data))` does. */
  function Framed(data: Bytes): Bytes {
    PutUint32(|data| % 0x1_0000_0000) + data
  }

  function Encode(codec: Codec, frames: seq<Frame>): Option<Bytes> {
    if frames == [] then Some([])
    else
      var init, last := Encode(codec, frames[..|frames| - 1]), codec.marshal(frames[|frames| - 1]);
      if init.None? || last.None? then None else Some(init.value + Framed(last.value))
  }

  /** Reading such a stream from the front, to its very end. */
  function Parse(codec: Codec, b: Bytes): Option<seq<Frame>>
    decreases |b|
  {
    if b == [] then Some([])
    else if |b| < 4 || |b| < 4 + Uint32(b[..4]) then None
    else
      var end := 4 + Uint32(b[..4]);
      var f, rest := codec.unmarshal(b[4..end]), Parse(codec, b[end..]);
      if f.None? || rest.None? then None else Some([f.value] + rest.value)
  }

  ghost predicate Ascending(frames: seq<Frame>) {
    forall i, j | 0 <= i < j < |frames| :: frames[i].seqNum <= frames[j].seqNum
  }

  /** Any output of `Serialize`: `sort.Slice` may leave equal sequence numbers in any order. */
  ghost predicate IsSerialization(codec: Codec, frames: seq<Frame>, b: Bytes) {
    exists p :: IsSortedCopy(frames, p) && Encode(codec, p) == Some(b)
  }

  ghost predicate IsSortedCopy(frames: seq<Frame>, p: seq<Frame>) {
    multiset(p) == multiset(frames) && Ascending(p)
  }

  // ---- round trip ----

  function Prepended(frames: seq<Frame>, r: Option<seq<Frame>>): Option<seq<Frame>> {
    if r.None? then None else Some(frames + r.value)
  }

  lemma ParseOne(codec: Codec, f: Frame, rest: Bytes)
    requires codec.Lawful() && codec.marshal(f).Some?
    ensures Parse(codec, Framed(codec.marshal(f).value) + rest) == Prepended([f], Parse(codec, rest))
  {
    var data := codec.marshal(f).value;
    Uint32RoundTrip(|data|);
    var b := Framed(data) + rest;
    assert b[..4] == PutUint32(|data|);
    assert b[4..4 + |data|] == data;
    assert b[4 + |data|..] == rest;
  }

  lemma PrependedTwice(a: seq<Frame>, f: Frame, r: Option<seq<Frame>>)
    ensures Prepended(a, Prepended([f], r)) == Prepended(a + [f], r)
    ensures Prepended([], r) == r
  {
    if r.Some? {
      assert a + ([f] + r.value) == a + [f] + r.value;
      assert [] + r.value == r.value;
    }
  }

  /** Encoding appends: a longer encoding parses to the frames of its front, then the rest. */
  lemma {:induction false} ParseEncoded(codec: Codec, frames: seq<Frame>, rest: Bytes)
    requires codec.Lawful() && Encode(codec, frames).Some?
    ensures Parse(codec, Encode(codec, frames).value + rest) == Prepended(frames, Parse(codec, rest))
  {
    if frames == [] {
      assert Encode(codec, frames).value + rest == rest;
      PrependedTwice([], Frame("", "", "", 0, 0, "", [], false), Parse(codec, rest));
    } else {
      var init, last := frames[..|frames| - 1], frames[|frames| - 1];
      var framed := Framed(codec.marshal(last).value);
      assert Encode(codec, frames).value + rest == Encode(codec, init).value + (framed + rest);
      ParseEncoded(codec, init, framed + rest);
      ParseOne(codec, last, rest);
      PrependedTwice(init, last, Parse(codec, rest));
      assert init + [last] == frames;
    }
  }

  lemma EncodeRoundTrip(codec: Codec, frames: seq<Frame>)
    requires codec.Lawful() && Encode(codec, frames).Some?
    ensures Parse(codec, Encode(codec, frames).value) == Some(frames)
  {
    var b := Encode(codec, frames).value;
    ParseEncoded(codec, frames, []);
    assert b + [] == b && frames + [] == frames;
  }

  /** Parsing any serialization consumes all of it and gives the buffered frames, sorted. */
  lemma SerializationRoundTrip(codec: Codec, frames: seq<Frame>, b: Bytes)
    requires codec.Lawful() && IsSerialization(codec, frames, b)
    ensures Parse(codec, b).Some? && IsSortedCopy(frames, Parse(codec, b).value)
  {
    var p :| IsSortedCopy(frames, p) && Encode(codec, p) == Some(b);
    EncodeRoundTrip(codec, p);
  }

  /** Concatenated serializations parse to the concatenation of what each parses to. */
  lemma ConcatenationRoundTrip(codec: Codec, a: seq<Frame>, ab: Bytes, c: seq<Frame>, cb: Bytes)
    requires codec.Lawful() && IsSerialization(codec, a, ab) && IsSerialization(codec, c, cb)
    ensures Parse(codec, ab).Some? && Parse(codec, cb).Some?
    ensures Parse(codec, ab + cb) == Some(Parse(codec, ab).value + Parse(codec, cb).value)
  {
    SerializationRoundTrip(codec, a, ab);
    SerializationRoundTrip(codec, c, cb);
    var p :| IsSortedCopy(a, p) && Encode(codec, p) == Some(ab);
    EncodeRoundTrip(codec, p);
    ParseEncoded(codec, p, cb);
  }

  // ---- Serialize ----

  lemma {:induction false} EncodeFailsIff(codec: Codec, frames: seq<Frame>)
    ensures Encode(codec, frames).None? <==> exists f :: f in frames && codec.marshal(f).None?
  {
    if frames != [] {
      var init, last := frames[..|frames| - 1], frames[|frames| - 1];
      EncodeFailsIff(codec, init);
      assert frames == init + [last];
      assert forall f :: f in frames <==> f in init || f == last;
    }
  }

  function Inserted(sorted: seq<Frame>, f: Frame): seq<Frame> {
    if sorted == [] || sorted[|sorted| - 1].seqNum <= f.seqNum then sorted + [f]
    else Inserted(sorted[..|sorted| - 1], f) + [sorted[|sorted| - 1]]
  }

  lemma {:induction false} InsertedIsCopy(sorted: seq<Frame>, f: Frame)
    ensures multiset(Inserted(sorted, f)) == multiset(sorted) + multiset{f}
  {
    if sorted != [] && sorted[|sorted| - 1].seqNum > f.seqNum {
      var init, last := sorted[..|sorted| - 1], sorted[|sorted| - 1];
      InsertedIsCopy(init, f);
      assert sorted == init + [last];
    }
  }

  lemma {:induction false} InsertedSorts(sorted: seq<Frame>, f: Frame, bound: uint64)
    requires Ascending(sorted) && f.seqNum <= bound
    requires forall i | 0 <= i < |sorted| :: sorted[i].seqNum <= bound
    ensures Ascending(Inserted(sorted, f))
    ensures forall i | 0 <= i < |Inserted(sorted, f)| :: Inserted(sorted, f)[i].seqNum <= bound
  {
    if sorted != [] && sorted[|sorted| - 1].seqNum > f.seqNum {
      InsertedSorts(sorted[..|sorted| - 1], f, sorted[|sorted| - 1].seqNum);
    }
  }

  /** Stands for `sort.Slice`: callers may rely on no more than a sorted copy. */
  method SortBySeq(frames: seq<Frame>) returns (p: seq<Frame>)
    ensures IsSortedCopy(frames, p)
  {
    p := [];
    for i := 0 to |frames|
      invariant IsSortedCopy(frames[..i], p)
    {
      InsertedSorts(p, frames[i], 0xFFFF_FFFF_FFFF_FFFF);
      InsertedIsCopy(p, frames[i]);
      assert frames[..i + 1] == frames[..i] + [frames[i]];
      p := Inserted(p, frames[i]);
    }
    assert frames[..|frames|] == frames;
  }

  method EncodeAll(codec: Codec, snapshot: seq<Frame>) returns (r: Option<Bytes>)
    ensures r == Encode(codec, snapshot)
  {
    var buf: Bytes := [];
    for i := 0 to |snapshot|
      invariant Encode(codec, snapshot[..i]) == Some(buf)
    {
      assert snapshot[..i + 1][..i] == snapshot[..i];
      var data := codec.marshal(snapshot[i]);
      if data.None? {
        EncodeFailsIff(codec, snapshot);
        return None;
      }
      buf := buf + PutUint32(|data.value| % 0x1_0000_0000);
      buf := buf + data.value;
      assert buf == Encode(codec, snapshot[..i]).value + Framed(data.value);
    }
    assert snapshot[..|snapshot|] == snapshot;
    r := Some(buf);
  }

  /** Changes nothing; fails exactly if some buffered frame does not marshal. */
  method Serialize(codec: Codec, buffer: FrameBuffer) returns (r: Option<Bytes>)
    requires buffer.Valid()
    ensures r.None? <==> exists f :: f in buffer.Contents() && codec.marshal(f).None?
    ensures r.Some? ==> IsSerialization(codec, buffer.Contents(), r.value)
  {
    var snapshot := SortBySeq(buffer.frames[..buffer.n]);
    r := EncodeAll(codec, snapshot);
    EncodeFailsIff(codec, snapshot);
    forall f ensures f in snapshot <==> f in buffer.Contents() {
      assert f in snapshot <==> f in multiset(snapshot);
      assert f in buffer.Contents() <==> f in multiset(buffer.Contents());
    }
  }
}
