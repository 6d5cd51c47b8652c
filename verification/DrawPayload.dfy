/** The draw payload of the GL client: transient vertex attributes as index, kind and length
    records behind a count that is patched in last. */
module DrawPayload {
  import opened Wrappers
  import opened Substring
  import opened Binary

  const INT32_MAX := 0x7FFF_FFFF
  const TWO32 := 0x1_0000_0000
  const TWO64 := 0x1_0000_0000_0000_0000
  const MAGIC := 0x504b4131
  const GENERIC := 1
  const LEGACY := 2

  // --- integers on the wire ---------------------------------------------------------------

  /** `ArrayBuffer_putInt`: the low 32 bits, little-endian. */
  function Put32(x: int): (r: Bytes)
    ensures |r| == 4
  {
    Put(x % TWO32, 4)
  }

  function Get32(s: Bytes): nat
    requires |s| >= 4
  {
    Little(s[..4])
  }

  lemma GetPut32(x: nat, rest: Bytes)
    requires x < TWO32
    ensures Get32(Put32(x) + rest) == x
    ensures (Put32(x) + rest)[4..] == rest
  {
    hide Put, Little, Range;
    Ranges();
    LittlePut(x, 4);
    assert (Put32(x) + rest)[..4] == Put32(x);
  }

  function Signed32(x: int): int {
    var low := x % TWO32;
    if low <= INT32_MAX then low else low - TWO32
  }

  // --- what is drawn ------------------------------------------------------------------------

  /** Client memory seen from an attribute's pointer. */
  type Memory = int -> Byte

  function Copy(m: Memory, from: int, n: nat): (r: Bytes)
    ensures |r| == n && forall i | 0 <= i < n :: r[i] == m(from + i)
  {
    seq(n, i => m(from + i))
  }

  datatype AttribState = Disabled | Enabled | LegacyEnabled

  datatype Attrib = Attrib(state: AttribState, hasPointer: bool, memory: Memory, stride: int, pointerOffset: nat)

  /** `Bound` indices live in a server buffer at an offset; otherwise their bytes are sent. */
  datatype Source = Bound(offset: nat) | Client(data: Bytes)

  /** The indices a draw reads, before `basevertex`, and the largest vertex they reach. */
  datatype Indices = Indices(source: Source, values: seq<nat>, basevertex: int, last: nat)

  datatype Draw = Draw(first: nat, count: nat, indices: Option<Indices>, program: bool)

  predicate ValidDraw(d: Draw) {
    && d.first + d.count <= INT32_MAX
    && (d.indices.Some? ==> |d.indices.value.values| == d.count && d.indices.value.last < TWO32)
  }

  function DrawIndex(ix: Indices, j: nat): int
    requires j < |ix.values|
  {
    Signed32(ix.values[j] + ix.basevertex)
  }

  /** The number of vertices a generic array must hold. */
  function VertexCount(d: Draw): int {
    if d.indices.None? then d.first + d.count else Signed32(d.indices.value.last + 1)
  }

  function U64(x: int): nat {
    x % TWO64
  }

  function GenericBytes(d: Draw, a: Attrib): nat {
    U64(U64(U64(VertexCount(d)) * U64(a.stride)) + a.pointerOffset)
  }

  function LegacyBytes(d: Draw, a: Attrib): nat {
    U64(d.count * U64(a.stride))
  }

  predicate IsGeneric(d: Draw, a: Attrib) {
    a.state.Enabled? || (a.state.LegacyEnabled? && d.program)
  }

  predicate Skipped(a: Attrib) {
    a.state.Disabled? || !a.hasPointer || a.stride <= 0
  }

  datatype Record = Record(index: nat, kind: nat, payload: Bytes)

  function Gather(ix: Indices, a: Attrib, n: nat): (r: Bytes)
    requires n <= |ix.values| && a.stride > 0
    ensures |r| == n * a.stride
  {
    if n == 0 then [] else Gather(ix, a, n - 1) + Copy(a.memory, DrawIndex(ix, n - 1) * a.stride, a.stride)
  }

  function LegacyPayload(d: Draw, a: Attrib): Bytes
    requires ValidDraw(d) && a.stride > 0
  {
    match d.indices
    case None => Copy(a.memory, d.first * a.stride, d.count * a.stride)
    case Some(ix) => Gather(ix, a, d.count)
  }

  function RecordsOf(d: Draw, attribs: seq<Attrib>, i: nat): seq<Record>
    requires ValidDraw(d) && i < |attribs|
  {
    var a := attribs[i];
    if Skipped(a) then []
    else if IsGeneric(d, a) then
      if GenericBytes(d, a) > INT32_MAX then [] else [Record(i, GENERIC, Copy(a.memory, 0, GenericBytes(d, a)))]
    else
      if LegacyBytes(d, a) > INT32_MAX then [] else [Record(i, LEGACY, LegacyPayload(d, a))]
  }

  function Records(d: Draw, attribs: seq<Attrib>, n: nat): seq<Record>
    requires ValidDraw(d) && n <= |attribs|
  {
    if n == 0 then [] else Records(d, attribs, n - 1) + RecordsOf(d, attribs, n - 1)
  }

  // --- the encoder ---------------------------------------------------------------------------

  function EncodeRecord(r: Record): Bytes {
    Put32(r.index) + Put32(r.kind) + Put32(|r.payload|) + r.payload
  }

  function Encode(rs: seq<Record>): Bytes {
    if rs == [] then [] else EncodeRecord(rs[0]) + Encode(rs[1..])
  }

  lemma {:induction false} EncodeAppend(a: seq<Record>, b: seq<Record>)
    ensures Encode(a + b) == Encode(a) + Encode(b)
  {
    if a == [] {
      assert a + b == b;
    } else {
      assert (a + b)[1..] == a[1..] + b;
      EncodeAppend(a[1..], b);
    }
  }

  lemma EncodeOne(r: Record)
    ensures Encode([r]) == EncodeRecord(r)
  {
    assert [r][1..] == [];
  }

  function IndexPart(d: Draw): Bytes {
    match d.indices
    case None => []
    case Some(ix) => match ix.source
      case Bound(offset) => Put32(offset)
      case Client(data) => data
  }

  function Payload(d: Draw, attribs: seq<Attrib>): Bytes
    requires ValidDraw(d)
  {
    var rs := Records(d, attribs, |attribs|);
    IndexPart(d) + Put32(MAGIC) + Put32(|rs|) + Encode(rs)
  }

  lemma StrideBytes(d: Draw, a: Attrib)
    requires ValidDraw(d) && a.stride > 0 && a.stride < 0x8000
    ensures LegacyBytes(d, a) == d.count * a.stride
  {
    assert d.count * a.stride <= INT32_MAX * 0x8000 by {
      MulMonotone(d.count, INT32_MAX, a.stride, 0x8000);
    }
  }

  lemma MulMonotone(a: nat, b: nat, c: nat, d: nat)
    requires a <= b && c <= d
    ensures a * c <= b * d
  {
    assert b * d - a * c == b * (d - c) + (b - a) * c;
  }

  class OutputBuffer {
    var bytes: Bytes

    method PutInt(x: int)
      modifies this
      ensures bytes == old(bytes) + Put32(x)
    {
      bytes := bytes + Put32(x);
    }

    method PutBytes(data: Bytes)
      modifies this
      ensures bytes == old(bytes) + data
    {
      bytes := bytes + data;
    }

    method PutHeader(i: nat, kind: nat, byteCount: nat)
      modifies this
      ensures bytes == old(bytes) + Put32(i) + Put32(kind) + Put32(byteCount)
    {
      PutInt(i);
      PutInt(kind);
      PutInt(byteCount);
    }

    method PutGathered(ix: Indices, a: Attrib)
      requires a.stride > 0
      modifies this
      ensures bytes == old(bytes) + Gather(ix, a, |ix.values|)
    {
      for j := 0 to |ix.values|
        invariant bytes == old(bytes) + Gather(ix, a, j)
      {
        PutBytes(Copy(a.memory, DrawIndex(ix, j) * a.stride, a.stride));
      }
    }

    method PutGeneric(a: Attrib, i: nat, byteCount: nat)
      modifies this
      ensures bytes == old(bytes) + EncodeRecord(Record(i, GENERIC, Copy(a.memory, 0, byteCount)))
    {
      PutHeader(i, GENERIC, byteCount);
      PutBytes(Copy(a.memory, 0, byteCount));
    }

    method PutLegacy(d: Draw, a: Attrib, i: nat, byteCount: nat)
      requires ValidDraw(d) && a.stride > 0 && byteCount == d.count * a.stride
      modifies this
      ensures bytes == old(bytes) + EncodeRecord(Record(i, LEGACY, LegacyPayload(d, a)))
    {
      hide Put32, Copy;
      PutHeader(i, LEGACY, byteCount);
      if d.indices.None? {
        PutBytes(Copy(a.memory, d.first * a.stride, byteCount));
      } else {
        PutGathered(d.indices.value, a);
      }
    }

    /** One attribute: nothing, or one record. */
    method PutAttrib(d: Draw, attribs: seq<Attrib>, i: nat, indexCount: int)
      returns (written: nat, indexCount': int)
      requires ValidDraw(d) && i < |attribs| && attribs[i].stride < 0x8000
      requires indexCount == 0 || indexCount == VertexCount(d)
      modifies this
      ensures indexCount' == 0 || indexCount' == VertexCount(d)
      ensures written == |RecordsOf(d, attribs, i)|
      ensures bytes == old(bytes) + Encode(RecordsOf(d, attribs, i))
    {
      hide EncodeRecord, LegacyPayload;
      var a := attribs[i];
      written, indexCount' := 0, indexCount;
      if a.state.Disabled? || !a.hasPointer || a.stride <= 0 {
        return;
      }
      if a.state.Enabled? || (a.state.LegacyEnabled? && d.program) {
        if d.indices.Some? && indexCount' == 0 {
          indexCount' := Signed32(d.indices.value.last + 1);
        }
        var vertices := if d.indices.None? then d.first + d.count else indexCount';
        var byteCount := U64(U64(U64(vertices) * U64(a.stride)) + a.pointerOffset);
        if byteCount > INT32_MAX {
          return;
        }
        PutGeneric(a, i, byteCount);
        EncodeOne(Record(i, GENERIC, Copy(a.memory, 0, byteCount)));
      } else {
        var byteCount := U64(d.count * U64(a.stride));
        if byteCount > INT32_MAX {
          return;
        }
        StrideBytes(d, a);
        PutLegacy(d, a, i, byteCount);
        EncodeOne(Record(i, LEGACY, LegacyPayload(d, a)));
      }
      written := 1;
    }

    method WriteUnboundVertexArrays(d: Draw, attribs: seq<Attrib>)
      requires ValidDraw(d) && forall i | 0 <= i < |attribs| :: attribs[i].stride < 0x8000
      modifies this
      ensures bytes == old(bytes) + Payload(d, attribs)
    {
      hide Put32, Records, RecordsOf, Encode;
      PutBytes(IndexPart(d));
      PutInt(MAGIC);
      ghost var prefix := bytes;
      var recordCountOffset := |bytes|;
      PutInt(0);
      var recordCount, indexCount := 0, 0;
      NoRecords(d, attribs, prefix + Put32(0));
      for i := 0 to |attribs|
        invariant indexCount == 0 || indexCount == VertexCount(d)
        invariant recordCount == |Records(d, attribs, i)|
        invariant bytes == prefix + Put32(0) + Encode(Records(d, attribs, i))
      {
        var written;
        written, indexCount := PutAttrib(d, attribs, i, indexCount);
        NextRecords(d, attribs, i);
        recordCount := recordCount + written;
      }
      Patched(prefix, Put32(0), Put32(recordCount), Encode(Records(d, attribs, |attribs|)));
      bytes := bytes[..recordCountOffset] + Put32(recordCount) + bytes[recordCountOffset + 4..];
    }
  }

  lemma NoRecords(d: Draw, attribs: seq<Attrib>, start: Bytes)
    requires ValidDraw(d)
    ensures |Records(d, attribs, 0)| == 0 && start + Encode(Records(d, attribs, 0)) == start
  {
  }

  lemma NextRecords(d: Draw, attribs: seq<Attrib>, i: nat)
    requires ValidDraw(d) && i < |attribs|
    ensures |Records(d, attribs, i + 1)| == |Records(d, attribs, i)| + |RecordsOf(d, attribs, i)|
    ensures Encode(Records(d, attribs, i + 1)) == Encode(Records(d, attribs, i)) + Encode(RecordsOf(d, attribs, i))
  {
    EncodeAppend(Records(d, attribs, i), RecordsOf(d, attribs, i));
  }

  lemma Patched(prefix: Bytes, before: Bytes, after: Bytes, tail: Bytes)
    requires |before| == |after| == 4
    ensures var s := prefix + before + tail;
      s[..|prefix|] + after + s[|prefix| + 4..] == prefix + after + tail
  {
    var s := prefix + before + tail;
    assert s[..|prefix|] == prefix && s[|prefix| + 4..] == tail;
  }

  // --- a reader -------------------------------------------------------------------------------

  /** `n` records, each found by the length before it. */
  function DecodeRecords(s: Bytes, n: nat): Option<(seq<Record>, Bytes)>
    decreases n
  {
    if n == 0 then Some(([], s))
    else if |s| < 12 then None
    else
      var size := Get32(s[8..]);
      if |s| < 12 + size then None
      else match DecodeRecords(s[12 + size..], n - 1)
        case None => None
        case Some((rs, rest)) =>
          Some(([Record(Get32(s), Get32(s[4..]), s[12..12 + size])] + rs, rest))
  }

  function Decode(s: Bytes): Option<(seq<Record>, Bytes)> {
    if |s| < 8 || Get32(s) != MAGIC then None else DecodeRecords(s[8..], Get32(s[4..]))
  }

  predicate Encodable(r: Record) {
    r.index < TWO32 && r.kind < TWO32 && |r.payload| <= INT32_MAX
  }

  lemma HeaderReads(r: Record, rest: Bytes)
    requires Encodable(r)
    ensures var s := EncodeRecord(r) + rest;
      && |s| >= 12 + |r.payload|
      && Get32(s) == r.index && Get32(s[4..]) == r.kind && Get32(s[8..]) == |r.payload|
      && s[12..12 + |r.payload|] == r.payload && s[12 + |r.payload|..] == rest
  {
    hide Put32, Get32;
    var s := EncodeRecord(r) + rest;
    var p1 := Put32(|r.payload|) + (r.payload + rest);
    var p2 := Put32(r.kind) + p1;
    assert s == Put32(r.index) + p2;
    GetPut32(r.index, p2);
    GetPut32(r.kind, p1);
    GetPut32(|r.payload|, r.payload + rest);
    assert s[4..] == p2 && p2[4..] == p1 && s[8..] == s[4..][4..] && s[12..] == s[8..][4..];
    assert s[12..] == r.payload + rest;
    assert s[12..12 + |r.payload|] == s[12..][..|r.payload|];
    assert s[12 + |r.payload|..] == s[12..][|r.payload|..];
  }

  lemma {:induction false} RecordsReadBack(rs: seq<Record>, rest: Bytes)
    requires forall k | 0 <= k < |rs| :: Encodable(rs[k])
    ensures DecodeRecords(Encode(rs) + rest, |rs|) == Some((rs, rest))
    decreases |rs|
  {
    hide EncodeRecord, Get32;
    if rs == [] {
      assert Encode(rs) + rest == rest;
    } else {
      var tail := Encode(rs[1..]) + rest;
      assert Encode(rs) + rest == EncodeRecord(rs[0]) + tail;
      HeaderReads(rs[0], tail);
      RecordsReadBack(rs[1..], rest);
      assert [rs[0]] + rs[1..] == rs;
    }
  }

  lemma {:induction false} RecordsAreEncodable(d: Draw, attribs: seq<Attrib>, n: nat)
    requires ValidDraw(d) && n <= |attribs| < TWO32
    requires forall i | 0 <= i < |attribs| :: attribs[i].stride < 0x8000
    ensures |Records(d, attribs, n)| <= n
    ensures forall k | 0 <= k < |Records(d, attribs, n)| :: Encodable(Records(d, attribs, n)[k])
  {
    if n > 0 {
      RecordsAreEncodable(d, attribs, n - 1);
      var a := attribs[n - 1];
      if !Skipped(a) && !IsGeneric(d, a) {
        StrideBytes(d, a);
      }
    }
  }

  /** The payload describes itself: a reader that follows the lengths recovers exactly the
      record list, and stops where the next request begins. */
  lemma PayloadReadsBack(d: Draw, attribs: seq<Attrib>, rest: Bytes)
    requires ValidDraw(d) && |attribs| < TWO32
    requires forall i | 0 <= i < |attribs| :: attribs[i].stride < 0x8000
    ensures var s := Payload(d, attribs) + rest;
      && |IndexPart(d)| <= |s|
      && Decode(s[|IndexPart(d)|..]) == Some((Records(d, attribs, |attribs|), rest))
  {
    hide Get32, Put32, Records, Encode, IndexPart;
    var rs := Records(d, attribs, |attribs|);
    RecordsAreEncodable(d, attribs, |attribs|);
    var s := Payload(d, attribs) + rest;
    var body := Encode(rs) + rest;
    var t := s[|IndexPart(d)|..];
    assert t == Put32(MAGIC) + (Put32(|rs|) + body);
    GetPut32(MAGIC, Put32(|rs|) + body);
    GetPut32(|rs|, body);
    assert t[8..] == t[4..][4..] == body;
    RecordsReadBack(rs, rest);
  }

  // --- coverage --------------------------------------------------------------------------------

  /** Vertex `v` of a generic array lies inside the payload the record carries. */
  predicate Covers(a: Attrib, byteCount: nat, v: nat) {
    a.pointerOffset + (v + 1) * a.stride <= byteCount
  }

  /** A byte count short of the true one is one that wrapped. */
  lemma GenericBytesAre(d: Draw, a: Attrib)
    requires ValidDraw(d) && 0 < a.stride < 0x8000 && 0 < VertexCount(d)
    ensures GenericBytes(d, a) == U64(VertexCount(d) * a.stride + a.pointerOffset)
  {
    var n := VertexCount(d);
    MulMonotone(n, INT32_MAX, a.stride, 0x8000);
    var product := n * a.stride;
    assert U64(n) == n && U64(a.stride) == a.stride;
    assert U64(product) == product;
  }

  lemma CoveredUpTo(a: Attrib, n: nat, byteCount: nat)
    requires a.stride > 0 && n > 0
    ensures (forall v: nat | v < n :: Covers(a, byteCount, v)) <==> n * a.stride + a.pointerOffset <= byteCount
  {
    forall v: nat | v < n ensures n * a.stride + a.pointerOffset <= byteCount ==> Covers(a, byteCount, v) {
      MulMonotone(v + 1, n, a.stride, a.stride);
    }
    assert Covers(a, byteCount, n - 1) <==> n * a.stride + a.pointerOffset <= byteCount;
  }

  lemma {:induction false} RecordOrigin(d: Draw, attribs: seq<Attrib>, n: nat, r: Record)
    requires ValidDraw(d) && n <= |attribs| && r in Records(d, attribs, n)
    ensures r.index < n && r in RecordsOf(d, attribs, r.index)
  {
    if r !in RecordsOf(d, attribs, n - 1) {
      RecordOrigin(d, attribs, n - 1, r);
    }
  }

  /** A generic record the encoder emits carries every vertex below the vertex count exactly when
      its byte count did not wrap past 64 bits. */
  lemma {:induction false} GenericCoversIff(d: Draw, attribs: seq<Attrib>, r: Record)
    requires ValidDraw(d) && 0 < VertexCount(d) && r in Records(d, attribs, |attribs|) && r.kind == GENERIC
    requires forall i | 0 <= i < |attribs| :: attribs[i].stride < 0x8000
    ensures r.index < |attribs|
    ensures var a := attribs[r.index];
      a.stride > 0 && r.payload == Copy(a.memory, 0, |r.payload|) &&
      ((forall v: nat | v < VertexCount(d) :: Covers(a, |r.payload|, v)) <==>
         VertexCount(d) * a.stride + a.pointerOffset < TWO64)
  {
    RecordOrigin(d, attribs, |attribs|, r);
    GenericRecordIs(d, attribs, r.index, r);
    hide Records, RecordsOf, VertexCount, GenericBytes, Covers;
    BytesCoverIff(d, attribs[r.index]);
  }

  lemma BytesCoverIff(d: Draw, a: Attrib)
    requires ValidDraw(d) && 0 < a.stride < 0x8000 && 0 < VertexCount(d)
    ensures (forall v: nat | v < VertexCount(d) :: Covers(a, GenericBytes(d, a), v)) <==>
              VertexCount(d) * a.stride + a.pointerOffset < TWO64
  {
    hide VertexCount, GenericBytes, U64, Covers;
    GenericBytesAre(d, a);
    CoveredUpTo(a, VertexCount(d), GenericBytes(d, a));
    WholeIff(VertexCount(d) * a.stride + a.pointerOffset);
  }

  lemma GenericRecordIs(d: Draw, attribs: seq<Attrib>, i: nat, r: Record)
    requires ValidDraw(d) && i < |attribs| && r in RecordsOf(d, attribs, i) && r.kind == GENERIC
    ensures var a := attribs[i];
      a.stride > 0 && |r.payload| == GenericBytes(d, a) && r.payload == Copy(a.memory, 0, GenericBytes(d, a))
  {
    hide GenericBytes, LegacyPayload;
  }

  lemma WholeIff(x: nat)
    ensures x <= U64(x) <==> x < TWO64
  {
  }

  /** The vertex a draw fetches at position `j`. */
  function Fetched(d: Draw, j: nat): int
    requires ValidDraw(d) && j < d.count
  {
    if d.indices.None? then d.first + j else DrawIndex(d.indices.value, j)
  }

  /** The largest index the scan of an indexed draw answers bounds what the draw fetches. */
  predicate IndicesScanned(d: Draw)
    requires ValidDraw(d)
  {
    d.indices.Some? ==>
      d.indices.value.last < INT32_MAX && forall j | 0 <= j < d.count :: 0 <= Fetched(d, j) <= d.indices.value.last
  }

  /** Every generic record the encoder emits holds, at its place, each vertex the draw fetches. */
  lemma {:induction false} FetchesAreCovered(d: Draw, attribs: seq<Attrib>, r: Record, j: nat)
    requires ValidDraw(d) && IndicesScanned(d) && j < d.count
    requires r in Records(d, attribs, |attribs|) && r.kind == GENERIC
    requires forall i | 0 <= i < |attribs| :: attribs[i].stride < 0x8000
    requires forall i | 0 <= i < |attribs| :: VertexCount(d) * attribs[i].stride + attribs[i].pointerOffset < TWO64
    ensures r.index < |attribs|
    ensures var a := attribs[r.index];
      a.stride > 0 &&
      var at := a.pointerOffset + Fetched(d, j) * a.stride;
      Fetched(d, j) >= 0 && HoldsAt(r.payload, at, Copy(a.memory, at, a.stride))
  {
    FetchedBelowCount(d, j);
    GenericCoversIff(d, attribs, r);
    hide Records, VertexCount, Fetched;
    var a, v := attribs[r.index], Fetched(d, j);
    assert Covers(a, |r.payload|, v);
    assert (v + 1) * a.stride == v * a.stride + a.stride;
    CopyPart(a.memory, 0, |r.payload|, a.pointerOffset + v * a.stride, a.stride);
  }

  lemma FetchedBelowCount(d: Draw, j: nat)
    requires ValidDraw(d) && j < d.count
    requires d.indices.Some? ==> 0 <= Fetched(d, j) <= d.indices.value.last < INT32_MAX
    ensures 0 <= Fetched(d, j) < VertexCount(d)
  {
  }

  /** The bytes of vertex `v` in client memory. */
  function Vertex(a: Attrib, v: int): Bytes
    requires a.stride > 0
  {
    Copy(a.memory, v * a.stride, a.stride)
  }

  /** A legacy payload is the fetched vertices, in draw order. */
  ghost predicate HoldsVertices(payload: Bytes, d: Draw, a: Attrib, n: nat)
    requires ValidDraw(d) && a.stride > 0 && n <= d.count
  {
    && |payload| == n * a.stride
    && forall j | 0 <= j < n :: HoldsAt(payload, j * a.stride, Vertex(a, Fetched(d, j)))
  }

  predicate HoldsAt(s: Bytes, at: int, part: Bytes) {
    0 <= at && at + |part| <= |s| && s[at..at + |part|] == part
  }

  lemma {:induction false} GatherHoldsVertices(d: Draw, a: Attrib, n: nat)
    requires ValidDraw(d) && d.indices.Some? && a.stride > 0 && n <= d.count
    ensures HoldsVertices(Gather(d.indices.value, a, n), d, a, n)
  {
    if n > 0 {
      var before := Gather(d.indices.value, a, n - 1);
      var last := Vertex(a, Fetched(d, n - 1));
      GatherHoldsVertices(d, a, n - 1);
      assert Gather(d.indices.value, a, n) == before + last;
      forall j | 0 <= j < n ensures HoldsAt(before + last, j * a.stride, Vertex(a, Fetched(d, j))) {
        if j < n - 1 {
          assert HoldsAt(before, j * a.stride, Vertex(a, Fetched(d, j)));
        } else {
          assert |before| == j * a.stride;
        }
      }
    }
  }

  lemma CopyHoldsVertices(d: Draw, a: Attrib)
    requires ValidDraw(d) && d.indices.None? && a.stride > 0
    ensures HoldsVertices(LegacyPayload(d, a), d, a, d.count)
  {
    hide Copy, HoldsAt, Vertex, Fetched;
    forall j | 0 <= j < d.count ensures HoldsAt(LegacyPayload(d, a), j * a.stride, Vertex(a, Fetched(d, j))) {
      CopyHoldsVertex(d, a, j);
    }
  }

  lemma CopyHoldsVertex(d: Draw, a: Attrib, j: nat)
    requires ValidDraw(d) && d.indices.None? && a.stride > 0 && j < d.count
    ensures HoldsAt(Copy(a.memory, d.first * a.stride, d.count * a.stride), j * a.stride, Vertex(a, Fetched(d, j)))
  {
    hide Copy, HoldsAt;
    MulMonotone(j + 1, d.count, a.stride, a.stride);
    Distribute(d.first, j, a.stride);
    Distribute(j, 1, a.stride);
    CopyPart(a.memory, d.first * a.stride, d.count * a.stride, j * a.stride, a.stride);
  }

  lemma Distribute(a: nat, b: nat, c: nat)
    ensures (a + b) * c == a * c + b * c
  {
  }

  lemma CopyPart(m: Memory, from: int, n: nat, at: nat, size: nat)
    requires at + size <= n
    ensures HoldsAt(Copy(m, from, n), at, Copy(m, from + at, size))
  {
  }

  /** Both legacy paths send, for each position of the draw, the bytes of the vertex it fetches. */
  lemma LegacyPayloadIsFetched(d: Draw, a: Attrib)
    requires ValidDraw(d) && a.stride > 0
    ensures HoldsVertices(LegacyPayload(d, a), d, a, d.count)
  {
    if d.indices.Some? {
      GatherHoldsVertices(d, a, d.count);
    } else {
      CopyHoldsVertices(d, a);
    }
  }

  // --- what is sent, field by field ----------------------------------------------------------

  /** A reader of the index part: the offset into a bound buffer, or the indices themselves, and then
      the magic. */
  lemma IndexPartReads(d: Draw, attribs: seq<Attrib>)
    requires ValidDraw(d)
    ensures var p := Payload(d, attribs);
      match d.indices
      case None => |p| >= 8 && Get32(p) == 0x504b4131
      case Some(ix) =>
        (match ix.source
         case Bound(offset) =>
           |p| >= 12 && (offset < 0x1_0000_0000 ==> Get32(p) == offset) && Get32(p[4..]) == 0x504b4131
         case Client(data) => data <= p && |p| >= |data| + 8 && Get32(p[|data|..]) == 0x504b4131)
  {
    hide Get32, Records, Encode, Put32;
    var rs := Records(d, attribs, |attribs|);
    var tail := Put32(|rs|) + Encode(rs);
    var rest := Put32(MAGIC) + tail;
    assert Payload(d, attribs) == IndexPart(d) + rest;
    GetPut32(MAGIC, tail);
    if d.indices.None? {
      assert [] + rest == rest;
    } else {
      match d.indices.value.source
      case Bound(offset) =>
        assert (Put32(offset) + rest)[4..] == rest;
        if offset < 0x1_0000_0000 {
          GetPut32(offset, rest);
        }
      case Client(data) =>
        assert (data + rest)[|data|..] == rest;
    }
  }

  /** The index a draw fetches is the client's, shifted by the base vertex. */
  lemma FetchedIs(d: Draw, j: nat)
    requires ValidDraw(d) && j < d.count
    ensures d.indices.None? ==> Fetched(d, j) == d.first + j
    ensures d.indices.Some? ==>
      var index := d.indices.value.values[j] + d.indices.value.basevertex;
      0 <= index < 0x8000_0000 ==> Fetched(d, j) == index
  {
  }

  /** Which attributes are sent, as which kind, and with how many bytes, when no size wraps. */
  lemma RecordsOfAttribute(d: Draw, attribs: seq<Attrib>, i: nat)
    requires ValidDraw(d) && i < |attribs| && attribs[i].stride < 0x8000
    requires d.indices.Some? ==> d.indices.value.last < 0x7FFF_FFFF
    requires attribs[i].pointerOffset < 0x8000_0000_0000_0000
    ensures var a, rs := attribs[i], RecordsOf(d, attribs, i);
      var vertices := if d.indices.None? then d.first + d.count else d.indices.value.last + 1;
      if a.state == Disabled || !a.hasPointer || a.stride <= 0 then rs == []
      else if a.state == Enabled || d.program then
        var size := vertices * a.stride + a.pointerOffset;
        if size > 0x7FFF_FFFF then rs == []
        else |rs| == 1 && rs[0].index == i && rs[0].kind == 1 && rs[0].payload == Copy(a.memory, 0, size)
      else
        var size := d.count * a.stride;
        if size > 0x7FFF_FFFF then rs == []
        else |rs| == 1 && rs[0].index == i && rs[0].kind == 2 && |rs[0].payload| == size
  {
    hide GenericBytes, LegacyBytes, Copy;
    var a := attribs[i];
    if a.stride > 0 {
      StrideBytes(d, a);
      SizeOf(d, a);
      LegacyLength(d, a);
    }
  }

  lemma SizeOf(d: Draw, a: Attrib)
    requires ValidDraw(d) && 0 < a.stride < 0x8000
    requires d.indices.Some? ==> d.indices.value.last < 0x7FFF_FFFF
    requires a.pointerOffset < 0x8000_0000_0000_0000
    ensures var vertices := if d.indices.None? then d.first + d.count else d.indices.value.last + 1;
      vertices * a.stride >= 0 && GenericBytes(d, a) == vertices * a.stride + a.pointerOffset
  {
    var n := VertexCount(d);
    VerticesAre(d);
    hide VertexCount, U64;
    MulMonotone(0, n, a.stride, a.stride);
    MulMonotone(n, INT32_MAX, a.stride, 0x8000);
    if n > 0 {
      hide GenericBytes;
      GenericBytesAre(d, a);
      Unwrapped(n * a.stride + a.pointerOffset);
    } else {
      Unwrapped(0);
      Unwrapped(a.pointerOffset);
    }
  }

  lemma VerticesAre(d: Draw)
    requires ValidDraw(d)
    requires d.indices.Some? ==> d.indices.value.last < 0x7FFF_FFFF
    ensures VertexCount(d) == if d.indices.None? then d.first + d.count else d.indices.value.last + 1
  {
  }

  lemma Unwrapped(x: nat)
    requires x < TWO64
    ensures U64(x) == x
  {
  }

  lemma LegacyLength(d: Draw, a: Attrib)
    requires ValidDraw(d) && a.stride > 0
    ensures |LegacyPayload(d, a)| == d.count * a.stride
  {
  }
}
