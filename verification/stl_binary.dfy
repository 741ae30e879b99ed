/**
 * The binary STL layout as the viewer reads it: an 80-byte header that is
 * ignored, a little-endian u32 triangle count at offset 80, then one
 * 50-byte record per triangle (12 bytes of stored normal, nine 4-byte
 * coordinates, a 2-byte attribute count). The format sniff, the
 * offset-walking parser and an encoder that produces the layout.
 *
 * Decoding a 4-byte little-endian IEEE-754 single into a number is left
 * abstract: every operation takes the decoder as a parameter, and every
 * property holds for any decoder.
 */
module StlBinary {
  import opened Mesh

  type Byte = b: int | 0 <= b < 256

  /** Maps the four bytes of a little-endian single, lowest address first, to its value. */
  type F32Decoder = (Byte, Byte, Byte, Byte) -> real

  const CountOffset: nat := 80
  const DataOffset: nat := 84
  const RecordSize: nat := 50
  const NormalSize: nat := 12

  // ---------------------------------------------------------------------------
  // Little-endian u32

  /** `DataView.getUint32(off, true)`. */
  function U32LE(buf: seq<Byte>, off: nat): (n: nat)
    requires off + 4 <= |buf|
    ensures n < 0x1_0000_0000
  {
    var b0, b1, b2, b3 := buf[off] as int, buf[off + 1] as int, buf[off + 2] as int, buf[off + 3] as int;
    b0 + 0x100 * b1 + 0x1_0000 * b2 + 0x100_0000 * b3
  }

  /** The four little-endian bytes of `n`. */
  function EncodeU32LE(n: nat): (r: seq<Byte>)
    requires n < 0x1_0000_0000
    ensures |r| == 4
  {
    var q1 := n / 0x100;
    assert n == 0x100 * q1 + n % 0x100;
    var q2 := q1 / 0x100;
    assert q1 == 0x100 * q2 + q1 % 0x100;
    [n % 0x100, q1 % 0x100, q2 % 0x100, q2 / 0x100]
  }

  /** Reading back what was encoded gives the number. */
  lemma U32LEOfEncode(n: nat)
    requires n < 0x1_0000_0000
    ensures U32LE(EncodeU32LE(n), 0) == n
  {
    var q1 := n / 0x100;
    var q2 := q1 / 0x100;
    var q3 := q2 / 0x100;
    assert n == 0x100 * q1 + n % 0x100;
    assert q1 == 0x100 * q2 + q1 % 0x100;
    assert q2 == 0x100 * q3 + q2 % 0x100;
  }

  /** Encoding what was read gives back the bytes read. */
  lemma EncodeU32LEOfU32LE(buf: seq<Byte>, off: nat)
    requires off + 4 <= |buf|
    ensures EncodeU32LE(U32LE(buf, off)) == buf[off..off + 4]
  {
    var n := U32LE(buf, off);
    var b0, b1, b2, b3 := buf[off] as int, buf[off + 1] as int, buf[off + 2] as int, buf[off + 3] as int;
    assert n == b0 + 0x100 * (b1 + 0x100 * (b2 + 0x100 * b3));
    assert n % 0x100 == b0 && n / 0x100 == b1 + 0x100 * (b2 + 0x100 * b3);
    var m := n / 0x100;
    assert m % 0x100 == b1 && m / 0x100 == b2 + 0x100 * b3;
    var q := m / 0x100;
    assert q % 0x100 == b2 && q / 0x100 == b3;
  }

  // ---------------------------------------------------------------------------
  // Format sniff

  /** The declared number of triangle records. */
  function TriangleCount(buf: seq<Byte>): nat
    requires |buf| >= DataOffset
  {
    U32LE(buf, CountOffset)
  }

  /** The buffer holds at least the records its count declares: what the parser needs. */
  predicate FitsRecords(buf: seq<Byte>)
  {
    |buf| >= DataOffset && DataOffset + RecordSize * TriangleCount(buf) <= |buf|
  }

  /**
   * `isBinarySTL`: at least 84 bytes, and exactly 84 + 50·T bytes for the
   * declared count T. A binary buffer is 84 bytes plus whole records, and
   * holds every record the parser will read.
   */
  function IsBinarySTL(buf: seq<Byte>): (binary: bool)
    ensures |buf| < DataOffset ==> !binary
    ensures binary ==> (|buf| - DataOffset) % RecordSize == 0
    ensures binary ==> FitsRecords(buf)
  {
    |buf| >= DataOffset && DataOffset + TriangleCount(buf) * RecordSize == |buf|
  }

  /** With the count T at offset 80, the sniff answers binary exactly for length 84 + 50·T. */
  lemma SniffDecidedByLength(buf: seq<Byte>, t: nat)
    requires |buf| >= DataOffset && TriangleCount(buf) == t
    ensures IsBinarySTL(buf) <==> |buf| == DataOffset + RecordSize * t
  {
  }

  // ---------------------------------------------------------------------------
  // Parsing

  /** Byte offset of coordinate `k` (0..8) of triangle `i`. */
  function CoordOffset(i: nat, k: nat): nat
  {
    DataOffset + RecordSize * i + NormalSize + 4 * k
  }

  /** `DataView.getFloat32(off, true)` through the decoder. */
  function F32At(dec: F32Decoder, buf: seq<Byte>, off: nat): real
    requires off + 4 <= |buf|
  {
    dec(buf[off], buf[off + 1], buf[off + 2], buf[off + 3])
  }

  /**
   * One 50-byte record at `off`: the stored normal is skipped, the nine
   * coordinates are read at `off + 12 + 4k` (see `ReadTriangleCoords`), and
   * the attribute count is skipped.
   */
  function ReadTriangle(dec: F32Decoder, buf: seq<Byte>, off: nat): Triangle
    requires off + RecordSize <= |buf|
  {
    var v := off + NormalSize;
    Triangle(
      Vec3(F32At(dec, buf, v), F32At(dec, buf, v + 4), F32At(dec, buf, v + 8)),
      Vec3(F32At(dec, buf, v + 12), F32At(dec, buf, v + 16), F32At(dec, buf, v + 20)),
      Vec3(F32At(dec, buf, v + 24), F32At(dec, buf, v + 28), F32At(dec, buf, v + 32)))
  }

  /** Coordinate `k` of a record is the single at `off + 12 + 4k`: the normal is skipped. */
  lemma ReadTriangleCoords(dec: F32Decoder, buf: seq<Byte>, off: nat)
    requires off + RecordSize <= |buf|
    ensures forall k | 0 <= k < 9 ::
      Coord(ReadTriangle(dec, buf, off), k) == F32At(dec, buf, off + NormalSize + 4 * k)
  {
  }

  /** The first `n` records from `off`, record `i` at `off + 50i`. */
  function ParseTriangles(dec: F32Decoder, buf: seq<Byte>, off: nat, n: nat): (tris: seq<Triangle>)
    requires off + RecordSize * n <= |buf|
    ensures |tris| == n
  {
    if n == 0 then [] else ParseTriangles(dec, buf, off, n - 1) + [ReadTriangle(dec, buf, off + RecordSize * (n - 1))]
  }

  /** Triangle `i` of a parse is the record read at `off + 50i`. */
  lemma {:induction false} ParseTrianglesIndex(dec: F32Decoder, buf: seq<Byte>, off: nat, n: nat)
    requires off + RecordSize * n <= |buf|
    ensures forall i | 0 <= i < n :: ParseTriangles(dec, buf, off, n)[i] == ReadTriangle(dec, buf, off + RecordSize * i)
  {
    if n > 0 {
      ParseTrianglesIndex(dec, buf, off, n - 1);
    }
  }

  /** The triangles of a buffer that holds its declared records. */
  function Triangles(dec: F32Decoder, buf: seq<Byte>): seq<Triangle>
    requires FitsRecords(buf)
  {
    ParseTriangles(dec, buf, DataOffset, TriangleCount(buf))
  }

  /** Every 4-byte read of a binary buffer lies inside it. */
  lemma BinaryReadsInBounds(buf: seq<Byte>)
    requires IsBinarySTL(buf)
    ensures CountOffset + 4 <= |buf|
    ensures forall i, k | 0 <= i < TriangleCount(buf) && 0 <= k < 9 :: CoordOffset(i, k) + 4 <= |buf|
  {
  }

  /**
   * `parseBinarySTL`: read the count, walk the records, and take the
   * absolute sixth of the accumulated sum. The positions are the flattened
   * triangles read (`PositionsOfParse` locates each value in the buffer);
   * the volume is the mesh volume of the triangles read, and the same number
   * `computeVolumeFromPositions` gives for the positions.
   */
  method ParseBinarySTL(dec: F32Decoder, buf: seq<Byte>) returns (positions: seq<real>, volume: real)
    requires FitsRecords(buf)
    ensures positions == Positions(Triangles(dec, buf))
    ensures volume == Volume(Triangles(dec, buf))
    ensures volume == Abs(FlatSignedSum(positions) / 6.0)
  {
    var triCount := U32LE(buf, CountOffset);
    var sum;
    positions, sum := WalkRecords(dec, buf, triCount);
    volume := Abs(sum / 6.0);
    FlatVolumeAgrees(positions, Triangles(dec, buf), volume);
  }

  /**
   * The loop of `parseBinarySTL`: with a running offset, skip each normal,
   * emit the nine coordinates, skip the attribute count, and accumulate the
   * triple product.
   */
  method WalkRecords(dec: F32Decoder, buf: seq<Byte>, triCount: nat) returns (positions: seq<real>, sum: real)
    requires DataOffset + RecordSize * triCount <= |buf|
    ensures positions == Positions(ParseTriangles(dec, buf, DataOffset, triCount))
    ensures sum == SignedSum(ParseTriangles(dec, buf, DataOffset, triCount))
  {
    positions := [];
    sum := 0.0;
    var offset := DataOffset;
    var i := 0;
    ghost var done: seq<Triangle> := [];
    while i < triCount
      invariant 0 <= i <= triCount
      invariant offset == DataOffset + RecordSize * i
      invariant done == ParseTriangles(dec, buf, DataOffset, i)
      invariant positions == Positions(done) && sum == SignedSum(done)
    {
      var t := ReadTriangle(dec, buf, offset);
      ParseStep(dec, buf, i, offset, done, positions, sum);
      positions, sum := positions + Flatten(t), sum + TripleProduct(t);
      offset, i, done := offset + RecordSize, i + 1, done + [t];
    }
  }

  /** One turn of the parser's loop extends the positions and the sum by the next record. */
  lemma ParseStep(dec: F32Decoder, buf: seq<Byte>, i: nat, offset: nat, done: seq<Triangle>, positions: seq<real>, sum: real)
    requires DataOffset + RecordSize * (i + 1) <= |buf|
    requires offset == DataOffset + RecordSize * i
    requires done == ParseTriangles(dec, buf, DataOffset, i)
    requires positions == Positions(done) && sum == SignedSum(done)
    ensures done + [ReadTriangle(dec, buf, offset)] == ParseTriangles(dec, buf, DataOffset, i + 1)
    ensures positions + Flatten(ReadTriangle(dec, buf, offset)) == Positions(done + [ReadTriangle(dec, buf, offset)])
    ensures sum + TripleProduct(ReadTriangle(dec, buf, offset)) == SignedSum(done + [ReadTriangle(dec, buf, offset)])
  {
    var t := ReadTriangle(dec, buf, offset);
    assert (done + [t])[..i] == done;
    SignedSumSnoc(done, t);
  }

  lemma FlatVolumeAgrees(positions: seq<real>, tris: seq<Triangle>, volume: real)
    requires positions == Positions(tris) && volume == Volume(tris)
    ensures volume == Abs(FlatSignedSum(positions) / 6.0)
  {
    VolumeOfPositions(tris);
  }

  /** Position `9i + k` of a parse is coordinate `k` of triangle `i`, read at its byte offset. */
  lemma PositionsOfParse(dec: F32Decoder, buf: seq<Byte>)
    requires FitsRecords(buf)
    ensures forall i, k | 0 <= i < TriangleCount(buf) && 0 <= k < 9 ::
      Positions(Triangles(dec, buf))[9 * i + k] == F32At(dec, buf, CoordOffset(i, k))
  {
    var n := TriangleCount(buf);
    var tris := ParseTriangles(dec, buf, DataOffset, n);
    PositionsIndex(tris);
    ParseTrianglesIndex(dec, buf, DataOffset, n);
    forall i, k | 0 <= i < n && 0 <= k < 9
      ensures Positions(tris)[9 * i + k] == F32At(dec, buf, CoordOffset(i, k))
    {
      assert Positions(tris)[9 * i + k] == Coord(tris[i], k);
      assert tris[i] == ReadTriangle(dec, buf, DataOffset + RecordSize * i);
      CoordOfRecord(dec, buf, i, k);
    }
  }

  lemma CoordOfRecord(dec: F32Decoder, buf: seq<Byte>, i: nat, k: nat)
    requires DataOffset + RecordSize * (i + 1) <= |buf| && k < 9
    ensures Coord(ReadTriangle(dec, buf, DataOffset + RecordSize * i), k) == F32At(dec, buf, CoordOffset(i, k))
  {
    ReadTriangleCoords(dec, buf, DataOffset + RecordSize * i);
  }

  // ---------------------------------------------------------------------------
  // Encoding

  /** One raw triangle record: stored normal, the nine coordinates' bytes, attribute count. */
  datatype Facet = Facet(normal: seq<Byte>, vertices: seq<Byte>, attribute: seq<Byte>)

  predicate WellFormedFacet(f: Facet)
  {
    |f.normal| == NormalSize && |f.vertices| == 36 && |f.attribute| == 2
  }

  function FacetBytes(f: Facet): (r: seq<Byte>)
    requires WellFormedFacet(f)
    ensures |r| == RecordSize
  {
    f.normal + f.vertices + f.attribute
  }

  function FacetsBytes(fs: seq<Facet>): (r: seq<Byte>)
    requires forall i | 0 <= i < |fs| :: WellFormedFacet(fs[i])
    ensures |r| == RecordSize * |fs|
  {
    if |fs| == 0 then [] else FacetBytes(fs[0]) + FacetsBytes(fs[1..])
  }

  /** A binary STL file: the header, the count, the records. */
  function EncodeBinarySTL(header: seq<Byte>, fs: seq<Facet>): (buf: seq<Byte>)
    requires |header| == CountOffset
    requires |fs| < 0x1_0000_0000
    requires forall i | 0 <= i < |fs| :: WellFormedFacet(fs[i])
    ensures |buf| == DataOffset + RecordSize * |fs|
  {
    header + EncodeU32LE(|fs|) + FacetsBytes(fs)
  }

  /** The triangle whose nine coordinates are encoded in the 36 bytes `v`. */
  function DecodeVertices(dec: F32Decoder, v: seq<Byte>): Triangle
    requires |v| == 36
  {
    Triangle(
      Vec3(dec(v[0], v[1], v[2], v[3]), dec(v[4], v[5], v[6], v[7]), dec(v[8], v[9], v[10], v[11])),
      Vec3(dec(v[12], v[13], v[14], v[15]), dec(v[16], v[17], v[18], v[19]), dec(v[20], v[21], v[22], v[23])),
      Vec3(dec(v[24], v[25], v[26], v[27]), dec(v[28], v[29], v[30], v[31]), dec(v[32], v[33], v[34], v[35])))
  }

  /** The coordinate bytes of facet `i` sit 12 bytes into its record. */
  lemma {:induction false} FacetsBytesRecord(fs: seq<Facet>, i: nat)
    requires forall j | 0 <= j < |fs| :: WellFormedFacet(fs[j])
    requires i < |fs|
    ensures forall m | 0 <= m < 36 :: FacetsBytes(fs)[RecordSize * i + NormalSize + m] == fs[i].vertices[m]
  {
    var rest := FacetsBytes(fs[1..]);
    assert FacetsBytes(fs) == FacetBytes(fs[0]) + rest;
    if i > 0 {
      FacetsBytesRecord(fs[1..], i - 1);
      forall m | 0 <= m < 36
        ensures FacetsBytes(fs)[RecordSize * i + NormalSize + m] == fs[i].vertices[m]
      {
        assert FacetsBytes(fs)[RecordSize * i + NormalSize + m] == rest[RecordSize * (i - 1) + NormalSize + m];
      }
    }
  }

  /** A record read depends only on the coordinate bytes of that record. */
  lemma ReadTriangleOfRecord(dec: F32Decoder, buf: seq<Byte>, off: nat, f: Facet)
    requires WellFormedFacet(f)
    requires off + RecordSize <= |buf|
    requires forall m | 0 <= m < 36 :: buf[off + NormalSize + m] == f.vertices[m]
    ensures ReadTriangle(dec, buf, off) == DecodeVertices(dec, f.vertices)
  {
  }

  /** The encoded file declares as many triangles as it has facets, and is sniffed as binary. */
  lemma EncodedIsBinary(header: seq<Byte>, fs: seq<Facet>)
    requires |header| == CountOffset
    requires |fs| < 0x1_0000_0000
    requires forall i | 0 <= i < |fs| :: WellFormedFacet(fs[i])
    ensures IsBinarySTL(EncodeBinarySTL(header, fs))
    ensures TriangleCount(EncodeBinarySTL(header, fs)) == |fs|
  {
    var buf := EncodeBinarySTL(header, fs);
    assert buf[CountOffset..DataOffset] == EncodeU32LE(|fs|);
    assert TriangleCount(buf) == U32LE(buf[CountOffset..DataOffset], 0);
    U32LEOfEncode(|fs|);
  }

  /** Record `i` of the encoded file reads back as the triangle in facet `i`'s coordinate bytes. */
  lemma EncodedRecord(dec: F32Decoder, header: seq<Byte>, fs: seq<Facet>, i: nat)
    requires |header| == CountOffset
    requires |fs| < 0x1_0000_0000
    requires forall j | 0 <= j < |fs| :: WellFormedFacet(fs[j])
    requires i < |fs|
    ensures ReadTriangle(dec, EncodeBinarySTL(header, fs), DataOffset + RecordSize * i)
         == DecodeVertices(dec, fs[i].vertices)
  {
    var buf := EncodeBinarySTL(header, fs);
    var off := DataOffset + RecordSize * i;
    FacetsBytesRecord(fs, i);
    forall m | 0 <= m < 36
      ensures buf[off + NormalSize + m] == fs[i].vertices[m]
    {
      assert buf[off + NormalSize + m] == FacetsBytes(fs)[RecordSize * i + NormalSize + m];
    }
    ReadTriangleOfRecord(dec, buf, off, fs[i]);
  }

  /**
   * Encoding then sniffing and parsing: the file is recognised as binary,
   * declares its facet count, and parses to the triangles encoded in the
   * facets' coordinate bytes, whatever their normal and attribute bytes hold.
   */
  lemma ParseEncoded(dec: F32Decoder, header: seq<Byte>, fs: seq<Facet>)
    requires |header| == CountOffset
    requires |fs| < 0x1_0000_0000
    requires forall i | 0 <= i < |fs| :: WellFormedFacet(fs[i])
    ensures IsBinarySTL(EncodeBinarySTL(header, fs))
    ensures Triangles(dec, EncodeBinarySTL(header, fs)) == seq(|fs|, i requires 0 <= i < |fs| => DecodeVertices(dec, fs[i].vertices))
  {
    var buf := EncodeBinarySTL(header, fs);
    EncodedIsBinary(header, fs);
    ParseTrianglesIndex(dec, buf, DataOffset, |fs|);
    forall i | 0 <= i < |fs|
      ensures Triangles(dec, buf)[i] == DecodeVertices(dec, fs[i].vertices)
    {
      EncodedRecord(dec, header, fs, i);
    }
  }
}
