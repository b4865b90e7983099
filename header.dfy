/**
 * The sparse-extent header: a packed 2048-byte record at offset 0 of a VMFSSPARSE
 * backing file. Fields are little-endian 32-bit words and fixed-size byte arrays;
 * the root/child union is kept as its raw 1028 bytes because nothing interprets it.
 */
module SparseHeader {
  import opened Types

  const HEADER_SIZE: nat := 2048
  const UNION_SIZE: nat := 1028        // max(3 * 4, 1024 + 4)
  const NAME_SIZE: nat := 60
  const DESCRIPTION_SIZE: nat := 512
  const RESERVED_SIZE: nat := 8
  const PADDING_SIZE: nat := 396

  datatype Header = Header(
    magicNumber: uint32,
    version: uint32,
    flags: uint32,
    numSectors: uint32,
    grainSize: uint32,
    gdOffset: uint32,
    numGDEntries: uint32,
    freeSector: uint32,
    u: seq<byte>,
    generation: uint32,
    name: seq<byte>,
    description: seq<byte>,
    savedGeneration: uint32,
    reserved: seq<byte>,
    uncleanShutdown: uint32,
    padding: seq<byte>)

  /** The byte-array fields have their declared sizes. */
  predicate WellFormed(h: Header) {
    && |h.u| == UNION_SIZE
    && |h.name| == NAME_SIZE
    && |h.description| == DESCRIPTION_SIZE
    && |h.reserved| == RESERVED_SIZE
    && |h.padding| == PADDING_SIZE
  }

  /** Little-endian encoding of a 32-bit word. */
  function Le32(x: uint32): (b: seq<byte>)
    ensures |b| == 4
  {
    [x % 256, x / 256 % 256, x / 256 / 256 % 256, x / 256 / 256 / 256]
  }

  /** Little-endian decoding of four bytes. */
  function FromLe32(b: seq<byte>): (x: uint32)
    requires |b| == 4
  {
    b[0] as int + 256 * (b[1] as int + 256 * (b[2] as int + 256 * b[3] as int))
  }

  lemma Le32RoundTrip(x: uint32)
    ensures FromLe32(Le32(x)) == x
  {
    var a := x / 256;
    var c := a / 256;
    assert x == x % 256 + 256 * a;
    assert a == a % 256 + 256 * c;
    assert c == c % 256 + 256 * (c / 256);
  }

  /** Splitting lo + 256 * hi into its low byte and the rest. */
  lemma ByteSplit(lo: int, hi: int)
    requires 0 <= lo < 256 && 0 <= hi
    ensures (lo + 256 * hi) % 256 == lo && (lo + 256 * hi) / 256 == hi
  {
  }

  lemma FromLe32RoundTrip(b: seq<byte>)
    requires |b| == 4
    ensures Le32(FromLe32(b)) == b
  {
    var hi2: int := b[2] as int + 256 * b[3] as int;
    var hi: int := b[1] as int + 256 * hi2;
    var x: int := b[0] as int + 256 * hi;
    assert x == FromLe32(b);
    ByteSplit(b[0], hi);
    ByteSplit(b[1], hi2);
    ByteSplit(b[2], b[3]);
  }

  /** Byte offsets of the fields in the packed layout. */
  const OFF_U: nat := 32
  const OFF_GENERATION: nat := 1060
  const OFF_NAME: nat := 1064
  const OFF_DESCRIPTION: nat := 1124
  const OFF_SAVED_GENERATION: nat := 1636
  const OFF_RESERVED: nat := 1640
  const OFF_UNCLEAN_SHUTDOWN: nat := 1648
  const OFF_PADDING: nat := 1652

  /** The packed layout adds up to exactly 2048 bytes. */
  lemma LayoutTotals()
    ensures OFF_U == 8 * 4
    ensures OFF_GENERATION == OFF_U + UNION_SIZE
    ensures OFF_NAME == OFF_GENERATION + 4
    ensures OFF_DESCRIPTION == OFF_NAME + NAME_SIZE
    ensures OFF_SAVED_GENERATION == OFF_DESCRIPTION + DESCRIPTION_SIZE
    ensures OFF_RESERVED == OFF_SAVED_GENERATION + 4
    ensures OFF_UNCLEAN_SHUTDOWN == OFF_RESERVED + RESERVED_SIZE
    ensures OFF_PADDING == OFF_UNCLEAN_SHUTDOWN + 4
    ensures OFF_PADDING + PADDING_SIZE == HEADER_SIZE
  {
  }

  /** The 32 bytes of the eight leading words. */
  function EncodeWords(h: Header): (b: seq<byte>)
    ensures |b| == 32
  {
    Le32(h.magicNumber) + Le32(h.version) + Le32(h.flags) + Le32(h.numSectors)
    + Le32(h.grainSize) + Le32(h.gdOffset) + Le32(h.numGDEntries) + Le32(h.freeSector)
  }

  /** The packed on-disk image of a header. */
  function Encode(h: Header): (b: seq<byte>)
    requires WellFormed(h)
    ensures |b| == HEADER_SIZE
  {
    EncodeWords(h) + h.u + Le32(h.generation) + h.name + h.description
    + Le32(h.savedGeneration) + h.reserved + Le32(h.uncleanShutdown) + h.padding
  }

  /** The word stored at byte offset `off`. */
  function WordAt(b: seq<byte>, off: nat): uint32
    requires off + 4 <= |b|
  {
    FromLe32(b[off..off + 4])
  }

  /** The header a 2048-byte image holds, field by field at the packed offsets. */
  function Decode(b: seq<byte>): (h: Header)
    requires |b| == HEADER_SIZE
    ensures WellFormed(h)
  {
    Header(
      WordAt(b, 0), WordAt(b, 4), WordAt(b, 8), WordAt(b, 12),
      WordAt(b, 16), WordAt(b, 20), WordAt(b, 24), WordAt(b, 28),
      b[OFF_U..OFF_GENERATION],
      WordAt(b, OFF_GENERATION),
      b[OFF_NAME..OFF_DESCRIPTION],
      b[OFF_DESCRIPTION..OFF_SAVED_GENERATION],
      WordAt(b, OFF_SAVED_GENERATION),
      b[OFF_RESERVED..OFF_UNCLEAN_SHUTDOWN],
      WordAt(b, OFF_UNCLEAN_SHUTDOWN),
      b[OFF_PADDING..HEADER_SIZE])
  }

  /** Where each field lands in the encoded image. */
  lemma EncodeFields(h: Header)
    requires WellFormed(h)
    ensures var b := Encode(h);
            && b[..32] == EncodeWords(h)
            && b[OFF_U..OFF_GENERATION] == h.u
            && b[OFF_GENERATION..OFF_GENERATION + 4] == Le32(h.generation)
            && b[OFF_NAME..OFF_DESCRIPTION] == h.name
            && b[OFF_DESCRIPTION..OFF_SAVED_GENERATION] == h.description
            && b[OFF_SAVED_GENERATION..OFF_SAVED_GENERATION + 4] == Le32(h.savedGeneration)
            && b[OFF_RESERVED..OFF_UNCLEAN_SHUTDOWN] == h.reserved
            && b[OFF_UNCLEAN_SHUTDOWN..OFF_UNCLEAN_SHUTDOWN + 4] == Le32(h.uncleanShutdown)
            && b[OFF_PADDING..HEADER_SIZE] == h.padding
  {
    var w := EncodeWords(h);
    var p1 := w + h.u;
    var p2 := p1 + Le32(h.generation);
    var p3 := p2 + h.name;
    var p4 := p3 + h.description;
    var p5 := p4 + Le32(h.savedGeneration);
    var p6 := p5 + h.reserved;
    var p7 := p6 + Le32(h.uncleanShutdown);
    var b := p7 + h.padding;
    assert b == Encode(h);
    assert b[..OFF_PADDING] == p7 && b[OFF_PADDING..HEADER_SIZE] == h.padding;
    assert p7[..OFF_UNCLEAN_SHUTDOWN] == p6 && p7[OFF_UNCLEAN_SHUTDOWN..] == Le32(h.uncleanShutdown);
    assert p6[..OFF_RESERVED] == p5 && p6[OFF_RESERVED..] == h.reserved;
    assert p5[..OFF_SAVED_GENERATION] == p4 && p5[OFF_SAVED_GENERATION..] == Le32(h.savedGeneration);
    assert p4[..OFF_DESCRIPTION] == p3 && p4[OFF_DESCRIPTION..] == h.description;
    assert p3[..OFF_NAME] == p2 && p3[OFF_NAME..] == h.name;
    assert p2[..OFF_GENERATION] == p1 && p2[OFF_GENERATION..] == Le32(h.generation);
    assert p1[..OFF_U] == w && p1[OFF_U..] == h.u;
  }

  /** Where each of the eight leading words lands in their 32 bytes. */
  lemma EncodeWordFields(h: Header)
    ensures var w := EncodeWords(h);
            && w[0..4] == Le32(h.magicNumber) && w[4..8] == Le32(h.version)
            && w[8..12] == Le32(h.flags) && w[12..16] == Le32(h.numSectors)
            && w[16..20] == Le32(h.grainSize) && w[20..24] == Le32(h.gdOffset)
            && w[24..28] == Le32(h.numGDEntries) && w[28..32] == Le32(h.freeSector)
  {
  }

  /** Decoding an encoded header gives the header back. */
  lemma DecodeEncode(h: Header)
    requires WellFormed(h)
    ensures Decode(Encode(h)) == h
  {
    var b := Encode(h);
    EncodeFields(h);
    EncodeWordFields(h);
    var w := EncodeWords(h);
    assert b[0..4] == w[0..4] && b[4..8] == w[4..8] && b[8..12] == w[8..12] && b[12..16] == w[12..16];
    assert b[16..20] == w[16..20] && b[20..24] == w[20..24] && b[24..28] == w[24..28] && b[28..32] == w[28..32];
    Le32RoundTrip(h.magicNumber);
    Le32RoundTrip(h.version);
    Le32RoundTrip(h.flags);
    Le32RoundTrip(h.numSectors);
    Le32RoundTrip(h.grainSize);
    Le32RoundTrip(h.gdOffset);
    Le32RoundTrip(h.numGDEntries);
    Le32RoundTrip(h.freeSector);
    Le32RoundTrip(h.generation);
    Le32RoundTrip(h.savedGeneration);
    Le32RoundTrip(h.uncleanShutdown);
  }

  /** Encoding a decoded image gives the same 2048 bytes back. */
  lemma EncodeDecode(b: seq<byte>)
    requires |b| == HEADER_SIZE
    ensures Encode(Decode(b)) == b
  {
    var h := Decode(b);
    FromLe32RoundTrip(b[0..4]);
    FromLe32RoundTrip(b[4..8]);
    FromLe32RoundTrip(b[8..12]);
    FromLe32RoundTrip(b[12..16]);
    FromLe32RoundTrip(b[16..20]);
    FromLe32RoundTrip(b[20..24]);
    FromLe32RoundTrip(b[24..28]);
    FromLe32RoundTrip(b[28..32]);
    FromLe32RoundTrip(b[OFF_GENERATION..OFF_GENERATION + 4]);
    FromLe32RoundTrip(b[OFF_SAVED_GENERATION..OFF_SAVED_GENERATION + 4]);
    FromLe32RoundTrip(b[OFF_UNCLEAN_SHUTDOWN..OFF_UNCLEAN_SHUTDOWN + 4]);
    assert EncodeWords(h) == b[0..4] + b[4..8] + b[8..12] + b[12..16]
                           + b[16..20] + b[20..24] + b[24..28] + b[28..32];
    assert EncodeWords(h) == b[..32];
    assert b == b[..32] + b[OFF_U..OFF_GENERATION] + b[OFF_GENERATION..OFF_NAME]
              + b[OFF_NAME..OFF_DESCRIPTION] + b[OFF_DESCRIPTION..OFF_SAVED_GENERATION]
              + b[OFF_SAVED_GENERATION..OFF_RESERVED] + b[OFF_RESERVED..OFF_UNCLEAN_SHUTDOWN]
              + b[OFF_UNCLEAN_SHUTDOWN..OFF_PADDING] + b[OFF_PADDING..HEADER_SIZE];
  }
}
