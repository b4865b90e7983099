/**
 * The on-disk layout of the new sparse extent the rewrite produces: the header block
 * (header, then the grain directory at sector gdOffset, rounded up to 4096 bytes), grain
 * tables of 32 sectors, grain data and the zero padding; and how the resolver reads
 * those bytes back.
 */
module Layout {
  import opened Types
  import opened Extents
  import SparseHeader

  const GT_SECTORS: nat := 32       // one grain table: 4096 four-byte entries
  const PAD_ALIGN: nat := 32768     // the grain area grows in steps of 32768 sectors (16 MiB)

  /** `x` rounded up to a multiple of `a` (the `(x + a - 1) & ~(a - 1)` idiom for a power of two). */
  function RoundUp(x: nat, a: nat): (r: nat)
    requires a > 0
    ensures x <= r < x + a && r % a == 0
  {
    var q := (x + a - 1) / a;
    MultipleOf(q, a);
    q * a
  }

  lemma MultipleOf(q: nat, a: nat)
    requires a > 0
    ensures (q * a) % a == 0
  {
    GrainSector(q, 0, a);
  }

  /** dataSize: the bytes of the header and the grain directory, rounded up to 4096. */
  function DataSize(h: SparseHeader.Header): (r: nat)
    ensures var x := h.gdOffset * 512 + h.numGDEntries * 4; x <= r < x + 4096 && r % 4096 == 0
  {
    RoundUp(h.gdOffset * 512 + h.numGDEntries * 4, 4096)
  }

  /** The sectors of the header block; the first grain table or grain goes right after them. */
  function DataSectors(h: SparseHeader.Header): nat {
    DataSize(h) / 512
  }

  /** The header block's size depends only on gdOffset and numGDEntries. */
  lemma SameLayout(h: SparseHeader.Header, h2: SparseHeader.Header)
    requires h.gdOffset == h2.gdOffset && h.numGDEntries == h2.numGDEntries
    ensures DataSize(h) == DataSize(h2) && DataSectors(h) == DataSectors(h2)
  {
  }

  /** The zero sectors appended after `free` so that the grain area from `d` is a multiple of 32768 sectors. */
  function Pad(free: nat, d: nat): (pad: nat)
    requires d <= free
    ensures pad < PAD_ALIGN && (free + pad - d) % PAD_ALIGN == 0
  {
    RoundUp(free - d, PAD_ALIGN) - (free - d)
  }

  /** `n` times `c`, by repeated addition. */
  function Times(n: nat, c: nat): nat {
    if n == 0 then 0 else c + Times(n - 1, c)
  }

  /** Repeated addition is multiplication. */
  lemma {:induction false} TimesIsProduct(n: nat, c: nat)
    ensures Times(n, c) == n * c
  {
    if n > 0 {
      TimesIsProduct(n - 1, c);
    }
  }

  /** The most sectors one directory slot can allocate: its grain table and 4096 grains. */
  function SlotCost(gs: nat): nat {
    GT_SECTORS + Times(GT_ENTRIES, gs)
  }

  /**
   * Every 32-bit quantity of the rewrite fits its unsigned 32-bit variable, whatever the
   * grains hold, and the grain directory lies after the 2048-byte header.
   */
  predicate Fits(h: SparseHeader.Header) {
    && h.gdOffset >= 4
    && h.gdOffset * 512 + h.numGDEntries * 4 + 4095 < UINT32_LIMIT
    && DataSectors(h) + Times(h.numGDEntries, SlotCost(h.grainSize)) + PAD_ALIGN <= UINT32_LIMIT
  }

  /** pwrite of the sectors `data` at sector `at` of a file whose written sectors are `w`. */
  function WriteRun(w: map<nat, Sector>, at: nat, data: seq<Sector>): (r: map<nat, Sector>)
    ensures forall q :: q in r <==> q in w || at <= q < at + |data|
    ensures forall q :: q in r ==> r[q] == if at <= q < at + |data| then data[q - at] else w[q]
  {
    var keys := RunKeys(w.Keys, at, |data|);
    map q | q in keys :: if at <= q < at + |data| then data[q - at] else w[q]
  }

  /** The sectors written once a run of `len` sectors at `at` is added to `keys`. */
  function RunKeys(keys: set<nat>, at: nat, len: nat): (r: set<nat>)
    ensures forall q :: q in r <==> q in keys || at <= q < at + len
    decreases len
  {
    if len == 0 then keys else RunKeys(keys + {at}, at + 1, len - 1)
  }

  /** A file of `len` sectors whose written sectors are `w`; a sector never written reads as zeros. */
  function Materialize(w: map<nat, Sector>, len: nat): (f: BackingFile)
    ensures |f.sectors| == len
    ensures forall q :: 0 <= q < len ==> f.sectors[q] == if q in w then w[q] else ZeroSector()
  {
    BackingFile(seq(len, q requires 0 <= q < len => if q in w then w[q] else ZeroSector()))
  }

  /** Sector `m` of the little-endian image of a grain table. */
  function TableSector(t: seq<uint32>, m: nat): (sector: Sector)
    requires |t| == GT_ENTRIES && m < GT_SECTORS
    ensures forall c :: 0 <= c < 512 ==> sector[c] == SparseHeader.Le32(t[WORDS_PER_SECTOR * m + c / 4])[c % 4]
  {
    seq(512, c requires 0 <= c < 512 => SparseHeader.Le32(t[WORDS_PER_SECTOR * m + c / 4])[c % 4])
  }

  /** The 16384-byte image of a grain table, as 32 sectors. */
  function TableSectors(t: seq<uint32>): (ss: seq<Sector>)
    requires |t| == GT_ENTRIES
    ensures |ss| == GT_SECTORS
  {
    seq(GT_SECTORS, m requires 0 <= m < GT_SECTORS => TableSector(t, m))
  }

  lemma TableSectorsAt(t: seq<uint32>, m: nat)
    requires |t| == GT_ENTRIES && m < GT_SECTORS
    ensures TableSectors(t)[m] == TableSector(t, m)
  {
  }

  /** Byte `b` of the header block: the encoded header, the directory at gdOffset * 512, zeros elsewhere. */
  function BlockByte(h: SparseHeader.Header, gd: seq<uint32>, b: nat): byte
    requires SparseHeader.WellFormed(h)
  {
    var off := h.gdOffset * 512;
    if b < SparseHeader.HEADER_SIZE then SparseHeader.Encode(h)[b]
    else if off <= b < off + 4 * |gd| then SparseHeader.Le32(gd[(b - off) / 4])[(b - off) % 4]
    else 0
  }

  function BlockByteAt(h: SparseHeader.Header, gd: seq<uint32>, q: nat, c: int): byte
    requires SparseHeader.WellFormed(h) && 0 <= c
  {
    BlockByte(h, gd, 512 * q + c)
  }

  /** Sector `q` of the header block. */
  function BlockSector(h: SparseHeader.Header, gd: seq<uint32>, q: nat): (sector: Sector)
    requires SparseHeader.WellFormed(h)
    ensures forall c :: 0 <= c < 512 ==> sector[c] == BlockByte(h, gd, 512 * q + c)
  {
    seq(512, c requires 0 <= c < 512 => BlockByteAt(h, gd, q, c))
  }

  /** The header block (newData): dataSize bytes, as sectors. */
  function HeaderBlock(h: SparseHeader.Header, gd: seq<uint32>): (ss: seq<Sector>)
    requires SparseHeader.WellFormed(h)
    ensures |ss| == DataSectors(h)
    ensures forall q :: 0 <= q < |ss| ==> ss[q] == BlockSector(h, gd, q)
  {
    seq(DataSectors(h), q requires 0 <= q < DataSectors(h) => BlockSector(h, gd, q))
  }

  /** A word stored little-endian in slot `slot` of sector `q` reads back as that word. */
  lemma WordReadBack(f: BackingFile, q: nat, slot: nat, x: uint32)
    requires q < |f.sectors| && slot < WORDS_PER_SECTOR
    requires forall e :: 0 <= e < 4 ==> f.sectors[q][4 * slot + e] == SparseHeader.Le32(x)[e]
    ensures WordIn(f, q, slot) == x
  {
    assert f.sectors[q][4 * slot..4 * slot + 4] == SparseHeader.Le32(x);
    SparseHeader.Le32RoundTrip(x);
  }

  /** A grain table written as TableSectors at `pos` reads back as the same 4096 entries. */
  lemma TableReadBack(f: BackingFile, pos: nat, t: seq<uint32>)
    requires |t| == GT_ENTRIES && pos + GT_SECTORS <= |f.sectors|
    requires forall m :: 0 <= m < GT_SECTORS ==> f.sectors[pos + m] == TableSector(t, m)
    ensures ReadWords(f, pos, GT_ENTRIES) == Some(t)
  {
    var r := ReadWords(f, pos, GT_ENTRIES);
    assert r.Some?;
    forall u | 0 <= u < GT_ENTRIES
      ensures r.value[u] == t[u]
    {
      var m, slot := u / WORDS_PER_SECTOR, u % WORDS_PER_SECTOR;
      assert WORDS_PER_SECTOR * m + slot == u;
      forall e | 0 <= e < 4
        ensures f.sectors[pos + m][4 * slot + e] == SparseHeader.Le32(t[u])[e]
      {
        var c := 4 * slot + e;
        assert c / 4 == slot && c % 4 == e;
        assert f.sectors[pos + m] == TableSector(t, m);
      }
      WordReadBack(f, pos + m, slot, t[u]);
    }
    assert r.value == t;
  }

  /** The header block holds the encoded header in its first 2048 bytes. */
  lemma BlockHeaderBytes(h: SparseHeader.Header, gd: seq<uint32>, f: BackingFile)
    requires SparseHeader.WellFormed(h) && h.gdOffset >= 4
    requires 4 <= |f.sectors| && forall q :: 0 <= q < 4 ==> f.sectors[q] == HeaderBlock(h, gd)[q]
    ensures ReadHeaderBlock(f) == Some(h)
  {
    assert DataSectors(h) >= 4 by {
      assert DataSize(h) >= 2048;
    }
    var first: seq<byte> := f.sectors[0];
    var all := first + f.sectors[1] + f.sectors[2] + f.sectors[3];
    forall b | 0 <= b < SparseHeader.HEADER_SIZE
      ensures all[b] == SparseHeader.Encode(h)[b]
    {
      var q, c := b / 512, b % 512;
      assert 512 * q + c == b;
      assert all[b] == f.sectors[q][c];
      assert f.sectors[q] == BlockSector(h, gd, q);
    }
    assert all == SparseHeader.Encode(h);
    SparseHeader.DecodeEncode(h);
  }

  /** The header block holds the grain directory at sector gdOffset. */
  lemma BlockDirectoryWords(h: SparseHeader.Header, gd: seq<uint32>, f: BackingFile)
    requires SparseHeader.WellFormed(h) && h.gdOffset >= 4 && |gd| == h.numGDEntries
    requires DataSectors(h) <= |f.sectors|
    requires forall q :: 0 <= q < DataSectors(h) ==> f.sectors[q] == HeaderBlock(h, gd)[q]
    ensures ReadWords(f, h.gdOffset, h.numGDEntries) == Some(gd)
  {
    var n := h.numGDEntries;
    var off := h.gdOffset * 512;
    if n > 0 {
      DirectoryFits(h);
      var r := ReadWords(f, h.gdOffset, n);
      forall u | 0 <= u < n
        ensures r.value[u] == gd[u]
      {
        var m, slot := u / WORDS_PER_SECTOR, u % WORDS_PER_SECTOR;
        var q := h.gdOffset + m;
        assert q < DataSectors(h);
        forall e | 0 <= e < 4
          ensures f.sectors[q][4 * slot + e] == SparseHeader.Le32(gd[u])[e]
        {
          DirectoryByte(h, gd, u, e);
          assert f.sectors[q] == BlockSector(h, gd, q);
        }
        WordReadBack(f, q, slot, gd[u]);
      }
      assert r.value == gd;
    }
  }

  /** Byte `e` of directory entry `u` sits at slot u % 128 of sector gdOffset + u / 128 of the block. */
  lemma DirectoryByte(h: SparseHeader.Header, gd: seq<uint32>, u: nat, e: nat)
    requires SparseHeader.WellFormed(h) && h.gdOffset >= 4 && u < |gd| && e < 4
    ensures BlockByte(h, gd, 512 * (h.gdOffset + u / WORDS_PER_SECTOR) + 4 * (u % WORDS_PER_SECTOR) + e)
            == SparseHeader.Le32(gd[u])[e]
  {
    var off := h.gdOffset * 512;
    var b := 512 * (h.gdOffset + u / WORDS_PER_SECTOR) + 4 * (u % WORDS_PER_SECTOR) + e;
    assert b - off == 4 * u + e;
    assert (b - off) / 4 == u && (b - off) % 4 == e;
  }

  /** The directory's sectors lie inside the header block. */
  lemma DirectoryFits(h: SparseHeader.Header)
    requires h.numGDEntries > 0
    ensures h.gdOffset + (h.numGDEntries + WORDS_PER_SECTOR - 1) / WORDS_PER_SECTOR <= DataSectors(h)
  {
    var n, g := h.numGDEntries as nat, h.gdOffset as nat;
    var x := g * 512 + n * 4;
    var q := (x + 4095) / 4096;
    assert DataSize(h) == q * 4096;
    assert q * 4096 == (8 * q) * 512;
    assert DataSectors(h) == 8 * q;
    CeilWithin(n, g, q);
  }

  /** Entries that fit in `q` blocks of 4096 bytes after `g` sectors take at most 8q - g sectors. */
  lemma CeilWithin(n: nat, g: nat, q: nat)
    requires g * 512 + n * 4 <= q * 4096
    ensures g + (n + WORDS_PER_SECTOR - 1) / WORDS_PER_SECTOR <= 8 * q
  {
    var m := 8 * q - g;
    assert n <= WORDS_PER_SECTOR * m;
    var t := (n + WORDS_PER_SECTOR - 1) / WORDS_PER_SECTOR;
    assert WORDS_PER_SECTOR * t <= n + WORDS_PER_SECTOR - 1;
  }
}
