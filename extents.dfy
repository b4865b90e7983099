/**
 * Extents and the sector resolver (getSector without its caches).
 *
 * A chain is a sequence of extents, the child first and the root last; the parent of
 * chain[0] is chain[1]. Resolution of a sector walks the grain directory and the grain
 * table of the first extent and, when the sector is unallocated there and the walk is
 * recursive, continues in the rest of the chain.
 */
module Extents {
  import opened Types
  import SparseHeader

  const GT_ENTRIES: nat := 4096   // entries per grain table

  const WORDS_PER_SECTOR: nat := 128   // 32-bit words in a 512-byte sector

  /**
   * An opened backing file: its whole 512-byte sectors, in order. A trailing partial sector
   * is not part of the model.
   */
  datatype BackingFile = BackingFile(sectors: seq<Sector>)

  const CACHE_DATA_SECTOR: nat := 256   // sectors per readSector window

  /**
   * Whether readSector delivers sector `s`: the file must hold it, and `s` must not lie in
   * the last window below 2^32 of a file that fills that window, where the window's end
   * (seCache, a uint32) wraps to 0 and every read of the window fails.
   */
  predicate Readable(f: BackingFile, s: nat) {
    && s < |f.sectors|
    && !(UINT32_LIMIT - CACHE_DATA_SECTOR <= s < UINT32_LIMIT && |f.sectors| >= UINT32_LIMIT)
  }

  /** The 512 bytes readSector delivers for sector `s`, or None when it fails. */
  function SectorAt(f: BackingFile, s: nat): (r: Option<Sector>)
    ensures r.Some? <==> s < |f.sectors| && (s < UINT32_LIMIT - CACHE_DATA_SECTOR || |f.sectors| < UINT32_LIMIT || s >= UINT32_LIMIT)
    ensures r.Some? ==> r.value == f.sectors[s]
  {
    if Readable(f, s) then Some(f.sectors[s]) else None
  }

  /** The little-endian word in slot `slot` (bytes 4 * slot .. 4 * slot + 3) of sector `q`. */
  function WordIn(f: BackingFile, q: nat, slot: nat): uint32
    requires q < |f.sectors| && slot < WORDS_PER_SECTOR
  {
    SparseHeader.FromLe32(f.sectors[q][4 * slot..4 * slot + 4])
  }

  /**
   * pread of `count` 32-bit words at byte offset 512 * `offset`: the words, or None on a
   * short read (the file ends before the last of them). A read of nothing never fails.
   */
  function ReadWords(f: BackingFile, offset: nat, count: nat): (r: Option<seq<uint32>>)
    ensures r.Some? ==> |r.value| == count
    ensures count == 0 ==> r == Some([])
    ensures r.Some? <==> count == 0 || offset + (count + WORDS_PER_SECTOR - 1) / WORDS_PER_SECTOR <= |f.sectors|
    ensures r.Some? ==> forall t :: 0 <= t < count ==>
              offset + t / WORDS_PER_SECTOR < |f.sectors|
              && r.value[t] == WordIn(f, offset + t / WORDS_PER_SECTOR, t % WORDS_PER_SECTOR)
  {
    if count == 0 then Some([])
    else if offset + (count + WORDS_PER_SECTOR - 1) / WORDS_PER_SECTOR <= |f.sectors| then
      Some(seq(count, t requires 0 <= t < count => WordIn(f, offset + t / WORDS_PER_SECTOR, t % WORDS_PER_SECTOR)))
    else None
  }

  /** The sparse header stored in the first 2048 bytes, or None on a short read. */
  function ReadHeaderBlock(f: BackingFile): (r: Option<SparseHeader.Header>)
    ensures r.Some? <==> |f.sectors| >= 4
    ensures r.Some? ==> SparseHeader.WellFormed(r.value) && SparseHeader.Encode(r.value) == HeaderBytes(f)
  {
    if |f.sectors| >= 4 then
      SparseHeader.EncodeDecode(HeaderBytes(f));
      Some(SparseHeader.Decode(HeaderBytes(f)))
    else None
  }

  /** The first 2048 bytes of a file. */
  function HeaderBytes(f: BackingFile): (b: seq<byte>)
    requires |f.sectors| >= 4
    ensures |b| == SparseHeader.HEADER_SIZE
  {
    var first: seq<byte> := f.sectors[0];
    first + f.sectors[1] + f.sectors[2] + f.sectors[3]
  }

  /**
   * The grain-directory entries readHeader reads: it asks pread for numGDEntries * 4 bytes,
   * a product taken in unsigned 32-bit arithmetic, so from 2^30 entries on it reads fewer
   * words than the directory has; the entries past them are never filled.
   */
  function DirectoryWords(h: SparseHeader.Header): (r: nat)
    ensures r <= h.numGDEntries && r == h.numGDEntries % 0x4000_0000
    ensures h.numGDEntries * 4 < UINT32_LIMIT ==> r == h.numGDEntries
  {
    Wrap32(h.numGDEntries * 4) / 4
  }

  /** The type of an extent; a sparse extent carries its header and grain directory. */
  datatype Kind =
    | Flat                                                  // "VMFS"
    | Sparse(header: SparseHeader.Header, gd: seq<uint32>)  // "VMFSSPARSE"
    | Other(typeName: string)

  /** One node of a chain: descriptor path, type, backing path, size in sectors and backing file. */
  datatype Extent = Extent(name: string, kind: Kind, disk: string, size: nat, file: BackingFile)

  /** What one extent says about a sector on its own. */
  datatype Level = Unallocated | ZeroGrain | DataAt(sector: nat)

  /** Where a sector's content comes from; `depth` is relative to the chain resolved against. */
  datatype Location = Absent | Zero | At(depth: nat, sector: nat)

  /** Directory slot and table slot of a sector in a sparse extent with grain size `gs`. */
  function DirIndex(s: nat, gs: nat): nat requires gs > 0 { s / gs / GT_ENTRIES }
  function TableIndex(s: nat, gs: nat): nat requires gs > 0 { s / gs % GT_ENTRIES }

  /** The single-extent part of the resolver: no recursion, no data read. */
  function Own(e: Extent, s: nat): (r: Result<Level>)
    ensures r.Ok? ==> !e.kind.Other?
    ensures e.kind.Flat? ==> r.Ok? && r.value.DataAt?
    ensures e.kind.Sparse? && r.Ok? ==>
              e.kind.header.grainSize > 0 && DirIndex(s, e.kind.header.grainSize) < |e.kind.gd|
    ensures e.kind.Sparse? && r.Ok? && r.value.DataAt? ==> r.value.sector < UINT32_LIMIT
  {
    match e.kind
    case Flat => Ok(DataAt(s))
    case Sparse(h, gd) =>
      if h.numSectors != e.size then Err(SectorCountMismatch(e.name))
      else if h.grainSize == 0 || DirIndex(s, h.grainSize) >= |gd| then Err(Undefined)
      else
        var gde := gd[DirIndex(s, h.grainSize)];
        if gde == 0 then Ok(Unallocated)
        else
          (match ReadWords(e.file, gde, GT_ENTRIES)
           case None => Err(ExtentReadFailed(e.disk))
           case Some(gt) =>
             var gte := gt[TableIndex(s, h.grainSize)];
             if gte == 0 then Ok(Unallocated)
             else if gte == 1 then Ok(ZeroGrain)
             else Ok(DataAt(Wrap32(gte + s % h.grainSize))))
    case Other(t) => Err(UnsupportedType(t))
  }

  /**
   * getSector with a null buffer: where sector `s` of chain[0] comes from. A recursive
   * walk never answers Absent, and a non-recursive one never leaves chain[0].
   */
  function Locate(chain: seq<Extent>, s: nat, recursive: bool): (r: Result<Location>)
    requires |chain| > 0
    ensures r.Ok? && r.value.At? ==> r.value.depth < |chain|
    ensures !recursive && r.Ok? && r.value.At? ==> r.value.depth == 0
    ensures recursive ==> r != Ok(Absent)
    decreases |chain|
  {
    var own := Own(chain[0], s);
    if own.Err? then Err(own.error)
    else
      match own.value
      case Unallocated =>
        if !recursive then Ok(Absent)
        else if |chain| == 1 then Ok(Zero)
        else
          var up := Locate(chain[1..], s, true);
          if up.Ok? && up.value.At? then Ok(At(up.value.depth + 1, up.value.sector)) else up
      case ZeroGrain => Ok(Zero)
      case DataAt(o) => Ok(At(0, o))
  }

  /** getSector with a buffer: the sector's bytes, None for Absent, or the fatal error. */
  function Resolve(chain: seq<Extent>, s: nat, recursive: bool): (r: Result<Option<Sector>>)
    requires |chain| > 0
    ensures recursive && r.Ok? ==> r.value.Some?
  {
    var l := Locate(chain, s, recursive);
    if l.Err? then Err(l.error)
    else
      match l.value
      case Absent => Ok(None)
      case Zero => Ok(Some(ZeroSector()))
      case At(d, o) =>
        match SectorAt(chain[d].file, o)
        case Some(data) => Ok(Some(data))
        case None => Err(ExtentReadFailed(chain[d].disk))
  }

  /** A flat extent is never Absent: it yields its own sector `s`, whatever `recursive` says. */
  lemma FlatResolution(chain: seq<Extent>, s: nat, recursive: bool)
    requires |chain| > 0 && chain[0].kind.Flat?
    ensures Locate(chain, s, recursive) == Ok(At(0, s))
    ensures Resolve(chain, s, recursive)
            == if Readable(chain[0].file, s) then Ok(Some(chain[0].file.sectors[s]))
               else Err(ExtentReadFailed(chain[0].disk))
  {
  }

  /** The two fatal cases of the resolver. */
  lemma FatalResolution(chain: seq<Extent>, s: nat, recursive: bool)
    requires |chain| > 0
    ensures chain[0].kind.Sparse? && chain[0].kind.header.numSectors != chain[0].size
            ==> Resolve(chain, s, recursive) == Err(SectorCountMismatch(chain[0].name))
    ensures chain[0].kind.Other?
            ==> Resolve(chain, s, recursive) == Err(UnsupportedType(chain[0].kind.typeName))
  {
  }

  /**
   * The sparse cases: with gde = gd[s / gs / 4096] and gte = gt[s / gs % 4096],
   * gte == 1 reads as zeros, gte > 1 reads backing sector gte + s % gs (a 32-bit sum), and an unallocated
   * sector (gde == 0 or gte == 0) is Absent when not recursive, zeros at the root, and the
   * parent's recursive value otherwise.
   */
  lemma SparseResolution(chain: seq<Extent>, s: nat, recursive: bool)
    requires |chain| > 0 && chain[0].kind.Sparse?
    requires chain[0].kind.header.numSectors == chain[0].size
    requires chain[0].kind.header.grainSize > 0
    requires DirIndex(s, chain[0].kind.header.grainSize) < |chain[0].kind.gd|
    ensures
      var e := chain[0];
      var gs := e.kind.header.grainSize;
      var gde := e.kind.gd[DirIndex(s, gs)];
      var gt := ReadWords(e.file, gde, GT_ENTRIES);
      var unallocated := gde == 0 || (gt.Some? && gt.value[TableIndex(s, gs)] == 0);
      && (gde != 0 && gt.None? ==> Resolve(chain, s, recursive) == Err(ExtentReadFailed(e.disk)))
      && (gde != 0 && gt.Some? && gt.value[TableIndex(s, gs)] == 1
          ==> Resolve(chain, s, recursive) == Ok(Some(ZeroSector())))
      && (gde != 0 && gt.Some? && gt.value[TableIndex(s, gs)] > 1
          ==> var o := Wrap32(gt.value[TableIndex(s, gs)] + s % gs);
              Resolve(chain, s, recursive)
              == if Readable(e.file, o) then Ok(Some(e.file.sectors[o])) else Err(ExtentReadFailed(e.disk)))
      && (unallocated && !recursive ==> Resolve(chain, s, recursive) == Ok(None))
      && (unallocated && recursive && |chain| == 1 ==> Resolve(chain, s, recursive) == Ok(Some(ZeroSector())))
      && (unallocated && recursive && |chain| > 1 ==> Resolve(chain, s, recursive) == Resolve(chain[1..], s, true))
  {
    if recursive && |chain| > 1 && Own(chain[0], s) == Ok(Unallocated) {
      ParentFallThrough(chain, s);
    }
  }

  /** When chain[0] leaves a sector unallocated, a recursive walk answers what chain[1..] answers. */
  lemma ParentFallThrough(chain: seq<Extent>, s: nat)
    requires |chain| > 1 && Own(chain[0], s) == Ok(Unallocated)
    ensures Resolve(chain, s, true) == Resolve(chain[1..], s, true)
  {
    var l := Locate(chain[1..], s, true);
    if l.Ok? && l.value.At? {
      assert chain[1..][l.value.depth] == chain[l.value.depth + 1];
    }
  }

  /**
   * Recursive resolution extends non-recursive resolution: what chain[0] owns reads the
   * same either way, errors are the same, and an Absent sector is the parent's recursive value.
   */
  lemma RecursiveExtendsOwn(chain: seq<Extent>, s: nat)
    requires |chain| > 1
    ensures Resolve(chain, s, false).Err? ==> Resolve(chain, s, true) == Resolve(chain, s, false)
    ensures Resolve(chain, s, false).Ok? && Resolve(chain, s, false).value.Some?
            ==> Resolve(chain, s, true) == Resolve(chain, s, false)
    ensures Resolve(chain, s, false) == Ok(None) ==> Resolve(chain, s, true) == Resolve(chain[1..], s, true)
  {
    if Own(chain[0], s) == Ok(Unallocated) {
      ParentFallThrough(chain, s);
    }
  }

  /** Sector `k` of grain `g` is sector g * gs + k, and it maps back to (g, k). */
  lemma GrainSector(g: nat, k: nat, gs: nat)
    requires k < gs
    ensures (g * gs + k) / gs == g && (g * gs + k) % gs == k
  {
    var s := g * gs + k;
    var q := s / gs;
    var r := s % gs;
    assert s == q * gs + r && 0 <= r < gs;
    if q > g {
      MulAtLeast(q - g, gs);
      assert false;
    } else if q < g {
      MulAtLeast(g - q, gs);
      assert false;
    }
  }

  lemma MulAtLeast(a: nat, b: nat)
    requires a >= 1
    ensures a * b >= b
  {
    assert a * b == b + (a - 1) * b;
  }

  /**
   * Ownership is a property of a whole grain: two sectors of one grain are both owned by
   * the extent or both unallocated in it, and fail alike.
   */
  lemma OwnershipPerGrain(e: Extent, s1: nat, s2: nat)
    requires e.kind.Sparse? && e.kind.header.grainSize > 0
    requires s1 / e.kind.header.grainSize == s2 / e.kind.header.grainSize
    ensures Own(e, s1).Err? <==> Own(e, s2).Err?
    ensures Own(e, s1).Err? ==> Own(e, s1) == Own(e, s2)
    ensures Own(e, s1) == Ok(Unallocated) <==> Own(e, s2) == Ok(Unallocated)
  {
  }
}
