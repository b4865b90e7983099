/**
 * Opened extents with their two caches: the 256-sector read window (readSector) and the
 * one-table grain-table cache (the gdeCache/gtCache pair used by getSector). Both caches
 * are proved transparent: every answer equals what the pure resolver of module Extents
 * computes from the backing files.
 */
module SectorCache {
  import opened Types
  import opened Extents

  /** An opened extent: one node of the in-memory chain. */
  class ExtentHandle {
    const extent: Extent
    const window: array<Sector>   // sdCache
    var windowStart: nat          // ssCache
    var windowEnd: nat            // seCache
    const table: array<uint32>    // gtCache
    var tableAt: nat              // gdeCache; 0 while no table is cached

    /** The window mirrors sectors [windowStart, windowEnd) of the file; a cached table is the on-disk one. */
    ghost predicate Valid()
      reads this, window, table
    {
      && window.Length == CACHE_DATA_SECTOR
      && table.Length == GT_ENTRIES
      && (windowEnd == 0 || windowStart <= windowEnd <= windowStart + CACHE_DATA_SECTOR)
      && (windowStart < windowEnd ==> windowEnd <= |extent.file.sectors|)
      && (forall d :: 0 <= d < windowEnd - windowStart ==> window[d] == extent.file.sectors[windowStart + d])
      && (windowStart < windowEnd && |extent.file.sectors| >= UINT32_LIMIT ==>
            windowEnd <= UINT32_LIMIT - CACHE_DATA_SECTOR || UINT32_LIMIT <= windowStart)
      && (tableAt != 0 ==> ReadWords(extent.file, tableAt, GT_ENTRIES) == Some(table[..]))
    }

    /** A freshly opened extent: both caches empty. */
    constructor (e: Extent)
      ensures Valid() && extent == e && fresh(window) && fresh(table)
      ensures windowStart == windowEnd == 0 && tableAt == 0
    {
      extent := e;
      window := new Sector[CACHE_DATA_SECTOR](_ => ZeroSector());
      table := new uint32[GT_ENTRIES];
      windowStart, windowEnd, tableAt := 0, 0, 0;
    }

    /**
     * readSector: serve sector `s` from the window, refilling it with the aligned run of
     * up to 256 sectors that contains `s` (clipped at the end of the file) on a miss.
     */
    method ReadSector(s: nat) returns (r: Option<Sector>)
      requires Valid()
      modifies this`windowStart, this`windowEnd, window
      ensures Valid()
      ensures r == SectorAt(extent.file, s)
      ensures r.None? <==> s >= |extent.file.sectors| || (UINT32_LIMIT - CACHE_DATA_SECTOR <= s < UINT32_LIMIT <= |extent.file.sectors|)
      ensures old(s < windowStart || s >= windowEnd) ==> windowStart == s / CACHE_DATA_SECTOR * CACHE_DATA_SECTOR
      ensures old(windowStart <= s < windowEnd) ==> windowStart == old(windowStart) && windowEnd == old(windowEnd)
    {
      if s < windowStart || s >= windowEnd {
        Refill(s);
      }
      if s >= windowEnd {
        return None;
      }
      r := Some(window[s - windowStart]);
    }

    /** The miss path of readSector: load the aligned window holding `s`, clipped at the end of the file. */
    method Refill(s: nat)
      requires Valid()
      modifies this`windowStart, this`windowEnd, window
      ensures Valid() && windowStart == s / CACHE_DATA_SECTOR * CACHE_DATA_SECTOR <= s
      ensures s < windowEnd || !Readable(extent.file, s)
    {
      var start := s / CACHE_DATA_SECTOR * CACHE_DATA_SECTOR;
      var count := if start < |extent.file.sectors| then Min(CACHE_DATA_SECTOR, |extent.file.sectors| - start) else 0;
      var d := 0;
      while d < count
        invariant 0 <= d <= count
        invariant forall e :: 0 <= e < d ==> window[e] == extent.file.sectors[start + e]
      {
        window[d] := extent.file.sectors[start + d];
        d := d + 1;
      }
      // seCache is a uint32: a window that ends at 2^32 ends at 0
      windowStart, windowEnd := start, if start + count == UINT32_LIMIT then 0 else start + count;
      WindowReadable(extent.file, s, start, count);
    }

    /** The table-cache refill of getSector: make the table at sector `gde` the cached one. */
    method LoadTable(gde: nat) returns (ok: bool)
      requires Valid() && gde != 0
      modifies this`tableAt, table
      ensures ok <==> ReadWords(extent.file, gde, GT_ENTRIES).Some?
      ensures ok ==> Valid() && tableAt == gde
      ensures windowStart == old(windowStart) && windowEnd == old(windowEnd)
    {
      if tableAt != gde {
        tableAt := gde;
        var words := ReadWords(extent.file, gde, GT_ENTRIES);
        if words.None? {
          return false;
        }
        var t := 0;
        while t < GT_ENTRIES
          invariant 0 <= t <= GT_ENTRIES && tableAt == gde
          invariant forall u :: 0 <= u < t ==> table[u] == words.value[u]
        {
          table[t] := words.value[t];
          t := t + 1;
        }
        assert table[..] == words.value;
      }
      ok := true;
    }
  }

  function Min(a: nat, b: nat): nat { if a < b then a else b }

  /**
   * The window readSector loads for `s`: every sector of it is readable unless its end is
   * 2^32, and then `s` is not.
   */
  lemma WindowReadable(f: BackingFile, s: nat, start: nat, count: nat)
    requires start == s / CACHE_DATA_SECTOR * CACHE_DATA_SECTOR
    requires count == if start < |f.sectors| then Min(CACHE_DATA_SECTOR, |f.sectors| - start) else 0
    ensures start <= s && (s < start + count || start + count == UINT32_LIMIT || !Readable(f, s))
    ensures start + count != UINT32_LIMIT && count > 0 && |f.sectors| >= UINT32_LIMIT ==>
              start + count <= UINT32_LIMIT - CACHE_DATA_SECTOR || UINT32_LIMIT <= start
    ensures start + count == UINT32_LIMIT ==> !Readable(f, s)
  {
    assert start <= s < start + CACHE_DATA_SECTOR;
    assert start % CACHE_DATA_SECTOR == 0;
  }

  /** The extents of a chain of handles, child first. */
  function Chain(hs: seq<ExtentHandle>): (es: seq<Extent>)
    ensures |es| == |hs| && forall k :: 0 <= k < |hs| ==> es[k] == hs[k].extent
  {
    seq(|hs|, k requires 0 <= k < |hs| => hs[k].extent)
  }

  /** Every object a chain of handles owns. */
  ghost function ChainRepr(hs: seq<ExtentHandle>): set<object> {
    (set k | 0 <= k < |hs| :: hs[k] as object)
    + (set k | 0 <= k < |hs| :: hs[k].window as object)
    + (set k | 0 <= k < |hs| :: hs[k].table as object)
  }

  /** Every handle is valid and no two handles share a cache. */
  ghost predicate ChainValid(hs: seq<ExtentHandle>)
    reads ChainRepr(hs)
  {
    && (forall k :: 0 <= k < |hs| ==> hs[k].Valid())
    && (forall k1, k2 :: 0 <= k1 < k2 < |hs| ==>
          hs[k1] != hs[k2] && hs[k1].window != hs[k2].window && hs[k1].table != hs[k2].table)
  }

  /**
   * getSector with a null buffer: whether, and from where, chain[i..] supplies sector `s`.
   * Only the grain-table caches along the walk change.
   */
  method Find(hs: seq<ExtentHandle>, i: nat, s: nat, recursive: bool) returns (r: Result<Location>)
    requires i < |hs| && ChainValid(hs)
    modifies ChainRepr(hs)
    ensures r == Locate(Chain(hs)[i..], s, recursive)
    ensures r.Ok? ==> ChainValid(hs)
    ensures forall k :: 0 <= k < |hs| ==>
              hs[k].windowStart == old(hs[k].windowStart) && hs[k].windowEnd == old(hs[k].windowEnd)
    decreases |hs| - i
  {
    ghost var chain := Chain(hs)[i..];
    assert chain[0] == hs[i].extent;
    var own := OwnLevel(hs, i, s);
    if own.Err? {
      return Err(own.error);
    }
    match own.value
    case DataAt(o) =>
      return Ok(At(0, o));
    case ZeroGrain =>
      return Ok(Zero);
    case Unallocated =>
      if !recursive {
        return Ok(Absent);
      }
      if i + 1 == |hs| {
        return Ok(Zero);
      }
      assert chain[1..] == Chain(hs)[i + 1..];
      r := Find(hs, i + 1, s, true);
      if r.Ok? && r.value.At? {
        r := Ok(At(r.value.depth + 1, r.value.sector));
      }
  }

  /** The lookup of sector `s` in handle i alone, through its grain-table cache. */
  method OwnLevel(hs: seq<ExtentHandle>, i: nat, s: nat) returns (r: Result<Level>)
    requires i < |hs| && ChainValid(hs)
    modifies hs[i], hs[i].table
    ensures r == Own(hs[i].extent, s)
    ensures r.Ok? ==> ChainValid(hs)
    ensures hs[i].windowStart == old(hs[i].windowStart) && hs[i].windowEnd == old(hs[i].windowEnd)
  {
    var h := hs[i];
    match h.extent.kind
    case Flat =>
      return Ok(DataAt(s));
    case Other(t) =>
      return Err(UnsupportedType(t));
    case Sparse(header, gd) =>
      if header.numSectors != h.extent.size {
        return Err(SectorCountMismatch(h.extent.name));
      }
      var gs := header.grainSize;
      if gs == 0 || DirIndex(s, gs) >= |gd| {
        return Err(Undefined);
      }
      var gde := gd[DirIndex(s, gs)];
      if gde == 0 {
        return Ok(Unallocated);
      }
      var ok := LoadTableAt(hs, i, gde);
      if !ok {
        return Err(ExtentReadFailed(h.extent.disk));
      }
      var gte := h.table[TableIndex(s, gs)];
      if gte == 0 {
        return Ok(Unallocated);
      } else if gte == 1 {
        return Ok(ZeroGrain);
      }
      return Ok(DataAt(Wrap32(gte + s % gs)));
  }

  /** The table-cache refill of handle j of a chain. */
  method LoadTableAt(hs: seq<ExtentHandle>, j: nat, gde: nat) returns (ok: bool)
    requires j < |hs| && ChainValid(hs) && gde != 0
    modifies hs[j], hs[j].table
    ensures ok <==> ReadWords(hs[j].extent.file, gde, GT_ENTRIES).Some?
    ensures ok ==> ChainValid(hs) && hs[j].tableAt == gde
    ensures hs[j].windowStart == old(hs[j].windowStart) && hs[j].windowEnd == old(hs[j].windowEnd)
  {
    ok := hs[j].LoadTable(gde);
    if ok {
      ChainStillValid(hs, j);
    }
  }

  /** readSector on handle j of a chain. */
  method ReadSectorAt(hs: seq<ExtentHandle>, j: nat, s: nat) returns (r: Option<Sector>)
    requires j < |hs| && ChainValid(hs)
    modifies hs[j], hs[j].window
    ensures ChainValid(hs)
    ensures r == SectorAt(hs[j].extent.file, s)
  {
    r := hs[j].ReadSector(s);
    ChainStillValid(hs, j);
  }

  /** A cache refill of handle i keeps the whole chain valid. */
  lemma ChainStillValid(hs: seq<ExtentHandle>, i: nat)
    requires i < |hs| && hs[i].Valid()
    requires forall k :: 0 <= k < |hs| && k != i ==> hs[k].Valid()
    requires forall k1, k2 :: 0 <= k1 < k2 < |hs| ==>
               hs[k1] != hs[k2] && hs[k1].window != hs[k2].window && hs[k1].table != hs[k2].table
    ensures ChainValid(hs)
  {
  }

  /** getSector with a buffer: the content of sector `s` as chain[i..] supplies it. */
  method GetSector(hs: seq<ExtentHandle>, i: nat, s: nat, recursive: bool) returns (r: Result<Option<Sector>>)
    requires i < |hs| && ChainValid(hs)
    modifies ChainRepr(hs)
    ensures r == Resolve(Chain(hs)[i..], s, recursive)
    ensures r.Ok? ==> ChainValid(hs)
  {
    var l := Find(hs, i, s, recursive);
    if l.Err? {
      return Err(l.error);
    }
    ghost var chain := Chain(hs)[i..];
    match l.value
    case Absent =>
      r := Ok(None);
    case Zero =>
      r := Ok(Some(ZeroSector()));
    case At(d, o) =>
      var h := hs[i + d];
      assert chain[d] == h.extent;
      var data := ReadSectorAt(hs, i + d, o);
      if data.None? {
        r := Err(ExtentReadFailed(h.extent.disk));
      } else {
        r := Ok(data);
      }
  }
}
