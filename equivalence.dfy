/**
 * What the rewrite preserves: the new extent, put in the snapshot's place over the same
 * parent chain, shows every sector as the snapshot did, and opening the new file reads
 * back the header (with the new freeSector) and the new grain directory.
 */
module Equivalence {
  import opened Types
  import opened Extents
  import opened Layout
  import opened Compaction
  import opened Allocation
  import SparseHeader

  /** The new extent: the snapshot's name and size over the new file. */
  function NewExtent(e: Extent, nd: NewDisk): (e2: Extent)
    ensures e2.name == e.name && e2.size == e.size && e2.kind == Sparse(nd.header, nd.gd)
    ensures |e2.file.sectors| == nd.length
  {
    Extent(e.name, Sparse(nd.header, nd.gd), e.disk + ".new", e.size, Materialize(nd.written, nd.length))
  }

  /** A non-recursive lookup answers None exactly where the extent itself leaves the sector unallocated. */
  lemma AbsentIsUnallocated(chain: seq<Extent>, s: nat)
    requires |chain| > 0
    ensures Resolve(chain, s, false) == Ok(None) <==> Own(chain[0], s) == Ok(Unallocated)
  {
  }

  /** Whether the snapshot supplies a sector is a property of its whole grain. */
  lemma AbsentPerGrain(chain: seq<Extent>, s1: nat, s2: nat)
    requires |chain| > 0 && chain[0].kind.Sparse? && chain[0].kind.header.grainSize > 0
    requires s1 / chain[0].kind.header.grainSize == s2 / chain[0].kind.header.grainSize
    ensures Resolve(chain, s1, false) == Ok(None) <==> Resolve(chain, s2, false) == Ok(None)
  {
    OwnershipPerGrain(chain[0], s1, s2);
    AbsentIsUnallocated(chain, s1);
    AbsentIsUnallocated(chain, s2);
  }

  /** Sector `s` is sector s % gs of grain s / gs. */
  lemma GrainOf(own: OwnView, s: nat, gs: nat)
    requires gs > 0
    ensures InGrain(own, s / gs, gs, s % gs) == own(s)
  {
    assert (s / gs) * gs + s % gs == s;
  }

  /** Sector `k` of grain `g` is a sector of that grain. */
  lemma SectorOf(g: nat, k: nat, gs: nat) returns (s: nat)
    requires k < gs
    ensures s == g * gs + k && s / gs == g
  {
    GrainSector(g, k, gs);
    s := g * gs + k;
  }

  /** The snapshot has nothing at sector `s`, or shows what the parent chain shows there. */
  predicate AgreesAt(own: OwnView, base: BaseView, s: nat) {
    || own(s) == Ok(None)
    || (own(s).Ok? && base(s).Ok? && own(s) == Ok(Some(base(s).value)))
  }

  /** Every sector of a clean grain agrees with the parent. */
  lemma CleanAgrees(own: OwnView, base: BaseView, gs: nat, s: nat)
    requires gs > 0 && IsClean(own, base, gs, s / gs)
    ensures AgreesAt(own, base, s)
  {
    ScanMeaning(own, base, s / gs, gs, 0);
    assert Agrees(own, base, s / gs, gs, s % gs);
    assert (s / gs) * gs + s % gs == s;
  }

  /** A dirty grain has a sector the snapshot supplies. */
  lemma DirtyWitness(own: OwnView, base: BaseView, gs: nat, s: nat) returns (s2: nat)
    requires gs > 0 && IsDirty(own, base, gs, s / gs)
    ensures s2 / gs == s / gs && own(s2).Ok? && own(s2).value.Some?
  {
    ScanMeaning(own, base, s / gs, gs, 0);
    var v := Scan(own, base, s / gs, gs, 0).value;
    s2 := SectorOf(s / gs, v.k, gs);
  }

  /** A copied grain holds sector `s` at its place in the run, when the snapshot supplies it. */
  lemma CopiedAt(own: OwnView, gs: nat, s: nat, at: nat, w: map<nat, Sector>)
    requires gs > 0 && Copied(own, s / gs, gs, at, w) && own(s) != Ok(None)
    ensures at + s % gs in w && own(s) == Ok(Some(w[at + s % gs]))
  {
    GrainOf(own, s, gs);
    var x := InGrain(own, s / gs, gs, s % gs);
    assert x.Ok? && at + s % gs in w;
    assert x.value.Some?;
  }

  /** A sector that agrees with the parent reads, through the whole chain, what the parent chain shows. */
  lemma ChainAgrees(chain: seq<Extent>, s: nat)
    requires |chain| > 1 && AgreesAt(ChildView(chain), ParentView(chain), s)
    ensures Resolve(chain, s, true) == Resolve(chain[1..], s, true)
  {
    RecursiveExtendsOwn(chain, s);
  }

  /** A sector the snapshot supplies reads the same through the whole chain. */
  lemma ChainOwned(chain: seq<Extent>, s: nat, c: Sector)
    requires |chain| > 1 && ChildView(chain)(s) == Ok(Some(c))
    ensures Resolve(chain, s, true) == Ok(Some(c))
  {
    RecursiveExtendsOwn(chain, s);
  }

  /** The snapshot supplies every sector of a dirty grain itself (none is left to the parent). */
  lemma DirtySupplied(chain: seq<Extent>, gs: nat, s: nat)
    requires |chain| > 1 && chain[0].kind.Sparse? && gs == chain[0].kind.header.grainSize > 0
    requires IsDirty(ChildView(chain), ParentView(chain), gs, s / gs)
    ensures Resolve(chain, s, false) != Ok(None)
  {
    var s2 := DirtyWitness(ChildView(chain), ParentView(chain), gs, s);
    AbsentPerGrain(chain, s2, s);
  }

  /** A sector the snapshot supplies, of a grain copied to `at`, reads through the whole chain what the copy holds. */
  lemma CopiedResolves(chain: seq<Extent>, gs: nat, s: nat, at: nat, w: map<nat, Sector>)
    requires |chain| > 1 && gs > 0 && Resolve(chain, s, false) != Ok(None)
    requires Copied(ChildView(chain), s / gs, gs, at, w)
    ensures at + s % gs in w && Resolve(chain, s, true) == Ok(Some(w[at + s % gs]))
  {
    CopiedAt(ChildView(chain), gs, s, at, w);
    ChainOwned(chain, s, w[at + s % gs]);
  }

  /** What the placement invariant says about one sector of the directory's range. */
  lemma PlacedSector(own: OwnView, base: BaseView, gs: nat, d: nat, n: nat, p: Progress, w: map<nat, Sector>, s: nat)
    requires Placed(own, base, gs, d, n, p) && gs > 0 && DirIndex(s, gs) < n
    requires Keeps(p.written, w, d, p.free)
    ensures var i, j := DirIndex(s, gs), TableIndex(s, gs);
            var t := p.tables[i];
            && |t| == GT_ENTRIES
            && (p.gd[i] != 0 ==> p.gd[i] + GT_SECTORS <= p.free && HoldsRun(w, p.gd[i], TableSectors(t)))
            && (p.gd[i] == 0 ==> t[j] == 0)
            && (t[j] == 0 ==> AgreesAt(own, base, s))
            && (t[j] != 0 ==> && t[j] > 1 && t[j] + gs <= p.free
                              && IsDirty(own, base, gs, s / gs) && Copied(own, s / gs, gs, t[j], w))
  {
    var i, j := DirIndex(s, gs), TableIndex(s, gs);
    var t := p.tables[i];
    assert s / gs == i * GT_ENTRIES + j;
    assert SlotPlaced(own, base, gs, i, p.gd[i], t, p.written, d, p.free);
    SlotFrame(own, base, gs, i, p.gd[i], t, p.written, w, d, p.free, p.free);
    assert GrainPlaced(own, base, gs, s / gs, t[j], w, p.gd[i] + GT_SECTORS, p.free);
    if t[j] == 0 {
      CleanAgrees(own, base, gs, s);
    }
  }

  /** The new extent's own answer for a sector of a slot whose table reads back as `t`. */
  lemma NewOwn(e: Extent, s: nat, t: seq<uint32>)
    requires e.kind.Sparse? && e.kind.header.numSectors == e.size && e.kind.header.grainSize > 0
    requires DirIndex(s, e.kind.header.grainSize) < |e.kind.gd|
    requires |t| == GT_ENTRIES
    requires var gs := e.kind.header.grainSize;
             var gde := e.kind.gd[DirIndex(s, gs)];
             gde == 0 || ReadWords(e.file, gde, GT_ENTRIES) == Some(t)
    ensures var gs := e.kind.header.grainSize;
            var gde := e.kind.gd[DirIndex(s, gs)];
            var gte := t[TableIndex(s, gs)];
            gde == 0 || gte == 0 ==> Own(e, s) == Ok(Unallocated)
  {
  }

  /** The new extent's own answer for a sector whose table entry points at a data run. */
  lemma NewOwnData(e: Extent, s: nat, t: seq<uint32>)
    requires e.kind.Sparse? && e.kind.header.numSectors == e.size && e.kind.header.grainSize > 0
    requires DirIndex(s, e.kind.header.grainSize) < |e.kind.gd|
    requires |t| == GT_ENTRIES
    requires var gs := e.kind.header.grainSize;
             var gde := e.kind.gd[DirIndex(s, gs)];
             gde != 0 && ReadWords(e.file, gde, GT_ENTRIES) == Some(t) && t[TableIndex(s, gs)] > 1
    ensures var gs := e.kind.header.grainSize;
            Own(e, s) == Ok(DataAt(Wrap32(t[TableIndex(s, gs)] + s % gs)))
  {
  }

  /** The main case of RewriteKeepsContent: a sector of a slot of the directory, `e2` the new extent. */
  lemma SparseSector(chain: seq<Extent>, e2: Extent, nd: NewDisk, p: Progress, s: nat)
    requires Rewritable(chain)
    requires var h := chain[0].kind.header;
             && h.numSectors == chain[0].size && h.grainSize > 0 && DirIndex(s, h.grainSize) < h.numGDEntries
    requires var h := chain[0].kind.header;
             && Placed(ChildView(chain), ParentView(chain), h.grainSize, DataSectors(h), h.numGDEntries, p)
             && nd.header == h.(freeSector := p.free) && nd.gd == p.gd && p.free <= nd.length
             && Keeps(p.written, nd.written, DataSectors(h), p.free)
    requires e2.kind == Sparse(nd.header, nd.gd) && e2.size == chain[0].size
    requires |e2.file.sectors| == nd.length < UINT32_LIMIT && FileHolds(e2.file, nd.written)
    ensures Resolve([e2] + chain[1..], s, true) == Resolve(chain, s, true)
  {
    var h := chain[0].kind.header;
    var gs := h.grainSize;
    var own, base := ChildView(chain), ParentView(chain);
    var i, j := DirIndex(s, gs), TableIndex(s, gs);
    var t := p.tables[i];
    PlacedSector(own, base, gs, DataSectors(h), h.numGDEntries, p, nd.written, s);
    if p.gd[i] != 0 {
      TableOpens(e2.file, nd.written, p.gd[i], t);
    }
    if t[j] == 0 {
      CleanNew(chain, e2, gs, s, t);
    } else {
      DirtyNew(chain, e2, gs, s, t, nd.written);
    }
  }

  /** The new extent's own view of sector `s`: a sparse extent of the snapshot's size whose table for `s` reads back as `t`. */
  predicate NewSlot(e2: Extent, size: nat, gs: nat, s: nat, t: seq<uint32>) {
    && e2.kind.Sparse? && e2.kind.header.numSectors == e2.size == size && e2.kind.header.grainSize == gs > 0
    && DirIndex(s, gs) < |e2.kind.gd| && |t| == GT_ENTRIES
    && (e2.kind.gd[DirIndex(s, gs)] == 0 ==> t[TableIndex(s, gs)] == 0)
    && (e2.kind.gd[DirIndex(s, gs)] != 0 ==> ReadWords(e2.file, e2.kind.gd[DirIndex(s, gs)], GT_ENTRIES) == Some(t))
  }

  /** A sector the new extent leaves unallocated reads the same, when the snapshot agreed with the parent there. */
  lemma CleanNew(chain: seq<Extent>, e2: Extent, gs: nat, s: nat, t: seq<uint32>)
    requires |chain| > 1 && NewSlot(e2, chain[0].size, gs, s, t) && t[TableIndex(s, gs)] == 0
    requires AgreesAt(ChildView(chain), ParentView(chain), s)
    ensures Resolve([e2] + chain[1..], s, true) == Resolve(chain, s, true)
  {
    var chain2 := [e2] + chain[1..];
    assert chain2[0] == e2 && chain2[1..] == chain[1..];
    NewOwn(e2, s, t);
    ChainAgrees(chain, s);
    ParentFallThrough(chain2, s);
  }

  /** A sector of a dirty grain reads the same through the new extent, which stores the copy at t[j]. */
  lemma DirtyNew(chain: seq<Extent>, e2: Extent, gs: nat, s: nat, t: seq<uint32>, w: map<nat, Sector>)
    requires |chain| > 1 && chain[0].kind.Sparse? && gs == chain[0].kind.header.grainSize
    requires NewSlot(e2, chain[0].size, gs, s, t) && t[TableIndex(s, gs)] > 1
    requires e2.kind.gd[DirIndex(s, gs)] != 0
    requires t[TableIndex(s, gs)] + s % gs < |e2.file.sectors| < UINT32_LIMIT && FileHolds(e2.file, w)
    requires IsDirty(ChildView(chain), ParentView(chain), gs, s / gs)
    requires Copied(ChildView(chain), s / gs, gs, t[TableIndex(s, gs)], w)
    ensures Resolve([e2] + chain[1..], s, true) == Resolve(chain, s, true)
  {
    var chain2 := [e2] + chain[1..];
    assert chain2[0] == e2;
    var at := t[TableIndex(s, gs)];
    NewOwnData(e2, s, t);
    DirtySupplied(chain, gs, s);
    CopiedResolves(chain, gs, s, at, w);
    NewData(chain2, s, at + s % gs);
  }

  /** A sector the first extent stores itself, inside its file, is read from there. */
  lemma NewData(chain: seq<Extent>, s: nat, o: nat)
    requires |chain| > 0 && Own(chain[0], s) == Ok(DataAt(o)) && Readable(chain[0].file, o)
    ensures Resolve(chain, s, true) == Ok(Some(chain[0].file.sectors[o]))
  {
  }

  /** The file holds, at every sector it has, what `w` says was written there. */
  predicate FileHolds(f: BackingFile, w: map<nat, Sector>) {
    forall q :: 0 <= q < |f.sectors| && q in w ==> f.sectors[q] == w[q]
  }

  lemma MaterializeHolds(w: map<nat, Sector>, len: nat)
    ensures FileHolds(Materialize(w, len), w)
  {
  }

  /** A grain table held at `at` of the written sectors reads back from the file. */
  lemma TableOpens(f: BackingFile, w: map<nat, Sector>, at: nat, t: seq<uint32>)
    requires |t| == GT_ENTRIES && at + GT_SECTORS <= |f.sectors|
    requires FileHolds(f, w) && HoldsRun(w, at, TableSectors(t))
    ensures ReadWords(f, at, GT_ENTRIES) == Some(t)
  {
    forall m | 0 <= m < GT_SECTORS
      ensures f.sectors[at + m] == TableSector(t, m)
    {
      TableSectorsAt(t, m);
      assert at + m in w && w[at + m] == TableSectors(t)[m];
    }
    TableReadBack(f, at, t);
  }

  /** A header block held at the start of the written sectors reads back as its header and directory. */
  lemma BlockOpens(f: BackingFile, w: map<nat, Sector>, h: SparseHeader.Header, gd: seq<uint32>)
    requires SparseHeader.WellFormed(h) && h.gdOffset >= 4 && |gd| == h.numGDEntries
    requires DataSectors(h) <= |f.sectors| && FileHolds(f, w) && HoldsRun(w, 0, HeaderBlock(h, gd))
    ensures ReadHeaderBlock(f) == Some(h)
    ensures ReadWords(f, h.gdOffset, h.numGDEntries) == Some(gd)
  {
    var block := HeaderBlock(h, gd);
    assert DataSize(h) >= 2048;
    forall q | 0 <= q < DataSectors(h)
      ensures f.sectors[q] == block[q]
    {
      assert q in w && w[q] == block[q - 0];
    }
    BlockHeaderBytes(h, gd, f);
    BlockDirectoryWords(h, gd, f);
  }

  /**
   * Opening the new file reads back the header the rewrite wrote, which is the snapshot's
   * header with the final freeSector, and the new grain directory.
   */
  lemma NewFileOpens(chain: seq<Extent>, nd: NewDisk)
    requires Rewritable(chain) && Fits(chain[0].kind.header) && RewriteOf(chain) == Ok(nd)
    ensures var h := chain[0].kind.header;
            var f := NewExtent(chain[0], nd).file;
            && nd.header == h.(freeSector := nd.header.freeSector)
            && ReadHeaderBlock(f) == Some(nd.header)
            && ReadWords(f, h.gdOffset, DirectoryWords(h)) == Some(nd.gd)
  {
    var h := chain[0].kind.header;
    assert DirectoryWords(h) == h.numGDEntries;
    var own, base := ChildView(chain), ParentView(chain);
    var p := GrainArea(h, own, base).value;
    GrainAreaPlaces(h, own, base);
    FinishPlaces(h, own, base, p);
    SameLayout(h, nd.header);
    MaterializeHolds(nd.written, nd.length);
    BlockOpens(NewExtent(chain[0], nd).file, nd.written, nd.header, nd.gd);
  }

  /**
   * The rewrite keeps the disk's content: the new extent, in the snapshot's place over the
   * same parent chain, resolves every sector exactly as the snapshot did, errors included.
   */
  lemma RewriteKeepsContent(chain: seq<Extent>, nd: NewDisk, s: nat)
    requires Rewritable(chain) && Fits(chain[0].kind.header) && RewriteOf(chain) == Ok(nd)
    ensures Resolve([NewExtent(chain[0], nd)] + chain[1..], s, true) == Resolve(chain, s, true)
  {
    var e := chain[0];
    var h := e.kind.header;
    var e2 := NewExtent(e, nd);
    var own, base := ChildView(chain), ParentView(chain);
    var p := GrainArea(h, own, base).value;
    GrainAreaPlaces(h, own, base);
    FinishPlaces(h, own, base, p);
    var gs := h.grainSize;
    assert DirectoryWords(h) == h.numGDEntries;
    if h.numSectors != e.size || gs == 0 || DirIndex(s, gs) >= h.numGDEntries {
      assert Own(e2, s) == Own(e, s);
      assert ([e2] + chain[1..])[0] == e2;
    } else {
      MaterializeHolds(nd.written, nd.length);
      SparseSector(chain, e2, nd, p, s);
    }
  }
}
