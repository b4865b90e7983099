/**
 * The rewrite of a snapshot, as the tool runs it: three nested loops over directory slots,
 * grains and sectors, one freeSector counter, the directory array gdBase, one grain table
 * array per slot, then the padding and the header block. Each method is proved to compute
 * what the functions of Compaction describe.
 */
module Rewrite {
  import opened Types
  import opened Extents
  import opened Layout
  import opened Compaction
  import opened SectorCache
  import SparseHeader

  /** getSector(info, …, false) on the snapshot, seen through the snapshot's lookup. */
  method ChildSector(hs: seq<ExtentHandle>, g: nat, gs: nat, k: nat) returns (r: Result<Option<Sector>>)
    requires |hs| > 0 && ChainValid(hs)
    modifies ChainRepr(hs)
    ensures r == InGrain(ChildView(Chain(hs)), g, gs, k)
    ensures r.Ok? ==> ChainValid(hs)
  {
    assert Chain(hs)[0..] == Chain(hs);
    r := GetSector(hs, 0, g * gs + k, false);
  }

  /** getSector(info->parent, …, true), seen through the parent chain's lookup. */
  method ParentSector(hs: seq<ExtentHandle>, s: nat) returns (r: Result<Sector>)
    requires |hs| > 1 && ChainValid(hs)
    modifies ChainRepr(hs)
    ensures r == ParentView(Chain(hs))(s)
    ensures r.Ok? ==> ChainValid(hs)
  {
    var found := GetSector(hs, 1, s, true);
    r := Found(found);
  }

  /**
   * One step of the dirty test: sector `k` of grain `g` from the snapshot and, when the
   * snapshot supplies it, from the parent, compared.
   */
  method CompareSector(hs: seq<ExtentHandle>, g: nat, gs: nat, k: nat) returns (r: Result<Option<Sector>>)
    requires |hs| > 1 && ChainValid(hs)
    modifies ChainRepr(hs)
    ensures r == Mismatch(ChildView(Chain(hs)), ParentView(Chain(hs)), g, gs, k)
    ensures r.Ok? ==> ChainValid(hs)
  {
    var current := ChildSector(hs, g, gs, k);
    if current.Err? {
      return Err(current.error);
    }
    if current.value.None? {
      return Ok(None);
    }
    var parent := ParentSector(hs, g * gs + k);
    if parent.Err? {
      return Err(parent.error);
    }
    r := Ok(if parent.value != current.value.value then current.value else None);
  }

  /**
   * The dirty test of grain `g`: the loop over its sectors that stops at the first sector
   * the snapshot supplies with a content other than the parent's.
   */
  method ScanGrain(hs: seq<ExtentHandle>, g: nat, gs: nat) returns (r: Result<Verdict>)
    requires |hs| > 1 && ChainValid(hs)
    modifies ChainRepr(hs)
    ensures r == Scan(ChildView(Chain(hs)), ParentView(Chain(hs)), g, gs, 0)
    ensures r.Ok? ==> ChainValid(hs)
  {
    ghost var own := ChildView(Chain(hs));
    ghost var base := ParentView(Chain(hs));
    var k := 0;
    while k < gs
      invariant k <= gs && ChainValid(hs)
      invariant Scan(own, base, g, gs, k) == Scan(own, base, g, gs, 0)
    {
      var differs := CompareSector(hs, g, gs, k);
      if differs.Err? {
        return Err(differs.error);
      }
      if differs.value.Some? {
        return Ok(DirtyAt(k, differs.value.value));
      }
      k := k + 1;
    }
    return Ok(Clean);
  }

  /**
   * The copy of grain `g` to sectors `at`.. of the new file through the sector buffer,
   * which holds `buf` when the copy starts.
   */
  method CopyGrain(hs: seq<ExtentHandle>, g: nat, gs: nat, at: nat, buf: Sector, w: map<nat, Sector>)
    returns (r: Result<map<nat, Sector>>)
    requires |hs| > 0 && ChainValid(hs)
    modifies ChainRepr(hs)
    ensures r == Copy(ChildView(Chain(hs)), g, gs, 0, at, buf, w)
    ensures r.Ok? ==> ChainValid(hs)
  {
    ghost var own := ChildView(Chain(hs));
    var current: Sector := buf;
    var written: map<nat, Sector> := w;
    var k := 0;
    while k < gs
      invariant k <= gs && ChainValid(hs)
      invariant Copy(own, g, gs, k, at, current, written) == Copy(own, g, gs, 0, at, buf, w)
    {
      var sector := ChildSector(hs, g, gs, k);
      if sector.Err? {
        return Err(sector.error);
      }
      ghost var before := Copy(own, g, gs, k, at, current, written);
      if sector.value.Some? {
        current := sector.value.value;
      }
      written := written[at + k := current];
      assert before == Copy(own, g, gs, k + 1, at, current, written);
      k := k + 1;
    }
    return Ok(written);
  }

  /** One more zero sector of padding extends the run of zero sectors by one. */
  lemma PadStep(w: map<nat, Sector>, at: nat, n: nat)
    ensures WriteRun(w, at, ZeroRun(n))[at + n := ZeroSector()] == WriteRun(w, at, ZeroRun(n + 1))
  {
    var a := WriteRun(w, at, ZeroRun(n))[at + n := ZeroSector()];
    var b := WriteRun(w, at, ZeroRun(n + 1));
    PadStepAt(w, at, n);
    assert a.Keys == b.Keys;
  }

  /** The two files of PadStep agree at every sector. */
  lemma PadStepAt(w: map<nat, Sector>, at: nat, n: nat)
    ensures var a := WriteRun(w, at, ZeroRun(n))[at + n := ZeroSector()];
            var b := WriteRun(w, at, ZeroRun(n + 1));
            forall q :: (q in a <==> q in b) && (q in a ==> a[q] == b[q])
  {
    var a := WriteRun(w, at, ZeroRun(n))[at + n := ZeroSector()];
    var b := WriteRun(w, at, ZeroRun(n + 1));
    forall q
      ensures (q in a <==> q in b) && (q in a ==> a[q] == b[q])
    {
      if at <= q < at + n + 1 {
        assert b[q] == ZeroRun(n + 1)[q - at];
      }
    }
  }

  /** Writing no sectors leaves the file as it is. */
  lemma EmptyRun(w: map<nat, Sector>, at: nat)
    ensures WriteRun(w, at, ZeroRun(0)) == w
  {
    var a := WriteRun(w, at, ZeroRun(0));
    assert forall q :: q in a <==> q in w;
  }

  /**
   * The padding loop: `pad` zero sectors from freeSector on, one write per sector.
   */
  method PadFile(w: map<nat, Sector>, free: nat, pad: nat) returns (written: map<nat, Sector>)
    ensures written == WriteRun(w, free, ZeroRun(pad))
  {
    written := w;
    EmptyRun(w, free);
    var n := 0;
    while n < pad
      invariant n <= pad && written == WriteRun(w, free, ZeroRun(n))
    {
      PadStep(w, free, n);
      written := written[free + n := ZeroSector()];
      n := n + 1;
    }
  }

  /**
   * Grain `j` of directory slot `i`: the dirty test, then the claim of a dirty grain.
   * `st` mirrors freeSector, gdBase[i], gtData and the file.
   */
  method WriteGrain(hs: seq<ExtentHandle>, gs: nat, i: nat, j: nat, gdBase: array<uint32>, gtData: array<uint32>,
                    st: Slot)
    returns (r: Result<Slot>)
    requires |hs| > 1 && ChainValid(hs)
    requires i < gdBase.Length && j < gtData.Length == GT_ENTRIES
    requires gdBase != gtData && gdBase !in ChainRepr(hs) && gtData !in ChainRepr(hs)
    requires st.gde == gdBase[i] && st.table == gtData[..]
    modifies ChainRepr(hs), gdBase, gtData
    ensures r == GrainStep(ChildView(Chain(hs)), ParentView(Chain(hs)), gs, i, j, st)
    ensures r.Ok? ==> ChainValid(hs) && r.value.gde == gdBase[i] && r.value.table == gtData[..]
    ensures forall i' :: 0 <= i' < gdBase.Length && i' != i ==> gdBase[i'] == old(gdBase[i'])
  {
    var g := i * GT_ENTRIES + j;
    var verdict := ScanGrain(hs, g, gs);
    if verdict.Err? {
      return Err(verdict.error);
    }
    if verdict.value.Clean? {
      return Ok(st);
    }
    r := ClaimGrain(hs, gs, g, i, j, gdBase, gtData, verdict.value.current, st);
  }

  /**
   * A dirty grain: gdBase[i] gets the slot's table at freeSector when it has none, gtData[j]
   * the grain's run, and the grain is copied there.
   */
  method ClaimGrain(hs: seq<ExtentHandle>, gs: nat, g: nat, i: nat, j: nat, gdBase: array<uint32>,
                    gtData: array<uint32>, current: Sector, st: Slot)
    returns (r: Result<Slot>)
    requires |hs| > 1 && ChainValid(hs)
    requires i < gdBase.Length && j < gtData.Length == GT_ENTRIES
    requires gdBase != gtData && gdBase !in ChainRepr(hs) && gtData !in ChainRepr(hs)
    requires st.gde == gdBase[i] && st.table == gtData[..]
    modifies ChainRepr(hs), gdBase, gtData
    ensures r == Claim(ChildView(Chain(hs)), gs, g, j, current, st)
    ensures r.Ok? ==> ChainValid(hs) && r.value.gde == gdBase[i] && r.value.table == gtData[..]
    ensures forall i' :: 0 <= i' < gdBase.Length && i' != i ==> gdBase[i'] == old(gdBase[i'])
  {
    var free := st.free;
    if gdBase[i] == 0 {
      gdBase[i] := free;
      free := Wrap32(free + GT_SECTORS);
    }
    gtData[j] := free;
    free := Wrap32(free + gs);
    var copied := CopyGrain(hs, g, gs, gtData[j], current, st.written);
    if copied.Err? {
      return Err(copied.error);
    }
    assert gtData[..] == st.table[j := gtData[j]];
    return Ok(Slot(free, gdBase[i], gtData[..], copied.value));
  }

  /**
   * The grains of directory slot `i`, with gdBase[i] and gtData zero at the start; `p` is
   * the state of the slot loop when the slot begins.
   */
  method FillTable(hs: seq<ExtentHandle>, gs: nat, i: nat, gdBase: array<uint32>, gtData: array<uint32>, p: Progress)
    returns (r: Result<Slot>)
    requires |hs| > 1 && ChainValid(hs)
    requires i < gdBase.Length && gdBase[i] == 0 && gtData.Length == GT_ENTRIES && i < |p.gd|
    requires gdBase != gtData && gdBase !in ChainRepr(hs) && gtData !in ChainRepr(hs)
    requires gtData[..] == EmptyTable()
    modifies ChainRepr(hs), gdBase, gtData
    ensures r.Ok? ==> ChainValid(hs) && r.value.gde == gdBase[i] && r.value.table == gtData[..]
    ensures r.Err? ==> RewriteFrom(ChildView(Chain(hs)), ParentView(Chain(hs)), gs, i, p) == Err(r.error)
    ensures r.Ok? ==> RewriteFrom(ChildView(Chain(hs)), ParentView(Chain(hs)), gs, i, p)
                      == FillFrom(ChildView(Chain(hs)), ParentView(Chain(hs)), gs, i, GT_ENTRIES, r.value, p)
    ensures forall i' :: 0 <= i' < gdBase.Length && i' != i ==> gdBase[i'] == old(gdBase[i'])
  {
    ghost var own := ChildView(Chain(hs));
    ghost var base := ParentView(Chain(hs));
    var st := Slot(p.free, 0, gtData[..], p.written);
    var j := 0;
    while j < GT_ENTRIES
      invariant j <= GT_ENTRIES && ChainValid(hs)
      invariant st.gde == gdBase[i] && st.table == gtData[..]
      invariant forall i' :: 0 <= i' < gdBase.Length && i' != i ==> gdBase[i'] == old(gdBase[i'])
      invariant FillFrom(own, base, gs, i, j, st, p) == RewriteFrom(own, base, gs, i, p)
    {
      var next := WriteGrain(hs, gs, i, j, gdBase, gtData, st);
      if next.Err? {
        return Err(next.error);
      }
      st := next.value;
      j := j + 1;
    }
    return Ok(st);
  }

  /**
   * Directory slot `i`: a zeroed grain table (gtData) for the slot, its grains processed,
   * and, when the slot received a table, the table written at gdBase[i]. `p` is the state
   * of the slot loop, whose directory is gdBase.
   */
  method WriteSlot(hs: seq<ExtentHandle>, gs: nat, i: nat, gdBase: array<uint32>, p: Progress)
    returns (r: Result<Progress>)
    requires |hs| > 1 && ChainValid(hs)
    requires i < gdBase.Length && gdBase !in ChainRepr(hs)
    requires p.gd == gdBase[..] && gdBase[i] == 0
    modifies ChainRepr(hs), gdBase
    ensures r.Ok? ==> ChainValid(hs) && r.value.gd == gdBase[..] && |r.value.gd| == |p.gd|
    ensures r.Err? ==> RewriteFrom(ChildView(Chain(hs)), ParentView(Chain(hs)), gs, i, p) == Err(r.error)
    ensures r.Ok? ==> RewriteFrom(ChildView(Chain(hs)), ParentView(Chain(hs)), gs, i, p)
                      == RewriteFrom(ChildView(Chain(hs)), ParentView(Chain(hs)), gs, i + 1, r.value)
    ensures forall i' :: i < i' < gdBase.Length ==> gdBase[i'] == old(gdBase[i'])
  {
    var gtData := new uint32[GT_ENTRIES](_ => 0);
    assert gtData[..] == EmptyTable();
    var filled := FillTable(hs, gs, i, gdBase, gtData, p);
    if filled.Err? {
      return Err(filled.error);
    }
    var written := filled.value.written;
    if gdBase[i] != 0 {
      written := WriteRun(written, gdBase[i], TableSectors(gtData[..]));
    }
    assert gdBase[..] == p.gd[i := gdBase[i]];
    r := Ok(Progress(filled.value.free, gdBase[..], p.tables + [gtData[..]], written));
    assert r.value == CloseSlot(p, i, filled.value);
  }

  /** The slot loop: slot `i` of the directory is filled and closed, for every `i`. */
  method WriteSlots(hs: seq<ExtentHandle>, gs: uint32, gdBase: array<uint32>, start: Progress)
    returns (r: Result<Progress>)
    requires |hs| > 1 && ChainValid(hs) && gdBase !in ChainRepr(hs)
    requires start.gd == gdBase[..] && forall i :: 0 <= i < gdBase.Length ==> gdBase[i] == 0
    modifies ChainRepr(hs), gdBase
    ensures r == RewriteFrom(ChildView(Chain(hs)), ParentView(Chain(hs)), gs, 0, start)
    ensures r.Ok? ==> ChainValid(hs)
  {
    ghost var own := ChildView(Chain(hs));
    ghost var base := ParentView(Chain(hs));
    var p := start;
    var i := 0;
    while i < gdBase.Length
      invariant i <= gdBase.Length && ChainValid(hs)
      invariant p.gd == gdBase[..] && forall i' :: i <= i' < gdBase.Length ==> gdBase[i'] == 0
      invariant RewriteFrom(own, base, gs, i, p) == RewriteFrom(own, base, gs, 0, start)
    {
      var next := WriteSlot(hs, gs, i, gdBase, p);
      if next.Err? {
        return Err(next.error);
      }
      p := next.value;
      i := i + 1;
    }
    return Ok(p);
  }

  /** The grain area of the new file: an all-zero directory, then the slot loop. */
  method WriteGrainArea(hs: seq<ExtentHandle>, h: SparseHeader.Header) returns (r: Result<Progress>)
    requires |hs| > 1 && ChainValid(hs)
    modifies ChainRepr(hs)
    ensures r == GrainArea(h, ChildView(Chain(hs)), ParentView(Chain(hs)))
    ensures r.Ok? ==> ChainValid(hs)
  {
    var gdBase := new uint32[h.numGDEntries](_ => 0);
    var start := Progress(Wrap32(DataSectors(h)), gdBase[..], [], map[]);
    assert start == Start(h);
    r := WriteSlots(hs, h.grainSize, gdBase, start);
  }

  /**
   * The end of the rewrite: freeSector goes into the header, the padding loop writes its
   * zero sectors, and the header block is written at offset 0.
   */
  method FinishFile(h: SparseHeader.Header, free: uint32, gd: seq<uint32>, w: map<nat, Sector>)
    returns (disk: NewDisk)
    requires SparseHeader.WellFormed(h)
    ensures disk == Finish(h, free, gd, w)
  {
    var newHeader := h.(freeSector := free);
    var pad := PadSectors(free, Wrap32(DataSectors(h)));
    var written := PadFile(w, free, pad);
    written := WriteRun(written, 0, HeaderBlock(newHeader, gd));
    disk := NewDisk(newHeader, gd, written, free as nat + pad as nat);
  }

  /**
   * The whole rewrite of a snapshot with a parent: the grain area slot by slot, the padding,
   * and the header block at offset 0. The new extent's file is the map of written sectors.
   */
  method RewriteChain(hs: seq<ExtentHandle>) returns (r: Result<NewDisk>)
    requires |hs| > 1 && ChainValid(hs) && Rewritable(Chain(hs))
    modifies ChainRepr(hs)
    ensures r == RewriteOf(Chain(hs))
    ensures r.Ok? ==> ChainValid(hs)
  {
    var h := hs[0].extent.kind.header;
    var area := WriteGrainArea(hs, h);
    if area.Err? {
      return Err(area.error);
    }
    var disk := FinishFile(h, area.value.free, area.value.gd, area.value.written);
    return Ok(disk);
  }
}
