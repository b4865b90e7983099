/**
 * Where the rewrite puts things, as invariants of the slot loop and the grain loop.
 *
 * Every grain table and every copied grain lives in [d, freeSector), where d is the
 * number of sectors of the header block; a clean grain has table entry 0, a dirty grain
 * has the first sector of its run, which holds the snapshot's content of the grain; a
 * slot without dirty grains has directory entry 0, any other slot has its table's 32
 * sectors at its directory entry. Nothing the loops write later lands below freeSector,
 * so what is placed stays placed. All of this holds when the 32-bit counter cannot wrap.
 */
module Allocation {
  import opened Types
  import opened Extents
  import opened Layout
  import opened Compaction
  import SparseHeader

  /** Grain `g` compares equal to the parent everywhere the snapshot supplies it. */
  predicate IsClean(own: OwnView, base: BaseView, gs: nat, g: nat) {
    Scan(own, base, g, gs, 0) == Ok(Clean)
  }

  /** Grain `g` has a sector the snapshot supplies with content the parent does not show. */
  predicate IsDirty(own: OwnView, base: BaseView, gs: nat, g: nat) {
    Scan(own, base, g, gs, 0).Ok? && Scan(own, base, g, gs, 0).value.DirtyAt?
  }

  /** Sectors at .. at+gs-1 of `w` are written, and hold grain `g` where the snapshot supplies it. */
  predicate Copied(own: OwnView, g: nat, gs: nat, at: nat, w: map<nat, Sector>) {
    forall k :: 0 <= k < gs ==>
      && InGrain(own, g, gs, k).Ok?
      && at + k in w
      && (InGrain(own, g, gs, k).value.Some? ==> w[at + k] == InGrain(own, g, gs, k).value.value)
  }

  /**
   * Table entry `e` of grain `g`: 0 for a clean grain; for a dirty grain, the first sector
   * of a run inside [lo, hi) that holds the grain.
   */
  predicate GrainPlaced(own: OwnView, base: BaseView, gs: nat, g: nat, e: nat, w: map<nat, Sector>, lo: nat, hi: nat) {
    if e == 0 then IsClean(own, base, gs, g)
    else IsDirty(own, base, gs, g) && lo <= e && e + gs <= hi && Copied(own, g, gs, e, w)
  }

  /**
   * Directory slot `i` with entry `gde` and table `t`: an entry 0 has an empty table; any
   * other entry lies in [lo, hi) with the table's image in its 32 sectors, and every grain
   * of the slot is placed after the table.
   */
  predicate SlotPlaced(own: OwnView, base: BaseView, gs: nat, i: nat, gde: nat, t: seq<uint32>,
                       w: map<nat, Sector>, lo: nat, hi: nat) {
    && |t| == GT_ENTRIES
    && (gde == 0 ==> forall j :: 0 <= j < GT_ENTRIES ==> t[j] == 0)
    && (gde != 0 ==> lo <= gde && gde + GT_SECTORS <= hi
                     && HoldsRun(w, gde, TableSectors(t)))
    && forall j :: 0 <= j < GT_ENTRIES ==>
         GrainPlaced(own, base, gs, i * GT_ENTRIES + j, t[j], w, gde + GT_SECTORS, hi)
  }

  /** `w2` has every sector `w` has in [lo, hi), with the same content. */
  predicate Keeps(w: map<nat, Sector>, w2: map<nat, Sector>, lo: nat, hi: nat) {
    forall q :: lo <= q < hi && q in w ==> q in w2 && w2[q] == w[q]
  }

  /** After slots 0 .. i-1, with `d` the sectors of the header block: every slot so far is placed. */
  predicate Placed(own: OwnView, base: BaseView, gs: nat, d: nat, i: nat, p: Progress) {
    && 0 < d <= p.free
    && i <= |p.gd| && |p.tables| == i
    && forall i' :: 0 <= i' < i ==> SlotPlaced(own, base, gs, i', p.gd[i'], p.tables[i'], p.written, d, p.free)
  }

  /** Inside slot `i`, before grain `j`, from the slot-loop state `p`. */
  predicate Filling(own: OwnView, base: BaseView, gs: nat, i: nat, j: nat, st: Slot, p: Progress) {
    && |st.table| == GT_ENTRIES && j <= GT_ENTRIES
    && p.free <= st.free <= p.free + GT_SECTORS + Times(j, gs)
    && (st.gde == 0 ==> st.free == p.free && forall j' :: 0 <= j' < GT_ENTRIES ==> st.table[j'] == 0)
    && (st.gde != 0 ==> p.free <= st.gde && st.gde + GT_SECTORS <= st.free)
    && (forall j' :: j <= j' < GT_ENTRIES ==> st.table[j'] == 0)
    && (forall j' :: 0 <= j' < j ==>
          GrainPlaced(own, base, gs, i * GT_ENTRIES + j', st.table[j'], st.written, st.gde + GT_SECTORS, st.free))
    && Keeps(p.written, st.written, 0, p.free)
  }

  lemma KeepsTrans(w1: map<nat, Sector>, w2: map<nat, Sector>, w3: map<nat, Sector>, lo: nat, hi: nat, hi2: nat)
    requires Keeps(w1, w2, lo, hi) && Keeps(w2, w3, lo, hi2) && hi <= hi2
    ensures Keeps(w1, w3, lo, hi)
  {
  }

  lemma KeepsWithin(w: map<nat, Sector>, w2: map<nat, Sector>, lo: nat, hi: nat, lo2: nat, hi2: nat)
    requires Keeps(w, w2, lo, hi) && lo <= lo2 && hi2 <= hi
    ensures Keeps(w, w2, lo2, hi2)
  {
  }

  /** A run of sectors written at `at` keeps every sector outside it. */
  lemma WriteRunKeeps(w: map<nat, Sector>, at: nat, data: seq<Sector>, lo: nat, hi: nat)
    requires hi <= at || at + |data| <= lo
    ensures Keeps(w, WriteRun(w, at, data), lo, hi)
  {
  }

  /** A copy to `at` keeps every sector below `at`. */
  lemma CopyKeeps(own: OwnView, g: nat, gs: nat, at: nat, buf: Sector, w: map<nat, Sector>)
    requires Copy(own, g, gs, 0, at, buf, w).Ok?
    ensures Keeps(w, Copy(own, g, gs, 0, at, buf, w).value, 0, at)
  {
    CopyMeaning(own, g, gs, 0, at, buf, w);
  }

  /** A completed copy places the grain. */
  lemma CopyPlaces(own: OwnView, g: nat, gs: nat, at: nat, buf: Sector, w: map<nat, Sector>)
    requires Copy(own, g, gs, 0, at, buf, w).Ok?
    ensures Copied(own, g, gs, at, Copy(own, g, gs, 0, at, buf, w).value)
  {
    CopyMeaning(own, g, gs, 0, at, buf, w);
  }

  /** A placed grain stays placed while its run is kept and the free counter only grows. */
  lemma GrainFrame(own: OwnView, base: BaseView, gs: nat, g: nat, e: nat, w: map<nat, Sector>, w2: map<nat, Sector>,
                   lo: nat, hi: nat, hi2: nat)
    requires GrainPlaced(own, base, gs, g, e, w, lo, hi) && Keeps(w, w2, lo, hi) && hi <= hi2
    ensures GrainPlaced(own, base, gs, g, e, w2, lo, hi2)
  {
    if e != 0 {
      forall k | 0 <= k < gs
        ensures InGrain(own, g, gs, k).Ok? && e + k in w2 && w2[e + k] == w[e + k]
      {
        assert InGrain(own, g, gs, k).Ok? && e + k in w;
      }
    }
  }

  /** A placed slot stays placed while [lo, hi) is kept and the free counter only grows. */
  lemma SlotFrame(own: OwnView, base: BaseView, gs: nat, i: nat, gde: nat, t: seq<uint32>,
                  w: map<nat, Sector>, w2: map<nat, Sector>, lo: nat, hi: nat, hi2: nat)
    requires SlotPlaced(own, base, gs, i, gde, t, w, lo, hi) && Keeps(w, w2, lo, hi) && hi <= hi2
    ensures SlotPlaced(own, base, gs, i, gde, t, w2, lo, hi2)
  {
    if gde != 0 {
      RunFrame(w, w2, gde, TableSectors(t), lo, hi);
      KeepsWithin(w, w2, lo, hi, gde + GT_SECTORS, hi);
    }
    forall j | 0 <= j < GT_ENTRIES
      ensures GrainPlaced(own, base, gs, i * GT_ENTRIES + j, t[j], w2, gde + GT_SECTORS, hi2)
    {
      assert GrainPlaced(own, base, gs, i * GT_ENTRIES + j, t[j], w, gde + GT_SECTORS, hi);
      if t[j] != 0 {
        GrainFrame(own, base, gs, i * GT_ENTRIES + j, t[j], w, w2, gde + GT_SECTORS, hi, hi2);
      }
    }
  }

  /** Sectors at .. at+|data|-1 of `w` hold `data`. */
  predicate HoldsRun(w: map<nat, Sector>, at: nat, data: seq<Sector>) {
    forall q :: at <= q < at + |data| ==> q in w && w[q] == data[q - at]
  }

  /** A run inside a kept range stays. */
  lemma RunFrame(w: map<nat, Sector>, w2: map<nat, Sector>, at: nat, data: seq<Sector>, lo: nat, hi: nat)
    requires HoldsRun(w, at, data) && Keeps(w, w2, lo, hi) && lo <= at && at + |data| <= hi
    ensures HoldsRun(w2, at, data)
  {
  }

  /** A run just written is held. */
  lemma RunWritten(w: map<nat, Sector>, at: nat, data: seq<Sector>)
    ensures HoldsRun(WriteRun(w, at, data), at, data)
  {
  }

  /** `Times` grows with its first argument. */
  lemma {:induction false} TimesMono(a: nat, b: nat, c: nat)
    requires a <= b
    ensures Times(a, c) <= Times(b, c)
    decreases b
  {
    if a < b {
      TimesMono(a, b - 1, c);
    }
  }

  /** The room left for slot `i`: its whole worst-case cost stays below 2^32. */
  lemma SlotRoom(d: nat, gs: nat, i: nat, n: nat, free: nat)
    requires i < n && free <= d + Times(i, SlotCost(gs)) && d + Times(n, SlotCost(gs)) < UINT32_LIMIT
    ensures free + SlotCost(gs) < UINT32_LIMIT
  {
    TimesMono(i + 1, n, SlotCost(gs));
  }

  /** A clean grain leaves the slot state as it is. */
  lemma CleanFills(own: OwnView, base: BaseView, gs: nat, i: nat, j: nat, st: Slot, p: Progress)
    requires Filling(own, base, gs, i, j, st, p) && j < GT_ENTRIES
    requires IsClean(own, base, gs, i * GT_ENTRIES + j)
    ensures Filling(own, base, gs, i, j + 1, st, p)
  {
    TimesMono(j, j + 1, gs);
  }

  /** A dirty grain is placed after everything placed so far, within the slot's room. */
  lemma ClaimFills(own: OwnView, base: BaseView, gs: nat, i: nat, j: nat, current: Sector, st: Slot, p: Progress)
    requires Filling(own, base, gs, i, j, st, p) && j < GT_ENTRIES
    requires p.free + SlotCost(gs) < UINT32_LIMIT
    requires IsDirty(own, base, gs, i * GT_ENTRIES + j)
    requires p.free > 0
    requires Claim(own, gs, i * GT_ENTRIES + j, j, current, st).Ok?
    ensures Filling(own, base, gs, i, j + 1, Claim(own, gs, i * GT_ENTRIES + j, j, current, st).value, p)
  {
    var g := i * GT_ENTRIES + j;
    TimesMono(j + 1, GT_ENTRIES, gs);
    var gde: nat := if st.gde == 0 then st.free else st.gde;
    var at: nat := if st.gde == 0 then st.free + GT_SECTORS else st.free;
    assert Wrap32(if st.gde == 0 then st.free + GT_SECTORS else st.free) == at;
    var w := Copy(own, g, gs, 0, at, current, st.written).value;
    assert at + gs < UINT32_LIMIT;
    var next := Slot(at + gs, gde, st.table[j := at], w);
    assert Claim(own, gs, g, j, current, st) == Ok(next);
    CopyKeeps(own, g, gs, at, current, st.written);
    CopyPlaces(own, g, gs, at, current, st.written);
    KeepsTrans(p.written, st.written, w, 0, p.free, at);
    forall j' | 0 <= j' < j + 1
      ensures GrainPlaced(own, base, gs, i * GT_ENTRIES + j', next.table[j'], w, gde + GT_SECTORS, next.free)
    {
      if j' < j && st.table[j'] != 0 {
        KeepsWithin(st.written, w, 0, at, gde + GT_SECTORS, st.free);
        GrainFrame(own, base, gs, i * GT_ENTRIES + j', st.table[j'], st.written, w, gde + GT_SECTORS, st.free, next.free);
      }
    }
  }

  /** One grain of the grain loop keeps the slot invariant. */
  lemma StepFills(own: OwnView, base: BaseView, gs: nat, i: nat, j: nat, st: Slot, p: Progress)
    requires Filling(own, base, gs, i, j, st, p) && j < GT_ENTRIES
    requires 0 < p.free && p.free + SlotCost(gs) < UINT32_LIMIT
    requires GrainStep(own, base, gs, i, j, st).Ok?
    ensures Filling(own, base, gs, i, j + 1, GrainStep(own, base, gs, i, j, st).value, p)
  {
    var g := i * GT_ENTRIES + j;
    match Scan(own, base, g, gs, 0)
    case Ok(Clean) =>
      CleanFills(own, base, gs, i, j, st, p);
    case Ok(DirtyAt(_, current)) =>
      ClaimFills(own, base, gs, i, j, current, st, p);
  }

  /** The close of a slot places it: its table is written at its entry, after every slot before it. */
  lemma ClosePlaces(own: OwnView, base: BaseView, gs: nat, d: nat, i: nat, st: Slot, p: Progress)
    requires Placed(own, base, gs, d, i, p) && i < |p.gd|
    requires Filling(own, base, gs, i, GT_ENTRIES, st, p)
    requires p.free <= d + Times(i, SlotCost(gs))
    ensures Placed(own, base, gs, d, i + 1, CloseSlot(p, i, st))
    ensures CloseSlot(p, i, st).free <= d + Times(i + 1, SlotCost(gs))
  {
    var q := CloseSlot(p, i, st);
    CloseKeeps(i, st, p);
    KeepsWithin(p.written, q.written, 0, p.free, d, p.free);
    forall i' | 0 <= i' < i + 1
      ensures SlotPlaced(own, base, gs, i', q.gd[i'], q.tables[i'], q.written, d, q.free)
    {
      if i' < i {
        assert q.gd[i'] == p.gd[i'] && q.tables[i'] == p.tables[i'];
        SlotFrame(own, base, gs, i', p.gd[i'], p.tables[i'], p.written, q.written, d, p.free, q.free);
      } else {
        CloseSlotPlaced(own, base, gs, d, i, st, p);
      }
    }
  }

  /** The close of a slot writes nothing below freeSector at the start of the slot. */
  lemma CloseKeeps(i: nat, st: Slot, p: Progress)
    requires i < |p.gd| && |st.table| == GT_ENTRIES
    requires Keeps(p.written, st.written, 0, p.free)
    requires st.gde != 0 ==> p.free <= st.gde
    ensures Keeps(p.written, CloseSlot(p, i, st).written, 0, p.free)
  {
    if st.gde != 0 {
      WriteRunKeeps(st.written, st.gde, TableSectors(st.table), 0, st.gde);
      KeepsTrans(p.written, st.written, CloseSlot(p, i, st).written, 0, p.free, st.gde);
    }
  }

  /** The slot just closed is placed. */
  lemma CloseSlotPlaced(own: OwnView, base: BaseView, gs: nat, d: nat, i: nat, st: Slot, p: Progress)
    requires Placed(own, base, gs, d, i, p) && i < |p.gd|
    requires Filling(own, base, gs, i, GT_ENTRIES, st, p)
    ensures SlotPlaced(own, base, gs, i, st.gde, st.table, CloseSlot(p, i, st).written, d, st.free)
  {
    if st.gde != 0 {
      var w := WriteRun(st.written, st.gde, TableSectors(st.table));
      assert CloseSlot(p, i, st).written == w;
      WriteRunKeeps(st.written, st.gde, TableSectors(st.table), st.gde + GT_SECTORS, st.free);
      RunWritten(st.written, st.gde, TableSectors(st.table));
      GrainsFrame(own, base, gs, i, st.table, st.written, w, st.gde + GT_SECTORS, st.free);
    } else {
      assert CloseSlot(p, i, st).written == st.written;
    }
  }

  /** The grains of slot `i` stay placed while [lo, hi) is kept. */
  lemma GrainsFrame(own: OwnView, base: BaseView, gs: nat, i: nat, t: seq<uint32>,
                    w: map<nat, Sector>, w2: map<nat, Sector>, lo: nat, hi: nat)
    requires |t| == GT_ENTRIES && Keeps(w, w2, lo, hi)
    requires forall j :: 0 <= j < GT_ENTRIES ==> GrainPlaced(own, base, gs, i * GT_ENTRIES + j, t[j], w, lo, hi)
    ensures forall j :: 0 <= j < GT_ENTRIES ==> GrainPlaced(own, base, gs, i * GT_ENTRIES + j, t[j], w2, lo, hi)
  {
    forall j | 0 <= j < GT_ENTRIES
      ensures GrainPlaced(own, base, gs, i * GT_ENTRIES + j, t[j], w2, lo, hi)
    {
      GrainFrame(own, base, gs, i * GT_ENTRIES + j, t[j], w, w2, lo, hi, hi);
    }
  }

  /**
   * The slot loop from slot `i` on keeps every slot placed, as long as the worst case of
   * the remaining slots fits the 32-bit counter.
   */
  lemma {:induction false} RewriteFromPlaces(own: OwnView, base: BaseView, gs: nat, d: nat, i: nat, p: Progress)
    requires Placed(own, base, gs, d, i, p)
    requires p.free <= d + Times(i, SlotCost(gs)) && d + Times(|p.gd|, SlotCost(gs)) < UINT32_LIMIT
    ensures RewriteFrom(own, base, gs, i, p).Ok? ==>
              && Placed(own, base, gs, d, |p.gd|, RewriteFrom(own, base, gs, i, p).value)
              && RewriteFrom(own, base, gs, i, p).value.free <= d + Times(|p.gd|, SlotCost(gs))
    decreases |p.gd| - i, 1, 0
  {
    if i < |p.gd| {
      var st := Slot(p.free, 0, EmptyTable(), p.written);
      SlotRoom(d, gs, i, |p.gd|, p.free);
      assert Filling(own, base, gs, i, 0, st, p);
      FillFromPlaces(own, base, gs, d, i, 0, st, p);
    }
  }

  /** The grain loop of slot `i` from grain `j` on, then the rest of the slot loop. */
  lemma {:induction false} FillFromPlaces(own: OwnView, base: BaseView, gs: nat, d: nat, i: nat, j: nat, st: Slot, p: Progress)
    requires Placed(own, base, gs, d, i, p) && i < |p.gd|
    requires p.free <= d + Times(i, SlotCost(gs)) && d + Times(|p.gd|, SlotCost(gs)) < UINT32_LIMIT
    requires Filling(own, base, gs, i, j, st, p)
    ensures FillFrom(own, base, gs, i, j, st, p).Ok? ==>
              && Placed(own, base, gs, d, |p.gd|, FillFrom(own, base, gs, i, j, st, p).value)
              && FillFrom(own, base, gs, i, j, st, p).value.free <= d + Times(|p.gd|, SlotCost(gs))
    decreases |p.gd| - i, 0, GT_ENTRIES - j
  {
    if j == GT_ENTRIES {
      ClosePlaces(own, base, gs, d, i, st, p);
      RewriteFromPlaces(own, base, gs, d, i + 1, CloseSlot(p, i, st));
    } else {
      var step := GrainStep(own, base, gs, i, j, st);
      if step.Ok? {
        SlotRoom(d, gs, i, |p.gd|, p.free);
        StepFills(own, base, gs, i, j, st, p);
        FillFromPlaces(own, base, gs, d, i, j + 1, step.value, p);
      }
    }
  }

  /**
   * The grain area of a header that fits 32-bit arithmetic places every slot, and leaves
   * room for the padding.
   */
  lemma GrainAreaPlaces(h: SparseHeader.Header, own: OwnView, base: BaseView)
    requires Fits(h)
    ensures GrainArea(h, own, base).Ok? ==>
              && Placed(own, base, h.grainSize, DataSectors(h), h.numGDEntries, GrainArea(h, own, base).value)
              && GrainArea(h, own, base).value.free + PAD_ALIGN <= UINT32_LIMIT
  {
    var d := DataSectors(h);
    var n := h.numGDEntries;
    assert DataSize(h) >= 2048;
    var p := Start(h);
    assert p.free == d;
    assert Placed(own, base, h.grainSize, d, 0, p);
    RewriteFromPlaces(own, base, h.grainSize, d, 0, p);
  }

  /** With room for it, the padding the tool computes in 32-bit arithmetic is the intended one. */
  lemma PadExact(free: nat, d: nat)
    requires d <= free && free + PAD_ALIGN <= UINT32_LIMIT
    ensures PadSectors(free, Wrap32(d)) as nat == Pad(free, d)
  {
    var x := free - d + (PAD_ALIGN - 1);
    assert Wrap32(free - d + (PAD_ALIGN - 1)) == x;
    assert x - x % PAD_ALIGN == (x / PAD_ALIGN) * PAD_ALIGN;
    assert RoundUp(free - d, PAD_ALIGN) == (x / PAD_ALIGN) * PAD_ALIGN;
  }

  /**
   * The end of the rewrite: the padding and the header block keep every placed slot, and
   * the file ends on the padding's boundary.
   */
  lemma FinishPlaces(h: SparseHeader.Header, own: OwnView, base: BaseView, p: Progress)
    requires SparseHeader.WellFormed(h) && Fits(h)
    requires Placed(own, base, h.grainSize, DataSectors(h), h.numGDEntries, p)
    requires p.free + PAD_ALIGN <= UINT32_LIMIT
    ensures var nd := Finish(h, p.free, p.gd, p.written);
            && nd.header == h.(freeSector := p.free)
            && nd.length == p.free + Pad(p.free, DataSectors(h))
            && Keeps(p.written, nd.written, DataSectors(h), p.free)
            && HoldsRun(nd.written, 0, HeaderBlock(nd.header, p.gd))
  {
    var d := DataSectors(h);
    PadExact(p.free, d);
    var pad := PadSectors(p.free, Wrap32(d));
    var padded := WriteRun(p.written, p.free, ZeroRun(pad as nat));
    var h2 := h.(freeSector := p.free);
    WriteRunKeeps(p.written, p.free, ZeroRun(pad as nat), d, p.free);
    WriteRunKeeps(padded, 0, HeaderBlock(h2, p.gd), d, p.free);
    KeepsTrans(p.written, padded, WriteRun(padded, 0, HeaderBlock(h2, p.gd)), d, p.free, p.free);
    RunWritten(padded, 0, HeaderBlock(h2, p.gd));
  }

  /**
   * The counter starts right after the header block: freeSector * 512 is dataSize, the
   * header and directory bytes rounded up to a multiple of 4096.
   */
  lemma StartFree(h: SparseHeader.Header)
    requires Fits(h)
    ensures var x := h.gdOffset * 512 + h.numGDEntries * 4;
            && Start(h).free as nat * 512 == DataSize(h) == RoundUp(x, 4096)
            && x <= DataSize(h) < x + 4096 && DataSize(h) % 4096 == 0
  {
    var x := h.gdOffset * 512 + h.numGDEntries * 4;
    var q := (x + 4095) / 4096;
    assert DataSize(h) == q * 4096;
    assert q * 4096 == (8 * q) * 512;
    assert DataSectors(h) == 8 * q;
  }

  /**
   * The accounting of one dirty grain: the slot's first dirty grain takes the 32 sectors at
   * freeSector for the grain table, every dirty grain then takes grainSize sectors at
   * freeSector for its copy, and a slot that has its table keeps it.
   */
  lemma ClaimAccounting(own: OwnView, gs: nat, g: nat, j: nat, current: Sector, st: Slot)
    requires j < GT_ENTRIES && |st.table| == GT_ENTRIES && st.free + GT_SECTORS + gs < UINT32_LIMIT
    requires Claim(own, gs, g, j, current, st).Ok?
    ensures var st2 := Claim(own, gs, g, j, current, st).value;
            && (st.gde == 0 ==> st2.gde == st.free && st2.table[j] == st.free + GT_SECTORS)
            && (st.gde != 0 ==> st2.gde == st.gde && st2.table[j] == st.free)
            && st2.free == st2.table[j] + gs
            && st2.free == st.free + gs + (if st.gde == 0 then GT_SECTORS else 0)
            && forall j' :: 0 <= j' < GT_ENTRIES && j' != j ==> st2.table[j'] == st.table[j']
  {
  }

  /**
   * Before grain `j` of slot `i`: every table and every grain copy allocated so far, in the
   * slots before `i` and in slot `i`, ends at or before `x`.
   */
  predicate EndsBy(gs: nat, i: nat, j: nat, st: Slot, p: Progress, x: nat)
    requires i <= |p.gd| && |p.tables| == i && |st.table| == GT_ENTRIES && j <= GT_ENTRIES
  {
    && (forall i' :: 0 <= i' < i && p.gd[i'] != 0 ==> p.gd[i'] + GT_SECTORS <= x)
    && (forall i', j' :: 0 <= i' < i && 0 <= j' < |p.tables[i']| && p.tables[i'][j'] != 0 ==>
          p.tables[i'][j'] + gs <= x)
    && (st.gde != 0 ==> st.gde + GT_SECTORS <= x)
    && (forall j' :: 0 <= j' < j && st.table[j'] != 0 ==> st.table[j'] + gs <= x)
  }

  /**
   * Allocations never overlap: whatever was allocated before grain `j` of slot `i` ends at or
   * before freeSector, where the next claim (ClaimAccounting) begins.
   */
  lemma EarlierEndBeforeFree(own: OwnView, base: BaseView, gs: nat, d: nat, i: nat, j: nat, st: Slot, p: Progress)
    requires Placed(own, base, gs, d, i, p) && i < |p.gd| && Filling(own, base, gs, i, j, st, p)
    ensures EndsBy(gs, i, j, st, p, st.free)
  {
    forall i', j' | 0 <= i' < i && 0 <= j' < |p.tables[i']| && p.tables[i'][j'] != 0
      ensures p.tables[i'][j'] + gs <= st.free
    {
      assert SlotPlaced(own, base, gs, i', p.gd[i'], p.tables[i'], p.written, d, p.free);
      assert GrainPlaced(own, base, gs, i' * GT_ENTRIES + j', p.tables[i'][j'], p.written, p.gd[i'] + GT_SECTORS, p.free);
    }
    forall i' | 0 <= i' < i && p.gd[i'] != 0
      ensures p.gd[i'] + GT_SECTORS <= st.free
    {
      assert SlotPlaced(own, base, gs, i', p.gd[i'], p.tables[i'], p.written, d, p.free);
    }
    forall j' | 0 <= j' < j && st.table[j'] != 0
      ensures st.table[j'] + gs <= st.free
    {
      assert GrainPlaced(own, base, gs, i * GT_ENTRIES + j', st.table[j'], st.written, st.gde + GT_SECTORS, st.free);
    }
  }
}
