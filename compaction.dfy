/**
 * What the rewrite of a snapshot computes, as functions that follow the loops of the tool.
 *
 * The rewrite sees the snapshot through two lookups: the snapshot's own, non-recursive
 * resolution of a sector (`own`), and the parent chain's recursive resolution (`base`).
 * A grain is dirty when one of its sectors is supplied by the snapshot and differs from
 * the parent's value there; only dirty grains are copied into the new extent. A grain
 * table (32 sectors) and then each dirty grain are allocated from one counter, freeSector,
 * which starts right after the header block; at the end the file is padded with zero
 * sectors and the header block is written at offset 0.
 */
module Compaction {
  import opened Types
  import opened Extents
  import opened Layout
  import SparseHeader

  /** The snapshot's non-recursive lookup: its own content, None where it has none, or the fatal error. */
  type OwnView = nat -> Result<Option<Sector>>

  /** The parent chain's recursive lookup: always a sector, or the fatal error. */
  type BaseView = nat -> Result<Sector>

  /** Sector `k` of grain `g` as the snapshot supplies it. */
  function InGrain(own: OwnView, g: nat, gs: nat, k: nat): Result<Option<Sector>> {
    own(g * gs + k)
  }

  /** The outcome of comparing one grain: clean, or dirty from sector `k`, whose content is `current`. */
  datatype Verdict = Clean | DirtyAt(k: nat, current: Sector)

  /**
   * Sector `k` of grain `g` compared (memcmp) with the parent: Some(c) when the snapshot
   * supplies c there and the parent shows something else, None otherwise.
   */
  function Mismatch(own: OwnView, base: BaseView, g: nat, gs: nat, k: nat): (r: Result<Option<Sector>>)
    ensures r.Ok? && r.value.Some? ==>
              InGrain(own, g, gs, k) == Ok(r.value) && base(g * gs + k).Ok? && base(g * gs + k).value != r.value.value
    ensures r == Ok(None) <==> Agrees(own, base, g, gs, k)
  {
    match InGrain(own, g, gs, k)
    case Err(e) => Err(e)
    case Ok(None) => Ok(None)
    case Ok(Some(current)) =>
      match base(g * gs + k)
      case Err(e) => Err(e)
      case Ok(b) => Ok(if b != current then Some(current) else None)
  }

  /**
   * The dirty test of grain `g` from sector `k` of the grain on: the first sector the
   * snapshot supplies whose content differs from the parent's makes the grain dirty.
   */
  function Scan(own: OwnView, base: BaseView, g: nat, gs: nat, k: nat): (r: Result<Verdict>)
    requires k <= gs
    ensures r.Ok? && r.value.DirtyAt? ==> k <= r.value.k < gs
    decreases gs - k
  {
    if k == gs then Ok(Clean)
    else
      match Mismatch(own, base, g, gs, k)
      case Err(e) => Err(e)
      case Ok(None) => Scan(own, base, g, gs, k + 1)
      case Ok(Some(current)) => Ok(DirtyAt(k, current))
  }

  /**
   * The snapshot and the parent show the same content at sector `k` of grain `g`, or the
   * snapshot has none there.
   */
  predicate Agrees(own: OwnView, base: BaseView, g: nat, gs: nat, k: nat) {
    var s := g * gs + k;
    || own(s) == Ok(None)
    || (own(s).Ok? && base(s).Ok? && own(s) == Ok(Some(base(s).value)))
  }

  /**
   * The meaning of the dirty test: Clean exactly when every sector of the grain from `k`
   * on agrees; DirtyAt(k', c) when sector k' is the first that does not, the snapshot
   * supplying c there and the parent something else.
   */
  lemma {:induction false} ScanMeaning(own: OwnView, base: BaseView, g: nat, gs: nat, k: nat)
    requires k <= gs
    ensures Scan(own, base, g, gs, k) == Ok(Clean)
            <==> forall k' :: k <= k' < gs ==> Agrees(own, base, g, gs, k')
    ensures Scan(own, base, g, gs, k).Ok? && Scan(own, base, g, gs, k).value.DirtyAt? ==>
              var v := Scan(own, base, g, gs, k).value;
              && InGrain(own, g, gs, v.k) == Ok(Some(v.current))
              && base(g * gs + v.k).Ok? && base(g * gs + v.k).value != v.current
              && forall k' :: k <= k' < v.k ==> Agrees(own, base, g, gs, k')
    decreases gs - k
  {
    if k < gs {
      ScanMeaning(own, base, g, gs, k + 1);
      if !Agrees(own, base, g, gs, k) {
        assert Scan(own, base, g, gs, k) != Ok(Clean);
      }
    }
  }

  /**
   * The copy of grain `g` into sectors `at`.. of the new file, from sector `k` of the grain
   * on. Each sector is fetched into the one sector buffer, `buf`; a sector the snapshot
   * does not supply leaves the buffer as it was, and the buffer is written either way.
   */
  function Copy(own: OwnView, g: nat, gs: nat, k: nat, at: nat, buf: Sector, w: map<nat, Sector>)
    : (r: Result<map<nat, Sector>>)
    requires k <= gs
    decreases gs - k
  {
    if k == gs then Ok(w)
    else
      match InGrain(own, g, gs, k)
      case Err(e) => Err(e)
      case Ok(x) =>
        var current := if x.Some? then x.value else buf;
        Copy(own, g, gs, k + 1, at, current, w[at + k := current])
  }

  /**
   * What the copy does: it fails exactly when a lookup of the grain fails; otherwise it
   * writes sectors at+k .. at+gs-1 and nothing else, every sector the snapshot supplies
   * lands verbatim at its place in the run, and the rest of the file is kept.
   */
  lemma {:induction false} CopyMeaning(own: OwnView, g: nat, gs: nat, k: nat, at: nat, buf: Sector, w: map<nat, Sector>)
    requires k <= gs
    ensures var r := Copy(own, g, gs, k, at, buf, w);
            && (r.Ok? <==> forall k' :: k <= k' < gs ==> InGrain(own, g, gs, k').Ok?)
            && (r.Ok? ==> forall q :: q in r.value <==> q in w || at + k <= q < at + gs)
            && (r.Ok? ==> forall q :: q in w && !(at + k <= q < at + gs) ==> r.value[q] == w[q])
            && (r.Ok? ==> forall k' :: k <= k' < gs && InGrain(own, g, gs, k').value.Some? ==>
                            r.value[at + k'] == InGrain(own, g, gs, k').value.value)
    decreases gs - k
  {
    if k < gs && InGrain(own, g, gs, k).Ok? {
      var x := InGrain(own, g, gs, k).value;
      var current := if x.Some? then x.value else buf;
      CopyMeaning(own, g, gs, k + 1, at, current, w[at + k := current]);
    }
  }

  /** The zero-initialised grain table of a slot (gtData). */
  function EmptyTable(): (t: seq<uint32>)
    ensures |t| == GT_ENTRIES && forall j :: 0 <= j < GT_ENTRIES ==> t[j] == 0
  {
    seq(GT_ENTRIES, _ => 0)
  }

  /** The state of the loop over the grains of one directory slot: freeSector, gdBase[i], gtData, the file. */
  datatype Slot = Slot(free: uint32, gde: uint32, table: seq<uint32>, written: map<nat, Sector>)

  /** Grain `j` of directory slot `i`: a clean grain changes nothing, a dirty one is claimed. */
  function GrainStep(own: OwnView, base: BaseView, gs: nat, i: nat, j: nat, st: Slot): (r: Result<Slot>)
    requires j < GT_ENTRIES && |st.table| == GT_ENTRIES
    ensures r.Ok? ==> |r.value.table| == GT_ENTRIES
  {
    var g := i * GT_ENTRIES + j;
    match Scan(own, base, g, gs, 0)
    case Err(e) => Err(e)
    case Ok(Clean) => Ok(st)
    case Ok(DirtyAt(_, current)) => Claim(own, gs, g, j, current, st)
  }

  /**
   * A dirty grain `g`, entry `j` of its slot's table: it first gets the slot's grain table
   * if the slot has none yet (32 sectors at freeSector), then its own `gs` sectors at
   * freeSector, which table entry `j` records; the copy of the grain follows.
   */
  function Claim(own: OwnView, gs: nat, g: nat, j: nat, current: Sector, st: Slot): (r: Result<Slot>)
    requires j < GT_ENTRIES && |st.table| == GT_ENTRIES
    ensures r.Ok? ==> |r.value.table| == GT_ENTRIES
  {
    var gde := if st.gde == 0 then st.free else st.gde;
    var at := if st.gde == 0 then Wrap32(st.free + GT_SECTORS) else st.free;
    match Copy(own, g, gs, 0, at, current, st.written)
    case Err(e) => Err(e)
    case Ok(w) => Ok(Slot(Wrap32(at + gs), gde, st.table[j := at], w))
  }

  /** The state of the loop over the directory slots: freeSector, gdBase, the tables so far, the file. */
  datatype Progress = Progress(free: uint32, gd: seq<uint32>, tables: seq<seq<uint32>>, written: map<nat, Sector>)

  /**
   * Directory slots i.. : each slot's grains are processed from an empty table, then the
   * slot is closed. The walk goes grain by grain through FillFrom.
   */
  function RewriteFrom(own: OwnView, base: BaseView, gs: nat, i: nat, p: Progress): (r: Result<Progress>)
    requires i <= |p.gd|
    ensures r.Ok? ==> |r.value.gd| == |p.gd| && |r.value.tables| == |p.tables| + (|p.gd| - i)
    decreases |p.gd| - i, 1, 0
  {
    if i == |p.gd| then Ok(p)
    else FillFrom(own, base, gs, i, 0, Slot(p.free, 0, EmptyTable(), p.written), p)
  }

  /**
   * Grains j.. of directory slot `i` from slot state `st`, then the close of the slot and
   * the slots after it.
   */
  function FillFrom(own: OwnView, base: BaseView, gs: nat, i: nat, j: nat, st: Slot, p: Progress)
    : (r: Result<Progress>)
    requires i < |p.gd| && j <= GT_ENTRIES && |st.table| == GT_ENTRIES
    ensures r.Ok? ==> |r.value.gd| == |p.gd| && |r.value.tables| == |p.tables| + (|p.gd| - i)
    decreases |p.gd| - i, 0, GT_ENTRIES - j
  {
    if j == GT_ENTRIES then RewriteFrom(own, base, gs, i + 1, CloseSlot(p, i, st))
    else
      match GrainStep(own, base, gs, i, j, st)
      case Err(e) => Err(e)
      case Ok(next) => FillFrom(own, base, gs, i, j + 1, next, p)
  }

  /**
   * The end of slot `i`: its directory entry is recorded and, when the slot received a
   * grain table, the table's 32 sectors are written at that entry.
   */
  function CloseSlot(p: Progress, i: nat, st: Slot): (q: Progress)
    requires i < |p.gd| && |st.table| == GT_ENTRIES
    ensures q.free == st.free && |q.gd| == |p.gd| && q.gd[i] == st.gde
    ensures q.tables == p.tables + [st.table]
  {
    var w := if st.gde != 0 then WriteRun(st.written, st.gde, TableSectors(st.table)) else st.written;
    Progress(st.free, p.gd[i := st.gde], p.tables + [st.table], w)
  }

  /** The new extent as written: its header, its grain directory, the written sectors and its length. */
  datatype NewDisk = NewDisk(header: SparseHeader.Header, gd: seq<uint32>, written: map<nat, Sector>, length: nat)

  /** The state the slot loop starts from: freeSector right after the header block, an empty directory. */
  function Start(h: SparseHeader.Header): Progress {
    Progress(Wrap32(DataSectors(h)), seq(h.numGDEntries, _ => 0), [], map[])
  }

  /** The whole grain area, before padding and before the header block is written. */
  function GrainArea(h: SparseHeader.Header, own: OwnView, base: BaseView): (r: Result<Progress>)
    ensures r.Ok? ==> |r.value.gd| == h.numGDEntries && |r.value.tables| == h.numGDEntries
  {
    RewriteFrom(own, base, h.grainSize, 0, Start(h))
  }

  /** The `n` zero sectors of the padding. */
  function ZeroRun(n: nat): (z: seq<Sector>)
    ensures |z| == n && forall q :: 0 <= q < n ==> z[q] == ZeroSector()
  {
    seq(n, _ => ZeroSector())
  }

  /**
   * The padding after freeSector, in the tool's unsigned 32-bit arithmetic: the grain area
   * (from `d`, the sectors of the header block) rounded up to a multiple of 32768 sectors.
   */
  function PadSectors(free: uint32, d: uint32): (pad: uint32)
    ensures pad < PAD_ALIGN && Wrap32(free - d + pad) % PAD_ALIGN == 0
  {
    var x := Wrap32(free - d + (PAD_ALIGN - 1));
    var k := (free - d + (PAD_ALIGN - 1)) / UINT32_LIMIT;
    assert free - d + (PAD_ALIGN - 1) == k * UINT32_LIMIT + x;
    WrapShift(PAD_ALIGN - 1 - x % PAD_ALIGN, -k);
    WrapShift(x - x % PAD_ALIGN, k);
    Wrap32(x - x % PAD_ALIGN + d - free)
  }

  /** Adding a multiple of 2^32 does not change a 32-bit value. */
  lemma WrapShift(a: int, k: int)
    requires 0 <= a < UINT32_LIMIT
    ensures Wrap32(a + k * UINT32_LIMIT) == a
  {
    var b := a + k * UINT32_LIMIT;
    var t := b / UINT32_LIMIT - k;
    assert t * UINT32_LIMIT == a - b % UINT32_LIMIT;
  }

  /**
   * The end of the rewrite: the padding's zero sectors at freeSector, then the header block
   * (the header with the final freeSector, and the new grain directory) at offset 0.
   */
  function Finish(h: SparseHeader.Header, free: uint32, gd: seq<uint32>, written: map<nat, Sector>): NewDisk
    requires SparseHeader.WellFormed(h)
  {
    var pad := PadSectors(free, Wrap32(DataSectors(h)));
    var h2 := h.(freeSector := free);
    var w := WriteRun(WriteRun(written, free, ZeroRun(pad)), 0, HeaderBlock(h2, gd));
    NewDisk(h2, gd, w, free as nat + pad as nat)
  }

  /** The rewrite: the grain area, then the padding and the header block. */
  function Rewritten(h: SparseHeader.Header, own: OwnView, base: BaseView): Result<NewDisk>
    requires SparseHeader.WellFormed(h)
  {
    match GrainArea(h, own, base)
    case Err(e) => Err(e)
    case Ok(p) => Ok(Finish(h, p.free, p.gd, p.written))
  }

  /**
   * The chain the rewrite runs on: a sparse snapshot with a parent, with a decoded header
   * and the grain directory that header describes.
   */
  predicate Rewritable(chain: seq<Extent>) {
    && |chain| > 1
    && chain[0].kind.Sparse?
    && SparseHeader.WellFormed(chain[0].kind.header)
    && |chain[0].kind.gd| == DirectoryWords(chain[0].kind.header)
  }

  /** getSector(info, …, false): the snapshot's own lookup. */
  function ChildView(chain: seq<Extent>): OwnView
    requires |chain| > 0
  {
    (s: nat) => Resolve(chain, s, false)
  }

  /** getSector(info->parent, …, true): the parent chain's lookup, which always finds a sector. */
  function ParentView(chain: seq<Extent>): BaseView
    requires |chain| > 1
  {
    (s: nat) => Found(Resolve(chain[1..], s, true))
  }

  /** A recursive lookup's sector (a recursive lookup never answers None). */
  function Found(r: Result<Option<Sector>>): Result<Sector> {
    match r
    case Err(e) => Err(e)
    case Ok(v) => var sector: Sector := if v.Some? then v.value else ZeroSector(); Ok(sector)
  }

  /** The rewrite of a chain. */
  function RewriteOf(chain: seq<Extent>): Result<NewDisk>
    requires Rewritable(chain)
  {
    Rewritten(chain[0].kind.header, ChildView(chain), ParentView(chain))
  }
}
