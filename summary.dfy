/**
 * The closing report: for every extent of the chain, child first, the number of its sectors
 * it supplies itself (a non-recursive getSector with a null buffer), printed as
 * name:count/size type. The counter is 32 bits wide and each sector number is truncated
 * to 32 bits before the lookup, as in the loop of the tool.
 */
module Summary {
  import opened Types
  import opened Extents
  import opened Layout
  import opened SectorCache

  /** One line of the report. */
  datatype SummaryLine = SummaryLine(name: string, count: uint32, size: nat, typeName: string)

  /** The type word of the descriptor's extent line. */
  function TypeName(k: Kind): string {
    match k
    case Flat => "VMFS"
    case Sparse(_, _) => "VMFSSPARSE"
    case Other(t) => t
  }

  /** A lookup of sector numbers: what getSector with a null buffer answers for each. */
  type Lookup = nat -> Result<Location>

  /** The lookup of the count loop: chain[0] alone, the sector number truncated to 32 bits. */
  function SelfLookup(chain: seq<Extent>): Lookup
    requires |chain| > 0
  {
    (s: nat) => Locate(chain, s % UINT32_LIMIT, false)
  }

  /**
   * How many of the sectors 0 .. n-1 the lookup finds present (anything but Absent),
   * counted without bound; the first lookup that is fatal ends the count.
   */
  function Count(look: Lookup, n: nat): Result<nat> {
    if n == 0 then Ok(0)
    else
      match Count(look, n - 1)
      case Err(e) => Err(e)
      case Ok(c) =>
        match look(n - 1)
        case Err(e) => Err(e)
        case Ok(l) => Ok(if l.Absent? then c else c + 1)
  }

  /** The count never exceeds the number of sectors looked at. */
  lemma {:induction false} CountAtMost(look: Lookup, n: nat)
    ensures Count(look, n).Ok? ==> Count(look, n).value <= n
  {
    if n > 0 {
      CountAtMost(look, n - 1);
    }
  }

  /** The sectors among 0 .. n-1 that the lookup finds present. */
  function Present(look: Lookup, n: nat): set<nat> {
    set s: nat | s < n && look(s).Ok? && !look(s).value.Absent?
  }

  /** A count that finishes is the number of present sectors. */
  lemma {:induction false} CountPresent(look: Lookup, n: nat)
    ensures Count(look, n).Ok? ==> Count(look, n) == Ok(|Present(look, n)|)
  {
    if n > 0 {
      CountPresent(look, n - 1);
      if Count(look, n).Ok? {
        var before := Present(look, n - 1);
        if look(n - 1).value.Absent? {
          assert Present(look, n) == before;
        } else {
          assert Present(look, n) == before + {n - 1};
          assert n - 1 !in before;
        }
      }
    }
  }

  /** A flat extent supplies every sector: its count is its size. */
  lemma {:induction false} FlatCount(chain: seq<Extent>, n: nat)
    requires |chain| > 0 && chain[0].kind.Flat?
    ensures Count(SelfLookup(chain), n) == Ok(n)
  {
    if n > 0 {
      FlatCount(chain, n - 1);
      FlatResolution(chain, (n - 1) % UINT32_LIMIT, false);
    }
  }

  /** The count fails exactly when the lookup of one of the sectors looked at is fatal. */
  lemma {:induction false} CountFails(look: Lookup, n: nat)
    ensures Count(look, n).Err? <==> exists s :: 0 <= s < n && look(s).Err?
  {
    if n > 0 {
      CountFails(look, n - 1);
      if Count(look, n - 1).Err? {
        var s :| 0 <= s < n - 1 && look(s).Err?;
        assert 0 <= s < n && look(s).Err?;
      } else if look(n - 1).Err? {
        var s := n - 1;
        assert 0 <= s < n && look(s).Err?;
      } else {
        forall s | 0 <= s < n
          ensures look(s).Ok?
        {
          if s < n - 1 {
          }
        }
      }
    }
  }

  /** A fatal lookup of sector k ends the count with its error, whatever follows. */
  lemma {:induction false} CountStops(look: Lookup, k: nat, n: nat)
    requires k < n && Count(look, k).Ok? && look(k).Err?
    ensures Count(look, n) == Err(look(k).error)
  {
    if n > k + 1 {
      CountStops(look, k, n - 1);
    }
  }

  /** A sparse extent whose grain directory is all zero supplies nothing. */
  lemma {:induction false} EmptyDirectoryCount(chain: seq<Extent>, n: nat)
    requires |chain| > 0 && chain[0].kind.Sparse?
    requires chain[0].kind.header.numSectors == chain[0].size && chain[0].kind.header.grainSize > 0
    requires forall k :: 0 <= k < |chain[0].kind.gd| ==> chain[0].kind.gd[k] == 0
    ensures Count(SelfLookup(chain), n).Ok? ==> Count(SelfLookup(chain), n) == Ok(0)
  {
    if n > 0 {
      EmptyDirectoryCount(chain, n - 1);
    }
  }

  /** The 32-bit counter of the tool: the count modulo 2^32. */
  function Wrapped(r: Result<nat>): (w: Result<uint32>)
    ensures r.Err? ==> w == Err(r.error)
    ensures r.Ok? ==> w.Ok? && w.value as int % UINT32_LIMIT == r.value % UINT32_LIMIT
  {
    match r
    case Err(e) => Err(e)
    case Ok(c) => Ok(c % UINT32_LIMIT)
  }

  /** The line the tool prints for chain[j]: its name, its wrapped count, its size and its type. */
  function LineOf(chain: seq<Extent>, j: nat): (r: Result<SummaryLine>)
    requires j < |chain|
    ensures r.Ok? <==> Count(SelfLookup(chain[j..]), chain[j].size).Ok?
  {
    match Wrapped(Count(SelfLookup(chain[j..]), chain[j].size))
    case Err(e) => Err(e)
    case Ok(c) => Ok(SummaryLine(chain[j].name, c, chain[j].size, TypeName(chain[j].kind)))
  }

  /** The count printed for an extent is the number of its sectors it supplies itself, modulo 2^32. */
  lemma LineCount(chain: seq<Extent>, j: nat)
    requires j < |chain| && LineOf(chain, j).Ok?
    ensures LineOf(chain, j).value.count as int == |Present(SelfLookup(chain[j..]), chain[j].size)| % UINT32_LIMIT
  {
    CountPresent(SelfLookup(chain[j..]), chain[j].size);
  }

  /**
   * The report for chain[i..]: the line of every extent, child first, or the error of the
   * first extent whose count hits a fatal lookup.
   */
  function Report(chain: seq<Extent>, i: nat): (r: Result<seq<SummaryLine>>)
    requires i <= |chain|
    ensures r.Ok? <==> forall j :: i <= j < |chain| ==> LineOf(chain, j).Ok?
    ensures r.Ok? ==> |r.value| == |chain| - i
    ensures r.Ok? ==> forall j :: i <= j < |chain| ==> LineOf(chain, j) == Ok(r.value[j - i])
    ensures r.Err? ==> exists j :: && i <= j < |chain| && LineOf(chain, j) == Err(r.error)
                                   && forall j' :: i <= j' < j ==> LineOf(chain, j').Ok?
    decreases |chain| - i
  {
    if i == |chain| then Ok([])
    else
      match LineOf(chain, i)
      case Err(e) => Err(e)
      case Ok(line) =>
        match Report(chain, i + 1)
        case Err(e) => Err(e)
        case Ok(rest) => Ok([line] + rest)
  }

  lemma ModAtMost(x: nat)
    ensures x % UINT32_LIMIT <= x
  {
  }

  /** Every count of the report is at most the extent's size. */
  lemma ReportBounded(chain: seq<Extent>, k: nat)
    requires Report(chain, 0).Ok? && k < |chain|
    ensures Report(chain, 0).value[k].count as nat <= chain[k].size
  {
    assert LineOf(chain, k) == Ok(Report(chain, 0).value[k - 0]);
    CountAtMost(SelfLookup(chain[k..]), chain[k].size);
    ModAtMost(Count(SelfLookup(chain[k..]), chain[k].size).value);
  }

  /** The count loop of one extent: handle i of the chain, its sectors 0 .. size-1. */
  method CountSupplied(hs: seq<ExtentHandle>, i: nat) returns (r: Result<uint32>)
    requires i < |hs| && ChainValid(hs)
    modifies ChainRepr(hs)
    ensures r == Wrapped(Count(SelfLookup(Chain(hs)[i..]), hs[i].extent.size))
    ensures r.Ok? ==> ChainValid(hs)
  {
    ghost var look := SelfLookup(Chain(hs)[i..]);
    var size := hs[i].extent.size;
    var count: uint32 := 0;
    var k := 0;
    while k < size
      invariant k <= size && ChainValid(hs) && look == SelfLookup(Chain(hs)[i..])
      invariant Wrapped(Count(look, k)) == Ok(count)
    {
      var next := CountNext(hs, i, k, count, look);
      if next.Err? {
        CountErrKeeps(look, k + 1, size);
        return next;
      }
      count := next.value;
      k := k + 1;
    }
    return Ok(count);
  }

  /** One pass of the count loop: look up sector k and count it when present. */
  method CountNext(hs: seq<ExtentHandle>, i: nat, k: nat, count: uint32, ghost look: Lookup)
    returns (r: Result<uint32>)
    requires i < |hs| && ChainValid(hs) && look == SelfLookup(Chain(hs)[i..])
    requires Wrapped(Count(look, k)) == Ok(count)
    modifies ChainRepr(hs)
    ensures r == Wrapped(Count(look, k + 1))
    ensures r.Ok? ==> ChainValid(hs)
  {
    var l := Find(hs, i, k % UINT32_LIMIT, false);
    assert l == look(k);
    if l.Err? {
      return Err(l.error);
    }
    CountStep(look, k, count);
    if l.value.Absent? {
      return Ok(count);
    }
    return Ok((count + 1) % UINT32_LIMIT);
  }

  /** Once the count has failed, looking at more sectors keeps the error. */
  lemma {:induction false} CountErrKeeps(look: Lookup, k: nat, n: nat)
    requires k <= n && Count(look, k).Err?
    ensures Count(look, n) == Count(look, k)
    decreases n - k
  {
    if n > k {
      CountErrKeeps(look, k, n - 1);
    }
  }

  /** One more sector looked at, on the 32-bit counter. */
  lemma CountStep(look: Lookup, k: nat, count: uint32)
    requires Count(look, k).Ok? && count == Count(look, k).value % UINT32_LIMIT && look(k).Ok?
    ensures Count(look, k + 1).Ok?
    ensures Count(look, k + 1).value % UINT32_LIMIT
            == if look(k).value.Absent? then count else (count + 1) % UINT32_LIMIT
  {
    WrapStep(Count(look, k).value);
  }

  /** One more sector counted on the 32-bit counter. */
  lemma WrapStep(c: nat)
    ensures (c % UINT32_LIMIT + 1) % UINT32_LIMIT == (c + 1) % UINT32_LIMIT
  {
  }

  /** The lines already printed, then the rest of the report. */
  function After(lines: seq<SummaryLine>, rest: Result<seq<SummaryLine>>): Result<seq<SummaryLine>> {
    match rest
    case Err(e) => Err(e)
    case Ok(more) => Ok(lines + more)
  }

  /** Printing the line of chain[i] moves it from the rest of the report to the lines printed. */
  lemma ReportStep(chain: seq<Extent>, i: nat, lines: seq<SummaryLine>, line: SummaryLine)
    requires i < |chain| && LineOf(chain, i) == Ok(line)
    ensures After(lines, Report(chain, i)) == After(lines + [line], Report(chain, i + 1))
  {
    if Report(chain, i + 1).Ok? {
      var rest := Report(chain, i + 1).value;
      assert lines + ([line] + rest) == (lines + [line]) + rest;
    }
  }

  /** The report loop: every extent of the chain, child first. */
  method Summarize(hs: seq<ExtentHandle>) returns (r: Result<seq<SummaryLine>>)
    requires ChainValid(hs)
    modifies ChainRepr(hs)
    ensures r == Report(Chain(hs), 0)
  {
    ghost var chain := Chain(hs);
    var lines: seq<SummaryLine> := [];
    var i := 0;
    assert Report(chain, 0).Ok? ==> lines + Report(chain, 0).value == Report(chain, 0).value;
    while i < |hs|
      invariant i <= |hs| && ChainValid(hs)
      invariant Report(chain, 0) == After(lines, Report(chain, i))
    {
      var line := PrintLine(hs, i);
      if line.Err? {
        return Err(line.error);
      }
      ReportStep(chain, i, lines, line.value);
      lines, i := lines + [line.value], i + 1;
    }
    assert lines + [] == lines;
    return Ok(lines);
  }

  /** One pass of the report loop: the count of hs[i] and its line. */
  method PrintLine(hs: seq<ExtentHandle>, i: nat) returns (r: Result<SummaryLine>)
    requires i < |hs| && ChainValid(hs)
    modifies ChainRepr(hs)
    ensures r == LineOf(Chain(hs), i)
    ensures r.Ok? ==> ChainValid(hs)
  {
    var c := CountSupplied(hs, i);
    if c.Err? {
      return Err(c.error);
    }
    r := Ok(SummaryLine(hs[i].extent.name, c.value, hs[i].extent.size, TypeName(hs[i].extent.kind)));
  }
}
