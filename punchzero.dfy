/**
 * The tool as a whole: read the chain of descriptor `path`; when the snapshot is sparse and
 * has a parent, write the compacted copy of its backing file next to it (the backing path
 * with ".new" appended); then report, for every extent of the chain, how many sectors it
 * supplies itself.
 */
module PunchZero {
  import opened Types
  import opened Extents
  import opened SectorCache
  import opened Layout
  import opened Compaction
  import opened Rewrite
  import opened Summary
  import opened Equivalence
  import Descriptor
  import SparseHeader

  /** The file the rewrite creates: its path and what was written to it. */
  datatype NewFile = NewFile(path: string, disk: NewDisk)

  /** What one run produces: the new file when the snapshot was rewritten, and the report lines. */
  datatype Outcome = Outcome(newFile: Option<NewFile>, report: seq<SummaryLine>)

  /** A handle with empty caches for every extent of the chain. */
  method OpenHandles(chain: seq<Extent>) returns (hs: seq<ExtentHandle>)
    ensures Chain(hs) == chain && ChainValid(hs)
    ensures fresh(ChainRepr(hs))
  {
    hs := [];
    var k := 0;
    while k < |chain|
      invariant k <= |chain| && |hs| == k
      invariant forall m :: 0 <= m < k ==> hs[m].extent == chain[m]
      invariant ChainValid(hs)
      invariant forall m :: 0 <= m < k ==> fresh(hs[m]) && fresh(hs[m].window) && fresh(hs[m].table)
    {
      var h := new ExtentHandle(chain[k]);
      hs := hs + [h];
      k := k + 1;
    }
    assert Chain(hs) == chain;
    forall o | o in ChainRepr(hs)
      ensures fresh(o)
    {
      var m :| 0 <= m < |hs| && (o == hs[m] || o == hs[m].window || o == hs[m].table);
    }
  }

  /** An accepted chain whose snapshot is sparse and has a parent can be rewritten. */
  lemma AcceptedRewritable(descriptors: map<string, seq<string>>, files: map<string, BackingFile>, chain: seq<Extent>)
    requires Descriptor.Accepted(descriptors, files, chain) && |chain| > 1 && chain[0].kind.Sparse?
    ensures Rewritable(chain)
  {
    assert Descriptor.Describes(descriptors, files, chain[0]);
    var cls := Descriptor.Classify(descriptors[chain[0].name]);
    var l := cls[Descriptor.LastExtent(cls).value];
    Descriptor.SparseKind(l.typeName, chain[0].file, chain[0].kind);
  }

  /**
   * main: readHeader on `path`, the rewrite when the snapshot is sparse with a parent, then
   * the report over the whole chain. `chain` is the chain readHeader accepted.
   */
  method Run(descriptors: map<string, seq<string>>, files: map<string, BackingFile>, path: string)
    returns (r: Result<Outcome>, ghost chain: seq<Extent>)
    ensures path !in descriptors ==> r == Err(DescriptorOpenFailed(path))
    ensures r.Ok? ==> Descriptor.Accepted(descriptors, files, chain) && chain[0].name == path
    ensures r.Ok? ==> Report(chain, 0) == Ok(r.value.report)
    ensures r.Ok? ==> (r.value.newFile.Some? <==> chain[0].kind.Sparse? && |chain| > 1)
    ensures r.Ok? && r.value.newFile.Some? ==>
              && Rewritable(chain)
              && r.value.newFile.value.path == chain[0].disk + ".new"
              && RewriteOf(chain) == Ok(r.value.newFile.value.disk)
    ensures forall c: seq<Extent> :: Descriptor.Accepted(descriptors, files, c) && c[0].name == path
                        && (c[0].kind.Sparse? && |c| > 1 ==> Rewritable(c) && RewriteOf(c).Ok?)
                        && Report(c, 0).Ok?
                        ==> r.Ok? && chain == c
  {
    Descriptor.AcceptedReachable(descriptors, files, path);
    var read := Descriptor.ReadHeader(descriptors, files, path, {});
    if read.Err? {
      return Err(read.error), [];
    }
    var extents := read.value;
    chain := extents;
    var hs := OpenHandles(extents);
    var newFile: Option<NewFile> := None;
    if extents[0].kind.Sparse? && |extents| > 1 {
      AcceptedRewritable(descriptors, files, extents);
      var disk := RewriteChain(hs);
      if disk.Err? {
        return Err(disk.error), chain;
      }
      newFile := Some(NewFile(extents[0].disk + ".new", disk.value));
    }
    var report := Summarize(hs);
    if report.Err? {
      return Err(report.error), chain;
    }
    r := Ok(Outcome(newFile, report.value));
  }

  /**
   * The compaction theorem: when every allocation fits the 32-bit freeSector counter, the
   * new file, put in the snapshot's place over the same parent chain, shows every sector as
   * the snapshot did, and opens with the snapshot's header apart from freeSector.
   */
  lemma NewFileEquivalent(chain: seq<Extent>, nf: NewFile)
    requires Rewritable(chain) && Fits(chain[0].kind.header) && RewriteOf(chain) == Ok(nf.disk)
    ensures forall s :: Resolve([NewExtent(chain[0], nf.disk)] + chain[1..], s, true) == Resolve(chain, s, true)
    ensures nf.disk.header == chain[0].kind.header.(freeSector := nf.disk.header.freeSector)
  {
    forall s
      ensures Resolve([NewExtent(chain[0], nf.disk)] + chain[1..], s, true) == Resolve(chain, s, true)
    {
      RewriteKeepsContent(chain, nf.disk, s);
    }
    NewFileOpens(chain, nf.disk);
  }
}
