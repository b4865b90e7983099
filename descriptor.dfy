/**
 * Reading a descriptor chain (readHeader). A descriptor is a text file of lines; the one
 * extent line names the backing file, its size and its type, and an optional
 * parentFileNameHint line names the parent descriptor, which is read in turn.
 * The file system is given as two maps: descriptor path to its lines, and backing path
 * to the opened backing file.
 */
module Descriptor {
  import opened Types
  import opened Extents
  import opened DescriptorLine
  import SparseHeader

  /** One more than the largest value std::stoull accepts (an unsigned 64-bit value). */
  const SIZE_LIMIT: nat := 0x1_0000_0000_0000_0000

  /** The classification of every line of a descriptor. */
  function Classify(lines: seq<string>): (cls: seq<Line>)
    ensures |cls| == |lines| && forall k :: 0 <= k < |lines| ==> cls[k] == ClassifyLine(lines[k])
  {
    if lines == [] then [] else [ClassifyLine(lines[0])] + Classify(lines[1..])
  }

  /** An extent line follows an extent line that declared a non-zero size. */
  predicate DuplicateExtent(cls: seq<Line>) {
    exists k1, k2 :: 0 <= k1 < k2 < |cls| && cls[k1].ExtentLine? && cls[k1].size != 0 && cls[k2].ExtentLine?
  }

  /** Two parentFileNameHint lines. */
  predicate DuplicateParent(cls: seq<Line>) {
    exists k1, k2 :: 0 <= k1 < k2 < |cls| && cls[k1].ParentLine? && cls[k2].ParentLine?
  }

  /** The index of the last extent line, the one whose fields the descriptor ends up with. */
  function LastExtent(cls: seq<Line>): (r: Option<nat>)
    ensures r.Some? ==> r.value < |cls| && cls[r.value].ExtentLine?
                        && forall k :: r.value < k < |cls| ==> !cls[k].ExtentLine?
    ensures r.None? ==> forall k :: 0 <= k < |cls| ==> !cls[k].ExtentLine?
  {
    if cls == [] then None
    else if cls[|cls| - 1].ExtentLine? then Some(|cls| - 1)
    else LastExtent(cls[..|cls| - 1])
  }

  /** The path of the first parentFileNameHint line. */
  function ParentHint(cls: seq<Line>): (r: Option<string>)
    ensures r.None? <==> forall k :: 0 <= k < |cls| ==> !cls[k].ParentLine?
    ensures r.Some? ==> exists k :: 0 <= k < |cls| && cls[k] == ParentLine(r.value)
  {
    if cls == [] then None
    else if cls[0].ParentLine? then Some(cls[0].path)
    else
      var r := ParentHint(cls[1..]);
      assert forall k :: 1 <= k < |cls| ==> cls[k] == cls[1..][k - 1];
      r
  }

  /** The extent an extent line of type `typeName` opens on `file`. */
  predicate KindOf(typeName: string, file: BackingFile, kind: Kind) {
    || (typeName == "VMFS" && kind == Flat)
    || (&& typeName == "VMFSSPARSE" && kind.Sparse?
        && ReadHeaderBlock(file) == Some(kind.header)
        && ReadWords(file, kind.header.gdOffset, DirectoryWords(kind.header)) == Some(kind.gd))
  }

  /** A sparse extent opens with a decoded header and the directory entries that header makes readHeader read. */
  lemma SparseKind(typeName: string, file: BackingFile, kind: Kind)
    requires KindOf(typeName, file, kind) && kind.Sparse?
    ensures SparseHeader.WellFormed(kind.header) && |kind.gd| == DirectoryWords(kind.header)
  {
  }

  /** Opening an extent line's backing file succeeds, with the header and grain directory of a VMFSSPARSE one. */
  predicate Opens(files: map<string, BackingFile>, typeName: string, extentPath: string) {
    && extentPath in files
    && (typeName == "VMFSSPARSE" ==>
          && ReadHeaderBlock(files[extentPath]).Some?
          && var h := ReadHeaderBlock(files[extentPath]).value;
          ReadWords(files[extentPath], h.gdOffset, DirectoryWords(h)).Some?)
  }

  /**
   * Every extent line of `cls` has a size an unsigned 64-bit value holds and a backing file
   * that opens: readHeader opens the file of each extent line it meets, not only the last.
   */
  predicate ExtentsOpen(files: map<string, BackingFile>, cls: seq<Line>) {
    forall k :: 0 <= k < |cls| && cls[k].ExtentLine? ==>
      cls[k].size < SIZE_LIMIT && Opens(files, cls[k].typeName, cls[k].path)
  }

  /** What an accepted descriptor says about the extent it describes. */
  predicate Describes(descriptors: map<string, seq<string>>, files: map<string, BackingFile>, e: Extent) {
    && e.name in descriptors
    && var cls := Classify(descriptors[e.name]);
    && !DuplicateExtent(cls) && !DuplicateParent(cls) && ExtentsOpen(files, cls)
    && LastExtent(cls).Some?
    && var l := cls[LastExtent(cls).value];
    && e.size == l.size && 0 < e.size < SIZE_LIMIT
    && e.disk == l.path && e.disk in files && e.file == files[e.disk]
    && KindOf(l.typeName, e.file, e.kind)
  }

  /** The parent chain `tail` that the descriptor of `e` names through its hint (none when empty). */
  predicate Linked(descriptors: map<string, seq<string>>, e: Extent, tail: seq<Extent>) {
    && e.name in descriptors
    && ParentHint(Classify(descriptors[e.name])) == (if |tail| > 0 then Some(tail[0].name) else None)
    && (|tail| > 0 ==> tail[0].size == e.size)
  }

  /**
   * An accepted chain: every descriptor describes its extent and names the next one as its
   * parent, of the same size; the last names no parent.
   */
  predicate Accepted(descriptors: map<string, seq<string>>, files: map<string, BackingFile>, chain: seq<Extent>)
    decreases |chain|
  {
    && |chain| > 0
    && Describes(descriptors, files, chain[0])
    && Linked(descriptors, chain[0], chain[1..])
    && (|chain| > 1 ==> Accepted(descriptors, files, chain[1..]))
  }

  /** `chain` is an accepted chain read from `path` that never comes back to a descriptor of `visited`. */
  predicate Reachable(descriptors: map<string, seq<string>>, files: map<string, BackingFile>,
                      chain: seq<Extent>, path: string, visited: set<string>)
  {
    && Accepted(descriptors, files, chain) && chain[0].name == path
    && forall k :: 0 <= k < |chain| ==> chain[k].name !in visited
  }

  /** The descriptor is refused whatever its files hold. */
  predicate Rejected(cls: seq<Line>) {
    || DuplicateExtent(cls)
    || DuplicateParent(cls)
    || LastExtent(cls).None?
    || cls[LastExtent(cls).value].size == 0
  }

  /**
   * readHeader: read descriptor `path` and, through its parent hint, the rest of the chain.
   * `visited` holds the descriptors already being read further down the chain.
   */
  method ReadHeader(descriptors: map<string, seq<string>>, files: map<string, BackingFile>,
                    path: string, visited: set<string>)
    returns (r: Result<seq<Extent>>)
    ensures path !in descriptors ==> r == Err(DescriptorOpenFailed(path))
    ensures r.Ok? ==> Accepted(descriptors, files, r.value) && r.value[0].name == path
    ensures path in descriptors && Rejected(Classify(descriptors[path])) ==> r.Err?
    ensures forall c :: Reachable(descriptors, files, c, path, visited) ==> r == Ok(c)
    decreases descriptors.Keys - visited, 3
  {
    if path !in descriptors {
      return Err(DescriptorOpenFailed(path));
    }
    if path in visited {
      return Err(ParentCycle(path));
    }
    ReachableReady(descriptors, files, path, visited);
    var scan := ScanLines(descriptors, files, path, visited);
    if scan.Err? {
      return Err(scan.error);
    }
    var st := scan.value;
    ReachableScanned(descriptors, files, path, visited, st);
    if st.size == 0 {
      return Err(NoExtent(path));
    }
    if st.parent.Some? && st.parent.value[0].size != st.size {
      return Err(ParentSizeMismatch(path));
    }
    var e := Extent(path, st.kind, st.disk, st.size, st.file);
    var tail := if st.parent.Some? then st.parent.value else [];
    ScannedDescribes(descriptors, files, e, st);
    assert ([e] + tail)[1..] == tail;
    r := Ok([e] + tail);
    ReachableUnique(descriptors, files, path, visited, r.value);
  }

  /** What readHeader has gathered from the lines read so far. */
  datatype Scan = Scan(size: nat, disk: string, file: BackingFile, kind: Kind, parent: Option<seq<Extent>>)

  /**
   * The line loop of readHeader: classify each line of descriptor `path` in turn, open the
   * extent's backing file and read the parent chain as their lines come.
   */
  method ScanLines(descriptors: map<string, seq<string>>, files: map<string, BackingFile>,
                   path: string, visited: set<string>)
    returns (r: Result<Scan>)
    requires path in descriptors && path !in visited
    ensures r.Ok? ==> Scanned(descriptors, files, Classify(descriptors[path]), r.value)
    ensures r.Ok? ==> ExtentsOpen(files, Classify(descriptors[path]))
    ensures DuplicateExtent(Classify(descriptors[path])) || DuplicateParent(Classify(descriptors[path])) ==> r.Err?
    ensures ScanReady(descriptors, files, path, visited) ==> r.Ok?
    decreases descriptors.Keys - visited, 2
  {
    var lines := descriptors[path];
    ghost var cls := Classify(lines);
    var st := Scan(0, "", BackingFile([]), Other(""), None);
    var n := 0;
    ghost var seen: seq<Line> := [];
    while n < |lines|
      invariant 0 <= n <= |lines| && |seen| == n && forall k :: 0 <= k < n ==> seen[k] == cls[k]
      invariant Scanned(descriptors, files, seen, st) && ExtentsOpen(files, seen)
    {
      var line := ClassifyLine(lines[n]);
      SeenStep(seen, cls, line);
      var next := ScanLine(descriptors, files, path, visited, line, seen, st);
      if next.Err? {
        return next;
      }
      st := next.value;
      seen := seen + [line];
      n := n + 1;
    }
    assert seen == cls;
    r := Ok(st);
  }

  /**
   * One turn of the line loop: an extent line opens its backing file, the first parent line
   * reads the parent chain, and any other line changes nothing. `seen` holds the lines
   * before `line`.
   */
  method ScanLine(descriptors: map<string, seq<string>>, files: map<string, BackingFile>,
                  path: string, visited: set<string>, line: Line, ghost seen: seq<Line>, st: Scan)
    returns (r: Result<Scan>)
    requires path in descriptors && path !in visited
    requires var cls := Classify(descriptors[path]);
             |seen| < |cls| && line == cls[|seen|] && forall k :: 0 <= k <= |seen| ==> (seen + [line])[k] == cls[k]
    requires Scanned(descriptors, files, seen, st) && ExtentsOpen(files, seen)
    ensures r.Ok? ==> Scanned(descriptors, files, seen + [line], r.value) && ExtentsOpen(files, seen + [line])
    ensures r.Err? ==> !ScanReady(descriptors, files, path, visited)
    decreases descriptors.Keys - visited, 1
  {
    match line {
    case ExtentLine(_, _, _, _) =>
      r := ScanExtentLine(descriptors, files, path, visited, line, seen, st);
    case ParentLine(_) =>
      r := ScanParentLine(descriptors, files, path, visited, line, seen, st);
    case OtherLine =>
      OtherStep(descriptors, files, seen, st, line);
      OpensAppend(files, seen, line);
      r := Ok(st);
    }
  }

  /** An extent line: refuse a second one, then open its backing file and take its fields. */
  method ScanExtentLine(descriptors: map<string, seq<string>>, files: map<string, BackingFile>,
                        path: string, visited: set<string>, line: Line, ghost seen: seq<Line>, st: Scan)
    returns (r: Result<Scan>)
    requires line.ExtentLine?
    requires path in descriptors && path !in visited
    requires var cls := Classify(descriptors[path]);
             |seen| < |cls| && line == cls[|seen|] && forall k :: 0 <= k <= |seen| ==> (seen + [line])[k] == cls[k]
    requires Scanned(descriptors, files, seen, st) && ExtentsOpen(files, seen)
    ensures r.Ok? ==> Scanned(descriptors, files, seen + [line], r.value) && ExtentsOpen(files, seen + [line])
    ensures r.Err? ==> !ScanReady(descriptors, files, path, visited)
  {
    ghost var cls := Classify(descriptors[path]);
    if st.size != 0 {
      ExtentAfterExtent(descriptors, files, seen, st, line);
      DuplicateExtentGrows(seen + [line], cls);
      return Err(MultipleExtents(path));
    }
    if line.size >= SIZE_LIMIT {
      return Err(SizeOutOfRange(path));
    }
    var ext := OpenExtent(files, line.typeName, line.path);
    if ext.Err? {
      return Err(ext.error);
    }
    ExtentStep(descriptors, files, seen, st, line, ext.value);
    OpensAppend(files, seen, line);
    r := Ok(st.(size := line.size, disk := line.path, file := ext.value.file, kind := ext.value.kind));
  }

  /** A parent line: refuse a second one, then read the parent chain it names. */
  method ScanParentLine(descriptors: map<string, seq<string>>, files: map<string, BackingFile>,
                        path: string, visited: set<string>, line: Line, ghost seen: seq<Line>, st: Scan)
    returns (r: Result<Scan>)
    requires line.ParentLine?
    requires path in descriptors && path !in visited
    requires var cls := Classify(descriptors[path]);
             |seen| < |cls| && line == cls[|seen|] && forall k :: 0 <= k <= |seen| ==> (seen + [line])[k] == cls[k]
    requires Scanned(descriptors, files, seen, st) && ExtentsOpen(files, seen)
    ensures r.Ok? ==> Scanned(descriptors, files, seen + [line], r.value) && ExtentsOpen(files, seen + [line])
    ensures r.Err? ==> !ScanReady(descriptors, files, path, visited)
    decreases descriptors.Keys - visited, 0
  {
    ghost var cls := Classify(descriptors[path]);
    if st.parent.Some? {
      ParentAfterParent(descriptors, files, seen, st, line);
      DuplicateParentGrows(seen + [line], cls);
      return Err(MultipleParents(path));
    }
    var up := ReadHeader(descriptors, files, line.path, visited + {path});
    if up.Err? {
      FirstParent(cls, |seen|);
      return Err(up.error);
    }
    ParentStep(descriptors, files, seen, st, line, up.value);
    OpensAppend(files, seen, line);
    r := Ok(st.(parent := Some(up.value)));
  }

  /** The state readHeader has built after reading the lines `seen`. */
  ghost predicate Scanned(descriptors: map<string, seq<string>>, files: map<string, BackingFile>,
                          seen: seq<Line>, st: Scan)
  {
    && !DuplicateExtent(seen) && !DuplicateParent(seen)
    && st.size < SIZE_LIMIT
    && (LastExtent(seen).None? ==> st.size == 0)
    && (LastExtent(seen).Some? ==>
          var l := seen[LastExtent(seen).value];
          && st.size == l.size && st.disk == l.path && st.disk in files && st.file == files[st.disk]
          && KindOf(l.typeName, st.file, st.kind))
    && (st.parent.None? <==> ParentHint(seen).None?)
    && (st.parent.Some? ==> Accepted(descriptors, files, st.parent.value)
                            && ParentHint(seen) == Some(st.parent.value[0].name))
  }

  /**
   * Everything the line loop of `path` needs to finish: no duplicate line, every extent line
   * opens, and the hinted parent heads a chain that does not come back to `visited` or `path`.
   */
  ghost predicate ScanReady(descriptors: map<string, seq<string>>, files: map<string, BackingFile>,
                            path: string, visited: set<string>)
  {
    && path in descriptors
    && var cls := Classify(descriptors[path]);
    && !DuplicateExtent(cls) && !DuplicateParent(cls) && ExtentsOpen(files, cls)
    && (ParentHint(cls).Some? ==>
          exists c :: Reachable(descriptors, files, c, ParentHint(cls).value, visited + {path}))
  }

  /** A second extent line after a non-zero size is a duplicate. */
  lemma ExtentAfterExtent(descriptors: map<string, seq<string>>, files: map<string, BackingFile>,
                          seen: seq<Line>, st: Scan, l: Line)
    requires Scanned(descriptors, files, seen, st)
    requires st.size != 0 && l.ExtentLine?
    ensures DuplicateExtent(seen + [l])
  {
    var k := LastExtent(seen).value;
    var post := seen + [l];
    assert post[k] == seen[k] && post[|seen|] == l;
  }

  /** A second parent line is a duplicate. */
  lemma ParentAfterParent(descriptors: map<string, seq<string>>, files: map<string, BackingFile>,
                          seen: seq<Line>, st: Scan, l: Line)
    requires Scanned(descriptors, files, seen, st)
    requires st.parent.Some? && l.ParentLine?
    ensures DuplicateParent(seen + [l])
  {
    var k :| 0 <= k < |seen| && seen[k] == ParentLine(ParentHint(seen).value);
    var post := seen + [l];
    assert post[k] == seen[k] && post[|seen|] == l;
  }

  /** A duplicate among the lines read so far is a duplicate of the whole descriptor. */
  lemma DuplicateExtentGrows(pre: seq<Line>, cls: seq<Line>)
    requires |pre| <= |cls| && forall k :: 0 <= k < |pre| ==> pre[k] == cls[k]
    requires DuplicateExtent(pre)
    ensures DuplicateExtent(cls)
  {
    var k1, k2 :| 0 <= k1 < k2 < |pre| && pre[k1].ExtentLine? && pre[k1].size != 0 && pre[k2].ExtentLine?;
    assert cls[k1] == pre[k1] && cls[k2] == pre[k2];
  }

  /** A duplicate parent among the lines read so far is one of the whole descriptor. */
  lemma DuplicateParentGrows(pre: seq<Line>, cls: seq<Line>)
    requires |pre| <= |cls| && forall k :: 0 <= k < |pre| ==> pre[k] == cls[k]
    requires DuplicateParent(pre)
    ensures DuplicateParent(cls)
  {
    var k1, k2 :| 0 <= k1 < k2 < |pre| && pre[k1].ParentLine? && pre[k2].ParentLine?;
    assert cls[k1] == pre[k1] && cls[k2] == pre[k2];
  }

  /** An extent line read while the size is still 0 becomes the descriptor's extent. */
  lemma ExtentStep(descriptors: map<string, seq<string>>, files: map<string, BackingFile>,
                   seen: seq<Line>, st: Scan, l: Line, ext: Opened)
    requires Scanned(descriptors, files, seen, st)
    requires st.size == 0 && l.ExtentLine? && l.size < SIZE_LIMIT
    requires l.path in files && ext.file == files[l.path] && KindOf(l.typeName, ext.file, ext.kind)
    ensures Scanned(descriptors, files, seen + [l], st.(size := l.size, disk := l.path, file := ext.file, kind := ext.kind))
  {
    ExtentAppend(seen, l);
    HintAppend(seen, l);
    DuplicateParentAppend(seen, l);
  }

  /** The first parent line links the descriptor to the chain read from it. */
  lemma ParentStep(descriptors: map<string, seq<string>>, files: map<string, BackingFile>,
                   seen: seq<Line>, st: Scan, l: Line, up: seq<Extent>)
    requires Scanned(descriptors, files, seen, st) && st.parent.None?
    requires l.ParentLine? && Accepted(descriptors, files, up) && up[0].name == l.path
    ensures Scanned(descriptors, files, seen + [l], st.(parent := Some(up)))
  {
    HintAppend(seen, l);
    NoExtentAppend(seen, l);
    ParentAppend(seen, l);
  }

  /** A line of no interest changes nothing. */
  lemma OtherStep(descriptors: map<string, seq<string>>, files: map<string, BackingFile>,
                  seen: seq<Line>, st: Scan, l: Line)
    requires Scanned(descriptors, files, seen, st)
    requires l.OtherLine?
    ensures Scanned(descriptors, files, seen + [l], st)
  {
    HintAppend(seen, l);
    NoExtentAppend(seen, l);
    DuplicateParentAppend(seen, l);
  }

  /** A fully read descriptor with an extent describes it and names the head of its parent chain. */
  lemma ScannedDescribes(descriptors: map<string, seq<string>>, files: map<string, BackingFile>, e: Extent, st: Scan)
    requires e.name in descriptors
    requires Scanned(descriptors, files, Classify(descriptors[e.name]), st)
    requires ExtentsOpen(files, Classify(descriptors[e.name]))
    requires e == Extent(e.name, st.kind, st.disk, st.size, st.file) && e.size != 0
    requires st.parent.Some? ==> st.parent.value[0].size == e.size
    ensures Describes(descriptors, files, e)
    ensures Linked(descriptors, e, if st.parent.Some? then st.parent.value else [])
  {
  }

  /** An opened extent line: its backing file and, for VMFSSPARSE, header and grain directory. */
  datatype Opened = Opened(file: BackingFile, kind: Kind)

  /**
   * The extent-line branch of readHeader: open the backing file and, for a sparse extent,
   * read its header and grain directory.
   */
  method OpenExtent(files: map<string, BackingFile>, typeName: string, extentPath: string)
    returns (r: Result<Opened>)
    ensures extentPath !in files ==> r == Err(ExtentOpenFailed(extentPath))
    ensures r.Ok? ==> extentPath in files && r.value.file == files[extentPath]
                      && (typeName in EXTENT_TYPES ==> KindOf(typeName, r.value.file, r.value.kind))
    ensures r.Err? ==> r.error in {ExtentOpenFailed(extentPath), ExtentReadFailed(extentPath)}
    ensures r.Ok? <==> Opens(files, typeName, extentPath)
  {
    if extentPath !in files {
      return Err(ExtentOpenFailed(extentPath));
    }
    var f := files[extentPath];
    if typeName == "VMFSSPARSE" {
      var header := ReadHeaderBlock(f);
      if header.None? {
        return Err(ExtentReadFailed(extentPath));
      }
      var gd := ReadWords(f, header.value.gdOffset, DirectoryWords(header.value));
      if gd.None? {
        return Err(ExtentReadFailed(extentPath));
      }
      r := Ok(Opened(f, Sparse(header.value, gd.value)));
    } else {
      r := Ok(Opened(f, Flat));
    }
  }

  /** Appending an extent line when every earlier extent line declared size 0. */
  lemma ExtentAppend(seen: seq<Line>, l: Line)
    requires l.ExtentLine? && !DuplicateExtent(seen)
    requires LastExtent(seen).Some? ==> seen[LastExtent(seen).value].size == 0
    ensures LastExtent(seen + [l]) == Some(|seen|)
    ensures !DuplicateExtent(seen + [l])
  {
    var post := seen + [l];
    forall k1, k2 | 0 <= k1 < k2 < |post| && post[k1].ExtentLine? && post[k2].ExtentLine?
      ensures post[k1].size == 0
    {
      assert post[k1] == seen[k1];
      if k2 < |seen| {
        assert post[k2] == seen[k2];
      } else {
        var last := LastExtent(seen);
        if k1 < last.value {
          assert seen[last.value].ExtentLine?;
        }
      }
    }
  }

  /** The lines read so far, one more. */
  lemma SeenStep(seen: seq<Line>, cls: seq<Line>, line: Line)
    requires |seen| < |cls| && line == cls[|seen|]
    requires forall k :: 0 <= k < |seen| ==> seen[k] == cls[k]
    ensures forall k :: 0 <= k <= |seen| ==> (seen + [line])[k] == cls[k]
  {
  }

  /** Appending the first parent line adds no duplicate parent. */
  lemma ParentAppend(pre: seq<Line>, l: Line)
    requires !DuplicateParent(pre) && ParentHint(pre).None?
    ensures !DuplicateParent(pre + [l])
  {
  }

  /** Appending a line that is not an extent line changes no extent bookkeeping. */
  lemma NoExtentAppend(pre: seq<Line>, l: Line)
    requires !l.ExtentLine?
    ensures LastExtent(pre + [l]) == LastExtent(pre)
    ensures !DuplicateExtent(pre) ==> !DuplicateExtent(pre + [l])
  {
    var post := pre + [l];
    assert post[..|post| - 1] == pre;
    if !DuplicateExtent(pre) {
      forall k1, k2 | 0 <= k1 < k2 < |post| && post[k1].ExtentLine? && post[k2].ExtentLine?
        ensures post[k1].size == 0
      {
        assert pre[k1] == post[k1] && pre[k2] == post[k2];
      }
    }
  }

  /** Appending a line keeps the first parent hint, or makes it the hint when there was none. */
  lemma {:induction false} HintAppend(pre: seq<Line>, l: Line)
    ensures ParentHint(pre).Some? ==> ParentHint(pre + [l]) == ParentHint(pre)
    ensures ParentHint(pre).None? ==> ParentHint(pre + [l]) == (if l.ParentLine? then Some(l.path) else None)
    decreases |pre|
  {
    if pre != [] {
      assert (pre + [l])[1..] == pre[1..] + [l];
      HintAppend(pre[1..], l);
    }
  }

  /** Appending a non-parent line adds no duplicate parent. */
  lemma DuplicateParentAppend(pre: seq<Line>, l: Line)
    requires !l.ParentLine?
    ensures DuplicateParent(pre + [l]) == DuplicateParent(pre)
  {
    var post := pre + [l];
    if DuplicateParent(post) {
      var k1, k2 :| 0 <= k1 < k2 < |post| && post[k1].ParentLine? && post[k2].ParentLine?;
      assert pre[k1] == post[k1] && pre[k2] == post[k2];
    }
    if DuplicateParent(pre) {
      var k1, k2 :| 0 <= k1 < k2 < |pre| && pre[k1].ParentLine? && pre[k2].ParentLine?;
      assert post[k1] == pre[k1] && post[k2] == pre[k2];
    }
  }

  /** Reading one more line keeps every extent line read so far openable. */
  lemma OpensAppend(files: map<string, BackingFile>, seen: seq<Line>, l: Line)
    requires ExtentsOpen(files, seen)
    requires l.ExtentLine? ==> l.size < SIZE_LIMIT && Opens(files, l.typeName, l.path)
    ensures ExtentsOpen(files, seen + [l])
  {
    var post := seen + [l];
    assert forall k :: 0 <= k < |seen| ==> post[k] == seen[k];
  }

  /** The hint is the first parent line. */
  lemma {:induction false} FirstParent(cls: seq<Line>, n: nat)
    requires n < |cls| && cls[n].ParentLine?
    requires forall k :: 0 <= k < n ==> !cls[k].ParentLine?
    ensures ParentHint(cls) == Some(cls[n].path)
    decreases n
  {
    if n > 0 {
      assert cls[1..][n - 1] == cls[n];
      FirstParent(cls[1..], n - 1);
    }
  }

  /** A descriptor's lines and files determine the extent it describes. */
  lemma DescribesUnique(descriptors: map<string, seq<string>>, files: map<string, BackingFile>, e1: Extent, e2: Extent)
    requires Describes(descriptors, files, e1) && Describes(descriptors, files, e2) && e1.name == e2.name
    ensures e1 == e2
  {
  }

  /** An accepted chain is determined by the descriptor it starts from. */
  lemma {:induction false} AcceptedUnique(descriptors: map<string, seq<string>>, files: map<string, BackingFile>,
                                          c1: seq<Extent>, c2: seq<Extent>)
    requires Accepted(descriptors, files, c1) && Accepted(descriptors, files, c2)
    ensures c1[0].name == c2[0].name ==> c1 == c2
    decreases |c1|
  {
    if c1[0].name == c2[0].name {
      DescribesUnique(descriptors, files, c1[0], c2[0]);
      LinkedUnique(descriptors, c1[0], c1[1..], c2[1..]);
      if |c1| > 1 {
        AcceptedUnique(descriptors, files, c1[1..], c2[1..]);
      }
      SameHeadAndTail(c1, c2);
    }
  }

  /** One descriptor names one parent. */
  lemma LinkedUnique(descriptors: map<string, seq<string>>, e: Extent, t1: seq<Extent>, t2: seq<Extent>)
    requires Linked(descriptors, e, t1) && Linked(descriptors, e, t2)
    ensures |t1| > 0 <==> |t2| > 0
    ensures |t1| > 0 ==> t1[0].name == t2[0].name
  {
  }

  lemma SameHeadAndTail<T>(s1: seq<T>, s2: seq<T>)
    requires |s1| > 0 && |s2| > 0 && s1[0] == s2[0]
    requires |s1| > 1 <==> |s2| > 1
    requires |s1| > 1 ==> s1[1..] == s2[1..]
    ensures s1 == s2
  {
    assert s1 == [s1[0]] + s1[1..] && s2 == [s2[0]] + s2[1..];
  }

  /** Every suffix of an accepted chain is accepted. */
  lemma {:induction false} AcceptedSuffix(descriptors: map<string, seq<string>>, files: map<string, BackingFile>,
                                          chain: seq<Extent>, i: nat)
    requires Accepted(descriptors, files, chain) && i < |chain|
    ensures Accepted(descriptors, files, chain[i..])
    decreases i
  {
    if i > 0 {
      AcceptedSuffix(descriptors, files, chain[1..], i - 1);
      assert chain[1..][i - 1..] == chain[i..];
    }
  }

  /** An accepted chain names every descriptor once: a chain that came back would never end. */
  lemma AcceptedDistinct(descriptors: map<string, seq<string>>, files: map<string, BackingFile>, chain: seq<Extent>)
    requires Accepted(descriptors, files, chain)
    ensures forall i, j :: 0 <= i < j < |chain| ==> chain[i].name != chain[j].name
  {
    forall i, j | 0 <= i < j < |chain|
      ensures chain[i].name != chain[j].name
    {
      AcceptedSuffix(descriptors, files, chain, i);
      AcceptedSuffix(descriptors, files, chain, j);
      AcceptedUnique(descriptors, files, chain[i..], chain[j..]);
      assert |chain[i..]| != |chain[j..]|;
    }
  }

  /** A descriptor that heads a reachable chain lets its line loop finish. */
  lemma ReachableReady(descriptors: map<string, seq<string>>, files: map<string, BackingFile>,
                       path: string, visited: set<string>)
    ensures forall c :: Reachable(descriptors, files, c, path, visited) ==> ScanReady(descriptors, files, path, visited)
  {
    forall c: seq<Extent> | Reachable(descriptors, files, c, path, visited)
      ensures ScanReady(descriptors, files, path, visited)
    {
      ChainReady(descriptors, files, c, path, visited);
    }
  }

  /** The head of a reachable chain is ready to be scanned: its parent chain is reachable in turn. */
  lemma ChainReady(descriptors: map<string, seq<string>>, files: map<string, BackingFile>,
                   c: seq<Extent>, path: string, visited: set<string>)
    requires Reachable(descriptors, files, c, path, visited)
    ensures ScanReady(descriptors, files, path, visited)
  {
    if |c| > 1 {
      AcceptedDistinct(descriptors, files, c);
      TailAvoids(c, visited);
      assert Reachable(descriptors, files, c[1..], c[1].name, visited + {c[0].name});
    }
  }

  /** With distinct names, the tail of a chain avoids its head as well as what the chain avoids. */
  lemma TailAvoids(c: seq<Extent>, visited: set<string>)
    requires |c| > 1 && forall k :: 0 <= k < |c| ==> c[k].name !in visited
    requires forall i, j :: 0 <= i < j < |c| ==> c[i].name != c[j].name
    ensures forall k :: 0 <= k < |c[1..]| ==> c[1..][k].name !in visited + {c[0].name}
  {
    forall k | 0 <= k < |c[1..]|
      ensures c[1..][k].name !in visited + {c[0].name}
    {
      assert c[1..][k] == c[k + 1];
    }
  }

  /** The line loop of a descriptor that heads a reachable chain gathers that chain's head and parent. */
  lemma ReachableScanned(descriptors: map<string, seq<string>>, files: map<string, BackingFile>,
                         path: string, visited: set<string>, st: Scan)
    requires path in descriptors && Scanned(descriptors, files, Classify(descriptors[path]), st)
    ensures forall c: seq<Extent> :: Reachable(descriptors, files, c, path, visited) ==>
              && st.size == c[0].size
              && (st.parent.Some? <==> |c| > 1)
              && (st.parent.Some? ==> st.parent.value == c[1..])
  {
    forall c: seq<Extent> | Reachable(descriptors, files, c, path, visited)
      ensures st.size == c[0].size && (st.parent.Some? <==> |c| > 1) && (st.parent.Some? ==> st.parent.value == c[1..])
    {
      if st.parent.Some? && |c| > 1 {
        AcceptedUnique(descriptors, files, st.parent.value, c[1..]);
      }
    }
  }

  /** Nothing visited yet: every accepted chain from `path` is reachable. */
  lemma AcceptedReachable(descriptors: map<string, seq<string>>, files: map<string, BackingFile>, path: string)
    ensures forall c: seq<Extent> :: Accepted(descriptors, files, c) && c[0].name == path ==> Reachable(descriptors, files, c, path, {})
  {
  }

  /** Every reachable chain from `path` is the accepted chain `chain` that starts there. */
  lemma ReachableUnique(descriptors: map<string, seq<string>>, files: map<string, BackingFile>,
                        path: string, visited: set<string>, chain: seq<Extent>)
    requires Accepted(descriptors, files, chain) && chain[0].name == path
    ensures forall c :: Reachable(descriptors, files, c, path, visited) ==> c == chain
  {
    forall c: seq<Extent> | Reachable(descriptors, files, c, path, visited)
      ensures c == chain
    {
      AcceptedUnique(descriptors, files, c, chain);
    }
  }
}
