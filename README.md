# vmfsSparsePunchZero in Dafny

A model of `vmfsSparsePunchZero`, a tool that compacts a VMFS sparse snapshot. It takes
one snapshot descriptor and reads the descriptor chain (snapshot, parent, grand-parent, …).
When the snapshot is a `VMFSSPARSE` extent with a parent, it writes a new backing file
next to the snapshot's (the backing path with `.new` appended). The new file keeps only
the *dirty* grains, that is, the grains with a sector that the snapshot supplies and whose
content differs from what the parent chain shows. It allocates grain tables and grains
from one `freeSector` counter, pads the file to a multiple of 32768 sectors past the
header block, and writes the header block last. Finally, for every extent of the chain
it reports how many sectors the extent supplies itself.

The model is split into modules:

- `Types`: bytes, `uint32`, 512-byte sectors, `Option`/`Result`, and every fatal condition of
  the tool as an `Error`.
- `SparseHeader`: the packed 2048-byte sparse header and its little-endian codec.
- `DescriptorLine`: the two descriptor-line patterns (extent line and `parentFileNameHint`).
  They are written as a hand-made matcher with the leftmost-alternative reading of the
  regular expressions.
- `Descriptor`: `readHeader`, as a method over a map of descriptor files and a map of
  backing files. It reads the whole chain and proves it `Accepted`; conversely, it returns
  the accepted chain whenever one starts at the descriptor.
- `Extents`: backing files, extents, and the pure resolver (`Own`, `Locate`, `Resolve`)
  that `getSector` computes.
- `SectorCache`: the class `ExtentHandle`, with its read window (`ssCache`, `seCache`,
  `sdCache`) and its one-table cache (`gdeCache`, `gtCache`). Both caches are proved
  transparent: every answer equals the resolver's.
- `Layout`: dataSize, the padding rule, the sectors of a grain table and of the header
  block, and how the resolver reads them back.
- `Compaction`: the rewrite loops of `main` as functions over two lookups: the snapshot's
  own non-recursive lookup and the parent chain's recursive one.
- `Rewrite`: the imperative rewrite. It has nested loops, the `gdBase` and `gtData`
  arrays and the padding loop, and each method is proved equal to its `Compaction`
  function.
- `Allocation`: where things are allocated, as invariants of the grain loop and the slot
  loop, and the freeSector accounting.
- `Equivalence`: the new file, put in place of the snapshot over the same parent chain,
  shows every sector as the snapshot did.
- `Summary`: the closing count loop and the report lines.
- `PunchZero`: `main` as a whole.

Inputs and outputs are parameters:

- The file system is two maps: descriptor path → lines, and backing path → its 512-byte
  sectors.
- The new file is the map of sectors written to it, plus its length.
- The report is a sequence of `SummaryLine` values.
- Every `exit(1)` of the tool is an `Err` carrying the condition's `Error`.

## Model

| member | source | states |
|---|---|---|
| DescriptorLine.ClassifyLine | vmfsSparsePunchZero.cpp:70-75 | a line is read only up to its first NUL, so bytes after a NUL never count; a recognised extent line has an access mode among RW/RDONLY/NOACCESS, a type among VMFS/VMFSSPARSE and a non-empty path without quotes or NUL; a parent line has a non-empty path without quotes or NUL |
| DescriptorLine.CText | vmfsSparsePunchZero.cpp:73-75 | the text the patterns see is the longest NUL-free prefix of the line: a prefix with no NUL, followed in the line by a NUL unless it is the whole line |
| DescriptorLine.ClassifyCut | vmfsSparsePunchZero.cpp:73-75 | cutting a line at any NUL in it does not change how it is classified |
| DescriptorLine.ExtentFields | vmfsSparsePunchZero.cpp:70 | a match of the extent pattern yields an extent line whose fields satisfy the pattern's alternatives |
| DescriptorLine.SizeField | vmfsSparsePunchZero.cpp:70 | the `(\d+)\s+` part keeps the access mode and yields an extent line with a listed type and a quote-free path |
| DescriptorLine.TypeAndPath | vmfsSparsePunchZero.cpp:70 | the type and quoted path part keeps the access mode and the size it is given |
| DescriptorLine.ParentField | vmfsSparsePunchZero.cpp:71 | the parent pattern yields only a parent line or no match, and a parent path is non-empty and quote-free |
| DescriptorLine.Span | vmfsSparsePunchZero.cpp:70-71 | a repeated character class stops exactly at the first character outside the class |
| DescriptorLine.Token | vmfsSparsePunchZero.cpp:70 | an alternation answers a listed alternative that occurs at the position, or None exactly when none does |
| DescriptorLine.Quoted | vmfsSparsePunchZero.cpp:70-71 | a quoted field `"([^"]+)"` is non-empty, contains no quote and consists of characters of the line |
| DescriptorLine.DecimalRoundTrip | vmfsSparsePunchZero.cpp:80 | the size field reads back the number written in decimal (std::stoull of its digits) |
| DescriptorLine.ClassifyRender | vmfsSparsePunchZero.cpp:70-75 | every well-formed extent or parent line (path without quotes or NUL), written out, is classified back to itself |
| DescriptorLine.RenderText | vmfsSparsePunchZero.cpp:73-75 | a written-out well-formed line contains no NUL, so the patterns see all of it |
| DescriptorLine.ClassifyRenderExtent | vmfsSparsePunchZero.cpp:75-82 | a written-out extent line is recognised with its access, size, type and path |
| DescriptorLine.ClassifyRenderParent | vmfsSparsePunchZero.cpp:101-106 | a written-out parentFileNameHint line is recognised as that parent |
| DescriptorLine.ParentNotExtent | vmfsSparsePunchZero.cpp:75-101 | a parent line never matches the extent pattern, so the extent branch does not take it |
| Descriptor.Classify | vmfsSparsePunchZero.cpp:73-75 | every line of the descriptor is classified by itself, in order |
| Descriptor.LastExtent | vmfsSparsePunchZero.cpp:80-82 | the extent fields the descriptor ends with come from its last extent line |
| Descriptor.ParentHint | vmfsSparsePunchZero.cpp:101-106 | the parent named is that of the first parentFileNameHint line, and there is none exactly when no such line exists |
| Descriptor.ReadHeader | vmfsSparsePunchZero.cpp:62-118 | a descriptor that cannot be opened fails with DescriptorOpenFailed; an accepted result is a chain starting at that descriptor where every descriptor describes its extent, every extent line's backing file opens, and each descriptor names a parent of equal size; a descriptor with two extents, two parents, no extent or a zero size is refused; conversely, when an accepted chain starts at the descriptor and never comes back to a descriptor being read, the result is that chain |
| Descriptor.ScanLine | vmfsSparsePunchZero.cpp:73-108 | one line of the loop keeps the loop invariant, and fails only when the descriptor cannot finish its loop |
| Descriptor.ScanExtentLine | vmfsSparsePunchZero.cpp:75-99 | an extent line fails on a duplicate, a size of 2^64 or more or a backing file that does not open; otherwise it becomes the descriptor's extent |
| Descriptor.ScanParentLine | vmfsSparsePunchZero.cpp:100-107 | a second parent line fails; the first reads the parent chain, and fails only when no accepted chain starts at the parent without coming back |
| Descriptor.ScanLines | vmfsSparsePunchZero.cpp:73-108 | the line loop builds the state the lines read so far describe, with every extent line opened, and fails on a second extent line after a non-zero size and on a second parent line; it succeeds when there is no duplicate, every extent line opens with a size below 2^64, and the hinted parent heads an accepted chain that does not come back |
| Descriptor.OpenExtent | vmfsSparsePunchZero.cpp:83-98 | a missing backing file fails with ExtentOpenFailed; a short header or directory read fails with ExtentReadFailed; it succeeds exactly when the file exists and, for VMFSSPARSE, both reads are complete, and then a sparse extent carries the header and directory read from its file; the directory read covers numGDEntries mod 2^30 entries, because the byte count numGDEntries·4 of the pread is a 32-bit product |
| Descriptor.SparseKind | vmfsSparsePunchZero.cpp:88-98 | a VMFSSPARSE extent opens with a decoded (well-formed) header and exactly the directory entries the pread of line 95 fills |
| Descriptor.KindOf | vmfsSparsePunchZero.cpp:83-98 | the extent a line of type VMFS or VMFSSPARSE opens on a file; its meaning is stated by Descriptor.SparseKind and by the OpenExtent row |
| Descriptor.Opens | vmfsSparsePunchZero.cpp:83-98 | opening an extent line's file succeeds; specified by Descriptor.OpenExtent, whose result is Ok exactly when Opens holds |
| Descriptor.ExtentAfterExtent | vmfsSparsePunchZero.cpp:76-79 | an extent line after a non-zero size is a duplicate extent |
| Descriptor.DuplicateExtent | vmfsSparsePunchZero.cpp:76 | a second extent line after one with a non-zero size; specified by ExtentAfterExtent, DuplicateExtentGrows and by ReadHeader, which fails whenever it holds |
| Descriptor.ParentAfterParent | vmfsSparsePunchZero.cpp:102-105 | a parent line after a parent is a duplicate parent |
| Descriptor.DuplicateParent | vmfsSparsePunchZero.cpp:102 | a second parent line after a first; specified by ParentAfterParent, DuplicateParentGrows and by ReadHeader, which fails whenever it holds |
| Descriptor.ExtentStep | vmfsSparsePunchZero.cpp:80-99 | an extent line read while the size is 0 becomes the descriptor's extent and keeps the loop invariant |
| Descriptor.ParentStep | vmfsSparsePunchZero.cpp:106 | the first parent line links the descriptor to the accepted chain read from it |
| Descriptor.OtherStep | vmfsSparsePunchZero.cpp:73-108 | a line matching neither pattern leaves the state unchanged |
| Descriptor.ScannedDescribes | vmfsSparsePunchZero.cpp:109-117 | a fully read descriptor with a non-zero size and a parent of equal size describes its extent |
| Descriptor.HintAppend | vmfsSparsePunchZero.cpp:101-106 | the parent hint is fixed by the first parent line; later lines do not change it |
| Descriptor.FirstParent | vmfsSparsePunchZero.cpp:101-106 | the parent read is the one named by the first parent line |
| Descriptor.OpensAppend | vmfsSparsePunchZero.cpp:83-98 | a line read after extent lines that all opened keeps them all opened, given that it opens too when it is an extent line |
| Descriptor.DescribesUnique | vmfsSparsePunchZero.cpp:75-99 | a descriptor's lines and the files determine the extent it describes |
| Descriptor.LinkedUnique | vmfsSparsePunchZero.cpp:101-106 | a descriptor names one parent or none |
| Descriptor.AcceptedUnique | vmfsSparsePunchZero.cpp:62-118 | two accepted chains that start at the same descriptor are equal |
| Descriptor.AcceptedSuffix | vmfsSparsePunchZero.cpp:106 | every suffix of an accepted chain is accepted |
| Descriptor.AcceptedDistinct | vmfsSparsePunchZero.cpp:100-107 | an accepted chain names every descriptor once |
| Descriptor.AcceptedReachable | vmfsSparsePunchZero.cpp:62-118 | with nothing being read yet, every accepted chain from a descriptor is reachable from it |
| Descriptor.ReachableReady | vmfsSparsePunchZero.cpp:73-108 | a descriptor that heads an accepted chain without coming back lets its line loop finish |
| Descriptor.ChainReady | vmfsSparsePunchZero.cpp:100-107 | the parent of such a chain heads the rest of it without coming back |
| Descriptor.ReachableScanned | vmfsSparsePunchZero.cpp:109-117 | the line loop of that descriptor gathers the chain's first extent size and exactly the rest of the chain as the parent |
| Descriptor.ReachableUnique | vmfsSparsePunchZero.cpp:62-118 | every such chain is the accepted chain the reader returns |
| SparseHeader.Decode | vmfsSparsePunchZero.cpp:15-42 | decoding 2048 bytes yields a header whose byte arrays have their declared sizes |
| SparseHeader.Encode | vmfsSparsePunchZero.cpp:15-42 | a header encodes to exactly 2048 bytes |
| SparseHeader.DecodeEncode | vmfsSparsePunchZero.cpp:15-42 | decoding the encoding of a header gives the header back |
| SparseHeader.EncodeDecode | vmfsSparsePunchZero.cpp:15-42 | encoding the decoding of 2048 bytes gives the bytes back |
| SparseHeader.EncodeFields | vmfsSparsePunchZero.cpp:15-42 | every field lands at its packed offset |
| SparseHeader.EncodeWordFields | vmfsSparsePunchZero.cpp:16-23 | the eight leading words are stored little-endian in declaration order |
| SparseHeader.LayoutTotals | vmfsSparsePunchZero.cpp:15-42 | the packed field offsets add up to 2048 bytes |
| SparseHeader.Le32RoundTrip | vmfsSparsePunchZero.cpp:16-23 | a 32-bit word read back from its four little-endian bytes is the word |
| SparseHeader.FromLe32RoundTrip | vmfsSparsePunchZero.cpp:16-23 | four bytes written back from the word they hold are the same bytes |
| Extents.ReadWords | vmfsSparsePunchZero.cpp:95 | a pread of `count` words succeeds exactly when the file covers them, and then yields each word from its sector and slot |
| Extents.DirectoryWords | vmfsSparsePunchZero.cpp:94-95 | readHeader reads numGDEntries mod 2^30 directory entries, at most numGDEntries, and all of them when numGDEntries·4 < 2^32 |
| Extents.ReadHeaderBlock | vmfsSparsePunchZero.cpp:89-93 | the header pread succeeds exactly when the file holds 2048 bytes; the header then decodes to a well-formed header that encodes back to exactly those bytes |
| Extents.SectorAt | vmfsSparsePunchZero.cpp:120-129 | readSector of one file, as a value: the sector is served exactly when it is inside the file and not in the window [2^32-256, 2^32) of a file of 2^32 sectors or more, where the uint32 seCache wraps to 0; a served sector is the file's sector |
| Extents.Own | vmfsSparsePunchZero.cpp:137-157 | the extent's own level of getSector: an unknown type fails; a VMFS extent always answers data; a sparse answer comes from a non-zero grainSize and a directory index inside the entries read; a data answer of a sparse extent is a 32-bit offset |
| Extents.Locate | vmfsSparsePunchZero.cpp:131-174 | a found sector lies in an extent of the chain; a non-recursive lookup never leaves the snapshot; a recursive lookup never answers "absent" |
| Extents.Resolve | vmfsSparsePunchZero.cpp:131-174 | a successful recursive lookup always yields a sector |
| Extents.FlatResolution | vmfsSparsePunchZero.cpp:132-135 | a VMFS extent supplies sector s at offset s when readSector can serve it; past the end of the file, or in the last 256 sectors below 2^32 of a file of 2^32 sectors or more, the read fails with ExtentReadFailed |
| Extents.FatalResolution | vmfsSparsePunchZero.cpp:137-140 | a sparse extent whose numSectors differs from its size fails with SectorCountMismatch, and an extent of another type fails with UnsupportedType, whatever the sector |
| Extents.SparseResolution | vmfsSparsePunchZero.cpp:141-165 | a short grain-table read fails; entry 1 yields zeros; an entry above 1 yields sector entry + s mod grainSize, summed in 32 bits; a zero directory or table entry is absent without recursion, falls through to the parent with it, and yields zeros at the root; the data read of line 133 fails with ExtentReadFailed exactly where readSector cannot serve the offset |
| Extents.ParentFallThrough | vmfsSparsePunchZero.cpp:158-164 | a sector unallocated in the snapshot resolves as the parent chain resolves it |
| Extents.RecursiveExtendsOwn | vmfsSparsePunchZero.cpp:158-165 | a recursive lookup agrees with the non-recursive one wherever that one errs or finds a sector, and otherwise defers to the parent |
| Extents.OwnershipPerGrain | vmfsSparsePunchZero.cpp:141-157 | two sectors of one grain are both unallocated, both fatal with the same error, or both allocated |
| SectorCache.ExtentHandle.constructor | vmfsSparsePunchZero.cpp:68 | a fresh handle has an empty window and no cached table |
| SectorCache.ExtentHandle.ReadSector | vmfsSparsePunchZero.cpp:120-129 | the answer is the file's sector s; none exactly past the end of the file, or in the window [2^32-256, 2^32) of a file that reaches 2^32 sectors, where the uint32 end of the window wraps to 0; a miss reloads the 256-aligned window holding s; a hit leaves the window unchanged; the window stays a faithful copy of the file |
| SectorCache.ExtentHandle.Refill | vmfsSparsePunchZero.cpp:121-126 | the miss path loads the 256-aligned window holding s; afterwards s is inside the window unless readSector cannot serve it, and the window is a faithful copy of the file |
| SectorCache.WindowReadable | vmfsSparsePunchZero.cpp:124-127 | the aligned window clipped at the end of the file holds s unless its end is 2^32, and then s is in the top window that cannot be served; a window not ending at 2^32 never reaches into that top window |
| SectorCache.ExtentHandle.LoadTable | vmfsSparsePunchZero.cpp:143-147 | the table cache refill succeeds exactly when the whole table can be read, and then caches the on-disk table at that sector |
| SectorCache.Find | vmfsSparsePunchZero.cpp:131-174 | getSector with a null buffer answers what the pure resolver answers for chain[i..]; the caches stay faithful and the read windows unchanged |
| SectorCache.OwnLevel | vmfsSparsePunchZero.cpp:137-157 | the extent's own level through the table cache answers what Extents.Own answers, keeps the chain valid and leaves the read window unchanged |
| SectorCache.GetSector | vmfsSparsePunchZero.cpp:131-174 | getSector with a buffer answers what the pure resolver answers for chain[i..], through both caches; a data read readSector cannot serve fails with ExtentReadFailed |
| SectorCache.LoadTableAt | vmfsSparsePunchZero.cpp:143-147 | the table refill of one handle in the chain keeps every handle valid |
| SectorCache.ReadSectorAt | vmfsSparsePunchZero.cpp:133 | the window read of one handle in the chain answers exactly what Extents.SectorAt says of that file (its sector, or none past the end or in the top window below 2^32) and keeps the chain valid |
| Layout.RoundUp | vmfsSparsePunchZero.cpp:191 | the rounded value is the least multiple of the alignment at or above x |
| Layout.DataSize | vmfsSparsePunchZero.cpp:191 | dataSize is the least multiple of 4096 at or above the header and directory bytes gdOffset·512 + numGDEntries·4 |
| Layout.Pad | vmfsSparsePunchZero.cpp:231 | the padding is below 32768 sectors and brings the grain area, counted from dataSize/512, to a multiple of 32768 sectors |
| Layout.WriteRun | vmfsSparsePunchZero.cpp:213 | a pwrite of a run of sectors adds exactly those sectors and keeps every other sector |
| Layout.Materialize | vmfsSparsePunchZero.cpp:185 | the new file has the given length, holds what was written and holds zeros elsewhere |
| Layout.TableSector | vmfsSparsePunchZero.cpp:224 | byte c of sector m of a written grain table is byte c mod 4 of entry 128m + c/4, little-endian |
| Layout.HeaderBlock | vmfsSparsePunchZero.cpp:192-196 | the header block spans dataSize/512 sectors, each made of the header and directory bytes |
| Layout.TableReadBack | vmfsSparsePunchZero.cpp:224 | a grain table written as 32 sectors reads back as the same 4096 entries |
| Layout.BlockHeaderBytes | vmfsSparsePunchZero.cpp:239 | the header block written at offset 0 reads back as the header |
| Layout.BlockDirectoryWords | vmfsSparsePunchZero.cpp:239 | the header block written at offset 0 reads back the grain directory at gdOffset |
| Layout.DirectoryFits | vmfsSparsePunchZero.cpp:191 | the grain directory ends within dataSize |
| Layout.TimesIsProduct | vmfsSparsePunchZero.cpp:210 | the allocations of n grains of c sectors add up to n·c |
| Compaction.Scan | vmfsSparsePunchZero.cpp:201-204 | a dirty verdict names a sector inside the grain, at or after the start of the scan |
| Compaction.InGrain | vmfsSparsePunchZero.cpp:202 | sector k of grain g as the snapshot supplies it; specified by Equivalence.GrainOf, which shows that every sector s is sector s mod grainSize of grain s / grainSize |
| Compaction.Mismatch | vmfsSparsePunchZero.cpp:202-204 | a reported mismatch is a sector the snapshot supplies whose parent sector differs from it; no mismatch and no error exactly when the sector agrees with the parent |
| Compaction.ScanMeaning | vmfsSparsePunchZero.cpp:201-204 | a grain is clean exactly when every sector the snapshot supplies equals the parent's; a dirty verdict names a supplied sector that differs from the parent's, and every earlier sector agrees |
| Compaction.CopyMeaning | vmfsSparsePunchZero.cpp:211-217 | the copy succeeds exactly when every read succeeds; it writes exactly the grain's sectors at the new run, each holding the snapshot's sector where supplied; nothing else changes |
| Compaction.Copy | vmfsSparsePunchZero.cpp:211-217 | the copy of one grain; specified by Compaction.CopyMeaning, Allocation.CopyPlaces and Allocation.CopyKeeps |
| Compaction.Claim | vmfsSparsePunchZero.cpp:205-210 | claiming a dirty grain, and a table first when the slot has none; specified by Allocation.ClaimAccounting and Allocation.ClaimFills |
| Compaction.GrainStep | vmfsSparsePunchZero.cpp:201-221 | one grain of the grain loop; specified by Allocation.StepFills (and CleanFills, ClaimFills), which keep the slot loop's placement invariant |
| Types.Wrap32 | vmfsSparsePunchZero.cpp:205-210 | uint32 arithmetic is the identity below 2^32 |
| Compaction.CloseSlot | vmfsSparsePunchZero.cpp:223-228 | closing a slot records its directory entry and its table, and keeps freeSector |
| Compaction.GrainArea | vmfsSparsePunchZero.cpp:198-229 | the slot loop yields a directory and a table for every slot |
| Compaction.RewriteFrom | vmfsSparsePunchZero.cpp:198-229 | the slot loop from slot i; specified by Allocation.RewriteFromPlaces: every slot is placed and freeSector stays within 32 bits |
| Compaction.FillFrom | vmfsSparsePunchZero.cpp:199-229 | the grain loop of slot i from grain j; specified by Allocation.FillFromPlaces |
| Compaction.Start | vmfsSparsePunchZero.cpp:190-195 | the start of the slot loop; specified by Allocation.StartFree: freeSector·512 is dataSize |
| Compaction.PadSectors | vmfsSparsePunchZero.cpp:231 | the padding, in 32-bit arithmetic: fewer than 32768 sectors, and with them the grain area from dataSize/512 is a multiple of 32768 sectors modulo 2^32; Allocation.PadExact shows it is Layout.Pad when nothing wraps |
| Compaction.Finish | vmfsSparsePunchZero.cpp:230-242 | the padding and the header block; specified by Allocation.FinishPlaces |
| Compaction.RewriteOf | vmfsSparsePunchZero.cpp:183-244 | the rewrite of a chain; specified by Equivalence.RewriteKeepsContent (the new file shows what the snapshot showed) and Equivalence.NewFileOpens |
| Rewrite.ChildSector | vmfsSparsePunchZero.cpp:202 | the snapshot read through the caches equals the snapshot's own lookup |
| Rewrite.ParentSector | vmfsSparsePunchZero.cpp:203 | the parent read through the caches equals the parent chain's recursive lookup |
| Rewrite.CompareSector | vmfsSparsePunchZero.cpp:202-204 | one step of the dirty test computes the comparison of the two lookups |
| Rewrite.ScanGrain | vmfsSparsePunchZero.cpp:201-204 | the sector loop of a grain computes its dirty test, so ScanMeaning holds of its verdict |
| Rewrite.CopyGrain | vmfsSparsePunchZero.cpp:211-217 | the copy loop writes what Copy describes, so CopyMeaning holds of the new file |
| Rewrite.PadFile | vmfsSparsePunchZero.cpp:232-238 | the padding loop writes `pad` zero sectors from freeSector on |
| Rewrite.WriteGrain | vmfsSparsePunchZero.cpp:201-221 | one grain step of the loop on the gdBase and gtData arrays computes GrainStep; no other directory entry changes |
| Rewrite.ClaimGrain | vmfsSparsePunchZero.cpp:205-217 | a dirty grain updates gdBase[i], gtData[j] and freeSector as Claim does, and copies the grain |
| Rewrite.FillTable | vmfsSparsePunchZero.cpp:199-222 | the grain loop of slot i, from a zeroed table, continues the rewrite exactly as its functions do |
| Rewrite.WriteSlot | vmfsSparsePunchZero.cpp:198-228 | one slot, ending with the table write, advances the rewrite by one slot and leaves later directory entries alone |
| Rewrite.WriteSlots | vmfsSparsePunchZero.cpp:198-229 | the slot loop over gdBase computes the whole grain area |
| Rewrite.WriteGrainArea | vmfsSparsePunchZero.cpp:190-229 | from a zeroed directory and freeSector = dataSize/512, the loops compute GrainArea |
| Rewrite.FinishFile | vmfsSparsePunchZero.cpp:230-242 | the padding and the header block with the final freeSector are written as Finish describes |
| Rewrite.RewriteChain | vmfsSparsePunchZero.cpp:183-244 | the whole rewrite, through both caches, produces RewriteOf of the chain, or the error the first failing read gives |
| Allocation.StartFree | vmfsSparsePunchZero.cpp:190-195 | freeSector starts at roundUp(gdOffset·512 + numGDEntries·4, 4096)/512, right after the header block |
| Allocation.ClaimAccounting | vmfsSparsePunchZero.cpp:205-210 | a slot's first dirty grain takes a 32-sector table at freeSector and the grain follows it; a slot that has a table keeps it and the grain goes at freeSector; freeSector grows by grainSize, plus 32 the first time; no other table entry changes |
| Allocation.EarlierEndBeforeFree | vmfsSparsePunchZero.cpp:205-210 | every table and grain allocated so far ends at or before freeSector, where the next allocation starts, so allocations never overlap |
| Allocation.CleanFills | vmfsSparsePunchZero.cpp:201-204 | a clean grain keeps the grain-loop invariant with table entry 0 |
| Allocation.ClaimFills | vmfsSparsePunchZero.cpp:205-217 | a dirty grain keeps the grain-loop invariant: its run lies in [table end, freeSector), holds the snapshot's data, and no earlier allocation is overwritten |
| Allocation.StepFills | vmfsSparsePunchZero.cpp:201-221 | each grain step keeps the grain-loop invariant |
| Allocation.ClosePlaces | vmfsSparsePunchZero.cpp:223-228 | closing a slot keeps the slot-loop invariant and freeSector within the per-slot budget |
| Allocation.CloseSlotPlaced | vmfsSparsePunchZero.cpp:223-228 | a closed slot's table is on disk at its directory entry, and its grains stay where they were placed |
| Allocation.RewriteFromPlaces | vmfsSparsePunchZero.cpp:198-229 | the slot loop ends with every slot placed and freeSector within budget |
| Allocation.FillFromPlaces | vmfsSparsePunchZero.cpp:200-229 | the rest of the grain loop and the slot loop end with every slot placed |
| Allocation.GrainAreaPlaces | vmfsSparsePunchZero.cpp:190-229 | when the counter cannot wrap, the grain area places every slot between dataSize/512 and freeSector, and freeSector + 32768 stays within 32 bits |
| Allocation.PadExact | vmfsSparsePunchZero.cpp:231 | the 32-bit padding expression equals Pad: below 32768, aligning the grain area from dataSize/512 |
| Allocation.FinishPlaces | vmfsSparsePunchZero.cpp:230-242 | the final header equals the snapshot's except freeSector; the file length is freeSector plus the padding; the padding and header leave the grain area intact |
| Allocation.CopyPlaces | vmfsSparsePunchZero.cpp:211-217 | after the copy, the run holds the grain wherever the snapshot supplies it |
| Allocation.CopyKeeps | vmfsSparsePunchZero.cpp:211-217 | the copy writes nothing below its run |
| Equivalence.NewExtent | vmfsSparsePunchZero.cpp:184 | the new extent has the snapshot's name and size, the new header and directory, and the new file's length |
| Equivalence.AbsentIsUnallocated | vmfsSparsePunchZero.cpp:141-165 | a non-recursive lookup is absent exactly when the extent leaves the sector unallocated |
| Equivalence.AbsentPerGrain | vmfsSparsePunchZero.cpp:141-165 | absence is decided per grain |
| Equivalence.CleanAgrees | vmfsSparsePunchZero.cpp:201-204 | every sector of a clean grain that the snapshot supplies equals the parent's |
| Equivalence.ChainAgrees | vmfsSparsePunchZero.cpp:158-164 | a sector of a clean grain resolves through the chain as through the parent chain |
| Equivalence.DirtySupplied | vmfsSparsePunchZero.cpp:141-157 | every sector of a dirty grain is supplied by the snapshot |
| Equivalence.CopiedResolves | vmfsSparsePunchZero.cpp:211-217 | a supplied sector of a copied grain resolves to the copy |
| Equivalence.PlacedSector | vmfsSparsePunchZero.cpp:205-228 | a placed slot has its table on disk and, for each grain, entry 0 when clean or a copy when dirty |
| Equivalence.SparseSector | vmfsSparsePunchZero.cpp:198-229 | every sector in range resolves through the new extent as through the snapshot |
| Equivalence.CleanNew | vmfsSparsePunchZero.cpp:158-164 | a clean grain is left to the parent in the new file, which shows the same sector |
| Equivalence.DirtyNew | vmfsSparsePunchZero.cpp:211-217 | a dirty grain in the new file yields the snapshot's sector |
| Equivalence.TableOpens | vmfsSparsePunchZero.cpp:224 | a grain table written to the new file reads back |
| Equivalence.BlockOpens | vmfsSparsePunchZero.cpp:239 | the header block written to the new file reads back as the header and the directory |
| Equivalence.NewOwn | vmfsSparsePunchZero.cpp:141-157 | in the new extent, a sector whose directory or table entry is 0 is unallocated |
| Equivalence.NewOwnData | vmfsSparsePunchZero.cpp:153-155 | in the new extent, a sector whose table entry is above 1 is read at entry + s mod grainSize, summed in 32 bits |
| Equivalence.NewData | vmfsSparsePunchZero.cpp:153-155 | a sector an extent holds as data resolves to the file's sector there, recursively or not, when readSector can serve it |
| Equivalence.NewFileOpens | vmfsSparsePunchZero.cpp:239-242 | opening the new file reads back the new header, equal to the snapshot's except freeSector, and the new directory (under Fits, numGDEntries·4 < 2^32, so the 32-bit pread reads every entry) |
| Equivalence.RewriteKeepsContent | vmfsSparsePunchZero.cpp:183-244 | the new extent over the same parent chain resolves every sector as the snapshot did |
| Summary.CountAtMost | vmfsSparsePunchZero.cpp:247 | no more sectors are counted than are looked at |
| Summary.CountPresent | vmfsSparsePunchZero.cpp:247 | a count that finishes is the number of sectors looked at that the lookup finds present |
| Summary.FlatCount | vmfsSparsePunchZero.cpp:247 | a VMFS extent supplies all of its sectors |
| Summary.EmptyDirectoryCount | vmfsSparsePunchZero.cpp:247 | a sparse extent with an all-zero directory supplies none |
| Summary.CountFails | vmfsSparsePunchZero.cpp:247 | the count fails exactly when the lookup of some sector looked at is fatal |
| Summary.CountStops | vmfsSparsePunchZero.cpp:247 | a fatal lookup ends the count with its error, whatever follows |
| Summary.Wrapped | vmfsSparsePunchZero.cpp:246-247 | the uint32 counter is the count modulo 2^32, and an error passes through |
| Summary.Report | vmfsSparsePunchZero.cpp:245-250 | the report succeeds exactly when every line does; it has one line per extent, child first; on failure the error is that of the first failing extent |
| Summary.ReportBounded | vmfsSparsePunchZero.cpp:247-248 | every printed count is at most the extent's size |
| Summary.CountSupplied | vmfsSparsePunchZero.cpp:246-247 | the count loop over (uint32_t)i, through the caches, yields the wrapped count of the extent's own lookup |
| Summary.CountNext | vmfsSparsePunchZero.cpp:247 | one pass of the count loop advances the wrapped count by one sector |
| Summary.CountStep | vmfsSparsePunchZero.cpp:247 | counting one more sector on the 32-bit counter agrees with the unbounded count |
| Summary.Count | vmfsSparsePunchZero.cpp:247 | the count loop as a fold; specified by CountAtMost, CountPresent, CountFails and CountStops |
| Summary.SelfLookup | vmfsSparsePunchZero.cpp:247 | the non-recursive lookup the count loop uses; specified by FlatCount, EmptyDirectoryCount and LineCount |
| Summary.LineOf | vmfsSparsePunchZero.cpp:248 | the report line of extent j succeeds exactly when its count loop does |
| Summary.LineCount | vmfsSparsePunchZero.cpp:247-248 | a report line's count is the number of sectors the extent supplies itself, modulo 2^32 |
| Summary.Summarize | vmfsSparsePunchZero.cpp:245-250 | the loop over the chain prints exactly the report |
| Summary.PrintLine | vmfsSparsePunchZero.cpp:246-248 | one step of the report loop prints the line of that extent and keeps the chain valid |
| PunchZero.OpenHandles | vmfsSparsePunchZero.cpp:68 | one handle with empty caches for each extent of the chain |
| PunchZero.AcceptedRewritable | vmfsSparsePunchZero.cpp:88-98 | an accepted sparse snapshot with a parent has a decoded header and a directory of the numGDEntries mod 2^30 entries the pread of line 95 fills |
| PunchZero.Run | vmfsSparsePunchZero.cpp:176-252 | an unreadable descriptor fails; on success the chain is accepted; the new file exists exactly for a sparse snapshot with a parent, at the backing path plus `.new`, holding the rewrite; the report is that of the chain; conversely, when an accepted chain starts at the descriptor, its rewrite (if any) and its report succeed, the run succeeds on that chain |
| PunchZero.NewFileEquivalent | vmfsSparsePunchZero.cpp:183-244 | when the counter cannot wrap, the new file in the snapshot's place shows every sector as the snapshot did, and its header equals the snapshot's except freeSector |

## Left out

- File I/O itself is left out: the file system is two maps given as parameters. A failed
  `open` of the new file and a failed or short `pwrite` (lines 185-188, 213-216, 224-227,
  234-237, 239-242) are not modelled; every write succeeds. On a fatal error the tool
  leaves a partially written `.new` file, and the model returns only the error.
- Argument handling (`argc != 2`, lines 178-181) and the `printf` formatting of the
  report line are left out; the report is a sequence of `SummaryLine` values.
- `fgets` into a 4096-byte buffer splits a longer line into pieces. The model classifies
  whole lines.
- The `<regex>` engine is replaced by a hand-written matcher with the same
  leftmost-alternative reading. `std::stoull` throwing on a size above 2^64-1 becomes
  the error `SizeOutOfRange`.
- A descriptor that is its own ancestor makes the tool read the cycle again and again.
  Each level keeps its descriptor `FILE*` (line 63) and its extent descriptor (line 83)
  open. Under the usual limit of 1024 open files the tool therefore stops after about a
  thousand levels, either with "failed to open descriptor" or with "failed to open
  extent", and `exit(1)`; under a much higher limit the stack overflows first. The model
  stops at once with `ParentCycle`. An accepted chain never comes back to a descriptor
  (`Descriptor.AcceptedDistinct`), so this error never hides an accepted chain.
- Behaviour the source leaves undefined becomes the error `Undefined`: grainSize 0
  (division by zero in `getSector`), and a directory index past the entries that were
  read. That is an index past numGDEntries (the unchecked `gd[...]` read at line 141),
  or, when numGDEntries ≥ 2^30, an index past the numGDEntries mod 2^30 entries that
  the pread of line 95 fills; the rest of the `new uint32_t[]` array is uninitialised.
- A trailing partial sector of a backing file is dropped: a file is a sequence of whole
  512-byte sectors.
- The caches' lazy `new` on the null-pointer tests (lines 122, 144) is left out: the
  handle allocates both arrays in its constructor. The empty window and `gdeCache` = 0
  make the first access a miss, as the null tests do. A short read that leaves part of
  the window unfilled is modelled as the file ending there.
- Allocation.EarlierEndBeforeFree: non-overlap is stated in its inductive form. Each earlier
  table and grain ends at or before freeSector, and each new claim starts at freeSector
  (ClaimAccounting). Pairwise disjointness of every two allocations is not stated as one
  lemma.
- PunchZero.NewFileEquivalent, Equivalence.RewriteKeepsContent, Equivalence.NewFileOpens:
  the equivalence is proved under `Fits`. Fits says that
  gdOffset ≥ 4 and that dataSize, freeSector and the padding cannot exceed 32 bits, even
  with every grain dirty. Without that bound, `freeSector` wraps in the tool. The model
  computes freeSector and the padding with that wrap-around (`Wrap32`), but nothing is
  proved about a rewrite that wraps, and the new file the model describes then differs
  from the tool's (see the next five lines).
- Rewrite.CopyGrain, Compaction.Copy: the tool writes a grain at byte offset
  `gtData[j] * 512`, with gtData[j] a 32-bit entry (line 213), so the sector it writes
  is wrapped. The model writes at the unbounded sector `at + k`. The two agree under
  `Fits`, where no offset reaches 2^32.
- Rewrite.PadFile: the padding loop writes at `freeSector + i` (line 234), a 32-bit sum.
  The model writes at the unbounded `free + q`; the two agree when free + pad < 2^32,
  which `Fits` gives.
- Rewrite.FinishFile, Compaction.Finish: the tool's new file is as long as its largest
  offset written. The model's length is freeSector + pad, which is that offset only when
  no write wrapped past 2^32 sectors.
- Rewrite.RewriteChain: once freeSector wraps, `Compaction.RewriteOf` (which the method
  is proved equal to) differs from the file the tool writes. Example: gdOffset 4,
  numGDEntries 1, grainSize 2^31, grains 0 and 1 dirty. The tool leaves a file of 2^32
  sectors; the model's `NewDisk` has length 32776.
- PunchZero.Run: its new file is `Compaction.RewriteOf`, so it inherits the difference
  above for a rewrite that wraps.
- Compaction.Start: the tool computes headerSize (`gdOffset * 512`) and dataSize
  (lines 190-191) in 32 bits and divides afterwards. The model computes dataSize without
  bound and wraps only the quotient, and `Layout.HeaderBlock` is built from the unbounded
  dataSize. The two agree when gdOffset·512 + numGDEntries·4 + 4095 < 2^32, which `Fits`
  demands. A header past that bound (gdOffset = 2^23, say) makes the tool place the
  directory at a wrapped offset inside the new header block; that case is not modelled.
- Layout.HeaderBlock: with gdOffset < 4, the tool's directory at `newData + gdOffset * 512`
  (line 196) overlaps the copied 2048-byte header, so the directory writes overwrite header
  fields (numGDEntries, grainSize, freeSector) while the loops still run. When dataSize is
  below 2048, `*newHeader = *info->header` (line 194) also writes past the buffer.
  The model writes the header block after the loops and proves nothing for such a header;
  `Fits` demands gdOffset ≥ 4.
- Compaction.InGrain: the sector number `i * 4096 * grainSize + j * grainSize + k` of
  lines 202-212 is unbounded in the model, where the tool computes it in 32 bits. Under
  `Fits` it stays below 2^32, so the two agree wherever anything is proved.
- Allocation.GrainAreaPlaces: proved under `Fits` for the same reason.
- The padding follows the code (line 231): it counts the grain area from dataSize/512, so
  the file ends dataSize/512 sectors past a multiple of 32768 sectors, and its length is
  not itself a multiple of 32768. `Layout.Pad` and `Allocation.PadExact` state this rule.
- The duplicate-extent check follows the code: it tests the size read so far, so an
  extent line with size 0 followed by another extent line is accepted, and the later
  line wins.
- The uninitialised `result->size` and `result->parent` of `new VMDKInfo{ file }` are
  taken as zero and null, as value-initialisation makes them.
