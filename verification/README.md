# A model of the EROFS writer, reader and copier

EROFS images are a binary format: a superblock, inodes at 32-byte slots, directories as blocks of sorted dirents, file data in
whole blocks, beside the inode or behind a chunk map that may point at other devices. The repository writes such images from a tree
of names, reads them back, and copies one image's files into another by rewriting block maps only. It also carries a slow reference
reader (`internal/erofsspec`). This project models the parts where those meet and proves that they agree.

`dafny verify dfyconfig.toml` checks everything.

## How it is laid out

- **Directories.** `Names`, `DirCodec`, `DirWriter`: names, the dirent codec, packing and sizing. `DirBlocks`, `DirSearch`: the reader's
  two-level binary search. `KernelLookup`: the reference's search that skips already matched prefixes. `DirReader`: `ReadDir` in pages.
  `DirLookup`: both searches of a written directory.
- **File content.** `BlockMap`: devices, mapped ranges, chunk maps, and `FileByte`, the byte a file has at a position. `DataReader`: the block
  loader. `Reference`: extents. `FileReader`: an open file, its reads and its direct range, against the reference. `FlatRanges`: the ranges Stat
  reports for a flat file.
- **Copies.** `Chunks`, `CopyFile`: runs built from flat, indexed and block-mapped files. `CopyBack`: runs remapped, serialised and read back.
  `Ranges`, `RangeMap`, `RangeBack`: declared ranges to runs to indexes to ranges. `CopyWalk`, `CopyOrder`: the copy's walk over
  directories and the order it goes in. `DeviceMask`: the id mask as bits. `CopyImage`: a copied file written in an image and read through it.
- **Layers.** `Overlay`: what a copy or a merge makes of the map of names, visit by visit, against the overlay of two trees. `CopyTree`: a whole image
  copied into a Writer.
- **The Writer's tree.** `Namespace`: the map from paths to inodes and what each operation does to it. `Entries`: the tree of entries and its
  invariant. `Unlink`, `Growth`, `AliasWalk`, `Subtrees` (in `Subtree.dfy`), `TreeFacts`: what each step does. `WriterTree`: the class with every
  operation. `WriterRuns`: any run of operations. `BuildTree`: the walk at Close.
- **Images.** `Layout`: the planner. `Serialise`: data blocks and metadata. `InodeCodec`: inodes. `ImageWriter`: a whole image written and read
  back. `Xattrs`, `XattrWriter`: the two attribute parsers and the writer. `Resolve`, `ResolveLimits`: path resolution and its limits.
- **From operations to paths read.** `ImagePaths`: a path walked in a written image, directory by directory. `TreeItems`: a Writer's tree as the items
  of an image. `TreeImage`: any run of operations, the Writer closed, and a path looked up in the image. `ImageResolve`: resolution through symlinks over
  an image's bytes. `TreeResolve`: the same in a published tree. `TreeCopies`: a copied file read by its path in a published tree.
- `Bytes`, `Arith`: bytes, little-endian fields, division.

Heap entries of the Writer are records in a store addressed by index, so that sharing (`linkTo`, `parent`, `children`) is explicit; an inode's
`serial` is a name for its identity and is not on disk. Devices are byte sequences of known length. Errors keep the class the
source returns where a caller can tell them apart.

A source image's device table is *well formed* when mapped ranges are disjoint, start at or past the image's extent, and each device holds the blocks
its slot counts, at least one. The block loader maps each block by itself while runs and ranges are mapped by their start; on other tables the two may
differ (`Reference.LongDevice` is an instance).

## What does not hold, and exactly when it does

- `addChild` puts an entry whose directory is missing under the root (mkfs.go:1903-1906). The copy of an image calls `placeEntry` without
  `ensureParent` (mkfs_image.go:675), so a whiteout in the same layer can leave that gap. `Growth.AddedInv`: the tree stays sound if and only if the
  path's directory is there; `WriterRuns.OrphanFails` is an instance.
- `placeEntry` keeps the children of a directory it overwrites with a file (mkfs.go:2101-2105). `Growth.RewrittenInv`: the tree stays sound if and only if
  the new entry is a directory or nothing live was in the old one; `WriterRuns.FileOverDirectoryFails` is an instance.
- `Link`'s comment says that removing the original name of a linked file is an error at Close (mkfs.go:371-372). The code hands the inode to the least
  remaining name, and `BuildTree.Build` never reports a missing target. The model follows the code.
- A shared attribute larger than a block is refused by the reader and taken by the copy. `Xattrs.LoadWindowed`: the two parsers agree if and only if
  every shared entry fits a block or the copy refuses too; `XattrWriter.OversizedShared` is an instance.
- A relative symlink target that climbs above the root is refused by the reader when met below the root, folded when met in the root directory, and stops
  at the root in the reference. `ResolveLimits.ClimbsExactly`: no resolution is refused for it if and only if no link a path can try, in a directory
  below the root, goes up more levels than that directory is deep; `ResolveLimits.ClimbsOut` is an instance. Without such links, `ResolveLimits.ResolveFinds`
  gives back to the reader whatever the reference finds, as long as the path and the targets taken in fit `PATH_MAX`.
- The budget of path components is said to refuse nothing a real file system can express (erofs.go:1594-1598). It is counted for 255 paths, and a resolution
  that follows all 255 links walks 256. `ResolveLimits.OutOfStepsLate`: the budget runs out only once all 255 links have been followed;
  `ResolveLimits.BudgetSpent` is an instance where the reference finds the file.
- A device that reports no bytes and counts no blocks bounds nothing. `FileReader.BoundIsExact`: an accepted range lies on its device if and only if the
  device is not such a one; `FileReader.EmptyDevice` is an instance.
- A flat-inline tail whose inode head lies past the image is no data for the reader, while the reference places it on the device mapped there.
  `Reference.TailAgrees`: the two agree on a tail if and only if the head lies in the image or no mapped range covers it; `Reference.TailOnDevice` is an
  instance. The reader's own theorems need no such condition.
- The reference reads each extent on the device its first byte is on, so it errs on a file that crosses from one mapped range into the next, which the
  block loop reads. `Reference.ReadAt`: it succeeds if and only if every byte denotes something and no extent splits between devices;
  `Reference.SplitFile` is an instance.
- The Writer takes declared ranges whose chunk map has up to 2^27 entries (writer.go:131-156); Stat refuses an index over 64 MiB.
  `RangeBack.RangesBack`: what was written reads back as the ranges given, coalesced and renumbered, if and only if the map is one chunk or has at most
  64 MiB of entries (`SmallMap`), and is refused otherwise; `RangeBack.LongMap` is an instance.
- A copy has an index entry per block unless it is one run, so a long sparse file with a small map becomes one whose copy Stat refuses, while its
  bytes still read back. `CopyImage.WriteCopy`: Stat takes the copy if and only if `SmallCopy` holds of the source; `CopyImage.LongHole` is an instance.
- A file in one run of more than 2^15 blocks is copied under a chunk of 2^16 blocks or more, which the copy's own parser refuses (mkfs_image.go:835-838).
  `CopyImage.WriteCopy`: a copy can be copied again if and only if `SmallCopy` holds and the source is no such run; `CopyImage.LargeRun` is an
  instance.
- Stat reports ranges for an inline tail that crosses its block, which reads refuse (erofs.go:2365-2375, 1353-1356). `FlatRanges.RangesMean`: the ranges
  hold the file's bytes if and only if no tail crosses its block; `FlatRanges.CrossingTail` is an instance.
- Merge's comment says that whiteouts delete from prior layers (mkfs.go:159-166). A marker is obeyed when the walk meets it, so it also takes an
  entry of its own layer that the directory lists before it; names such as `.a` sort before every marker. `Overlay.OverlayExactly`: the names left are
  those of the overlay if and only if no marker takes an entry visited before it; `Overlay.FirstInFolders` says that on each directory's own order;
  `Overlay.OwnEntryLost` is an instance.

## Model

| member | source | states |
|---|---|---|
| `DirCodec.FitIsGreedy` | writer.go:836-853 | what a dirent block takes fits, and one entry more would not |
| `DirCodec.TakenFits` | writer.go:855-859 | a block always takes an entry, so the branch for a single entry too large is unreachable for names up to 255 bytes |
| `DirCodec.HeaderFields` | writer.go:862-880 | every name offset fits 16 bits and every field of every dirent reads back |
| `DirCodec.DirRoundTrip` | internal/erofsspec/dir.go:73-141 | decoding the written blocks yields the entry list, in order |
| `DirWriter.SortSorts` | layout.go:244-262 | entries with distinct names come out strictly increasing, the same ones that went in |
| `DirWriter.DirEntriesSorted` | writer.go:805-831 | a directory's list with its dot entries is sorted and encodable whatever order its children came in |
| `DirWriter.FillBlock` | writer.go:862-880 | the scratch buffer ends up holding exactly the block's encoding |
| `DirWriter.PackBlock` | writer.go:836-860 | the packing loop takes exactly the greedy count and computes the bytes it needs |
| `DirWriter.WriteBlock` | writer.go:836-898 | the next block's bytes, padded when more follow |
| `DirWriter.WriteDirents` | writer.go:805-900 | the bytes emitted are the encoding of the sorted entry list |
| `DirWriter.CalcDirentDataSize` | layout.go:265-318 | the size planned from names alone is the length later written, for every assignment of nids |
| `DirWriter.WrittenDirectory` | writer.go:805-900 | a written directory decodes to itself, its parent and its children, sorted |
| `DirBlocks.DecodedOf` | internal/erofsspec/dir.go:45-70 | decoding a directory is decoding each of its blocks |
| `DirBlocks.FoundAt` | erofs.go:2743-2822 | in a sorted directory a name stands at one place and the linear scan finds it there |
| `DirBlocks.MissingFrom` | erofs.go:2743-2822 | a name missing from the one candidate block is missing from the directory |
| `DirSearch.DirentAgrees` | erofs.go:2869-2911 | the reader cuts the same names out of a block as readdir's rules do |
| `DirSearch.LookupBlock` | erofs.go:2913-2950 | the in-block binary search finds a name if and only if it is there |
| `DirSearch.ReaderLookup` | erofs.go:2743-2822 | on any directory that decodes sorted, the two-level search returns what a linear scan returns, hit or miss |
| `KernelLookup.DirNameCmp` | internal/erofsspec/dir.go:286-313 | the comparison from a matched prefix on decides the order and reports the new common prefix |
| `KernelLookup.SkipIsSound` | internal/erofsspec/dir.go:246-281 | every name between the bounds shares the first min(startprfx, endprfx) bytes with the target |
| `KernelLookup.WindowNarrows` | internal/erofsspec/dir.go:246-281 | either outcome of a prefix-skipping comparison leaves a smaller window that still brackets the target |
| `KernelLookup.FindTargetDirent` | internal/erofsspec/dir.go:246-281 | the in-block search returns the entry a scan of the block returns |
| `KernelLookup.Lookup` | internal/erofsspec/dir.go:157-219 | on any strictly sorted directory the two-stage search returns what a linear scan returns, hit or miss |
| `DirLookup.WrittenScan` | writer.go:805-900 | scanning a written directory finds the dot entries and each child, and nothing else |
| `DirLookup.LookupBoth` | erofs.go:2743-2822 | both searches over the bytes of any written directory agree and find exactly its entries |
| `DirReader.PageDecodes` | erofs.go:2590-2660 | ReadDir reads every accepted block to the entries readdir's rules give |
| `DirReader.Dir.constructor` | erofs.go:2553-2563 | a freshly opened directory has everything still to deliver |
| `DirReader.Dir.DeliverBlock` | erofs.go:2600-2720 | one block's delivery: nothing lost or repeated against what remained, and no entry past the block's slab |
| `DirReader.Dir.ReadDir` | erofs.go:2564-2734 | the next n visible entries, or all that remain; what was returned plus what remains is what remained before |
| `DirReader.Dir.ReadPages` | erofs.go:2564-2734 | any sequence of counts returns the listing without its dot entries in order, each once, and all of it once the end is reported |
| `BlockMap.RangeReads` | erofs.go:809-846 | a range placed by its start and bounded on its device is placed right byte by byte, on a well-formed table |
| `BlockMap.BlockMaps` | erofs.go:809-846 | mapped ranges are whole blocks, so no block is split between devices |
| `DataReader.LoadBlockMeans` | erofs.go:1280-1565 | a block load succeeds if and only if every byte it covers denotes something, and then it is those bytes |
| `DataReader.ChunkLoad` | erofs.go:1368-1506 | the chunked path, which checks the chunk's address and then the block's, loads what the chunk index says |
| `DataReader.FlatLoad` | erofs.go:1300-1367 | the flat path, which bounds by device or image, loads what the start block says |
| `Reference.ReadAt` | internal/erofsspec/data.go:177-217 | the reference's extent-by-extent read returns the file's bytes, and succeeds if and only if every byte denotes something, no extent splits between devices and no tail crosses its block |
| `Reference.FlatMeans` | internal/erofsspec/data.go:41-76 | a flat file's extents give each position its byte, blocks and tail |
| `Reference.ChunkMeans` | internal/erofsspec/data.go:113-160 | a chunk's extent gives each position its byte |
| `Reference.TailAgrees` | erofs.go:1332-1366 | reader and reference agree on the tail beside an inode if and only if its head lies in the image or is not mapped |
| `Reference.TailOnDevice` | internal/erofsspec/data.go:41-76 | an instance of a tail only the reference reads |
| `Reference.LongDevice` | internal/erofsspec/data.go:177-217 | an instance of a device longer than its slot says, read on by the reference alone |
| `Reference.SplitFile` | internal/erofsspec/data.go:177-217 | an instance of a file over two mapped ranges, which the block loop reads and the reference does not |
| `FileReader.OpenDirectChunks` | erofs.go:980-1070 | taken exactly when the index is one run a device holds; then every byte is the device's |
| `FileReader.OpenDirect` | erofs.go:934-1070 | the direct range is taken exactly when one range holds the file, and then gives every byte of it |
| `FileReader.BoundIsExact` | erofs.go:869-901 | an accepted range lies on its device, except on one that reports nothing and counts nothing |
| `FileReader.EmptyDevice` | erofs.go:869-901 | an instance of a range accepted on a device with nothing to read |
| `FileReader.File.constructor` | erofs.go:1876-1886 | a freshly opened file is at its start |
| `FileReader.File.DirectReader` | erofs.go:2004-2011 | the memo, once set, is a sound direct range or none |
| `FileReader.File.Read` | erofs.go:1892-1948 | whichever path is taken, the file's next bytes: exactly as many as fit, up to the end or the first block with a byte no device holds |
| `FileReader.File.ReadMany` | erofs.go:1892-1948 | reads of any sizes concatenate to the file's bytes from where they began, as many as they ask for together and the blocks give |
| `FileReader.AvailAll` | erofs.go:1892-1948 | the rest of a file is delivered whole if and only if every byte of it denotes something |
| `FileReader.ReadLikeReference` | internal/erofsspec/data.go:163-175 | reads of any sizes give the reference's content up to the sum of the sizes, one whole read gives all of it; where the reference errs, the bytes before the first block that cannot be loaded |
| `FlatRanges.RangesMean` | erofs.go:2337-2394 | the ranges of a flat file cover it, and hold its bytes where they say if and only if no inline tail crosses its block |
| `FlatRanges.CrossingTail` | erofs.go:2365-2376 | an instance of ranges for a tail no read gives |
| `Chunks.DeviceChunks` | mkfs_image.go:1081-1104 | blocks split into runs of at most 65535 keep every block's target, holes included |
| `Chunks.ExtendTarget` | mkfs_image.go:872-921 | joining a chunk to the last run changes no block's target |
| `Chunks.WriteChunkIndexes` | writer.go:733-800 | the walk over runs emits, for each chunk, the index of the block the runs give its first block |
| `CopyFile.PlacedByte` | mkfs_image.go:1212-1231 | a chunk placed and bounded on a device holds there the bytes its address denotes |
| `CopyFile.ParseChunks` | mkfs_image.go:813-938 | accepted exactly when its entries are there, few enough and every chunk placeable; then the runs give every block its place |
| `CopyFile.ParseBlockMap` | mkfs_image.go:1119-1160 | the same for a map of 4-byte addresses, through run splitting |
| `CopyFile.FlatRun` | mkfs_image.go:1180-1208 | the longest run from a block that stays on one device in consecutive blocks: the block after it is elsewhere or past the file |
| `CopyFile.FlatChunks` | mkfs_image.go:1165-1176 | a flat file's blocks as runs on the devices its mapped ranges land them on |
| `CopyFile.CopyBlocks` | mkfs_image.go:553-588 | a flat file's whole blocks copied: exact acceptance, and every byte where the run says |
| `CopyFile.CopyRegular` | mkfs_image.go:547-659 | accepted exactly under `CopyAccepted`, the 64 MiB limit on either map format included; then runs and tail stand for every byte of the file, block for block, and are one run exactly where the file is |
| `CopyBack.RemapChunkDevices` | mkfs.go:2351-2385 | each data run's device moved by the source's id and nothing else; refused if and only if some id is undeclared |
| `CopyBack.MaskKeeps` | erofs.go:295-295 | device ids up to the table's size survive the mask |
| `CopyBack.LimitsRepresent` | writer.go:147-156 | no data block within limits is written as the null address |
| `CopyBack.EntryReadsBack` | erofs.go:1403-1440 | an index entry reads back as the target it was written from |
| `CopyBack.TargetReadsBack` | writer.go:733-800 | every block's target reads back from the map, also with the larger chunk size of a contiguous file |
| `CopyBack.CopyPreservesContent` | mkfs_image.go:547-659 | a copied file's every byte, read back over the source's image and devices, is the source file's |
| `CopyBack.MinChunkBits` | writer.go:209-217 | the least chunk size that holds the file in one chunk, capped at 31 bits |
| `CopyBack.CheckLimits` | writer.go:147-156 | accepts exactly runs that end at or below the last 32-bit block |
| `CopyBack.FollowsFit` | mkfs.go:2351-2385 | the copy's runs can be written if and only if the file's own chunks, or its mapped blocks, can be named |
| `CopyBack.CopyToIndexes` | mkfs_image.go:547-659 | copy, remap, limits and serialisation together: taken if and only if the source can be copied and each chunk or block is on a declared device within 32-bit addresses; then read back byte for byte from any image that holds the result |
| `Ranges.CoalesceMeans` | erofs.go:2513-2530 | merging neighbours keeps the total and the place of every position and reaches a normal form |
| `Ranges.NormalUnique` | erofs.go:2416-2421 | two normal forms that place every position alike are the same list |
| `RangeMap.BuildChunkDataRanges` | erofs.go:2423-2531 | succeeds if and only if every chunk is placeable and the index is at most 64 MiB; covers the size, no two neighbours mergeable, each position where the block loader reads it |
| `RangeMap.ChunksFromRanges` | mkfs.go:2407-2497 | accepts exactly aligned lists that sum to the size; the runs place every position where the ranges do, and can be written exactly where the ranges can be named |
| `RangeBack.SingleRange` | mkfs.go:1550-1555 | one data range is one run through 65535-block splitting, so the larger chunk size is sound |
| `RangeBack.CoalescedLayout` | erofs.go:2423-2531 | the source's ranges, renumbered and coalesced, are the layout of the written file |
| `RangeBack.ReadBack` | erofs.go:2423-2531 | ranges to runs to indexes to ranges yields exactly the input's maximal coalescing with the device renumbered if the index is at most 64 MiB, and is refused if it is more |
| `RangeBack.RangesToIndexes` | mkfs.go:1543-1556 | the write side of that: taken if and only if the list is acceptable and every data range is on a declared device and ends within 32-bit addresses; then any image that holds the map has that layout, and its index is within 64 MiB if and only if `SmallMap` holds of the list |
| `RangeBack.RangesBack` | erofs.go:2423-2531 | both sides together: the list comes back, coalesced and renumbered, if and only if it is taken and `SmallMap` holds |
| `RangeBack.LongMap` | erofs.go:2423-2531 | an instance: a list the Writer takes and Stat refuses |
| `DeviceMask.LeastPower` | erofs.go:415-426 | the bit smearing gives the least power of two above the table's size |
| `DeviceMask.MaskIs` | erofs.go:295-295 | masking an id with the bits computed is the remainder the block map uses |
| `DeviceMask.KeepsIds` | erofs.go:295-295 | masking keeps every id of the table |
| `CopyWalk.QueueChildren` | mkfs_image.go:755-772 | a directory's entries are queued under their paths, unless one's path is too long |
| `CopyWalk.Walk` | mkfs_image.go:216-386 | ends on every graph; accepts if and only if the root is a directory, what is reachable decodes as the type its entry says under a usable path, and every directory is listed once; visits exactly the reachable paths, breadth first; expands no directory twice |
| `CopyWalk.ReachedTwice` | mkfs_image.go:501-509 | meeting an expanded directory again means some directory is listed twice |
| `CopyWalk.OnePath` | mkfs_image.go:221-228 | in an accepted image every directory has one path |
| `CopyOrder.WalkOrderly` | mkfs_image.go:216-386 | nothing is visited before its directory, nothing deep before anything less deep, and no path twice |
| `CopyOrder.SameFolder` | mkfs_image.go:755-772 | entries of one directory are visited in the directory's own order |
| `Overlay.OverlayExactly` | mkfs_image.go:230-252 | merging a layer leaves the layer's names and those below that no marker takes, if and only if no marker takes an entry visited before it |
| `Overlay.FirstInFolders` | mkfs_image.go:230-252 | that condition holds if and only if in every directory visited no entry stands before a marker that names it |
| `Overlay.OwnEntryLost` | mkfs_image.go:230-252 | an instance: an opaque directory's own entry lost, in a directory in name order |
| `Overlay.MergeMeans` | mkfs_image.go:409-680 | where markers come first and no further name meets a directory: names below keep their inodes, each name brought has a new one with the layer's type and metadata, and two share it if and only if they share a nid with several links |
| `CopyTree.PlaceVisit` | mkfs_image.go:230-680 | one visit on the Writer does to its map what it does to the map alone; refused if and only if a directory is in a further name's way |
| `CopyTree.PlaceAll` | mkfs_image.go:230-680 | all visits in order: refused if and only if some further name meets a directory no marker took; else the overlay, names and inodes |
| `CopyTree.Copy` | mkfs_image.go:125-680 | a whole image copied or merged into a Writer: refused if and only if what it sees is no tree or a further name meets a directory; else the overlay over what was there, the Writer sound |
| `CopyTree.CopyNew` | mkfs_image.go:125-680 | an image copied into a new Writer: taken if and only if it is a tree; then the Writer has exactly the paths lookups in the image reach, each with its type and metadata, sharing inodes exactly as the image does |
| `Entries.Climb` | mkfs.go:1902-1911 | every ancestor of an attached name is registered, live and a directory: byPath is what the root reaches |
| `Unlink.AliasDroppedInv` | mkfs.go:1965-1974 | dropping an alias keeps the invariant and removes exactly its name |
| `Unlink.OwnerDroppedInv` | mkfs.go:1965-1980 | dropping an owner no attached name needs keeps the invariant; a directory's descendants hang until removed |
| `Unlink.HandedInv` | mkfs.go:2013-2044 | an heir takes the inode over: counts exact, chains of length one, every other name denotes what it did |
| `AliasWalk.Walk` | mkfs.go:1988-2007 | the search from the root finds exactly the attached aliases, each once |
| `AliasWalk.Least` | mkfs.go:2015-2018 | the heir's path is least as strings compare |
| `AliasWalk.HeirUnique` | mkfs.go:1981-1984 | one heir is least, whatever order the links were made in |
| `AliasWalk.JoinInjective` | mkfs.go:2015-2018 | distinct paths are distinct strings |
| `Growth.AddedInv` | mkfs.go:1902-1911 | attaching an entry keeps the invariant if and only if its directory is registered and a directory |
| `Growth.AddedView` | mkfs.go:1902-1911 | the map gains exactly that path |
| `Growth.RewrittenInv` | mkfs.go:2099-2107 | rewriting an entry in place keeps the invariant if and only if nothing live is left in what is no directory any more |
| `Subtrees.Reach` | mkfs.go:1944-1954 | a live name below a directory lies at or below one of its live children, mid-removal too |
| `Subtrees.Close` | mkfs.go:1915-1928 | once a removed directory is empty the tree is whole again |
| `WriterTree.Writer.constructor` | mkfs.go:100-120 | a new Writer is the root alone |
| `WriterTree.Writer.AddChild` | mkfs.go:1902-1911 | the entry is attached, indexed and counted by the inode it names |
| `WriterTree.Writer.EnsureParent` | mkfs.go:1865-1898 | the missing directories are made, topmost first, unless the nearest existing ancestor is no directory |
| `WriterTree.Writer.Make` | mkfs.go:245-271 | Create, Mkdir, Symlink and Mknod do to the map what their contract says, with the same errors |
| `WriterTree.Writer.Link` | mkfs.go:373-412 | the new name denotes the inode the old one does; every refusal as the source orders them |
| `WriterTree.Writer.SetMeta` | mkfs.go:2516-2530 | metadata set through any name is seen through all names of the inode and no other |
| `WriterTree.Writer.PlaceEntry` | mkfs.go:2086-2108 | the path names a new inode, groups it left keep theirs; sound if and only if nothing lived in a directory that is one no more |
| `WriterTree.Writer.Place` | mkfs.go:1606-1711 | the same after the length checks and ensureParent; at the root the metadata is taken over and the link count kept |
| `WriterTree.Writer.AddAlias` | mkfs.go:2050-2077 | the path becomes a name of the target's inode whatever it named, a directory excepted |
| `WriterTree.Writer.PlaceLink` | mkfs.go:1606-1690 | the path becomes a further name after the length checks and ensureParent |
| `WriterTree.Writer.RemoveAll` | mkfs.go:635-669 | exactly one subtree goes; a missing path is fine unless it runs through a non-directory |
| `WriterTree.Writer.Remove` | mkfs.go:595-629 | exactly one name goes; a directory with live children is refused |
| `WriterTree.Writer.RemoveTree` | mkfs.go:1915-1928 | a whiteout takes away exactly the subtree, and survivors denote what they did |
| `WriterTree.Writer.RemoveChildren` | mkfs.go:1932-1941 | an opaque whiteout takes away exactly what lies below |
| `WriterTree.Writer.UnlinkEntry` | mkfs.go:1965-1980 | one name goes, the invariant holds, every attached name denotes what it did, and an inode left without its owner goes to the least alias |
| `WriterTree.Writer.RemoveSubtree` | mkfs.go:1944-1954 | all below an entry goes and nothing else, with owners and aliases inside and outside it |
| `WriterTree.Writer.PromoteAlias` | mkfs.go:1987-2044 | the inode is handed to the least attached alias, or to none when none is attached |
| `WriterTree.Writer.TakeOver` | mkfs.go:2020-2037 | the heir takes the record, the other aliases point at it, the old owner is a husk |
| `WriterRuns.Do` | mkfs.go:245-669 | one operation does to the tree what it does to the map |
| `WriterRuns.Run` | mkfs.go:245-669 | every permitted run of operations keeps the invariant and means the same run on the map, errors included |
| `WriterRuns.OrphanFails` | mkfs.go:1903-1906 | an entry attached without its directory breaks the tree |
| `WriterRuns.FileOverDirectoryFails` | mkfs.go:2101-2105 | a file placed over a directory with a child breaks the tree |
| `TreeFacts.MapSound` | mkfs.go:1902-2108 | every name lies in a directory, names of one inode agree on it, directories have one name |
| `BuildTree.LinkCount` | mkfs.go:1378-1395 | two plus the live subdirectories, or the number of live names, unless set by hand |
| `BuildTree.NamesCount` | mkfs.go:1378-1395 | an owner's count is the number of dirents naming its inode |
| `BuildTree.ListDir` | mkfs.go:2160-2207 | one directory's live children become dirents and its subdirectories are queued |
| `BuildTree.Build` | mkfs.go:2114-2231 | each live name is emitted once, no alias lacks its target, and every inode gets the count of its dirents or subdirectories |
| `Layout.PlaceOne` | layout.go:76-172 | one inode's slot: aligned, its core in one block, inline data in the core's block, right after the last unless the core would cross |
| `Layout.PlanLayout` | layout.go:33-182 | the whole plan: slots in order from the start, gaps only to keep cores whole, data inline wherever it fits |
| `Layout.PlanUnique` | layout.go:71-175 | the rules a plan keeps leave one plan |
| `Layout.Disjoint` | layout.go:71-175 | no two slots overlap |
| `Layout.Distinct` | layout.go:71-78 | nids are distinct and increasing |
| `Layout.MapWhereRead` | layout.go:183-204 | a chunk map starts exactly where the reader's rounding to 8 looks |
| `Serialise.MetadataBytes` | writer.go:384-402 | the computed size is where the plan ends |
| `Serialise.WriteMetadata` | writer.go:500-627 | no overrun, no padding longer than a block, each part at its nid times 32, whole blocks in all |
| `Serialise.AssignAddrs` | writer.go:343-362 | data and tails get consecutive blocks in order |
| `Serialise.WriteData` | writer.go:905-998 | each entry's bytes and tail lie in the blocks assigned |
| `Serialise.WriteImage` | writer.go:233-266 | superblock area, data and metadata assembled; everything where planned; the length is the superblock's count times the block size |
| `Serialise.RegionsDisjoint` | writer.go:343-362 | data, tails and metadata take separate blocks |
| `InodeCodec.RoundTrip` | erofs.go:2150-2216 | an inode whose fields fit decodes as it was written, compact or extended |
| `ImageWriter.PayloadLength` | layout.go:265-318 | a payload's length does not depend on nids |
| `ImageWriter.CoreFits` | layout.go:83-85 | the choice of a compact inode never truncates a field or loses a time |
| `ImageWriter.AreaCounted` | format.go:92-105 | the count field says the area's size exactly and is never one |
| `ImageWriter.InlineServes` | layout.go:108-172 | inline data is read back whole through the reader's block rules |
| `ImageWriter.PlainServes` | writer.go:905-960 | flat-plain data is read back whole and its start is never the null address |
| `ImageWriter.MapServes` | writer.go:543-558 | the chunk map and copied tail are where the reader looks |
| `ImageWriter.WriteItems` | writer.go:131-266 | plan, addresses, data and metadata together: refused if and only if a link has no target, a map too many entries, a run ends past 32-bit addresses, an attribute area is bad or oversized, or the one plan needs too many blocks; else every inode decodes, its attributes parse back, and every file, link and directory reads back byte for byte |
| `Xattrs.Split` | format.go:14-22 | the first prefix that matches, and the rest of the name |
| `Xattrs.ParseBuffer` | mkfs_image.go:945-1046 | the whole-buffer parser gives what the area says, duplicates and bad entries refused |
| `Xattrs.TakeValue` | xattr.go:260-294 | a value spanning any number of windows is the area's bytes |
| `Xattrs.TakeEntry` | xattr.go:205-294 | one inline entry through the moving window is the entry in the area, or refused with it |
| `Xattrs.WindowEntry` | xattr.go:139-186 | a shared entry read through one block is the entry if and only if it fits |
| `Xattrs.LoadShared` | xattr.go:101-189 | the shared references through reloaded windows |
| `Xattrs.LoadWindowed` | xattr.go:82-314 | the windowed parser agrees with the whole-buffer one when every shared entry fits a block, and refuses otherwise |
| `XattrWriter.WriteXattrs` | writer.go:685-727 | the bytes are the header and each entry padded to four |
| `XattrWriter.CalcXattrSize` | format.go:76-87 | the size planned is the size written |
| `XattrWriter.WrittenReads` | xattr.go:82-314 | parsing what was written gives the attributes back |
| `XattrWriter.CountExact` | format.go:92-98 | the count encodes the size exactly and a written area is never its header alone |
| `XattrWriter.RoundTrip` | writer.go:685-727 | both parsers invert the writer for every valid attribute list |
| `XattrWriter.OversizedShared` | xattr.go:173-176 | a shared entry larger than a block: the copy takes it, the reader does not |
| `Resolve.WalkConcat` | internal/erofsspec/dir.go:359-395 | the reference's walk may be broken at any component |
| `Resolve.UpWalks` | internal/erofsspec/dir.go:359-414 | climbing from a plain path leads back along it and stops at the root |
| `Resolve.RebaseAgrees` | erofs.go:1806-1838 | restarting a link at the root leads where the reference goes, refused if and only if it climbs out from below the root |
| `Resolve.ResolveAgrees` | erofs.go:1714-1867 | on a tree-shaped image what the reader finds the reference finds, and where it finds nothing, or runs out of links, neither does the reference; the other ends are `ResolveLimits`' |
| `Resolve.RunStraight` | erofs.go:1738-1858 | the path a resolution ends on, looked up plainly from the root, leads to the inode it ends on |
| `Resolve.EveryPlace` | erofs.go:1738-1858 | at every iteration the current path, looked up plainly from the root, leads to the current nid |
| `Resolve.ResolvePath` | erofs.go:1714-1867 | the loop gives exactly the outcome of its moves, and the path it ends on leads to the inode it returns |
| `ResolveLimits.ClimbsExactly` | erofs.go:1829-1838 | no resolution is refused for climbing if and only if no link a path can try climbs out of a directory below the root |
| `ResolveLimits.NeverClimbs` | erofs.go:1829-1838 | without such a link no path, followed to its end or not, is refused for climbing |
| `ResolveLimits.ClimbRefused` | erofs.go:1829-1838 | the path to such a link is refused |
| `ResolveLimits.ClimbsOut` | erofs.go:1829-1838 | an instance: the reference finds the file, the reader refuses the link |
| `ResolveLimits.ResolveFinds` | erofs.go:1714-1867 | on a tree without such links the reader finds what the reference finds, if the path and a target for each link followed fit PATH_MAX |
| `ResolveLimits.OutOfStepsLate` | erofs.go:1584-1598 | the component budget runs out only once all 255 links have been followed |
| `ResolveLimits.BudgetSpent` | erofs.go:1584-1598 | an instance where it runs out and the reference finds the file |
| `CopyImage.CopyItem` | mkfs_image.go:547-659 | a copied file as an item of the destination: taken and within limits if and only if the source can be copied and named |
| `CopyImage.CopyServed` | writer.go:733-800 | in the image written, over any devices that hold the source, the copied item has the source file's byte at every position |
| `CopyImage.WriteCopy` | writer.go:219-266 | copy and writer together: exact acceptance of both, the source file's content in the image returned, and exactly when Stat takes the copy and when it can be copied again |
| `CopyImage.ReadCopy` | erofs.go:1892-1948 | the copy read through the image in pieces of any sizes is the source's bytes, as many as asked for |
| `CopyImage.CopyAgain` | mkfs_image.go:813-938 | the copy is taken by Stat if and only if its index is small enough, and by a further copy if and only if also its chunk is |
| `CopyImage.LongHole` | mkfs_image.go:813-938 | an instance of a long hole whose copy Stat refuses |
| `CopyImage.LargeRun` | mkfs_image.go:835-838 | an instance of a run whose copy cannot be copied again |
| `ImagePaths.ReadNode` | erofs.go:2056-2080 | the inode at an item's nid decodes to the item's fields and its file reads as the item's bytes, or for a copied file as the bytes behind its runs |
| `ImagePaths.EntryFound` | erofs.go:2743-2822 | searching a written directory's bytes finds the nid and type of the item it lists under a name, and nothing for any other |
| `ImagePaths.FindPath` | erofs.go:1714-1867 | a path without links walked in the image leads to the nid of the item it leads to among the items, or fails where there is none |
| `ImagePaths.ReadPath` | erofs.go:1714-1867 | and what is read there is that item |
| `TreeItems.CountMeans` | mkfs.go:1378-1395 | the link count given an inode is, on the map of names, its number of names, or two and the directories inside |
| `TreeItems.Collect` | layout.go:33-66 | the walk lists each inode once, in path order with each directory's children by name, and passes over aliases |
| `TreeItems.ItemsRooted` | mkfs.go:2160-2207 | every directory's entries have distinct proper names and the type of the inode they lead to |
| `TreeItems.PathsLead` | mkfs.go:2114-2231 | lookups among the items lead exactly where the tree's paths do, aliases to their owner |
| `TreeImage.Items` | mkfs.go:2114-2231 | the items are the tree's inodes in the order collected, each with the count the walk gives it |
| `TreeImage.Publish` | mkfs.go:895-956 | Close: every path of the map is an item with its metadata and link count, nothing else is, and the writer's refusals are the only ones |
| `TreeImage.PublishAndRead` | mkfs.go:895-956 | a path looked up in the image is found if and only if the map has it, with the map's metadata, link count and content |
| `TreeImage.RunPresentable` | mkfs.go:245-956 | whatever operations with proper names are run, the tree left is one Close can write |
| `TreeImage.RunAndRead` | mkfs.go:245-956 | any permitted run of operations with proper names, Close, and any path looked up in the image: found if and only if the same run on the map leaves it, as the map has it |
| `TreeCopies.ReadCopied` | mkfs.go:895-956 | a copied file anywhere in a published tree, read by its path over devices that hold the source, is the source file byte for byte |
| `ImageResolve.LookUp` | erofs.go:2743-2822 | one name looked up in a directory's bytes is the step a resolution takes among the items |
| `ImageResolve.ResolveImage` | erofs.go:1714-1867 | resolving a path over the image's bytes, links followed, ends exactly as resolution on the items' graph does: the same inode, or the same error |
| `TreeResolve.ShownIsTree` | erofs.go:1714-1867 | a published tree is one on which reader and reference agree |
| `TreeResolve.PublishAndResolve` | erofs.go:1714-1867 | any path resolved in a published image through its symlinks ends where the walk on the map's own tree ends, at a path the map has and its inode, or with that walk's error |

## Left out

- Superblock checks, feature bits, checksums, the device slots' bytes and the long prefix table's loading: straight-line validation; the superblock's area is a parameter of its right size.
- I/O failures, short reads, unknown device lengths, buffers and concurrency: devices are byte sequences.
- Spool and data files, open-file and closed-Writer refusals: state that only refuses calls.
- String paths: a path is a list of names; `path.Clean` is taken as given, and symlink targets are in its cleaned form, so a `..` between names is not modelled.
- Compressed layouts, 48-bit chunk addresses, flat device windows and the metabox.
- DataReader.ChunkLoad: 48-bit chunk addresses are an error, as the reader has it.
- DirSearch.LookupBlock, DirReader.Dir.ReadDir: the file type's conversion to mode bits is not modelled.
- KernelLookup.Lookup: a block whose first name range is reversed makes the Go code panic; the model reads such a name as empty.
- WriterTree.Writer.AddChild: counters are unbounded, so 2^32 live names of one inode are not modelled; a husk's counter wraps as the source's does.
- WriterTree.Writer.PromoteAlias: `copyLinks`, which remembers where a copy in progress first met an inode, is not kept; `PlaceLink` takes the entry it would hold.
- WriterTree.Writer.SetMeta: the individual setters are one operation that replaces the metadata.
- BuildTree.Build: children are not sorted here; `DirWriter.Sort` orders them when they are written.
- TreeImage.Publish: what an inode holds is a parameter, a function of the map's inode; fields too wide for their place are refused, where the source's types cannot hold them.
- ImagePaths.FindPath: follows no symlinks; `ImageResolve.ResolveImage` does.
- ImageResolve.ResolveImage: how a link's target text is cleaned into names is a parameter.
- ImageWriter.WriteItems: an entry with a size and no data source is not modelled; file data is as long as its size says.
- XattrWriter.WriteXattrs: takes the attributes as a list in key order; the sort of the keys is not modelled.
- CopyWalk.Walk: whiteouts and hard links met during the walk are modelled by `CopyTree`, not here.
- CopyTree.Copy: walks first and places names after, so a refused walk leaves the Writer as it was, where the source leaves it part filled; a directory that lists a name twice, a marker after an entry it names and a file over names that stay below it are excluded, the last two because the tree is then unsound or short of names as said above.
- Copying and merging from other file systems than an image (mkfs.go:780-890).
- Resolve.ResolvePath: lookups are maps from names, as `DirLookup` shows them to be; the dirent's type is the inode's.
