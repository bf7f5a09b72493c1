# Verified cores of the uCore labs

Dafny models of six pieces of the teaching OS and proofs about them:

- **SFS image builder** (`lab8/tools/mksfs.c`). `SfsBuilder` is the program: an object whose fields are updated in
  place, hash chains that are followed link by link, the readdir, read and flush loops. Every method is proved to end
  in the state that a function of `SfsModel` names, and the theorems about whole runs (`SfsBuild`) are about those
  functions. A source directory is an inductive tree (`Node`, `Listing`) that says what `readdir`, `lstat`, `read` and
  `readlink` deliver; the image is a map from block numbers to 4096-byte blocks with a log of all writes; a run that
  ends in `bug(...)` or in a failed `assert` yields `None`. `SfsReader` is an independent reader of finished images,
  starting at block 1.
- **Skew heap** (`lab8/libs/skew_heap.h`, the same in lab6). `SkewHeap` rewrites parent, left and right pointers;
  `SkewTree` has the trees they refine, heap order, conservation of nodes and the amortised cost. The comparator is a
  parameter; it needs to know nothing but the two node pointers.
- **Formatter and number parser** (`lab8/libs/printfmt.c`, `strtol` in `lab8/libs/string.c`). `Format` says what a
  format prints, `Printfmt` has the cursor loops and the bounded buffer, `Conversions` says of each letter and flag what
  it does to the output, `Strtol` has the parser and the round trip.
- **Shell lexer** (`lab8/user/sh.c`), which cuts tokens out of the command line in place.
- **Random numbers** (`lab8/libs/rand.c`), a 48-bit linear congruential generator.
- **Circular list** (`lab8/libs/list.h`), for any number of rings at once.

`dafny verify dfyconfig.toml` checks everything. Modules are layered: `Bytes`, `Bitmap` and `SfsModel` below
`SfsIndex` (one file's block index), `SfsRun` (the invariant of every step), `SfsImage` (flushing and reading back),
`SfsRoundTrip`, `SfsDirs` (directories of the source), `SfsReader`, `SfsLinks`, `SfsDirLinks`, `SfsSizes`, `SfsSpace`,
`SfsLayout` (block numbers), `SfsCalls` (every call of `update_cache`), then `SfsBuild`, `SfsEntries`, `SfsSearch` and
`SfsBuilder`. What is stated of an image is stated in literal numbers and bytes; the constants of `SfsModel` are those
of the program.

## Where code and documentation differ

- `rand` promises `[0, RAND_MAX]`; `do_div(result, RAND_MAX + 1)` expands to `result % (unsigned)RAND_MAX + 1`, so the
  range is `[1, RAND_MAX]` (`Lcg.ExactlyTheRange`).
- `add_entry` accepts names of 255 bytes but writes 256 bytes starting at the inode number, so 252 reach the disk
  (`SfsBuild.LongName`); `SfsBuild.NamesComeBack` says exactly when all names come back.
- `search_cache_block` could find an index block only if its number happened to fall into chain `hash32(0)`
  (`SfsSearch.SearchFinds`, `SfsSearch.SearchWouldMiss`); no run ever searches (`SfsBuild.CacheAlwaysRight`).
- `add_file` recognises hard links by `st_ino` alone. Where one number stands for different objects, as below a mount
  point, the run succeeds and the second name gets the first object (`SfsBuild.SharedNumber`); `SfsBuild.RoundTripIff`
  says exactly which sources come back. Symbolic links may share a number. A file taken for a directory makes that
  directory's link count wrong (`SfsBuild.StrayFile`); `SfsBuild.DirectoryLinks` says exactly when a count is right.
- `create_sfs` stores the block count in a `uint32_t` before it compares it, so an image file of 16 TiB is taken for an
  empty one (`SfsBuild.SmallestImage`).
- `skew_heap_merge` takes only `-1` for "less": a comparator that returns a difference breaks the heap
  (`SkewTree.DifferenceFails`).
- `strtol` promises a `0X` prefix and whitespace in general; the code knows `0x`, spaces and tabs only, and stops short
  in `0X1f` and behind a newline (`Strtol.StopsShort`). `Strtol.AsDocumented` says exactly which texts are read as
  documented, whether or not base 0 is meant to know `0X`.
- `%-5d` pads with the character `-`, which is why printed numbers do not always read back
  (`Strtol.UnsignedReadsBack`, `Strtol.SignedReadsBack`).
- `gettoken` cuts a word off only on the next call. A caller that uses the word before that, as the redirections in
  `lab8/user/sh.c:133-149` do, sees it run on into the rest of the line (`Shell.LatestWord`).

## Model

| member | source | states |
|---|---|---|
| SfsBuild.RoundTrip | lab8/tools/mksfs.c:428-559 | for a source whose files are told apart (the exact condition of the next row), reading the image from block 1 through entries, inodes and block indexes gives back the visible names (clipped to 252 bytes) in order, types, file bytes, link targets and "2 + subdirectories" link counts; every visible regular file has an inode number, different ones for different host numbers |
| SfsBuild.RoundTripIff | lab8/tools/mksfs.c:449-457 | after any successful run the source comes back, for some inode numbers, if and only if every regular file met in the walk has a host number that is new or was last filed for a regular file of the same bytes |
| SfsBuild.SharedNumber | lab8/tools/mksfs.c:449-457 | two different files of one host number: the run succeeds and the source does not come back |
| SfsBuild.NamesComeBack | lab8/tools/mksfs.c:428-437 | in the image of a told-apart source the names read back are those of the source if and only if every visible one has at most 252 bytes |
| SfsBuild.LongName | lab8/tools/mksfs.c:428-437 | a run that accepts a name of 253 bytes, and the image gives back its first 252 |
| SfsBuild.DirectoryLinks | lab8/tools/mksfs.c:428-457 | in the image of every successful run, the path of any directory of the source leads to a directory whose nlinks is 2, plus its subdirectories, plus the regular files met while it was filed under their number, modulo 2^16; so it is right if and only if those files number a multiple of 2^16 |
| SfsBuild.StrayFile | lab8/tools/mksfs.c:449-457 | one file with the number of an empty directory: the run succeeds and the directory has three links |
| SfsEntries.RootEntries | lab8/tools/mksfs.c:466-514 | in every finished image the names read from the root directory are ".", ".." and, in order and cut to 252 bytes, the names of the source items that are not special files and do not begin with a dot; no other name there begins with a dot, and the size on disk is 256 bytes for each name |
| SfsEntries.DirectoryEntries | lab8/tools/mksfs.c:428-514 | the same of the directory that the path of any directory of the source leads to, which has one block for each name |
| SfsEntries.DirectorySizes | lab8/tools/mksfs.c:428-437 | every directory inode in a finished image has a size of 256 times its blocks |
| SfsBuild.WriteOnce | lab8/tools/mksfs.c:173-349 | in a successful run the write log has no duplicates and its blocks are exactly those below the final next_ino |
| SfsBuild.CacheAlwaysRight | lab8/tools/mksfs.c:382-395 | in every run, one that fails included, each call of update_cache allocates or finds its cached block right, so that none searches or fails the assertion behind the search |
| SfsCalls.RightCallOnly | lab8/tools/mksfs.c:382-395 | such a call counts no search and can only fail because no block is free |
| SfsCalls.PlaceRight | lab8/tools/mksfs.c:401-422 | the calls of one append are right for any file that is indexed right, whether they succeed or not |
| SfsSearch.SearchFinds | lab8/tools/mksfs.c:192-199 | the search succeeds if and only if the block exists and its number hashes to chain hash32(0) |
| SfsSearch.SearchWouldMiss | lab8/tools/mksfs.c:182-199 | a concrete run, one file of thirteen blocks, hands out block 19 for an index block, and a search for it in the final state finds nothing |
| SfsBuild.SucceedsIfFits | lab8/tools/mksfs.c:173-254 | a run succeeds if and only if the source keeps the limits and its predicted blocks fit the image, whose block count is truncated to 32 bits and capped; then next_ino is exactly the prediction; a host number is paid for once, however many names it has |
| SfsBuild.SmallestImage | lab8/tools/mksfs.c:223-254 | an empty source succeeds if and only if the image file has at least five blocks modulo 2^32; at 16 TiB it fails |
| SfsBuild.FreeMap | lab8/tools/mksfs.c:312-334 | in the finished image the bit of block b is set if and only if next_ino <= b < ninos, for every bit of the reserved bitmap blocks |
| SfsBuild.SuperBlock | lab8/tools/mksfs.c:232-242 | the magic bytes, the block count and the text "simple file system" with its NUL are in block 0, and unused_blocks is both the number of set bits and ninos - next_ino |
| SfsBuild.LinkCounts | lab8/tools/mksfs.c:428-447 | every inode's nlinks on disk is, modulo 2^16, the number of directory entries of the image that name it |
| SfsAppends.LookupAfterFills | lab8/tools/mksfs.c:376-426 | after any interleaving of appends to any files, flushed at any moment, position k of a file leads through direct, indirect and double-indirect blocks to the k-th block number it was given; the index cost exactly 0, 1 or 2 + ceil((n - 1036) / 1024) blocks |
| SfsIndex.AppendBlockOk | lab8/tools/mksfs.c:397-426 | append_block keeps every file's index equal to its sequence, adds one number to one of them, never searches, and allocates exactly the index blocks that the longer file needs |
| SfsIndex.PlaceOk | lab8/tools/mksfs.c:401-422 | the three-way branch leaves the file indexed by the longer sequence and all other index blocks and inodes alone |
| SfsIndex.UpdateCacheStep | lab8/tools/mksfs.c:382-395 | with a right cache update_cache either keeps it or allocates, and does not search |
| SfsRun.AppendOk | lab8/tools/mksfs.c:397-426 | appending keeps the run invariant (roles of all blocks, space, stored data, fields within 32 bits) |
| SfsRun.AddEntryOk | lab8/tools/mksfs.c:428-437 | so does adding an entry |
| SfsRun.OpenFileOk | lab8/tools/mksfs.c:516-530 | so does storing a file |
| SfsRun.AddFileOk | lab8/tools/mksfs.c:449-457 | so does adding a file |
| SfsRun.AddDirOk | lab8/tools/mksfs.c:439-447 | so does adding a whole directory |
| SfsRun.WalkOk | lab8/tools/mksfs.c:475-512 | so does the readdir loop |
| SfsRun.CreateOk | lab8/tools/mksfs.c:223-254 | the fresh file system satisfies the invariant |
| SfsSizes.AddEntrySizes | lab8/tools/mksfs.c:428-437 | add_entry keeps every directory's size at 256 bytes for each of its entries |
| SfsSizes.WalkSizes | lab8/tools/mksfs.c:475-512 | so does the readdir loop with all it calls |
| SfsLayout.LinkNumbers | lab8/tools/mksfs.c:459-464 | a symbolic link takes three numbers in a row: its inode, its target, its entry |
| SfsLayout.FileNumbers | lab8/tools/mksfs.c:449-457 | a new regular file takes its inode's number, then those of its data blocks with the index blocks where they are needed, then its entry's: each number is given in closed form |
| SfsLayout.DirNumbers | lab8/tools/mksfs.c:439-447 | a directory takes its inode's number and the numbers of "." and ".." in a row, and its entry's after all of its contents |
| SfsImage.ItemsMembers | lab8/tools/mksfs.c:312-349 | the freemap loop and the walk over both hash tables enumerate every bitmap block, the superblock, every index block and every inode once |
| SfsImage.CloseWritesOnce | lab8/tools/mksfs.c:312-349 | close_sfs cannot fail after a run, and completes the write log to one write for each block below next_ino |
| SfsImage.CloseHolds | lab8/tools/mksfs.c:302-349 | afterwards every item is on disk as it was in memory and nothing written earlier is lost |
| SfsImage.CloseOrder | lab8/tools/mksfs.c:312-349 | after the blocks of the walk the freemap is written from block 2 on, then the superblock in block 0, then every index block, the newest first |
| SfsImage.WriteAllOk | lab8/tools/mksfs.c:287-300 | a series of writes to distinct blocks leaves each of them, and everything else, on disk |
| SfsImage.DecodeEncode | lab8/tools/mksfs.c:134-142 | decoding the 68 bytes (17 words) of a stored inode gives the inode |
| SfsImage.InodeOnDisk | lab8/tools/mksfs.c:307-310 | each inode can be read back at its number |
| SfsImage.LookupOnDisk | lab8/tools/mksfs.c:376-426 | looking up k through the index blocks on disk gives the k-th block of the file |
| SfsImage.FreeCountOnDisk | lab8/tools/mksfs.c:312-334 | the number of set bits among the first n |
| SfsReader.NodeReads | lab8/tools/mksfs.c:466-542 | an inode that holds a source node reads back as that node, by induction over the tree, if all files in it are told apart |
| SfsReader.NodeTells | lab8/tools/mksfs.c:449-457 | and only then: whatever the inode numbers expected |
| SfsReader.ReadContent | lab8/tools/mksfs.c:516-530 | the blocks of a file, cut to its size, are the bytes that were read from the host |
| SfsRoundTrip.EntryReads | lab8/tools/mksfs.c:428-437 | an entry block gives back the inode number and the first 252 bytes of the name, whatever stale bytes the static buffer held |
| SfsRoundTrip.StaleBytes | lab8/tools/mksfs.c:428-437 | behind the NUL of its name an entry holds what the static buffer held, up to byte 256, and zeros from there on |
| SfsRoundTrip.OpenFileAt | lab8/tools/mksfs.c:516-530 | open_file leaves exactly the chunks read, all but the last of them full |
| SfsRoundTrip.AddFileAt | lab8/tools/mksfs.c:449-457 | add_file gives the directory an entry for the newest inode of the number, be it that file or not, or for a new inode that holds the file |
| SfsRoundTrip.AddDirAt | lab8/tools/mksfs.c:439-447 | add_dir gives the directory an entry for an inode that holds the whole subtree |
| SfsRoundTrip.WalkAt | lab8/tools/mksfs.c:475-512 | after the readdir loop the directory holds the visible entries in order, and the newest inode of every number is what the walk over the source says, regular file, symbolic link or directory |
| SfsRoundTrip.KnownAlloc | lab8/tools/mksfs.c:201-221 | a new inode is the newest of its number and hides older ones |
| SfsLinks.AddEntryLinks | lab8/tools/mksfs.c:428-437 | add_entry keeps nlinks equal to the number of entries naming the inode |
| SfsLinks.OpenDirLinks | lab8/tools/mksfs.c:466-514 | so does the walk over a directory |
| SfsLinks.LinksOnDisk | lab8/tools/mksfs.c:428-437 | and the finished image shows it |
| SfsDirs.AloneIfFresh | lab8/tools/mksfs.c:439-447 | if every directory met has a number that is new, no two directories of the source share one |
| SfsDirLinks.KnownFileNames | lab8/tools/mksfs.c:449-457 | a file that is known adds an entry naming a directory if and only if a directory is filed under its number |
| SfsDirLinks.WalkNames | lab8/tools/mksfs.c:475-512 | the readdir loop succeeds only if directories have new numbers, and gives every directory, old or new, exactly the entries naming it that the source predicts |
| SfsDirLinks.FollowOk | lab8/tools/mksfs.c:466-514 | the entries of the image that stand where those of a path in the source do lead to the same directory |
| SfsSpace.GrowthSums | lab8/tools/mksfs.c:401-422 | index blocks taken append by append add up to the closed formula |
| SfsSpace.AppendSome | lab8/tools/mksfs.c:397-426 | append_block succeeds if and only if the file is below 32768 blocks and the index blocks it needs are free |
| SfsSpace.OpenFileNeed | lab8/tools/mksfs.c:516-530 | open_file succeeds if and only if only the last read was short, the size limit is kept and the blocks are free; it uses exactly n data blocks and their index |
| SfsSpace.OpenDirNeed | lab8/tools/mksfs.c:466-514 | the same exact condition and cost for a directory tree |
| Bitmap.FreeWordsOk | lab8/tools/mksfs.c:317-332 | in the words of one bitmap block exactly the bits of [next_ino, ninos) are set, and every word fits 32 bits |
| Bitmap.SetBitsOk | lab8/tools/mksfs.c:329-331 | the bit loop sets bits start to end and no other |
| Bitmap.FillFreemap | lab8/tools/mksfs.c:318-332 | the loop over the zeroed buffer computes those words |
| Bytes.WordsRead | lab8/tools/mksfs.c:287-305 | a 32-bit word in a stored block is read back |
| SfsBuilder.CreateImg | lab8/tools/mksfs.c:544-559 | the program's run fails exactly when Build says so and otherwise ends in the state of Build, to which the theorems above apply; either way its calls of update_cache are RunCalls, all of them right |
| SfsBuilder.CreateSfs | lab8/tools/mksfs.c:223-254 | null for a file too small for its bitmap, otherwise the empty file system; the block count wraps at 2^32 |
| SfsBuilder.SfsFs.AllocCacheBlock | lab8/tools/mksfs.c:182-190 | a zeroed index block with the next number, put at the head of chain hash32(0) |
| SfsBuilder.SfsFs.SearchCacheBlock | lab8/tools/mksfs.c:192-199 | following the chain of the number's own hash finds what SearchIndex says |
| SfsBuilder.SfsFs.AllocCacheInode | lab8/tools/mksfs.c:201-212 | a new inode at the head of its chain; all chains stay exact and newest first |
| SfsBuilder.SfsFs.SearchCacheInode | lab8/tools/mksfs.c:214-221 | following one chain finds what a newest-first search over all inodes ever allocated would find |
| SfsBuilder.SfsFs.WriteBlock | lab8/tools/mksfs.c:287-300 | short data is zero-padded; too long data or a number out of range fails |
| SfsBuilder.SfsFs.UpdateCache | lab8/tools/mksfs.c:382-395 | new values of both pointers, in all three branches; the call is recorded even if it fails |
| SfsBuilder.SfsFs.AppendBlock | lab8/tools/mksfs.c:397-426 | new state of append_block, failures included |
| SfsBuilder.SfsFs.AddEntry | lab8/tools/mksfs.c:428-437 | new state, with the stale bytes of the static entry |
| SfsBuilder.SfsFs.AddDir | lab8/tools/mksfs.c:439-447 | fails on a known host number, otherwise recurses |
| SfsBuilder.SfsFs.AddFile | lab8/tools/mksfs.c:449-457 | stores the contents only for a host number not seen |
| SfsBuilder.SfsFs.AddLink | lab8/tools/mksfs.c:459-464 | a new inode for every symbolic link |
| SfsBuilder.SfsFs.OpenDir | lab8/tools/mksfs.c:466-514 | the two fixed entries and the readdir loop |
| SfsBuilder.SfsFs.Visit | lab8/tools/mksfs.c:476-511 | hidden names are passed over, long ones fail, special files are ignored |
| SfsBuilder.SfsFs.OpenFile | lab8/tools/mksfs.c:516-530 | the read loop; a short read may only be the last |
| SfsBuilder.SfsFs.OpenLink | lab8/tools/mksfs.c:532-542 | a target of 4096 bytes or more fails |
| SfsBuilder.SfsFs.CloseSfs | lab8/tools/mksfs.c:312-349 | freemap loop, superblock and the walk along both tables' chains write exactly what Close says, in that order |
| SfsBuilder.SfsFs.constructor | lab8/tools/mksfs.c:237-253 | the fresh tables with the root inode in block 1 |
| SkewHeap.Merge | lab8/libs/skew_heap.h:29-59 | the rewritten pointers form the merged tree, parent is the inverse of left and right below the root, the root keeps its parent, and the number of calls is Calls |
| SkewHeap.Insert | lab8/libs/skew_heap.h:61-67 | a heap (root's parent null) stays one and is Insert of the old tree; its calls of merge are those bounded by SkewTree.QueueCost |
| SkewHeap.Remove | lab8/libs/skew_heap.h:69-85 | removing any node, found through its parent pointer, leaves a heap that is Remove of the old tree; the node itself is not written; calls counted likewise |
| SkewHeap.Run | lab8/libs/skew_heap.h:61-85 | after any run of inserts and removals of any nodes the pointers form a heap of exactly the expected nodes; for none but the root does the comparator give -1 against the root, and if it compares keys the root's key is least |
| SkewHeap.RunQueue | lab8/libs/skew_heap.h:61-85 | any run of inserts and root removals on an empty heap makes at most 1 + 3 log2(n + 1) calls of merge for each operation, n being the nodes pushed |
| SkewHeap.Inverse | lab8/libs/skew_heap.h:40-55 | in a heap only the root has no parent, and every other node is exactly one of its parent's two children |
| SkewHeap.Located | lab8/libs/skew_heap.h:73-84 | a node's pointers tell its place in the whole heap |
| SkewTree.MergeShape | lab8/libs/skew_heap.h:29-59 | the first root stays on top if the comparator gives -1 and the second one otherwise, ties included; of two nodes the lower one becomes the left child |
| SkewTree.NewRoots | lab8/libs/skew_heap.h:61-85 | a new node goes on top of a root that is not less; a removed root is replaced by its left child if that is less, by its right one otherwise |
| SkewTree.MergeKeepsBag | lab8/libs/skew_heap.h:29-59 | merging keeps every node with its multiplicity |
| SkewTree.RemoveTakesOne | lab8/libs/skew_heap.h:69-85 | removal takes exactly one node |
| SkewTree.MergeKeepsOrder | lab8/libs/skew_heap.h:29-59 | merging ordered trees gives an ordered tree when the comparator is asymmetric on their nodes |
| SkewTree.RemoveKeepsOrder | lab8/libs/skew_heap.h:69-85 | so does removal when, besides, being not less is transitive |
| SkewTree.MergeOrdersIff | lab8/libs/skew_heap.h:37-58 | merging keeps order over a node set if and only if the comparator is asymmetric there |
| SkewTree.OrderKeptIff | lab8/libs/skew_heap.h:37-84 | merging and removal keep order if and only if it is asymmetric and being not less is transitive |
| SkewTree.DifferenceFails | lab8/libs/skew_heap.h:37 | a comparator returning the difference of its keys is not good enough |
| SkewTree.RootIsLeast | lab8/libs/skew_heap.h:29-85 | no node of an ordered heap is less than its root |
| SkewTree.EditsOk | lab8/libs/skew_heap.h:61-85 | after any interleaving of inserts and removals of any nodes: order, exactly the expected nodes, each once, a least one at the root |
| SkewTree.LeastKey | lab8/libs/skew_heap.h:61-85 | if the comparator gives -1 exactly for a smaller key, the root's key is least after any interleaving |
| SkewTree.DrainSorts | lab8/libs/skew_heap.h:69-85 | removing the root until nothing is left yields all nodes in ascending order of their keys |
| SkewTree.SpineBounds | lab8/libs/skew_heap.h:29-59 | 2^G and 2^D are at most size + 1 for right-heavy nodes on the left spine and light ones on the right spine |
| SkewTree.MergeCost | lab8/libs/skew_heap.h:29-59 | calls + potential after <= potential before + G(result) + D(a) + D(b) + 1 |
| SkewTree.QueueCost | lab8/libs/skew_heap.h:61-85 | any run of inserts and root removals makes at most 1 + 3 log2(n + 1) calls per operation |
| Format.Verbatim | lab8/libs/printfmt.c:287-292 | a format in which every percent sign starts an unrecognised escape, stars, digits and flags included, is printed as it stands if the stars find ints among the arguments, and has no defined behaviour otherwise |
| Format.FlagsRead | lab8/libs/printfmt.c:155-200 | reading flags stops at the first character that is none and takes one argument for each star |
| Format.FieldWidths | lab8/libs/printfmt.c:53-69 | a number field has max(width, digits) characters, a string field max(width, min(length, precision)) |
| Format.NestedCalls | lab8/libs/printfmt.c:208-219 | the nested printfmt calls of %e print the message or "error" and the number |
| Format.Copied | lab8/libs/printfmt.c:142-148 | text without a percent sign is copied |
| Conversions.EscapeRead | lab8/libs/printfmt.c:150-200 | an escape written with any of #, - or 0, width, point and precision, and l is read as exactly these fields |
| Conversions.UnsignedPrints | lab8/libs/printfmt.c:254-278 | anywhere in a format %o, %u and %x with any of these flags print a numeral in base 8, 10 and 16 without leading zeros, whose value is the argument, behind padding up to the width |
| Conversions.SignedPrints | lab8/libs/printfmt.c:244-252 | %d and %ld print the sign, then the padding, then the decimal numeral of the absolute value; the sign does not count for the width |
| Conversions.PointerPrints | lab8/libs/printfmt.c:266-272 | %p prints 0x, then padding and the hexadecimal numeral |
| Conversions.CharPrints | lab8/libs/printfmt.c:202-205 | %c prints the low byte of its argument |
| Conversions.PercentPrints | lab8/libs/printfmt.c:282-284 | %% prints a percent sign and takes no argument |
| Conversions.StringPrints | lab8/libs/printfmt.c:222-242 | %s prints the first min(length, precision) characters, with # a question mark for each outside the printable range, padded on the left, or with - on the right; null prints (null) |
| Conversions.StarredString | lab8/libs/printfmt.c:178-195 | %*.*s takes width and precision from its arguments: a negative width is none, a negative precision no limit |
| Conversions.ErrorPrints | lab8/libs/printfmt.c:208-219 | %e prints the message of the absolute value or "error" and the number |
| Conversions.ErrorMessages | lab8/libs/printfmt.c:18-41 | the first six messages |
| Conversions.DeviceErrorMessages | lab8/libs/printfmt.c:18-41 | the next six |
| Conversions.FileErrorMessages | lab8/libs/printfmt.c:18-41 | the last nine |
| Conversions.NoMessages | lab8/libs/printfmt.c:18-41 | 0, 7, 11, 12 and all numbers above 24 have none, and no others |
| Conversions.BareFormats | lab8/libs/printfmt.c:203-284 | the formats "%o", "%u", "%x", "%lx", "%c" and "%%" as a whole |
| Printfmt.SprintBuf.Vprintfmt | lab8/libs/printfmt.c:135-295 | terminates on every format, reads nothing behind the NUL although the default case moves the cursor back, and puts exactly the text Printed, or stops where the C program has no defined behaviour |
| Printfmt.SprintBuf.PrintNum | lab8/libs/printfmt.c:53-69 | padding and digits through the recursion with a shrinking width |
| Printfmt.SprintBuf.PutString | lab8/libs/printfmt.c:222-242 | the three loops of %s with their running width and precision |
| Printfmt.SprintBuf.PutConversion | lab8/libs/printfmt.c:202-292 | every conversion, its arguments and its undefined cases |
| Printfmt.SprintBuf.PutError | lab8/libs/printfmt.c:208-219 | the message table with its gaps |
| Printfmt.SprintBuf.Putch | lab8/libs/printfmt.c:309-315 | counts every character and stores those that fit |
| Printfmt.ReadFlags | lab8/libs/printfmt.c:150-200 | flags, width and precision in any order, as Flags says |
| Printfmt.ReadDigits | lab8/libs/printfmt.c:169-177 | the width loop, undefined where an int overflows |
| Printfmt.Strnlen | lab8/libs/string.c:33-40 | min(length, limit), a negative limit being none |
| Printfmt.Vsnprintf | lab8/libs/printfmt.c:347-358 | -E_INVAL for null or size 0; otherwise the first min(length, size - 1) characters of the unbounded output, a NUL, the rest of the buffer as it was, and the full length as result |
| Strtol.Strtol | lab8/libs/string.c:215-271 | the loops compute Parse: exact value of the longest digit run wrapped to 64 bits, and the end index |
| Strtol.AsDocumented | lab8/libs/string.c:185-271 | strtol returns the documented number and end if and only if the text has no newline, vertical tab, form feed or carriage return behind its leading spaces and tabs, and no `0X` where the base admits one |
| Strtol.StopsShort | lab8/libs/string.c:217-240 | `0X1f` in base 16 gives 0 with the end behind the zero, not 31; a newline and 7 give 0 with the end at the start, not 7 |
| Strtol.DigitValueIs | lab8/libs/string.c:246-258 | a character is digit d if and only if it stands at place d of 0 to 9, a to z, or of 0 to 9, A to Z |
| Strtol.CaseDoesNotMatter | lab8/libs/string.c:245-265 | changing the case of a number's digits changes neither value nor end, in any base |
| Strtol.UpperReadsBack | lab8/libs/string.c:215-271 | a numeral in upper case parses to its number, for base 2 to 16 |
| Strtol.Signs | lab8/libs/string.c:224-230 | a plus in front of an unsigned number changes only the end, a minus negates the value, but for -2^63 |
| Strtol.WrapIs | lab8/libs/string.c:263-264 | the result lies within a long and differs from the exact value by a multiple of 2^64 |
| Strtol.LettersRead | lab8/libs/string.c:215-271 | `2A` in base 16 is 42, `zZ` in base 36 is 1295 |
| Strtol.WrapStep | lab8/libs/string.c:263-264 | wrapping at every step is wrapping once |
| Strtol.NumeralOk | lab8/libs/printfmt.c:53-69 | a printed numeral has only digits of its base and the number's value |
| Strtol.UnsignedReadsBack | lab8/libs/printfmt.c:53-69 | for base 2 to 16, any width and num < 2^63, strtol returns num with endptr at the end if and only if no '-' pads were printed, or one before a zero |
| Strtol.SignedReadsBack | lab8/libs/printfmt.c:244-252 | the same for %d: a negative number comes back if and only if it is padded with zeros or not at all |
| Strtol.IntReadsBack | lab8/libs/string.c:215-271 | every int printed by a plain %d format parses back to itself |
| Shell.Lexer.GetToken | lab8/user/sh.c:18-47 | returns the next token of the pure lexer, moves p1 and p2 with it, keeps the buffer equal to the partly rewritten line, reads nothing behind the NUL; after the last token it returns 0 and changes no pointer |
| Shell.Lexer.Tokens | lab8/user/sh.c:18-47 | calling it until 0 yields exactly the tokens of the pure lexer |
| Shell.Lexer.SkipWhite | lab8/user/sh.c:24-26 | whitespace turns to NUL |
| Shell.Lexer.ScanWord | lab8/user/sh.c:38-43 | a word loses its quotes |
| Shell.LexOk | lab8/user/sh.c:18-47 | the tokens cover the line but for whitespace; symbols are single characters; a word runs as far as separators are quoted |
| Shell.LineTokens | lab8/user/sh.c:11-47 | the tokens of a line with a redirection and a quoted word |
| Shell.EarlierWord | lab8/user/sh.c:24-35 | every word but the latest is a C string of its own with quotes turned to spaces; all are once the line is used up |
| Shell.LatestWord | lab8/user/sh.c:36-45 | the latest word still runs on into the unread rest of the line |
| Lcg.Generator.Rand | lab8/libs/rand.c:11-16 | new state and result, which lies in [1, RAND_MAX] |
| Lcg.StepIs | lab8/libs/rand.c:13 | the next state is (25214903917 x + 11) mod 2^48 |
| Lcg.FirstValues | lab8/libs/rand.c:11-16 | a fresh generator returns 6155983, 907315447, 1947276717 |
| Lcg.IterIsRaw | lab8/libs/rand.c:13 | wrapping at 64 bits and masking to 48 is reduction modulo 2^48 |
| Lcg.SumEven | lab8/libs/rand.c:13 | 1 + A + ... + A^(n-1) has exactly the factors of two of n |
| Lcg.FullPeriod | lab8/libs/rand.c:11-16 | from any seed two states are equal if and only if a multiple of 2^48 calls lies between them |
| Lcg.EveryState | lab8/libs/rand.c:11-16 | every seed reaches every state |
| Lcg.ExactlyTheRange | lab8/libs/riscv.h:234-240 | within a period exactly the values 1 to RAND_MAX are returned |
| Lists.Init | lab8/libs/list.h:40-43 | a ring of one |
| Lists.AddBetween | lab8/libs/list.h:141-146 | four pointer writes insert into the sequence, also when both neighbours are the same entry |
| Lists.AddBefore | lab8/libs/list.h:66-69 | inserts before a given position |
| Lists.AddAfter | lab8/libs/list.h:79-82 | inserts after a given position |
| Lists.Del | lab8/libs/list.h:91-94 | removes from the sequence and leaves the entry's own pointers, so that it does not look empty |
| Lists.DelInit | lab8/libs/list.h:102-106 | removes and makes the entry a ring of one |
| Lists.Empty | lab8/libs/list.h:112-115 | true exactly for a ring of one |
| Lists.Walks | lab8/libs/list.h:121-124 | following next visits the whole ring once and returns to the start |
| Lists.Inverse | lab8/libs/list.h:17-19 | next and prev are mutually inverse, also for rings of one and two |
| Lists.Determined | lab8/libs/list.h:17-19 | the pointers determine the sequence |
| Lists.Rotates | lab8/libs/list.h:17-19 | any entry may serve as head |
| Lists.Do | lab8/libs/list.h:40-158 | one operation on several disjoint rings changes only the rings the sequences say |
| Lists.Run | lab8/libs/list.h:40-158 | so does any sequence of operations |

## Left out

- Host system calls, path bookkeeping for messages, error printing and `main` of `mksfs.c`: the source tree and the image size are inputs, a failure is `None`; a failing `read` ends in a failed assertion of the next `write_block`, so the check behind the loop is dead code and not modelled.
- Pointers of the image builder: a `cache_inode *` or `cache_block *` is a position in allocation order, and the records lie in sequences that the methods reassign.
- SfsBuilder.SfsFs.UpdateCache: the owner of a new index block is a ghost parameter, kept as history only.
- Widths of counters in the image builder: block numbers stay below 2^19 and sizes below 2^32, as the run invariant shows; the block count of the image, the 32-bit size and the 16-bit link counter are wrapped explicitly.
- Printfmt.SprintBuf.Vprintfmt: arguments are a sequence of tagged words, and a missing or mismatched argument, an int overflow in a width, `INT_MIN` for %e and -2^63 for %d are undefined; the number of characters and a width near `INT_MIN` from `*` are not limited to an int; the `%s` and `error %d` calls behind %e are inlined, as Format.NestedCalls justifies.
- Printfmt.SprintBuf.PrintNum: base 1, which the comment on `printnum` allows, is not modelled: the function is static and called with 8, 10 and 16 only; in base 1 it prints 0 as `0` and recurses without end on any other number.
- Strtol.Strtol: signed overflow, undefined in C, is modelled as wrap-around of a 64-bit long.
- Printfmt.Vsnprintf: the buffer is the array itself, so `str + size - 1` does not overflow for a size within it.
- `cputch`, `printfmt`, `snprintf` and the `fd` argument: wrappers around the same loop.
- `runcmd`, `reopen`, `testfile` and `main` of `sh.c`: fork, exec and files.
- The stride scheduler and its comparator: the heap takes any comparator.
- `SkewHeap.Merge` reads a comparator that does not look at mutable memory: keys that change while nodes are in the heap are not modelled.
- Kernel page allocators, virtual memory, the kernel's own SFS driver and the user test programs.
- Copies of these libraries in the other labs.
