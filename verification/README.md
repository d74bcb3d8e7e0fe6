# Models of the bundled block-tracing, image-building and ELF tools

The repository bundles several C tools. This project models the parts of them
that carry the hard invariants and proves those invariants, for all inputs and
all runs.

| files | what they model |
|---|---|
| `RbShape`, `RbHeap`, `RbInsert`, `RbErase`, `RbRemove` | the red-black tree with parent pointers of blktrace: nodes are heap objects; a ghost tree and a ghost context (the path to the root with what hangs beside it) say what the links mean, and each repair loop keeps one permitted defect and lowers a measure |
| `TraceInsert` | blkparse's ordered insertion of traces into that tree |
| `StreamMerge` | blkparse's merge of per-cpu streams kept in a list sorted by head time |
| `Handoff` | the hand-off of trace buffers between tracer threads and the main thread, as a state machine over its locked steps |
| `Reframe`, `MmapWindow` | re-framing of records across buffer boundaries, and the sliding mmap window of blktrace |
| `IoMonitor` | blkiomon's matcher of issue and completion traces and its statistics |
| `Ext2Alloc` | genext2fs: the bitmap allocator, its three sets of counters and the layout of groups |
| `Ext2Paths`, `Ext2Volume` | the incremental block walker against the closed-form ext2 index map, and growing files |
| `Ext2Dir`, `Ext2Bytes`, `Ext2Links`, `Ext2Meaning` | directory blocks as finite maps and files as bytes, on the volume, link counts over the whole filesystem, and what each operation leaves in every run |
| `Ext2Swap`, `Ext2Foreign` | conversion of the filesystem to foreign byte order and back, and the bytes of the written image |
| `SymbolFilter`, `SymbolHash`, `SectionLayout` | elfcopy: in-place symbol filtering with relocations, the System V hash table, section re-layout |
| `FrameProgram` | the two passes over DWARF call-frame instructions |
| `Basics`, `Sums`, `Arith` | shared types and arithmetic |

State that the sources change in place is kept in classes and arrays whose
methods are proved against functions of the old state. Where a program ends with
an error message, the method returns a failure result.
Where a promised property is false of the code, a lemma gives an input that
breaks it and another says exactly when it holds: `Ext2Alloc.MetadataInside` and
`Ext2Alloc.AllSeen`, `MmapWindow.AllRunsFit`, `SymbolFilter.FaithfulExactly`,
`SectionLayout.RangesPlaced`, `Ext2Links.FileSaved`, `FrameProgram.Chunk.Interpret`.

`dafny verify dfyconfig.toml` checks everything.

## Model

| member | source | states |
|---|---|---|
| `RbShape.LogarithmicHeight` | external/blktrace/rbtree.c:71-129 | what both repairs keep: every way down has at most twice as many nodes as the binary logarithm of the number of nodes, and so at most 40 among a million |
| `RbHeap.RotateLeft` | external/blktrace/rbtree.c:25-46 | the links after the rotation describe the rotated tree in the same place; nothing else moves |
| `RbHeap.RotateRight` | external/blktrace/rbtree.c:48-69 | the mirror image: the links after the rotation describe the rotated tree in the same place; nothing else moves |
| `RbHeap.RotateLeftInorder` | external/blktrace/rbtree.c:25-46 | the in-order sequence is unchanged |
| `RbHeap.RotateRightInorder` | external/blktrace/rbtree.c:48-69 | the in-order sequence is unchanged |
| `RbInsert.RecolorLaw` | external/blktrace/rbtree.c:79-91 | recolouring moves the one permitted red-red defect two levels up and keeps black heights and order |
| `RbInsert.RaiseLeftLaw` | external/blktrace/rbtree.c:102-104 | recolouring and rotating at the grandparent removes the defect |
| `RbInsert.RaiseRightLaw` | external/blktrace/rbtree.c:127-129 | the mirror image: recolouring and rotating at the grandparent removes the defect |
| `RbInsert.InnerToOuterLaw` | external/blktrace/rbtree.c:93-100 | the first rotation turns an inner grandchild into an outer one without other effect |
| `RbInsert.RoundLeft` | external/blktrace/rbtree.c:79-104 | one round of the loop, parent on the left: order kept, at most the one defect remains, measure smaller |
| `RbInsert.RoundRight` | external/blktrace/rbtree.c:105-130 | the mirror image: one round of the loop, parent on the right: order kept, at most the one defect remains, measure smaller |
| `RbInsert.InsertColor` | external/blktrace/rbtree.c:71-134 | a tree with a red leaf as its only possible defect becomes a red-black tree with the same in-order sequence; the loop terminates |
| `RbErase.SiblingRedLeftLaw` | external/blktrace/rbtree.c:145-152 | a red sibling becomes a black one; the missing black and the order are unchanged |
| `RbErase.SiblingBlackLeftLaw` | external/blktrace/rbtree.c:153-159 | a sibling with two black children is painted red and the missing black moves one level up |
| `RbErase.TurnLeftLaw` | external/blktrace/rbtree.c:162-170 | the sibling is turned so that its outer child is red |
| `RbErase.FinishLeftLaw` | external/blktrace/rbtree.c:171-177 | the final rotation restores a red-black tree |
| `RbErase.SiblingRedRightLaw` | external/blktrace/rbtree.c:182-189 | the mirror image: a red sibling becomes a black one; the missing black and the order are unchanged |
| `RbErase.SiblingBlackRightLaw` | external/blktrace/rbtree.c:190-196 | the mirror image: a sibling with two black children is painted red and the missing black moves one level up |
| `RbErase.TurnRightLaw` | external/blktrace/rbtree.c:199-207 | the mirror image: the sibling is turned so that its outer child is red |
| `RbErase.FinishRightLaw` | external/blktrace/rbtree.c:208-214 | the mirror image: the final rotation restores a red-black tree |
| `RbErase.EraseRoundLeft` | external/blktrace/rbtree.c:143-179 | one round with the short side on the left: done with a red-black tree, or the same defect at a smaller depth or at a red node |
| `RbErase.EraseRoundRight` | external/blktrace/rbtree.c:180-216 | the mirror image: one round with the short side on the right: done with a red-black tree, or the same defect at a smaller depth or at a red node |
| `RbErase.EraseColor` | external/blktrace/rbtree.c:136-220 | the double-black repair terminates with a red-black tree and the same in-order sequence |
| `RbRemove.Leftmost` | external/blktrace/rbtree.c:235-237 | the successor is the leftmost node of the right subtree |
| `RbRemove.Detach` | external/blktrace/rbtree.c:238-248 | the successor is taken out of its place; the child, the parent (possibly the successor itself) and the colour are those the repair needs |
| `RbRemove.TakePlace` | external/blktrace/rbtree.c:250-265 | the successor stands where the erased node stood, with its colour and links |
| `RbRemove.SpliceOut` | external/blktrace/rbtree.c:269-282 | a node with at most one child is replaced by that child |
| `RbRemove.Erase` | external/blktrace/rbtree.c:222-287 | for every valid tree and every node in it: a valid red-black tree with consistent parent links, its in-order sequence the old one without the node |
| `RbRemove.First` | external/blktrace/rbtree.c:292-302 | the first node of the in-order sequence, or NULL |
| `RbRemove.Next` | external/blktrace/rbtree.c:316-342 | the in-order successor, or NULL at the end |
| `TraceInsert.LinkNode` | external/blktrace/rbtree.h:156-163 | the node becomes a red leaf at the slot |
| `TraceInsert.FindSlot` | external/blktrace/blkparse.c:797-821 | the slot found separates the keys that are not larger from those that are, by the comparison of time, device and sequence in the code |
| `TraceInsert.Insert` | external/blktrace/blkparse.c:797-825 | a valid red-black tree whose in-order sequence is the insertion behind equal keys, ordered by time, at equal times by device, and at equal devices by sequence |
| `TraceInsert.PlaceStable` | external/blktrace/blkparse.c:805-819 | among equal keys the newcomer is last |
| `TraceInsert.PlaceAllIsStableSort` | external/blktrace/blkparse.c:797-825 | inserting any sequence of traces orders it by time, then device, then sequence, keeps every trace, and keeps traces with equal keys in arrival order |
| `TraceInsert.InsertAll` | external/blktrace/blkparse.c:797-825 | the tree built from a sequence of traces holds that stable sort |
| `Ext2Alloc.Allocate` | external/genext2fs/genext2fs.c:839-863 | the first free bit is found and set, or none is free |
| `Ext2Alloc.FindBlock` | external/genext2fs/genext2fs.c:878-884 | over the groups it sees: the group of the inode is tried first, then all in order; seeing all, the search fails exactly when no group has a free block |
| `Ext2Alloc.BestGroup` | external/genext2fs/genext2fs.c:922-930 | of the groups after the first with enough free inodes, the first with most free blocks; if there is none, group 0 |
| `Ext2Alloc.FindInode` | external/genext2fs/genext2fs.c:915-932 | by averaging, and if all groups are seen, an inode is found exactly when some inode is free; inodes of groups that are not seen are of no use |
| `Ext2Alloc.Allocator.constructor` | external/genext2fs/genext2fs.c:2024-2071 | where the last group has room for its own metadata: the bitmaps, group counts and superblock counts of a fresh filesystem agree, all groups are seen, and every free block lies inside the image |
| `Ext2Alloc.Allocator.AllocBlk` | external/genext2fs/genext2fs.c:873-893 | succeeds exactly when the superblock counts a free block; the lowest free block of the inode's group is taken, or of the first group that has one, outside all metadata, and the three counters still agree |
| `Ext2Alloc.Allocator.AllocNod` | external/genext2fs/genext2fs.c:908-938 | succeeds exactly when s_free_inodes_count is positive; the lowest free inode of the chosen group is taken, not a reserved one, and the counters still agree |
| `Ext2Alloc.BlockOnce` | external/genext2fs/genext2fs.c:873-893 | the block was free, is taken now, and no other block changed hands |
| `Ext2Alloc.InodeOnce` | external/genext2fs/genext2fs.c:908-938 | the same for inodes |
| `Ext2Alloc.NeverTwice` | external/genext2fs/genext2fs.c:873-938 | in no run of allocations is a block or an inode handed out twice |
| `Ext2Alloc.LayoutSane` | external/genext2fs/genext2fs.c:1968-2012 | every accepted geometry has bitmaps and groups of consistent size |
| `Ext2Alloc.LayoutMeans` | external/genext2fs/genext2fs.c:1973-2003 | a request is refused exactly if it asks for too little or the overhead exceeds the blocks; otherwise as few groups as 8192 blocks and inodes each allow, the least sizes in multiples of 8 that suffice, and tables of 32 bytes per group and 128 per inode |
| `Ext2Alloc.MetadataInside` | external/genext2fs/genext2fs.c:1991-2003 | where the bitmaps and tables of each group lie, and that all of them lie inside the image if and only if the last group has room for its own overhead |
| `Ext2Alloc.AcceptedWithoutRoom` | external/genext2fs/genext2fs.c:2000-2003 | a request that is accepted, with a block left for the root, although the last group has no such room |
| `Ext2Alloc.AllSeen` | external/genext2fs/genext2fs.c:239-242 | the number of groups recomputed from the superblock is that of the layout if and only if the last group has any block |
| `Ext2Alloc.UnseenGroup` | external/genext2fs/genext2fs.c:1968-2012 | a request that is accepted although the last group is never seen again and its bitmap lies outside the image |
| `Ext2Alloc.UnseenInodes` | external/genext2fs/genext2fs.c:910-932 | when the groups seen are used up, the inodes of an unseen last group are still counted as free |
| `Ext2Alloc.BlockShares` | external/genext2fs/genext2fs.c:2025-2035 | the free blocks are dealt out to the groups in full, and add up |
| `Ext2Alloc.InodeShares` | external/genext2fs/genext2fs.c:2036-2040 | the free inodes likewise, without the reserved ones |
| `Ext2Alloc.FreshGroups` | external/genext2fs/genext2fs.c:2049-2071 | the bitmaps of all groups match the shares |
| `Ext2Paths.AdvanceIsClosedForm` | external/genext2fs/genext2fs.c:990-1191 | a step of walk_bw goes to the position of the next data block in the ext2 index map and enters the index blocks that position needs first |
| `Ext2Paths.WalkStep` | external/genext2fs/genext2fs.c:972-1201 | after k blocks the walker is at the k-th position and bnum is k plus the index blocks so far, up to the largest file |
| `Ext2Paths.TotalCounts` | external/genext2fs/genext2fs.c:990-1201 | bnum grows by one for the data block and one for every index block entered |
| `Ext2Paths.NewSlots` | external/genext2fs/genext2fs.c:990-1191 | every pointer slot is entered for the first time exactly once |
| `Ext2Paths.NewParents` | external/genext2fs/genext2fs.c:990-1191 | every slot lies in an index block that is there already |
| `Ext2Volume.WalkBw` | external/genext2fs/genext2fs.c:972-1201 | without creating, the k-th call returns the k-th data block, then WALK_END |
| `Ext2Volume.WalkAll` | external/genext2fs/genext2fs.c:972-1201 | a fresh walk returns all data blocks in file order, then WALK_END |
| `Ext2Volume.AttachSound` | external/genext2fs/genext2fs.c:990-1191 | storing a freshly allocated block into an unused slot keeps every block owned at most once |
| `Ext2Volume.Volume.constructor` | external/genext2fs/genext2fs.c:2013-2072 | the fresh image, where the last group has room: all inodes empty |
| `Ext2Volume.Volume.Append` | external/genext2fs/genext2fs.c:972-1201 | growing by one block succeeds exactly if the file is not too large and enough blocks are free, and keeps all other slots |
| `Ext2Volume.Volume.ExtendBlk` | external/genext2fs/genext2fs.c:1205-1244 | adding n blocks succeeds exactly when they and their index blocks fit; then the file holds the old contents followed by the n chunks, and every other file has the same blocks and contents |
| `Ext2Volume.Volume.Rewrite` | external/genext2fs/genext2fs.c:1277-1299 | a change inside one data block leaves every other data block of every file as it was |
| `Ext2Volume.DataDistinct` | external/genext2fs/genext2fs.c:1205-1244 | the data blocks of all files together are distinct |
| `Ext2Volume.AttachClean` | external/genext2fs/genext2fs.c:990-1191 | attaching a block keeps block 0, the free blocks and all unused index slots zero |
| `Ext2Volume.KeptFiles` | external/genext2fs/genext2fs.c:1205-1244 | a step that keeps the slots in use keeps walk and contents of every file |
| `Ext2Dir.AtRecord` | external/genext2fs/genext2fs.c:1274 | in a tiled block the loop condition holds exactly at the start of a record |
| `Ext2Dir.NeedMeans` | external/genext2fs/genext2fs.c:1266 | the least multiple of four that holds an 8-byte header and the name |
| `Ext2Dir.FillLaw` | external/genext2fs/genext2fs.c:1277-1300 | what replaces a record takes the same space, has room for its names and adds one entry (reuse and split) |
| `Ext2Dir.AddToBlock` | external/genext2fs/genext2fs.c:1272-1301 | the first record with room is used; none is used exactly if none has room |
| `Ext2Dir.MadeLaw` | external/genext2fs/genext2fs.c:1277-1300 | the block stays tiled and its map and entries gain the new one |
| `Ext2Dir.WorkBlockLaw` | external/genext2fs/genext2fs.c:1306-1314 | a new block with the entry is tiled |
| `Ext2Dir.AddEntry` | external/genext2fs/genext2fs.c:1269-1314 | all blocks stay tiled; the finite map gains the name if it was absent; the first record with room in the first block that has one is used, or a block is added exactly if no record has room |
| `Ext2Dir.DecodeWords` | external/genext2fs/genext2fs.c:501-504 | a directory block laid out as words is read back record by record |
| `Ext2Dir.RecordBytes` | external/genext2fs/genext2fs.c:501-505 | the bytes of a record: four of d_inode, two each of d_rec_len and d_name_len, low byte first, and the name |
| `Ext2Dir.FindInBlock` | external/genext2fs/genext2fs.c:1330-1333 | the inode of the first entry with the name, in one block |
| `Ext2Dir.FindDir` | external/genext2fs/genext2fs.c:1318-1336 | find_dir is the lookup in the finite map of the directory, 0 if absent |
| `Ext2Links.Tree.constructor` | external/genext2fs/genext2fs.c:2073-2098 | the empty inode table before the root directory, on a fresh volume |
| `Ext2Links.Tree.MakeRoot` | external/genext2fs/genext2fs.c:2073-2098 | the root directory, tiled, with two entries and link count 2, exactly if a block is free |
| `Ext2Links.InitFs` | external/genext2fs/genext2fs.c:2073-2117 | succeeds exactly if the blocks it takes are free; then the table is blank but for the root directory and, if blocks are reserved, lost+found with its entries, spare blocks and size, and the free blocks and inodes are what these leave |
| `Ext2Links.Tree.ReadDir` | external/genext2fs/genext2fs.c:1270-1274 | the records decoded from the words of the blocks the walk returns |
| `Ext2Links.Tree.Add2Dir` | external/genext2fs/genext2fs.c:1247-1316 | on the volume: done exactly for a directory, a name that is neither empty nor too long nor contains a slash, and a record with room or free blocks for another block; then one entry and one link more, and the free count less by the cost |
| `Ext2Links.Tree.FindDir` | external/genext2fs/genext2fs.c:1318-1336 | on the volume: the lookup in the finite map of the directory |
| `Ext2Links.EnteredTables` | external/genext2fs/genext2fs.c:1247-1336 | after add2dir of an absent name find_dir returns the inode for it, and its old answer for every other name and in every other directory |
| `Ext2Links.AddToRefs` | external/genext2fs/genext2fs.c:1277-1315 | the number of entries naming an inode, over the whole filesystem, grows by one for that inode only |
| `Ext2Links.Tree.NewInode` | external/genext2fs/genext2fs.c:1382-1384 | a new inode was blank and nothing named it; there is one exactly if one is free |
| `Ext2Links.Tree.MknodFs` | external/genext2fs/genext2fs.c:1376-1408 | done exactly if an inode is free, the parent is a directory, the name is good and the blocks are free; then the inode and its entries, with "." and ".." for a directory and the device number for a device, and nothing else |
| `Ext2Links.Tree.SetDevice` | external/genext2fs/genext2fs.c:1391-1395 | the first word of i_block of a new device inode is minor + 256 * major |
| `Ext2Links.Tree.MkfileFs` | external/genext2fs/genext2fs.c:1435-1452 | done exactly if mknod_fs is and the blocks of the file with their index blocks are then free; the inode has the size and the contents, zero-padded to whole blocks |
| `Ext2Links.Tree.WriteFile` | external/genext2fs/genext2fs.c:1441-1450 | the size and the blocks of a new file, exactly if they fit, everything else as before |
| `Ext2Links.Tree.WriteBlocks` | external/genext2fs/genext2fs.c:2184-2199 | the bytes of a file up to its size, exactly if every block begins inside the size taken as an int |
| `Ext2Links.DidKeeps` | external/genext2fs/genext2fs.c:1376-1452 | no operation changes kind, size, contents or device number of a file that is in use |
| `Ext2Links.FilesPersist` | external/genext2fs/genext2fs.c:1376-1452 | nor does any run of them |
| `Ext2Links.FileSaved` | external/genext2fs/genext2fs.c:1435-1452 | a file made anywhere in a run comes back byte for byte from write_blocks in every later state, exactly if its size is below 2^31 |
| `Ext2Links.Format` | external/genext2fs/genext2fs.c:202-210 | the formats by mode: directories from 0x4000, devices from 0x2000 and 0x6000, files from 0x8000 |
| `Ext2Meaning.EntryMeans` | external/genext2fs/genext2fs.c:1247-1316 | add2dir, inode by inode: one name, one link, and 1024 bytes of directory size if no record had room |
| `Ext2Meaning.MknodStep` | external/genext2fs/genext2fs.c:1376-1408 | in every run: the inode was blank and has the mode and, if a character or block device, minor + 256 * major in i_block, and 0 otherwise; a directory names itself and its parent and has two links; the parent names it; nothing else changed |
| `Ext2Meaning.MkdirStep` | external/genext2fs/genext2fs.c:1411-1417 | in every run: the same for a directory with the given permissions |
| `Ext2Meaning.DirBit` | external/genext2fs/genext2fs.c:1416 | mode | FM_IFDIR sets that bit and no other |
| `Ext2Meaning.MkfileStep` | external/genext2fs/genext2fs.c:1435-1452 | in every run: a regular file with the permissions, the size modulo 2^32 and the blocks of what was read, with one link and its name |
| `Ext2Meaning.LinkStep` | external/genext2fs/genext2fs.c:1730-1739 | in every run: a hard link is one name and one link more |
| `Ext2Meaning.InitialMeans` | external/genext2fs/genext2fs.c:2073-2117 | the root is inode 2, mode 040755, and names itself twice; with blocks reserved it names lost+found, mode 040700, which names itself and the root; every other inode is blank |
| `Ext2Meaning.BlocksZeroed` | external/genext2fs/genext2fs.c:2086-2105 | new directory blocks are zero behind the names, and the reserved ones hold no name |
| `Ext2Meaning.ReservationMeans` | external/genext2fs/genext2fs.c:2109-2110 | as many blocks as asked for, but at most a quarter of all |
| `Ext2Links.Tree.MkdirFs` | external/genext2fs/genext2fs.c:1411-1417 | the same for a directory |
| `Ext2Links.Tree.Reserve` | external/genext2fs/genext2fs.c:2104-2114 | lost+found gains the reserved blocks, which name nothing, and the size for them, exactly if they and their index blocks are free |
| `Ext2Links.Tree.Build` | external/genext2fs/genext2fs.c:1247-1452 | any sequence of mknod, mkdir, mkfile and hard links: each one that could be done did what it should, the run stops exactly at the first that cannot, and after each of them every i_links_count is the number of live entries naming the inode, modulo 2^16 |
| `Ext2Volume.Volume.SetDevice` | external/genext2fs/genext2fs.c:1391-1395 | the two low bytes of i_block[0] change and nothing else; the volume stays sound |
| `Ext2Volume.WithLowMeans` | external/genext2fs/genext2fs.c:1391-1395 | the lowest byte is the minor number, the next the major, the upper two stay |
| `Ext2Bytes.SaveBlocks` | external/genext2fs/genext2fs.c:2183-2199 | the loop of write_blocks: the first bytes of the blocks in order |
| `Ext2Bytes.ChunkByte` | external/genext2fs/genext2fs.c:1442-1448 | every byte of every block of a new file is that of the file, and zero behind what was read |
| `Ext2Bytes.FileRoundTrip` | external/genext2fs/genext2fs.c:1435-1452 | what mkfile_fs laid out in blocks is what write_blocks saves, exactly if the size is below 2^31 |
| `Ext2Swap.Swab32Twice` | external/genext2fs/genext2fs.c:431-436 | swab32 is its own inverse |
| `Ext2Swap.Swab32Bytes` | external/genext2fs/genext2fs.c:431-436 | swab32 puts the four bytes in reverse order |
| `Ext2Swap.Swab16Twice` | external/genext2fs/genext2fs.c:425-429 | swab16 is its own inverse |
| `Ext2Swap.Swab16Bytes` | external/genext2fs/genext2fs.c:425-429 | swab16 exchanges the two bytes |
| `Ext2Swap.SwapBlock` | external/genext2fs/genext2fs.c:654-661 | every word of the block is swapped |
| `Ext2Swap.SwapGoodDir` | external/genext2fs/genext2fs.c:1915-1917 | the records of a block are swapped although each length is swapped before it is used |
| `Ext2Swap.SwapBadDir` | external/genext2fs/genext2fs.c:1949-1951 | the loop of swap_badfs undoes it |
| `Ext2Swap.SwapKids` | external/genext2fs/genext2fs.c:1826-1828 | exactly the index blocks in use under a double indirect block are swapped; the slots visited beyond lead to block 0 |
| `Ext2Swap.SwapKidsUntil` | external/genext2fs/genext2fs.c:1836-1846 | the same for the inner loop under a triple indirect block |
| `Ext2Swap.SwapBranches` | external/genext2fs/genext2fs.c:1833-1848 | the same for the whole triple loop, in either order |
| `Ext2Swap.SwapGoodIndex` | external/genext2fs/genext2fs.c:1796-1851 | swap_goodblocks swaps exactly the index blocks of the inode, children first; the assertion on the double indirect block holds |
| `Ext2Swap.SwapBadIndex` | external/genext2fs/genext2fs.c:1853-1896 | swap_badblocks swaps exactly the same blocks, parents first |
| `Ext2Swap.SwapDirs` | external/genext2fs/genext2fs.c:1906-1919 | the walk over a directory works while its data blocks are being swapped, and swaps each once |
| `Ext2Swap.FileSystem.SwapGroups` | external/genext2fs/genext2fs.c:1923-1924 | every group descriptor is swapped |
| `Ext2Swap.FileSystem.SwapGoodFs` | external/genext2fs/genext2fs.c:1898-1926 | the image in foreign order: all inodes but the last, their index blocks and directory records, descriptors and superblock |
| `Ext2Swap.FileSystem.SwapBadFs` | external/genext2fs/genext2fs.c:1928-1955 | restores the native image exactly |
| `Ext2Swap.FileSystem.DumpFs` | external/genext2fs/genext2fs.c:2415-2426 | what is written is the converted image; but for the options word that is cleared first, the filesystem in memory is what it was |
| `Ext2Swap.BuiltIsWellFormed` | external/genext2fs/genext2fs.c:1205-1244 | images grown by extend_blk from a fresh one have every block owned at most once and block 0 and unused index slots zero, as the round trip needs |
| `Ext2Swap.TreeIsWellFormed` | external/genext2fs/genext2fs.c:1247-1452 | the image of every tree of directories, files and devices built by these operations is well-formed, so that the round trip holds for it |
| `Ext2Foreign.FieldsWritten` | external/genext2fs/genext2fs.c:1898-1926 | in the written image, on bytes: every 16-bit and 32-bit field of the inodes from 1 to the last but one, of the descriptors and of the superblock has its bytes reversed; the options word, the other inodes and the block tables of special inodes are as they were |
| `Ext2Foreign.TurnRecMeans` | external/genext2fs/genext2fs.c:645-652 | a directory record has the bytes of d_inode, d_rec_len and d_name_len reversed and its name as it was |
| `Ext2Foreign.ForeignIs` | external/genext2fs/genext2fs.c:1915-1917 | the loop over a block turns exactly its records, one behind the other |
| `Ext2Foreign.IndexWritten` | external/genext2fs/genext2fs.c:1796-1851 | every word of every index block in use of a visited inode has its bytes reversed |
| `Ext2Foreign.DirWritten` | external/genext2fs/genext2fs.c:1906-1919 | the data blocks of visited directories hold their records turned |
| `Ext2Foreign.OthersWritten` | external/genext2fs/genext2fs.c:1898-1926 | every other block is written as it is |
| `Ext2Foreign.TreeWritten` | external/genext2fs/genext2fs.c:1898-1926 | every entry of every directory of a tree that can be built stands in the written image at its place with its fields reversed |
| `Handoff.CounterStep` | external/blktrace/blktrace.c:1169-1198 | every step keeps: dp_entries is queued, plus taken and not yet subtracted, minus pushed and not yet counted |
| `Handoff.FifoStep` | external/blktrace/blktrace.c:1387-1415 | every step keeps: handled, in hand and queued buffers are the pushed ones in order, per device and cpu; and a sleeper is signalled |
| `Handoff.RunInv` | external/blktrace/blktrace.c:1169-1430 | the invariants hold in every state of every interleaving |
| `Handoff.PassHandlesAll` | external/blktrace/blktrace.c:1387-1415 | in every interleaving: when a pass finishes, every buffer that had been pushed on any list before it began has been handled |
| `Handoff.MainGoesOn` | external/blktrace/blktrace.c:1200-1208 | the main thread is never stuck |
| `Handoff.WaitMeans` | external/blktrace/blktrace.c:1182-1208 | it waits exactly while dp_entries is zero, and is woken by the tracer that counts first |
| `Handoff.PushAlways` | external/blktrace/blktrace.c:1169-1180 | a tracer may push at any time; the entry is counted by the tracer of that cpu |
| `Handoff.AfterJoin` | external/blktrace/blktrace.c:1900-1923 | once the tracers have joined, dp_entries is the number queued; it is zero exactly if all lists are empty, and then every buffer was handled once, in order |
| `Handoff.Consumer.ProcessTraceBufs` | external/blktrace/blktrace.c:1387-1415 | one pass handles all queued buffers in order and subtracts as many |
| `Handoff.Consumer.CleanTraceBufs` | external/blktrace/blktrace.c:1422-1430 | terminates with all lists empty and everything handled once |
| `Handoff.DrainAfterJoin` | external/blktrace/blktrace.c:1900-1923 | from every state after the join, in every run, the drain ends with each buffer ever pushed handled exactly once, in order |
| `Reframe.CutAppend` | external/blktrace/blktrace.c:1322-1385 | the whole records of a longer stream are those of its prefix and those of what was kept with the rest |
| `Reframe.RecordsFramed` | external/blktrace/blktrace.c:1344-1360 | of a stream of records, each 46 bytes, a 16-bit length with the low byte first and the payload, exactly the whole ones are found |
| `Reframe.RecordsWritten` | external/blktrace/blktrace.c:1322-1385 | however such a stream is cut into buffers, the whole records are written and counted and the last part is kept |
| `Reframe.Scan` | external/blktrace/blktrace.c:1344-1360 | the scan finds the maximal prefix of whole records and counts them |
| `Reframe.Head.HandleBuffer` | external/blktrace/blktrace.c:1297-1385 | one buffer: what is written so far is the maximal prefix of whole records of all input, what is kept is the rest |
| `Reframe.Head.HandleListFile` | external/blktrace/blktrace.c:1322-1385 | a list of buffers likewise |
| `Reframe.CuttingDoesNotMatter` | external/blktrace/blktrace.c:1297-1385 | two cuttings of the same bytes give the same output, the same rest and the same number of events; output and rest are the input |
| `MmapWindow.MmapInfo.SetupMmap` | external/blktrace/blktrace.c:732-763 | window base plus fs_off is fs_size, the base page-aligned, the window inside the file; it moves exactly when another buffer might not fit, and fails exactly when the page remainder exceeds the whole window |
| `MmapWindow.MmapInfo.Read` | external/blktrace/blktrace.c:1662-1703 | a read succeeds exactly if a buffer fits behind setup_mmap, and is appended |
| `MmapWindow.MmapInfo.Close` | external/blktrace/blktrace.c:1552-1571 | after the final truncation the file is exactly what was read |
| `MmapWindow.Trace` | external/blktrace/blktrace.c:1662-1703 | a run of reads succeeds exactly if every one of them fits, always so if twice the largest page remainder is at most (nr - 1) buffers; then the file is the concatenation of the reads |
| `MmapWindow.FitsExactlyWhen` | external/blktrace/blktrace.c:734-746 | a buffer fits if and only if it did before, or twice the page remainder of the file size leaves room for it |
| `MmapWindow.AllRunsFit` | external/blktrace/blktrace.c:732-763 | every run of reads fits if and only if twice the largest page remainder is at most (nr - 1) buffers |
| `MmapWindow.Overrun` | external/blktrace/blktrace.c:734-746 | otherwise a failing run of reads, for every page size and buffer size |
| `MmapWindow.LargePagesOverrun` | external/blktrace/blktrace.c:2087-2094 | a run of 8 KiB buffers on 64 KiB pages that fails |
| `StreamMerge.Sort` | external/blktrace/blkparse.c:2291-2309 | the list stays ordered by the time of the first queued trace, and gains the stream: in front only if it is earlier than the head, else behind the head and the earlier ones, in front of others of the same time |
| `StreamMerge.Prime` | external/blktrace/blkparse.c:2311-2391 | nothing is lost or reordered between file and queue; fewer than a batch means that the file has no more |
| `StreamMerge.VisibleMeans` | external/blktrace/blkparse.c:2355-2362 | what is merged of a file are exactly the records that are not notifications, each as often as it is there |
| `StreamMerge.VisibleAppend` | external/blktrace/blkparse.c:2355-2362 | and in its order |
| `StreamMerge.Deq` | external/blktrace/blkparse.c:2267-2289 | after dequeue, refill and re-sort the list is ordered and the stream has moved on by one trace; the stream leaves the list, stays at its head, or is sorted in again, as in the code |
| `StreamMerge.ConservedStep` | external/blktrace/blkparse.c:2276-2289 | emitted, queued and unread traces of each stream are its file |
| `StreamMerge.BoundedStep` | external/blktrace/blkparse.c:2257-2289 | what is emitted is in order of time, and nothing emitted is later than what is to come |
| `StreamMerge.Merger.Alloc` | external/blktrace/blkparse.c:2393-2406 | the stream is primed and, unless it is empty, put into the list in order of its first trace |
| `StreamMerge.Merger.Handle` | external/blktrace/blkparse.c:2452-2485 | the head is emitted, or nothing happens past the stopwatch end |
| `StreamMerge.Merger.DoFile` | external/blktrace/blkparse.c:2505-2536 | the output is ordered by time and consists, per stream and in its order, of exactly the traces up to the stopwatch end |
| `SymbolHash.AddLaw` | external/elfcopy/hash.c:20-48 | the index joins the end of its chain; every chain stays acyclic and all others are unchanged |
| `SymbolHash.FirstInBucket` | external/elfcopy/hash.c:64-73 | for any hash function, searching the bucket finds what searching everything would |
| `SymbolHash.FirstMeans` | external/elfcopy/hash.c:64-75 | the result is the first-added index with the name, or STN_UNDEF exactly if there is none |
| `SymbolHash.BucketMeans` | external/elfcopy/hash.c:20-48 | the chain of a bucket holds exactly the symbols whose hash modulo the number of buckets it is |
| `SymbolHash.HashTable.constructor` | external/elfcopy/hash.c:7-18 | the empty table |
| `SymbolHash.HashTable.Add` | external/elfcopy/hash.c:20-48 | one more index added; the walk to the end of the chain terminates |
| `SymbolHash.HashTable.Link` | external/elfcopy/elfcopy.c:1289-1297 | the chain building; index 0 into an empty table has no effect |
| `SymbolHash.HashTable.Lookup` | external/elfcopy/hash.c:50-76 | terminates with the first-added index whose name matches |
| `SymbolHash.Rebuild` | external/elfcopy/elfcopy.c:1273-1299 | the rebuilt table holds the symbols from sh_info on in order, without symbol 0 |
| `SymbolFilter.FilterSymbols` | external/elfcopy/elfcopy.c:392-604 | in place: the table starts with the kept symbols in order, newsymidx says where each went, and is dropped exactly if nothing was removed |
| `SymbolFilter.Decide` | external/elfcopy/elfcopy.c:430-557 | the tests of the loop, in its order |
| `SymbolFilter.FateMeans` | external/elfcopy/elfcopy.c:411-439 | stripped are exactly the defined global and weak symbols that the filter does not keep; kept are the undefined, the special, and those of kept sections that are not stripped |
| `SymbolFilter.KeptOrder` | external/elfcopy/elfcopy.c:457-507 | newsymidx is strictly increasing on kept symbols |
| `SymbolFilter.KeptSymbol` | external/elfcopy/elfcopy.c:442-507 | a kept symbol is found at its new index |
| `SymbolFilter.Dense` | external/elfcopy/elfcopy.c:442-528 | every place of the new table belongs to a kept symbol |
| `SymbolFilter.DroppedIsIdentity` | external/elfcopy/elfcopy.c:590-604 | the new table has the old size if and only if newsymidx is the identity |
| `SymbolFilter.UpdateRelocations` | external/elfcopy/elfcopy.c:1352-1419 | in place: the list is the old one, in order, without entries for removed symbols |
| `SymbolFilter.RemapAt` | external/elfcopy/elfcopy.c:1354-1372 | every other entry survives with its new symbol index |
| `SymbolFilter.RemapFrom` | external/elfcopy/elfcopy.c:1354-1372 | no entry is added |
| `SymbolFilter.FaithfulExactly` | external/elfcopy/elfcopy.c:440-557 | a relocation is dropped with its symbol or names the same symbol, if and only if its symbol is not one of a dropped section that the filter keeps or that is neither global nor weak |
| `SymbolFilter.OrphanExample` | external/elfcopy/elfcopy.c:529-548 | a symbol table and a relocation for which that fails |
| `SectionLayout.Pow2Means` | external/elfcopy/elfcopy.c:2641-2646 | alignments are powers of two: 1, and the doubles of such |
| `SectionLayout.RoundUpLaw` | external/elfcopy/elfcopy.c:2651-2653 | the distance is rounded up to the next multiple of the alignment, for negative distances too |
| `SectionLayout.PlacedLaw` | external/elfcopy/elfcopy.c:2497-2558 | the section goes to an offset in [last, last + align) congruent to its old one, and address minus offset is kept |
| `SectionLayout.PlacedOnce` | external/elfcopy/elfcopy.c:2651-2653 | there is only one such offset |
| `SectionLayout.StaysAligned` | external/elfcopy/elfcopy.c:2506-2525 | a section aligned for itself stays so under a larger alignment |
| `SectionLayout.MoveSections` | external/elfcopy/elfcopy.c:2631-2692 | all sections of a block that move do so by one distance, and the end of the file is the largest end |
| `SectionLayout.AdjustSectionOffset` | external/elfcopy/elfcopy.c:2497-2558 | offset and, for alloc sections, address move by the distance |
| `SectionLayout.UpdateLastOffset` | external/elfcopy/elfcopy.c:2602-2629 | the end moves behind the contents of the section, or to its start if it has none |
| `SectionLayout.UpdateSectionOffsets` | external/elfcopy/elfcopy.c:2756-2820 | the layout built section by section, without MOVE_SECTIONS_IN_RANGES |
| `SectionLayout.NoOverlap` | external/elfcopy/elfcopy.c:2602-2692 | a section that moves starts behind the headers and behind the last byte of all kept sections with contents before it |
| `SectionLayout.LayoutLaw` | external/elfcopy/elfcopy.c:2756-2820 | section by section, with alloc sections adjusted: the bytes of kept sections with contents overlap neither each other nor the headers, and all lie before the final end |
| `SectionLayout.OthersMove` | external/elfcopy/elfcopy.c:2656-2672 | without the adjustment, alloc sections stay and the others are placed |
| `SectionLayout.EndIsTight` | external/elfcopy/elfcopy.c:2602-2629 | the final end is where the headers or some kept section with contents end, or where one without starts |
| `SectionLayout.GetEndOfRange` | external/elfcopy/elfcopy.c:2560-2600 | the maximal range of sections that go together, and the largest of their alignments |
| `SectionLayout.UpdateInRanges` | external/elfcopy/elfcopy.c:2756-2820 | the layout built range by range, with MOVE_SECTIONS_IN_RANGES: the ranges are maximal, each moved by one distance for the largest of their alignments, from the end of what is placed before |
| `SectionLayout.RangesPlaced` | external/elfcopy/elfcopy.c:2631-2692 | every kept section lies with its bytes inside the file, at an offset congruent to its old one by its own alignment, with its address moved along if it is alloc and kept otherwise; it lies behind the headers and all ranges before its own if and only if in the old file it starts no further before the first section of its range than the gap that rounding leaves |
| `SectionLayout.RangesApart` | external/elfcopy/elfcopy.c:2631-2692 | sections of one range keep their distance; a kept section with contents ends before every kept section of a later range that starts no further before the first of it than that; all end before the end |
| `SectionLayout.IntoTheHeaders` | external/elfcopy/elfcopy.c:2631-2692 | two sections out of file order in one range, of which the second is put into the headers |
| `FrameProgram.ReadLeb128` | external/elfcopy/dwarf.c:178-205 | succeeds exactly on numbers of at most ten bytes that end inside the data, and gives the number modulo 2^64, sign-extended if asked, and its length |
| `FrameProgram.LebRoundTrip` | external/elfcopy/dwarf.c:178-205 | an encoded number is read back and reading stops behind it; every number below 2^64 takes at most ten bytes |
| `FrameProgram.Chunk.NeedSpace` | external/elfcopy/dwarf.c:2947-2965 | ncols afterwards, with the conversion of the register number to int |
| `FrameProgram.GrowLaw` | external/elfcopy/dwarf.c:2947-2965 | the column exists afterwards if and only if the register number is below 2^31 - 1 |
| `Basics.AsIntLaw` | external/elfcopy/dwarf.c:2947-2965 | the conversion to int is the congruent number of 32 bits with sign |
| `FrameProgram.FirstByte` | external/elfcopy/dwarf.c:3342-3345 | opcode and operand of the first byte |
| `FrameProgram.StepBytes` | external/elfcopy/dwarf.c:3349-3445 | for every first byte, how far the instruction goes: fixed fields, numbers and blocks |
| `FrameProgram.ColumnBytes` | external/elfcopy/dwarf.c:3349-3445 | for every first byte, the column: 0x80 + n and 0xC0 + n name column n, eleven others the number that follows, the rest none |
| `FrameProgram.ActionBytes` | external/elfcopy/dwarf.c:3469-3771 | for every first byte, whether the second pass goes on, what it remembers and restores, and where it allocates again |
| `FrameProgram.Chunk.FirstStep` | external/elfcopy/dwarf.c:3337-3447 | one round of the first switch steps over the operands the standard lists and allocates and writes the column |
| `FrameProgram.Chunk.FirstColumn` | external/elfcopy/dwarf.c:3353-3445 | its cases that allocate a column |
| `FrameProgram.Chunk.SecondStep` | external/elfcopy/dwarf.c:3461-3772 | one round of the second switch steps over the same operands; columns, remembered states and writes are those of `Acts` and `Puts` |
| `FrameProgram.Chunk.SecondColumn` | external/elfcopy/dwarf.c:3480-3772 | its cases that write a column |
| `FrameProgram.Lockstep` | external/elfcopy/dwarf.c:3331-3773 | the second pass visits the positions of the first, up to an unknown opcode |
| `FrameProgram.Chunk.FirstPass` | external/elfcopy/dwarf.c:3331-3449 | writes the columns its instructions name, in order, with ncols grown for each; all exist if and only if all register numbers are small |
| `FrameProgram.Chunk.SecondPass` | external/elfcopy/dwarf.c:3454-3773 | writes, in order, the columns of its instructions and those restore_state overwrites; all exist, given those of the first pass |
| `FrameProgram.Chunk.Interpret` | external/elfcopy/dwarf.c:3331-3773 | where every number has at most ten bytes and ends inside the data, and every block ends inside the data: what both passes write, in order, and that all of it exists if and only if every register number met is below 2^31 - 1 |
| `FrameProgram.LargeRegister` | external/elfcopy/dwarf.c:2947-2965 | an instruction for which they do not |
| `FrameProgram.WrappingBlock` | external/elfcopy/dwarf.c:3409-3419 | a block length that leads the cursor back into the data, to a register number of 2^31 that no instruction before it names |
| `FrameProgram.LongNumber` | external/elfcopy/dwarf.c:178-205 | a number of fourteen bytes that is 0 modulo 2^64 and 2^31 where shifts count modulo 64; it ends the model run |
| `IoMonitor.OnePerKey` | external/blktrace/blkiomon.c:366-392 | at most one stored trace per device, sector and action class |
| `IoMonitor.MatchedMeans` | external/blktrace/blkiomon.c:374-392 | a matched pair has the same device, sector and read, write, fs and pc bits, and is an older issue and a completion |
| `IoMonitor.RoundMeans` | external/blktrace/blkiomon.c:394-429 | a trace that is neither issue nor completion changes nothing; any other is a match or a mismatch exactly if one with its device, sector and class is stored |
| `IoMonitor.Fetch` | external/blktrace/blkiomon.c:374-392 | the stored trace with the key is taken out, or there is none |
| `IoMonitor.OneOwner` | external/blktrace/blkiomon.c:338-372 | each trace object has exactly one owner |
| `IoMonitor.HistIndex` | external/blktrace/stats.h:103-114 | the one bucket for a value |
| `IoMonitor.BucketsMean` | external/blktrace/blkiomon.h:47-57 | the buckets by value: 0, up to 1 KiB and doubling to 8 MiB for sizes; 0, up to 8 microseconds and doubling to 2^25 for times |
| `IoMonitor.HistAccount` | external/blktrace/stats.h:116-121 | the histogram of the values, and its total |
| `IoMonitor.AddLaw` | external/blktrace/stats.h:45-54 | number, sum, sum of squares, minimum and maximum of the values |
| `IoMonitor.RatesMean` | external/blktrace/blkiomon.c:313-315 | whole microseconds between the two traces, and the throughput as the quotient of 32 bits of 1000 times the bytes |
| `IoMonitor.GoingMeans` | external/blktrace/blkiomon.c:322-332 | reads are the pairs completed as reads, writes the others completed as writes, the rest go both ways |
| `IoMonitor.Account` | external/blktrace/blkiomon.c:308-336 | the statistics of each device are those of its matched pairs; dies exactly when the pair is less than a microsecond apart |
| `IoMonitor.TotalsAgree` | external/blktrace/blkiomon.c:322-335 | both histogram totals are reads plus writes plus bidirectional requests |
| `IoMonitor.Monitor.DoTrace` | external/blktrace/blkiomon.c:394-429 | ends the run exactly if the trace meets its partner less than a microsecond away; else stored, matched as an older issue with a not older completion, or the younger kept, by the cases of the code |
| `IoMonitor.Monitor.DoFifo` | external/blktrace/blkiomon.c:451-524 | every trace taken in is one round; the run stops exactly at a pair less than a microsecond apart; up to there processed is stored plus twice the matches plus the mismatches, with all of the above |

## Left out

- genext2fs shrinking and freeing (`free_blk`, the reduce paths of `walk_bw`), whose block-to-group map differs from the one used for allocation, and files with holes.
- genext2fs input: device tables, the host directory tree, `find_path`, symbolic links (a short one keeps its text in i_block), user and group ids, times.
- Ext2Links.Tree.MkfileFs: the buffer for the file is always allocated; the number of its blocks is an int in the program, which takes 2 TiB to overflow.
- Ext2Volume, Ext2Links and Ext2Swap look at the image through typed views: blocks of 256 words, the fields of inodes, the bits of bitmaps. A directory block is changed by decoding its words into records and laying the changed records out again.
- Ext2Alloc.Allocator.constructor: geometries whose last group has no room for its own metadata, which init_fs accepts (`Ext2Alloc.AcceptedWithoutRoom`, `Ext2Alloc.UnseenGroup`), are excluded: there the program marks bitmaps outside the image. `Ext2Alloc.MetadataInside` and `Ext2Alloc.AllSeen` give the exact conditions.
- Ext2Links.Tree.FindDir: a `find_dir` on something that is not a directory, which reads file data as records, is not modelled.
- Ext2Links.Tree.MknodFs: the parent is an inode in use, as it is for every caller.
- Ext2Swap.FileSystem.SwapGoodFs: the block table of inodes that pass the test for special files, among them every symbolic link because FM_IFLNK contains FM_IFCHR, is swapped twice and so stays native, and the last inode is not visited at all; the contract says so. The round trip assumes that such inodes have no index blocks.
- `alloc_nod` prefers a group other than group 0 whenever one qualifies, because group 0 cannot be told from "none yet"; the comment above the loop promises the group with most free blocks among all. `Ext2Alloc.BestGroup` follows the code.
- MmapWindow.MmapInfo.Read: what the kernel does with a read that does not fit into the window is not modelled; the run ends.
- blktrace: processes, signals, sockets, network mode, `poll`, debugfs; failed writes in `handle_list_file`; failures of `ftruncate` and `mmap`; memory management in `tb_combine`.
- Handoff models locks by the atomicity of the steps between them; buffers are opaque there.
- blkparse: parsing, formatting, skip lists, `trace_rb_find`, pipe mode; a file ends in the model where `ms_prime` meets a record it cannot read, and the filter on actions and on the stopwatch start in `handle` only selects what is printed.
- StreamMerge.Merger.DoFile: interruption by a signal (`is_done`) is not modelled.
- elfcopy: libelf, string tables, program headers, segments, `get_section_real_align` (its result is a parameter), `sh_info` of symbol tables, the assertion on the type of orphaned symbols, the restoring of `d_size` after relocations are compacted, section ranges (`rangesort.c`), with which the program ends if sections overlap each other; the headers are not among them.
- SectionLayout.UpdateSectionOffsets: here and in `UpdateInRanges`, file offsets and addresses do not wrap at 64 bits.
- FrameProgram.Chunk.SecondStep: the contents of columns, the CFA rule, program counters and printing are not modelled; reads of the CIE row by the restore opcodes are not claimed to be in range. A number of more than ten bytes ends the model run, because C leaves shifts by 64 and more undefined (`FrameProgram.LongNumber`); so does a number, block or chunk that runs past the end of the section, because the cursor may wrap around from there (`FrameProgram.WrappingBlock`).
- IoMonitor.HistAccount: counters do not wrap (32 bits for buckets, 64 bits for the others); the throughput product and the time given to the histogram are cut to 32 bits as in the code.
- IoMonitor.Monitor.DoFifo: the interval thread, driver data and failing allocations are not modelled; device statistics are a map instead of the tree they are kept in.
- iptables, openvpn headers, and everything that is configuration or printing.
