# Frostfire: a verified model

Frostfire is a single-file, copy-on-write B+tree store with one writer, snapshot readers, a gated
freelist and two alternating meta pages. This project models it in Dafny and proves what it is for: its
trees are finite maps, its readers see snapshots, its commits are atomic, no page is used twice, and every
page is accounted for: in the committed version, on the freelist, or in a set of lost pages that grows by
exactly what an abort discards.

The layers, bottom up:

- **Trees** (`Keys`, `OrderedMap`, `Values`, `Layout`, `Trees`, `TreeUpdate`, `TreeDelete`, `TreeCapacity`,
  `TreeSound`, `TreeRepairs`, `TreeHistory`, `TreeLimits`, `KeyOrder`, `TreeBulk`, `LoadLimits`): what update, delete
  and bulk load do to trees of variable-length cells in 4096-byte pages, as functions, proved against sorted lists and
  finite maps.
- **Page lifecycle** (`Pages`, `Protocol`, `ProtocolSafety`, `ProtocolRuns`, `ProtocolReaders`, `ProtocolReuse`,
  `ProtocolLimits`): readers, writer, write-back, commit, abort and crash as a state machine with one invariant; safety over all its runs.
- **Transactions** (`Transactions`, `FreelistChain`, `Commits`): the database handle as a class whose methods
  take exactly the steps of that state machine.
- **Trees on pages** (`Placed`, `Overflow`, `PageSearch`, `LeafUpdate`, `NodeUpdate`, `PagePairs`,
  `NodeDelete`, `BTrees`, `BulkLoads`, `Cursors`): the in-place, page-allocating code, proved to
  refine the tree functions with exact accounting of the pages in use.
- **Databases** (`Tenants`, `Buckets`, `BucketTxns`, `Snapshots`, `Databases`, `DatabaseRuns`): a catalog tree and
  the trees of its buckets on one set of pages; begin, change, commit, crash and reopen of whole databases.
- **Bytes** (`Encoding`, `SlottedPages`, `Codecs`, `PageBytes`) and **buffer pool** (`Clock`, `BufferPools`), over
  `Seqs` and `Arith`.

How to read the contracts. A tree on pages is a `PTree`; `Shape` forgets the page ids, `TreePages` is the
multiset of its pages with overflow chains, and `Stored` says that a store holds it. A method that changes
a tree takes the rest of the pages in use as a ghost multiset `rest` and promises `Live() == rest + pages of
the new tree`: pages in use change by exactly the old and the new tree, and since a live page is counted
once, no page is shared. `Kept` says that other pages have their contents, `Past` that committed versions
are untouched, `Still` that a committed page that goes out of use stays out for the transaction. `Wf` is
the tree invariant: sorted keys, separator bounds, uniform leaf depth, page sizes; `Dense` that no page
below the root is empty; `SoundToDelete` that every repair a delete makes on its way up has a sibling and room.
Entries hold values as they were written; `AsRead` is what reads back of a value, and `WriteTo` what a write leaves
of a list of entries. The key range of a subtree is a pair of reals, through an order embedding of keys.

Some natural claims are false of the code. Each has an input or a run that breaks it, and the condition
under which the code does meet it:

- Deletes always fit their pages: histories from the empty tree that end in failure (`TreeLimits`); a delete
  fails if and only if a repair on its path lacks room (`TreeSound.DeleteExactly`).
- Deletes keep a tree well formed, bulk-loaded ones too: one that fails (`LoadLimits.LoadedDeleteFails`) and one
  that completes with leaves at two depths (`LoadLimits.LoadedDeleteUneven`). Of every well-formed tree: the tree
  left is well formed if and only if every repair on the path has a sibling and room
  (`TreeSound.DeleteSoundly`, `TreeHistory.DeleteRootSoundly`); the entries are right in either case.
- The bulk loader accepts increasing keys only: two empty keys pass (`BulkLoads.EmptyKeyTwice`); its test is
  right if and only if not both keys are empty (`KeyOrder.OrderTest`).
- An aborted bulk load gives its pages back: `BulkLoads.LoadAndAbort`; it does if and only if the spine is at most
  one leaf and every value appended is inline (`BulkLoads.BulkLoader.Abort`).
- Every page is in a version or on the freelist: `ProtocolLimits.AbortCanLeak`; an abort keeps that if and only
  if the transaction has allocated no page below the page count it began with (`ProtocolRuns.AbortLeaks`).
- Every value reads back: the 16-bit length field cuts off values over 65535 bytes, and those only
  (`Values.ReadsBack`, and on bytes `Codecs.ReadStored`).
- A dropped bucket is gone: one that was created, committed and dropped stays (`DatabaseRuns.CreateThenDrop`); a
  drop takes effect if and only if the committed root is not 0 (`DatabaseRuns.DropAndCommit`). The comment at
  bucket.go:187 takes that case for a bucket created in the same transaction; the model follows the code.

## Model

| member | source | states |
|---|---|---|
| Keys.RankOrder | btree.go:100-108 | byte-wise key comparison is exactly the order of an embedding of keys into the reals, so the proofs about separator bounds speak of the program's own order |
| Keys.Lexicographic | btree.go:100-108 | the order of keys is lexicographic, byte by byte: one key comes before another if and only if it is a proper prefix of it, or has the smaller byte where they first differ |
| OrderedMap.PutIsUpdate | update.go:22-82 | reference semantics of a write: putting an entry into a sorted list is update of the finite map the list stands for |
| OrderedMap.RemoveIsRemoval | delete.go:3-45 | reference semantics of a delete: removing a key from a sorted list is removal from its finite map, and leaves it sorted without the key |
| Values.ReadsBack | bnode.go:376-378 | what the 16-bit length field lets through is the first bytes of the value, their number taken modulo 65536; it is the value if and only if that has at most 65535 bytes |
| Values.WriteReads | update.go:99-112 | as far as reading goes every write puts the value in, cut to what its length field can say, although a write is skipped when the key already reads as the new value |
| Values.WriteIsUpdate | update.go:22-82 | a write, of a value of any length, is update of the finite map that reads back |
| Values.WriteShort | update.go:22-82 | with values of at most 65535 bytes a write is exactly Put |
| Layout.CellBounds | bnode.go:55-58 | every storable leaf cell costs between 7 and 1023 bytes with its slot, and only a non-empty value is moved to overflow pages |
| Layout.AnyStorable | update.go:22-26 | every entry whose key is not too long can be stored, whatever its value |
| Layout.Sizes | bnode.go:138-148 | the limits as numbers: keys of at most 1008 bytes, four of the longest separators fill an internal page, cells of up to 1015 bytes are inline, and what each cell costs |
| Layout.LeafSplitFits | update.go:296-321 | for all cell sizes up to the maximum: the split point of a leaf that overflowed by one cell leaves both halves non-empty and within one page, and the cell with which the left half passes half the size is the last one to go left |
| Layout.InternalSplitFits | update.go:409-435 | for all key sizes up to the maximum: both halves of an overfull internal page fit and keep at least two separators, and the separator with which the left half would pass half the size goes up |
| TreeUpdate.UpdateRefines | update.go:84-238 | on every well-formed tree, in all three modes and for values of any length: mode and presence decide the outcome, the entries become exactly Put of the old ones unless the key already reads so, and key order, separator bounds, leaf depth and page sizes are kept through leaf and internal splits |
| TreeUpdate.UpdateDense | update.go:240-407 | a write leaves no page below the root without cells |
| TreeUpdate.LeafSplitsWhenFull | update.go:120-164 | a write splits a leaf if and only if its entries would take more than 4096 bytes, and then where the left half passes half of them |
| TreeUpdate.NodeSplitsWhenFull | update.go:191-238 | an internal page is split if and only if its child was and the new separator does not fit; otherwise nothing but the child changes |
| TreeUpdate.GrowNodePaged | update.go:323-407 | the two halves of an internal page and the separator between them are the old page's separators and children in order |
| TreeDelete.DeleteTakes | delete.go:47-254 | on every well-formed tree, with empty pages or without: a missing key is reported missing, and a delete that completes has exactly the other entries in order |
| TreeDelete.RepairOk | delete.go:116-254 | a repair between siblings of one height keeps order, bounds, height and page sizes |
| TreeRepairs.DeleteRepairs | delete.go:75-254 | every internal page on the way up, by counts of cells and bytes: it is left alone unless the child has fewer than 4 cells or 1024 bytes; then one cell comes from the left neighbour if that has more than 4 and 1024 bytes without its last, else from the right, else the child is merged with the left neighbour, else with the right, else takes the page's place |
| TreeSound.RepairLow | delete.go:188-254 | a repair between siblings of different heights fails or leaves leaves at two depths |
| TreeSound.DeleteSoundly | delete.go:47-254 | on every well-formed tree: deleting a key that is there leaves a well-formed tree of the same height if and only if every repair on its path has a sibling and room, a test on the tree before the call |
| TreeSound.DeleteDense | delete.go:188-198 | where no page is empty, delete leaves none empty, and room is all that soundness asks for |
| TreeDelete.DropSeparator | delete.go:395-412 | the parent rebuilt after a merge only loses a separator, so it always fits |
| TreeCapacity.MergeExactly | delete.go:345-393 | a merge exceeds its page if and only if both pages and the separator pulled down add up to more than 4096 bytes |
| TreeCapacity.BorrowLeftExactly | delete.go:285-314 | a borrow from the left fails if and only if the receiving page has no room for the moved cell or the parent has none for the new separator |
| TreeCapacity.BorrowRightExactly | delete.go:316-343 | the same for a borrow from the right |
| TreeCapacity.RepairExactly | delete.go:116-254 | which of the four repairs is chosen, and exactly when it has room |
| TreeSound.DeleteExactly | delete.go:75-102 | without empty pages a delete fails if and only if the key is there and some repair on its path lacks room; one that completes leaves a well-formed tree |
| TreeCapacity.MergeFits | delete.go:188-263 | merge capacity: with leaf cells of at most 584 bytes and separators of at most 510, an underfull page and a sibling that cannot donate always fit in one page |
| TreeSound.DeleteFits | delete.go:75-102 | with those sizes, and room in internal pages for separators to vary in length, no delete ever overflows a page |
| TreeCapacity.FixedLengthRoomy | delete.go:267-283 | with keys of one length every well-formed tree has that room |
| TreeLimits.MergeCanOverflow | delete.go:256-263 | six writes and a delete, from the empty tree, end in a merge that exceeds its page: that deletes always fit is false of the code |
| TreeLimits.BorrowCanOverflow | delete.go:285-295 | ten writes and a delete end in a borrow that does not fit the receiving page, though the sibling can donate |
| TreeLimits.SeparatorCanOverflow | delete.go:267-283 | nineteen writes and a delete end in a borrow whose longer separator does not fit the parent |
| LoadLimits.LoadedDeleteFails | delete.go:188-263 | after a bulk load of three entries the delete of the last one fails: it tries to merge a leaf with an internal page that has no cells |
| LoadLimits.LoadedDeleteUneven | delete.go:188-254 | after a bulk load of six entries the delete of the last one completes and leaves a leaf beside internal pages: that deletes keep all leaves at one depth is false of the code |
| TreeHistory.UpdateRootRefines | update.go:22-82 | update on a whole tree, up to a new root, leaves exactly what the write leaves in the list of entries; a refused call returns no new root |
| TreeHistory.DeleteRootSoundly | delete.go:3-45 | delete on any whole tree: an absent key is reported, a completed delete has exactly the other entries, and the tree left is well formed if and only if the delete is sound below the first page with separators |
| TreeHistory.DeleteRootRefines | delete.go:3-45 | delete on a whole tree without empty pages, through root collapse and the empty tree, is removal from the finite map; it fails exactly when it is not sound |
| TreeHistory.RunRefines | btree_test.go:43-160 | over every history of writes and deletes that no full page stops, with values of any length: the tree is well formed and what reads back is the map the same operations build |
| TreeHistory.FixedLengthRun | btree_test.go:43-160 | with keys of one length and modest cells no history is ever stopped |
| ProtocolSafety.AllocateKeeps | txn.go:71-113 | handing out a page keeps the lifecycle invariant, whichever of the three sources it comes from |
| ProtocolSafety.FreeKeeps | txn.go:115-134 | freeing a page keeps the lifecycle invariant |
| ProtocolSafety.PublishKeeps | txn.go:168-173 | publishing a commit keeps the lifecycle invariant, with every reader's version still protected |
| ProtocolSafety.AbortKeeps | txn.go:187-205 | abort keeps the lifecycle invariant |
| ProtocolSafety.CrashKeeps | db.go:28-67 | a crash at any point followed by Open re-establishes the lifecycle invariant |
| ProtocolSafety.BeginReadKeeps | txn.go:27-38 | a new reader keeps the lifecycle invariant |
| ProtocolSafety.EndReadKeeps | db.go:73-79 | the end of a reader keeps the lifecycle invariant |
| ProtocolSafety.BeginWriteKeeps | txn.go:40-49 | a new write transaction keeps the lifecycle invariant |
| ProtocolSafety.WriteKeeps | txn.go:83-89 | writing a page the transaction has allocated keeps the lifecycle invariant: no version sees the page |
| ProtocolSafety.WriteBackKeeps | bufferpool.go:375-388 | writing a dirty page back at any time keeps the lifecycle invariant |
| ProtocolSafety.SealKeeps | freelist.go:106-132 | a transaction whose freelist chain is written is ready to flush |
| ProtocolSafety.FlushKeeps | txn.go:154-157 | after the flush no page of the working version is dirty |
| ProtocolSafety.SyncKeeps | txn.go:158-161 | after the sync every page of the working version is durable |
| ProtocolSafety.WriteMetaKeeps | meta.go:108-119 | writing the new meta to the other slot leaves the current one in place |
| ProtocolSafety.CrashMeta | meta.go:126-163 | whichever state the meta page being written is in, loading finds the current meta or the new one |
| ProtocolRuns.StepKeeps | txn.go:27-205 | every step of readers, writer, write-back, commit, abort and crash keeps the invariant |
| ProtocolRuns.RunFromInit | meta.go:181-222 | the invariant holds in every state of every run from a new database |
| ProtocolReaders.SnapshotIsolation | txn.go:27-134 | over every run from a new database: as long as after every event more readers of a version have begun than ended, each page of it keeps the contents it was committed with |
| ProtocolReaders.ReadersCounted | db.go:73-79 | in every state of every run the reader table has for each version the readers begun less the readers ended since the last crash, and no entry if that is 0 |
| ProtocolRuns.ReaderBegins | txn.go:27-38 | a reader begins with the version committed last, all of whose pages are intact |
| ProtocolRuns.HeadDecides | freelist.go:22-29 | the freelist stays ordered by the transaction that freed, so testing only its head overlooks no reusable page |
| ProtocolReuse.GrowsOnlyWhenItMust | txn.go:79-106 | an allocation grows the file, by one page, if and only if the transaction has freed no page of its own and every page on the freelist was freed after some open reader began |
| ProtocolReuse.OwnPageNext | txn.go:115-134 | a page that the transaction took from the end of the file and frees is the next one it gets |
| ProtocolReuse.FlushesItsOwn | txn.go:154-157 | a commit writes exactly the dirty pages the transaction has allocated, with what the cache has of them |
| ProtocolReuse.AbortLeavesNoneDirty | txn.go:187-205 | whatever a transaction did, after its abort no page is dirty that was not dirty before it began |
| ProtocolRuns.CrashAtomicity | txn.go:136-174 | at every point of a transaction, with any subset of unsynced pages lost and the meta page torn: Open finds the last committed or the just-written meta, every page of that version is intact, and the freelist is exactly its list |
| ProtocolRuns.Conservation | txn.go:71-174 | between transactions every data page is in exactly one of: the committed version, the freelist, the leaked set |
| ProtocolRuns.ConservationWhileWriting | txn.go:71-134 | during a transaction every data page is in exactly one of: the working version, freed, reusable, the freelist, the leaked set |
| ProtocolRuns.EveryRunConserves | txn.go:71-174 | in every state of every run from a new database each data page is in exactly one place |
| ProtocolRuns.FreelistPersisted | freelist.go:84-133 | after a commit the freelist is what it was, then the freed and then the reusable pages, all with the new transaction id; the chain on disk lists exactly that, in order |
| ProtocolRuns.NoLeak | txn.go:71-174 | on every run in which no abort discards a page taken from the freelist, the committed version and the freelist cover the whole file |
| ProtocolRuns.AbortLeaks | txn.go:187-205 | full coverage survives an abort if and only if nothing had leaked before and every page the transaction has allocated is at or past the page count it began with; the pages leaked are exactly its allocations below that count |
| ProtocolRuns.PoppedAre | txn.go:79-106 | the pages a transaction has taken from the freelist are exactly its allocations below the page count it began with |
| ProtocolRuns.CoveredWhen | txn.go:71-174 | between transactions version and freelist cover the whole file if and only if nothing has leaked |
| ProtocolLimits.AbortCanLeak | txn.go:187-205 | a run from a new database to an abort that loses a page: one commit takes page 2, the next frees it, the third pops it from the freelist and aborts |
| Transactions.DB.BeginRead | txn.go:27-38 | registers the reader and returns a meta whose version is in the cache unchanged |
| Transactions.DB.UnregisterReader | db.go:73-79 | takes the state machine's step for the end of a reader |
| Transactions.DB.MinReaderTxn | db.go:81-92 | the loop finds the oldest version that the current meta or any reader names |
| Transactions.DB.BeginWrite | txn.go:40-49 | opens a working version equal to the committed one |
| Transactions.DB.PopReusable | freelist.go:22-29 | pops the head if and only if it was freed no later than the gate |
| Transactions.DB.AllocatePage | txn.go:71-113 | hands out a page nothing uses, whatever readers do meanwhile; no page in use changes; never a page of the committed version; the file grows if and only if nothing can be reused |
| Transactions.DB.PickPage | txn.go:79-106 | the three sources in order: a page freed in this transaction, the freelist head, the end of the file |
| Transactions.DB.RemoveAlloc | txn.go:124-129 | the first occurrence leaves the list of allocated pages |
| Transactions.DB.WriteBack | bufferpool.go:375-388 | takes the write-back step, which may happen beside the writer at any allocation |
| Transactions.DB.FreePage | txn.go:115-134 | exactly that page leaves the working version, and goes to the list its age demands |
| Transactions.DB.SetCatalogRoot | txn.go:53-62 | changes the catalog root of the new meta and nothing else |
| Transactions.DB.Push | freelist.go:16-20 | appends the pages in order with their transaction |
| Transactions.DB.Flush | txn.go:154-157 | takes the flush step: dirty pages of the transaction reach the file, still unsynced |
| Transactions.DB.Seal | freelist.go:106-132 | the new meta points to the chain |
| Transactions.DB.Sync | txn.go:158-161 | takes the sync step: nothing stays unsynced |
| Transactions.DB.WriteMeta | meta.go:108-119 | the new meta, one transaction on, goes to the slot that does not hold the current one |
| Transactions.DB.Publish | txn.go:168-173 | takes the publication step: new current meta, freed pages on the freelist |
| Transactions.DB.Abort | txn.go:187-205 | takes the abort step: nothing of the transaction stays dirty |
| Transactions.DB.MarkClean | bufferpool.go:291-304 | exactly the listed pages are no longer dirty |
| Transactions.DB.Reopen | db.go:50-66 | Open on any file a crash can leave computes exactly the recovered state of the state machine, freelist included |
| Transactions.AllocatesNothingCommitted | txn.go:71-134 | a page of the committed version is never handed out in the same transaction |
| FreelistChain.WalkChainIDs | freelist.go:46-63 | following the chain gives exactly its pages |
| FreelistChain.ReadFreelistChain | freelist.go:65-82 | reading the chain gives exactly the ids it lists, in order |
| FreelistChain.FilledChain | freelist.go:116-130 | pages filled 510 ids at a time form a chain that lists exactly the ids |
| Commits.SizeChain | freelist.go:91-104 | the sizing loop ends although allocation shrinks the list it sizes; the chain has room, and no page of it starts past the list |
| Commits.FillChain | freelist.go:116-130 | writes the chain in place; reading it back gives the list; no other page in use changes |
| Commits.PersistFreelist | freelist.go:84-133 | frees the old chain, writes a new one that lists every page free after the commit, and keeps all other pages in use |
| Commits.Commit | txn.go:136-174 | the version committed is exactly the working pages with their contents plus the new chain, durable on disk, one transaction on, older versions untouched; the sealed state in between reaches it by flush, sync, meta, sync and publication |
| Overflow.WriteOverflowPages | overflow.go:21-52 | a value spread over fresh pages of 4087 bytes each; exactly those pages join the working version, and the file grows by no more |
| Overflow.ReadOverflowPages | overflow.go:54-72 | reading a number of bytes from a chain gives that many of the bytes that were written |
| Placed.ChainLength | overflow.go:21-52 | a value of n bytes takes exactly n/4087 overflow pages, rounded up |
| Overflow.FreeOverflowPages | overflow.go:74-87 | freeing a chain releases exactly its pages |
| Overflow.LeafCellOverflow | overflow.go:89-94 | a chain is written if and only if the value does not fit inline, however long it is, and its id is then not 0 |
| PageSearch.SearchLeaf | btree.go:89-111 | binary search finds the key's slot, and the key if and only if the leaf has it |
| PageSearch.SearchInternal | btree.go:158-176 | binary search finds the child whose range has the key |
| PageSearch.LeafValue | btree.go:75-87 | the value of a cell, inline or from its chain, as far as its length field says |
| PageSearch.Search | btree.go:51-73 | finds the key if and only if the stored tree has it, with its value as it reads back |
| LeafUpdate.LeafSplitIndex | update.go:296-321 | the loop in 16-bit arithmetic computes the split point whose halves are proved to fit |
| LeafUpdate.SplitLeaf | update.go:240-294 | two fresh pages hold the two halves of the leaf with the new cell; pages in use change by exactly the old and new ones |
| LeafUpdate.ChooseSplit | update.go:240-253 | the total size in 16-bit arithmetic and the split point, for a new and for a replaced cell |
| LeafUpdate.Halves | update.go:271-293 | the ranges copied in each of the four cases are the two halves of the new cell list |
| LeafUpdate.CopyLeaf | update.go:130-141 | one fresh page holds the leaf with the new cell; exact page accounting |
| LeafUpdate.ReplaceLeafValue | update.go:99-141 | replacing a value: refused, unchanged, copied or split as the tree function says, the old chain released |
| LeafUpdate.AddLeafValue | update.go:143-164 | adding a cell: refused, copied or split as the tree function says |
| LeafUpdate.UpdateLeaf | update.go:91-97 | the leaf case of a write refines the tree function |
| LeafUpdate.ReleaseChain | update.go:114-118 | the chain of a cell that goes away is released, and nothing else |
| LeafUpdate.LeafGuard | update.go:120-128 | the size test before a leaf is rewritten is exact |
| NodeUpdate.InternalSplitIndex | update.go:409-435 | the loop in 16-bit arithmetic computes the promoted separator |
| NodeUpdate.PlaceSplit | update.go:323-407 | all five placements rebuild the same separators and children, cut at the promoted one |
| NodeUpdate.SplitInternal | update.go:323-407 | two fresh internal pages over the same subtrees, with exact page accounting |
| NodeUpdate.ApplyChildSplit | update.go:219-238 | the page after a child split that fits in it |
| NodeUpdate.BuildNode | update.go:191-201 | a fresh internal page over subtrees in place, with exact page accounting |
| NodeUpdate.BuildTwo | update.go:333-342 | two fresh internal pages, both allocated before either is filled |
| NodeUpdate.RebuildParent | update.go:191-238 | the parent page after its child became one or two pages |
| NodeUpdate.UpdateNode | update.go:84-217 | the recursive write on pages refines the tree function; pages in use change by exactly those of the old and the new subtree; a refused or equal write changes nothing |
| PagePairs.BorrowFromLeft | delete.go:285-314 | the pages after a left borrow are the joined content of both, cut one cell earlier; internal pages rotate through the parent |
| PagePairs.BorrowFromRight | delete.go:316-343 | the same for a right borrow |
| PagePairs.MergePages | delete.go:345-393 | the merged page is the joined content, with the separator pulled down between internal pages |
| PagePairs.RebuildParentForBorrow | delete.go:267-283 | one separator and the children around it replaced |
| PagePairs.RebuildParentForMerge | delete.go:395-412 | one separator dropped and the children around it replaced by one |
| PagePairs.Measures | bnode.go:107-136 | the measures taken of a page (cells, bytes used, underfull, can donate) are those of its content |
| NodeDelete.PlacePair | delete.go:124-139 | the child is rewritten in place, the sibling into a fresh page, and the sibling's old page is freed |
| NodeDelete.PlaceMerged | delete.go:208-218 | both siblings in one fresh page; both old pages are freed |
| NodeDelete.BorrowAt | delete.go:116-172 | a borrow on pages is the rebalancing of the tree, with exact page accounting |
| NodeDelete.MergeAt | delete.go:200-254 | a merge on pages is the merge of the tree; both old pages are freed |
| NodeDelete.RepairChild | delete.go:98-198 | borrow left, else right, else merge left, else right, else hand up the only child, as the tree function says |
| NodeDelete.RebuildAbove | delete.go:94-114 | the page above is copied with the new child if that is not underfull, and repaired otherwise |
| NodeDelete.DeleteFromLeaf | delete.go:54-73 | the leaf without its cell in a fresh page, its overflow chain freed |
| NodeDelete.DeleteNode | delete.go:47-102 | the recursive delete on pages refines the tree function on every well-formed tree, with exact page accounting, also where that function leaves an uneven tree; a missing key changes nothing |
| BTrees.BTree.Update | update.go:22-82 | contents become what the write leaves of the old ones, for values of any length; refused writes and writes of what already reads so leave tree and transaction unchanged; the pages in use are exactly the new tree and the rest, other pages keep their contents, committed versions are untouched, and a rewritten tree's committed root is gone for good; the file grows by at most the overflow pages, two pages a level and a root |
| BTrees.BTree.FirstInsert | update.go:27-43 | the first entry of an empty tree gets a leaf of its own |
| BTrees.BTree.SetRoot | update.go:62-81 | the rewritten root, or a new root above its two halves |
| BTrees.BTree.Delete | delete.go:3-45 | on every well-formed tree contents become Remove of the old ones, through root collapse and the empty tree, on exactly the pages of the new tree; the tree is well formed afterwards if and only if the delete is sound; a missing key changes nothing; it fails exactly when the tree function does; the file grows by at most a leaf and two pages a level |
| BTrees.BTree.Collapse | delete.go:24-44 | an empty leaf root disappears, a root without separators gives way to its only child, each freed |
| BTrees.BTree.Search | btree.go:51-73 | finds exactly what the tree holds, reading only |
| BTrees.FreeSubtree | btree.go:117-156 | releases exactly the pages of the subtree, overflow chains included |
| BTrees.BTree.FreeAll | btree.go:113-115 | releases exactly the tree's pages |
| Cursors.Cursor.First | cursor.go:56-68 | on the first entry, or closed if there is none |
| Cursors.Cursor.Last | cursor.go:71-83 | on the last entry, or closed |
| Cursors.Cursor.Next | cursor.go:114-145 | from entry p to entry p + 1, across leaves, or closed at the end; from behind a leaf to the next leaf |
| Cursors.Cursor.ClimbRight | cursor.go:124-144 | up to the first page with a child further right and down to its first cell, which is the next entry; closed if there is none |
| Cursors.Cursor.ClimbLeft | cursor.go:159-178 | the mirror image |
| Cursors.Cursor.Prev | cursor.go:148-179 | from entry p to entry p - 1, across leaves, or closed at the start |
| Cursors.Cursor.Seek | cursor.go:86-111 | on the least key at or above the target, even if it is in the next leaf |
| Cursors.Cursor.DescendLeftmost | cursor.go:181-194 | down to the first cell below a page |
| Cursors.Cursor.DescendRightmost | cursor.go:196-214 | down to the last cell below a page |
| Cursors.Cursor.KeyValue | cursor.go:216-227 | the entry at the cursor's position in the in-order list, as it reads back |
| Cursors.Scan | cursor.go:56-145 | First then Next until the end yields every entry once in key order, as it reads back, and ends |
| Cursors.ScanBack | cursor.go:71-179 | Last then Prev yields the reverse |
| Cursors.ScanFrom | cursor.go:86-145 | Seek then Next yields exactly the entries at or above the target |
| Cursors.ThereAndBack | cursor.go:114-179 | Prev undoes Next between existing entries |
| Cursors.DenseLeafy | cursor.go:136-139 | trees built by writes and deletes have no empty leaf, so the cursor's end tests mean the end |
| Cursors.FilledLeafy | bulkload.go:94-109 | nor have bulk-loaded trees |
| TreeBulk.PromoteOk | bulkload.go:146-177 | promoting a finished child keeps every level of the spine in order and within the fill target, and adds exactly its entries |
| TreeBulk.AppendOk | bulkload.go:48-92 | one accepted append keeps the spine in order and adds exactly the entry |
| TreeBulk.AppendContents | bulkload.go:48-92 | an append puts the entry at the end of what was loaded, in order or not |
| TreeBulk.FinishOk | bulkload.go:94-109 | the finished tree is well formed at uniform depth, holds exactly the appended entries, and keeps every page within the fill target |
| TreeBulk.BulkLoadOk | bulkload.go:48-109 | from any spine in order, with every target from 1228 to 4096: appending a strictly increasing list above it keeps the spine in order and adds exactly that list |
| TreeBulk.LoadOk | bulkload.go:48-109 | for every list the order test accepts, with no empty key after the first: the finished tree is well formed, holds exactly the list, and keeps every page within the fill target |
| TreeBulk.LoadedDelete | bulkload.go:94-109 | on the tree of any accepted list a completed delete leaves exactly the other entries, and the tree is well formed if and only if the delete is sound |
| TreeBulk.AppendTopped | bulkload.go:146-154 | the top page of the spine always has a separator |
| TreeBulk.LoadedDense | bulkload.go:164-170 | a loaded tree has no page without cells, where room is all that delete needs, if and only if every level of the spine has a separator |
| TreeBulk.LeavesPacked | bulkload.go:124-133 | in a loaded tree every leaf is as full as the fill target lets it be: with the first entry of the next leaf it would pass the target |
| TreeBulk.ClosesWhenFull | bulkload.go:135-177 | an internal page of the spine is closed if and only if the next separator would pass the target |
| KeyOrder.OrderTest | bulkload.go:55-57 | the order test accepts exactly the keys above the last one, if and only if not both are empty |
| KeyOrder.AcceptedSorted | bulkload.go:55-57 | with no empty key after the first, the lists that pass the order test entry by entry are exactly the strictly increasing ones |
| BulkLoads.EmptyKeyTwice | bulkload.go:55-90 | two empty keys in a row are both accepted: the key-order claim is false for empty keys |
| BulkLoads.Promote | bulkload.go:146-177 | promote on pages refines the spine function; each spine page's rightmost child is the spine page below; exact page accounting |
| BulkLoads.BulkLoader.Append | bulkload.go:48-92 | the errors in the program's order, changing nothing; an accepted entry goes to the end of what is loaded, by one step of the spine in place; the order is kept unless the last key and the new one are both empty |
| BulkLoads.CloseLeaf | bulkload.go:69-82 | a full leaf is promoted and a fresh one opened |
| BulkLoads.BulkLoader.AddCell | bulkload.go:84-90 | the new cell joins the open leaf in place, its chain written first |
| BulkLoads.BulkLoader.Finish | bulkload.go:94-109 | the tree's contents are exactly what was appended; if that is in order, the tree is well formed and every page within the fill target |
| BulkLoads.BulkLoader.Abort | bulkload.go:111-122 | frees exactly the spine pages, so the pages in use are again what they were if and only if no leaf had been finished and every value is inline; a finished loader changes nothing |
| BulkLoads.Load | bulkload.go:48-122 | a whole load on pages, of any list: it succeeds if and only if every key passes the order test and none is too long, which without empty keys after the first means strictly increasing; then the tree holds exactly the list; all other pages keep their contents; the file grows by at most the pages the list can take |
| BulkLoads.LoadAndAbort | bulkload.go:111-122 | any two entries that do not share a leaf, loaded and aborted, leave pages in use that no tree names: that an aborted load gives back its pages is false of the code |
| Snapshots.CommittedTree | txn.go:136-174 | a tree of the working version is a tree of the version committed from it |
| Snapshots.SnapshotTree | txn.go:27-38 | as long as more readers of a version have begun than ended, every tree of the version is there unchanged |
| Snapshots.CrashTree | db.go:50-66 | after a crash the file holds every tree of the version found |
| Encoding.ValueOfDigits | bnode.go:71-75 | a little-endian integer that fits its field reads back as written |
| Encoding.DigitsOfValue | bnode.go:71-75 | and every byte string is the encoding of its value |
| Encoding.DigitAt | bnode.go:71-75 | byte order: byte i of an encoding is the digit of 256 to the power i, the low byte first |
| Encoding.ValueAppend | bnode.go:71-75 | and a byte string stands for the sum of its bytes so weighted |
| SlottedPages.CellOffset | bnode.go:84-88 | reads the offset of a cell from the offset array |
| SlottedPages.ReadCell | bnode.go:120-136 | the size read from a cell's own bytes delimits exactly that cell |
| SlottedPages.FreeSpace | bnode.go:107-110 | free space is exactly the page less its header, its cells and their slots |
| SlottedPages.InitPage | btree.go:27-49 | an empty page |
| SlottedPages.InsertedOk | bnode.go:222-243 | inserting a cell's bytes inserts the cell into the list; cells overlap neither each other nor the offset array |
| SlottedPages.InsertCell | bnode.go:200-243 | positional insert and append in place act on the cell list as sequence insertion; the rightmost child is kept |
| SlottedPages.CopyRange | bnode.go:245-304 | with room, the range of cells is appended; the header is written once at the end |
| SlottedPages.CopyWithout | bnode.go:306-314 | a fresh page gets every cell but one, and the rightmost child |
| SlottedPages.Determined | bnode.go:84-136 | the bytes of a page allow one list of cells only |
| Codecs.LeafRoundTrip | bnode.go:376-398 | a leaf cell reads back as written, says its own length, and that is the length the size arithmetic uses |
| Codecs.LeafCellLayout | bnode.go:376-388 | where the bytes of a leaf cell are: both lengths, the flag, the key, and then the value or the eight bytes of a page id, the low byte first |
| Codecs.ReadStored | btree.go:75-87 | what is read back through the 16-bit length field is the value's first bytes, their number taken modulo 65536, so it is the value if and only if that has at most 65535 bytes |
| Codecs.EncodeLeafCell | bnode.go:376-388 | the bytes written in place are the encoding of the cell, flag and tail chosen by the overflow id |
| Codecs.InternalRoundTrip | bnode.go:370-374 | an internal cell reads back as written |
| Codecs.InternalCellLayout | bnode.go:370-374 | where the bytes of an internal cell are: the child's eight bytes, the key's length, the key |
| Codecs.LeafFreeSpace | bnode.go:107-144 | free space of the bytes equals free space by the cell-size arithmetic |
| Codecs.LeafDetermined | bnode.go:376-398 | bytes hold one leaf only |
| Codecs.InternalFreeSpace | bnode.go:107-148 | free space of an internal page's bytes equals free space by the separator-size arithmetic |
| Codecs.InternalDetermined | bnode.go:370-374 | bytes hold one internal page only: its separators and its children |
| PageBytes.SearchLeafBytes | btree.go:89-111 | binary search on the bytes of a leaf finds the slot that search on its cells finds |
| PageBytes.SearchInternalBytes | btree.go:158-176 | binary search on the bytes of an internal page finds the child that search on its separators finds |
| PageBytes.Child | bnode.go:171-179 | the child id read from a cell or the header is the child of the cell page |
| PageBytes.CopyLeafBytes | update.go:130-141 | a leaf's bytes rewritten with a new or replaced cell hold exactly the cells the rewrite on cells gives |
| PageBytes.SplitLeafBytes | update.go:271-293 | the bytes of the two halves hold exactly the cells of each side, in all four copy cases |
| PageBytes.DeleteLeafBytes | delete.go:67-72 | a leaf's bytes rewritten without a cell hold exactly the other cells |
| PageBytes.MergeLeafBytes | delete.go:345-369 | the bytes of two merged leaves hold exactly the cells of both |
| PageBytes.KeepLeafBytes | delete.go:285-295 | what a donor keeps always fits, and its bytes hold exactly those cells |
| Codecs.EncodeFreelistPage | freelist_page.go:24-35 | writes next, count, padding and ids in place |
| Codecs.DecodeFreelistPage | freelist_page.go:41-56 | the loop reads count, ids and next, or rejects a count over 510 |
| Codecs.FreelistRoundTrip | freelist_page.go:24-56 | a freelist page reads back as written, whatever the page held before |
| Codecs.FreelistAccepted | freelist_page.go:41-56 | a freelist page is rejected if and only if its count is over 510; it reads as a list if and only if next page, count and ids stand in their places |
| Codecs.EncodeMeta | meta.go:55-70 | writes the 48 bytes and their checksum in place, or refuses a short buffer |
| Codecs.MetaRoundTrip | meta.go:55-101 | a meta reads back as written, for every checksum function |
| Codecs.MetaAccepted | meta.go:72-101 | a meta page is accepted if and only if its checksum field is the checksum of its first 48 bytes, and magic, version, page size and the four counters stand in their places |
| Codecs.NewerIsGreater | meta.go:103-106 | the signed 64-bit difference orders counters less than 2^63 apart, also across wrap-around |
| Clock.EvictFrame | bufferpool.go:410-449 | stops within six visits to each frame; reports exhaustion if and only if every frame holds a pinned page; the frame taken is the one whose turn it is, free or unpinned and worn down, and every other frame has aged by exactly its visits |
| Clock.NarrowHand | bufferpool.go:415-415 | a 32-bit hand and an unbounded one point to the same frame if the frame count divides 2^32 |
| BufferPools.OneFrame | bufferpool.go:100-142 | each page has at most one frame |
| BufferPools.BufferPool.AcquireFrame | bufferpool.go:362-408 | frees a frame without changing what the pool says of any page; fails if and only if every frame is pinned |
| BufferPools.BufferPool.Get | bufferpool.go:100-177 | the frame returned holds the bytes last written to the page, with one more pin and the full usage count; nothing the pool says changes |
| BufferPools.BufferPool.GetForWrite | bufferpool.go:179-216 | refused if and only if the page is pinned, exhausted if and only if it has no frame and all are pinned; other pages unchanged |
| BufferPools.BufferPool.Fill | bufferpool.go:59-61 | filling a page held for writing changes what the pool says of that page only |
| BufferPools.BufferPool.Unpin | bufferpool.go:63-71 | one pin less, nothing else |
| BufferPools.BufferPool.FlushPage | bufferpool.go:225-251 | afterwards the page's frame is clean and the file has what the pool says of the page; other pages of the file unchanged |
| BufferPools.BufferPool.FlushPages | bufferpool.go:253-273 | the same for every page listed, and no other page of the file changes |
| Buckets.Bucket.Write | bucket.go:29-51 | a write to any bucket, bulk-loaded ones included, leaves what the write leaves of the list and keeps track of its committed root |
| Buckets.Bucket.Delete | bucket.go:53-59 | a delete from any bucket refines Remove; the bucket stays valid if and only if the delete is sound |
| Buckets.RootTells | bucket.go:192-192 | comparing root ids detects every change of a bucket's contents |
| Buckets.DroppedEmptyBucketStays | bucket.go:185-188 | a committed bucket with root 0 that is looked up and dropped: the records and the catalog agree, the transaction no longer sees it, and applying the records keeps it |
| Buckets.AllApplied | bucket.go:177-201 | whatever the order, all records applied make the catalog what the transaction sees plus the overlooked entries; the two agree if and only if no dropped bucket had root 0 in the catalog |
| BucketTxns.Txn.CatalogLookup | bucket.go:159-175 | the search in the catalog tree, decoded, finds exactly the committed buckets with their roots |
| BucketTxns.Txn.LookupBucket | bucket.go:131-157 | finds exactly the buckets the transaction sees, with the root of their trees |
| BucketTxns.Txn.CreateBucket | bucket.go:75-110 | fails if and only if the transaction sees the bucket; otherwise it sees an empty one, and all other trees stay in place |
| BucketTxns.Txn.DropBucket | bucket.go:112-129 | fails if and only if the transaction does not see the bucket; otherwise exactly the pages of its tree are freed, and it is seen no more |
| BucketTxns.Txn.Write | bucket.go:29-51 | the bucket's contents become what the write leaves of the old ones, or stay as mode and presence decide; catalog, chain and all other buckets stay on their pages |
| BucketTxns.Txn.Erase | bucket.go:53-59 | the bucket's contents become Remove of the old ones, with the same frame, on any bucket; the transaction stays valid if and only if the delete is sound; it fails exactly when the tree function does |
| BucketTxns.Txn.Get | bucket.go:22-27 | finds exactly what the bucket holds, as it reads back |
| BucketTxns.Txn.LoadBucket | bucket.go:61-66 | a bulk load into an empty bucket leaves it holding exactly the list; a bucket that is not empty refuses, and a list that is not accepted leaves the bucket empty |
| BucketTxns.PutRoot | bucket.go:192-198 | sets one name in the catalog tree, refused if and only if the name is longer than a key may be |
| BucketTxns.DropRoot | bucket.go:185-191 | takes one name out of the catalog tree, failing exactly when the tree function does |
| BucketTxns.ApplyOne | bucket.go:183-199 | one record turns the catalog tree of the records before it into that of the records up to it; it fails if and only if it takes out a name and the delete of that name fails in the tree before the call |
| BucketTxns.ApplyAll | bucket.go:177-201 | in every iteration order the catalog tree ends up holding the applied records, every bucket's tree is left in place, and the commit is refused only for a name that is too long and that it would have to write; it fails if and only if playing the records in that order through the tree functions gets stuck |
| Databases.InitHolds | meta.go:181-222 | a new database has no buckets |
| Databases.Begin | txn.go:40-49 | the transaction sees exactly the committed buckets |
| Databases.CommitTxn | txn.go:136-174 | the committed database is what the transaction sees plus an empty bucket for every overlooked name, its version consists of exactly the pages of catalog, freelist chain and bucket trees, and until publication the commit is in flight from the old database to the new; a refused name gives the transaction up and the old database stands; it fails if and only if playing the records through the catalog tree gets stuck |
| Databases.InFlightRun | txn.go:136-174 | whatever readers and write-back do meanwhile, the version being committed holds the new database at every point of the commit, and the current one the old |
| Databases.CrashRecovers | db.go:50-66 | a crash of a commit in flight: Open finds the whole old database, or the whole new one once its meta is written, and for certain the new one once that is synced |
| Databases.CrashDuringCommit | txn.go:136-174 | over every run from the sealed transaction on: a crash before publication leaves all of the old or all of the new database, every bucket included |
| Databases.CrashBeforeSeal | db.go:50-66 | over every run from a committed database that seals nothing: a crash leaves that database |
| Databases.SnapshotDatabase | txn.go:27-38 | as long as more readers of a version have begun than ended, its catalog and every bucket are there unchanged, over every run from a new database |
| DatabaseRuns.PutAndCommit | txn.go:136-174 | begin, write, commit: the next committed database differs from the last in that one bucket, which holds what the write leaves of its old entries, or not at all; it goes through unless the committed page count and a bound on the pages of the write exceed 2^64 |
| DatabaseRuns.DeleteAndCommit | txn.go:136-174 | begin, delete, commit, for every delete that is sound or fails: the bucket holds Remove of its old entries and no other bucket changes; it fails if and only if the delete in the bucket's tree does; page ids run out only if the page count and a bound on the pages of the delete exceed 2^64 |
| DatabaseRuns.LoadAndCommit | bulkload.go:94-109 | begin, load an empty bucket, commit: the committed bucket holds exactly the list and no other bucket changes; a refused or rejected load leaves the database as it was; page ids run out only if the page count and a bound on the pages of the load exceed 2^64 |
| DatabaseRuns.CreateAndCommit | bucket.go:75-110 | begin, create, commit: the committed database has the bucket, empty, and otherwise what it had |
| DatabaseRuns.DropAndCommit | bucket.go:112-129 | begin, drop, commit: the other buckets are as they were, and the bucket is gone from the committed database if and only if it had a root page there; the commit fails if and only if deleting the name from the committed catalog tree does, which cannot be if that is one leaf |
| DatabaseRuns.CreateThenDrop | bucket.go:185-188 | a bucket that is created and committed, and then dropped and committed, is still in the database: that a dropped bucket is gone is false of the code |

## Left out

- File and OS layer (storage.go, linux.go, darwin.go): the disk is a map from page id to contents with a set of unsynced pages; growth policy and short writes are not modelled.
- Goroutine interleavings inside the buffer pool (mutexes, the loading map, evicting frames seen by others): pool calls are atomic steps; readers begin and end, and dirty pages are written back, beside the writer's allocations.
- I/O error paths: storage calls succeed or the process crashes; commit's error branches (txn.go:144-166) are not modelled.
- CRC-64: an arbitrary function of the bytes; that a torn meta page fails it is an assumption of the crash step.
- Fill-factor arithmetic in floating point (bulkload.go:32-44): the target is an integer from 1228 to 4096.
- Slice aliasing of returned keys and values, and cursors used while their tree changes: returned bytes are copies and a cursor's store is fixed.
- Databases.CommitTxn: requires that page ids fit the eight bytes of a catalog value, and says nothing of the state after a delete in the catalog tree that exceeds a page, which can happen only if a bucket with a committed root was dropped; the program panics there, and what a crash then leaves is the committed database (`Databases.CrashBeforeSeal`).
- Falling back to an older meta after the newest was damaged at rest: its pages may already be reused.
- The page contents of the tree layer are cells, not bytes: `SlottedPages` and `Codecs` prove that bytes represent cells, and `PageBytes` restates both searches and the rewriting of leaves over byte arrays; the rewriting of internal pages is not restated.
- The pool and the page lifecycle are separate models: the lifecycle has a cache that may write any dirty page back at any time, which is what the pool's contracts allow.
- Closed and read-only transaction checks, trivial accessors, FlushAll and Close: they would only add easy members.
- NodeDelete.DeleteNode: once a repair would exceed its page, or mix the cells of a leaf and an internal page, the model stops with TooLarge, where the program panics in an append or, in the unchecked range copies, overwrites its own offset array; nothing is said about the state after that.
- SlottedPages.CopyRange: requires the room that the source does not test for (bnode.go:258-304).
- SlottedPages.InsertCell: requires the room that the source asserts with a panic.
- Clock.EvictFrame: the hand is an unbounded counter and no frame is being evicted by others; it agrees with the 32-bit hand until that wraps, and always if the frame count divides 2^32 (`Clock.NarrowHand`), as the default of 1024 does.
- BufferPools.BufferPool.GetForWrite: MarkClean is left out of the pool, since it makes a clean frame differ from the file; the lifecycle model has it in the abort step.
- DatabaseRuns.DeleteAndCommit: requires a delete that fails or is sound; the program would commit the uneven tree of an unsound one (`LoadLimits.LoadedDeleteUneven`), which is no database in the sense of `Databases.Holds`.
- DatabaseRuns.LoadAndCommit: requires that no key after the first is empty; an accepted list with two empty keys makes a tree that is out of order (`BulkLoads.EmptyKeyTwice`).
- Transactions.DB.Flush: the sorted, batched writes of flushDirty are one step.
- Transactions.DB.Abort: the cache may keep the aborted contents of the transaction's own pages, which no version uses.
