# AuroraDB, verified

A Dafny model of AuroraDB's storage engine and of the layers that have to agree with it, with proofs.

The model is a stack. Each layer is proved against a simpler description of itself, and the next layer
uses only that description.

| layer | modules | simple description |
|---|---|---|
| slotted byte pages | `Bytes`, `Pages`, `Builders`, `Edits`, `Cuts`, `Splits`, `Layouts` | a sequence of (pointer, key, value) slots |
| copy-on-write B+tree | `SortedRuns`, `Trees`, `Deletes`, `Overflows`, `Roots`, `Histories`, `Limits`, `Rules`, `Witnesses`, `Stores`, `BTrees` | a sorted sequence of pairs, a finite map |
| iterators | `Positions`, `Iters` | a rank in that sequence |
| page allocator | `FreeLists` | a FIFO queue of page numbers, and a set of pages in use |
| transactions | `Transactions` | one map |
| keys and indexes | `Codecs`, `Indexes`, `Encodings` | tuples of column values in lexicographic order |
| rows | `Rows`, `RowStores` | a map from primary keys to rows |
| range scans and statements | `Ranges`, `Scanners`, `Scans`, `ScanFilters`, `Statements`, `ScanWitnesses` | the rows within bounds, in order |
| expression parser | `Grammars`, `Printing`, `Readings`, `Parsers` | expression trees |

Where the source changes things in place, so does the model: page buffers are arrays that are filled by
`setptr`, `setOffset` and `copy`; `BTree`, `BIter`, `Pager` (the freelist part of `KV`), `KV`, `KVTX`,
`Record`, `DBTX`, `Scanner`, `ScanFilter` and `Parser` are classes whose methods update their fields.
Each method's contract ties its result to a function or a predicate on values, and the lemmas are about
those.

What a definition shares between a writer and a reader, the laws that relate the two cannot tell: a page
format, an escape, a keyword, a threshold. `Layouts`, `Rules`, `Encodings`, `Readings` and
`FreeLists.ListWords` therefore state these in literal numbers, bytes and texts, as the source has them.

Machine arithmetic is written out where it matters: uint16 offsets and the wrapping `shiftDistance`
of `nodeAppendRange`, uint64 page numbers, int64 column values and their sign bit. A Go panic is a
`None` result, or a precondition where the source offers no result for it.

## What is shown about the limits of the code

Some properties that one would expect hold only under a condition. For each of these there is an input on
which the property fails, reached from an empty tree, file or table wherever the failure is one of state, and
the condition is exact where the list says so.

* `nodeSplit3`: MAXKEYLEN and MAXVALLEN do not make splits fit. `Witnesses.SplitFails` gives two inserts after
  which its assert fails, `Limits.SplitExact` says exactly when it holds, and slots of at most half a page
  are always enough (`Cuts.PiecesFit`).
* `Delete` can overflow a page when a separator gives way to a longer one: `Witnesses.DeleteOverflows`, on a tree
  that six inserts build. Before the call, `Overflows.RoomToDelete` adds up what each node on the key's path will
  take, from the sizes of the nodes and their siblings and the lengths of the key and its successor; the tree stays
  well-formed exactly when there is room (`Roots.DeletedWF`). There always is when the key behind the deleted one
  is no longer than it (`Limits.DeleteSafe`).
* `Insert` loses a key when it splits a leaf root that does not start with the sentinel, exactly then by
  `Histories.InsertExact`. `Witnesses.SentinelMissed` reaches such a root with three inserts and a deletion.
* `freePushTail` loses the list in one state, which `FreeLists.Trapped` describes and
  `FreeLists.Pager.FreePushTail` proves to be the only one. `FreeLists.ReachTrap` gets there from an empty file,
  by giving one page back and taking it again in 510 transactions, and `FreeLists.LoseList` loses the list.
* A secondary index is keyed by 0xff for an empty string, in the record itself. So an indexed primary key
  that is empty is not found again (`Indexes.PkOfSecKey`, both directions), and two rows can share an
  entry: exactly those of `Rows.SameEntry`. Inserting such rows is harmless (`Rows.DBTX.Insert` always keeps the
  entries right); deleting or updating one of them takes the other's entry away (`Rows.LoseEntry`) exactly when
  `Rows.DeleteExact` and `Rows.UpdateExact` say so.
* `Delete` with a record whose indexed columns differ from the stored ones leaves stale entries
  (`Rows.LeaveStale`; exactly when, again by `Rows.DeleteExact`), and can stop half-way
  (`Rows.StopExact`).
* A primary scan with a closed lower bound that is not stored, above some stored key, visits nothing:
  `Scanners.Scanner.Visit` says that this is the only case in which a scan does not visit its range.
  `ScanWitnesses.MissedDelete` is a DELETE of 3 to 9 on a table that has the row 5, which deletes nothing.
* With an open lower bound and no stored key above it, `NewScanner` does not come back, and in no other case:
  `Scanners.Scanner.Open` counts the turns of its loop. `ScanWitnesses.HungDelete` is a DELETE of more than 5 on the
  same table.
* A primary key whose encoding begins with 0xff is on the wrong side of an index bound: `Ranges.LeadingFF`.
* `KVTX.Del` says yes for a key that is nowhere; its contract says exactly when it does.

The repository's README describes optimistic concurrency control. `Commit` never consults the read set, so the
model follows the code: one transaction at a time.

## Model

| member | source | states |
|---|---|---|
| Pages.ReadBack | storage/btree.go:67-126 | In a page filled with slots, `getptr`, `getKey` and `getVal` at index i read back slot i. |
| Pages.PageIsUnique | storage/btree.go:59-130 | A page's bytes are the page of at most one sequence of slots: the page refinement is a function. |
| Pages.PageTruncated | storage/btree.go:294-305 | Cutting an oversized buffer down to its used size (`old[:PAGE_SIZE]`) leaves the same page. |
| Layouts.HeaderBytes | storage/btree.go:21-22 | A page begins with 1, 0 for an inner node and 2, 0 for a leaf, and the number of slots in two bytes, the lower one first. |
| Layouts.PointerBytes | storage/btree.go:67-81 | Slot i's pointer is in the eight bytes at 4 + 8i, the lowest first. |
| Layouts.SlotBytes | storage/btree.go:83-126 | With n slots, the two bytes at 4 + 8n + 2i say where slot i ends, behind 4 + 10n; it begins where the one before ends, with two bytes for the length of the key, two for that of the value, the key and the value. |
| Layouts.NodePage | storage/btree.go:154-165 | A stored node has a page of 4096 bytes: a leaf its pairs and no pointers, an inner node its children's pages under their first keys. |
| Layouts.FirstInsert | storage/btree.go:448-456 | The first insert makes a page that begins with the bytes 2, 0, 2, 0. |
| Builders.NodeAppendKV | storage/btree.go:154-165 | Appending a slot behind the ones already filled in: the buffer then holds these slots and the new one, the header is unchanged. |
| Builders.Shifted | storage/btree.go:186-193 | `oldOffset + shiftDistance` in uint16 is the true new offset even when the difference wraps around. |
| Builders.NodeAppendRange | storage/btree.go:171-203 | The buffer holds the slots it had, then the copied stretch of the other node; no earlier slot is disturbed. |
| Edits.LeafInsert | storage/btree.go:205-210 | The new page is the old slot sequence with one inserted. |
| Edits.LeafUpdate | storage/btree.go:212-217 | The new page is the old slot sequence with one replaced. |
| Edits.LeafDelete | storage/btree.go:219-223 | The new page is the old slot sequence without one. |
| Edits.LeafPrepend | storage/btree.go:349-352 | treeInsert's case of a key below every other: one slot in front of the old sequence. |
| Edits.NodeReplace2Kid | storage/btree.go:237-242 | The new page has one slot for two neighbouring ones. |
| Edits.NodeMerge | storage/btree.go:244-248 | The new page is the concatenation of the two slot sequences. |
| Cuts.CutBounds | storage/btree.go:273-291 | The right part of a cut always fits; the left part exceeds half by less than its last slot. |
| Cuts.PiecesFit | storage/btree.go:294-315 | With slots of at most half a page and at most 2*PAGE_SIZE-8 bytes, nodeSplit3 makes one to three non-empty pieces, each within a page; the assert holds. |
| Cuts.PiecesConcat | storage/btree.go:294-315 | The pieces of a split, concatenated, are the node. |
| Limits.SplitExact | storage/btree.go:294-315 | On slots of any size: all pieces fit their pages if and only if some slot ends between half of the left node and the page's end. |
| Witnesses.SplitFails | storage/btree.go:302-312 | Two inserts within MAXKEYLEN and MAXVALLEN after which the first piece is larger than a page. |
| Splits.NodeLookupLE | storage/btree.go:132-152 | The binary search returns the last slot whose key is at most the sought one, or slot 0. |
| Splits.NodeSplit2 | storage/btree.go:273-291 | Left and right pages hold the slots before and behind the cut. |
| Splits.NodeSplit3 | storage/btree.go:294-315 | On slots of any size for which the assert holds (`Limits.SplitExact`): the returned pages hold the pieces, none is truncated. |
| Trees.LookupFound | storage/btree.go:132-152 | The slot that the search finds is the only one with smaller-or-equal key whose successors are all larger. |
| Trees.ChildOfKey | storage/btree.go:366-372 | The child picked by separators is the only one a key can be in: everything left of it is smaller, everything right of it larger. |
| Trees.SplitKeeps | storage/btree.go:294-315 | Splitting a node yields one to three well-formed nodes of the same height that together hold its pairs in order. |
| Trees.InsKeeps | storage/btree.go:341-372 | treeInsert: the contents become Put of the sorted contents, all leaves stay at one depth, every kid fits its page, and the node returned can be split. |
| Deletes.JoinFlat | storage/btree.go:393-421 | nodeDelete's merging, left, right, or none, keeps the contents around the changed child and all depths; the result fits only if the child does. |
| Deletes.DelKeeps | storage/btree.go:374-421 | treeDelete finds a key exactly when it is there, removes only it, and keeps all leaves at one depth or leaves nothing. |
| Roots.GetIsFind | storage/btree.go:423-446 | GetVal on a well-formed tree of any height is lookup in the map of its contents. |
| Roots.InsertedFlat | storage/btree.go:448-485 | Contents after Insert in every case; a split leaf root drops its first pair. |
| Roots.InsertedWF | storage/btree.go:448-485 | Insert keeps a tree well-formed: keys strictly sorted, separators exactly the children's first keys, one depth, no empty node, every page fits. |
| Overflows.DelSizes | storage/btree.go:374-421 | What deleting a key makes of the size of every node on its path, from the sizes before and the lengths of the key and its successor: through left merge, right merge with the right separator's slot gone, emptied and plain children. The new nodes fit exactly when each of these sizes is at most a page. |
| Roots.DeletedWF | storage/btree.go:487-506 | Delete's answer is whether the key was there; only it is removed; if anything is left, the tree is well-formed if and only if, before the call, there was room for the new separators. |
| Rules.SizeRule | storage/btree.go:111-130 | A node takes 4 bytes, and 14 and the lengths of key and value for a pair in a leaf, or 14 and the length of its first key for a child. |
| Rules.SplitRule | storage/btree.go:273-315 | A node of up to 4096 bytes stays whole; a larger one is cut behind the first slot with which the left part has half of the bytes, and so is the left part if it still has more than 4096. |
| Rules.InsertRule | storage/btree.go:366-372 | In an inner node only the child that the key can be in gives way, to the pieces of its new version. |
| Rules.RootRule | storage/btree.go:448-485 | The new root: a first leaf of the empty pair and the key's; the node itself if it stays whole; otherwise a node over the pieces, a leaf root's first slot left out. |
| Rules.MergeRule | storage/btree.go:317-421 | A child that a deletion leaves with at most 1024 bytes joins its left sibling exactly when the two, with one header, have at most 4096, and otherwise its right one exactly when these have; a larger child never merges. |
| Rules.CollapseRule | storage/btree.go:498-504 | An inner root with one child left gives way to it, and no other root does. |
| Limits.NoneGrows | storage/btree.go:374-421 | No node on the path grows in a deletion when the next key is no longer than the deleted one. |
| Limits.DeleteSafe | storage/btree.go:487-506 | So there is room then, and Delete keeps the tree well-formed through merges and root collapse. |
| Witnesses.CrowdedIsReached | storage/btree.go:448-485 | Six inserts of small pairs build a root whose last separator is one byte and the others 1000. |
| Witnesses.DeleteOverflows | storage/btree.go:393-421 | On this tree, within MAXKEYLEN and MAXVALLEN, a deletion has no room: the root outgrows its page. |
| Witnesses.MergeIsReached | storage/btree.go:317-339 | A run of four inserts and two deletions: a child of 2019 bytes stays alone, and then one of 889 joins it and the root gives way. |
| Histories.StepIsMapStep | storage/btree.go:448-506 | One Insert or Delete on the tree is one update or removal on a plain map; Delete answers whether the key was in it. |
| Histories.RunIsMapRun | storage/btree.go:448-506 | Every run of inserts and deletes from the empty tree keeps the tree good and equal to what a plain map holds. |
| Histories.GetAfterRun | storage/btree.go:441-506 | GetVal after any such run returns what the map holds. |
| Histories.InsertsBuildTheMap | storage/btree.go:448-485 | Any run of inserts of small pairs under non-empty keys, with no further condition, builds a well-formed tree that answers like the map, across every split. |
| Histories.InsertExact | storage/btree.go:466-484 | Insert does what a map does if and only if it does not split a leaf root whose first key is a user's. |
| Witnesses.BareIsReached | storage/btree.go:487-506 | Three inserts and a deletion, all of them legal, leave a leaf root without the sentinel. |
| Witnesses.SentinelMissed | storage/btree.go:471-476 | From this tree the next insert loses the first key. |
| Stores.RepStays | storage/disk.go:297-311 | A node represented in a store is represented in every store that extends it. |
| BTrees.RepKept | storage/btree.go:225-235 | Every earlier root still denotes its tree after the store has grown: copy on write. |
| BTrees.BTree.constructor | storage/disk.go:297-311 | An empty tree in an empty page store. |
| BTrees.BTree.Snapshot | storage/disk.go:285-290 | A second tree object on the same pages and root denotes the same tree. |
| BTrees.BTree.TreeInsert | storage/btree.go:341-364 | On buffers: the returned page represents the logical insertion, only fresh pages are stored, no existing buffer is written. |
| BTrees.BTree.NodeInsert | storage/btree.go:366-372 | The child on the way is replaced by the pieces of its new version; the node built represents the logical insertion. |
| BTrees.BTree.NodeReplaceKidN | storage/btree.go:225-235 | The node built has, in one child's place, the stored pages of its pieces, each under its own first key. |
| BTrees.BTree.Insert | storage/btree.go:448-485 | The root page represents InsertRoot of the logical tree; all earlier pages and their bytes stay. |
| BTrees.BTree.GetValue | storage/btree.go:423-446 | Lookup on the pages is lookup in the map of the contents. |
| BTrees.BTree.PickSibling | storage/btree.go:317-339 | The direction is that of the logical rule, and the sibling page represents the sibling. |
| BTrees.BTree.TreeDelete | storage/btree.go:374-391 | None exactly when the key is not there; otherwise a fresh page that represents the logical deletion. |
| BTrees.BTree.NodeDelete | storage/btree.go:393-421 | The same one level up, through left merge, right merge, emptied and plain children. |
| BTrees.BTree.Delete | storage/btree.go:487-506 | The answer is whether the key was there, the root represents DeleteRoot of the logical tree, all earlier pages stay; asked for is only the room that can be checked before. |
| Positions.SeekFinds | storage/btree.go:508-518 | The path that SeekLE takes ends at the greatest key at most the target, or at the first key. |
| Positions.NextIsSuccessor | storage/btree.go:586-602 | The next path is there exactly when the position is not the last, and has the next rank. |
| Positions.PrevIsPredecessor | storage/btree.go:604-620 | The same backwards. |
| Positions.RankInjective | storage/btree.go:508-518 | Different paths stand for different pairs. |
| Positions.PrevUndoesNext | storage/btree.go:586-620 | Stepping back undoes stepping forward wherever there is a next pair. |
| Iters.BIter.SeekLE | storage/btree.go:508-518 | The iterator is valid, in step with the pages, and at the rank SeekLE promises. |
| Iters.BIter.IterNext | storage/btree.go:586-602 | After the recursion, path and positions are those of the successor, or the iterator is invalid. |
| Iters.BIter.IterPrev | storage/btree.go:604-620 | The same for the predecessor. |
| Iters.BIter.LastNode | storage/btree.go:543-551 | Says whether the iterator is at the last pair. |
| Iters.BIter.StartNode | storage/btree.go:553-560 | Says whether the iterator is at the first pair. |
| Iters.BIter.Next | storage/btree.go:562-572 | One rank further; invalid behind the last pair; back to the first pair from in front of it. |
| Iters.BIter.Prev | storage/btree.go:574-584 | One rank back, and the mirror cases. |
| Iters.BIter.Deref | storage/btree.go:520-529 | The key and value at the current rank. |
| Iters.BIter.Rest | storage/btree.go:531-572 | Next until invalid yields every remaining pair once, in order. |
| Iters.BIter.Outlives | storage/disk.go:445-447 | An iterator keeps its position on its tree while the store grows. |
| FreeLists.Popped | storage/disk.go:188-199 | Taking the first item keeps the linked list a list, with one page less when its last slot was used. |
| FreeLists.Pushed | storage/disk.go:215-219 | Writing behind the last item keeps the list, with mod-511 positions. |
| FreeLists.Disjoint | storage/disk.go:146-236 | List pages, queued pages and pages in use are distinct from each other, without repetition, all within 1..flushed+nappend-1. |
| FreeLists.Pager.constructor | storage/disk.go:44-53 | A new file's state, with page 1 named but unwritten, satisfies the invariant. |
| FreeLists.Pager.PageAppend | storage/disk.go:158-163 | One more page at the end of the file, in use by nobody. |
| FreeLists.Pager.PageWrite | storage/disk.go:165-173 | The page's content, from now on among the updates. |
| FreeLists.Pager.FreePopHead | storage/disk.go:175-200 | Oldest queued page, plus the list page emptied with it; or the last list page; or nothing beyond maxSeq. |
| FreeLists.Pager.GrowTail | storage/disk.go:221-235 | A full last page gets a successor, popped or appended, and an emptied head is queued in it, unless the list is lost. |
| FreeLists.Pager.FreePushTail | storage/disk.go:202-236 | The page leaves use, everything in use reads as before; list pages, queue and sequence numbers become exactly what `StockPushed` says, also where a list page ends; the invariant holds afterwards unless the state is the trap, and in the trap the fields fit no list whatsoever. |
| FreeLists.ReachTrap | storage/disk.go:146-236 | From an empty file: one page taken, then given back, committed and taken again 510 times; the list page's next slot is its last, and giving the page back once more is the trap. |
| FreeLists.LoseList | storage/disk.go:202-236 | That call leaves a head and a tail that no list has. |
| FreeLists.Pager.PageAlloc | storage/disk.go:146-156 | From every valid state: a page that was not in use, the oldest queued one if it may be reused, else the list page or a new one; list pages, queue and sequence numbers become exactly what `StockTaken` says, also where a list page is emptied; pages in use unchanged, invariant kept. |
| FreeLists.EventFifo | storage/disk.go:146-236 | An allocation, a release or a commit takes page numbers from the queue's front and puts others behind its end, those of list pages included: what was queued and then joined is what left and then what is queued. |
| FreeLists.FifoRun | storage/disk.go:146-236 | First in, first out over every run of them: all that was queued or joined is all that left, in that order, followed by what is queued; no page number is lost, and the list always has as many pages as its queue reaches over. |
| FreeLists.TakenLeaves | storage/disk.go:175-200 | A page number that pageAlloc gives from the queue is the first to leave it. |
| FreeLists.ValidStocked | storage/disk.go:146-236 | Every valid state, a new file's included, is one that these runs begin from. |
| FreeLists.Pager.UpdateFile | storage/disk.go:337-367 | A successful write-out changes no page's content and keeps the list. |
| FreeLists.Pager.Begin | storage/disk.go:74-88 | The saved meta page has all the fields: the list as it is on disk, the next new page, and up to where page numbers may be reused. |
| FreeLists.Pager.Abort | storage/disk.go:331-335 | Back to the list of Begin, to its next new page and to what may be reused, whatever happened since; so the next page is the one it would have been. |
| FreeLists.TakeAndAbort | storage/disk.go:285-335 | A transaction that takes any number of pages and is aborted leaves list, pages in use, disk and the next page as they were. |
| FreeLists.ReuseAfterAbort | storage/disk.go:146-200 | Two pages given back and committed are the next two to be given, in order, also after a transaction that was aborted. |
| FreeLists.ListWords | storage/disk.go:175-236 | In the list's pages of 512 words, word 0 is the next page's number and word 1 + q % 511 the page number with sequence number q. |
| FreeLists.PushedExactly | storage/disk.go:202-236 | freePushTail in each case: behind the last page number; with the last page full, a new page linked or the oldest page number taken for it, and an emptied first page queued. |
| FreeLists.TakenExactly | storage/disk.go:146-200 | pageAlloc in each case: the oldest page number, the list's only page or a new page, and what is left. |
| Transactions.Stepped | storage/disk.go:377-383 | One operation on the tree is one on the map, and adds at most one level. |
| Transactions.SetAgrees | storage/disk.go:422-430 | Set keeps pending tree, writeSet, delSet and writes in agreement, and is an update of the overlay, write after delete included. |
| Transactions.DelAgrees | storage/disk.go:432-443 | Del keeps them in agreement and is a removal from the overlay, delete after write included. |
| Transactions.CommitIsOverlay | storage/disk.go:314-320 | For any order of both Go maps, replaying writes and then deletes on the snapshot's map gives the transaction's map. |
| Transactions.FixedLengthCommits | storage/disk.go:314-320 | For keys of one length on a tree that only had inserts, every order of a commit that leaves some key is legal: no page overflows, nothing is lost. |
| Transactions.KVTX.Get | storage/disk.go:409-420 | What the transaction's map binds the key to. |
| Transactions.KVTX.Set | storage/disk.go:422-430 | The map with the key bound. |
| Transactions.KVTX.Del | storage/disk.go:432-443 | The map without the key; the exact meaning of the answer. |
| Transactions.KVTX.Seek | storage/disk.go:445-447 | An iterator over the snapshot, at SeekLE's rank; writes do not show in it. |
| Transactions.KV.Begin | storage/disk.go:285-312 | A transaction starts as the tree's map. |
| Transactions.KV.Commit | storage/disk.go:314-329 | With no other commit in between, the tree's map becomes the transaction's whatever the iteration orders; if writing fails it is the old one. |
| Transactions.KV.Abort | storage/disk.go:331-335 | The tree of Begin. |
| Codecs.BEOrder | types/schema.go:199-201 | Big-endian bytes compare as the numbers do. |
| Codecs.IntRoundTrip | types/schema.go:194-208 | SerializeInt counts from the minimum; DeserializeInt undoes it for every int64. |
| Codecs.EscapeRoundTrip | types/schema.go:153-192 | DeserializeBytes inverts SerializeBytes on every byte string. |
| Codecs.StringsDecide | types/schema.go:95-111 | Terminated escaped strings compare as the strings, whatever follows them. |
| Codecs.KeyOrder | types/schema.go:95-111 | Encoded keys, with anything behind them, are ordered by prefix, then by tuple, then by what is behind. |
| Codecs.KeyEmbedding | types/schema.go:95-111 | EncodeKey is an order embedding for tuples of the same column types, and prefix-free. |
| Codecs.ExtensionsTogether | types/schema.go:95-111 | All keys that extend an encoded tuple form one contiguous interval. |
| Codecs.SerializeBytes | types/schema.go:153-166 | The loop computes the escaping. |
| Codecs.DeserializeBytes | types/schema.go:168-192 | The loop with its escape flag computes the unescaping, with None for the panic. |
| Codecs.EncodeKey | types/schema.go:95-111 | Exactly the encoded key; None if and only if the minimum integer is in the tuple. |
| Codecs.DecodeUndoesEncode | types/schema.go:113-151 | Reading columns undoes writing them and stops where they end. |
| Codecs.DecodeKey | types/schema.go:113-151 | The two loops compute the decoding; None is a panic. |
| Codecs.KeyRoundTrip | types/schema.go:95-151 | DecodeKey inverts EncodeKey for all values. |
| Encodings.ByteOrder | types/schema.go:95-111 | bytes.Compare: the first byte in which two strings differ decides, and a string is above its beginnings. |
| Encodings.PrefixBytes | types/schema.go:95-98 | A key begins with its prefix in four bytes, the highest first. |
| Encodings.TupleBytes | types/schema.go:99-110 | One column behind the other. |
| Encodings.StringBytes | types/schema.go:153-166 | 0 is written as 1, 1, and 1 as 1, 2; a string ends with 0. |
| Encodings.StringReading | types/schema.go:168-192 | Reading these back; 1 and any other byte is an error. |
| Encodings.IntBytes | types/schema.go:194-208 | Eight bytes, the highest first, that count from -2^63, for which itself there are none. |
| Indexes.GetSecondaryIndexesKeys | index/secondary.go:7-23 | The keys of all secondary indexes, None exactly on the minimum integer; the record keeps 0xff for every empty indexed string. |
| Encodings.IndexKeyBytes | index/secondary.go:7-23 | An index key has the index's columns and then the primary key, with 0xff for the empty string in the former, and in the latter where this or an earlier index has the column. |
| Indexes.PkOfSecKey | index/secondary.go:25-84 | The primary key comes back from any secondary key over any mix of columns if and only if no empty indexed string in it has been replaced. |
| Indexes.GetPKFromSecKey | index/secondary.go:25-84 | The loops compute that primary key, under the table's column names. |
| Rows.SameEntry | index/secondary.go:7-23 | For rows of the table's types: one entry in an index is two rows' if and only if their indexed values are the same and so are their primary keys once the empty strings in indexed columns count as 0xff. |
| Rows.WholeApart | index/secondary.go:7-23 | So rows whose primary keys have no such empty string share no entry. |
| Rows.RowAdded | db/db.go:374-391 | Adding a row's entries, the ones in indexes as the empty string, keeps map and rows in agreement, even if another row has some of them. |
| Rows.PkTells | db/db.go:393-410 | The row's own key is in the map if and only if the row is there. |
| Rows.DeleteExact | db/db.go:350-372 | Deleting a row by any given columns leaves map and rows in agreement if and only if, in each index, the given key is no other row's and is the stored row's unless that one is another row's too. |
| Rows.StopExact | db/db.go:361-369 | A deletion that stops half-way, because an index key has been deleted before, is harmless if and only if none of the keys it took was stored. |
| Rows.UpdateExact | db/db.go:297-320 | Replacing a row leaves map and rows in agreement if and only if the new row has every index key that the old one shares with another row. |
| Rows.WholeClean | db/db.go:297-372 | When no primary key has an empty indexed string, replacing always does, and deleting does exactly with the stored row's index keys. |
| Rows.EmptyKeyCollides | index/secondary.go:11-18 | Two rows with different primary keys and one index entry. |
| Rows.LoseEntry | db/db.go:342-372 | Both are inserted and one is deleted: the other is still there, and its index entry is gone. |
| Rows.LeaveStale | db/db.go:342-372 | A row is inserted, and deleted by a record with another indexed value: the table is empty, and its index entry still there. |
| Rows.DBTX.DbGet | db/db.go:393-410 | Yes exactly when columns are stored under the key; they are appended to the record. |
| Rows.DBTX.DbSet | db/db.go:374-391 | The map gains exactly the row's entries: its columns under its own key, the empty string under its key in each index. |
| Rows.DBTX.DbDel | db/db.go:350-372 | By a key or by all columns, whatever their values: no if the row is not there; otherwise exactly the keys of these columns go, up to the first one deleted before, in which case the answer is no and the row stays; map and rows agree afterwards if and only if the condition of `DeleteExact` or `StopExact` holds. |
| Rows.DBTX.Insert | db/db.go:271-295 | On every valid state and for every row of the table's types: error exactly when the primary key is taken; otherwise the row is added, its columns under its key and the empty string in each index, other tables untouched. |
| Rows.DBTX.Update | db/db.go:297-320 | The row under the primary key is replaced, no if there is none; no stale and no missing index entry, if and only if the shared keys stay. |
| Rows.DBTX.Upsert | db/db.go:322-340 | Always yes; the row is there afterwards; the entries are right if and only if an old row's shared keys stay. |
| Rows.DBTX.Delete | db/db.go:342-348 | What dbDel does, with its exact condition. |
| RowStores.SetBoth | storage/disk.go:422-430 | A step of the row layer's map, and the same step of the transaction with an encoded value: they go on having the same keys, values that encode the columns or are empty for index entries, and the same deleted keys. |
| RowStores.DelBoth | storage/disk.go:432-443 | The same for a deletion, and both give the same answer. |
| RowStores.GetBoth | storage/disk.go:409-420 | The transaction has a value for a key exactly when the row layer's map has columns, which it encodes. |
| RowStores.BeginBoth | storage/disk.go:285-312 | A transaction begun on a tree that has the encoded map stands for it. |
| Ranges.PrimaryRange | db/db.go:137-164 | Byte bounds on encoded primary keys are tuple bounds, in either order, open or closed. |
| Encodings.ValueOrder | types/schema.go:95-111 | The order of tuples: column by column, numbers as numbers and strings as bytes.Compare has them. |
| Encodings.NumbersWithin | db/db.go:137-178 | A range of numbers means what it says, with its ends in either order, each in the range or not. |
| Encodings.BoundBytes | db/db.go:157-178 | NewScanner's bounds: the lower first; on an index, 0 behind a closed lower or open upper one and 255 behind the others. |
| Ranges.IndexRange | db/db.go:145-178 | With the suffix bytes, byte bounds on index keys are bounds on the indexed values, for all open and closed combinations. |
| Ranges.LeadingFF | db/db.go:166-178 | A primary key that begins with 0xff is misplaced at both suffixes. |
| Ranges.IndexScan | db/db.go:34-99 | The stored keys within an index's bounds are the keys of exactly the rows whose values are within them, each once, and each leads back to its row. |
| Ranges.ScanHits | db/db.go:59-99 | The primary keys of such a scan are distinct, and are exactly those of the rows within the bounds. |
| Ranges.IndexOrder | index/secondary.go:18-19 | Index keys are ordered by indexed values, then by primary key. |
| Ranges.PrimaryScan | db/db.go:137-164 | The stored keys within primary bounds are the keys of exactly the rows within them. |
| Scanners.Scanner.Valid | db/db.go:34-57 | True exactly on a pair within the bounds. |
| Scanners.Scanner.SkipLow | db/db.go:199-212 | The loop over an open lower bound: after any number of turns its guard still holds if no stored key is above the bound; otherwise it ends within as many turns as there are pairs. |
| Scanners.Scanner.NewScanner | db/db.go:137-215 | The scanner has the records' bounds and stands at the beginning of the range, except in the missed case; it comes back if and only if its lower bound is closed, a stored key is above it, or nothing is stored. |
| Scanners.Scanner.Open | db/db.go:180-215 | The same from encoded bounds. |
| Scanners.Scanner.Visit | db/db.go:26-57 | A Valid/Next loop terminates; it yields exactly the stored pairs within the bounds, each once, in order, if and only if it is not the missed primary case with something to visit. |
| Scans.OneScan | db/db.go:137-215 | A range of an index has one scan: the list of its rows by indexed values, then primary key. |
| Scans.HitsOf | db/db.go:59-99 | The snapshot's pairs within NewScanner's bounds are, one for one and in order, those of the rows in the range, and each leads kvToRecord back to its row. |
| Scans.ScanPart | db/db.go:26-57 | A new scanner has exactly these pairs before it, and none in the missed case. |
| ScanFilters.ScanFilter.KvToRecord | db/db.go:59-87 | DecodeKey and DecodeVal on a pair of the primary key; the primary key from an index key and then the row as the transaction has it, an error if it has been deleted. |
| ScanFilters.ScanFilter.Deref | engine/planner.go:45-62 | Out of range exactly behind the last row of the range; otherwise the current row, or a rejection by the filter. |
| ScanFilters.ScanFilter.Step | db/db.go:26-28 | One pair further on the snapshot: the next row of the range, or no longer valid. |
| ScanFilters.ScanFilter.SkipRejected | engine/planner.go:86-90 | Skipping stops at the next row that the filter keeps, or at the end. |
| ScanFilters.ScanFilter.Next | engine/planner.go:101-109 | One more kept row is counted, and the filter stands at the next one. |
| ScanFilters.FromBegin | storage/disk.go:285-290 | What Begin gives, a snapshot that is the transaction's map with the rows' columns encoded, is what a statement asks for. |
| ScanFilters.Begin | engine/planner.go:71-92 | The filter stands at the first kept row of the range, on a scanner that has the range's rows before it, or none in the missed case; it waits for ever exactly when NewScanner hangs. |
| Statements.Select | engine/executor.go:278-292 | Exactly the first limit rows of the range that pass the filter, in the order of the index, projected; none in the missed case; an error only if a projection fails on one of them; comes back exactly when NewScanner does. |
| Statements.Delete | engine/executor.go:353-372 | Exactly these rows are deleted, each once, and the count is theirs, although rows go while the scanner walks the snapshot; if and only if the scan does not miss the range. |
| Statements.Update | engine/executor.go:374-428 | Exactly these rows are rewritten, each once, from what they were when the statement began; never a row the statement has itself rewritten. |
| ScanWitnesses.MissedDelete | engine/executor.go:353-372 | A committed row 5, and a DELETE of 3 to 9: the row is in the range, and is not deleted. |
| ScanWitnesses.HungDelete | db/db.go:199-212 | The same row, and a DELETE of more than 5: after any number of turns NewScanner has not come back. |
| Grammars.Parse | parser/parser.go:413-462 | The mutual recursion terminates on every input, by remaining input and then level, and never gives text back. |
| Printing.OpRead | parser/parser.go:413-452 | In printed text each operator is read as itself on its own level, and as nothing on a lower one. |
| Printing.PrintParsed | parser/parser.go:397-476 | Any expression printed at any level, in front of text that goes on with no token and no lower operator, is parsed back. |
| Printing.ExpressionRoundTrip | parser/parser.go:397-476 | Parsing what was printed with the fewest parentheses gives the same tree and consumes exactly the text. |
| Printing.PrintInjective | parser/parser.go:397-476 | No two expressions have the same text. |
| Readings.LogicRead | parser/parser.go:438-443 | `or` and `and` are read as what they are, between any two operands. |
| Readings.ComparisonsRead | parser/parser.go:444-446 | So are `<=`, `>=`, `==`, `<` and `>`. |
| Readings.ArithmeticRead | parser/parser.go:447-452 | So are `+`, `-`, `*`, `/` and `%`. |
| Readings.OrAnd | parser/parser.go:438-443 | `and` before `or`, each from the left. |
| Readings.AndCompare | parser/parser.go:441-446 | Each comparison before `and`, on either side. |
| Readings.CompareCompare | parser/parser.go:444-446 | Comparisons from the left. |
| Readings.CompareAdd | parser/parser.go:444-449 | Sums and differences before comparisons, on either side. |
| Readings.AddAdd | parser/parser.go:447-449 | Sums and differences from the left. |
| Readings.AddMul | parser/parser.go:447-452 | Products, quotients and remainders before sums, on either side. |
| Readings.MulMul | parser/parser.go:450-452 | These from the left. |
| Readings.MinusRead | parser/parser.go:453-462 | A minus sign in front of an operand, before anything else. |
| Readings.ParenthesesRead | parser/parser.go:463-468 | Parentheses that nothing asks for change nothing. |
| Readings.UnclosedRead | parser/parser.go:463-468 | A parenthesis that is not closed: the expression, and an error. |
| Readings.SpacesRead | parser/lexer.go:33-37 | Eight characters are skipped in front of every token, tab and line feed among them. |
| Readings.SpaceTrimmed | parser/lexer.go:33-37 | And no others are. |
| Readings.CapitalsRead | parser/lexer.go:49-71 | `OR`, `Or`, `AND` and `aNd` are read as `or` and `and`. |
| Readings.DigitsRead | parser/lexer.go:93-111 | Digits are decimal. |
| Readings.NumbersRead | parser/lexer.go:93-130 | They are a number up to 9223372036854775807, and above that a word. |
| Readings.WordsRead | parser/lexer.go:10-25 | Small letters are a word unless they are one of the listed keywords. |
| Readings.CharactersRead | parser/lexer.go:73-91 | The characters of numbers, words and symbols, by their codes. |
| Readings.EndRead | parser/parser.go:463-476 | At the end of a text an operand is missing. |
| Readings.KeywordRead | parser/parser.go:463-476 | So it is where a keyword stands. |
| Readings.OtherRead | parser/lexer.go:113-130 | Any other character of ASCII that begins no operand is left, behind an empty word. |
| Parsers.Parser.PKeyword | parser/lexer.go:49-71 | All keywords in a row, or the position is unchanged. |
| Parsers.Parser.PSym | parser/lexer.go:132-151 | A symbol, or the place at which the attempt stopped. |
| Parsers.Parser.PNum | parser/lexer.go:93-111 | A number that fits int64, or none. |
| Parsers.Parser.PStr | parser/lexer.go:113-130 | A word that is no keyword, or none. |
| Parsers.Parser.PExprBinOp | parser/parser.go:413-432 | The loop over a level's operators computes the left-associated tree that the grammar function gives. |
| Parsers.Parser.PExprUnOp | parser/parser.go:453-462 | The tree, rest and error of the grammar function. |
| Parsers.Parser.PExprAtom | parser/parser.go:463-476 | The tree, rest and error of the grammar function. |
| Parsers.Parser.PExprTuple | parser/parser.go:397-411 | The tuple, or its only member. |

## Left out

- File access: mmap, file descriptors, fsync, the chunk lookup of `pageRead`, the writes of `updateFile`. A commit's write-out either succeeds or fails as a whole; durability after reopening is not claimed (the meta page is written before `flushed` advances).
- Concurrent transactions and conflict detection: `Commit` does not consult the read set, and the model has one transaction at a time.
- BTrees.BTree.Insert: the page store is that of a transaction's pending tree, with fresh page numbers and a `del` that does nothing; the tree is not run on the freelist's store, so "no page leaks" is stated for the freelist only (`nodeDelete` does not free the replaced child, `Insert` does not free a leaf root). Page numbers are required to stay below 2^64, keys to be non-empty and at most MAXKEYLEN, and slots to take at most half a page, which the code does not check either.
- BTrees.BTree.Delete: requires room for the new separators (`RoomToDelete`, a condition on the tree before the call that is exact by `Roots.DeletedWF`), because the code does not check it and goes on with a page that has lost its end; the same holds for TreeDelete and NodeDelete. Inserting into or reading from a tree whose last pair has been deleted is not modelled.
- Splits.NodeSplit2: the branch for nodes above 2*PAGE_SIZE is not modelled; nodes within the size bounds do not reach it. NodeSplit3 is called with nodes of at most 2*PAGE_SIZE-8 bytes.
- Iters.BIter.SeekLE: the iterator of a tree without a root (an empty path) is the None of `BIter.Seek`. The levels of `pos` never hold -1, which `iterPrev` also tests for.
- FreeLists.Pager.PageAlloc: pages are sequences of 512 words, not bytes; the page lists, the queue and the set of pages in use are ghost state. Whether pages freed in a transaction are reused before it commits is not stated: the `>` test and the reset of the sequence numbers without `maxSeq` do not support it.
- Transactions.KV.Commit: requires every operation to be legal in every iteration order, because the code has no error path for a page that overflows or a tree that is emptied in between.
- Rows.DBTX.DbSet: JSON is taken to round-trip, so the map holds column values; map and deleted keys stand for those of a `Transactions.KVTX`, step by step (`RowStores`), where each step has to be legal on the pending tree. Table definitions are fixed: `TableNew`, `GetTableDef` and the prefix counter are not modelled, nor is a value type other than the two.
- Rows.DBTX.Insert: requires a row of the table's types, without the minimum integer in a key column (EncodeKey panics on it); the same holds for Update and Upsert.
- Ranges.IndexScan: requires that no primary key encodes to a leading 0xff (`Ranges.LeadingFF` shows what happens otherwise), or has an empty string in an indexed column, which does not lead back to its row (`Indexes.PkOfSecKey`); the same holds for ScanHits, and for statements on a secondary index.
- Rows.DBTX.DbDel: works on a copy of the record; whether the replacement of empty strings shows in the caller's slice after it has been appended to is not modelled. Records that hold more than the key but not all columns are not modelled, nor are given columns that EncodeKey panics on.
- Scanners.Scanner.NewScanner: requires encodable bounds that name every column of the index. How long one waits for its loop is a parameter of the model.
- Statements.Select: a filter is the set of rows it accepts, and output and set expressions are functions of a row: the evaluator (`qlEval`) is not modelled, and reading a stored value (`DecodeVal`) is a function that gives the columns which the transaction's map holds. OFFSET is zero; `Prev`, `qlScanInit`'s choice of index and its minimum and maximum bounds are left out. A statement is the first one of its transaction, as `ExecuteQuery` runs it: snapshot and transaction hold the same rows when it begins.
- Statements.Delete: requires that no primary key has an empty string in an indexed column, as Update does; what deleting such a row does to others is stated for `Rows.DBTX.Delete`.
- Parsers.Parser.PExprAtom: of an error only that there was one is kept, not its text, and the node is `Bad`. Statements other than expressions (`pSelect`, `pInsert`, `pCreateTable` and the rest) are left out.
- Printing.ExpressionRoundTrip: words start with a letter and are no keywords, numbers are those of an int64 without sign, tuples have two or more members.
- The CLI, table printing, logging, uuid and temporary files.
