# redB: a verified model of the engine's core

redB is a small relational engine: SQL is translated to stack code, a virtual
machine runs the code against tables kept in 32768-byte blocks, and a
client/server pair carries statements and results. This project models the
parts of it that are hard to get right, and proves what they are for.

* **Index files** (`Index*`). A B+tree whose nodes are blocks of a file. A
  class holds the blocks and changes them slot by slot as the program does; a
  ghost tree says which shape they store. Every method that inserts, splits, looks
  up, iterates, borrows from the left or removes is proved against that shape,
  including the slots that splitting and removal leave behind and the sibling
  chains of every level. `IndexRebalance` says what becomes of the removals that do
  not keep the index. Keys are natural
  numbers; `KeyOrder` proves that fixed-width keys are ordered as the numbers
  they spell, and that `make_key` orders them as the indexed columns.
  `NodeLayout` puts the slots into bytes, and `IndexBytes` proves that the codecs
  on bytes are the slot updates of the index operations.
* **Row heap** (`HeapBlock`, `HeapFile`, `HeapStore`, `RowFormat`, `BlockCache`).
  Data blocks with doubly linked rows, the scan over them, the stored form of a
  row, the block cache over the file, and which changes of an insert it writes.
* **Compiler and machine** (`Sql*`). Parsing of expressions into prefix code,
  interning of literals, reversal, linking of offsets, byte encoding, the run
  loop, and the stack operators. The translator accepts exactly the grammar, whose
  precedence is a table of operators. The result is one compiler-correctness theorem
  from tokens to tree, and the same for INSERT from tokens through bytes to the
  texts that are stored, with the exact condition under which these are the
  values of the statement.
* **Queries** (`Query*`, over `Numbers` and `Texts`). Evaluation with null
  propagation, what comparisons and arithmetic mean for the real numbers and the
  bytes they are about, constant folding (as a function, and in place on nodes of the
  heap), the list of joined tables and the turn of a right join, nested loops over
  column items that are filled in place, and the result multimap, compared with a
  relational definition (join, then WHERE, then select list, then stable sort by
  the values of the ORDER BY columns).
* **Sessions** (`Session*`). Both dispatch tables, the client and the server run
  against each other in every interleaving, with what the user gets to see, and the
  server alone against any client at all: whom it lets in, and what it serves.

Where the code does less than its comments say, the model follows the code and
states exactly when it does what it should; a second lemma gives an input.

| condition | input |
|---|---|
| an odd order loses an element at every split: `IndexSplit.SplitConservesIffEven` | `IndexBytes.OddOrderLoses` |
| borrowing between leaves loses a row: `IndexBorrow.LeafBorrowLosesRow` | `IndexBorrow.BorrowedRow` |
| a lookup ends in a leaf for keys that are no separators: `IndexLookup.Find` | `IndexRebalance.SeparatorFound` |
| a removal that would rebalance in another way than by borrowing from an inner left sibling: `IndexDelete.Remove` | `IndexRebalance.RemoveSeparators`, `IndexRebalance.StoppedRemoval` |
| a separator between leaves gives way to its successor: `IndexRebalance.RemoveBySuccessor` | `IndexRebalance.SuccessorStays` |
| merging drops the parent's last child: `IndexRebalance.MergeKeepsChildrenIff` | `IndexRebalance.MergeLosesChild` |
| values longer than 255 bytes are misread: `RowFormat.ReadsBackIff` | `RowFormat.LongValueMisread` |
| blocks that lost all their rows mislead a scan: `HeapFile.ScanIff` | `HeapFile.StrayingHeap` |
| a change that nobody flushes: `BlockCache.Cache.WriteOnly`, `HeapStore.InsertStored` | `BlockCache.ForgottenFlush` |
| AND in a buffer that already holds code: `SqlParse.AndInUsedBuffer` | `SqlParse.AndInFrontOfOn` |
| two minus signs before a column or a number: `SqlValues.DoubleNegation` | `SqlValues.SecondSignLost` |
| INSERT stores the empty text for values that are no constants: `SqlDeliver.InsertWrittenIff` | `SqlDeliver.SumStoresNothing` |
| constant folding of texts and of quotients: `QueryExpr.FoldOpIff` | `QueryExpr.FoldedNull`, `QueryExpr.FoldedDigits` |
| constants of a select list are folded too: `QueryPlan.SqlCompacted`, `QueryExpr.FoldOpIff` | `QueryPlan.ShownFolded` |
| null on the left of OR: `QueryExpr.AcceptedExactly`, `QueryExpr.OrLosesIff` | `QueryExpr.OrLosesNull` |
| negative numbers in an ORDER BY column: `QueryOrder.SignedKeysIff` | `QueryOrder.NegativesTurned` |
| WHERE behind a LEFT JOIN: `QueryPlan.LeftJoinIff` | `QueryPlan.ShownThoughRejected` |
| error messages longer than one buffer: `SessionPair.SafeIff` | `SessionPair.FailedSession` |

The null value of an expression is the empty text, whereas the keyword NULL
is translated to a text constant with four letters; the model keeps both.

## Model

| member | source | states |
|---|---|---|
| IndexSplit.SplitConservesIffEven | btree/btree.cpp:877-928 | splitting a node that `is_full` calls full keeps all its elements if and only if the order is even |
| IndexSplit.SplitStep | btree/btree.cpp:877-928 | replacing a full child anywhere in a well-formed tree by its two halves keeps balance, occupancy, separators, order and contents |
| IndexSplit.GrowStep | btree/btree.cpp:1434-1447 | a new root above a full one, split, is a well-formed tree one level higher with the same contents |
| IndexSplit.LeafStep | btree/btree.cpp:592-605 | putting an element at the place found from the right into a leaf with room keeps the tree well formed and adds exactly that element |
| IndexSplit.DescendStep | btree/btree.cpp:606-621 | the child chosen by scanning separators from the right is one in which the key may be put |
| IndexSplit.ChooseHalf | btree/btree.cpp:611-619 | after the split the half chosen by comparing with the middle key is one in which the key may be put |
| IndexStore.CombinedOffset | btree/btree.cpp:485-514 | block offset and row position come back from their sum, and copying a slot copies it whole |
| IndexStore.RepReplace | btree/btree.cpp:711-733 | blocks that store a subtree can be exchanged without touching what the other blocks store |
| IndexSplitStore.SplitRep | btree/btree.cpp:877-928 | the blocks written by a split store exactly the tree with the two halves |
| IndexSplitStore.ChainInsert | btree/btree.cpp:978-997 | linking a node in behind another makes the sibling links spell the longer row |
| IndexSplitStore.SplitChains | btree/btree.cpp:924-925 | after a split the sibling links of every level spell its left-to-right node order |
| IndexSplitStore.SplitValid | btree/btree.cpp:877-928 | a split keeps the whole index valid: shape, blocks, chains and distinct offsets |
| IndexSplitStore.GrowValid | btree/btree.cpp:1434-1447 | so does a new root |
| IndexLeafStore.InsertValid | btree/btree.cpp:592-605 | shifting and putting in a leaf's block gives a valid index with exactly one element more |
| IndexFile.Index.PutElement | btree/btree.cpp:711-733 | writes one slot: a leaf takes pointer and key, an inner node only the key |
| IndexFile.Index.CopyElement | btree/btree.cpp:895-902 | `put_element` of `get_element` moves a leaf slot whole, otherwise its key |
| IndexFile.Index.InsertSibling | btree/btree.cpp:978-997 | sets exactly the four sibling fields around the new node |
| IndexFile.Index.SplitChild | btree/btree.cpp:877-928 | leaves exactly the blocks of the two halves, of their parent and of the next sibling |
| IndexFile.Index.InsertInLeaf | btree/btree.cpp:592-605 | shifts larger elements and puts the new one; nothing else changes |
| IndexFile.Index.SplitBelow | btree/btree.cpp:606-612 | a split below the root keeps the index valid and its contents unchanged |
| IndexFile.Index.Descend | btree/btree.cpp:606-621 | the child entered has room for one more key and is where the key belongs |
| IndexFile.Index.InsertNonFull | btree/btree.cpp:587-622 | from any node with room the element ends up in the index, which stays valid |
| IndexFile.Index.GrowRoot | btree/btree.cpp:1434-1447 | a full root is split under a new one; contents are unchanged |
| IndexFile.Index.Insert | btree/btree.cpp:1417-1455 | every insert keeps the index valid and adds exactly the new element to its contents |
| IndexScan.StandsNext | btree/btree.cpp:1851-1866 | one step along the sibling chain is one step in the sequence of all elements |
| IndexScan.StandsPrev | btree/btree.cpp:1876-1889 | and back |
| IndexScan.NarrowedHasKey | btree/btree.cpp:198-205 | the subtree a lookup has narrowed to holds the key if and only if the tree does |
| IndexScan.NarrowStep | btree/btree.cpp:198-205 | following the child found by the binary search loses no match |
| IndexScan.SepKeysStep | btree/btree.cpp:198-205 | a key that is no separator here is one below only in the child it leads to |
| IndexLookup.FindKey | btree/btree.cpp:444-460 | binary search finds the key, or the first larger one; which of several equal keys it finds is a function of the keys |
| IndexLookup.FindBelow | btree/btree.cpp:198-205 | a lookup finds the key if and only if it is there, in a leaf if and only if it is no separator; stale slots never match |
| IndexLookup.Begin | btree/btree.cpp:1047-1056 | begin stands before the first element |
| IndexLookup.End | btree/btree.cpp:1099-1109 | end stands behind the last one |
| IndexLookup.Find | btree/btree.cpp:1127-1134 | the result differs from end if and only if the key was inserted, and can be dereferenced if and only if the key is no separator |
| IndexLookup.StepRight | btree/btree.cpp:1851-1866 | what `++` reads in the blocks leads to the next position |
| IndexLookup.StepLeft | btree/btree.cpp:1876-1889 | what `--` reads leads to the previous one |
| IndexLookup.SamePlace | btree/btree.cpp:1831-1839 | iterators are equal if and only if they stand at the same position |
| IndexLookup.Iterator.Next | btree/btree.cpp:1851-1866 | moves one position to the right, and stays at the end |
| IndexLookup.Iterator.Prev | btree/btree.cpp:1876-1889 | moves one position to the left, and stays at the beginning |
| IndexLookup.Iterator.Current | btree/btree.cpp:485-514 | reads the element of its position |
| IndexLookup.ScanForward | btree/btree.cpp:1047-1109 | from begin to end every element is visited once, in non-decreasing key order |
| IndexLookup.ScanBackward | btree/btree.cpp:1876-1889 | from end to begin the same elements come in reverse |
| IndexRemove.RemoveStep | btree/btree.cpp:792-800 | taking an element out of a leaf that can spare it keeps the tree well formed and removes exactly that element |
| IndexRemove.RemoveHolds | btree/btree.cpp:792-800 | the slot left behind does not mislead later lookups |
| IndexSeparator.DropStep | btree/btree.cpp:818-835 | a separator above leaves that gives way to the second largest key of the leaf on its left, which loses the element: the tree stays well formed without exactly that element |
| IndexSeparator.DropValid | btree/btree.cpp:818-835 | the two blocks written store the index without that element, and their left-over slots mislead no lookup |
| IndexDelete.RemoveSeparator | btree/btree.cpp:818-835 | `remove_from_non_leaf` above a leaf with an element to spare keeps the index valid and removes exactly one element with the key |
| IndexDelete.MoveFromPrev | btree/btree.cpp:315-345 | the loops of `borrow_from_prev` leave exactly the three blocks of the rotation |
| IndexDelete.BorrowFromPrev | btree/btree.cpp:315-345 | in place between inner nodes it keeps the index valid and its contents unchanged |
| IndexDelete.FillBefore | btree/btree.cpp:418-440 | before a child is entered it has enough keys, or borrows one from the left, and the key is still to be looked for below it |
| IndexDelete.RemoveBelow | btree/btree.cpp:748-790 | removal stops if and only if the key is met as a separator whose left child is no leaf with `d` elements, or a child on the way has fewer than `d` keys and is no inner node whose left sibling can lend one; otherwise exactly the found element goes |
| IndexDelete.Remove | btree/btree.cpp:1604-1626 | the index stays valid; unless the removal stops, exactly the found element goes, and if none is found the key was not there |
| IndexDelete.RemoveOnly | btree/btree.cpp:1604-1626 | removing the only element leaves an empty index |
| IndexDelete.RemovedIsGone | btree/btree.cpp:1604-1626 | with distinct keys, contents without one element lack exactly its key |
| IndexDelete.RemoveThenFind | btree/btree.cpp:1604-1626 | a lookup after a removal that did not stop ends at end, and every other key is found as before |
| IndexBorrow.InnerBorrowKeeps | btree/btree.cpp:315-385 | both borrow rotations between inner nodes keep contents, balance and separators of the parent |
| IndexBorrow.BorrowOccupied | btree/btree.cpp:418-440 | borrowing where `fill` does leaves both inner nodes with enough keys and not too many |
| IndexBorrow.FromPrevKeeps | btree/btree.cpp:315-345 | borrowing from the left keeps elements and the order of the nodes of every lower level |
| IndexBorrow.FromNextKeeps | btree/btree.cpp:355-385 | borrowing from the right does too |
| IndexBorrow.LeafBorrowIff | btree/btree.cpp:315-385 | between leaves contents are kept if and only if the moved element equals the bare separator |
| IndexBorrow.LeafBorrowLosesRow | btree/btree.cpp:315-385 | so between leaves that point to stored rows one of them is always lost, in either direction |
| IndexBorrow.BorrowedRow | btree/btree.cpp:315-345 | leaves with two rows and one below a parent of degree two, where `fill` borrows: the row of the moved key is gone |
| IndexBorrow.LeafBorrowSeparator | btree/btree.cpp:334-342 | the separator left behind is the largest key on its left if and only if that key occurs twice |
| IndexBorrowStore.RotateStep | btree/btree.cpp:315-345 | a rotation to the right anywhere in an index keeps it well formed with the same contents |
| IndexBorrowStore.RotateRep | btree/btree.cpp:315-345 | the blocks written store the rotated nodes, left-over slots included |
| IndexBorrowStore.RotateValid | btree/btree.cpp:315-345 | all parts of the index invariant survive: shape, blocks, sibling chains and distinct offsets |
| IndexRebalance.BorrowFromNext | btree/btree.cpp:355-385 | the loops of `borrow_from_next` leave blocks whose slots in use spell the rotated nodes |
| IndexRebalance.LargestStays | btree/btree.cpp:355-385 | the largest key of the giving node stays behind its slots in use |
| IndexRebalance.RemovedButFound | btree/btree.cpp:198-205 | once that key has been removed as a separator, a lookup of it still ends there |
| IndexRebalance.RemoveBySuccessor | btree/btree.cpp:840-848 | a separator between a minimal leaf and a leaf with an element to spare: the element goes, and the index stays valid, if and only if the right leaf begins with that key; otherwise the key stays and its separator is overwritten |
| IndexRebalance.SuccessorStays | btree/btree.cpp:840-848 | leaves with one row and two: removing key 1 overwrites its separator and key 1 stays |
| IndexRebalance.MergeAdds | btree/btree.cpp:648-690 | merging leaves adds an element that points to no row |
| IndexRebalance.MergeKeepsKey | btree/btree.cpp:849-852 | removing the separator from the merged leaf leaves another element with its key |
| IndexRebalance.MoveChildren | btree/btree.cpp:662-665 | where the loop over child offsets moves them |
| IndexRebalance.MergeKeepsChildrenIff | btree/btree.cpp:662-665 | the parent keeps all children but the merged one if and only if that was the last |
| IndexRebalance.MergeLosesChild | btree/btree.cpp:662-665 | merging the first two of four children loses the fourth |
| IndexRebalance.PrevNeverEnds | btree/btree.cpp:547-559 | above inner nodes the search for the previous element never comes to a leaf, as it keeps looking at the children of the node it started in |
| IndexRebalance.SeparatorFound | btree/btree.cpp:1127-1134 | an index of four keys in which a lookup ends in an inner node |
| IndexRebalance.RemoveSeparators | btree/btree.cpp:1604-1626 | every index with more than one leaf comes to a removal that stops, by removing its first separator again and again |
| IndexRebalance.StoppedRemoval | btree/btree.cpp:1604-1626 | so does an index into which four keys have been inserted |
| KeyOrder.BytesOrder | btree/btree.cpp:454-456 | comparing keys of one length byte by byte is comparing the big-endian numbers they spell |
| KeyOrder.KeyEmbedsOrder | row/row.cpp:239-260 | `make_key` gives keys of the summed column sizes, ordered and equal exactly as the column tuples |
| KeyOrder.IndexOrder | row/row.cpp:239-260 | an index over the numbers is an index over the column tuples |
| NodeLayout.SlotsFit | bcalc/bcalc.cpp:50-55 | all slots below the order, and one more child offset, lie inside the block |
| NodeLayout.SlotsApart | btree/const.h:26-43 | different slots do not overlap |
| NodeLayout.Int64Back | buffer/buffer.cpp:632-653 | a 64-bit number is read back from its bytes |
| NodeLayout.PointerWritten | btree/btree.cpp:696-705 | writing a pointer changes that pointer, no other, no key and no header field |
| NodeLayout.KeyWritten | btree/btree.cpp:711-733 | writing a key of the index's size changes that key and nothing else |
| NodeLayout.NodeBuffer.PutChild | btree/btree.cpp:696-705 | the child offset is read back, everything else is unchanged |
| NodeLayout.NodeBuffer.PutElement | btree/btree.cpp:711-733 | key and, in a leaf, pointer are read back, everything else is unchanged |
| NodeLayout.NodeBuffer.GetElement | btree/btree.cpp:485-514 | a leaf pointer is split into a multiple of the block size and a position inside the block |
| NodeLayout.SplitBack | btree/btree.cpp:501-506 | the split is the only one, so it returns what was combined |
| IndexBytes.OneSlot | btree/btree.cpp:711-733 | bytes that differ in one slot spell blocks that differ in that slot |
| IndexBytes.PutElement | btree/btree.cpp:711-733 | `put_element` on bytes is the slot update of the index operations |
| IndexBytes.PutChild | btree/btree.cpp:696-705 | `put_child_offset` on bytes likewise |
| IndexBytes.GetElement | btree/btree.cpp:485-514 | `get_element` on bytes decodes the slot as the index operations do |
| IndexBytes.OddOrderLoses | bcalc/bcalc.cpp:50-55 | an index over a two-byte column has order 3273, and its full leaves lose an element when split |
| HeapBlock.PutRowOk | btree/btree.cpp:1171-1199 | a row behind all others becomes the tail of the list; rows do not overlap; no other row changes |
| HeapBlock.UnlinkOk | btree/btree.cpp:1246-1273 | head, tail, prev and next spell exactly the remaining rows, in order |
| HeapFile.StepFrom | btree/btree.cpp:1726-1753 | from a live row the iterator goes to the next row, to the head of the next block, or to end |
| HeapFile.EnterBlock | btree/btree.cpp:1746-1749 | a scan enters a block at a live row if and only if it has one, and at end if and only if it is the last and empty |
| HeapFile.Heap.NewData | btree/btree.cpp:1507-1530 | a new block is linked behind the last one; live rows are the same |
| HeapFile.Heap.Insert | btree/btree.cpp:1143-1199 | the new row is the last live row; all other rows keep place and contents |
| HeapFile.Heap.Remove | btree/btree.cpp:1230-1273 | exactly that row leaves the sequence of live rows |
| HeapFile.ScanIff | btree/btree.cpp:1726-1753 | a scan from begin to end visits exactly the live rows in insertion order if and only if no block but the last has lost all its rows |
| HeapFile.ScanStrays | btree/btree.cpp:1746-1749 | a block that lost all its rows makes the scan visit a place that is no row |
| HeapFile.Heap.Scan | btree/btree.cpp:1726-1753 | the scan loop itself, ending at end also if the last block is empty |
| HeapFile.StrayingHeap | btree/btree.cpp:1746-1749 | two inserts and a removal make a heap whose scan does not visit the row that is left |
| HeapStore.InsertStored | btree/btree.cpp:1143-1187 | after an insert nothing is left unflushed if and only if no block was opened behind another one, or that one was on the flush list already |
| HeapStore.Open | btree/btree.cpp:1156-1165 | the old block is relinked in the cache only |
| RowFormat.RowBuffer.Append | row/row.cpp:82-166 | value, size field and length byte (the length modulo 256) are written so that the buffer is the stored form of one value more; only values longer than their column are refused |
| RowFormat.RowBuffer.ValueAt | row/row.cpp:272-280 | the stretch that the length bytes up to the column select; the value appended if all lengths up to it are at most 255 |
| RowFormat.ReadsBackIff | row/row.cpp:272-280 | a column is read back from every row of given lengths if and only if its length and all before it fit a byte, or it is empty |
| RowFormat.SizeStored | row/row.cpp:82-166 | the size field of a row is the number of its bytes, if that fits sixteen bits |
| RowFormat.LongValueMisread | row/row.cpp:156-166 | a 300-byte value and the column behind it are both read wrong |
| BlockCache.FlushIff | cache/cache.cpp:62-68 | flushing brings the disk to what clients see if and only if every changed block is on the flush list |
| BlockCache.Cache.GetBlock | cache/cache.cpp:75-84 | a block comes as clients last saw it, from the cache or from disk |
| BlockCache.Cache.NewBlock | cache/cache.cpp:105-113 | a new block is on disk and in the cache |
| BlockCache.Cache.FlushBlock | cache/cache.cpp:53-56 | an offset enters the flush list once |
| BlockCache.Cache.WriteAndFlush | cache/cache.cpp:53-56 | a flushed change in place is a change of the flat file |
| BlockCache.Cache.WriteOnly | btree/btree.cpp:959-970 | a change in place that is not flushed is safe if and only if the block is already on the list or did not change |
| BlockCache.ForgottenFlush | cache/cache.cpp:62-68 | a block changed in the cache alone is not written |
| BlockCache.Cache.FlushCache | cache/cache.cpp:62-68 | afterwards the disk is what clients see |
| BlockCache.Cache.DropBlock | cache/cache.cpp:43-47 | clients do not notice if and only if the disk holds the last version |
| SqlParse.ParseEmits | tran/tran.cpp:2320-2640 | every level of the grammar turns an expression derivable at that level into its prefix code; the levels are the rows of an operator table |
| SqlParse.LogicEmits | tran/tran.cpp:2277-2318 | an expression parsed into an empty buffer becomes exactly its prefix code |
| SqlParse.FitsIff | tran/tran.cpp:2277-2648 | the rows of that table give every operator the precedence that the translator gives it |
| SqlAccept.Precedence | tran/tran.cpp:2277-2648 | in x op y op z the operator of the later row is applied first, and of two in one row the first one: AND, OR, equality, order, sums, products |
| SqlAccept.AcceptsOnly | tran/tran.cpp:2277-2648 | whatever the translator accepts is spelled by an expression of the grammar, the asterisk for columns included, and becomes its prefix code |
| SqlAccept.AcceptsIff | tran/tran.cpp:2277-2648 | tokens are translated to their end if and only if they spell such an expression |
| SqlAccept.ThreeNamesRefused | tran/tran.cpp:2245-2252 | a name qualified by a table and a database is refused |
| SqlParse.AndInUsedBuffer | tran/tran.cpp:2277-2318 | in a used buffer it does if and only if it has no AND at its top or the buffer holds only ANDs |
| SqlParse.AndInFrontOfOn | tran/tran.cpp:2033 | a AND b behind CALL ON: the AND ends up in front of ON |
| SqlParser.Parser.DataIndex | tran/tran.cpp:649-678 | a spelling gets the index of its first entry, or a new one |
| SqlParser.Parser.ColumnExpr | tran/tran.cpp:2232-2266 | names, qualified names and asterisks become references to the data table as the lookahead decides |
| SqlParser.Parser.MathPrimary | tran/tran.cpp:2543-2604 | the method computes the translation function for operands, the asterisk included |
| SqlParser.Parser.Level | tran/tran.cpp:2320-2640 | the loops of the levels compute the translation function |
| SqlParser.Parser.LogicLevel | tran/tran.cpp:2277-2318 | so does the top level, in its caller's buffer |
| SqlVm.LinkedEntry | comp/comp.cpp:581-592 | a linked offset leads to the type and the text of the entry that was numbered |
| SqlVm.Unquoted | comp/comp.cpp:581-592 | a string between quotes becomes its contents, other spellings stay as they are |
| SqlVm.LinkedAppend | tran/tran.cpp:589-605 | reversal turns prefix code around: the last piece is run first |
| SqlCorrect.CompilerCorrect | vm/vm.cpp:409-415 | for every expression, running its reversed and linked code from any stack leaves that stack and exactly the expression's tree |
| SqlCorrect.EndToEnd | tran/tran.cpp:2277-2318 | the same from the tokens |
| SqlCorrect.TreeIffSigns | vm/vm.cpp:4939-4962 | an expression without asterisks gets a tree if and only if every minus sign stands before a number or a column |
| SqlValues.SignsAlternate | vm/vm.cpp:306-337 | before an integer minus signs cancel in pairs as far as its number goes, and any sign writes that number anew |
| SqlValues.CanonicalIff | vm/vm.cpp:332 | which restores the digits if and only if there are no leading zeros |
| SqlValues.DoubleNegation | vm/vm.cpp:4939-4962 | two minus signs cancel if and only if they stand before a column that is negated anyway, before an integer that is signed already or has no leading zeros, or before a FLOAT whose text comes back when it is rewritten twice |
| SqlValues.SecondSignLost | vm/vm.cpp:4939-4962 | two minus signs before a column are read as one |
| SqlValues.HeldIffConstant | vm/vm.cpp:409-415 | a value holds the text it is written with if and only if it is a literal, possibly in parentheses or behind signs; any other holds no text |
| SqlValues.HeldIsValueIff | vm/vm.cpp:2756-2795 | a value without columns holds what it evaluates to if and only if it is such a constant or evaluates to null |
| SqlBytes.ReadWordBack | buffer/buffer.cpp:609-620 | a 32-bit operand is read back from its bytes |
| SqlBytes.FetchBack | comp/comp.cpp:603-628 | every instruction but NOP is fetched back from its bytes |
| SqlBytes.BytesRun | vm/vm.cpp:383-395 | running the bytes of a program is running the program |
| SqlBytes.Machine.Run | vm/vm.cpp:383-395 | the run loop computes the run function |
| SqlPipeline.Pipeline | comp/comp.cpp:575-628 | from tokens through bytes: the machine pushes exactly the tree of the tokens |
| SqlInsert.BodyEmits | tran/tran.cpp:1616-1720 | every INSERT body becomes its lists, each behind its length |
| SqlParser.Parser.NameList | tran/tran.cpp:1660-1669 | the loop with its patched count computes the list function |
| SqlParser.Parser.ValueSet | tran/tran.cpp:1695-1720 | likewise for a set of values |
| SqlParser.Parser.ValueSetList | tran/tran.cpp:1674-1692 | likewise for the list of sets |
| SqlParser.Parser.OptColumns | tran/tran.cpp:1639-1656 | likewise for the optional columns |
| SqlParser.Parser.InsertBody | tran/tran.cpp:1616-1692 | likewise for the whole body |
| SqlAccept.InsertOnly | tran/tran.cpp:1616-1720 | whatever is accepted as the body of an INSERT is one of the grammar, and becomes its lists behind their lengths |
| SqlDeliver.Loader.LoadColumnNames | vm/vm.cpp:3744-3769 | takes the names off the stack, each of which must be a column |
| SqlDeliver.Loader.LoadValueList | vm/vm.cpp:3935-3953 | takes the texts of one set, whose length must be that of the columns |
| SqlDeliver.Loader.Insert | vm/vm.cpp:3642-3690 | stores set after set up to the first malformed one |
| SqlDeliver.InsertDelivers | vm/vm.cpp:3642-3690 | the compiled INSERT delivers exactly the names of the statement and the texts its values hold, in source order, up to the first set of another length |
| SqlDeliver.InsertWrittenIff | vm/vm.cpp:3945-3951 | what is stored is what the statement says if and only if every value in a stored set is a constant |
| SqlDeliver.SumStoresNothing | vm/vm.cpp:3945-3951 | VALUES (1 + 2) stores the empty text |
| SqlDeliver.RunSets | tran/tran.cpp:1674-1692 | the sets end up on the stack with the first one on top, each under its length |
| SqlPipeline.InsertPipeline | vm/vm.cpp:3642-3690 | INSERT from tokens through bytes to rows: exactly the names of the statement and the texts its values hold, in source order; it fails exactly if some value has no tree |
| SqlPipeline.InsertAsWritten | vm/vm.cpp:3642-3690 | from tokens through bytes, the rows are those of the statement if and only if every value in a stored set is a constant |
| Numbers.ComparesValues | vm/vm.cpp:2604-2750 | comparing fractions is comparing the numbers |
| Numbers.AddsValues | vm/vm.cpp:2490-2508 | sums, differences and products of fractions are those of the numbers |
| Numbers.DividesValues | vm/vm.cpp:2800-2820 | and so are quotients |
| Numbers.ReadBack | vm/vm.cpp:3710-3715 | a number that is written is read back |
| Numbers.ReadDecimal | vm/vm.cpp:2604-2625 | digits with a point among them read as the number they spell: those behind it are tenths, hundredths and so on |
| QueryExpr.StandardExact | vm/vm.cpp:3710-3715 | there is an exact way of reading and writing numbers, as the results below require |
| QueryMeaning.TextOrder | vm/vm.cpp:2640-2705 | texts are compared by the first byte in which they differ; a proper beginning comes first |
| QueryMeaning.ComparesAsNumbers | vm/vm.cpp:2604-2750 | operands that read as numbers: each of the six comparisons evaluates to true exactly if it holds of the two real numbers, and to false otherwise |
| QueryMeaning.ComparesAsTexts | vm/vm.cpp:2604-2750 | if one of them is no number, exactly if it holds of the two texts |
| QueryMeaning.CalculatesAsNumbers | vm/vm.cpp:2490-2508 | arithmetic is written as a number whose value is the sum, difference, product or quotient of the values; a quotient fails if and only if the divisor is zero |
| QueryMeaning.OnlyNumbersCalculate | vm/vm.cpp:2490-2508 | arithmetic on anything that is no number fails |
| QueryExpr.FoldOpIff | vm/vm.cpp:803-1301 | folding one node keeps its value if and only if the guard holds |
| QueryExpr.FoldCorrect | vm/vm.cpp:1106-1194 | a folded expression evaluates as the original, for every assignment of column values |
| QueryExpr.PlainFoldable | vm/vm.cpp:1106-1194 | that covers all expressions whose constant texts are neither null nor numbers and whose constant divisors are not zero |
| QueryExpr.FoldedNull | vm/vm.cpp:854-891 | a comparison of two null texts is folded to true but evaluates to null |
| QueryExpr.FoldedDigits | vm/vm.cpp:854-891 | '1' = '1.0' is folded to false but evaluates to true |
| QueryExpr.NullOrKleene | vm/vm.cpp:2513-2528 | a condition evaluates to null or to exactly its three-valued result |
| QueryExpr.AcceptedIsTrue | vm/vm.cpp:3266-3270 | a row accepted by WHERE is accepted by three-valued logic |
| QueryExpr.AcceptedIff | vm/vm.cpp:3203-3218 | and conversely where left operands of OR are known |
| QueryExpr.AcceptedExactly | vm/vm.cpp:3203-3218 | WHERE accepts exactly what three-valued logic does if and only if, where acceptance turns on an OR whose right operand alone is true, its left operand evaluates to false |
| QueryExpr.OrLosesIff | vm/vm.cpp:3203-3218 | OR loses a true right operand if and only if its left operand is null or fails |
| QueryExpr.OrLosesNull | vm/vm.cpp:3203-3218 | an OR with a null column on its left is null although its right operand is true |
| QueryItem.Node.Apply | vm/vm.cpp:409-415 | a stack operator makes a node of the two topmost items |
| QueryItem.Node.Compact | vm/vm.cpp:1106-1194 | compacting in place gives the folded tree |
| QueryItem.Node.Fill | vm/vm.cpp:5680-5811 | setting column values in place, from one row, from two with the left one first, or to null |
| QueryItem.ItemList.FillAll | vm/vm.cpp:2915-2921 | filling a list of items fills each of them and nothing else |
| QueryItem.Node.Execute | vm/vm.cpp:2756-2795 | execution computes evaluation and changes nothing |
| QueryItem.CompactedDecides | vm/vm.cpp:3618-3637 | a condition compacted once decides every row as the original does |
| QueryPlan.ColumnValue | vm/vm.cpp:5680-5811 | a column evaluates to the value stored at its place in the row of its table, or to null if there is no such row or value |
| QueryPlan.LineShows | vm/vm.cpp:5224-5255 | a line holds the printed values of the select list, in its order; it fails if and only if one of them does |
| QueryPlan.LineKeys | vm/vm.cpp:5257-5290 | the keys of a line are the values stored for the ORDER BY columns |
| QueryPlan.InnerJoinIsSql | vm/vm.cpp:2899-2929 | the nested loops of INNER JOIN with ON and WHERE give exactly the satisfying pairs in scan order |
| QueryPlan.LeftJoinIsSql | vm/vm.cpp:3068-3106 | LEFT JOIN without WHERE gives exactly the outer join |
| QueryPlan.LeftRowIff | vm/vm.cpp:3100-3104 | with WHERE an outer row is treated rightly if a partner passes WHERE, or there is none and the null-extended row passes; otherwise one line too many is shown |
| QueryPlan.LeftJoinIff | vm/vm.cpp:3068-3106 | LEFT JOIN with WHERE gives the relational result if and only if that holds of every outer row |
| QueryPlan.ShownThoughRejected | vm/vm.cpp:3100-3104 | a LEFT JOIN b ON 1 = 2 WHERE 1 = 2 shows an unmatched row |
| QueryPlan.RightJoinDecides | vm/vm.cpp:5726-5772 | it does not matter which of two rows of different tables is looked at first |
| QueryPlan.RightJoinIsSql | vm/vm.cpp:4540-4601 | the left join of the tables turned around gives the lines of the right join, in the order of its second table |
| QueryPlan.SqlCompacted | vm/vm.cpp:4364-4368 | compacting the ON condition and the select list changes no result if their constants can be folded |
| QueryPlan.FoldRounded | vm/vm.cpp:5232-5247 | folding does not change whether a printed result is rounded: all arithmetic is but that on INT constants without division |
| QueryPlan.ItemCompacted | vm/vm.cpp:4364-4368 | a compacted item prints what the item as written would print |
| QueryPlan.ShownFolded | vm/vm.cpp:4364-4368 | SELECT '' = '' prints true although the expression is null |
| QueryFlip.Collect | vm/vm.cpp:4563-4568 | following prev from an item lists the items back to the head |
| QueryFlip.Relink | vm/vm.cpp:4569-4573 | prev and next fields then spell the list in its new order |
| QueryFlip.ShiftJoins | vm/vm.cpp:4574-4589 | actions and conditions move one item to the right, right joins becoming left joins and left joins inner ones |
| QueryFlip.Turn | vm/vm.cpp:4558-4593 | the turn of a list of any length that ends in a right join |
| QueryFlip.MakeQuery | vm/vm.cpp:4540-4601 | two tables: only a right join is turned, into a left join of the second table with the first |
| QueryRun.Query.ExecInner | vm/vm.cpp:2909-2928 | the inner loop over filled items shows exactly the rounds of the definition |
| QueryRun.Query.ExecOuter | vm/vm.cpp:3068-3106 | one outer row, with what the items still hold if nothing was shown |
| QueryRun.Query.ExecJoin | vm/vm.cpp:2899-2929 | both joins show exactly what their loops are defined to show |
| QueryRun.Query.OutputExprList | vm/vm.cpp:5224-5291 | puts one line with its key into the result, or fails with the expression that fails |
| QueryRun.Query.ExecQuery | vm/vm.cpp:3223-3238 | the scan of one table shows exactly the rows that WHERE accepts |
| QueryRun.BuildItems | vm/vm.cpp:4364-4368 | the items of the select list are compacted, those of ORDER BY are not |
| QueryRun.JoinTwo | vm/vm.cpp:5657-5662 | compacts ON and the select list, makes the query and runs the loops over the tables in the order made |
| QueryRun.SelectTwo | vm/vm.cpp:5657-5675 | SELECT over two tables gives the relational result for the compacted statement, for INNER JOIN, and for LEFT and RIGHT JOIN without WHERE; that is the result of the statement as written if its constants can be folded; lines come by the values of the ORDER BY columns, or in the order of the loops without any |
| QueryRun.SelectOne | vm/vm.cpp:5657-5675 | SELECT over one table gives the accepted rows with the select list compacted, or as written if it can be folded; lines come by the values of the ORDER BY columns, INT ones as numbers and others as texts filled up with spaces, those with the same values in scan order |
| QueryOrder.OutputIsStableSort | vm/vm.cpp:5257-5290 | the result is a rearrangement of the lines that were put, by their keys, those with equal keys as they came |
| QueryOrder.TupleKeyOrder | vm/vm.cpp:5262-5288 | keys are ordered, and equal, exactly as the tuples of ORDER BY values: the first column that differs decides |
| QueryOrder.OutputIsRanked | vm/vm.cpp:5257-5290 | so the result is ordered by these values, whatever the lines |
| QueryOrder.SignedKeysIff | vm/vm.cpp:5274-5281 | an INT column is ordered as its numbers except for different negative ones with equally many digits |
| QueryOrder.NegativesTurned | vm/vm.cpp:5274-5281 | ORDER BY over -2 and -1 shows -1 first |
| QueryOrder.CountKeyOrder | vm/vm.cpp:5258-5260 | counter keys are ordered as their numbers, up to 10^20 |
| QueryOrder.ScanOrder | vm/vm.cpp:5258-5260 | so lines without ORDER BY stay in scan order |
| SessionWire.ServerTable | comm/comm.cpp:531-626 | which received opcodes each last opcode admits |
| SessionWire.ClientTable | comm/comm.cpp:437-526 | likewise for the client |
| SessionPair.NopIff | comm/comm.cpp:383-399 | a step is dispatched to nop if and only if it receives a message that the table of its side does not admit |
| SessionPair.SessionSafe | comm/comm.cpp:364-417 | in every run whose error messages fit one buffer nobody is dispatched to nop, every message on its way fits the buffer, at most one chunk is unacknowledged, and the screen shows exactly what was put whenever the user is served |
| SessionPair.SessionShows | vm/vm.cpp:5202 | in such a run the screen always shows a beginning of the answers to all statements in order (results and status lines with a newline, error texts), and all of them whenever the user is served |
| SessionPair.AnswerShown | comm/comm.cpp:411-417 | one statement: until the user is served exactly its answer is put and shown |
| SessionPair.Delivered | comm/comm.cpp:364-379 | a statement and credentials reach the server as they were sent |
| SessionPair.SafeIff | srv/main.cpp:393-401 | sessions whose statements fail with a text are all safe if and only if the text fits one buffer |
| SessionPair.ErrorFits | srv/main.cpp:393-401 | when the client has read one message of an error, all of it is on the screen and nothing is on its way if and only if it fits one buffer |
| SessionPair.FailedSession | srv/main.cpp:393-401 | a whole session with one statement that fails with any given text |
| SessionPair.StepKeeps | comm/comm.cpp:383-399 | every step of either side keeps the session invariant |
| SessionPair.OneTurn | comm/comm.cpp:364-399 | while a statement is being answered only one machine can move |
| SessionPair.Progress | comm/comm.cpp:364-379 | that machine is never stuck, and every such step leaves less to do |
| SessionPair.Ends | comm/comm.cpp:364-417 | so every answer that has begun ends with the user served and everything on the screen that was put and had still to be |
| SessionServer.Server.FlushBuffer | comm/comm.cpp:364-379 | sends the buffer; an ACK of two bytes leaves opcode and size as the next chunk needs them |
| SessionServer.Server.Loop | comm/comm.cpp:383-399 | dispatch stays inside the table for any messages; while a result is streamed exactly one message is read; a client that keeps to the protocol loses nothing |
| SessionServer.Server.PutText | comm/comm.cpp:411-417 | with an ACK for every full buffer of a result, what was sent and what is still in the buffer are the bytes put, every message sent is full, and their number is that of the full buffers |
| SessionServer.Server.SendText | srv/main.cpp:393-401 | a text goes out under one opcode in messages that are full but for the last |
| SessionServer.Server.Execute | srv/main.cpp:364-381 | if the client acknowledges every flush, exactly the output of a statement is sent, under its opcode, and the last message is OP_RSLT_FIN; one that fails ends with the text of its error |
| SessionServer.Server.Authenticate | srv/main.cpp:340-363 | only an accepted attempt is let in and answered with OP_AUTH_ACK; a refused one is answered with OP_AUTH_ERR and ends the loop |
| SessionServer.Server.React | comm/comm.cpp:383-399 | a message that the table admits is dealt with, any other only ends the loop |
| SessionServer.Server.Rcvd | srv/main.cpp:317-388 | the server's reaction to every admitted message: what it sends, whom it lets in, what it executes and when it ends, which keeps authentication and dispatch safe |
| SessionServer.Serve | srv/main.cpp:317-388 | for any client: every statement was asked for behind an accepted attempt to authenticate and executed after AUTH_ACK was sent; without an accepted attempt nothing is executed and AUTH_ACK is never sent; nothing is read behind a refused attempt unless one was accepted before it; the buffer is not overrun if no message fills it. A client that keeps to the protocol is served: all its statements are executed in order, and it is sent the key and exactly the outputs of its statements |
| SessionServer.ShortSession | srv/main.cpp:317-388 | such a client: connect, authenticate, one statement whose output takes one ACK, end |

## Left out

- IndexDelete.Remove: where the removal stops, the model leaves the index as it is; what the code does there is stated step by step in IndexRebalance and IndexBorrow, not for the whole index, because borrowing between leaves, borrowing from the right and merging do not keep it.
- IndexDelete.RemoveBelow: likewise stops in those cases.
- IndexDelete.RemoveThenFind: likewise says nothing of a removal that stops.
- IndexBorrow.InnerBorrowKeeps: is about tree values; in place, the rotation to the right is IndexDelete.BorrowFromPrev, and of the one to the left IndexRebalance.BorrowFromNext states the slots in use only, since those left over break the index invariant.
- IndexBorrow.FromPrevKeeps: likewise about tree values.
- IndexBorrow.FromNextKeeps: likewise about tree values.
- IndexRebalance.MergeAdds: merging is stated for the elements of the leaves and for the parent's children; the merge of inner nodes and the sibling reference that `merge` does not set back are left out.
- SqlValues.DoubleNegation: how a negated FLOAT is written is a function of its text.
- SqlValues.SignsAlternate: is about texts of digits, as the lexer makes INT tokens, without the range of 32-bit numbers.
- QueryRun.Query.OutputExprList: rounding of printed numbers is a function of the text that the plan supplies, and keys over FLOAT columns are left out.
- KeyOrder.KeyEmbedsOrder: takes column values as they were appended; a value longer than 255 bytes reaches `make_key` as `value_at` misreads it.
- Dropping an index and the free list, which moves the next offset backwards: histories without DROP INDEX only.
- Lookup and insertion with keys of another width than the index's key size.
- Errors of the operating system (a block that cannot be read or written) and 32-bit overflow of file offsets.
- A row that is larger than an empty block.
- Steps of `row::append` that depend on column types (auto-increment, date, enumeration and number formatting); a row's value is the text in its stored form. Index keys over FLOAT columns and over negative numbers.
- What an asterisk expands to: it is translated, but running it needs a schema. NOT, XOR, MOD and bitwise operators (no rule of the expression grammar produces them).
- The assembly text between the two compiler passes: tokens are assumed to be read back as they were written, which excludes backslashes in texts. Capacity of the code and data buffers.
- Resolution of names against schemas: a column item carries the names it was written with, so errors for unknown columns and for a minus sign before a text column are not part of the model; neither are privileges, foreign keys and unique keys checked by INSERT.
- Rounding of floating-point numbers: conditions are evaluated with exact fractions. Integers of the machine do not wrap around.
- Columns negated by a minus sign inside conditions (their stored value is negated when it is set).
- Joins of more than two tables (the turn of a longer list is modelled, its execution is not), joins through an index, self-joins, CROSS JOIN, and the reordering of long join lists.
- Padding and boxes of printed results, and INTO OUTFILE.
- Failed authentication in SessionPair, statements longer than one buffer, script files with several statements, errors raised after output has begun, and LOAD DATA messages beyond flushes between statements; the client prints up to the first zero byte, and results are taken to contain none. Status lines are the short sentences of the code.
- The bytes behind a full buffer in SessionServer: when one would be written the run stops and is marked.
- Index entries of a row that is inserted into the heap are the subject of IndexFile.
- Encryption, password hashing, sockets, threads, timing and locks: one statement holds a table at a time.
- Schema files, CREATE, ALTER, DROP, DESCRIBE, SHOW, GRANT, UPDATE and DELETE statements.
