# cbfuse: verified models

Dafny models of the two parts of cbfuse with the most intricate behaviour, with proofs about every run of them.

**The intrusive hash table** (`contrib/uthash/uthash.h`). Every element is on two doubly linked lists at once:
the application order (`prev`/`next`, with a cached `tail`) and the chain of its bucket (`hh_prev`/`hh_next`, with a
stored count). The macros are methods that rewrite these fields in place. Each method is proved to do to the pointers
exactly what a function on a table *value* (a list, a sequence of chains, the counters) says, and the theorems about
all runs are about that function.

| module | what it holds |
|---|---|
| `Bits`, `Seqs` | shift-and-mask arithmetic; sequences without duplicates |
| `Elems` | the element with its handle, the bucket, the table record |
| `BucketSpec`, `Chains` | bucket chains as values, and the methods that link, unlink, search and double them |
| `SortSpec`, `ListSort` | merge sort and ordered insert as functions, and the in-place sort of the links |
| `AppList` | append, ordered insert and unlink on the application order |
| `HashSpec`, `HashRuns`, `HashBounds` | the table value, its invariant, runs of operations, the bound on chain lengths |
| `FindOrder` | which of several equal keys is found, and what each operation leaves alone |
| `UtHash` | the macros as methods of a head pointer (`HashTable`) |
| `HashIter`, `SelectSpec`, `HashSelect` | deletion-safe iteration; selection into a second table |
| `AddRuns`, `SelectWitness`, `BoundWitness` | runs of adds that lead to a wrong selection and to a chain beyond the documented bound |
| `HashBloom`, `HashBer` | the Bloom filter; the Bernstein hash |

**The file system over three key-value collections** (`cbfuse/*.c`). A file is a stat document, a name in its
directory's document and perhaps a block document; every operation is a sequence of atomic store steps with nothing
around them.

| module | what it holds |
|---|---|
| `Paths`, `Store` | normal paths; a collection whose successful writes hand out ever larger CAS values |
| `Stats`, `CasRuns` | the four attribute updates; any number of clients interleaving their get and replace steps |
| `FileData`, `FileRuns` | block contents; reads, writes and truncates against a plain byte string and `st_size` |
| `DataLaws` | every byte, stat field and result after a read, write or truncate, accepted or not |
| `Namespace`, `CrashRuns` | create, mkdir, unlink, rmdir, mount and data operations as step machines cut off anywhere |
| `Tree` | the same operations run to their end, and exactly when the collections stay a tree |
| `EntryLaws` | what a new file, directory or root is, and what is left of a removed one |
| `CutRuns` | the disk after any number of steps of an operation: exactly when it is still a tree, and when `st_size` is still right |
| `RetryRuns` | what repeating an operation after a crash gives |
| `FileSystem` | the operations as methods on the collections, proved to be complete runs of the machine |

## What the proofs say about the code

Where the code does not do what its comments or its checks suggest, the model follows the code:

- `HASH_SELECT` leaves `tail` on the first selected element. The result satisfies the table invariant exactly when at
  most one element was selected, `HASH_FSCK` does not notice, the next `HASH_ADD` cuts off everything between the first
  and the added element, an ordered add does so exactly when it lands at the end, deleting the first selected element
  moves `tail` to the predecessor it does not have, and `HASH_SRT` repairs all of it (`SelectInvIff`,
  `SelectPassesFsck`, `AddAfterSelect`, `OrderedAddAfterSelect`, `DeleteAfterSelect`, `SortAfterSelect`).
- `HASH_SELECT` counts an item only after adding it, so a doubling in between works with one item too few. The ideal
  chain length and `nonideal_items` it stores are right exactly when the number of elements selected before is no
  multiple of the new bucket count (`SelectDoublingIff`). `SelectionOneShort` is an input where they are not: 65 elements
  added to an empty table and all selected.
- With equal keys HASH_FIND returns the element added last; but a doubling reverses every chain, so that an add that
  doubles leaves the one found that was last in the chain (`FindAfterAdd`, `FindAfterDoubling`).
- `expand_mult` is the ceiling of count over ideal length except just above the ideal length, or with an ideal length of
  1, where it is one less (`MultBounds`).
- The documented bound on chain lengths, (expand_mult + 1) times the threshold of 10, holds while the ideal chain length
  is below 10 and is not kept by the multiplier beyond that (`RunBounded`, `ThresholdIff`, `ThresholdBroken`).
  `BoundBroken` is a run of 1217 adds after which a chain of ten has an expand_mult of 0.
- A growing write to a path without a stat document stores the block and then fails, and a read of such a file copies
  the bytes and then fails (`WriteEffect`, `ReadEffect`).
- A zero-length write is taken for a truncate of the block alone; growing a file that has no block changes `st_size`
  only (`WriteConsistentIff`, `TruncateConsistentIff`).
- A write past the end makes uninitialised memory part of the file. So does a growing truncate of a file with a block,
  and an empty write past the end of one: `update_block` raises the length and stores what it reads behind the end of
  the buffer it fetched. `WriteDeterminedIff` and `TruncateDeterminedIff` give the exact conditions.
- A write or truncate that dies between its two store steps leaves `st_size` wrong exactly when it changes the length
  (`WriteCutAgreesIff`, `TruncateCutAgreesIff`).
- A first mount that dies between its two inserts leaves a root without a directory document that no later mount
  repairs (`FirstMountCut`, `RootStaysLost`).
- A create that dies after its first insert leaves a name that cannot be seen and cannot be created again until that
  very path is unlinked (`CreateCut`, `OrphanStays`).
- The comments beside the swallowed errors hope for recovery. A repeated unlink or rmdir does recover from every crash
  (`UnlinkRetried`, `RmdirRetried`); a repeated create or mkdir does only when the first had not begun or had nothing
  left to do (`CreateRetriedIff`, `MkdirRetriedIff`).
- `rmdir` of a non-empty directory or of a path with data, `unlink` of a directory, creation under a missing directory
  and data written to a missing file break the tree; `TreeStepIff` says that nothing else does. `CutTreeIff`
  gives, for every operation and every number of steps after which it dies, the exact condition for the tree to survive.
- `create` reports a path that is too long as the positive `ENAMETOOLONG`; the model keeps the sign.

## Model

| member | source | states |
|---|---|---|
| Bits.MaskIsMod | contrib/uthash/uthash.h:431-434 | `HASH_TO_BKT`'s mask is the remainder whenever the bucket count is a power of two |
| Bits.CeilByShiftIsCeil | contrib/uthash/uthash.h:814-830 | shift plus masked carry is the least integer not below n/b |
| Bits.CeilOneShort | contrib/uthash/uthash.h:845-847 | computed from a count that is one short, the form is right exactly when that count is no multiple of the bucket count, else one too small |
| Bits.SplitBucket | contrib/uthash/uthash.h:853-855 | doubling n buckets leaves a hash in bucket i or sends it to i + n |
| Elems.Table.constructor | contrib/uthash/uthash.h:213-233 | the zeroed record: 32 empty buckets, all counters 0, `tail` on the first element |
| BucketSpec.PushOk | contrib/uthash/uthash.h:766-775 | adding at the head of the home chain keeps every element in its own bucket, none twice, and adds exactly one |
| BucketSpec.DropOk | contrib/uthash/uthash.h:788-801 | taking one out keeps the same and removes exactly that one |
| BucketSpec.ChainTotal | contrib/uthash/uthash.h:540-544 | chain lengths add up to the length of the application list |
| BucketSpec.FindKeyOk | contrib/uthash/uthash.h:744-763 | the chain walk returns a member with the key, or NULL when there is none |
| BucketSpec.FindKeyIsFirst | contrib/uthash/uthash.h:744-763 | of several members with the key it returns the first in chain order |
| BucketSpec.RechainOk | contrib/uthash/uthash.h:850-869 | doubling keeps exactly the same elements, each once, each in its new home bucket |
| BucketSpec.RechainSplits | contrib/uthash/uthash.h:850-869 | new chain b is drawn from one old chain only, in reverse: old bucket i goes to i or i + n |
| BucketSpec.ExcessPush | contrib/uthash/uthash.h:856-857 | counting pushes that land beyond the ideal length sums max(0, count - ideal) over the buckets |
| BucketSpec.ExcessOneShort | contrib/uthash/uthash.h:856-857 | an ideal length one too small counts one element too many for each chain longer than it |
| BucketSpec.MultBounds | contrib/uthash/uthash.h:856-860 | (expand_mult - 1) * ideal < count <= expand_mult * ideal + 1 above the ideal length, 0 up to it, and when it is the exact ceiling |
| Chains.LinkAtFront | contrib/uthash/uthash.h:770-775 | the links and heads then represent the chains with the element pushed, counts untouched |
| Chains.ExpandBuckets | contrib/uthash/uthash.h:832-882 | after the in-place doubling heads, links, counts, multipliers, nonideal_items, ineff_expands and noexpand are those of the rechained table |
| Chains.DrainChain | contrib/uthash/uthash.h:851-868 | emptying one old chain moves all its elements, in order, and disturbs no other next pointer |
| Chains.UnlinkHandle | contrib/uthash/uthash.h:788-801 | the neighbours' links form the chain without the element |
| Chains.DelInBkt | contrib/uthash/uthash.h:788-801 | head, count and links then represent the chains with the element dropped |
| Chains.FindInBkt | contrib/uthash/uthash.h:744-763 | the pointer walk finds the first chain member with the key |
| SortSpec.SortIsStable | contrib/uthash/uthash.h:885-971 | for every total preorder the result is sorted, a permutation, and keeps equal elements in order |
| SortSpec.SortPermutes | contrib/uthash/uthash.h:889-971 | whatever the comparator answers, sorting only rearranges |
| SortSpec.PassRuns | contrib/uthash/uthash.h:900-962 | one pass turns sorted runs of k into sorted runs of 2k |
| SortSpec.OrderedUnique | contrib/uthash/uthash.h:885-971 | there is only one stable sorted arrangement |
| SortSpec.InsertKeepsSorted | contrib/uthash/uthash.h:287-294 | an ordered add keeps a sorted list sorted and lands after all its equals |
| SortSpec.InsertAllStable | contrib/uthash/uthash.h:351-382 | building by ordered adds gives the stable sorted arrangement |
| SortSpec.SortEqualsOrderedAdds | contrib/uthash/uthash.h:351-382 | ordered adds give the same list as appending everything and sorting once |
| AppList.AppendList | contrib/uthash/uthash.h:279-285 | the list then runs from its head to the old tail and ends with the new element, linked both ways |
| AppList.FindInsertPoint | contrib/uthash/uthash.h:287-294 | stops at the first element that compares greater, NULL if none |
| AppList.InsertInOrder | contrib/uthash/uthash.h:364-381 | wherever `tail` points: linked in before the first greater element, else behind the tail, with head, tail and both links right |
| AppList.Unlink | contrib/uthash/uthash.h:462-473 | wherever `tail` points: head and both links are those of the list without the element, and only the element `tail` points at takes it along |
| ListSort.MergeStep | contrib/uthash/uthash.h:920-957 | one round takes the left head exactly when the right run is empty or does not compare smaller |
| ListSort.MergeRuns | contrib/uthash/uthash.h:920-957 | the innermost loop appends the merge of two adjacent runs to the output list |
| ListSort.MergePass | contrib/uthash/uthash.h:900-962 | a pass yields the merged list, and counts at most one merge exactly when two runs cover it |
| ListSort.SortList | contrib/uthash/uthash.h:889-971 | the in-place sort terminates with the sorted list linked both ways, head first, `tail` last |
| HashSpec.ExpandOk | contrib/uthash/uthash.h:832-882 | a doubled table is again well bucketed with the same elements, and noexpand tells ineff_expands > 1 |
| HashSpec.DoublingMeaning | contrib/uthash/uthash.h:805-882 | whatever num_items says, counts sum to the listed elements, the ideal length is the ceiling of num_items over buckets, nonideal_items and expand_mult mean what the comments say, application list unchanged |
| HashSpec.DoublingOneShort | contrib/uthash/uthash.h:1099-1106 | with num_items one short, ideal length and nonideal_items are right for the elements in the table exactly when num_items is no multiple of the new bucket count; otherwise by how much they are off |
| HashSpec.AddToBktOk | contrib/uthash/uthash.h:766-785 | with or without a doubling, exactly one element is added to the chains |
| HashSpec.AddInv | contrib/uthash/uthash.h:397-416 | an add keeps the two-list invariant and appends to the list |
| HashSpec.AddInorderInv | contrib/uthash/uthash.h:351-382 | an ordered add keeps the invariant and inserts at its place |
| HashSpec.OrderedIsInsert | contrib/uthash/uthash.h:364-381 | while `tail` is last, the list and `tail` the macro leaves are those of the ordered insertion |
| HashSpec.DeleteInv | contrib/uthash/uthash.h:451-478 | a delete keeps the invariant, removes exactly the element, and frees the table with the last one |
| HashSpec.NewTailIsLast | contrib/uthash/uthash.h:462-464 | while `tail` is last, a delete leaves it on the last remaining element |
| HashSpec.SortInv | contrib/uthash/uthash.h:889-971 | a sort keeps the invariant and leaves chains and counters alone |
| HashSpec.FindOk | contrib/uthash/uthash.h:154-174 | HASH_FIND returns an element with the key exactly when one is stored, for any hash function |
| FindOrder.PlainAdd | contrib/uthash/uthash.h:766-775 | an add that does not double puts the element at the head of its chain and changes no other chain and no field that decides about doubling |
| FindOrder.DeleteFrame | contrib/uthash/uthash.h:788-801 | a delete takes the element out of its chain, keeps the order of the rest and every field that decides about doubling |
| FindOrder.SortFrame | contrib/uthash/uthash.h:958-960 | a sort changes the list and `tail` and nothing else |
| FindOrder.FindAfterAdd | contrib/uthash/uthash.h:744-775 | without a doubling the element just added is found, also when others have its key, and no other answer changes |
| FindOrder.FindAfterDoubling | contrib/uthash/uthash.h:850-869 | after an add that doubles, the element found under a key is the one that was last in its chain, the new element included |
| FindOrder.FindAfterDelete | contrib/uthash/uthash.h:788-801 | deleting an element that is not the one found changes no answer |
| FindOrder.FindUncovered | contrib/uthash/uthash.h:788-801 | deleting the one found uncovers the next of its chain with the key |
| HashSpec.InvPassesFsck | contrib/uthash/uthash.h:517-564 | the invariant implies all that HASH_FSCK compares |
| HashRuns.RunInv | contrib/uthash/uthash.h:517-564 | after every run of add, ordered add, replace, delete and sort the invariant holds and HASH_FSCK is satisfied |
| HashRuns.ApplyAgrees | contrib/uthash/uthash.h:245-277 | each operation, replace included, is the same operation of a plain sequence |
| HashRuns.RunAgrees | contrib/uthash/uthash.h:154-174 | over every run the application order is the plain sequence's and HASH_FIND is lookup by key in it, whatever expansions happened |
| HashRuns.FindIgnoresHash | contrib/uthash/uthash.h:166-174 | what HASH_FIND returns does not depend on the hash function |
| HashBounds.RunBounded | contrib/uthash/uthash.h:820-823 | over every run, unless expansion was given up, each chain is shorter than (expand_mult + 1) times the threshold, or times the ideal length plus 1 where that is larger; so the documented multiple of 10 holds while the ideal length is below 10 |
| HashBounds.ExpandBounded | contrib/uthash/uthash.h:1071-1084 | a doubling leaves every chain within the multiple it computes, of the threshold or of the ideal length plus 1 |
| HashBounds.ThresholdIff | contrib/uthash/uthash.h:1071-1084 | the multiplier keeps every chain length below the documented multiple of the threshold if and only if the ideal length is below the threshold |
| HashBounds.ThresholdBroken | contrib/uthash/uthash.h:1071-1084 | a doubling that leaves a chain of ten or more, but no longer than the ideal length, leaves a table beyond the documented bound |
| HashBounds.StaysGivenUp | contrib/uthash/uthash.h:1108-1114 | once expansion is inhibited no operation doubles the table any more, as long as it is not emptied |
| BoundWitness.BoundBroken | contrib/uthash/uthash.h:1071-1084 | 1217 adds to an empty table that lead there, with expansion not given up |
| AddRuns.AddShape | contrib/uthash/uthash.h:777-780 | which adds double, and what a doubling then computes |
| AddRuns.ChainLength | contrib/uthash/uthash.h:431-434 | each chain is as long as the number of listed elements whose bucket it is |
| UtHash.HashTable.Add | contrib/uthash/uthash.h:397-416 | on the heap HASH_ADD turns the table's value into Add of it |
| UtHash.HashTable.AddInorder | contrib/uthash/uthash.h:351-382 | on the heap HASH_ADD_INORDER turns it into AddInorder of it |
| UtHash.HashTable.Delete | contrib/uthash/uthash.h:451-478 | on the heap HASH_DELETE turns it into Delete of it; head, tail and last-element case included |
| UtHash.HashTable.Find | contrib/uthash/uthash.h:166-174 | the pointer search returns the value's Find |
| UtHash.HashTable.Replace | contrib/uthash/uthash.h:255-270 | HASH_REPLACE hands back what was found and leaves the replaced table |
| UtHash.HashTable.ReplaceInorder | contrib/uthash/uthash.h:245-253 | the same with ordered insertion |
| UtHash.HashTable.Sort | contrib/uthash/uthash.h:889-971 | HASH_SRT turns the value into its sorted form with the same members and buckets |
| UtHash.HashTable.Fsck | contrib/uthash/uthash.h:517-564 | the check, run over the pointers of any valid table, finds nothing |
| UtHash.ExpandTable | contrib/uthash/uthash.h:832-882 | the doubling of a whole table record |
| UtHash.AddToBucket | contrib/uthash/uthash.h:766-785 | bucket add on the table record, expansion included |
| UtHash.MakeAndAdd | contrib/uthash/uthash.h:402-408 | the first add makes a table that represents one element |
| UtHash.AddToExisting | contrib/uthash/uthash.h:409-415 | a further add, wherever `tail` points |
| UtHash.AddInorderToExisting | contrib/uthash/uthash.h:364-381 | a further ordered add, wherever `tail` points |
| UtHash.DeleteElem | contrib/uthash/uthash.h:451-478 | NULL head exactly when the only element goes, else both lists without it and `tail` as the macro leaves it |
| UtHash.FsckElems | contrib/uthash/uthash.h:517-564 | the walk passes exactly when chain lengths and list length equal num_items |
| HashIter.DeleteWhere | contrib/uthash/uthash.h:1059-1061 | HASH_ITER with a deleting body visits every element present at the start once, in order, and exactly the chosen ones are gone |
| HashIter.KeptMembers | contrib/uthash/uthash.h:1059-1061 | what remains is exactly the elements not chosen |
| SelectSpec.SelectOneOk | contrib/uthash/uthash.h:987-1026 | one selection adds exactly one element, correctly bucketed even across a doubling, and leaves `tail` where it was |
| SelectSpec.SelectPassesFsck | contrib/uthash/uthash.h:1033-1033 | HASH_FSCK passes on every selection |
| SelectSpec.SelectInvIff | contrib/uthash/uthash.h:996-1016 | the table invariant holds of a selection if and only if it has at most one element |
| SelectSpec.AddAfterSelect | contrib/uthash/uthash.h:279-285 | an add after a selection keeps HASH_FSCK satisfied if and only if at most one element was selected; otherwise the list is the first selected and the added one |
| SelectSpec.OrderedAddAfterSelect | contrib/uthash/uthash.h:364-381 | an ordered add after a selection keeps HASH_FSCK satisfied if and only if it finds a greater element or only one was selected; list and `tail` in both cases |
| SelectSpec.DeleteAfterSelect | contrib/uthash/uthash.h:462-464 | of several selected elements, deleting the first moves `tail` to a predecessor that is NULL, deleting any other leaves a selection of the rest |
| SelectSpec.SelectDoublingIff | contrib/uthash/uthash.h:1014-1016 | a selection that doubles its table stores a right ideal length and a right nonideal_items if and only if the number selected before is no multiple of the new bucket count |
| SelectWitness.SelectionOneShort | contrib/uthash/uthash.h:1014-1016 | an input that shows it: 65 elements added to an empty table, all selected in its bucket order, end in 64 buckets with an ideal length of 1, where 65 elements need 2 |
| SelectWitness.SourceOrder | contrib/uthash/uthash.h:987-989 | the bucket order of that source: nine elements for each of the first buckets, then the one of bucket 32 |
| SelectSpec.SortAfterSelect | contrib/uthash/uthash.h:958-960 | sorting a selection restores the invariant |
| HashSelect.SelectInto | contrib/uthash/uthash.h:978-1034 | the destination holds exactly the chosen elements in source bucket order, and the source table is as it was |
| HashSelect.ChosenOk | contrib/uthash/uthash.h:987-992 | the chosen handles are exactly those of the source elements that satisfy the condition, none twice |
| HashBloom.OrSetsOneBit | contrib/uthash/uthash.h:196-197 | or-ing in a shifted one sets that bit of the byte and no other |
| HashBloom.BitInBytes | contrib/uthash/uthash.h:177-178 | bit indices stay inside the byte vector |
| HashBloom.Bloom.Add | contrib/uthash/uthash.h:199-200 | sets the one bit of the hash value modulo 2^nbits |
| HashBloom.Bloom.Test | contrib/uthash/uthash.h:202-203 | hits exactly when the bit of the hash value modulo 2^nbits is set |
| HashBloom.SharesBitIff | contrib/uthash/uthash.h:199-203 | two hash values share a bit if and only if they agree modulo 2^nbits |
| HashBloom.AddAndTest | contrib/uthash/uthash.h:179-203 | after any adds to a fresh filter a test hits if and only if some added value agrees with it modulo 2^nbits |
| HashBloom.HitIff | contrib/uthash/uthash.h:199-203 | the same for the set of bits |
| HashBloom.NoStrayBit | contrib/uthash/uthash.h:338-346 | over every run each set bit is that of an element the run brought in |
| HashBloom.FilterSkips | contrib/uthash/uthash.h:159-161 | a key whose bit is not set is not looked for |
| HashBloom.CoversKept | contrib/uthash/uthash.h:338-346 | every operation leaves the bit of every stored element set |
| HashBloom.FilteredRunAgrees | contrib/uthash/uthash.h:154-164 | over every run HASH_FIND answers with the filter as without it, and the tables are the same |
| HashBer.Ber | contrib/uthash/uthash.h:583-592 | the shift-and-add loop computes the base-33 polynomial of the key modulo 2^32 |
| Paths.SplitJoin | cbfuse/cbfuse.c:156-159 | a path splits into a shorter normal directory and a valid name that join to it again |
| Paths.JoinSplit | cbfuse/cbfuse.c:156-159 | a directory and a name join to a path that splits into the two, so no two pairs collide |
| Store.Collection.Replace | cbfuse/stats.c:212-227 | succeeds exactly for a present key whose CAS matches (0 matches all) and hands out a larger CAS |
| Stats.GetStat | cbfuse/stats.c:35-77 | the document and its CAS, or -ENOENT |
| Stats.UpdateStatAtime | cbfuse/stats.c:171-234 | undisturbed, sets the access time only |
| Stats.UpdateStatUtimens | cbfuse/stats.c:236-321 | undisturbed, resolves UTIME_NOW and UTIME_OMIT field by field, tv[0] for the access and tv[1] for the modification time |
| Stats.UpdateStatSize | cbfuse/stats.c:323-387 | undisturbed, sets size and modification time |
| Stats.UpdateStatMode | cbfuse/stats.c:389-443 | undisturbed, sets the mode |
| Stats.UpdateDocFrame | cbfuse/stats.c:171-443 | each update fails with -ENOENT and no change for a missing document, else stores under a larger CAS and leaves the change time and all other documents alone |
| CasRuns.TakeOk | cbfuse/stats.c:68-70 | every step keeps: a pending copy is current exactly while nothing was acknowledged for its path |
| CasRuns.NoLostUpdate | cbfuse/stats.c:171-234 | after every interleaving the stored stats are the acknowledged changes applied in commit order |
| CasRuns.CommitSucceedsIff | cbfuse/stats.c:212-227 | an update is acknowledged if and only if nothing was acknowledged for its path since its get |
| CasRuns.FieldsSurvive | cbfuse/stats.c:389-443 | the stored mode and size are those of the latest acknowledged chmod and size change |
| CasRuns.TimesSurvive | cbfuse/stats.c:236-321 | the stored access and modification times are those the acknowledged reads, size changes and utimensat calls give field by field, and the change time is that of the creation |
| CasRuns.CreateAndRemove | cbfuse/stats.c:79-169 | creating an absent path stores what was asked under a new CAS, removing a present one leaves none, and otherwise nothing happens |
| CasRuns.AloneIsUpdateDoc | cbfuse/stats.c:171-234 | the two steps, taken without interruption, are the update functions |
| FileData.Memdupm | cbfuse/util.h:79-86 | the first n bytes, then whatever memory holds |
| FileData.GetBlock | cbfuse/data.c:31-62 | a private copy of the block, or -ENOENT |
| FileData.UpdateBlock | cbfuse/data.c:64-158 | the whole new collection, result and reported block size, truncate branch included |
| FileData.ReadData | cbfuse/data.c:162-200 | the caller's buffer, the result and the access time |
| FileData.WriteData | cbfuse/data.c:202-233 | block, size document and result, refusals included |
| FileData.RemoveData | cbfuse/data.c:235-268 | the block is gone, -ENOENT if there was none |
| FileData.TruncateData | cbfuse/data.c:270-299 | block, size document and result for zero and non-zero sizes |
| DataLaws.WriteBytes | cbfuse/data.c:82-108 | after an accepted write at any offset: the data in its place, the old bytes everywhere else, and memory contents exactly in the gap between the old end and a later offset |
| DataLaws.WriteEffect | cbfuse/data.c:213-225 | size and modification time change exactly when the block is new or longer; the result for each case |
| DataLaws.OtherWrites | cbfuse/data.c:69-112 | refused writes change nothing; an empty one sets the length of a present block and nothing else |
| DataLaws.TruncateEffect | cbfuse/data.c:270-299 | bytes, stat document and result for every size, -ENOENT and -EFBIG included |
| DataLaws.ReadEffect | cbfuse/data.c:162-200 | bytes, access time and result for every offset, with and without block and stat document |
| DataLaws.CountReported | cbfuse/data.c:224-232 | a byte count that does not fit a C int comes back as -1 |
| FileRuns.RunAgrees | cbfuse/data.c:64-158 | over every allowed run, whatever uninitialised memory holds, the block is the plain byte string and st_size its length within MAX_FILE_LEN |
| FileRuns.ReadsTheFile | cbfuse/data.c:162-200 | a read returns exactly the clipped slice, counts it and changes no contents |
| FileRuns.WriteThenRead | cbfuse/data.c:202-233 | a read after a write gives back what was written |
| FileRuns.OthersUntouched | cbfuse/data.c:64-299 | operations on one file leave every other file alone |
| FileRuns.TruncateConsistentIff | cbfuse/data.c:274-293 | st_size stays the block length if and only if there is a block, the size is 0, or the truncate is refused |
| FileRuns.WriteConsistentIff | cbfuse/data.c:69-112 | the same for writes: not if an empty write hits a present block elsewhere than at its end |
| FileRuns.WriteDeterminedIff | cbfuse/data.c:82-112 | the contents after any write do not depend on uninitialised memory if and only if the write is refused, starts within the file, or is empty and finds no block |
| FileRuns.TruncateDeterminedIff | cbfuse/data.c:109-112 | the contents after a truncate do not depend on it if and only if there is no block, the size is at most its length, or the truncate is refused |
| FileRuns.GrowThenWriteShrinks | cbfuse/data.c:274-293 | a file grown before it had a block is shortened by the next write at its start |
| FileRuns.SplitWrite | cbfuse/data.c:71-112 | cutting a write into consecutive non-empty chunks gives the same block and st_size |
| Namespace.ExecOk | cbfuse/cbfuse.c:150-388 | every single store step keeps all listed names backed and unrepeated |
| Namespace.NamesSurviveCrashes | cbfuse/cbfuse.c:208-215 | at every crash point of every history each listed name has a stat entry and is listed once |
| Namespace.RemoveNameOk | cbfuse/dentries.c:265-280 | copying all but one name removes it, keeps the rest and repeats none |
| Namespace.RemoveNameOrder | cbfuse/dentries.c:265-280 | the other names keep their order |
| Namespace.FileType | cbfuse/cbfuse.c:167-171 | S_ISREG and S_ISDIR look at the fourth hexadecimal digit of the mode; the root is made a directory with 0755 |
| CrashRuns.OwnersSurviveCrashes | cbfuse/cbfuse.c:208-215 | at every crash point each block and each directory document has a stat entry |
| CrashRuns.RootStaysLost | cbfuse/cbfuse.c:569-588 | a root without a directory document stays so whatever follows |
| CrashRuns.FirstMountCut | cbfuse/cbfuse.c:392-404 | a first mount leaves that if and only if it dies between its two inserts |
| CrashRuns.OrphanStays | cbfuse/cbfuse.c:176-180 | a stat entry that no directory lists stays so, and the path cannot be created, until that path is removed |
| CrashRuns.CreateCut | cbfuse/cbfuse.c:150-186 | a create leaves that if and only if it dies between its insert and its directory write, or finds no directory |
| CutRuns.CutIsCrash | cbfuse/cbfuse.c:208-215 | the disk after n steps is what the crash machine leaves when the client dies then |
| CutRuns.LateCutIsRun | cbfuse/cbfuse.c:150-388 | after four steps every operation is complete |
| CutRuns.CreateCutTree | cbfuse/cbfuse.c:150-186 | a cut create leaves a tree if and only if it was refused, the path existed, no step ran, or all did under an existing directory |
| CutRuns.MkdirCutTree | cbfuse/cbfuse.c:310-351 | the same for a cut mkdir, with its four steps |
| CutRuns.UnlinkCutTree | cbfuse/cbfuse.c:189-224 | a cut unlink leaves a tree if and only if there was nothing to remove, or it does not die between its last two steps and, if it completes, the path is no directory |
| CutRuns.RmdirCutTree | cbfuse/cbfuse.c:353-388 | a cut rmdir leaves a tree if and only if there was nothing to remove, no step ran, or the directory was empty and it neither dies between its last two steps nor completes on a path with data |
| CutRuns.CutTreeIff | cbfuse/cbfuse.c:150-404 | for every operation and every number of steps, the crash machine leaves a tree if and only if a condition checkable beforehand holds |
| CutRuns.WriteIsPutData | cbfuse/data.c:202-233 | a write, cut after any number of store steps, is the data operation of the machine cut there: old disk, new block, then the size |
| CutRuns.TruncateIsMachine | cbfuse/data.c:270-299 | so is every truncate that is not refused |
| CutRuns.WriteCutAgreesIff | cbfuse/data.c:215-222 | a write that dies leaves st_size the block length if and only if it dies before its first or after its last step or does not lengthen the file; an empty one if and only if it dies before its one step or is exactly at the end |
| CutRuns.TruncateCutAgreesIff | cbfuse/data.c:283-294 | the same for truncates: not begun, no change of length, or complete on a file with a block |
| CutRuns.IdleWrite | cbfuse/data.c:73-90 | writes that are too long, or empty without a block, change nothing |
| RetryRuns.UnlinkRetried | cbfuse/cbfuse.c:208-218 | however far an unlink got before it died, repeating it gives the collections an uninterrupted one gives |
| RetryRuns.RmdirRetried | cbfuse/cbfuse.c:372-382 | the same for rmdir |
| RetryRuns.CreateRetriedIff | cbfuse/cbfuse.c:176-181 | repeating a create that died gives the collections of an uninterrupted one if and only if it had not begun, was refused, was complete, or had no directory to write |
| RetryRuns.MkdirRetriedIff | cbfuse/cbfuse.c:335-346 | the same for mkdir, where without a directory to write two steps are enough |
| Tree.CreateRuns | cbfuse/cbfuse.c:150-186 | the steps, run to the end, give this result and this disk |
| Tree.MkdirRuns | cbfuse/cbfuse.c:310-351 | the same for mkdir |
| Tree.UnlinkRuns | cbfuse/cbfuse.c:189-224 | the same for unlink: only the last step's error is reported |
| Tree.RmdirRuns | cbfuse/cbfuse.c:353-388 | the same for rmdir |
| Tree.MountRuns | cbfuse/cbfuse.c:569-588 | the same for what main does before mounting |
| EntryLaws.Created | cbfuse/cbfuse.c:150-186 | create succeeds exactly for a regular file under a short, free path in an existing directory, and makes an entry with the mode asked for, size 0 and the current time, listed last, and nothing else |
| EntryLaws.MadeDirectory | cbfuse/cbfuse.c:310-351 | the same for mkdir, with an empty directory document that names its parent |
| EntryLaws.FirstMount | cbfuse/cbfuse.c:392-404 | the first mount makes a root directory with 0755, no parent and no children |
| EntryLaws.LaterMount | cbfuse/cbfuse.c:569-577 | a later mount changes nothing and succeeds exactly when the root is a directory |
| EntryLaws.MountTwice | cbfuse/cbfuse.c:569-588 | what the first mount made, every later one accepts |
| EntryLaws.Unlinked | cbfuse/cbfuse.c:189-224 | unlink removes entry, data and name, keeps the order of the other names, changes nothing else, and fails exactly without an entry |
| EntryLaws.RemovedDirectory | cbfuse/cbfuse.c:353-388 | the same for rmdir and the directory document |
| Tree.TreeReachable | cbfuse/dentries.c:66-76 | in a tree every entry is reachable from the root through the listings |
| Tree.TreeListed | cbfuse/dentries.c:66-76 | in a tree a path exists exactly when its directory lists it |
| Tree.CreateTreeIff | cbfuse/cbfuse.c:150-186 | create keeps a tree if and only if it is refused early, the path exists or the directory does |
| Tree.UnlinkTreeIff | cbfuse/cbfuse.c:189-224 | unlink keeps a tree if and only if the path is no directory |
| Tree.MkdirTreeIff | cbfuse/cbfuse.c:310-351 | mkdir keeps a tree if and only if the path exists or its directory does |
| Tree.RmdirTreeIff | cbfuse/cbfuse.c:353-388 | rmdir keeps a tree if and only if the path has no data and no children |
| Tree.TreeStepIff | cbfuse/cbfuse.c:150-388 | every operation keeps a tree if and only if its caller met a condition checkable beforehand |
| Tree.FirstMountIsTree | cbfuse/cbfuse.c:392-404 | mounting on empty collections gives a tree |
| Tree.RunsKeepTree | cbfuse/cbfuse.c:150-388 | over every crash-free run of fitting operations: a tree, all entries reachable, and one stat entry for the root and one per listed child |
| FileSystem.CopyChildrenExcept | cbfuse/dentries.c:265-279 | the loop copies every child but the one deleted |
| FileSystem.Cbfuse.InsertStat | cbfuse/stats.c:79-136 | a fresh entry, or -ENOENT and nothing changed |
| FileSystem.Cbfuse.RemoveStat | cbfuse/stats.c:138-169 | the entry is gone, -ENOENT if there was none |
| FileSystem.Cbfuse.AddNewDentry | cbfuse/dentries.c:113-158 | an empty directory document, or -ENOENT and nothing changed |
| FileSystem.Cbfuse.AddChildToDentry | cbfuse/dentries.c:160-215 | the name is appended to its directory's list |
| FileSystem.Cbfuse.RemoveChildFromDentry | cbfuse/dentries.c:250-318 | the name is gone from its directory's list |
| FileSystem.Cbfuse.RemoveDentry | cbfuse/dentries.c:217-248 | the directory document is gone |
| FileSystem.Cbfuse.Create | cbfuse/cbfuse.c:150-186 | result and collections are those of the complete step run |
| FileSystem.Cbfuse.Unlink | cbfuse/cbfuse.c:189-224 | result and collections are those of the complete step run |
| FileSystem.Cbfuse.Mkdir | cbfuse/cbfuse.c:310-351 | result and collections are those of the complete step run |
| FileSystem.Cbfuse.Rmdir | cbfuse/cbfuse.c:353-388 | result and collections are those of the complete step run |
| FileSystem.Cbfuse.MountRoot | cbfuse/cbfuse.c:569-588 | result and collections are those of the complete step run, a root that is no directory included |
| FileSystem.Cbfuse.Readdir | cbfuse/cbfuse.c:227-252 | the filler gets each name from the offset on, with the offset of the next entry; its last answer is the result |
| FileSystem.PagesCoverListing | cbfuse/cbfuse.c:235-247 | however a listing is paged, the names come in order, none skipped and none repeated |

## Left out

- HashTable: element, bucket and table memory is never freed or reused, and pointer offsets between an element and its handle are object references.
- HashSelect.SelectInto: the second handle of an element is another object given by a function `dual`, and the destination starts empty; selecting into a table that already has elements is not modelled, because the macro restarts its list there.
- HashSpec: sizes and counters are naturals, so the wrap-around of `num_buckets * 2U`, `num_items` and `_hs_insize *= 2U` beyond 2^32 is not modelled.
- HashBloom: the filter is a set of bits beside the table value; selecting into a filtered table is not modelled.
- Allocation failure: `malloc` never returns NULL, so neither HASH_NONFATAL_OOM nor -ENOMEM appears.
- The other hash functions of uthash.h and XXH3 (`cbfuse/custom-uthash.h`): the hash is an arbitrary function of the key. HASH_CLEAR, HASH_COUNT and HASH_OVERHEAD are not modelled either.
- Comparators, selection conditions and loop bodies that change elements or the table: they are functions of elements.
- libcouchbase commands, callbacks and waiting (`sync_get.c`, `sync_store.c`, `sync_remove.c`): a collection is a map with atomic operations. A store step fails only for a missing key, a present key or a CAS mismatch, so -EIO, and an error swallowed in the middle of unlink or rmdir for another reason, do not occur; nor do limits on key or document length.
- cJSON text: a directory document is a record of path, parent and names.
- Concurrent clients for directory and block documents, which the code writes without a CAS: one client runs at a time there, as the single-threaded mode it selects (`cbfuse/cbfuse.c:511-513`) makes it. CasRuns covers concurrent attribute updates.
- Stat updates inside the crash machine are one step: their get changes nothing, so a crash between get and replace is a crash before both. The get in update_block is left out of the machine for the same reason.
- Stats.GetStat: the -EBADF branch (`cbfuse/stats.c:64`) is not modelled, because a stat document is a `Stat` here and none has another size.
- The clock: timestamps are inputs, and reading the clock does not fail.
- Paths that are not in normal form, and the root as an argument of create, mkdir, unlink and rmdir.
- getattr, open, chmod's thin wrapper, option parsing, logging and `fuse_main`.
- The long-path key scheme of README.md:28-43, which is described there and not implemented.
- FileSystem.Cbfuse.Readdir: the filler is a function of name and offset; the loop does not stop when it reports a full buffer, and PagesCoverListing models the kernel keeping a prefix of what it is offered.
- FileData.UpdateBlock: offsets are not negative and `offset + nbuf` does not wrap; bytes that nobody wrote are an arbitrary function of their position.
