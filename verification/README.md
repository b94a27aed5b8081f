# Sensor commands: lists, hash table, command runner and sensor registries

A Dafny model, with proofs, of the data structures and protocols that the sensor
command library stands on:

* **utlist** (`SinglyLinked`, `DoublyLinked`, `Circular`): list macros that relink
  nodes in place, and their merge sort, on objects with `next` and `prev`.
* **uthash** (`AppList`, `Buckets`, `Expand`, `TableCore`, `HashTables`, `Uthash`):
  every element is in a doubly linked application order with a cached tail and in
  one of 2^k bucket chains at once. Add, in-order add, find, delete, replace, bucket
  expansion with its statistics, sort, and the header's own integrity check.
  `AssocList` shows that all of it together is a plain association list;
  `AssocHistory` says what that list answers, from the operations alone.
  `ConstantHash` follows the bound on chains beyond the point where a table stops
  expanding; `Bloom` adds the optional filter, and `Jenkins`, `JenkinsBits` and
  `JenkinsVectors` the default hash function, on numbers, on 32-bit words and on two
  keys.
* **The command runner** (`CommandRunner`, `CommandQueue`): a bounded queue with two
  counting semaphores and a mutex, any number of senders, one consumer and a stop
  message, as a transition system with one step per semaphore or mutex operation
  or critical section.
* **The sensor registries** (`SensorTable` for C, `SensorIndex` on `OrderedDict` for
  Python) and the **running-average analyzer** (`Analyzer`).

`Order`, `MergeSort` and `Insertion` are the theory of stable sorting that the
in-place sorts and the ordered insertions are proved against; `BitArith` and
`ChainStats` hold the arithmetic of masks, shifts and chain lengths.

Run `dafny verify dfyconfig.toml` to check the project.

## How the model is cut

* One class `Elem` stands for a list node and for a structure with a hash handle:
  the macros of each header touch only their own fields, and the `modifies`
  clauses say which. The handle's table, key and hash value are set together when
  an element is added and are one field `tag`; the counters of a table are one
  field `st`. `hho` offsets are direct references.
* The uthash macros assign to the caller's head variable. Their methods take the
  head and return the new one. A ghost value `Rep` names what the head stands for
  (elements in order, chains, table), `Uthash.Valid` says that it does.
* The four merge sorts are one algorithm (`InPlaceSort`) with two parameters: `stop`, how
  the end of the list is recognised, and `dbl`, whether `prev` is maintained.
* Comparison functions are functions of the two elements. Claims about order ask
  that the comparison is a total preorder on the elements at hand; all claims about
  shape, membership and termination hold for any comparison.
* Keys are byte strings, compared by length and bytes as in HASH_FIND_IN_BKT. The
  hash function is any function of the key; `Jenkins.Jen` is the default one.
* Freed memory is a ghost set that the teardown loop checks before every read and
  every free.
* A stop call that overtakes other commands can leave a send waiting for ever. Called
  at any time it is safe exactly if all other commands together fit the queue
  (`CommandRunner.NoSendHangsIff`); called after all senders have returned it always
  is (`CommandRunner.PoliteRunEnds`).
* In the runner every thread step is atomic and calls to sem_wait, sem_post and the
  mutex succeed when they return. The consumer runs from the start: a
  later start is a schedule in which it does not step at first. Three logs (appended,
  received, executed) are never read by a step.
* Where the code says less than its comments: the comment on bucket expansion speaks of a
  bound on chain length, which the code keeps only until `noexpand` is set. From then
  on a chain keeps its bound only as long as it has room for what is added
  (`ConstantHash.AddAllStalled`, which can be read off the bucket beforehand); with
  a constant hash function that is up to the 1000th element
  (`ConstantHash.BoundFailsBeyond1000`). The multiplier of a bucket is not always
  ceil(count / ideal) (`ChainStats.MultExact`).
  HASH_ADD does not reject a key that is present, so claims about keys ask that
  it is absent, while `Uthash.FindByHash` and `SensorTable` cover duplicates.

## Model

| member | source | states |
|---|---|---|
| `Order.StableSortUnique` | src/lab4/c/sensor_commands/include/sensor_commands/external/uthash.h:887-973 | two sequences that are both stable sorts of one list are equal, so "the stable sort" is one list |
| `MergeSort.SortCorrect` | src/lab4/c/sensor_commands/include/sensor_commands/external/utlist.h:104-169 | for every comparison that is a total preorder on the elements, the bottom-up merge sort yields a sorted permutation that keeps the order of equal elements |
| `MergeSort.SortUnique` | src/lab4/c/sensor_commands/include/sensor_commands/external/utlist.h:104-169 | a list is a stable sort of `s` if and only if it is what the merge sort returns |
| `MergeSort.PassDoublesRuns` | src/lab4/c/sensor_commands/include/sensor_commands/external/utlist.h:122-162 | one pass turns sorted runs of length k into sorted runs of length 2k |
| `MergeSort.PassStable` | src/lab4/c/sensor_commands/include/sensor_commands/external/utlist.h:122-162 | one pass keeps the order within every class of equal elements |
| `MergeSort.PassPermutes` | src/lab4/c/sensor_commands/include/sensor_commands/external/utlist.h:122-162 | one pass loses and invents no element |
| `MergeSort.PassesIsCeilLog` | src/lab4/c/sensor_commands/include/sensor_commands/external/utlist.h:122-167 | the number of passes is max(1, ceil(log2 n)), stated as a bound from both sides by powers of two |
| `Insertion.AddInOrderIsAddThenSort` | src/lab4/c/sensor_commands/include/sensor_commands/external/uthash.h:287-294 | adding all elements one by one with HASH_ADD_INORDER gives the same order as adding them and running HASH_SRT once |
| `Insertion.InsertInOrderIsPrependThenSort` | src/lab4/c/sensor_commands/include/sensor_commands/external/utlist.h:653-683 | building a list with DL_INSERT_INORDER gives the same list as building it with DL_PREPEND and running DL_SORT once |
| `Insertion.BuildAfterEqualsStable` | src/lab4/c/sensor_commands/include/sensor_commands/external/uthash.h:351-382 | repeated in-order addition (behind equal elements) is a stable sort of the order of arrival |
| `Insertion.BuildBeforeEqualsStable` | src/lab4/c/sensor_commands/include/sensor_commands/external/utlist.h:656-683 | repeated DL_INSERT_INORDER (in front of equal elements) is a stable sort of the reversed order of arrival |
| `Insertion.AfterEqualsAt` | src/lab4/c/sensor_commands/include/sensor_commands/external/uthash.h:287-294 | the place found by scanning for the first element strictly above is the place of insertion |
| `Insertion.BeforeEqualsAt` | src/lab4/c/sensor_commands/include/sensor_commands/external/utlist.h:672-683 | the place found by scanning past the elements strictly below is the place of insertion |
| `InPlaceSort.TakeRun` | src/lab4/c/sensor_commands/include/sensor_commands/external/utlist.h:240-260 | the counting loop finds the start of the second run, and in a ring stops at the old head although links are being rewired |
| `InPlaceSort.Emit` | src/lab4/c/sensor_commands/include/sensor_commands/external/utlist.h:190-225 | appending one element to the output keeps its links, `prev` only where the macro maintains it, and counts one move |
| `InPlaceSort.MergeStep` | src/lab4/c/sensor_commands/include/sensor_commands/external/utlist.h:265-292 | one turn of the merge loop moves the element that the functional merge takes next, and keeps output and both unread runs apart |
| `InPlaceSort.MergeRuns` | src/lab4/c/sensor_commands/include/sensor_commands/external/utlist.h:132-160 | merging two runs in place appends exactly their functional merge to the output, with one move per element of the two |
| `InPlaceSort.PassStep` | src/lab4/c/sensor_commands/include/sensor_commands/external/utlist.h:126-161 | one turn of the pass loop consumes two runs and leaves the cursor at the rest of the list |
| `InPlaceSort.SortPass` | src/lab4/c/sensor_commands/include/sensor_commands/external/utlist.h:122-167 | one pass leaves the output list of the functional pass, moves each element once as counted by the merge loops, and makes at most one merge exactly if two runs covered the list |
| `SinglyLinked.SortList` | src/lab4/c/sensor_commands/include/sensor_commands/external/utlist.h:111-169 | LL_SORT2 leaves a null-terminated list of the stable sort, after max(1, ceil(log2 n)) passes of n moves each |
| `DoublyLinked.SortList` | src/lab4/c/sensor_commands/include/sensor_commands/external/utlist.h:175-233 | DL_SORT2 does the same and restores the shape (`head->prev` is the tail, the tail ends in null) |
| `Circular.SortRing` | src/lab4/c/sensor_commands/include/sensor_commands/external/utlist.h:238-309 | CDL_SORT2 does the same and closes the ring again; the old-head test neither cuts a run short nor runs past the end |
| `AppList.SortApp` | src/lab4/c/sensor_commands/include/sensor_commands/external/uthash.h:891-973 | HASH_SRT on the application order: stable sort, all links, head and cached tail correct, passes and moves counted |
| `DoublyLinked.DList.Prepend` | src/lab4/c/sensor_commands/include/sensor_commands/external/utlist.h:624-634 | DL_PREPEND2: the list is the element followed by the old list, in proper shape |
| `DoublyLinked.DList.Append` | src/lab4/c/sensor_commands/include/sensor_commands/external/utlist.h:639-651 | DL_APPEND2: the list is the old one followed by the element; the tail is found through `head->prev` |
| `DoublyLinked.DList.AppendElem` | src/lab4/c/sensor_commands/include/sensor_commands/external/utlist.h:803-819 | DL_APPEND_ELEM2: the element is inserted behind the given one, or in front of all for NULL |
| `DoublyLinked.DList.LowerBound` | src/lab4/c/sensor_commands/include/sensor_commands/external/utlist.h:672-683 | DL_LOWER_BOUND2: the last of the leading elements strictly below, NULL if there is none |
| `DoublyLinked.DList.InsertInOrder` | src/lab4/c/sensor_commands/include/sensor_commands/external/utlist.h:656-667 | DL_INSERT_INORDER2: inserted in front of the first element that is not below |
| `DoublyLinked.DList.Delete` | src/lab4/c/sensor_commands/include/sensor_commands/external/utlist.h:706-723 | DL_DELETE2: exactly that element is taken out, wherever it is, and the shape holds |
| `DoublyLinked.DList.Concat` | src/lab4/c/sensor_commands/include/sensor_commands/external/utlist.h:688-701 | DL_CONCAT2: both lists in order, with empty lists on either side |
| `DoublyLinked.DList.ReplaceElem` | src/lab4/c/sensor_commands/include/sensor_commands/external/utlist.h:753-777 | DL_REPLACE_ELEM2: the new element stands in the place of the old one |
| `DoublyLinked.DList.Sort` | src/lab4/c/sensor_commands/include/sensor_commands/external/utlist.h:175-233 | DL_SORT2 through the list head |
| `DoublyLinked.InsertAll` | src/lab4/c/sensor_commands/include/sensor_commands/external/utlist.h:656-667 | a list built on real nodes by DL_INSERT_INORDER |
| `DoublyLinked.PrependAllAndSort` | src/lab4/c/sensor_commands/include/sensor_commands/external/utlist.h:624-634 | a list built by DL_PREPEND and sorted once by DL_SORT |
| `DoublyLinked.BuildBoth` | src/lab4/c/sensor_commands/include/sensor_commands/external/utlist.h:653-683 | end to end: both leave the same list, for every comparison that is a total preorder |
| `Circular.Ring.Prepend` | src/lab4/c/sensor_commands/include/sensor_commands/external/utlist.h:880-892 | CDL_PREPEND2 on a ring |
| `Circular.Ring.Append` | src/lab4/c/sensor_commands/include/sensor_commands/external/utlist.h:863-875 | CDL_APPEND2 on a ring |
| `Circular.Ring.AppendElem` | src/lab4/c/sensor_commands/include/sensor_commands/external/utlist.h:1026-1038 | CDL_APPEND_ELEM2 on a ring |
| `Circular.Ring.LowerBound` | src/lab4/c/sensor_commands/include/sensor_commands/external/utlist.h:913-924 | CDL_LOWER_BOUND2 stops before the ring comes round to the head |
| `Circular.Ring.InsertInOrder` | src/lab4/c/sensor_commands/include/sensor_commands/external/utlist.h:897-908 | CDL_INSERT_INORDER2: in front of the first element that is not below |
| `Circular.Ring.Delete` | src/lab4/c/sensor_commands/include/sensor_commands/external/utlist.h:929-938 | CDL_DELETE2: exactly that element is taken out; the last one leaves NULL |
| `Circular.Ring.ReplaceElem` | src/lab4/c/sensor_commands/include/sensor_commands/external/utlist.h:983-1001 | CDL_REPLACE_ELEM2, also for the only element of a ring |
| `Circular.Ring.Sort` | src/lab4/c/sensor_commands/include/sensor_commands/external/utlist.h:238-309 | CDL_SORT2 through the list head |
| `BitArith.MaskIsMod` | src/lab4/c/sensor_commands/include/sensor_commands/external/uthash.h:431-434 | masking with 2^k - 1 is reduction modulo 2^k |
| `BitArith.CeilShiftIsCeil` | src/lab4/c/sensor_commands/include/sensor_commands/external/uthash.h:816-832 | the shift-and-mask formula of the comment is ceil(n / 2^lb): the least number of rows that is enough |
| `Expand.ToBktIsMod` | src/lab4/c/sensor_commands/include/sensor_commands/external/uthash.h:431-434 | HASH_TO_BKT selects bucket hashv mod num_buckets, which exists |
| `ChainStats.MultBounds` | src/lab4/c/sensor_commands/include/sensor_commands/external/uthash.h:857-862 | `expand_mult` after `count` arrivals is 0 exactly if count <= ideal, and otherwise (mult-1)*ideal < count <= (mult+1)*ideal |
| `ChainStats.MultExact` | src/lab4/c/sensor_commands/include/sensor_commands/external/uthash.h:857-862 | the exact value: ceil(count / ideal) but for two cases (ideal 1; one element over), which the loop gets differently |
| `ChainStats.SumExcessConcat` | src/lab4/c/sensor_commands/include/sensor_commands/external/uthash.h:855-857 | the count of non-ideal items adds up over the chains |
| `ChainStats.SumExcessOne` | src/lab4/c/sensor_commands/include/sensor_commands/external/uthash.h:855-857 | and in one chain it is the elements beyond the ideal length |
| `Buckets.FindInBkt` | src/lab4/c/sensor_commands/include/sensor_commands/external/uthash.h:746-765 | HASH_FIND_IN_BKT returns the first match of the chain, and NULL exactly if there is none |
| `Buckets.DelInBkt` | src/lab4/c/sensor_commands/include/sensor_commands/external/uthash.h:790-803 | HASH_DEL_IN_BKT takes out one element and counts it off; every other chain is as before |
| `Buckets.PushFront` | src/lab4/c/sensor_commands/include/sensor_commands/external/uthash.h:768-777 | linking an element in front of its chain leaves every other chain as before |
| `AppList.AppendList` | src/lab4/c/sensor_commands/include/sensor_commands/external/uthash.h:279-285 | HASH_APPEND_LIST: appended in one step through the cached tail, which moves on |
| `AppList.FindPlace` | src/lab4/c/sensor_commands/include/sensor_commands/external/uthash.h:287-294 | HASH_AKBI_INNER_LOOP stops at the first element strictly above |
| `AppList.InsertInOrder` | src/lab4/c/sensor_commands/include/sensor_commands/external/uthash.h:364-379 | the list part of HASH_ADD_KEYPTR_BYHASHVALUE_INORDER: behind all elements that are not above, with links, head and tail right |
| `AppList.UnlinkList` | src/lab4/c/sensor_commands/include/sensor_commands/external/uthash.h:459-473 | the list part of HASH_DELETE_HH: head and tail move if their element goes |
| `Expand.MoveElem` | src/lab4/c/sensor_commands/include/sensor_commands/external/uthash.h:855-868 | moving one element into its new bucket, with both statistics updated |
| `Expand.MoveChain` | src/lab4/c/sensor_commands/include/sensor_commands/external/uthash.h:852-870 | moving a whole old chain, whose links are overwritten while it is read |
| `Expand.RehashedPlaced` | src/lab4/c/sensor_commands/include/sensor_commands/external/uthash.h:851-871 | after expansion every element is in bucket hashv mod num_buckets and chains are disjoint |
| `Expand.RehashedOnlyTwo` | src/lab4/c/sensor_commands/include/sensor_commands/external/uthash.h:851-871 | an element of old bucket i ends in i or i + num_buckets, in one of them for certain and in no other bucket |
| `Expand.ExpandBuckets` | src/lab4/c/sensor_commands/include/sensor_commands/external/uthash.h:834-884 | HASH_EXPAND_BUCKETS: every element moved once, chains and counts right, statistics fresh; `ineff_expands` goes up if 2 * (items beyond the ideal length) > num_items and is 0 otherwise, and `noexpand` is set from 2 on |
| `Expand.JudgedMeaning` | src/lab4/c/sensor_commands/include/sensor_commands/external/uthash.h:876-881 | the verdict in plain numbers: an expansion is ineffective if and only if more than half of the items are beyond the ideal length of their chains; a second one in a row sets `noexpand` |
| `TableCore.FreshStatsMeaning` | src/lab4/c/sensor_commands/include/sensor_commands/external/uthash.h:805-871 | after an expansion: ideal = ceil(items / buckets), `nonideal_items` is the sum of the excess over it, and `expand_mult` brackets every bucket count |
| `TableCore.ExpandedOk` | src/lab4/c/sensor_commands/include/sensor_commands/external/uthash.h:834-884 | an expanded table satisfies the whole table invariant again, with the chain bound re-established |
| `TableCore.AddToBkt` | src/lab4/c/sensor_commands/include/sensor_commands/external/uthash.h:768-787 | HASH_ADD_TO_BKT keeps the table invariant; it expands the table exactly if the chain reaches (expand_mult + 1) * 10 elements and `noexpand` is 0, and otherwise changes no more than its chain |
| `TableCore.FreshBounds` | src/lab4/c/sensor_commands/include/sensor_commands/external/uthash.h:805-884 | why the chain bound holds after an expansion: every new chain is within (expand_mult + 1) * max(10, ideal) |
| `TableCore.UnexpandedOk` | src/lab4/c/sensor_commands/include/sensor_commands/external/uthash.h:768-777 | why it holds after an addition that does not expand: the test of HASH_ADD_TO_BKT leaves room for one more |
| `TableCore.GrownKeeps` | src/lab4/c/sensor_commands/include/sensor_commands/external/uthash.h:768-884 | what an addition does to a table with `noexpand`: it counts one more item and changes nothing else in the counters, so such a table never expands again |
| `TableCore.GrewMeaning` | src/lab4/c/sensor_commands/include/sensor_commands/external/uthash.h:768-884 | what an addition does to the counters of any table, in plain numbers: when it doubles, its ideal length, the verdict and `noexpand` |
| `TableCore.AddToTable` | src/lab4/c/sensor_commands/include/sensor_commands/external/uthash.h:338-346 | HASH_ADD_TO_TABLE keeps the table invariant: power-of-two buckets, every element in exactly its chain, counts, chain bound (expand_mult+1)*max(10, ideal) while expansion is possible, `ineff_expands` at most 2 and `noexpand` exactly at 2; once `noexpand` is set the bucket count stays |
| `TableCore.UnlinkFromBkt` | src/lab4/c/sensor_commands/include/sensor_commands/external/uthash.h:474-475 | deleting from the bucket keeps the table invariant |
| `TableCore.DelFromTable` | src/lab4/c/sensor_commands/include/sensor_commands/external/uthash.h:474-476 | the bucket half of deletion keeps the table invariant and changes no counter but `num_items` |
| `HashTables.FirstEntry` | src/lab4/c/sensor_commands/include/sensor_commands/external/uthash.h:213-243 | HASH_MAKE_TABLE with the first element gives a sound table of one element |
| `HashTables.BucketOf` | src/lab4/c/sensor_commands/include/sensor_commands/external/uthash.h:154-164 | the selected bucket holds every element that has the hash value |
| `HashTables.FsckBucket` | src/lab4/c/sensor_commands/include/sensor_commands/external/uthash.h:525-543 | the chain check of HASH_FSCK, on any chain that ends: it passes if and only if all back links and the stored count are right |
| `HashTables.FsckBuckets` | src/lab4/c/sensor_commands/include/sensor_commands/external/uthash.h:525-548 | the bucket half of HASH_FSCK passes if and only if every chain's back links and count and the item count are right |
| `HashTables.FsckOrder` | src/lab4/c/sensor_commands/include/sensor_commands/external/uthash.h:549-563 | the order half of HASH_FSCK passes if and only if all back links and the item count are right |
| `Uthash.AddByHash` | src/lab4/c/sensor_commands/include/sensor_commands/external/uthash.h:397-416 | HASH_ADD_KEYPTR_BYHASHVALUE: appended to the application order, table sound; a table with `noexpand` keeps its bucket count, a doubled one has fresh statistics |
| `Uthash.AddByHashInOrder` | src/lab4/c/sensor_commands/include/sensor_commands/external/uthash.h:351-382 | HASH_ADD_KEYPTR_BYHASHVALUE_INORDER: inserted behind the elements that are not above |
| `Uthash.FindByHash` | src/lab4/c/sensor_commands/include/sensor_commands/external/uthash.h:154-164 | HASH_FIND_BYHASHVALUE, for any hash values and also with duplicate keys: NULL exactly if no element of the table matches, and otherwise the first match of its bucket chain |
| `Uthash.Position` | src/lab4/c/sensor_commands/include/sensor_commands/external/uthash.h:451-457 | both neighbours are missing exactly if the element is the only one, so the table is freed exactly then |
| `Uthash.Delete` | src/lab4/c/sensor_commands/include/sensor_commands/external/uthash.h:451-478 | HASH_DELETE_HH: exactly that element leaves; the last one takes the table and its buckets with it and leaves a NULL head |
| `Uthash.SortTable` | src/lab4/c/sensor_commands/include/sensor_commands/external/uthash.h:891-973 | HASH_SRT: the order becomes the stable sort; chains, buckets and counters are untouched |
| `Uthash.Fsck` | src/lab4/c/sensor_commands/include/sensor_commands/external/uthash.h:517-564 | HASH_FSCK on any structure whose links end: it reports no error if and only if what its messages name is right |
| `Uthash.ValidPasses` | src/lab4/c/sensor_commands/include/sensor_commands/external/uthash.h:517-564 | every table that satisfies the invariant, which all operations keep, passes |
| `Uthash.ChainsAreBounded` | src/lab4/c/sensor_commands/include/sensor_commands/external/uthash.h:768-787 | what the invariant kept by all operations says about one chain: while `noexpand` is 0 it has at most (expand_mult + 1) * max(10, ideal_chain_maxlen) elements; `noexpand` holds exactly at two ineffective expansions in a row |
| `Uthash.Count` | src/lab4/c/sensor_commands/include/sensor_commands/external/uthash.h:1067-1068 | HASH_COUNT is the number of elements in application order |
| `ConstantHash.OneChain` | src/lab4/c/sensor_commands/include/sensor_commands/external/uthash.h:431-434 | with one hash value for all elements, one chain holds them all |
| `ConstantHash.AfterExpansion` | src/lab4/c/sensor_commands/include/sensor_commands/external/uthash.h:834-884 | what an expansion makes of such a table: ideal 1, multiplier n - 1, and one more ineffective expansion |
| `ConstantHash.ProfileNext` | src/lab4/c/sensor_commands/include/sensor_commands/external/uthash.h:768-884 | the counters after n additions, for every n: expansions at the 10th and 100th element, none later |
| `ConstantHash.AddAll` | src/lab4/c/sensor_commands/include/sensor_commands/external/uthash.h:397-416 | adding any elements under a constant hash function leads to that table |
| `ConstantHash.BoundFailsBeyond1000` | src/lab4/c/sensor_commands/include/sensor_commands/external/uthash.h:779-787 | there `noexpand` is set if and only if n >= 100, and the bound on the chain fails if and only if n > 1000 |
| `ConstantHash.AddStalled` | src/lab4/c/sensor_commands/include/sensor_commands/external/uthash.h:397-416 | an addition to any table with `noexpand`: its chain gains one element, multiplier and ideal length stay |
| `ConstantHash.AddAllStalled` | src/lab4/c/sensor_commands/include/sensor_commands/external/uthash.h:768-787 | so, in any table with `noexpand`, the bound on a chain holds after m additions to it if and only if count + m <= (expand_mult + 1) * max(10, ideal_chain_maxlen) before |
| `AssocList.FindKey` | src/lab4/c/sensor_commands/include/sensor_commands/external/uthash.h:166-173 | HASH_FIND is lookup in the association list, for any hash function |
| `AssocList.Put` | src/lab4/c/sensor_commands/include/sensor_commands/external/uthash.h:351-416 | the two ways of adding; a table with `noexpand` keeps it and its bucket count |
| `AssocList.AddKey` | src/lab4/c/sensor_commands/include/sensor_commands/external/uthash.h:384-429 | HASH_ADD of an absent key is appending to the association list, HASH_ADD_INORDER ordered insertion |
| `AssocList.DeleteKey` | src/lab4/c/sensor_commands/include/sensor_commands/external/uthash.h:448-449 | HASH_DELETE is removal from the association list, after which the key is absent |
| `AssocList.Evict` | src/lab4/c/sensor_commands/include/sensor_commands/external/uthash.h:245-261 | the find-and-delete half of HASH_REPLACE and HASH_REPLACE_INORDER |
| `AssocList.ReplaceKey` | src/lab4/c/sensor_commands/include/sensor_commands/external/uthash.h:245-277 | HASH_REPLACE and HASH_REPLACE_INORDER return what was filed under the key; the new element stands at the end, or in order |
| `AssocList.SortKeys` | src/lab4/c/sensor_commands/include/sensor_commands/external/uthash.h:890-973 | HASH_SORT sorts the association list and nothing else |
| `AssocList.SortKeepsLookups` | src/lab4/c/sensor_commands/include/sensor_commands/external/uthash.h:890-973 | sorting changes no lookup |
| `AssocList.LookupIgnoresOrder` | src/lab4/c/sensor_commands/include/sensor_commands/external/uthash.h:891-973 | with different keys a lookup in the association list does not depend on its order |
| `AssocList.Step` | src/lab4/c/sensor_commands/include/sensor_commands/external/uthash.h:245-478 | one operation on the table does to it what it does to the association list, and gives the same answer |
| `AssocList.HealthyNext` | src/lab4/c/sensor_commands/include/sensor_commands/external/uthash.h:768-787 | the bookkeeping of a run: chain bound at every step, and once a table has `noexpand` it keeps it and its bucket count for life |
| `AssocList.HealthyMeans` | src/lab4/c/sensor_commands/include/sensor_commands/external/uthash.h:768-787 | what that bookkeeping says of any two moments of a run |
| `AssocList.Run` | src/lab4/c/sensor_commands/include/sensor_commands/external/uthash.h:166-478 | every run of add (absent key), find, delete, replace, sort and count from an empty table, each in-order add, in-order replace and sort with a comparison of its own, gives exactly the answers and the final order of a plain association list, for any hash function; it passes HASH_FSCK after every step and keeps that bookkeeping |
| `AssocList.AddInOrderIsAddAndSort` | src/lab4/c/sensor_commands/include/sensor_commands/external/uthash.h:351-416 | end to end: the list after a run of in-order additions equals the list after the plain additions and one sort |
| `AssocHistory.FindLaw` | src/lab4/c/sensor_commands/include/sensor_commands/external/uthash.h:166-173 | a find changes nothing and answers the element filed under the key, NULL exactly if there is none |
| `AssocHistory.AddLaw` | src/lab4/c/sensor_commands/include/sensor_commands/external/uthash.h:384-429 | after HASH_ADD or HASH_ADD_INORDER of a new key that key finds the new element, other keys find what they found, and the others stay in order around it: at the end, or behind those not above |
| `AssocHistory.DeleteLaw` | src/lab4/c/sensor_commands/include/sensor_commands/external/uthash.h:448-478 | after HASH_DELETE the key of the element finds nothing, other keys find what they found, and the order has lost that element only |
| `AssocHistory.ReplaceLaw` | src/lab4/c/sensor_commands/include/sensor_commands/external/uthash.h:245-277 | HASH_REPLACE and HASH_REPLACE_INORDER answer what a find just before would; the key then finds the new element, other keys what they found; the old element is gone and the rest stay in order |
| `AssocHistory.SortLaw` | src/lab4/c/sensor_commands/include/sensor_commands/external/uthash.h:890-973 | after HASH_SORT all keys find what they found, and the order is the stable sort of what it was |
| `AssocHistory.CountLaw` | src/lab4/c/sensor_commands/include/sensor_commands/external/uthash.h:1067-1068 | HASH_COUNT answers the number of elements and changes nothing |
| `AssocHistory.RunTells` | src/lab4/c/sensor_commands/include/sensor_commands/external/uthash.h:166-478 | over every allowed run, in terms of the operations alone: a find or a replacement answers the element last filed under its key and not deleted since, a count the number of elements added and not taken out since |
| `AssocHistory.RunByHistory` | src/lab4/c/sensor_commands/include/sensor_commands/external/uthash.h:166-478 | the same of every run on the real table, whose elements at the end are exactly those |
| `Bloom.SetInSets` | src/lab4/c/sensor_commands/include/sensor_commands/external/uthash.h:196-197 | setting a bit of the filter sets that bit and no other |
| `Bloom.BitValue` | src/lab4/c/sensor_commands/include/sensor_commands/external/uthash.h:196-197 | bit k of a byte is 2^k |
| `Bloom.Filter.Index` | src/lab4/c/sensor_commands/include/sensor_commands/external/uthash.h:199-203 | the bit of a hash value is number hashv mod 2^HASH_BLOOM |
| `Bloom.Filter.BufferLength` | src/lab4/c/sensor_commands/include/sensor_commands/external/uthash.h:177-178 | the buffer is the shortest with a bit for every such number |
| `Bloom.Filter.Add` | src/lab4/c/sensor_commands/include/sensor_commands/external/uthash.h:199-200 | HASH_BLOOM_ADD sets exactly the bit of the hash value, inside the buffer |
| `Bloom.Filter.Test` | src/lab4/c/sensor_commands/include/sensor_commands/external/uthash.h:202-203 | HASH_BLOOM_TEST reads exactly that bit |
| `Bloom.FindKeyFiltered` | src/lab4/c/sensor_commands/include/sensor_commands/external/uthash.h:154-164 | HASH_FIND with the filter equals HASH_FIND without it |
| `Bloom.AddKeyFiltered` | src/lab4/c/sensor_commands/include/sensor_commands/external/uthash.h:213-243 | both additions, with any expansion they cause, keep every present hash value in the filter, which is made together with the table |
| `Bloom.DeleteKeyFiltered` | src/lab4/c/sensor_commands/include/sensor_commands/external/uthash.h:451-478 | deletions keep every present hash value in the filter; with the last element it goes |
| `Bloom.ReplaceKeyFiltered` | src/lab4/c/sensor_commands/include/sensor_commands/external/uthash.h:245-277 | replacement, which looks through the filter, replaces what it would without |
| `Bloom.SortKeysFiltered` | src/lab4/c/sensor_commands/include/sensor_commands/external/uthash.h:890-973 | sorting keeps the filter right |
| `Bloom.RunFiltered` | src/lab4/c/sensor_commands/include/sensor_commands/external/uthash.h:154-478 | every run of all operations, from no table and no filter, gives the answers of the association list, and so the same as without a filter; at its end, and hence after every step, the filter knows every hash value present and exists exactly while the table does |
| `Jenkins.MixIsBijection` | src/lab4/c/sensor_commands/include/sensor_commands/external/uthash.h:635-646 | HASH_JEN_MIX is a bijection on three 32-bit words, with an explicit inverse on both sides |
| `Jenkins.RoundUndone` | src/lab4/c/sensor_commands/include/sensor_commands/external/uthash.h:635-646 | three lines of it can be undone, whatever the shift distances |
| `Jenkins.AbsorbInjective` | src/lab4/c/sensor_commands/include/sensor_commands/external/uthash.h:655-670 | absorbing a 12-byte block is injective in the block, and in the words before it |
| `Jenkins.BlockMatters` | src/lab4/c/sensor_commands/include/sensor_commands/external/uthash.h:648-688 | changing one aligned 12-byte block of a key always changes the final three words, whatever surrounds it |
| `Jenkins.AddWord` | src/lab4/c/sensor_commands/include/sensor_commands/external/uthash.h:673-685 | the fall-through switch adds exactly the bytes there are, each at its place |
| `Jenkins.ShiftLeftIs` | src/lab4/c/sensor_commands/include/sensor_commands/external/uthash.h:635-646 | a left shift keeps the lower bits of the word, `k` places up, with zeros behind them |
| `Jenkins.PackBytes` | src/lab4/c/sensor_commands/include/sensor_commands/external/uthash.h:655-663 | byte i of a packed word is byte i of the key |
| `JenkinsBits.SumIs` | src/lab4/c/sensor_commands/include/sensor_commands/external/uthash.h:655-663 | addition of unsigned words is addition modulo 2^32, proved carry by carry on the bits |
| `JenkinsBits.DifferenceIs` | src/lab4/c/sensor_commands/include/sensor_commands/external/uthash.h:635-646 | subtraction of unsigned words is subtraction modulo 2^32 |
| `JenkinsBits.EorIs` | src/lab4/c/sensor_commands/include/sensor_commands/external/uthash.h:635-646 | exclusive or of unsigned words is the exclusive or of `Jenkins` |
| `JenkinsBits.LineIs` | src/lab4/c/sensor_commands/include/sensor_commands/external/uthash.h:635-646 | one line of HASH_JEN_MIX on 32-bit words computes what `Jenkins` says of the numbers |
| `JenkinsBits.MixWords` | src/lab4/c/sensor_commands/include/sensor_commands/external/uthash.h:635-646 | HASH_JEN_MIX as its nine lines on 32-bit words: the mix that the theorems are about |
| `JenkinsVectors.ShortKey` | src/lab4/c/sensor_commands/include/sensor_commands/external/uthash.h:648-688 | the hash value of the key "a", from the macro line by line |
| `JenkinsVectors.LongKey` | src/lab4/c/sensor_commands/include/sensor_commands/external/uthash.h:648-688 | the hash value of a key of one block and eleven more bytes, all different |
| `Jenkins.HashJen` | src/lab4/c/sensor_commands/include/sensor_commands/external/uthash.h:648-688 | the loop and the switch of HASH_JEN compute the block-wise function that the theorems are about |
| `SensorTable.DeleteAndFree` | src/lab4/c/sensor_commands/include/sensor_commands/external/uthash.h:451-478 | HASH_DEL and free on live memory: what is freed was not freed before, and nothing that the table still uses is freed |
| `SensorTable.TearRound` | src/lab4/c/sensor_commands/src/sensor/manager.c:165-168 | one round: the advance of HASH_ITER reads no freed entry |
| `SensorTable.TearLoop` | src/lab4/c/sensor_commands/src/sensor/manager.c:162-169 | the loop frees the entries once each in application order, the table once, and ends with a NULL head |
| `SensorTable.TearDown` | src/lab4/c/sensor_commands/src/sensor/manager.c:162-169 | the same for every well-formed table, also an empty one |
| `SensorTable.SensorManager.SensorGet` | src/lab4/c/sensor_commands/src/sensor/manager.c:205-215 | NULL exactly if no sensor has the name; otherwise a sensor with that name, also when names repeat |
| `SensorTable.SensorManager.SensorHtAdd` | src/lab4/c/sensor_commands/src/sensor/manager.c:89-101 | the sensor is appended; names need not be new |
| `SensorTable.SensorManager.SensorHtDestroy` | src/lab4/c/sensor_commands/src/sensor/manager.c:162-169 | every entry freed once, table freed once, manager empty |
| `CommandRunner.InitInv` | src/lab4/c/sensor_commands/src/command_runner.c:45-81 | a queue length is accepted if and only if it is in 1 .. SEM_VALUE_MAX - 1, and then both counting equations hold at the start |
| `CommandRunner.SendStepBalanced` | src/lab4/c/sensor_commands/src/command_runner.c:90-132 | every step of a sender keeps both counting equations, and none takes the ERANGE branch |
| `CommandRunner.ConsumeStepBalanced` | src/lab4/c/sensor_commands/src/command_runner.c:134-188 | every step of the consumer keeps both counting equations, and the assertion on the head holds |
| `CommandRunner.NoOverflow` | src/lab4/c/sensor_commands/src/command_runner.c:106-164 | consequences: semaphores and length never exceed max_len, a sender in its section finds room, the consumer in its section finds a command, and at most one thread is in its section |
| `CommandRunner.ErrorBranches` | src/lab4/c/sensor_commands/src/command_runner.c:109-148 | the ERANGE branch and the assertion, which no run reaches, in any state: taken exactly on a full and on an empty queue |
| `CommandRunner.StepGood` | src/lab4/c/sensor_commands/src/command_runner.c:90-188 | one step of any thread keeps counting, mutual exclusion and order |
| `CommandRunner.RunGood` | src/lab4/c/sensor_commands/src/command_runner.c:90-188 | the same for every schedule of any number of threads: appended = received + queued, each sender's commands in its order, executed = received up to the command in hand |
| `CommandRunner.StepRefines` | src/lab4/c/sensor_commands/src/command_runner.c:106-164 | every step refines an atomic bounded FIFO, linearised in the critical sections under the mutex |
| `CommandRunner.StepMeasure` | src/lab4/c/sensor_commands/src/command_runner.c:90-188 | every step uses up one of a number of steps fixed at the start |
| `CommandRunner.RunsAreFinite` | src/lab4/c/sensor_commands/src/command_runner.c:90-188 | no run has more than 11 steps per command |
| `CommandRunner.NoDeadlock` | src/lab4/c/sensor_commands/src/command_runner.c:103-164 | no thread can step if and only if nobody is inside an operation and either all senders are done and the consumer waits on an empty queue, or the consumer has taken a stop message and the senders are done or wait for room in a full queue |
| `CommandRunner.RunEnds` | src/lab4/c/sensor_commands/src/command_runner.c:168-188 | without any rule about when stop is called: at the end exactly the commands appended before the first stop message have been executed, once each and in order |
| `CommandRunner.OnlyStopEnds` | src/lab4/c/sensor_commands/src/command_runner.c:229-251 | however stop is scheduled against the senders: if the consumer has stopped, the last thing it received is the message of the stop call, the only stop message it ever took |
| `CommandRunner.NoSendHangsIff` | src/lab4/c/sensor_commands/src/command_runner.c:90-132 | what a caller can check beforehand: with one stop call that may race, no send hangs in any run if and only if all the other commands together fit the queue (their number is at most max_len) |
| `CommandRunner.EarlyStopHangs` | src/lab4/c/sensor_commands/src/command_runner.c:229-251 | if they do not fit, for every queue length and all programs: a stop call that comes first leads to a run in which a send hangs |
| `CommandRunner.HangsIff` | src/lab4/c/sensor_commands/src/command_runner.c:90-103 | what decides it at the end of one given run: a send hangs if and only if more commands than max_len were never received |
| `CommandRunner.RunCompletes` | src/lab4/c/sensor_commands/src/command_runner.c:90-188 | every run can be continued until no thread can step, and a stopped consumer receives nothing on the way |
| `CommandRunner.RacingStopCanHang` | src/lab4/c/sensor_commands/src/command_runner.c:229-251 | the smallest instance: two senders of one command each and a queue of length one |
| `CommandRunner.PoliteRunEnds` | src/lab4/c/sensor_commands/src/command_runner.c:229-251 | with one stop after all senders have returned: everything sent is executed once in append order, the consumer is stopped, the queue empty, empty = max_len, occupied = 0 |
| `CommandRunner.AfterStop` | src/lab4/c/sensor_commands/src/command.c:9-26 | a stopped consumer has taken the stop call's own command, the only one without an execute function when all others come from command_create, and nothing is left behind it |
| `CommandRunner.ReceivedInOrder` | src/lab4/c/sensor_commands/src/command_runner.c:106-164 | in every reachable state, one sender's commands were appended and received in the order in which it sends them |
| `CommandRunner.PoliteRunCompletes` | src/lab4/c/sensor_commands/src/command_runner.c:90-251 | from any point of a run there is a way on to such an end |
| `CommandQueue.CmdQueue.SendSection` | src/lab4/c/sensor_commands/src/command_runner.c:108-123 | the critical section of send on the DL list is the model's step |
| `CommandQueue.CmdQueue.RecvSection` | src/lab4/c/sensor_commands/src/command_runner.c:147-158 | the critical section of receive on the DL list is the model's step; None stands for the failing assertion |
| `Analyzer.AvgThreshAnalyzer.UpdateAvg` | src/lab4/python/testing_python/lib/sensor_commands/sensor/analyzers/avg_thresh_analyzer.py:55-71 | the deque is the last max_samples values since the reset; `avg_current` is 0 until there were more, and their mean afterwards; IndexError exactly for max_samples <= 0 |
| `Analyzer.AvgThreshAnalyzer.Update` | src/lab4/python/testing_python/lib/sensor_commands/sensor/analyzers/avg_thresh_analyzer.py:73-97 | one update does what the reference behaviour on the list of values since the reset does, with both failing cases |
| `Analyzer.AvgThreshAnalyzer.UpdateAll` | src/lab4/python/testing_python/lib/sensor_commands/sensor/analyzers/avg_thresh_analyzer.py:73-97 | a whole history leads to the state and number of alerts of the reference history |
| `Analyzer.SumOfConcat` | src/lab4/python/testing_python/lib/sensor_commands/sensor/analyzers/avg_thresh_analyzer.py:69-69 | the sum of the samples counts each value once |
| `Analyzer.MeanIsShare` | src/lab4/python/testing_python/lib/sensor_commands/sensor/analyzers/avg_thresh_analyzer.py:69-69 | the average times the number of samples is their sum |
| `Analyzer.WindowIsLatest` | src/lab4/python/testing_python/lib/sensor_commands/sensor/analyzers/avg_thresh_analyzer.py:63-68 | the samples are the latest values, at most max_samples |
| `Analyzer.FeedCompares` | src/lab4/python/testing_python/lib/sensor_commands/sensor/analyzers/avg_thresh_analyzer.py:73-97 | when an alert is raised, for every comparison: there are more than max_samples values since the last reset and the average of the latest max_samples is compared; an alert forgets them |
| `Analyzer.AlertIff` | src/lab4/python/testing_python/lib/sensor_commands/sensor/analyzers/avg_thresh_analyzer.py:116-131 | with "above" (below) an alert is raised if and only if there are more than max_samples values since the last reset and the latest max_samples sum to more (less) than max_samples times the threshold |
| `Analyzer.NoAlertYet` | src/lab4/python/testing_python/lib/sensor_commands/sensor/analyzers/avg_thresh_analyzer.py:87-90 | with fewer values there is none, whatever the comparison |
| `Analyzer.ThirdValueAlerts` | src/lab4/python/testing_python/lib/sensor_commands/sensor/analyzers/avg_thresh_analyzer.py:73-97 | at work: samples 10, 20, 30, two of them kept, threshold 22 |
| `Analyzer.AlertsAreRare` | src/lab4/python/testing_python/lib/sensor_commands/sensor/analyzers/avg_thresh_analyzer.py:73-97 | over n values there are at most n / (max_samples + 1) alerts |
| `Analyzer.AlertsCanBeThatOften` | src/lab4/python/testing_python/lib/sensor_commands/sensor/analyzers/avg_thresh_analyzer.py:73-97 | and with a comparison that always holds there are exactly that many |
| `Analyzer.AlertHasACause` | src/lab4/python/testing_python/lib/sensor_commands/sensor/analyzers/avg_thresh_analyzer.py:116-131 | with the "above" strategy an alert means that some value in the window is above the threshold; with "below", below |
| `Analyzer.MeanBounds` | src/lab4/python/testing_python/lib/sensor_commands/sensor/analyzers/avg_thresh_analyzer.py:70-70 | the mean exceeds a bound only if some value does |
| `OrderedDict.SelectRemove` | src/lab4/python/testing_python/lib/sensor_commands/sensor/manager.py:51-63 | deleting a key commutes with selecting entries by type, order included |
| `OrderedDict.SetLaw` | src/lab4/python/testing_python/lib/sensor_commands/sensor/manager.py:46-49 | assignment to a dictionary: a new key goes to the end, a present one keeps its place, no other entry changes |
| `OrderedDict.RemoveLaw` | src/lab4/python/testing_python/lib/sensor_commands/sensor/manager.py:60-63 | deletion from a dictionary: the key goes, the others stay in order |
| `SensorIndex.IndexIsPartition` | src/lab4/python/testing_python/lib/sensor_commands/sensor/manager.py:113-134 | the invariant says exactly that `sensors_per_type` is the partition of `sensors` by type, each group in the order of the whole and none empty |
| `SensorIndex.RegisterKeepsIndex` | src/lab4/python/testing_python/lib/sensor_commands/sensor/manager.py:37-49 | _register_sensor keeps the invariant if and only if it does not move a name to another type |
| `SensorIndex.UnregisterKeepsIndex` | src/lab4/python/testing_python/lib/sensor_commands/sensor/manager.py:51-63 | _unregister_sensor, given any sensor in a good index: it succeeds if and only if the name is filed with that type, otherwise raises KeyError and changes nothing; the invariant is kept |
| `SensorIndex.UnregisterLaw` | src/lab4/python/testing_python/lib/sensor_commands/sensor/manager.py:51-63 | _unregister_sensor in any state, also a broken one: when it raises KeyError, and what it has deleted by then |
| `SensorIndex.CreateLaw` | src/lab4/python/testing_python/lib/sensor_commands/sensor/manager.py:65-76 | create_sensor: both refusals, and otherwise exactly one new entry in each dictionary, under the name and type of the sensor |
| `SensorIndex.DestroyLaw` | src/lab4/python/testing_python/lib/sensor_commands/sensor/manager.py:78-88 | destroy_sensor: an unknown name is refused, and otherwise that name and no other leaves both dictionaries, the rest staying in order |
| `SensorIndex.CreateDestroy` | src/lab4/python/testing_python/lib/sensor_commands/sensor/manager.py:65-88 | creating and destroying a sensor of a new name succeed and give back the manager |
| `SensorIndex.TypeLaw` | src/lab4/python/testing_python/lib/sensor_commands/sensor/manager.py:90-105 | register_sensor_type and unregister_sensor_type: refusals, and what the factory then knows |
| `SensorIndex.RegisterUnregister` | src/lab4/python/testing_python/lib/sensor_commands/sensor/manager.py:65-88 | creating and then destroying a sensor of a new name restores both dictionaries, with their order |
| `SensorIndex.StepKeepsIndex` | src/lab4/python/testing_python/lib/sensor_commands/sensor/manager.py:65-105 | create, destroy and both changes of the factory keep the invariant if no two classes clash, and destroy raises no KeyError |
| `SensorIndex.RunsKeepIndexIff` | src/lab4/python/testing_python/lib/sensor_commands/sensor/manager.py:65-105 | the invariant holds over every run of create, destroy, register type and unregister type, with classes from any given collection, if and only if no class of it makes, from a name it ignores, a sensor with the name of one of another type |
| `SensorIndex.FixedRunsKeepIndexIff` | src/lab4/python/testing_python/lib/sensor_commands/sensor/manager.py:65-88 | the same for runs of create and destroy only, and the classes of the factory they start with |
| `SensorIndex.KeptNamesDoNotClash` | src/lab4/python/testing_python/lib/sensor_commands/sensor/manager.py:65-105 | so it holds over every run if classes keep the given name |
| `SensorIndex.ClashBreaks` | src/lab4/python/testing_python/lib/sensor_commands/sensor/manager.py:65-76 | two classes of the factory that clash break it in two steps |
| `SensorIndex.ClashBreaksLater` | src/lab4/python/testing_python/lib/sensor_commands/sensor/manager.py:65-105 | two clashing classes that are registered during the run break it too, whatever the factory was |
| `SensorIndex.IgnoredNamesClash` | src/lab4/python/testing_python/lib/sensor_commands/sensor/manager.py:65-76 | for instance two classes that give every sensor one name |
| `SensorIndex.RunKeyed` | src/lab4/python/testing_python/lib/sensor_commands/sensor/manager.py:65-105 | whatever the classes do, every sensor stays filed under its own name |
| `SensorIndex.SensorManager.RegisterSensor` | src/lab4/python/testing_python/lib/sensor_commands/sensor/manager.py:37-49 | the three dictionary updates are the model's registration |
| `SensorIndex.SensorManager.UnregisterSensor` | src/lab4/python/testing_python/lib/sensor_commands/sensor/manager.py:51-63 | the dictionary deletions are the model's removal, for any sensor in any state, also where a later deletion raises KeyError after an earlier one was done |
| `SensorIndex.SensorManager.CreateSensor` | src/lab4/python/testing_python/lib/sensor_commands/sensor/manager.py:65-76 | create_sensor with its failing cases |
| `SensorIndex.SensorManager.DestroySensor` | src/lab4/python/testing_python/lib/sensor_commands/sensor/manager.py:78-88 | destroy_sensor with its failing cases, in any state |
| `SensorIndex.SensorManager.RegisterSensorType` | src/lab4/python/testing_python/lib/sensor_commands/sensor/manager.py:90-97 | register_sensor_type with its failing case |
| `SensorIndex.SensorManager.UnregisterSensorType` | src/lab4/python/testing_python/lib/sensor_commands/sensor/manager.py:99-105 | unregister_sensor_type with its failing case |
| `SensorIndex.SensorManager.GetSensorsInfo` | src/lab4/python/testing_python/lib/sensor_commands/sensor/manager.py:113-122 | name and type of exactly the sensors there are, in their order |
| `SensorIndex.SensorManager.GetSensorNamesPerType` | src/lab4/python/testing_python/lib/sensor_commands/sensor/manager.py:124-134 | the keys of the type's group; under the invariant these are the names that get_sensors_info reports with that type, in the same order |

## Left out

- The LL_ macros other than LL_SORT2, DL_PREPEND_ELEM, CDL_PREPEND_ELEM, and the search and count macros: plain traversals or mirror images of what is modelled.
- The macro variants for compilers without `decltype`, and raw byte-offset arithmetic.
- HASH_SELECT: needs a second handle per element and does not move the destination's tail; nothing here calls it.
- HASH_CLEAR, HASH_OVERHEAD, the string, integer and pointer conveniences: one-line wrappers.
- Allocation failure (HASH_NONFATAL_OOM, ENOMEM returns), HASH_EMIT_KEYS and the logging hooks.
- The hash functions BER, SAX, FNV, OAT and SFH: lookups are proved for any hash function.
- 32-bit overflow of bucket counts, item counts and run lengths: counters are natural numbers (words are exact in `Jenkins`).
- SinglyLinked.SortList: does not say that a `prev` field would stay as it was, since nodes of a singly linked list have none.
- Uthash.FindByHash: with duplicate keys it returns the first match of the bucket chain; where in the chain that is depends on past expansions and is not stated in terms of the application order.
- The NULL-argument checks of the command runner's functions, thread creation and join, failing sem_wait, sem_post and mutex calls, cmd_queue_uninit and command_runner_destroy, the memory of the commands, and the work that a command does.
- What a handler does after it was called by the analyzer, floating-point rounding (values are reals), and the default of ten samples.
- The order of the types in `sensors_per_type`, which nothing lists.
- Reading configuration files and JSON, creating and reading sensors, the list of supported types and the two built-in ones, printing, command-line tools, the socket, ZMQ, MQTT and HTTP programs of the other exercises.
