# Verified models of the kernel and its components

This project models the algorithms of the C++ functional kernel and of some components built on it, and proves what
they promise. One file stands for one source component:

| file | models |
|---|---|
| `work_queue.dfy` | the ring buffer of the bounded work queue, and every interleaving of its enqueues and dequeues |
| `worker_pool.dfy` | the pool of worker threads on that queue: submit, futures, poison messages, shutdown |
| `hash.dfy` | the two murmur hash loops on 32-bit words |
| `value.dfy`, `value_order.dfy`, `ascending.dfy` | dynamic values, their equality, their order and which way it goes |
| `tree.dfy` | selecting, substituting and deleting by key in trees of assocs |
| `rbtree.dfy` | the insertion-built search tree used as a sort, and the balanced tree |
| `element.dfy` | the conversions between elements and values |
| `topk.dfy`, `partitioner.dfy` | ranking, and the ranked query over several partitions |
| `ratings.dfy` | the score formula, users' reviews and apps' rating counters |
| `tinycdb.dfy` | the constant database file and its rewrites |
| `datacache.dfy` | the two-level cache |
| `sstream.dfy`, `tokens.dfy` | the chunked output stream, tokenize and join |
| `query.dfy` | query strings, printed and parsed |

`option.dfy` holds a shared datatype. `dafny verify dfyconfig.toml` checks the whole project.

Objects whose methods update fields are classes (`WQueue`, `FutureValue`, `ReviewServer`, `TinyCDB`, `TwoLevelCache`,
`OStringStream`); their methods are tied to functions on values, and what the source promises is proved about those
functions over whole runs. Threads are modelled by explicit program counters, one step at a time, with the broadcasts
after the unlock and with spurious wake-ups.

## Where the code does less than it promises

Each of these comes with the exact condition under which the code does what it promises:

- A user who puts the same rating of 1 to 4 twice is counted less, not the same: the script looks at the old rating
  before the new one (`Ratings.RepeatedPutMiscounts`, `Ratings.PutAgreesIff`). Dropping a user's whole record patches
  no counter (`Ratings.DeleteAllAgreesIff`).
- A database rewrite that fails when it reopens the file has replaced it already, so that the new value is read
  afterwards; every other failed rewrite leaves the file alone (`TinyCdb.TinyCDB.Rewrite`, `TinyCdb.FailedPutIsRead`).
- A cache patch lets the two levels disagree exactly when they would show the script different values
  (`DataCache.PatchCoherentIff`). With a lagging replica, a value that was put is sure to be found exactly while it is
  not evicted (`DataCache.PutIsFoundIff`); an eviction can bring an old value back to stay (`DataCache.StaleValueStays`).
- Hash collisions are impossible on 4 byte keys, as the comment says. For keys of one length the promise holds exactly
  up to 4 bytes (`Hash.NeverCollideIff`).
- The sort gives a sorted list exactly when the values are pairwise of comparable types (`ValueOrder.SortsIff`); on a
  number and a string it depends on their order (`ValueOrder.MixedTypesDoNotSort`).
- A list headed by the string "element" is taken for an element, and comes back only if it is ("element" "element")
  (`Elements.StringTagIsMisread`, `Elements.StringTagIsMisreadIff`).
- Deleting by key takes more than the assocs with the key exactly when the scan meets the key where it takes what
  follows for an assoc, as it does in ((x 1 k 1)) (`TreeAssoc.DeletesOnlyAssocsIff`, `TreeAssoc.DeleteBeyondForests`).
- A path of several keys does not look for its first key in the first child of a node it passes through; what it
  selects, deletes and replaces is exactly stated (`TreeAssoc.FirstChildIsPassedOver`, `TreeAssoc.SelectByPath`).
- An element with attributes and a text loses the attributes; it comes back exactly when it has a single item, or
  starts and ends with nodes (`Elements.ElementComesBackIff`). A list at the end of a run of elements is forgotten
  (`Elements.RunForgetsLastList`).
- A query argument comes back exactly when neither its key nor its value has an equals sign
  (`Query.ArgIsParsedIff`, `Query.ValueIsCutAtEquals`). A string key comes back with its quotes
  (`Query.StringKeyComesBackQuoted`).
- A pool of no threads never returns from shutdown once something was submitted (`WorkerPool.NoWorkersNoReturn`);
  with a thread, or nothing submitted, it cannot get stuck (`WorkerPool.ShutdownIsComplete`).

## Model

| member | source | states |
|---|---|---|
| Ring.SlotIsModulo | kernel/parallel.hpp:175-190 | The slot of the i-th queued value is (head + i) mod max, and lies inside the buffer |
| Ring.InsertAppends | kernel/parallel.hpp:174-176 | An insertion keeps the ring consistent (tail = head + size mod max, size <= max) and puts its value last |
| Ring.RemoveTakesFirst | kernel/parallel.hpp:189-191 | A removal keeps the ring consistent and takes the oldest value |
| Ring.WQueue.constructor | kernel/parallel.hpp:138-142 | A new queue is consistent and empty |
| Ring.WQueue.Enqueue | kernel/parallel.hpp:170-180 | Past its wait loop, enqueue appends to the queued values |
| Ring.WQueue.Dequeue | kernel/parallel.hpp:185-195 | Past its wait loop, dequeue returns the oldest value and removes just it |
| WorkQueue.StepKeepsInv | kernel/parallel.hpp:170-195 | Every step of every interleaving keeps: one holder of the mutex, no lost wake-up, values out followed by values queued are the values in |
| WorkQueue.StepRefinesBoundedQueue | kernel/parallel.hpp:136-195 | Each step is a step of a bounded FIFO sequence: append within the bound, take the first, or nothing |
| WorkQueue.EveryRunIsFifo | kernel/parallel.hpp:136-195 | In every run with any number of threads, what was dequeued is a prefix of what was enqueued and at most max values lie between |
| WorkQueue.MutualExclusion | kernel/parallel.hpp:171-192 | In no run do two threads hold the mutex |
| WorkQueue.NoRunLosesAWakeup | kernel/parallel.hpp:172-193 | In every run, a thread asleep on a condition that would let it go on means another one has yet to broadcast |
| WorkQueue.NeverAllAsleep | kernel/parallel.hpp:172-193 | With max > 0, a producer asleep on full and a consumer asleep on empty at once means somebody still owes a broadcast, and can go on |
| WorkerPool.FutureValue.Set | kernel/parallel.hpp:76-87 | The first set wins and every later one is refused |
| WorkerPool.SetFutureSetsOne | kernel/parallel.hpp:76-87 | The pool's set of a future does to it what the method does, and nothing to the others |
| WorkerPool.FutureValue.Get | kernel/parallel.hpp:89-97 | Past its wait loop, get returns the value that was set |
| WorkerPool.FirstSetWins | kernel/parallel.hpp:76-97 | After any series of sets a future holds the value it was first given |
| WorkerPool.TurnConserves | kernel/parallel.hpp:200-281 | No step loses or doubles a work item: those still to enqueue, queued, in a worker's hand and executed add up |
| WorkerPool.StepKeepsPoolInv | kernel/parallel.hpp:200-300 | Every step keeps the pool invariant: roles, accounts of every item, exited threads = poisons executed, futures = executed tasks |
| WorkerPool.WorkerLeft | kernel/parallel.hpp:276-281 | While a poison message is left to enqueue, some worker is still there to dequeue |
| WorkerPool.ReturnedIsComplete | kernel/parallel.hpp:258-300 | When shutdown has returned every thread has exited, the queue is empty, each task ran exactly once and its future holds its result |
| WorkerPool.NeverStuck | kernel/parallel.hpp:200-300 | Until shutdown has returned, some thread can take a step |
| WorkerPool.TurnDecreasesMeasure | kernel/parallel.hpp:200-300 | Every step of a thread lowers a natural number, broadcasts included |
| WorkerPool.RunIsBounded | kernel/parallel.hpp:200-300 | The steps of a run are bounded by the start and by the number of spurious wake-ups |
| WorkerPool.ShutdownIsComplete | kernel/parallel.hpp:200-300 | Over every schedule: shutdown cannot get stuck, takes a bounded number of steps, and is complete when it returns |
| WorkerPool.NoWorkersNoReturn | kernel/parallel.hpp:215-221 | Having a worker, or nothing submitted, is also necessary for shutdown to return |
| Hash.MurmurHash | kernel/hash.hpp:110-150 | The native loop computes the specified fold over blocks, tail and final mix |
| Hash.PortableMurmurHash | kernel/hash.hpp:156-200 | The portable loop computes the hash of a little-endian machine |
| Hash.MixLastBytes | kernel/hash.hpp:136-141 | The fall-through switch mixes the one to three last bytes as one word |
| Hash.FinishInverse | kernel/hash.hpp:145-147 | The final mix is a permutation of the words, with its inverse given |
| Hash.ScrambleInverse | kernel/hash.hpp:126-128 | The mixing of a block is a permutation of the words, with its inverse given |
| Hash.MixDataInjective | kernel/hash.hpp:124-141 | Whatever data follows, two different states stay different |
| Hash.LocalDifferenceNeverCollides | kernel/hash.hpp:107-150 | Keys of one length under 2^32 that differ in one aligned block only, or in the tail only, never collide |
| Hash.FourByteKeysNeverCollide | kernel/hash.hpp:107-108 | "No collisions possible for 4 byte keys" |
| Hash.FourByteKeysReachEveryWord | kernel/hash.hpp:107-150 | Every word is the hash of some 4 byte key |
| Hash.EightByteKeysCollide | kernel/hash.hpp:107-150 | The promise ends there: every 8 byte key has a collision for each other first block |
| Hash.SteeredCollision | kernel/hash.hpp:107-150 | Whatever follows the first block of a key, some first block gives any hash of a key of that length |
| Hash.NeverCollideIff | kernel/hash.hpp:107-150 | Keys of length n under 2^32 never collide exactly when n <= 4 |
| Hash.NativeIsPortableOfSwapped | kernel/hash.hpp:125-175 | A big-endian native hash is the portable hash of the key with its blocks byte-swapped |
| Hash.ByteOrdersAgreeOnPalindromes | kernel/hash.hpp:153-200 | On 4 byte keys the two byte orders agree exactly on palindromes |
| Hash.FourByteHash | kernel/hash.hpp:117-149 | The hash of every 4 byte key, in the literal operations of the source on 32-bit words |
| Hash.HashOfOneByte | kernel/hash.hpp:110-150 | The hash of "a" is 0x92685f5e |
| Hash.HashOfTwoBytes | kernel/hash.hpp:110-150 | The hash of "ab" is 0x1aa14063 |
| Hash.HashOfThreeBytes | kernel/hash.hpp:110-150 | The hash of "abc" is 0x13577c9b |
| Hash.HashOfFourBytes | kernel/hash.hpp:110-150 | The hash of "abcd" is 0x26873021 |
| Hash.HashOfEightBytes | kernel/hash.hpp:110-150 | The hash of "abcdefgh" is 0x042287e6 |
| Hash.BigEndianHashOfFourBytes | kernel/hash.hpp:125 | On a big-endian machine the hash of "abcd" is 0xa71ab2c5 |
| Hash.LengthWraps | kernel/hash.hpp:110-124 | Of a longer key only as many bytes count as its length in 32 bits says |
| TreeAssoc.SelectAfterSubst | kernel/tree.hpp:85-154 | Selecting a key after substituting it finds exactly one copy of the replacement per earlier match, on every S-expression |
| TreeAssoc.SubstIsIdempotent | kernel/tree.hpp:85-116 | Substituting twice is substituting once |
| TreeAssoc.NothingSelectedNothingSubstituted | kernel/tree.hpp:85-154 | For any key path, where nothing is selected substitution is the identity |
| TreeAssoc.SubstIsIdentityIff | kernel/tree.hpp:85-154 | With one key, substitution is the identity exactly when every match is the replacement already |
| TreeAssoc.FirstChildScan | kernel/tree.hpp:56-77 | Scanning a first child as a plain list agrees with scanning it as a node |
| TreeAssoc.DeleteAndSelectOnForests | kernel/tree.hpp:42-154 | On well-formed forests deletion removes exactly the maximal subtrees of the key, and selection returns exactly those in order |
| TreeAssoc.PruneBalances | kernel/tree.hpp:42-78 | The nodes left and the nodes of the selected subtrees add up to all nodes |
| TreeAssoc.DeleteOnForests | kernel/tree.hpp:42-154 | After a deletion the key is gone, the node counts balance, and deleting again changes nothing |
| TreeAssoc.DeletesOnlyAssocsIff | kernel/tree.hpp:42-78 | On every S-expression, deletion drops just the assocs with the key and emptied lists exactly when the key does not clash |
| TreeAssoc.ForestsDoNotClash | kernel/tree.hpp:42-78 | On well-formed forests the key never clashes |
| TreeAssoc.DeleteBeyondForests | kernel/tree.hpp:42-78 | A clash: the deletion takes the tail of an assoc |
| TreeAssoc.SubstitutesInPlaceIff | kernel/tree.hpp:85-116 | On every S-expression, for every replacement, each assoc with the key is replaced in its place and all else stays exactly when the key does not clash |
| TreeAssoc.SubstituteOnForests | kernel/tree.hpp:85-116 | So it is on every well-formed forest |
| TreeAssoc.SelectedAreHeadedByLast | kernel/tree.hpp:123-154 | For every path and list, only assocs headed by the last key are selected |
| TreeAssoc.SelectByPath | kernel/tree.hpp:123-154 | On forests a path of keys selects, in order, the nodes that plain recursion along the path leads to |
| TreeAssoc.DeleteByPath | kernel/tree.hpp:42-78 | On forests a path of keys deletes just these nodes |
| TreeAssoc.SubstituteByPath | kernel/tree.hpp:85-116 | On forests a path of keys replaces just these nodes, in their places |
| TreeAssoc.FirstChildIsPassedOver | kernel/tree.hpp:123-154 | A path of two keys finds a node as second child but not as first child |
| BinaryTree.InsertKeepsOrder | kernel/tree.hpp:190-199 | An insertion keeps the in-order traversal strictly increasing and adds the value unless its class is there |
| BinaryTree.SortSorts | kernel/tree.hpp:204-224 | The sort is strictly increasing and holds exactly the last value of each comparator class of the input |
| BinaryTree.SortIsUnique | kernel/tree.hpp:204-224 | No other list has these two properties |
| BinaryTree.BrbtreeHelper | kernel/tree.hpp:229-247 | One pass splits off a balanced tree of the first n elements and returns the others |
| BinaryTree.BalancedHeight | kernel/tree.hpp:229-251 | A tree whose branch sizes differ by at most one everywhere has height h with 2^(h-1) <= n < 2^h |
| BinaryTree.MkBrbtreeLaws | kernel/tree.hpp:213-251 | Flattening the balanced tree gives the list back, and its height is minimal |
| BinaryTree.LookupInTree | kernel/tree.hpp:166-174 | With increasing keys the tree lookup is the linear lookup, for an order that need not compare all keys |
| BinaryTree.LookupInBalancedTree | kernel/tree.hpp:166-174 | So it is in the balanced tree, in logarithmically many visits |
| BinaryTree.VisitsLogarithmic | kernel/tree.hpp:166-174 | A lookup in the balanced tree of n entries visits v nodes with 2^(v-1) <= n |
| Elements.ItemRoundTrip | kernel/element.hpp:124-222 | A canonical element, attribute, atom or list converts to a value and back to itself |
| Elements.ListRoundTrip | kernel/element.hpp:169-231 | valuesToElements undoes elementsToValues on every canonical list, and canonical neighbours are never grouped |
| Elements.ListBecomesCanonical | kernel/element.hpp:124-190 | Canonical elements convert to canonical values |
| Elements.ValuesRoundTrip | kernel/element.hpp:186-231 | elementsToValues undoes valuesToElements on every canonical value list, whose conversion is canonical: a bijection |
| Elements.RunBecomesOneValue | kernel/element.hpp:169-190 | Two or more adjacent elements of one name, each with an atom, a list or child nodes, become one value: the name and the list of their values in order |
| Elements.RunForgetsLastList | kernel/element.hpp:169-190 | A list at the end of a run converts like elements with its items |
| Elements.OnlyLastValueCounts | kernel/element.hpp:98-145 | An element whose last item is a value converts as if it had no other |
| Elements.ElementComesBackIff | kernel/element.hpp:124-222 | An element of canonical items comes back exactly when it has one of them that is no attribute's value, or starts and ends with nodes |
| Elements.AttributeConverts | kernel/element.hpp:127-129 | An attribute converts to its value under "@" and its name |
| Elements.RunCollapses | kernel/element.hpp:169-231 | Such a run converts like, and comes back as, the one element with the bodies as its list value |
| Elements.StringTagIsMisreadIff | kernel/element.hpp:124-153 | A plain list of canonical items comes back exactly when it is not headed by a tag's string, or is ("element" "element") |
| Elements.StringTagIsMisread | kernel/element.hpp:124-153 | ("element" 1) comes back as (1 1) |
| ValueOrder.Trichotomy | kernel/value.hpp:233-274 | Comparable values are exactly one of less, same and greater |
| ValueOrder.LessTransitive | kernel/value.hpp:258-274 | The order is transitive, through lists |
| ValueOrder.CompOrdersIff | kernel/tree.hpp:179-185 | The default comparator orders a list exactly when its values are pairwise of comparable types |
| ValueOrder.SortsIff | kernel/tree.hpp:204-224 | The sort by the default comparator is a sort exactly when the values are pairwise comparable |
| ValueOrder.MixedTypesDoNotSort | kernel/tree.hpp:179-224 | Sorting a number and a string gives two results for the two input orders |
| ValueOrder.ValuesOrderKeys | kernel/value.hpp:233-274 | Equality and order of all values, of any types, serve the tree lookup |
| ValueOrder.LookupOfValue | kernel/tree.hpp:166-174 | Any value is looked up in a tree of values with increasing keys as in its list |
| ValueOrder.LookupInSortedEntries | modules/server/mod-eval.hpp:637-649 | In the balanced tree of the sorted entries, with distinct comparable keys, a lookup finds what it finds in the entries as they came |
| Ascending.SameIffEqualAsText | kernel/value.hpp:233-256 | Two values are the same exactly when they are equal with symbols read as strings |
| Ascending.TextLessIff | kernel/value.hpp:258-274 | Of two texts the one with the smaller first different character comes first, or the proper prefix |
| Ascending.LessIsBefore | kernel/value.hpp:258-274 | Numbers go by size, false before true, lists by their first difference or the shorter one first |
| Ascending.SortAscends | kernel/tree.hpp:204-224 | The sort of comparable values ascends that way and loses none |
| Ascending.NumbersAscend | kernel/tree.hpp:204-224 | Numbers are sorted strictly upward as reals, and are exactly those given |
| Ascending.StringsAscend | kernel/tree.hpp:204-224 | Strings are sorted strictly upward by their characters, and are exactly those given |
| TopK.PartRanksHigher | components/cache/partitioner.cpp:158-160 | A value ranks at least as high in a part as in the whole |
| TopK.ShardedTopIsGlobalTop | components/cache/partitioner.cpp:60-164 | The top k of the shards' top k is the top k of everything, strictly descending |
| Partitioner.RankOrdersIff | components/cache/partitioner.cpp:84-111 | Ranking orders the items exactly when their ranks are pairwise comparable |
| Partitioner.OthersRankAsValues | components/cache/partitioner.cpp:84-111 | Items that are no entries with an id and a rank rank as the values they are |
| Partitioner.GetListLaws | components/cache/partitioner.cpp:60-79 | The appended query fails exactly on an answer that is neither nil nor a list, and loses no item otherwise |
| Partitioner.ShardedQueryIsGlobalQuery | components/cache/partitioner.cpp:127-164 | A ranked, limited query over any number of partitions that rank and limit their own answers is that query over their union |
| Partitioner.ItemsRankByNumber | components/cache/partitioner.cpp:84-111 | An item ranks below another exactly when its number is smaller, or equal and its id comes first |
| Partitioner.RankedQueryDescends | components/cache/partitioner.cpp:127-164 | A ranked query returns its items downward by number and id, no more than the limit, and what it leaves out ranks below or alike |
| Partitioner.RankedIff | components/cache/partitioner.cpp:116-158 | A query is ranked exactly when its key has a textsearch or a rank parameter |
| Partitioner.LimitFound | components/cache/partitioner.cpp:159-160 | The limit is the number of the first limit parameter, and none below zero |
| Partitioner.PlainQueryAppends | components/cache/partitioner.cpp:150-163 | Without rank and limit the items come in the partitions' order |
| Partitioner.GetFailures | components/cache/partitioner.cpp:47-146 | A query fails with -1, 404 or 500 exactly for no partition, nothing from the only one, or an answer that is no list from one of several |
| Partitioner.AtoiOfDecimal | kernel/value.hpp:329-341 | A text that starts with a decimal number is that number as a limit |
| Partitioner.NumberIsCut | kernel/value.hpp:329-341 | A number is cut toward zero as a limit |
| Partitioner.AtoiSkipsBlanks | kernel/value.hpp:329-341 | Blanks and a plus sign before a number do not change it, and an empty text or one that starts otherwise is 0 |
| WilsonScore.ScoreEquation | hosting/server/ratings.py:94 | The score formula cleared of its divisions |
| WilsonScore.ScoreBounds | hosting/server/ratings.py:92-94 | 0 < arating < 4 * pos / (pos + neg) < 4 for all positive pos and neg |
| WilsonScore.WilsonEquation | hosting/server/ratings.py:94 | A quarter of the score is the lower solution of the equation that bounds the Wilson interval with z = 1.96 |
| WilsonScore.ScoreRises | hosting/server/ratings.py:92-94 | The score rises strictly with pos and falls strictly with neg |
| Ratings.PutReviewLaws | hosting/server/reviews.py:91-96 | A put review is read back, every other app's review stays, one review per app stays |
| Ratings.DeleteReviewLaws | hosting/server/reviews.py:124-129 | A deleted review is gone, every other app's review stays |
| Ratings.PutReviewPlace | hosting/server/reviews.py:91-96 | A put review takes the place of the first one of its app, or comes last |
| Ratings.DeleteReviewPlace | hosting/server/reviews.py:124-129 | A deleted review is the first one of its app, and the others keep their order |
| Ratings.UpdateAgreesAtIff | hosting/server/ratings.py:78-88 | From agreement the clamp never fires, and counter i stays right unless old and new rating are both i |
| Ratings.PutAgreesIff | hosting/server/reviews.py:99-121 | A put keeps counters and reviews in agreement exactly when it does not repeat the user's rating |
| Ratings.DeleteAgrees | hosting/server/reviews.py:132-155 | The delete of one review always keeps the agreement |
| Ratings.DeleteAllAgreesIff | hosting/server/reviews.py:132-135 | Dropping a user's record keeps the agreement exactly when it held no review rated 1 to 4 |
| Ratings.RepeatedPutMiscounts | hosting/server/ratings.py:78-81 | Putting a 3 twice leaves a stored 3 and all counters 0 |
| Ratings.EveryRunAgrees | hosting/server/reviews.py:77-155 | Over every run of such puts and deletes, counter i of each app is the number of users whose stored review of it is i |
| Ratings.EveryRunFromEmptyAgrees | hosting/server/reviews.py:77-155 | So it is over every run from an empty ledger |
| Ratings.AgreeingScoreBounds | hosting/server/ratings.py:92-94 | While counters and reviews agree, pos and neg are at least 1 and every app's score is in bounds |
| Ratings.PosNegCountReviews | hosting/server/ratings.py:92-93 | While counters and reviews agree, pos is one, the users who rated 3, and twice those who rated 4; neg so with 2 and 1 |
| Ratings.EveryRunKeepsNonNegative | hosting/server/ratings.py:78-81 | Whatever the run, no counter goes below 0 |
| Ratings.PutMovesCounter | hosting/server/ratings.py:78-88 | What a put does to each counter, agreeing or not |
| Ratings.RepeatedPuts | hosting/server/ratings.py:78-81 | Of n equal puts the first counts, the second takes it back, and the others do nothing |
| Ratings.PutMovesScore | hosting/server/ratings.py:70-96 | A put moves the app's score strictly up or down with the weight of the user's rating |
| Ratings.DeleteMovesScore | hosting/server/ratings.py:70-96 | So does the delete of a review |
| Ratings.ReviewServer.PatchRatings | hosting/server/ratings.py:49-103 | A patch replaces the counters of a known app and nothing else |
| Ratings.ReviewServer.Put | hosting/server/reviews.py:99-121 | The updates of put are the ledger's put, and it fails exactly on an unknown app |
| Ratings.ReviewServer.Delete | hosting/server/reviews.py:132-155 | The updates of delete are the ledger's delete, and it fails exactly on an unknown app or a missing review |
| Ratings.ReviewServer.DeleteAll | hosting/server/reviews.py:132-135 | A delete without an app leaves the user no review, and the other users and all counters as they were |
| Ratings.HandleAll | hosting/server/reviews.py:77-155 | A new server that handles any countable requests ends with counters and reviews in agreement |
| CdbFile.ParseSerialized | components/constdb/tinycdb.hpp:242-287 | A written file is read as exactly the records it was written from |
| CdbFile.UnpackBytes | components/constdb/tinycdb.hpp:249-260 | Lengths are four bytes, the first one counting least |
| CdbFile.FirstRecordPlace | components/constdb/tinycdb.hpp:242-273 | Where in the bytes of a file its end of data and its first record are |
| CdbFile.OverflowingEntry | components/constdb/tinycdb.hpp:259-269 | An entry whose lengths reach 2^32 passes the checks exactly when the wrapped length does |
| TinyCdb.ReadEntry | components/constdb/tinycdb.hpp:254-269 | One entry is read with 32-bit lengths; each failure of the format or of a read is reported, and only an overflow is undefined |
| TinyCdb.ReadOne | components/constdb/tinycdb.hpp:271-284 | One turn of the loop moves an entry to the seen ones as the update function decides, or settles that the rewrite fails |
| TinyCdb.TinyCDB.Build | components/constdb/tinycdb.hpp:230-299 | The rewrite loop builds exactly the records the update lets pass and the added one, and does so exactly when no open, read, add or finish it makes fails |
| TinyCdb.TinyCDB.Rewrite | components/constdb/tinycdb.hpp:301-327 | The file is replaced exactly when nothing before and including the rename fails; a failed rewrite leaves it alone, except that one which fails to reopen has replaced it |
| TinyCdb.FailedPutIsRead | components/constdb/tinycdb.hpp:318-324 | A put that fails only on reopening fails, and its value is the one read afterwards |
| TinyCdb.TinyCDB.Post | components/constdb/tinycdb.hpp:332-358 | A post appends a new key, and fails without a change exactly on an existing one, on no room, or when a call fails |
| TinyCdb.TinyCDB.Put | components/constdb/tinycdb.hpp:363-389 | A put keeps every record of another key in order and appends its own, and fails without a change exactly on no room or when a call fails |
| TinyCdb.TinyCDB.Get | components/constdb/tinycdb.hpp:425-449 | A get finds the first record of the key or reports 404 |
| TinyCdb.TinyCDB.Del | components/constdb/tinycdb.hpp:454-484 | A delete removes the key, or reports 404 with the records unchanged, and fails without a change exactly when a call fails |
| TinyCdb.SkipIsWithout | components/constdb/tinycdb.hpp:372-376 | The update functions of put and delete drop exactly the records of the key |
| TinyCdb.RefuseIsIfPresent | components/constdb/tinycdb.hpp:341-345 | The update function of post refuses exactly when the key is there, and else keeps all records |
| TinyCdb.PutLeavesOne | components/constdb/tinycdb.hpp:363-389 | A put leaves exactly one record of its key, even of several, and the others in order |
| TinyCdb.ApplyRefines | components/constdb/tinycdb.hpp:332-484 | Post, put and delete act on the records as on a map, and keys stay unique |
| TinyCdb.ServeAll | components/constdb/tinycdb.hpp:230-484 | Over every run, whatever fails, the file stays well formed and is the map |
| DataCache.TwoLevelCache.Get | components/cache/datacache.cpp:47-66 | A get replies from level 1, then from level 2 which it copies to level 1, or with 404 |
| DataCache.TwoLevelCache.Post | components/cache/datacache.cpp:71-81 | The item is found under the key extended with the new id, every other key as before, and the levels stay coherent |
| DataCache.TwoLevelCache.Put | components/cache/datacache.cpp:86-95 | The value is found whatever the replica holds, every other key as before, and the levels stay coherent |
| DataCache.TwoLevelCache.Patch | components/cache/datacache.cpp:100-109 | The patched level 1 value is found, every other key as before, and the levels stay coherent if they showed the script one value |
| DataCache.TwoLevelCache.Delete | components/cache/datacache.cpp:114-123 | The key is found no more but for the replica, every other key as before, and the levels stay coherent |
| DataCache.PatchCoherentIff | components/cache/memcache.cpp:68-96 | A patch keeps the levels coherent for every script exactly when both show it the same value |
| DataCache.ServeKeepsCoherence | components/cache/datacache.cpp:47-123 | Every operation and eviction keeps each level 1 entry equal to the level 2 entry |
| DataCache.EveryRunIsOneStore | components/cache/datacache.cpp:47-123 | Over every run with any evictions the two levels reply as one store |
| DataCache.PerformAll | components/cache/datacache.cpp:47-123 | The cache's methods answer every run as one store would, and keep the levels coherent |
| DataCache.PutThenGet | components/cache/datacache.cpp:27-95 | However a level 2 replica lags, a get returns the value put until the key is evicted or written |
| DataCache.PutIsFoundIff | components/cache/datacache.cpp:27-95 | Until the next write of its key, a put value is found however the replica lags exactly when the key is not evicted |
| DataCache.StaleValueStays | components/cache/datacache.cpp:47-66 | After an eviction the replica's old value returns to level 1 and stays |
| StringStream.WriteList | kernel/sstream.hpp:48-55 | The backward copy fills exactly the place of the strings, in the order they were written |
| StringStream.OStringStream.AccumulateOne | kernel/sstream.hpp:129-136 | One character is added, and a chunk of 64 goes to the list |
| StringStream.OStringStream.Accumulate | kernel/sstream.hpp:125-141 | Characters are appended whatever chunks they fall into, and len counts them |
| StringStream.OStringStream.Spill | kernel/sstream.hpp:143-151 | Spilling changes nothing that was written |
| StringStream.OStringStream.Write | kernel/sstream.hpp:93-102 | A string of any length is appended, in chunks or whole |
| StringStream.OStringStream.WriteChar | kernel/sstream.hpp:104-107 | A character is appended |
| StringStream.OStringStream.Flush | kernel/sstream.hpp:109-112 | Flushing changes nothing that was written |
| StringStream.OStringStream.Str | kernel/sstream.hpp:115-123 | The concatenation of all writes is returned, and nothing observable changes |
| StringStream.PerformAll | kernel/sstream.hpp:60-158 | In any interleaving of writes, flushes and reads each read answers all that was written before it |
| StringStream.StrAnswers | kernel/sstream.hpp:115-123 | Read by position: the k-th call, a read, answers the writes of the k calls before it |
| Tokens.FindIsFirst | kernel/string.hpp:254-261 | The place found is the first separator that no zero character hides, and the end when there is none |
| Tokens.Join | kernel/sstream.hpp:239-250 | The recursion onto a stream joins the strings with the separator between them |
| Tokens.TokenizeJoined | kernel/sstream.hpp:224-250 | Tokenize undoes join, except that a last empty token is dropped |
| Tokens.JoinUndoesTokenize | kernel/sstream.hpp:224-250 | Join undoes tokenize, except that a last separator is dropped |
| Tokens.JoinedTokens | kernel/sstream.hpp:224-250 | Joining with another separator replaces it everywhere |
| Tokens.TokensOfAny | kernel/sstream.hpp:224-250 | Whatever the separator, tokens hold none of it and join back to the string, but for a last separator |
| Query.WriteQuery | modules/http/http.hpp:946-957 | The recursion onto a stream writes the query text |
| Query.QueryString | modules/http/http.hpp:959-962 | The query string is the query text |
| Query.FixupReplaces | modules/http/httpd.hpp:355-360 | Question marks between parts become ampersands |
| Query.QueryIsJoined | modules/http/http.hpp:946-957 | The text is the well-formed arguments joined, with an ampersand at the end when only malformed ones follow |
| Query.ArgIsParsedIff | modules/http/httpd.hpp:347-353 | A printed argument is parsed to its key and value exactly when neither has an equals sign |
| Query.ParsedIsPrinted | modules/http/httpd.hpp:347-364 | queryArgs(queryString(args)) is exactly the well-formed arguments in order, as they print, whatever malformed ones are skipped |
| Query.TextsComeBack | modules/http/httpd.hpp:347-364 | With symbols for keys and texts for values, it is these symbols and texts |
| Query.CStringLaws | modules/http/http.hpp:953 | A value prints up to its first zero character |
| Query.EmptyPartAborts | modules/http/httpd.hpp:347-353 | Only an empty part of a query has no key to take |
| Query.StringKeyComesBackQuoted | kernel/value.hpp:453-465 | A string key comes back as the symbol of its quoted text, from which it can be read |
| Query.WordsForValues | kernel/value.hpp:292-309 | Truth values print as words, and a value without a text prints as nothing |
| Query.ValueIsCutAtEquals | modules/http/httpd.hpp:347-353 | A value with an equals sign is cut there |

## Left out

- Concurrency: cancel, thread-local values, pthread error codes, and the size that enqueue reads after the unlock and returns.
- Futures inside the pool: a future is set in one step there, and no pool thread waits for another future.
- Ring.WQueue.Enqueue: the wait loop is part of the interleavings in `WorkQueue`, so the method starts past it; so does Dequeue.
- WorkerPool.ShutdownIsComplete: one shutdown after all submits and terminating tasks, as the source needs.
- Hash seeds: the seed is 0 in the source. hashselect is one remainder.
- Paths of several keys outside well-formed forests: only what is selected there, and the identity of substitution.
- Trees as three element lists: search trees are a datatype here, with the same three parts.
- Numbers: equality up to 5e-16, floating-point rounding and the printing of numbers; values hold exact reals, and the score is over exact reals with the root given.
- Elements.ItemRoundTrip: names hold no zero characters, at which the source cuts them.
- Elements: the text of a number used as an attribute name is empty in the model, because number printing is left out.
- Aborts: taking the first element of an empty list aborts the source; the models read nil or no match there, and `Query.QueryArg` returns nothing.
- Lambda and pointer values, and what is not reachable from the modelled functions in value.hpp and list.hpp.
- Partitioner: post, put, patch and delete only route to the selected partition, and the selector is a parameter.
- Ratings: titles, authors and dates of entries, the administrator's put of ratings, and the store of users and apps beyond which apps exist.
- TinyCdb.TinyCDB.Get: the library's hash table pages are arbitrary bytes, and its seek is taken to find the first record of a key.
- TinyCdb.TinyCDB.Build: the library's add is taken to fail when the records no longer end below 2^32; keys and values of 2^32 bytes or more are cut by the source before that.
- Database files: file descriptors, inodes, the text of keys and values, and temporary files left behind by a failure. Patch rewrites like put.
- DataCache: failures of a level, which the source ignores, the parsing of the patch script, and the cache servers; a level is a map, and a script is a function from value to value.
- StringStream.OStringStream.Accumulate: a full chunk is copied into the list, where the source hands its buffer over; copies of a stream that share a buffer are not modelled.
- Streams: vprintf and its formatting, so that texts of C strings are written like strings; input streams, streamList and fragment.
- Tokens.Find: the source searches from a position in a string; here it searches in what is left from there.
- Query: the printing of numbers, and of lists as keys, is a parameter; the escaping of whole query strings and the request structures of the server.
