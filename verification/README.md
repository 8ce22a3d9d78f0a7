# Verification of the lock-free forwarding table

A Dafny model of rcufib, a longest-prefix-match forwarding table that readers search without locks while one writer
changes it, and of the control plane that keeps it up to date. The project models the parts whose correctness rests on
how they interact, and proves what the program promises of them:

* the path-compressed trie, changed in place, as a heap class that refines a prefix map, and again store by store, as
  readers without a lock see it;
* epoch-based reclamation, as a transition system in which announcing, scanning and freeing are several steps each;
* the read protocols built on these two (`rcu_fib`, `seqlock_fib`), with `mutex_fib` as the simple one;
* the RIB, and the synchroniser that coalesces its changes into FIB writes;
* the address arithmetic under the trie, and the text of addresses and prefixes.

`dafny verify dfyconfig.toml` checks everything.

## How the model is laid out

| file | what it holds |
|---|---|
| `Bits.dfy` | prefixes and addresses as bit strings; longest match by brute force; ordered listings |
| `TrieStore.dfy` | a trie's memory as a value, its invariants, and what each single store does to the table |
| `RadixTrie.dfy` | `radix_trie` as a class over mutable nodes |
| `TrieShape.dfy` | the shape of a compressed trie is determined by its table; the node bound |
| `TrieSteps.dfy` | the writer as a sequence of stores |
| `ConcurrentTrie.dfy`, `Overlaps.dfy` | any number of walking readers beside the writer, and which changes beside a lookup do harm |
| `EpochProtocol.dfy`, `EpochSafety.dfy`, `EpochAccounting.dfy`, `EpochOrphans.dfy` | the reclamation protocol: steps, grace periods, conservation, objects of exited threads |
| `EpochDomain.dfy` | `epoch_domain` as a class, its accounts and its backlog |
| `RcuFib.dfy`, `SeqlockFib.dfy`, `SeqlockMemory.dfy`, `MutexFib.dfy`, `FibUpdates.dfy` | the forwarding tables |
| `Routes.dfy`, `Rib.dfy`, `Synchroniser.dfy` | the control plane |
| `Words.dfy`, `Address.dfy`, `Prefix.dfy` | machine words, addresses, prefixes |
| `Numerals.dfy`, `Ipv4Text.dfy`, `Ipv6Text.dfy`, `Ipv6Parse.dfy`, `AddressText.dfy` | printing and parsing |

A prefix is the bit string of its first `length` bits, so that "covers" is the prefix order on bit strings. The trie
works on these strings; `Addresses` and `Prefixes` show that the words and lengths of the program compute the same
things (`Prefixes.ClippedShared` is the shared length of insertion, `Prefixes.Contains` the test of a walk,
`Prefixes.OrderIsBefore` the order of enumeration).

The class `RadixTrie` carries a ghost field `shape` that mirrors its nodes as a value. Its methods are proved against
the table that the shape denotes, and, with ghost results, to be exactly the runs of the writer in `TrieSteps`. The
concurrent modules take these runs apart: each store is one step, and each load of a reader is one step. Integers are
unbounded, so counters do not wrap.

Three claims that one might expect do not hold of the code without a condition, and the model gives the exact one.

* Objects that an exiting thread leaves behind are freed after one advance (src/epoch.cpp:262-272); the comment there
  says that a grace period has passed. Runs in which every exiting thread's garbage is at least k epochs old free
  nothing that a pinned reader may hold, for every interleaving, exactly when k is at least 2
  (`EpochOrphans.SafeExactlyWhenAged`); `EpochOrphans.ReaderHoldsFreedOrphan` is a run with garbage one epoch old that
  goes wrong. A thread can check the condition on its own bags (`EpochOrphans.OnlySafeBagFilled`), and draining them
  meets it (`EpochOrphans.DrainedRunsAreSafe`). `RcuFib` assumes it.
* A lookup beside changes of prefixes that cover its address may answer for no table that it lived through. Beside up to
  i insertions, j replacements and k erasures of such prefixes it answers for one in every run exactly when k is zero or
  i + j + k is at most one (`Overlaps.LinearizableExactlyBeside`): inserts and replacements alone never do harm, and an
  erasure can as soon as there is any other change (`Overlaps.NotLinearizable`). Of one run,
  `ConcurrentTrie.WithoutErasuresLinearizable` says more: if nothing that covers the address is lost after the last value
  was read, the answer is that of the table in force at this read. Changes of other prefixes do not matter.
* `parse_v6` reads more than section 2.2 of RFC 4291 allows, and a dotted quad need not be "trailing" as the comment at
  src/address.cpp:79 has it. `Ipv6Parse.ParseV6` gives exactly the texts that are read, and as what. A lone colon in
  front is taken for "::", and what follows the colon after a dotted quad is ignored; `Ipv6Parse.LibertiesShow` says when
  a text that is read takes these liberties: exactly when it starts with one colon, and when a colon comes after a dot.
  A group may have up to eight digits (`Ipv6Parse.PaddedGroup`), and "::" may stand for no group.

## Model

| member | source | states |
|---|---|---|
| `Bits.SharedIsLongest` | include/rcufib/address.hpp:59-75 | two bit strings agree on their first n bits exactly when n does not exceed their shared length |
| `Bits.LongestMatchIs` | include/rcufib/trie.hpp:99-116 | the brute-force reference returns the value of the longest stored prefix of the address |
| `Bits.NoMatch` | include/rcufib/trie.hpp:99-116 | and nothing when no stored prefix covers the address |
| `Bits.OrderBelow` | include/rcufib/trie.hpp:332-339 | a key precedes all below it, and what lies on its zero side precedes what lies on its one side |
| `RadixTries.RadixTrie.Lookup` | include/rcufib/trie.hpp:99-116 | the walk returns the brute-force longest match, for every address |
| `RadixTries.RadixTrie.FindExact` | include/rcufib/trie.hpp:119-131 | the value stored for exactly this prefix, if any |
| `RadixTries.RadixTrie.ForEach` | include/rcufib/trie.hpp:143-146 | every stored prefix once, with its value, in strictly increasing (address, length) order |
| `RadixTries.RadixTrie.Walk` | include/rcufib/trie.hpp:331-339 | the same of what lies below a node |
| `RadixTries.RadixTrie.Insert` | include/rcufib/trie.hpp:174-176 | the table gains or replaces one prefix; true exactly when it was new; a replaced value, and no node, is retired; one store does it |
| `RadixTries.RadixTrie.InsertLeaf` | include/rcufib/trie.hpp:225-234 | a leaf in an empty slot keeps the strong invariant and adds one prefix |
| `RadixTries.RadixTrie.ReplaceValue` | include/rcufib/trie.hpp:246-256 | the exact node's value is exchanged, an old one retired, and no node touched |
| `RadixTries.RadixTrie.InsertAbove` | include/rcufib/trie.hpp:264-273 | a covering prefix becomes the parent of what the slot held |
| `RadixTries.RadixTrie.SplitSlot` | include/rcufib/trie.hpp:279-295 | a branch over the shared bits, with both sides in place before the one store that publishes it |
| `RadixTries.RadixTrie.Erase` | include/rcufib/trie.hpp:179-206 | the table loses the prefix; true exactly when it was there; its value is retired, and the nodes that prune drops, these in order, and no other; every node ever built is live or has been retired once |
| `RadixTries.RadixTrie.TakeValue` | include/rcufib/trie.hpp:199-205 | the value is cleared and retired, the nodes that prune drops are retired, and the strong invariant is restored |
| `RadixTries.RadixTrie.Prune` | include/rcufib/trie.hpp:298-329 | the node that lost its value, and then its parent, go and are retired if they no longer earn their place, and no other node is; the table does not change |
| `TrieStore.BypassDisposes` | include/rcufib/trie.hpp:312-313 | retiring the unlinked node, once, keeps every node ever built either live or retired once |
| `RadixTries.RadixTrie.Bypass` | include/rcufib/trie.hpp:308-314 | unlink, then retire: the survivor takes the node's place, and at most the owner of the slot is left without need |
| `TrieStore.LeafKeepsGood` | include/rcufib/trie.hpp:225-232 | publishing a leaf keeps every pointer leading to a longer key and every live key reachable |
| `TrieStore.InterposeKeepsGood` | include/rcufib/trie.hpp:266-270 | so does interposing a node |
| `TrieStore.SplitInserted` | include/rcufib/trie.hpp:279-295 | a split keeps the strong invariant, adds two nodes and exactly one prefix |
| `TrieStore.ValueKeepsGood` | include/rcufib/trie.hpp:199-199 | so does exchanging a value |
| `TrieStore.BypassKeepsGood` | include/rcufib/trie.hpp:308-312 | and so does unlinking a node without a value and with at most one child |
| `TrieStore.BypassTable` | include/rcufib/trie.hpp:308-312 | which leaves the table as it is |
| `TrieStore.BypassCompressed` | include/rcufib/trie.hpp:316-328 | afterwards only the owner of the slot may be a node without a value and with one child, and only if nothing survived |
| `TrieStore.SearchStep` | include/rcufib/trie.hpp:101-114 | one round of the walk keeps every stored prefix of the address no longer than the answer so far, or ahead |
| `TrieShape.KeysAreJoins` | include/rcufib/trie.hpp:219-329 | the nodes of a compressed trie are the stored prefixes and the points where two of them part |
| `TrieShape.CanonicalShape` | include/rcufib/trie.hpp:219-329 | two compressed tries with one prefix map have the same nodes, values and links |
| `TrieShape.SameContentsSameShape` | include/rcufib/trie.hpp:174-206 | so the order of insertions and erasures leaves no trace in a trie, nor in its node count |
| `TrieShape.InsertThenErase` | include/rcufib/trie.hpp:174-206 | erasing a freshly inserted prefix restores the former trie, down to shape and counters |
| `TrieShape.NodeBound` | include/rcufib/trie.hpp:279-329 | n routes take at most 2n - 1 nodes, and no route takes none |
| `TrieShape.NodeCountBound` | include/rcufib/trie.hpp:136-138 | node_count is within that bound of size |
| `TrieSteps.InsertionEvolves` | include/rcufib/trie.hpp:219-275 | each of the four stores of an insertion keeps the strong invariant and freezes what is dead |
| `TrieSteps.ErasureEvolves` | include/rcufib/trie.hpp:199-202 | clearing the value changes the table and nothing that readers hold |
| `TrieSteps.PruneEvolves` | include/rcufib/trie.hpp:298-329 | each store of prune drops at most one node, which has no value and keeps its children; between operations the strong invariant holds |
| `ConcurrentTrie.StepKeepsInv` | include/rcufib/trie.hpp:99-329 | every load of a reader and every store of the writer keeps the invariants of trie and readers |
| `ConcurrentTrie.NeverBlind` | include/rcufib/trie.hpp:99-116 | in every run a finished lookup answers with something at least as long as every covering prefix stored throughout since it was read (or since the start, if there is no answer), and which was stored under a covering prefix in the table in force when it was read |
| `ConcurrentTrie.OneOverlapIsLinearizable` | include/rcufib/trie.hpp:99-116 | beside at most one insert, replacement or erasure of a covering prefix, and any number of others, the answer is the longest match in the table at the start or at the end |
| `ConcurrentTrie.WalkIsBounded` | include/rcufib/trie.hpp:99-116 | a lookup visits at most max_bits + 1 nodes, whatever the writer does meanwhile |
| `ConcurrentTrie.WalkIsEnabled` | include/rcufib/trie.hpp:99-116 | and is never stuck: its next step is enabled and brings it nearer to its end |
| `ConcurrentTrie.DroppedIsOk` | include/rcufib/trie.hpp:308-313 | from a node dropped under a reader the way still leads to all that was stored throughout |
| `ConcurrentTrie.WithoutErasuresLinearizable` | include/rcufib/trie.hpp:99-116 | if no covering prefix is lost between the last read of a value and the end of the lookup, the answer is the longest match in the table in force at that read (or at the start, if nothing was read), however many changes there are |
| `ConcurrentTrie.NoErasureNothingLost` | include/rcufib/trie.hpp:219-275 | nothing is lost beside any number of inserts and replacements of covering prefixes |
| `Overlaps.NotLinearizable` | include/rcufib/trie.hpp:99-116 | runs in which a lookup beside an erasure and one more change, an insert, a replacement or an erasure, gives an answer that no table gave |
| `Overlaps.LinearizableExactlyBeside` | include/rcufib/trie.hpp:99-116 | lookups beside so many insertions, replacements and erasures of covering prefixes are linearizable in every run exactly when no erasure is among them or there is at most one change |
| `EpochSafety.StepKeepsEpochsClose` | src/epoch.cpp:165-179 | the global epoch is at most one ahead of what it was when a pinned reader announced, even a stale epoch |
| `EpochSafety.StepKeepsScansBehind` | src/epoch.cpp:224-252 | a scan that can still win the exchange has not passed a lagging reader |
| `EpochSafety.StepKeepsBagsRetired` | src/epoch.cpp:209-222 | an object is in the bag of its retirement epoch, and whoever may hold it announced by then |
| `EpochSafety.SafeBagIsOld` | src/epoch.cpp:274-286 | every object in the bag that try_reclaim picks is two epochs old, in modular arithmetic |
| `EpochSafety.TwoEpochsLater` | src/epoch.cpp:224-252 | and nobody may hold an object that old |
| `EpochSafety.SynchronizedBagsAreOld` | src/epoch.cpp:288-305 | what synchronize frees was retired at least four epochs before |
| `EpochSafety.StepKeepsInv` | src/epoch.cpp:120-305 | every step of every thread keeps all invariants of the domain |
| `EpochSafety.GracePeriodSafety` | src/epoch.cpp:165-286 | in every run no object is freed from a bag while a reader pinned since before its unlinking is still pinned |
| `EpochAccounting.StepBalance` | src/epoch.cpp:209-305 | no step loses or doubles an object; only unlinking adds one |
| `EpochAccounting.InOnePlace` | src/epoch.cpp:120-286 | each unlinked object is with one thread, in one bag, among the orphans, or freed, across thread exit and record reuse |
| `EpochAccounting.FreedAtMostOnce` | src/epoch.cpp:254-260 | no deleter runs twice on one object |
| `EpochAccounting.QuiescentBalance` | src/epoch.cpp:307-315 | retired == reclaimed + pending when no thread is carrying an object |
| `EpochAccounting.SynchronizeFreesAll` | src/epoch.cpp:288-305 | synchronize returns after at least four epochs, having freed all that its caller had in its bags |
| `EpochAccounting.ReclaimFreesOld` | src/epoch.cpp:274-286 | in every run a reclaim at epoch e frees whatever its thread retired at epoch e - 2 and still has |
| `EpochAccounting.AdoptedAreFreed` | src/epoch.cpp:262-272 | in every run whoever takes the orphans takes all of them and frees all that it took |
| `EpochOrphans.ReaderHoldsFreedOrphan` | src/epoch.cpp:262-272 | a run with garbage one epoch old at thread exit, after which a pinned reader holds a freed orphan |
| `EpochOrphans.StepKeepsOrphansSafe` | src/epoch.cpp:120-133 | with garbage two epochs old at every exit, no step frees what a pinned reader may hold, orphan or not |
| `EpochOrphans.SafeExactlyWhenAged` | src/epoch.cpp:262-272 | freeing orphans is safe in every run exactly when garbage is two epochs old at the exit of its thread |
| `EpochOrphans.OnlySafeBagFilled` | src/epoch.cpp:120-133 | garbage is that old when only the bag that try_reclaim would pick holds any |
| `EpochOrphans.DrainedRunsAreSafe` | src/epoch.cpp:120-133 | runs in which threads exit with empty bags are safe |
| `EpochDomains.EpochDomain.LocalRecord` | src/epoch.cpp:135-163 | a thread keeps its record, or takes over one left by an exited thread without touching its bags, or adds a new one |
| `EpochDomains.EpochDomain.EnterGuard` | src/epoch.cpp:187-193 | only the outermost guard announces |
| `EpochDomains.EpochDomain.LeaveGuard` | src/epoch.cpp:195-199 | and only it withdraws the announcement |
| `EpochDomains.EpochDomain.TryAdvance` | src/epoch.cpp:224-252 | succeeds exactly when no pinned reader lags; one counter moves |
| `EpochDomains.EpochDomain.RunDeleters` | src/epoch.cpp:254-260 | every deleter of the bag runs once, in order |
| `EpochDomains.EpochDomain.TakeOrphans` | src/epoch.cpp:262-272 | empties the orphan list into the deleters |
| `EpochDomains.EpochDomain.TryReclaim` | src/epoch.cpp:274-286 | when every pinned reader is current, the free log grows by the bag retired two epochs before and then by the orphans, the orphan list is empty, and the result is their number; otherwise nothing is freed and nothing moves |
| `EpochDomains.EpochDomain.RetireRaw` | src/epoch.cpp:209-222 | puts the object into the bag of the present epoch, and at every 64th call tries to reclaim |
| `EpochDomains.EpochDomain.ReleaseRecord` | src/epoch.cpp:120-133 | hands all three bags to the orphans, in order, and leaves the record for reuse |
| `EpochDomains.AlwaysBalanced` | src/epoch.cpp:120-286 | retired == reclaimed + pending after any history of calls and thread exits, failed advances or not |
| `EpochDomains.NoObjectLost` | src/epoch.cpp:120-286 | after any history every object given to retire is in one bag, an orphan or freed, as often as it was given |
| `EpochDomains.FreedInTime` | src/epoch.cpp:209-286 | an object is freed once the epoch has moved by two since its retirement, whether or not its thread has exited |
| `EpochDomains.OrphansFreed` | src/epoch.cpp:274-286 | a call that moves the epoch frees everything that exited threads left |
| `EpochDomains.BacklogBound` | src/epoch.cpp:120-286 | after any history of calls and exits only the bags of the present and the previous epoch are used, and less than 64 * (2 + attempts failed in these epochs) objects are pending, orphans included |
| `EpochDomains.QuietBacklog` | src/epoch.cpp:209-286 | with no failed advance that is less than 128 between calls, 128 at most inside one |
| `EpochDomains.OneFailureExceeds` | src/epoch.cpp:235-243 | one failed advance is enough for more than 128 |
| `EpochDomains.StuckReaderHoldsAll` | src/epoch.cpp:235-243 | a reader that never leaves keeps everything that was retired pending, also when threads exit |
| `RcuFib.StepKeepsInv` | include/rcufib/fib.hpp:310-344 | the composed system of guards, walks, stores and reclamation keeps its invariants |
| `RcuFib.ClosedStep` | include/rcufib/trie.hpp:298-329 | what was unlinked by some moment stays reachable only from what was unlinked by then |
| `RcuFib.NothingReachableIsFreed` | include/rcufib/fib.hpp:310-321 | in every run no node or value that a guarded lookup holds or can reach, along any chain of pointers and through retired nodes, is freed |
| `RcuFib.LookupsAreGuarded` | include/rcufib/fib.hpp:310-314 | a walk always happens under a guard, at a node that is not freed |
| `RcuFib.LookupsAreRight` | include/rcufib/fib.hpp:316-321 | and its answer misses nothing stored throughout since its last read, was stored under a covering prefix when read, and is the longest match of that read's table if nothing was lost since, or of the first or last table if at most one covering prefix changed |
| `RcuFib.UnlinkedExactly` | include/rcufib/trie.hpp:246-314 | in every run what has been unlinked, and so handed to the domain, is exactly the nodes and values that were in the trie and no longer are: nothing leaks, and nothing in use is retired |
| `RcuFib.UnlinksOnce` | include/rcufib/trie.hpp:298-329 | the writer never unlinks an object twice |
| `SeqlockFib.StepKeepsInv` | include/rcufib/fib.hpp:205-278 | the sequence is odd during a batch, and while it stays even walks live through one table |
| `SeqlockFib.AcceptedReadsAreLinearizable` | include/rcufib/fib.hpp:205-223 | an accepted visit returns the longest match in the table at a batch boundary inside the visit, and boundaries follow one another by whole batches |
| `SeqlockFib.AnswersStand` | include/rcufib/fib.hpp:205-223 | every answer accepted so far is that of a boundary not older than its visit |
| `SeqlockFib.UndisturbedAccepts` | include/rcufib/fib.hpp:205-223 | a check accepts when no batch began or ended since its visit last sampled the sequence, whatever other readers do |
| `SeqlockFib.VisitFinishesAlone` | include/rcufib/fib.hpp:205-223 | from every reachable state in which no batch is open a reader about to sample finishes alone, with an answer, in at most 2 * max_bits + 7 steps |
| `SeqlockMemory.StepKeepsInv` | include/rcufib/fib.hpp:206-223 | guards, walks, checks, stores and reclamation keep the invariants of both protocols together |
| `SeqlockMemory.NothingReachableIsFreed` | include/rcufib/fib.hpp:187-193 | nothing that a visit holds or can reach is freed, accepted or not, and no accepted answer while its guard lasts |
| `SeqlockMemory.AnswersAreOfBoundaries` | include/rcufib/fib.hpp:206-223 | with reclamation underneath, accepted answers are still those of batch boundaries inside their visits |
| `FibUpdates.BatchDecides` | include/rcufib/fib.hpp:98-103 | after a batch each prefix is as its last update says, or as before |
| `FibUpdates.EffectiveCounts` | include/rcufib/fib.hpp:98-116 | the number of effective updates is that of the places in the batch at which a prefix comes to be stored or ceases to be |
| `MutexFibs.MutexFib.Lookup` | include/rcufib/fib.hpp:77-82 | longest match in the prefix map |
| `MutexFibs.MutexFib.ApplyLocked` | include/rcufib/fib.hpp:113-116 | one update, and whether it created or removed a prefix |
| `MutexFibs.MutexFib.Apply` | include/rcufib/fib.hpp:98-103 | the batch in order, and how many updates had an effect on which prefixes are stored |
| `Routes.PreferenceIsStrictWeak` | include/rcufib/route.hpp:102-105 | preference is a strict weak order |
| `Routes.PreferenceIs` | include/rcufib/route.hpp:27-105 | connected and local routes beat static ones, these OSPF, OSPF beats IS-IS and IS-IS beats BGP, whatever the metrics; within one protocol, and between connected and local, the smaller metric wins |
| `Routes.StableSortRanks` | include/rcufib/rib.hpp:79-83 | sorting ranks the routes and neither loses nor adds one |
| `Routes.StableSortIsStable` | include/rcufib/rib.hpp:79-83 | routes that tie keep their order |
| `Routes.StableSortFront` | include/rcufib/rib.hpp:79-83 | in front is the first of the routes that none is preferred over |
| `Ribs.RibEntry.Offer` | include/rcufib/rib.hpp:47-58 | the protocol's route is the candidate and all others stay; true exactly when presence, source or hop of the winner changed |
| `Ribs.RibEntry.Withdraw` | include/rcufib/rib.hpp:61-67 | the protocol's route goes and all others stay; true exactly when the winner changed |
| `Ribs.RibEntry.Changed` | include/rcufib/rib.hpp:85-90 | compares what is forwarded by |
| `Ribs.EntryHoldsLatest` | include/rcufib/rib.hpp:47-67 | over any history an entry holds exactly the latest route of each protocol that has not withdrawn it, ranked |
| `Ribs.TableHoldsHistories` | include/rcufib/rib.hpp:104-121 | after any history of add and remove the table holds, for each prefix, what the calls about it leave of its entry, and no empty entry |
| `Ribs.WinnerOfCalls` | include/rcufib/rib.hpp:123-127 | so the winner of a prefix is that of its own history |
| `Ribs.WinnerOfHistory` | include/rcufib/rib.hpp:69-72 | the winner is one of these, and none is preferred over it |
| `Ribs.OfferedWinner` | include/rcufib/rib.hpp:47-58 | an offer of another protocol takes a prefix over exactly when it is preferred over the winner; a tie leaves it where it is |
| `Ribs.BestOfCalls` | include/rcufib/rib.hpp:104-127 | after any history the winner is of the first protocol, in the order of distances, that has a route for the prefix, with the smallest metric; there is none exactly when nobody has a route |
| `Ribs.Rib.Add` | include/rcufib/rib.hpp:104-110 | one prefix's entry changes, and the counters; true exactly when what it forwards by changed |
| `Ribs.Rib.Remove` | include/rcufib/rib.hpp:113-121 | likewise, counted when the prefix had an entry, and no empty entry stays |
| `Ribs.Rib.Best` | include/rcufib/rib.hpp:123-127 | the winner, or nothing when the prefix has no route: a route of the entry that none of a preferred protocol, and none of its own rank with a smaller metric, stands beside |
| `Ribs.TableSteps` | include/rcufib/rib.hpp:104-121 | add and remove keep every entry ranked and not empty, and leave other winners alone |
| `Synchronisers.FibSynchroniser.MarkDirty` | include/rcufib/rib.hpp:186-192 | marking is idempotent, and counted either as a mark or as coalesced |
| `Synchronisers.FibSynchroniser.Drain` | include/rcufib/rib.hpp:209-227 | takes different dirty prefixes, as many as asked; each one's update has hop and source of the RIB's winner, or removes it, and the generations written are all later than before and increase |
| `Synchronisers.FibSynchroniser.Flush` | include/rcufib/rib.hpp:199-232 | programs min(limit, dirty) prefixes in one batch, whatever order they are drained in |
| `Synchronisers.FibSynchroniser.FlushAll` | include/rcufib/rib.hpp:235-239 | terminates with nothing dirty, having written each dirty prefix once |
| `Synchronisers.FlushWrites` | include/rcufib/rib.hpp:209-229 | after a flush each drained prefix is programmed with its winner, and no other entry has changed |
| `Synchronisers.FlushStamps` | include/rcufib/rib.hpp:209-229 | after a flush every drained prefix that has a winner carries a generation above the counter before, and these increase in the order of draining |
| `Synchronisers.AlwaysStamped` | include/rcufib/rib.hpp:209-229 | in every history each FIB entry has a generation above zero and not above the counter, and no two have the same |
| `Synchronisers.FlushIsNew` | include/rcufib/rib.hpp:209-229 | so a reprogrammed entry is later than every entry that was there before |
| `Synchronisers.AlwaysInSync` | include/rcufib/rib.hpp:186-239 | whatever is marked, and when, in every reachable state each prefix that is not dirty, and has been marked since it last changed while not dirty, is programmed with the RIB's winner, or absent if there is none |
| `Synchronisers.LookupIsBestPath` | include/rcufib/rib.hpp:235-239 | with no change owed a mark and nothing dirty a FIB lookup has hop and source of the longest match over the RIB's winners |
| `Synchronisers.CoalescingRefinesEager` | include/rcufib/rib.hpp:199-232 | for any updates, marks, limits and drain order, with no change owed a mark and nothing dirty the FIB is the one that programming every change at once leaves, but for generations |
| `Synchronisers.AlwaysAccounted` | include/rcufib/rib.hpp:186-232 | marked == programmed + pending, marked + coalesced is the number of marks, flushes that of the flushes that found something, generation == adds, adds + removes == programmed |
| `Words.DifferenceIsShared` | include/rcufib/address.hpp:63-69 | leading zeros of the exclusive or, less the padding, count the shared bits |
| `Words.MaskedWord` | include/rcufib/address.hpp:86-90 | masking a word keeps its first bits and clears the rest |
| `Words.FieldBits` | src/address.cpp:132-135 | shifting a word down and masking it gives the bits of that field, in order |
| `Addresses.BitIs` | include/rcufib/address.hpp:51-56 | bit picks out the bit of the address string, across words and with padding |
| `Addresses.CommonPrefixLength` | include/rcufib/address.hpp:59-75 | the loop over words computes the longest common prefix of the bit strings |
| `Addresses.Matches` | include/rcufib/address.hpp:96-99 | true exactly when the first bits agree |
| `Addresses.Masked` | include/rcufib/address.hpp:78-93 | keeps the first n bits and clears the rest |
| `Addresses.MaskedEqualIffMatches` | include/rcufib/address.hpp:78-99 | equal after masking exactly when they match |
| `Addresses.LessAddress` | include/rcufib/address.hpp:104-106 | comparing words compares bit strings |
| `Prefixes.Construct` | include/rcufib/prefix.hpp:28-29 | host bits are cleared |
| `Prefixes.SameKeySamePrefix` | include/rcufib/prefix.hpp:25-29 | prefixes are equal exactly when they denote the same range |
| `Prefixes.Contains` | include/rcufib/prefix.hpp:35-37 | the prefix's bits are the address's first bits |
| `Prefixes.Covers` | include/rcufib/prefix.hpp:40-42 | the prefix's bits are the other's first bits |
| `Prefixes.ClippedShared` | include/rcufib/trie.hpp:236-237 | the shared length of two addresses, capped at both lengths, is that of the prefixes |
| `Prefixes.OrderIsBefore` | include/rcufib/prefix.hpp:51-54 | the order of prefixes is that of the enumeration |
| `Numerals.OctetRoundTrip` | src/address.cpp:30-36 | an octet is read from its own numeral and nothing else |
| `Numerals.NoLeadingZero` | src/address.cpp:166-169 | numerals have no superfluous zero |
| `Numerals.DigitsAre` | src/address.cpp:10-18 | sixteen digits, read in either case and written in lower case |
| `Numerals.OnlyDigits` | src/address.cpp:10-18 | a text has a value exactly when it holds nothing but digits |
| `Numerals.ValueOfBoth` | src/address.cpp:10-18 | digits count by their place, the first one most |
| `Ipv4Text.ParseV4` | src/address.cpp:20-41 | a text is read as an address exactly when it is what to_string writes for it |
| `Ipv6Text.LongestRun` | src/address.cpp:137-156 | finds the zero run that sections 4.2.1 to 4.2.3 of RFC 5952 prefer, or that there is none of two groups |
| `Ipv6Text.PrintV6` | src/address.cpp:131-173 | writes the groups with exactly that run as "::" |
| `Ipv6Text.RecommendedOnce` | src/address.cpp:137-156 | there is one such text of an address |
| `Ipv6Parse.ReadPart` | src/address.cpp:79-93 | a part is read exactly when it is a group or a dotted quad and there is room for it |
| `Ipv6Parse.Assemble` | src/address.cpp:103-110 | the groups before and after the gap, with zeros between them to make eight; refused when there are too many, or too few without a gap |
| `Ipv6Parse.ParseV6` | src/address.cpp:43-117 | a text is read exactly when it is spelled by parts with at most one gap, as the eight groups that these parts and the zeros in the gap make |
| `Ipv6Parse.LayoutIsRead` | src/address.cpp:43-117 | every layout of an address is read back: any zero run shortened, or none, with or without a final dotted quad |
| `Ipv6Parse.PaddedGroup` | src/address.cpp:10-18 | zeros in front of a group are read, up to eight digits in all, and no more |
| `Ipv6Parse.LibertiesShow` | src/address.cpp:64-83 | a text that is read has a lone colon for its gap exactly when it starts with one, and something ignored at its end exactly when a colon comes after a dot |
| `Ipv6Parse.AlsoRead` | src/address.cpp:64-83 | ":1" is read as ::1, and "::1.2.3.4:x" as ::1.2.3.4 |
| `AddressText.GroupsRoundTrip` | src/address.cpp:112-115 | groups shifted into words and out again are the same |
| `AddressText.GroupBits` | src/address.cpp:132-135 | group i of an address has its bits 16 * i to 16 * i + 15, from the most significant on |
| `AddressText.OctetBits` | src/address.cpp:124-127 | octet i of a dotted quad has bits 8 * i to 8 * i + 7 |
| `AddressText.QuadBits` | src/address.cpp:79-86 | the two groups that a dotted quad stands for have its 32 bits in order |
| `AddressText.ToString` | src/address.cpp:121-173 | the text of either family, with the preferred zero run |
| `AddressText.Parse` | src/address.cpp:175-183 | a text is read exactly when it denotes an address, and as that address |
| `AddressText.RoundTrip` | src/address.cpp:121-183 | parse(to_string(a)) == a, for both families |
| `AddressText.RoundTripText` | src/address.cpp:121-128 | to_string(parse(s)) == s for dotted quads |
| `AddressText.ParseLength` | include/rcufib/prefix.hpp:69-76 | reads exactly the lengths of one to three digits that do not exceed the width |
| `AddressText.ParsePrefix` | include/rcufib/prefix.hpp:62-78 | a text is read exactly when an address comes before its first slash and a length after it, or it has no slash and is an address, with the width for its length; the prefix has this length and the first so many bits of the address, host bits or not |
| `AddressText.BareAddress` | include/rcufib/prefix.hpp:67-67 | a bare address is a host route |
| `AddressText.AddressAndLength` | include/rcufib/prefix.hpp:69-77 | an address, a slash and the numeral of a length up to the width denote the prefix of that length |
| `AddressText.NoLength` | include/rcufib/prefix.hpp:69-76 | a length that is empty, longer than three digits, not of digits or above the width denotes no prefix |
| `AddressText.PrefixRoundTrip` | include/rcufib/prefix.hpp:56-78 | parse(to_string(p)) == p, for both families |

## Left out

- Weak memory orderings and fences: interleavings are sequentially consistent, which is what the paired fences are meant to provide.
- Safety of orphans that are younger than two epochs at the exit of their thread: false, see `EpochOrphans`; `RcuFib` and `SeqlockMemory` assume older ones.
- synchronize as a class method: its spin ends only when other threads unpin, so it is modelled in `EpochProtocol` only; it drains the caller's bags and the orphans, not the bags of other threads, and nothing is claimed of those.
- `clear`, `destroy` and destruction of a domain, which need readers to be gone; thread-local storage, the domain slot table and the default domain.
- Which free record local_record reuses in `EpochProtocol`: any record not in use may be taken, or a new one appended, at the point of the call; the scan for one is not stepped through.
- Epochs beyond 2^63 and counters beyond 2^64: natural numbers.
- Prefix lengths above the width: the constructor of a prefix does not check, and the model requires it. Guards left out of order, and pointers kept after a guard.
- Retry counts of seqlock readers, and progress while batches keep coming: a reader may then retry for ever.
- The reading steps of an inserting or erasing writer are not separate from its next store: no other thread writes, so what it reads cannot change in between.
- `shared_mutex_fib` (the same calls as `mutex_fib`), mutexes, `measure_depth`, hashing, MRT loading, the traffic generator, the benchmark and the command line.
- std::stable_sort, std::from_chars, std::find_if and snprintf are functions with the meaning the standard library gives them.
