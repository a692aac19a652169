# Verified core of a Bitcoin Cash node

A Dafny 4.11 model of the parts of the node where a wrong step is hardest to see, with proofs about every input,
every state and every run. `dafny verify dfyconfig.toml` checks the whole project.

* **Inventory request tracker** (`InvRequestSpec`, `InvRequestRules`, `InvRequestIndex`, `InvRequest`): which peer is
  asked for which inventory, and when. The specification is a set of announcements with one transition per call; the
  container is the sorted index with incremental selection of the best candidate, peer counters and the time queue.
  Every method acts on the index exactly as the specification acts on the set, so the results over runs hold of the
  index.
* **Coin caches** (`CoinsModel`, `Coins`): a stack of write-back caches with DIRTY and FRESH flags over a database.
  Every operation has the effect on every level that it would have on a stack of plain maps.
* **Address manager** (`AddrManModel`, `AddrManSpec`, `AddrMan`, `AddrManCheck`, `AddrManFile`, `AddrManRoundTrip`): two
  bucketed tables, a random vector and two maps that must agree. Every operation keeps them consistent and is specified
  entry by entry, the consistency check accepts exactly the consistent states, and a saved file loads back to the same
  tables.
* **Check queue** (`CheckQueue`): master and workers as a state machine with arbitrary interleaving: the verdict is
  right, no wake-up is lost, no deadlock, and `Wait` comes to an end.
* **Header synchronisation** (`HeadersSync`): the two-pass download with one-bit commitments and a bounded buffer.
* **Cuckoo cache** (`CuckooFlags`, `CuckooGenerations`, `Cuckoo`): the lossy set behind the signature cache, on its
  bit-packed flags. Its two generations go through the steps of a small machine of sets, and the laws of ageing are
  proved of every run of that machine.
* **Number types** (`Limbs`, `LimbShifts`, `Arith256`, `Compact`): 256-bit arithmetic on 32-bit limbs, in place and with
  aliasing, the compact form of a target, and the proof of work of a block.
* **Block tree** (`SkipList`, `Chain`): the skip list with a bound on the steps it takes, common ancestors, the active
  chain and block locators.
* **Text codecs** (`Numerals`, `Base58`, `CashAddrPoly`, `CashAddrField`, `CashAddr`, `CashAddrText`): Base58 and
  CashAddr, each with both round trips.
* **The CashAddr code** (`CashAddrCode`, `CashAddrExtension`, `CashAddrPacked`, `CashAddrDistance`, `CashAddrErrors`):
  besides bursts of eight, it detects any four errors within 1025 characters. The generator vanishes at six powers of
  an element of order 1025 of GF(2^20), a tower of degree four over GF(32), and four coefficients that all vanish there
  are zero.

Hash functions, salts, clocks, random choices and consensus rules are parameters, so every result holds whatever they
return. Methods whose contract only names a function (`EncodeBase58`, `DecodeBase58`, `PolyMod`, `CreateChecksum`,
`Encode`, `Decode`) compute that function, and what is proved of it is listed instead.

Where the code does not do what one would expect, the model follows the code and the exact condition is proved:
`Coins.CoinsStack.AddCoin` (an entry added over a coin that is visible only below is wrongly FRESH),
`CashAddrText.OutOfRangeIff` (a payload shorter than its checksum is accepted and then cut below zero),
`CashAddrText.DecodeUndoesEncode` (only lower-case prefixes come back), `CuckooFlags.BitPackedFlags.constructor` and
`Cuckoo.Cache.constructor` (the padding of the flag array is computed in 32 bits, so the seven largest tables get too
few flags), `Cuckoo.EpochIsShare` (so is 45 per cent of the size) and `Cuckoo.Cache.InsertElement` (inserting a key
whose slot is marked for collection revives the old element when it is not told to replace it).

## Model

| member | source | states |
|---|---|---|
| InvRequestSpec.StepIsFunctional | src/invrequest.h:28-57 | after any call two announcements that share peer and invid, or share a sequence number, are the same one |
| InvRequestSpec.StepKeepsOneInFlight | src/invrequest.h:42-57 | no call leaves two requests for one invid in flight |
| InvRequestSpec.StepKeepsNoDeadInv | src/invrequest.h:42-57 | no call leaves an invid with nothing but completed announcements |
| InvRequestSpec.StepMovesOn | src/invrequest.h:42-57 | every announcement after a call is new or comes from one before it that has not gone back in its life cycle |
| InvRequestSpec.RunKeepsWellFormed | src/invrequest.cpp:372-412 | in every state of every run keys and sequence numbers are unique, at most one request per invid is in flight and no invid is dead |
| InvRequestSpec.NeverOfferedTwice | src/invrequest.h:46-57 | in every run, once an inventory was requested from a peer or answered by it, it is offered to that peer again only if the announcement was forgotten in between |
| InvRequestSpec.PreferredFirst | src/invrequest.cpp:149-161 | an announcement that is not preferred is never offered while a preferred one of the same invid is ready |
| InvRequestSpec.LargestHashFirst | src/invrequest.cpp:149-161 | of equally preferred ready candidates the one with the largest hash, without its last bit, is offered |
| InvRequestRules.NoneWhileOutstanding | src/invrequest.h:42-48 | in every run, while a request is in flight nobody is offered its inventory: an offer means that some call in between ended it, by an answer, a disconnection, forgetting, its expiry or another request |
| InvRequestRules.NotBeforeReqtime | src/invrequest.h:75-80 | in every run, what is offered to a peer was announced by that peer with a request time that has passed, and not forgotten since |
| InvRequestRules.SomeoneIsNext | src/invrequest.h:42-48 | if a candidate is ready and all requests in flight for the invid are overdue, then after the time point some peer should be asked |
| InvRequestRules.OverdueEnds | src/invrequest.cpp:579-620 | after a time point no request in flight is overdue |
| InvRequestIndex.PrevIsTopReady | src/invrequest.cpp:499-518 | in the sorted index the neighbour before the selected announcement is the best ready one of its invid, and if it is not a ready one then there is none |
| InvRequestIndex.NextTells | src/invrequest.cpp:458-494 | in the sorted index the neighbour after a newly ready announcement tells whether the invid has a selected one, and whether the newly ready one has the highest priority of the ready ones |
| InvRequestIndex.NeighboursTellOnly | src/invrequest.cpp:522-544 | the test of the two neighbours is true exactly if no other announcement of the invid is still open |
| InvRequestIndex.LowerBoundFindsSelected | src/invrequest.cpp:751-812 | the lower bound of the best candidate finds the selected announcement of an invid if there is one, and only then |
| InvRequest.Tracker.constructor | src/invrequest.cpp:623-632 | an empty index satisfies everything that the sanity check asserts |
| InvRequest.Tracker.Erase | src/invrequest.cpp:433-441 | exactly that announcement goes, and the counters still agree with the index |
| InvRequest.Tracker.Modify | src/invrequest.cpp:443-452 | exactly that announcement changes, the index is sorted again, and the counters still agree |
| InvRequest.Tracker.PromoteCandidateReady | src/invrequest.cpp:454-494 | the choice of the best candidate is right again after looking at one neighbour, and nothing visible changes |
| InvRequest.Tracker.ChangeAndReselect | src/invrequest.cpp:496-518 | leaving a selected state hands the selection to the best ready candidate |
| InvRequest.Tracker.MakeCompleted | src/invrequest.cpp:546-577 | acts as a response in the specification; the whole invid is forgotten exactly if nothing else was open |
| InvRequest.Tracker.SetTimePoint | src/invrequest.cpp:579-620 | the table becomes the specification's expiry at that time, no candidate waits past its time, and every overdue request is reported exactly once |
| InvRequest.Tracker.ReceivedInv | src/invrequest.cpp:691-715 | acts on the table as the specification's announcement; a known pair changes nothing |
| InvRequest.Tracker.ForgetInvId | src/invrequest.cpp:683-689 | acts on the table as the specification's removal of the invid |
| InvRequest.Tracker.ReceivedResponse | src/invrequest.cpp:814-824 | acts on the table as the specification's response |
| InvRequest.Tracker.RequestedData | src/invrequest.cpp:751-812 | acts on the table as the specification's request, also when the announcement is not the best one and when another request was in flight |
| InvRequest.Tracker.DisconnectedPeer | src/invrequest.cpp:641-681 | acts on the table as the specification's removal of the peer, although iterators are lost on the way |
| InvRequest.Tracker.GetRequestable | src/invrequest.cpp:717-749 | the answer is every inventory that the specification says this peer should be asked for, in announcement order, none twice |
| InvRequest.Tracker.CountInFlight | src/invrequest.cpp:826-832 | the counter is the number of the peer's announcements in flight |
| InvRequest.Tracker.CountCandidates | src/invrequest.cpp:834-841 | the difference of counters is the number of the peer's candidates |
| InvRequest.SanityCheckPasses | src/invrequest.cpp:372-412 | the per-invid assertions of the sanity check follow from the invariant |
| InvRequest.SomePeerIsOffered | src/invrequest.cpp:414-429 | at a time point, an invid with a ready candidate and nothing in flight has exactly one best candidate, and it is one that the specification would request |
| InvRequest.Run | src/invrequest.cpp:356-860 | the index performs any sequence of calls as a run of the specification, and every answer is the specification's |
| CoinsModel.MergeIsRight | src/coins.cpp:225-298 | writing one child entry into a parent slot never finds FRESH misapplied, keeps the flags truthful and makes the parent show what the child showed |
| CoinsModel.BatchIsRight | src/coins.cpp:225-298 | a parent that took a whole batch shows what the child showed, and all its flags are truthful |
| CoinsModel.WrittenIsRight | src/txdb.cpp:119-180 | a database that took the dirty entries holds exactly the coins that the cache showed |
| CoinsModel.PushIntoLayer | src/coins.cpp:301-328 | replacing a parent and its child by a written parent and a clean child changes no level but the parent's, which becomes the child's |
| Coins.BatchWrite | src/coins.cpp:225-298 | a batch written into a cache in any order succeeds and gives the combined view, with the usage counter right |
| Coins.WriteDatabase | src/txdb.cpp:142-180 | writing the dirty entries in any order gives the combined view |
| Coins.ClearFlags | src/coins.cpp:318-326 | exactly the unspent coins stay, with both flags cleared; the cache then shows its parent's view and its usage is right |
| Coins.SanityCheck | src/coins.cpp:371-391 | the recomputed usage and flag combinations never fail in a sound layer |
| Coins.SpendEntry | src/coins.cpp:172-192 | dropping a FRESH entry or blanking another removes exactly that coin from the view |
| Coins.AddEntry | src/coins.cpp:104-146 | the exception is thrown exactly for an unspent cached coin; otherwise the coin is added, and the flags stay truthful exactly if overwriting is allowed or the coin is not visible |
| Coins.CoinsStack.constructor | src/coins.cpp:61-65 | the one level of a bare database is its set of unspent coins |
| Coins.CoinsStack.Push | src/coins.cpp:61-65 | a new cache shows what the level below shows and is empty |
| Coins.CoinsStack.Pop | src/coins.cpp:61-65 | dropping the top cache leaves every other level as it was |
| Coins.CoinsStack.GetCoin | src/coins.cpp:95-102 | finds an unspent coin exactly if the level shows it, and the same coin; reading changes no level, and it says exactly when something is found |
| Coins.CoinsStack.FetchCoin | src/coins.cpp:71-93 | pulls a coin through every cache below without changing what any level shows, exactly if the cache or the level below has an entry |
| Coins.CoinsStack.HaveCoin | src/coins.cpp:204-207 | true exactly if the level shows the coin |
| Coins.CoinsStack.AddCoin | src/coins.cpp:104-146 | when it throws, what the new top view is, and that the flags stay truthful exactly if the coin was not visible, or may be overwritten, or is unspendable |
| Coins.AddOverHidden | src/coins.cpp:104-146 | for any coin that is unspent only below the cache: nothing is thrown and the stack is no longer valid |
| Coins.HiddenCoinReturns | src/coins.cpp:104-146 | spending such an entry brings the coin below back |
| Coins.CoinsStack.SpendCoin | src/coins.cpp:172-192 | removes exactly that coin from the top view, moves out the coin that was visible, and succeeds exactly if the cache or the level below had an entry |
| Coins.CoinsStack.Uncache | src/coins.cpp:330-340 | changes no level; the entry leaves exactly if it has neither flag, and no other entry of any cache does |
| Coins.CoinsStack.Flush | src/coins.cpp:301-312 | the level below becomes the flushed level, all others stay, the cache is empty with no usage, and caches further away are untouched |
| Coins.CoinsStack.Sync | src/coins.cpp:314-328 | the level below becomes the synced level, all others stay; exactly the unspent coins stay cached, without flags, and caches further away are untouched |
| Coins.CoinsStack.AddCoins | src/coins.cpp:156-170 | every spendable output is afterwards visible with its value, script, the given height and coinbase mark; every other outpoint, and every other level, is as before |
| Coins.CoinsStack.Run | src/coins.cpp:71-391 | any allowed operations in any order leave on every level what a stack of plain maps holds |
| CheckQueue.BatchFits | src/checkqueue.h:113-124 | the batch size never exceeds what is queued, nor the larger of one and the limit |
| CheckQueue.BatchIsFair | src/checkqueue.h:113-117 | a batch is the limit if there is as much for every thread, and otherwise an equal share of the queue but at least one check |
| CheckQueue.StepInv | src/checkqueue.h:66-133 | every atomic step of every thread keeps the counters, the checks and the verdict in agreement |
| CheckQueue.WaitIsRight | src/checkqueue.h:163-165 | in every run Wait returns true exactly if every check added in the round ran once and succeeded, and the next round starts from nothing |
| CheckQueue.NoLostWakeUp | src/checkqueue.h:76-103 | at every moment of every run no check ran more often than it was added, the to-do counter is right, and while the master sleeps unnotified some worker holds a batch |
| CheckQueue.NeverStuck | src/checkqueue.h:66-133 | while Wait has not returned some thread has a step that needs no spurious wake-up |
| CheckQueue.NoDeadlock | src/checkqueue.h:66-133 | every run with the master inside Wait goes on with a step that is neither spurious nor work from outside |
| CheckQueue.WaitEnds | src/checkqueue.h:66-133 | in every run the steps that are not spurious wake-ups use up a potential, so Wait lasts a bounded number of them |
| CheckQueue.WaitCanReturn | src/checkqueue.h:66-133 | every run with the master inside Wait has a continuation in which Wait returns, within that bound |
| HeadersSync.PresyncKeeps | src/headerssync.cpp:221-264 | an accepted header extends the first pass: still linked, permitted difficulty, work and commitments up to date |
| HeadersSync.PresyncAllIff | src/headerssync.cpp:173-264 | the first pass takes a message exactly if all headers so far with it form a chain of permitted difficulty with no more commitments than allowed |
| HeadersSync.StoreKeeps | src/headerssync.cpp:266-344 | an accepted header extends the second pass: still linked, and its commitment was taken off the queue and agreed, unless the work threshold is reached |
| HeadersSync.StoreAllIff | src/headerssync.cpp:266-344 | the second pass takes headers exactly if all so far form a permitted chain that agrees with the first pass at every committed height up to the work threshold |
| HeadersSync.PopKeeps | src/headerssync.cpp:346-363 | handing out the oldest header keeps the buffer at least as long as required unless the threshold is reached |
| HeadersSync.EveryHeaderAgrees | src/headerssync.h:51-100 | in every state, also after the end, a header of the second pass agrees with the first pass at its height unless the work threshold was reached at or before it |
| HeadersSync.HeadersSyncState.constructor | src/headerssync.cpp:27-64 | starts in the first pass with nothing received |
| HeadersSync.HeadersSyncState.ValidateAndStoreHeadersCommitments | src/headerssync.cpp:173-219 | a message is taken whole or not at all, and the second pass begins exactly if enough work was shown |
| HeadersSync.HeadersSyncState.Redownloaded | src/headerssync.cpp:122-171 | a failing message changes nothing that was accepted; otherwise what is handed out is a prefix of what was accepted, and everything once the threshold is reached |
| HeadersSync.HeadersSyncState.ProcessNextHeaders | src/headerssync.cpp:84-171 | the whole call: it succeeds exactly if the chain so far with the message is linked, permitted and, in the second pass, agrees with the commitments; memory bounds, what is accepted and handed out, when more is requested, and when the state becomes final |
| HeadersSync.Synchronise | src/headerssync.cpp:84-171 | for every sequence of messages both passes together took exactly the headers of a prefix of the messages, which ends only where a message is refused or the work is done; all headers handed out form one linked chain of permitted difficulty that the first pass vouched for, and none is held back after the threshold |
| CuckooFlags.OneBit | src/cuckoocache.h:96-120 | setting or clearing one bit of a byte is seen at that bit only |
| CuckooFlags.BitPackedFlags.constructor | src/cuckoocache.h:64-71 | all flags are set, and there are enough of them exactly if the padding does not wrap |
| CuckooFlags.BitPackedFlags.BitSet | src/cuckoocache.h:96-98 | sets one flag and no other |
| CuckooFlags.BitPackedFlags.BitUnset | src/cuckoocache.h:107-110 | clears one flag and no other |
| CuckooFlags.BitPackedFlags.BitIsSet | src/cuckoocache.h:118-120 | reads that flag |
| Cuckoo.LiveKeysDistinct | src/cuckoocache.h:424-480 | no two live elements have the same key |
| Cuckoo.LiveIsFound | src/cuckoocache.h:536-547 | a lookup of a live element's key ends at that element |
| Cuckoo.SwapIsRight | src/cuckoocache.h:453-476 | displacing a live element from one of eight live slots leaves all others findable and makes exactly that one homeless |
| Cuckoo.FastRangeSpreads | src/util/fastrange.h:22-24 | the reduction of a hash to a slot keeps the order, and every slot is reached |
| Cuckoo.Cache.constructor | src/cuckoocache.h:359-371 | a table of at least two slots, nothing live, nothing recent, the epoch size and the counter as computed in 32 bits; valid exactly if the flags suffice, that is for all but the seven largest sizes |
| Cuckoo.EpochIsShare | src/cuckoocache.h:366-367 | an epoch is 45 per cent of the table exactly up to 95443717 slots, where the product begins to wrap |
| Cuckoo.Cache.EpochCheck | src/cuckoocache.h:303-338 | leaves room in the epoch; when it is full exactly the old generation is collected and the young one becomes old, and the counter is set as the size of the young generation says |
| Cuckoo.Cache.NextSlot | src/cuckoocache.h:453-471 | the swap never returns to the slot just used when the eight are distinct, and starts at the second of them, not at the first as its comment says |
| Cuckoo.Cache.Displace | src/cuckoocache.h:441-479 | the cuckoo walk loses at most one element, and none if a slot of the new element is free; the new element is young and every displaced one keeps its generation |
| Cuckoo.Cache.InsertElement | src/cuckoocache.h:424-480 | the live elements of each generation afterwards, for a key that is found and for one that is not; at most one is lost, none if a slot was free, and unless it is lost the element is found in a live slot of the current generation |
| Cuckoo.Cache.Find | src/cuckoocache.h:536-547 | a live element is always found, what is found is the first match, and erasing collects exactly that one, from whichever generation |
| Cuckoo.Cache.ContainsKey | src/cuckoocache.h:510-512 | true exactly if a slot holds the key, in particular if it is live; erasing takes exactly the elements of that key out of the live ones |
| Cuckoo.Cache.GetElement | src/cuckoocache.h:526-533 | copies the live element of that key out, or leaves the argument alone; erasing takes exactly the elements of that key out of the live ones |
| Cuckoo.Cache.Run | src/cuckoocache.h:424-547 | every run of calls keeps the table valid, finds nothing that was not inserted or there from the start, and takes the generations through the steps that the laws are about |
| CuckooGenerations.SurvivesOneAgeing | src/cuckoocache.h:190-215 | in every run a young element that is neither inserted again, erased nor lost stays young until the first ageing, is old until the second, and is then gone |
| CuckooGenerations.CollectedByTheSecond | src/cuckoocache.h:190-215 | in every run an element that is not inserted again is not young after one ageing and not live after two |
| CuckooGenerations.InsertedIsYoung | src/cuckoocache.h:424-480 | what an insertion leaves in place is young unless it is lost at once |
| AddrManModel.Reduce | src/addrman.cpp:55-84 | whatever the hashes are, the slots are inside the tables and an address has one position per bucket |
| AddrManModel.CreateKeeps | src/addrman.cpp:449-462 | a created entry keeps all agreements and is the only entry without a place |
| AddrManModel.SwapKeeps | src/addrman.cpp:464-487 | swapping two positions of the random vector keeps all agreements |
| AddrManModel.RemoveKeeps | src/addrman.cpp:489-502 | deleting an entry without a place keeps all agreements |
| AddrManModel.ClearKeeps | src/addrman.cpp:504-520 | clearing a new slot keeps all agreements and deletes its entry exactly if that was the last reference |
| AddrManModel.UnlistKeeps | src/addrman.cpp:525-540 | going around the new buckets from the entry's own one takes off every reference, wherever the count reaches zero |
| AddrManModel.PromoteKeeps | src/addrman.cpp:542-578 | entering the tried table, with the entry there moved back and possibly another lost, keeps all agreements |
| AddrManModel.MakeTriedKeeps | src/addrman.cpp:522-579 | which entries are new and tried afterwards; at most one is lost, and no tried slot is emptied |
| AddrManSpec.GoodIsNotTerrible | src/addrman.cpp:86-117 | an entry without failures since its last success is terrible exactly if it was announced more than ten minutes ahead or thirty days ago and not tried within a minute |
| AddrManSpec.FailuresAreTerrible | src/addrman.cpp:86-117 | a lately announced entry is terrible exactly after three failures if never reached, after ten if not reached for a week, and a minute after the last try |
| AddrManSpec.RenewedMovesOn | src/addrman.cpp:597-604 | the time of an entry moves on exactly if the announcement less the penalty is more than an hour ahead, or a day for one that is a day old, and then to just that |
| AddrManSpec.MovedTables | src/addrman.cpp:522-579 | both tables, slot by slot, after an entry moved to the tried table: the entry displaced from there gets one slot of the new table, by its own source |
| AddrMan.AddrMan.Find | src/addrman.cpp:432-447 | finds the id of a known service |
| AddrMan.AddrMan.Delete | src/addrman.cpp:489-502 | removes the entry from all four structures |
| AddrMan.AddrMan.ClearNew | src/addrman.cpp:504-520 | the new counter follows the entries lost |
| AddrMan.AddrMan.MakeTried | src/addrman.cpp:522-579 | both counters follow the sets of entries |
| AddrMan.AddrMan.Refresh | src/addrman.cpp:597-632 | a known address gains the announced services, its time moves on only if the announced one is well ahead, and it is referenced again exactly if the announcement is later, it is new, below the limit, and drawn with one chance in two for every reference it has |
| AddrMan.AddrMan.Deserves | src/addrman.cpp:640-648 | a slot is given exactly if it is free, or holds another entry that is terrible or has other references while the newcomer has none |
| AddrMan.AddrMan.AddSingle | src/addrman.cpp:581-663 | true exactly if the address is routable, is new or worth another reference, and its slot yields; which entry goes, which slots change, and every field of the announced and of every other entry afterwards |
| AddrMan.AddrMan.Add | src/addrman.cpp:727-741 | every address of the list takes such a step, and the result is true exactly if one of them was inserted |
| AddrMan.AddrMan.MoveToTried | src/addrman.cpp:522-579 | the state is the one of making the entry tried; the tables stay consistent and no tried slot is emptied |
| AddrMan.AddrMan.Good | src/addrman.cpp:665-725 | a known address counts as tried and reached at that time with no failures, keeps its announced time, and nothing else known of any entry changes; it is moved to the tried table, with both tables given slot by slot, or remembered as a collision if its slot is occupied and must be tested first |
| AddrMan.AddrMan.Attempt | src/addrman.cpp:743-762 | sets the time of the try, and counts a failure at most once between two successes |
| AddrMan.AddrMan.Connected | src/addrman.cpp:900-917 | the time of a known address moves on only after twenty minutes |
| AddrMan.AddrMan.SetServices | src/addrman.cpp:919-933 | sets the services of a known address and nothing else |
| AddrMan.SettledWhen | src/addrman.cpp:961-1000 | in seconds, when a collision is settled and when the entry in the slot is replaceable |
| AddrMan.AddrMan.ResolveOne | src/addrman.cpp:942-1005 | when a collision is settled, who gets the slot and what the state is then, and that the slot of a collision is never found empty |
| AddrMan.AddrMan.ResolveCollisions | src/addrman.cpp:935-1014 | all collisions are gone through in the order of their ids: each is dropped exactly if it is settled in the state its predecessors left, its newcomer takes the slot exactly if the entry there is replaceable, and the others stay remembered |
| AddrMan.AddrMan.SelectTriedCollision | src/addrman.cpp:1016-1044 | what is selected is the tried entry in the slot of a remembered collision; a collision whose entry is gone is forgotten, and nothing else changes |
| AddrMan.AddrMan.GetAddr | src/addrman.cpp:855-898 | distinct addresses, each as known, not terrible and of the wanted network, up to the limit, and all such addresses if there are fewer; only the order of the vector changes |
| AddrMan.AddrMan.Run | src/addrman.cpp:432-1044 | every run of operations keeps the tables consistent and fills but never empties tried slots |
| AddrManCheck.CheckAddrman | src/addrman.cpp:1064-1170 | the check returns zero exactly if the tables agree |
| AddrManCheck.ConsistentIsChecked | src/addrman.cpp:1064-1170 | the invariant of the operations is enough for the check |
| AddrManCheck.RunAndCheck | src/addrman.cpp:432-1170 | from construction and for any hashes, every run of operations passes the check |
| AddrManFile.CheckedIsConsistent | src/addrman.cpp:425-430 | tables that pass the check after loading satisfy the invariant of the operations |
| AddrManFile.Prune | src/addrman.cpp:407-417 | exactly the entries without a place are deleted, with their addresses; tables and all other entries stay but for random positions |
| AddrManFile.Read | src/addrman.cpp:247-430 | the exact result for any file: which header error, or else the tables that were read without the entries that found no place, exactly if these pass the check; what is loaded is consistent |
| AddrManFile.Unserialize | src/addrman.cpp:247-430 | the same for an address manager, which after a successful load is valid and has exactly those tables |
| AddrManRoundTrip.Serialize | src/addrman.cpp:141-245 | the file lists every new and every tried entry once, and every filled new slot under the number of its entry |
| AddrManRoundTrip.RoundTrip | src/addrman.cpp:141-430 | reading such a file restores the same entries in the same slots, loses nothing, and passes the check |
| AddrManRoundTrip.SaveAndLoad | src/addrman.cpp:141-430 | saving any valid address manager and loading it into an empty one succeeds with the same tables up to renumbering, and of every entry all but the times of the last tries |
| Base58.AlphabetInverse | src/base58.cpp:17-35 | the character table is the inverse of the alphabet, which has no space and no zero byte |
| Base58.AlphabetOnto | src/base58.cpp:17-35 | the table accepts only characters of the alphabet |
| Base58.AlphabetIs | src/base58.cpp:17-19 | the alphabet is the digits and letters without 0, O, I and l, in the order of their codes |
| Base58.EncodeFits | src/base58.cpp:109-112 | the encoding buffer is large enough for every input length |
| Base58.DecodeFits | src/base58.cpp:53-56 | the decoding buffer is large enough for every input length |
| Base58.MulAdd | src/base58.cpp:68-76 | the carry loop multiplies and adds in place, stops early only above the used digits, and says how many digits are in use |
| Base58.Convert58 | src/base58.cpp:113-128 | the buffer holds the number that the bytes stand for |
| Base58.ReadChars | src/base58.cpp:61-81 | the buffer holds the number of the characters read; stops exactly at a wrong character or a result that is too long |
| Base58.DecodeUndoesEncode | src/base58.cpp:37-142 | decoding an encoding gives the bytes back, exactly if they are within the limit or empty |
| Base58.EncodeUndoesDecode | src/base58.cpp:37-142 | a text that decodes is the encoding of its result with spaces around it |
| CashAddrPoly.Ring.FoldLinear | src/cashaddr.cpp:35-140 | the checksum remainder is linear in start and data |
| CashAddrPoly.Ring.BurstDetected | src/cashaddr.cpp:35-140 | two messages that differ within eight consecutive symbols have different remainders |
| CashAddrPoly.Ring.CorrectionIsRight | src/cashaddr.cpp:176-189 | exactly one choice of the last eight symbols gives a wanted remainder |
| CashAddrField.PackedStepIsStep | src/cashaddr.cpp:94-129 | the shift-and-xor step on a 40-bit word is one step of polynomial division over the field of 32 elements |
| CashAddr.PolyModIs | src/cashaddr.cpp:35-140 | PolyMod is the packed remainder of the message polynomial, with one added |
| CashAddr.BurstChangesPolyMod | src/cashaddr.cpp:35-140 | any change within eight consecutive five-bit symbols changes PolyMod, wherever it is and however long the message |
| CashAddrCode.Points.FewIsNone | src/cashaddr.cpp:46-51 | a word with remainder zero and at most four coefficients within a window of 1025 has none, if the generator has the six roots |
| CashAddrExtension.Tower.RootIs | src/cashaddr.cpp:44-47 | Horner's rule at a power of the generator of the tower decides whether the code's generator vanishes there |
| CashAddrDistance.SpaceIsGood | src/cashaddr.cpp:44-51 | the tower over GF(32) is sound, its element y has order 1025 with no fixed point for 25 and 205, and the code's generator vanishes at the six powers |
| CashAddrDistance.FourErrorsChangePolyMod | src/cashaddr.cpp:46-51 | two messages that differ in one to four places within a window of 1025 have different checksums |
| CashAddr.VerifiesIff | src/cashaddr.cpp:155-171 | a checksum verifies exactly if the remainder of prefix and payload is one |
| CashAddr.ChecksumIs | src/cashaddr.cpp:176-189 | the eight symbols taken out of PolyMod are the correction of the message |
| CashAddr.ChecksumVerifies | src/cashaddr.cpp:176-189 | the created checksum is the only one that verifies |
| CashAddr.ExpandAgree | src/cashaddr.cpp:155-164 | two prefixes enter the checksum alike exactly if they agree in every character modulo 32 |
| CashAddr.ShortVerifiesIff | src/cashaddr.cpp:169-171 | for one prefix and one length up to eight at most one payload verifies, and which one |
| CashAddr.ShortExistsIff | src/cashaddr.cpp:169-171 | such a payload exists exactly if the high symbols of the checksum of prefix and zeros vanish |
| CashAddrText.CharIs | src/cashaddr.cpp:13-28 | every five-bit value is spelled by a lower-case letter or digit that reads back as that value |
| CashAddrText.RevIs | src/cashaddr.cpp:18-28 | every character that reads as a value is, folded to lower case, the one that spells it |
| CashAddrText.AlphabetIs | src/cashaddr.cpp:18-28 | exactly the digits and letters without 1, b, i and o are read |
| CashAddrText.SpelledInOrder | src/cashaddr.cpp:16 | the character of each of the 32 values |
| CashAddrText.Scan | src/cashaddr.cpp:214-258 | accepts exactly the strings of one case with at most one colon, not at the start, and no digit or other character before it |
| CashAddrText.ReadValues | src/cashaddr.cpp:271-282 | reads the payload exactly if every character is of the alphabet |
| CashAddrText.DecodeUndoesEncode | src/cashaddr.cpp:198-290 | decoding an encoding gives prefix and payload back exactly if the prefix is in lower case |
| CashAddrText.EncodeUndoesDecode | src/cashaddr.cpp:198-290 | an accepted string with a whole checksum is the encoding of its result up to case and default prefix |
| CashAddrText.BurstRejected | src/cashaddr.cpp:169-171 | a valid address stops being valid when symbols change within any eight consecutive places |
| CashAddrErrors.FourErrorsRejected | src/cashaddr.cpp:46-51 | a lower-case prefix and a payload that verify no longer do after one to four changed letters and symbols within a window of 1025 |
| CashAddrErrors.FourErrorsInText | src/cashaddr.cpp:46-51 | an accepted text, with or without a prefix, is no longer accepted after one to four wrong characters within a window of 1025, not counting case and with the separator in place |
| CashAddrText.ShortIsOutOfRange | src/cashaddr.cpp:285-289 | one string of fewer than eight payload characters whose checksum verifies |
| CashAddrText.OutOfRangeIff | src/cashaddr.cpp:285-289 | the cut of the checksum goes below zero exactly for well-formed strings whose payload has fewer than eight characters and is the one that verifies for its prefix, if there is one |
| SkipList.GetSkipHeight | src/blockindex.cpp:16-26 | the height to skip to is below the block's own |
| SkipList.LowestOneIs | src/blockindex.cpp:11-13 | exactly the lowest one bit is cleared |
| SkipList.FewHops | src/blockindex.cpp:16-76 | from any height below 2^a the search for an ancestor takes at most a squared plus a steps |
| Chain.BlockIndex.constructor | src/blockindex.cpp:83-87 | a new block extends the path of its predecessor, and its skip pointer is the block of the path at the skip height |
| Chain.BlockIndex.GetAncestor | src/blockindex.cpp:52-76 | following skip pointers greedily ends at the block of that height on the path to the root, or at nothing for a height outside |
| Chain.BlockIndex.Search | src/blockindex.cpp:52-76 | the same, and the number of links followed keeps that bound if every block has its skip link |
| Chain.BlockIndex.BuildSkip | src/blockindex.cpp:83-87 | the skip pointer becomes the block of the path at the skip height, and all skip pointers below are still right |
| Chain.MeetBelow | src/chain.cpp:112-134 | two paths that meet at a height agree everywhere below |
| Chain.LastCommonAncestor | src/chain.cpp:112-134 | the result is on both paths and nothing higher is |
| Chain.AreOnTheSameFork | src/chain.cpp:136-143 | true exactly if one path is a prefix of the other |
| Chain.CChain.ContainsIff | src/chain.h:166-168 | the height test finds exactly the blocks of the active chain |
| Chain.CChain.NextIff | src/chain.h:174-181 | the successor is the block of the chain whose predecessor this is |
| Chain.CChain.SetTip | src/chain.cpp:8-15 | the chain becomes the path to the tip, although the walk back stops at the first block already in place |
| Chain.CChain.FindFork | src/chain.cpp:49-60 | the last block of the path that is in the chain: everything up to it is, nothing after it |
| Chain.LocatorFalls | src/chain.cpp:17-39 | the heights of a locator fall strictly from the tip to the genesis block |
| Chain.LocatorDense | src/chain.cpp:17-39 | the first eleven entries have consecutive heights |
| Chain.LocatorGaps | src/chain.cpp:17-39 | after entry ten every step back is twice as long as the one before, down to the genesis block |
| Chain.LocatorShort | src/chain.cpp:17-39 | a locator has at most twelve entries more than the number of bits of the height |
| Chain.LocatorEntries | src/chain.cpp:17-39 | the entries are the hashes of the ancestors at exactly those heights |
| LimbShifts.LeftValue | src/arith_uint256.cpp:22-38 | limbs shifted left stand for the product with the power of two, modulo the width |
| LimbShifts.RightValue | src/arith_uint256.cpp:41-57 | limbs shifted right stand for the quotient by the power of two |
| Arith256.BaseUint.constructor | src/arith_uint256.h:56-66 | the number is the 64-bit value given |
| Arith256.BaseUint.Increment | src/arith_uint256.h:167-174 | adds one, modulo the width |
| Arith256.BaseUint.Decrement | src/arith_uint256.h:183-190 | subtracts one, modulo the width |
| Arith256.BaseUint.AddAssign | src/arith_uint256.h:134-142 | the sum modulo the width, also of a number with itself |
| Arith256.BaseUint.Inverted | src/arith_uint256.h:70-76 | the largest number minus this one |
| Arith256.BaseUint.Negated | src/arith_uint256.h:78-87 | the negative modulo the width |
| Arith256.BaseUint.SubAssign | src/arith_uint256.h:144-147 | the difference modulo the width, also of a number with itself |
| Arith256.BaseUint.CompareTo | src/arith_uint256.cpp:120-130 | the order of the numbers |
| Arith256.BaseUint.MulAssign32 | src/arith_uint256.cpp:60-68 | the product with a 32-bit number modulo the width |
| Arith256.BaseUint.MulAssign | src/arith_uint256.cpp:71-83 | the product modulo the width, also of a number with itself |
| Arith256.BaseUint.ShiftLeft | src/arith_uint256.cpp:22-38 | the product with a power of two modulo the width, for every shift |
| Arith256.BaseUint.ShiftRight | src/arith_uint256.cpp:41-57 | the quotient by a power of two, for every shift |
| Arith256.BaseUint.Bits | src/arith_uint256.cpp:174-187 | the position of the highest bit |
| Arith256.BaseUint.DivideLoop | src/arith_uint256.cpp:102-116 | shift and subtract computes quotient and remainder |
| Arith256.BaseUint.DivAssign | src/arith_uint256.cpp:86-117 | the quotient, also of a number by itself; fails exactly for a zero divisor |
| Compact.OverflowIff | src/arith_uint256.cpp:218-224 | the three-part test is true exactly if the value does not fit into 256 bits |
| Compact.SetCompact | src/arith_uint256.cpp:206-226 | the value is the magnitude modulo the width, overflow is flagged exactly if that loses something, and the sign is the sign bit of a mantissa other than zero |
| Compact.GetCompact | src/arith_uint256.cpp:228-249 | the result is a normal compact form of the number, with the sign only on a mantissa other than zero |
| Compact.CompactLoses | src/arith_uint256.cpp:228-249 | a compact form keeps the leading bytes and rounds down by exactly the bytes below them |
| Compact.CompactUnique | src/arith_uint256.cpp:228-249 | size and mantissa of a normal compact form are determined by the number |
| Compact.CompactRoundTrip | src/arith_uint256.cpp:206-249 | every normal compact form comes back from the number it stands for |
| Compact.ProofFormula | src/chain.cpp:82-86 | the formula with the inverted target is the quotient that it avoids computing |
| Compact.GetBlockProof | src/chain.cpp:74-87 | the work is 2^256 divided by target plus one, and zero for a negative, overflowing or zero target |

## Left out

- InvRequest: the 60-bit width of the sequence number, and Count and Size.
- Coins: best-block hashes, EmplaceCoinInternalDANGER, the memory pool of the map, cursors, and databases that fail to write.
- Coins.CoinsStack.AddCoins: assumes, as the source does, that a transaction that is neither a coinbase nor checked for overwriting does not create a visible coin.
- Cuckoo.Cache.constructor: the depth limit is a parameter instead of a floating-point logarithm.
- Cuckoo: concurrent lookups and memory orders.
- CheckQueue: stopping the worker threads, and memory orders; one step is one critical section or one check.
- HeadersSync: the difficulty rule, block proof, commitment bit and sum of work are functions given as parameters; the bound on the number of commitments is a parameter instead of being computed from times; the next locator.
- HeadersSync.Synchronise: the messages are continuous, which the caller checks first.
- AddrMan: Select and GetChance with their random bias, locking, logging, Clear, and the address map behind the buckets.
- AddrManFile: a file is the sequence of its records; the byte encoding of the stream and older formats are not modelled.
- Arith256: hexadecimal text, conversion to and from floating point, and the bitwise operators between two numbers.
- Chain: chain statistics, times, FindEarliestAtLeast, GetBlockProofEquivalentTime, and overflow of the locator step, which would need 2^31 blocks.
- Base58: the variants with a checksum.
- CashAddrDistance: that the code also detects five errors within 160 and six within 126 characters, which is a property of this one generator found by search.
- The rest of the node: script, mempool, validation, network messages, storage, wallet and user interfaces.
