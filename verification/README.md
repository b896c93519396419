# ALQO node: verified models of its stateful core

ALQO is a Bitcoin/PIVX-derived node with proof of stake and masternodes. This project models, in Dafny 4.11, the parts of it whose correctness depends on several data structures, several operations or several threads agreeing with each other, and proves what holds of them for all inputs, all runs or all interleavings.

| file | what it models |
|---|---|
| `AddrState.dfy`, `AddrOps.dfy` | the address manager as a value: five indexes over the same entries, every operation on them, and the invariant behind `Check_` |
| `AddrMan.dfy` | the address manager as the object it is, with its maps, its vector and its two bucket arrays updated in place; every method is proved to do what the value model says |
| `AddrStore.dfy`, `AddrRestore.dfy` | saving the address manager and restoring it under new ids; restoring files written by anything else |
| `Coins.dfy`, `CoinsCache.dfy`, `CoinsViews.dfy` | the coins of one transaction, spending and undoing; the write-back cache stack as a value and as linked objects |
| `Compressor.dfy`, `CoinsCodec.dfy` | VARINT, amount and script compression, and the packed form of a transaction's coins |
| `CheckQueue.dfy` | the parallel check queue as a state machine of critical sections |
| `Denominations.dfy`, `CoinSelection.dfy` | zerocoin denomination selection: the greedy passes, change, and the whole of mint selection |
| `Base58.dfy`, `Numerals.dfy` | base conversion in sized buffers, and the theory of positional numerals behind it |
| `Chain.dfy` | the block tree with its skip list and the active chain index |
| `StakeModifier.dfy` | stake modifier selection and what chains of modifiers look like |
| `Payments.dfy` | the masternode vote tally, the payment transaction and its check |
| `Sorting.dfy`, `Basics.dfy` | what the library sort does, and the few definitions that several models share |
| `Budget.dfy` | sharing out the budget and the finalized budget |

The style is the same throughout. Code that updates things step by step is a method or a class with its loops and their invariants, and its postcondition equates the result with a function or names a relation. What the code is for is then proved about that function or relation. Runs are sequences of operations from the initial state; run definitions constrain a step only from states that satisfy the invariant, so the run theorems do not assume what they conclude.

Hash functions, random draws, clocks and the network are parameters: the bucket hashes are arbitrary functions (reduced modulo the table sizes as in the code), each random draw is an arbitrary argument, and the selection hash is an arbitrary function. The denomination list is an arbitrary ascending list in which each value divides the next. The curve operations of public key compression are parameters subject to the law that decompression inverts compression.

## Where the code differs from what it says

- **Undo drops the coinstake flag.** When a spend takes the last output of a transaction, the undo record holds the transaction's data, but restoring copies only the coinbase flag, the height and the version. `Coins.UndoGivesBack` proves exactly when undo restores the coins, and `Coins.CoinStakeFlagIsLost` gives an input for which it does not. A coinstake has an empty first output (src/primitives/transaction.cpp:129-141), which must be spent too before the spend of another one is the last and the flag is lost.
- **`Add_` reports an address as new even when it drops it at once** for want of a slot. `AddrOps.NewcomerStays` proves exactly when it stays, and `AddrOps.NewcomerCanBeDropped` that, whatever the hashes, two announcements to a new manager can end with the second address dropped.
- **"Proof-of-stake block is always favored"** (src/kernel.cpp:104-106) is too strong. `StakeModifier.StakeWins` proves exactly when a proof-of-stake block is chosen among candidates in time; `StakeModifier.StakeFavoured` adds that a proof-of-work block chosen over one has a selection hash below 2^224, `StakeModifier.TwoCandidates` gives, for every hash function, the rounds of two in which one is, and `StakeModifier.StakeNotAlwaysFavoured` such a round for a hash function made up for it.
- **A stake with fewer than two outputs would be paid on top.** `FillBlockPayee` takes the masternode payment out of the stake only if there are two outputs or more; `Payments.FillConserves` is the exact condition. Its caller meets it: the stake it passes (src/wallet/wallet.cpp:2351) has the empty output and at least one more.
- **The first proof-of-stake block** is filled with the payment of the previous height, which is zero, and checked against its own. `Payments.PaymentChanges` gives the heights at which the two differ; `Payments.FilledAccepted`, for any tally, and `Payments.Registry.FillAndCheck`, for the methods one after the other, prove exactly when what was filled in is accepted; `Payments.FirstStakeRefused` is the case of that block, and `Payments.FirstStakeAt301` an input.
- **More than a hundred budget payments.** `SubmitFinalBudget` does not limit their number, `IsValid` does. `Budget.SubmittedAcceptable` proves that this is the only condition its budget can fail, and `Budget.TooManyPayments` that 101 proposals of the least amount make it fail.
- **The comment on "at least 6 signatures"** (src/masternode-payments.cpp:596, 601) goes with a constant of 2; the model uses 2.
- **Negative versions and heights** do not survive VARINT, and scripts over the size limit come back as a bare OP_RETURN: `CoinsCodec.RoundTripIsExact` is the exact condition under which unpacking gives back what was packed.
- **A negative time of an attempt, or a time of a success that is not positive,** is stored as it is, and then fails the address manager's own self-check; `AddrMan.Manager.Attempt` and `AddrMan.Manager.Good` say exactly when.
- **A file with the same address twice** can be restored to a manager that fails its own self-check, as `AddrRestore.TwiceIsNotConsistent` shows; it need not, as `AddrRestore.TwiceTheSameIsLost` does. `AddrRestore.RestoreIsExact` proves for every complete file exactly when the restored manager is consistent: there is a key, and every record that ends in a table has sensible times and shares its address with no other record that was read.
- **The limit on the number of mints** does not bind overpayments without a coin worth more than the target (src/denomination_functions.cpp:355-396). `CoinSelection.SelectMintsFromList` states exactly when the selection keeps to it, and `CoinSelection.LimitPassed` is an input for which it does not. A negative limit, compared as an unsigned number, is no limit for exact payments.
- **The header comment on the coins format** (src/coins.h:32-38) lists the bits of the code without the coinstake bit and asks the reader to adjust; the model follows `Serialize` and `Unserialize`, with weights 1, 2, 4, 8 and factor 16.

## Model

| member | source | states |
|---|---|---|
| AddrState.ConsistentPassesCheck | src/addrman.cpp:382-456 | the invariant kept by every operation implies each condition of the manager's own self-check, by error code |
| AddrState.CreateKeepsCore | src/addrman.cpp:90-100 | creating an unknown address keeps all five indexes in agreement, the new entry being the only one in no table |
| AddrState.SwapRandom | src/addrman.cpp:102-120 | swapping two places keeps the random order a permutation of the ids with exact back-pointers |
| AddrState.DeleteKeepsCore | src/addrman.cpp:122-134 | deleting an entry that no table holds keeps all indexes in agreement and the counters exact |
| AddrState.ClearKeepsCore | src/addrman.cpp:136-149 | clearing a new slot empties that slot only, takes one reference from its owner, and forgets the owner exactly if that was its last |
| AddrOps.UnbucketKeeps | src/addrman.cpp:153-163 | after an entry left all its new buckets its reference count is zero, so the assert holds, and the rest is intact |
| AddrOps.EvictKeeps | src/addrman.cpp:170-179 | the entry of a tried slot is known, tried and unreferenced, and taking it out keeps the rest in agreement |
| AddrOps.InsertKeeps | src/addrman.cpp:182-190 | entering an entry into a new slot survives the clearing of that slot, fills exactly that slot and keeps all indexes in agreement |
| AddrOps.RoomKeeps | src/addrman.cpp:169-192 | making room empties the tried slot, moves at most one entry back, to the one new slot of its own source, and forgets at most one single-reference entry |
| AddrOps.PromoteKeeps | src/addrman.cpp:192-196 | taking a free tried slot restores full consistency |
| AddrOps.MakeTriedKeeps | src/addrman.cpp:151-197 | promotion keeps the manager consistent, ends with the entry in its tried slot, keeps every tried entry known, demotes at most one and forgets at most one |
| AddrOps.NewIsSomewhere | src/addrman.cpp:225-240 | the bucket search for a new entry cannot fail, so the bail-out is dead |
| AddrOps.GoodKeeps | src/addrman.cpp:199-246 | a known exact service ends in its tried slot; other tried addresses stay known, at most one going back to new; at most one address is forgotten, a new one with one reference; the indexes stay in agreement, and the manager consistent exactly if the time is positive or the service unknown |
| AddrOps.TouchKeeps | src/addrman.cpp:316-333 | changing times, services and attempt counts keeps the manager consistent |
| AddrOps.SlottingKeeps | src/addrman.cpp:292-312 | the competition for a new slot keeps the manager consistent and leaves tried entries untouched |
| AddrOps.AddKeeps | src/addrman.cpp:248-314 | an announcement keeps the manager consistent and changes of tried entries only time and services |
| AddrOps.NewcomerStays | src/addrman.cpp:285-314 | an unknown address is kept exactly when its slot is free or its entry is terrible or has other slots; then it holds the slot; the only entry that can be forgotten for it is a terrible one with a single slot |
| AddrOps.SlotsCollide | src/addrman.cpp:21-33 | whatever the hashes, two of enough addresses get the same new slot from one source |
| AddrOps.NewcomerCanBeDropped | src/addrman.cpp:285-314 | whatever the hashes, there is a run of two announcements on a new manager after which the second address, reported as new, is unknown |
| AddrOps.RefreshAdvances | src/addrman.cpp:258-266 | news of a known address moves its time forward only, to the announced time less the penalty, and adds services only |
| AddrOps.KnownSpreads | src/addrman.cpp:258-312 | a known address is never forgotten or set back by an announcement; it gets one slot more exactly if it is a candidate and the slot is free or its entry terrible |
| AddrOps.SampleIsGood | src/addrman.cpp:466-477 | a sample names known, good addresses, no address twice, and misses no good entry it passed |
| AddrOps.StepKeeps | src/addrman.cpp:199-333 | every operation keeps the manager consistent |
| AddrOps.RunsPassCheck | src/addrman.cpp:382-456 | after any operations on a new manager every state passes every condition of the self-check |
| AddrMan.Manager.constructor | src/addrman.h:463-466 | a new manager is empty and consistent |
| AddrMan.Manager.Create | src/addrman.cpp:90-100 | the object gains the entry in all its indexes under the next id |
| AddrMan.Manager.SwapRandom | src/addrman.cpp:102-120 | both back-pointers follow the swap |
| AddrMan.Manager.Delete | src/addrman.cpp:122-134 | the object loses the entry from its maps, its order and its counter |
| AddrMan.Manager.ClearNew | src/addrman.cpp:136-149 | the arrays and maps change as clearing the slot prescribes; the assert on the count holds |
| AddrMan.Manager.LeaveNew | src/addrman.cpp:153-163 | the loop over 1024 buckets empties exactly the slots of the entry and ends with a count of zero |
| AddrMan.Manager.MakeRoom | src/addrman.cpp:169-191 | the evicted entry is in the new slot of its source with one reference; the assert that the slot is empty holds |
| AddrMan.Manager.MakeTried | src/addrman.cpp:151-197 | the object performs the promotion; its asserts hold |
| AddrMan.Manager.FindBucket | src/addrman.cpp:225-235 | a bucket that holds the entry, or the fact that none does, wherever the search starts |
| AddrMan.Manager.Good | src/addrman.cpp:199-246 | the object does what a successful connection prescribes, for any time; it stays consistent exactly if the time is positive or the service is not known |
| AddrMan.Manager.TakeSlot | src/addrman.cpp:292-312 | the slot goes to the newcomer or the newcomer is deleted, as the comparison of the two entries prescribes |
| AddrMan.Manager.Add | src/addrman.cpp:248-314 | the object stays consistent and does what an announcement prescribes; the result is whether a routable address was unknown |
| AddrMan.Manager.Attempt | src/addrman.cpp:316-333 | only the last try and the attempt count of a known exact service change; the object stays consistent exactly if the time is not negative or the service is not known |
| AddrMan.Manager.Connected | src/addrman.cpp:480-498 | the object stays consistent; only a time older than twenty minutes moves on |
| AddrMan.Manager.GetAddr | src/addrman.cpp:459-478 | only the random order changes, and stays a permutation; the result is the good part of a prefix of it, at most 23 per cent and 2500, and the prefix is everything unless the sample is full |
| AddrMan.Manager.WriteNew | src/addrman.h:304-314 | the records of the new entries in id order and the rank of every entry; the assert on the counter holds |
| AddrMan.Manager.WriteTried | src/addrman.h:315-323 | the records of the tried entries in id order; the assert on the counter holds |
| AddrMan.Manager.Serialize | src/addrman.h:291-338 | the file written is the one the value model describes |
| AddrMan.Manager.ReadNew | src/addrman.h:363-378 | a new entry is entered under the next id, with the slot of its source if rows cannot be used and it is free |
| AddrMan.Manager.ReadTried | src/addrman.h:384-399 | a tried entry is entered at its slot, or counted as lost |
| AddrMan.Manager.ReadIndex | src/addrman.h:407-416 | a reference is kept exactly if the entry exists, the position is free and the entry has fewer than eight |
| AddrMan.Manager.Prune | src/addrman.h:420-430 | exactly the entries that ended in no table are deleted |
| AddrMan.Manager.Unserialize | src/addrman.h:341-436 | reading into a new manager succeeds exactly for the right key size and a file that holds all it announces, and then gives the restored state |
| AddrStore.OrderRank | src/addrman.h:304-314 | a new entry is written at its rank |
| AddrStore.ListingLists | src/addrman.h:304-323 | every entry of a consistent manager is written once, new ones first, and the counters written are exact |
| AddrStore.Restored | src/addrman.h:341-436 | whatever a file says, the restored ids and random order agree; when all five indexes do is said by the next rows |
| AddrRestore.LoadedAgrees | src/addrman.h:357-418 | whatever a complete file holds, before pruning all indexes but that of the addresses agree, an address leads to the entry read last, and the entries and both tables are those the records and rows of the file give |
| AddrRestore.PrunedShape | src/addrman.h:420-430 | pruning takes out exactly the entries that no table holds, and every address that one of them has |
| AddrRestore.RestoreIsExact | src/addrman.h:341-436 | for every complete file the restored manager is consistent, and passes the check made at the end, if and only if there is a key, records that end in a table have sensible times, and no other record that was read has the address of one of them |
| AddrRestore.SourcePlaces | src/addrman.h:366-377 | without usable rows a new record ends in a table exactly if no earlier one has the slot of its source |
| AddrRestore.RestoreIsConsistent | src/addrman.h:341-436 | so a complete file with a key, no address twice and sensible times is restored to a consistent manager whatever the slots |
| AddrRestore.TwiceIsNotConsistent | src/addrman.h:341-436 | a file whose first two tried records have one address and different slots is not |
| AddrRestore.TwiceTheSameIsLost | src/addrman.h:381-401 | a file with the very same tried record twice is: the second one is lost |
| AddrStore.TriedEnters | src/addrman.h:383-400 | no tried entry of a saved manager is lost: their slots are distinct |
| AddrStore.IndexBack | src/addrman.h:403-418 | every saved reference is taken back at the position it was written from |
| AddrStore.NothingPruned | src/addrman.h:420-430 | nothing is pruned from a state in which a table holds every entry |
| AddrStore.SavedComplete | src/addrman.h:291-338 | a saved file holds as many records and rows as it announces, and its rows are usable |
| AddrStore.RenumberKeeps | src/addrman.h:341-436 | renumbering ids keeps a manager consistent |
| AddrStore.RestoreInvertsSave | src/addrman.h:291-436 | saving a consistent manager and restoring it loses no entry and gives a consistent manager with the same address, tried and new indexes up to the names of ids; only the random order and the times of last tries differ |
| Coins.Cleanup | src/coins.h:120-126 | only spent outputs at the end are dropped |
| Coins.Spend | src/coins.cpp:36-52 | spending succeeds exactly for an available output, and makes it and nothing else unavailable; the undo record holds the transaction's data exactly when nothing is left |
| Coins.UndoGivesBack | src/main.cpp:1976-1997 | undoing a spend restores the coins if and only if another output was unspent, or the transaction was no coinstake (at height zero: what was kept of it says the same) |
| Coins.CoinStakeFlagIsLost | src/main.cpp:1980-1987 | a coinstake transaction whose empty output is spent comes back from the undo of its other output without its flag |
| CoinsCache.FetchKeepsLookups | src/coins.cpp:86-102 | reading through the caches changes no lookup at any level |
| CoinsCache.FetchKeepsInv | src/coins.cpp:86-102 | entries pulled up by reads satisfy the meaning of their flags, fresh ones having nothing unspent below |
| CoinsCache.OpenKeepsView | src/coins.cpp:114-131 | opening a modification changes no view, and hands out what the view shows |
| CoinsCache.CloseEdits | src/coins.cpp:269-277 | closing it changes the view of that transaction only, even when a fresh pruned entry is erased |
| CoinsCache.BatchWrites | src/coins.cpp:165-200 | writing a batch makes the layer below show what the batch shows, and the assertion on fresh entries cannot fail |
| CoinsCache.WriteKeepsInv | src/coins.cpp:165-200 | the flags of the layer below stay right after a batch |
| CoinsCache.FlushKeepsView | src/coins.cpp:202-207 | a flush changes no view of the top and makes the view below equal to it |
| CoinsCache.HaveCoinsIsExact | src/coins.cpp:143-151 | testing for an empty output array is the same as testing for something unspent |
| CoinsCache.StoreRefines | src/txdb.cpp:53-72 | a database of unspent entries is where runs start: it satisfies the invariant and shows what its plain map holds |
| CoinsCache.StepRefines | src/coins.cpp:86-207 | each step of the cache stack is the same step on plain maps |
| CoinsCache.RunsRefine | src/coins.cpp:86-277 | over every run, at every depth, the stack of caches shows exactly what plain maps edited directly hold |
| CoinsViews.CoinsDb.BatchWrite | src/txdb.cpp:53-72 | dirty entries are stored or erased, clean ones ignored |
| CoinsViews.CoinsViewCache.FetchCoins | src/coins.cpp:86-102 | the linked caches fill as the value model says and the lookup is the stack's |
| CoinsViews.CoinsViewCache.HaveCoins | src/coins.cpp:143-151 | true exactly if something unspent is visible |
| CoinsViews.CoinsViewCache.ModifyCoins | src/coins.cpp:114-131 | one modification is open, and the stack is as opening it says |
| CoinsViews.CoinsViewCache.EndModify | src/coins.cpp:269-277 | the stack is as closing the modification says |
| CoinsViews.CoinsViewCache.BatchWrite | src/coins.cpp:165-200 | the loop over the batch, with its four cases and its assertion, writes the batch |
| CoinsViews.CoinsViewCache.Flush | src/coins.cpp:202-207 | the batch goes down one level and the cache is empty |
| Compressor.VarIntRoundTrip | src/serialize.h:391-420 | a number below the width is read back and the rest of the stream is untouched |
| Compressor.SignedVarIntRoundTrip | src/serialize.h:391-420 | a signed number survives exactly if it is not negative |
| Compressor.WriteVarInt | src/serialize.h:391-405 | the loop writes the digits of the encoding, most significant first |
| Compressor.DecompressInverts | src/compressor.cpp:138-181 | decompression inverts compression for every amount |
| Compressor.CompressInverts | src/compressor.cpp:138-181 | every code is the compressed form of exactly one amount |
| Compressor.AmountRoundTrip64 | src/compressor.cpp:138-181 | both laws hold in 64-bit arithmetic wherever the exact result fits |
| Compressor.CompressAmount | src/compressor.cpp:138-155 | the loop computes the compressed amount modulo 2^64, and the digit assert holds |
| Compressor.DecompressAmount | src/compressor.cpp:157-181 | the loop computes the amount modulo 2^64 |
| Compressor.SpecialFormInverts | src/compressor.cpp:44-127 | every script with a special form is rebuilt from it |
| Compressor.ScriptRoundTrip | src/compressor.h:70-103 | every script is read back, unless it is over the size limit |
| Compressor.OutRoundTrip | src/compressor.h:120-133 | an output is read back as what is kept of it |
| CoinsCodec.CalcMaskSize | src/coins.cpp:17-34 | the mask reaches to the last byte with an unspent output, and its nonzero bytes are counted |
| CoinsCodec.MaskCovers | src/coins.cpp:17-34 | every unspent output is one of the first two or has its bit in the mask |
| CoinsCodec.MaskRoundTrip | src/coins.h:212-219 | reading as many nonzero bytes as announced stops at the end of the mask with the right bits |
| CoinsCodec.OutsRoundTrip | src/coins.h:221-224 | the unspent outputs come back at their positions |
| CoinsCodec.HeaderFields | src/coins.h:202-211 | the header code determines both flags, both leading bits and the mask count, under either coding of the count |
| CoinsCodec.SomethingUnspent | src/coins.h:202-206 | the assert of the serializer holds for anything not fully spent |
| CoinsCodec.UnpackInvertsPack | src/coins.h:199-263 | unpacking inverts packing, up to tidying, for everything with something unspent |
| CoinsCodec.RoundTripIsExact | src/coins.h:199-263 | for coins as the cache keeps them, unpacking the packed form gives them back exactly if version and height are not negative and no unspent script is over the limit |
| CoinsCodec.Serialize | src/coins.h:200-227 | the bytes are the packed form |
| CoinsCodec.Unserialize | src/coins.h:230-263 | the result, or the failure on a short stream, is that of unpacking |
| CheckQueue.Queue.Add | src/checkqueue.h:145-157 | the queue and the count of pending checks grow together |
| CheckQueue.Queue.Section | src/checkqueue.h:76-119 | one critical section: cleaning up, then returning, waiting or taking a batch; the master is notified exactly when the count reaches zero |
| CheckQueue.Queue.Awake | src/checkqueue.h:101-119 | the critical section from a wake-up on |
| CheckQueue.RunBatch | src/checkqueue.h:117-124 | skipping checks after a failure does not change the verdict of the batch |
| CheckQueue.BatchCount | src/checkqueue.h:109-109 | a batch is never empty and never more than the queue |
| CheckQueue.TakeKeepsInv | src/checkqueue.h:104-118 | taking a batch moves checks from the queue to the thread and loses none |
| CheckQueue.ReturnIsConjunction | src/checkqueue.h:90-99 | when the master returns nothing is pending anywhere and its result is the conjunction of all checks of the session |
| CheckQueue.StepKeepsInv | src/checkqueue.h:68-157 | every step of every thread keeps the invariant, and a return from waiting gives the conjunction of everything added since the last one, skipped checks included |
| CheckQueue.ReachableStates | src/checkqueue.h:68-188 | in every interleaving the pending count is queue plus batches in flight, the threads not idle are those with a batch, a new controller finds the queue idle, and a waiting master is notified or some worker has a batch |
| CheckQueue.IdleMeansDone | src/checkqueue.h:163-167 | what a new controller asserts of the counters holds exactly if the queue is empty, no thread holds a batch and no check added since the last wait failed |
| CheckQueue.StepAdvances | src/checkqueue.h:68-142 | while no checks are added, every step that neither returns nor is an idle wake-up brings the end nearer, and an idle wake-up does not put it off |
| CheckQueue.NeverStuck | src/checkqueue.h:68-142 | while the master waits or works, some thread inside can return or bring the end nearer, without waking for no reason |
| CheckQueue.SessionsEnd | src/checkqueue.h:68-142 | in every interleaving without new checks the steps before the master returns, idle wake-ups aside, are bounded by what is left to do |
| Denominations.GreedyAtMost | src/denomination_functions.cpp:39-61 | the greedy pass never overshoots |
| Denominations.GreedyHitsMultiple | src/denomination_functions.cpp:39-61 | coins worth enough contain any amount that all their denominations divide |
| Denominations.Exchange | src/denomination_functions.cpp:39-61 | small coins worth more than some large ones can be exchanged for them with no more coins |
| Denominations.GreedyIsExact | src/denomination_functions.cpp:39-61 | the greedy pass meets every amount the holdings can meet exactly, with the fewest coins |
| Denominations.ChangeIsMinimal | src/denomination_functions.cpp:66-86 | no other coins make up the amount with fewer coins than the change |
| Denominations.ChangeIsComplete | src/denomination_functions.cpp:66-86 | change adds up exactly for the multiples of the lowest denomination |
| CoinSelection.CountCoins | src/denomination_functions.cpp:11-19 | the number of coins in a selection |
| CoinSelection.HighestHeldBelow | src/denomination_functions.cpp:24-35 | the highest denomination held below a position, or none |
| CoinSelection.GetSpendCoins | src/denomination_functions.cpp:39-61 | the nested loops compute the greedy selection |
| CoinSelection.GetChange | src/denomination_functions.cpp:66-86 | the nested loops compute the change |
| CoinSelection.GetIdealSpends | src/denomination_functions.cpp:92-116 | true if and only if some sub-collection of the unused mints is worth the target |
| CoinSelection.GetSpends | src/denomination_functions.cpp:121-141 | as many different unused mints of each denomination as asked for; their value is that of the selection |
| CoinSelection.FillUp | src/denomination_functions.cpp:247-259 | exactly one coin is added, the lowest that covers the rest, if there is one |
| CoinSelection.OverlapIsSurplus | src/denomination_functions.cpp:267-282 | removing coins that would come back as change never drops below the target |
| CoinSelection.MinimizeChange | src/denomination_functions.cpp:212-301 | the alternative selection, exactly if it has fewer coins of change and is within the limit, and otherwise the one it was given; the alternative is within the holdings and worth at least the target whenever a coin covers |
| CoinSelection.SomeCoinCovers | src/denomination_functions.cpp:247-259 | a covering coin exists whenever more than the target is held and no exact payment exists |
| CoinSelection.OverReaches | src/denomination_functions.cpp:355-375 | taking the highest denominations first stays within the holdings and meets the target if they do |
| CoinSelection.CalculateChange | src/denomination_functions.cpp:309-398 | a selection within the holdings and the coin count of the change of its surplus; it is worth more than the target whenever more is held and no exact payment exists; it keeps to the limit exactly if a coin is worth more than the target and the limit is at least one or, without such a coin, if the selection of highest denominations or an alternative with less change is within it |
| CoinSelection.SelectMintsFromList | src/denomination_functions.cpp:404-436 | different unused mints worth at least the target or none; an exact payment within the limit is always found and with the fewest mints; an overpayment is found when no exact payment exists; the exact condition under which the limit is kept; the number of mints needed is reported only if all exact payments are over the limit |
| CoinSelection.LimitPassed | src/denomination_functions.cpp:355-396 | an input for which the limit is not kept |
| Base58.MulAdd | src/base58.cpp:43-48 | one pass over the buffer multiplies and adds; what does not fit is the carry |
| Base58.EncodeBufferSuffices | src/base58.cpp:93-93 | the encoding buffer holds any number of that many bytes |
| Base58.DecodeBufferSuffices | src/base58.cpp:35-35 | the decoding buffer holds any number of that many digits |
| Base58.Absorb | src/base58.cpp:42-49 | the buffer holds the number read so far, and the assert on the carry holds |
| Base58.EncodeBase58 | src/base58.cpp:84-117 | the loops compute the encoding: a '1' per leading zero byte and the number in base 58 |
| Base58.DecodeBase58 | src/base58.cpp:23-67 | the loops compute the decoding, refusing anything but one word of alphabet characters between white space |
| Base58.DecodeInvertsEncode | src/base58.cpp:23-117 | every byte string decodes to itself after encoding, leading zeros included |
| Base58.EncodeInvertsDecode | src/base58.cpp:23-117 | encoding what a text decodes to gives the text back without the white space around it |
| Base58.DecodesWhenSpelled | src/base58.cpp:23-67 | a text is decoded exactly when everything between the white space around it is in the alphabet, and then as that part alone would be |
| Base58.CheckedTextsAreEncodings | src/base58.cpp:129-153 | a text is accepted for a payload if and only if it is, without the white space around it, the encoding of the payload with its checksum |
| Chain.GetSkipHeight | src/main.cpp:3567-3576 | a skip always leads strictly back |
| Chain.BlockIndex.constructor | src/main.cpp:3606-3610 | a new block's skip pointer leads to its ancestor at the skip height, so the whole path is linked |
| Chain.BlockIndex.GetAncestor | src/main.cpp:3578-3599 | following skip pointers finds the ancestor at the height that single steps would find |
| Chain.ActiveChain.SetTip | src/chain.cpp:13-24 | the vector becomes the whole path of the new tip, although rewriting stops early |
| Chain.ActiveChain.FindFork | src/chain.cpp:55-62 | the highest block common to both paths: they agree at every height up to it and at none above |
| Chain.ActiveChain.GetLocator | src/chain.cpp:26-53 | the hashes of the ancestors at the locator heights, whether or not the start is on the chain |
| Chain.LocatorDescends | src/chain.cpp:26-53 | locator heights start at the block, strictly descend and end at genesis |
| Chain.LocatorIsLogarithmic | src/chain.cpp:26-53 | a locator has at most twelve entries more than the binary logarithm of the height |
| StakeModifier.GetSelectionInterval | src/kernel.cpp:69-75 | the selection interval is the sum of the 64 sections |
| StakeModifier.GetLastStakeModifier | src/kernel.cpp:46-59 | the modifier and time of the nearest generating block, or zero |
| StakeModifier.SelectBlockFromCandidates | src/kernel.cpp:80-124 | succeeds exactly if a candidate is left, with the least selection hash among those in time, the earlier on a tie, or the first left if none is in time |
| StakeModifier.BestIsUnique | src/kernel.cpp:80-124 | the choice of a round is unique |
| StakeModifier.StakeWins | src/kernel.cpp:104-120 | among candidates in time a proof-of-stake block is chosen exactly when one of them comes before every proof-of-work candidate |
| StakeModifier.StakeFavoured | src/kernel.cpp:104-120 | a proof-of-work block chosen although a proof-of-stake block is in time has a selection hash below 2^224 |
| StakeModifier.TwoCandidates | src/kernel.cpp:104-120 | for every hash function, of one candidate of each kind the proof-of-work block, coming first, is chosen exactly if its hash is at most the other's divided by 2^32 |
| StakeModifier.StakeNotAlwaysFavoured | src/kernel.cpp:104-120 | for some hash function a proof-of-work block is chosen although a proof-of-stake block is in time |
| StakeModifier.ByTimeDistinct | src/kernel.cpp:180-180 | sorting the candidates loses and adds none and keeps their hashes distinct |
| StakeModifier.CollectRecent | src/kernel.cpp:172-179 | the unbroken run of recent blocks up to the previous one, in chain order |
| StakeModifier.CandidatesResolve | src/kernel.cpp:167-180 | the candidates are indexed blocks of the chain, each once and by time, and there is at least one |
| StakeModifier.OneLeft | src/kernel.cpp:190-192 | a round never runs out of candidates, so its error exit is dead |
| StakeModifier.PicksDistinct | src/kernel.cpp:186-199 | no block is picked twice |
| StakeModifier.BitOfValue | src/kernel.cpp:193-194 | bit r of the modifier is the entropy bit of the block picked in round r |
| StakeModifier.ValueFits | src/kernel.cpp:193-194 | the modifier fits as many bits as there were rounds |
| StakeModifier.DrawBits | src/kernel.cpp:182-199 | the rounds pick the choices of successive rounds and pack their bits; no round fails |
| StakeModifier.ComputeNextStakeModifier | src/kernel.cpp:139-227 | a modifier is generated exactly if one is due, drawn from the candidates; otherwise the last one is kept; the error exits are dead |
| StakeModifier.AddToChain | src/main.cpp:2918-2923 | giving a new block its modifier extends a chain that was built that way |
| StakeModifier.CarriesLast | src/chain.h:335-340 | every block carries the modifier of the nearest generating block up to itself |
| StakeModifier.GeneratesWhenDue | src/kernel.cpp:149-165 | a block generates exactly if it and its parent are in later intervals than the last generating block |
| StakeModifier.GeneratorsAdvance | src/kernel.cpp:149-165 | generating blocks lie in strictly later and later intervals |
| StakeModifier.ModifiersDetermined | src/kernel.cpp:139-227 | chains that agree on their blocks agree on all modifiers, whatever else their nodes have indexed |
| Payments.AddPayee | src/masternode-payments.h:105-118 | the first entry of the payee is credited, or one is appended |
| Payments.GetPayee | src/masternode-payments.h:120-133 | the first entry with the most votes |
| Payments.AddKeeps | src/masternode-payments.cpp:546-571 | counting a vote keeps the blocks equal to the tally of the votes |
| Payments.CleanKeeps | src/masternode-payments.cpp:678-705 | erasing a height's tally with its old votes keeps the two equal |
| Payments.Registry.AddWinningMasternode | src/masternode-payments.cpp:546-571 | a vote is recorded and counted once, or refused because its block or itself is unknown or known |
| Payments.Registry.CleanPaymentList | src/masternode-payments.cpp:678-705 | erasing while iterating removes exactly the old votes and their heights |
| Payments.Registry.Clear | src/masternode-payments.h:246-251 | both maps are empty |
| Payments.Registry.GetBlockPayee | src/masternode-payments.cpp:506-513 | a payee with a plurality of the votes for the height; none exactly if there are no votes |
| Payments.Registry.CheckTransaction | src/masternode-payments.cpp:667-676 | a transaction passes exactly if there is no tally for the height or the tally accepts it |
| Payments.RunsTally | src/masternode-payments.cpp:546-705 | after any operations the blocks are exactly the tally of the votes, by height and payee, each payee once |
| Payments.PaymentChanges | src/main.cpp:1641-1652 | the payment of a height differs from that of the next exactly at the end of proof of work, or of the swap if that is later |
| Payments.FillBlockPayee | src/masternode-payments.cpp:345-401 | the payment is the last output; each stake output but the first gives up an equal part and the last one the remainder; a mined block has two outputs |
| Payments.FillConserves | src/masternode-payments.cpp:375-394 | the total output value of a stake is unchanged if and only if it has two outputs or more or nothing is paid |
| Payments.IsTransactionValid | src/masternode-payments.cpp:573-633 | accepted exactly if no payee has two votes or one that has is paid exactly the required amount |
| Payments.LeaderAccepted | src/masternode-payments.cpp:573-633 | paying the leader of the tally the required amount is accepted |
| Payments.UnderpaidRefused | src/masternode-payments.cpp:573-633 | paying it anything else is accepted only by a tally without a binding payee |
| Payments.OthersAreGiven | src/masternode-payments.cpp:371-394 | whether another output pays a binding payee the required amount can be told from the outputs before the filling |
| Payments.FilledAccepted | src/masternode-payments.cpp:345-401 | for any tally, a transaction filled with its leader is accepted exactly if the payment is the same at both heights, or no payee is binding, or an output given before pays one that is |
| Payments.NoOtherPays | src/masternode-payments.cpp:371-394 | no other output pays a binding payee if none went to one before the filling |
| Payments.FirstStakeRefused | src/masternode-payments.cpp:345-401 | the first block after proof of work is refused by any tally with a binding leader unless another output pays a binding payee |
| Payments.FirstStakeAt301 | src/masternode-payments.cpp:345-401 | one payee with two votes refuses a stake on top of the last proof-of-work block |
| Payments.Registry.FillAndCheck | src/masternode-payments.cpp:345-401 | filling in the payee of the next height and checking the result there: it passes exactly if there are no votes, or the payment does not change, or no payee is binding, or an output given before pays one that is |
| Budget.CountVotes | src/masternode-budget.cpp:1645-1669 | the number of valid votes for a choice |
| Budget.ByVotesPermutes | src/masternode-budget.cpp:784-784 | ranking loses and adds no proposal |
| Budget.OrderIsUnique | src/masternode-budget.cpp:759-766 | without ties the ranking does not depend on the order proposals came in |
| Budget.MarksShare | src/masternode-budget.cpp:804-834 | going down the ranking, a proposal is marked exactly if it passes and what is left of the total covers it |
| Budget.ShareOut | src/masternode-budget.cpp:804-834 | the loop with its running total chooses the marked proposals and allots them their amounts |
| Budget.SharesFit | src/masternode-budget.cpp:816-820 | what is shared out never exceeds the total budget |
| Budget.SharesUnique | src/masternode-budget.cpp:804-834 | there is one way to share out |
| Budget.GetBudget | src/masternode-budget.cpp:769-837 | the chosen proposals, in order of net votes, are those that the share-out of the next cycle marks |
| Budget.NextCycleStarts | src/masternode-budget.cpp:149-149 | the start computed is a cycle boundary, and the next one after the tip |
| Budget.GetTotalPayout | src/masternode-budget.cpp:1970-1979 | the sum of the payments |
| Budget.IsValid | src/masternode-budget.cpp:2036-2104 | the conjunction of the conditions on start, length, name, fee, payout and age |
| Budget.SubmitFinalBudget | src/masternode-budget.cpp:176-193 | the submitted budget pays the chosen proposals their allotments from the next cycle on; nothing is submitted exactly if none is chosen |
| Budget.PayoutIsAllotted | src/masternode-budget.cpp:180-186 | the payment list pays out what was allotted |
| Budget.SubmittedAcceptable | src/masternode-budget.cpp:2036-2104 | at an unchanged tip the submitted budget meets every condition if and only if it has at most a hundred payments |
| Budget.AllChosen | src/masternode-budget.cpp:804-834 | proposals that all pass and together fit are all chosen |
| Budget.TooManyPayments | src/masternode-budget.cpp:2036-2104 | an input at which a submitted budget is not acceptable: 101 passing proposals within the total budget of the main network |

## Left out

- `Select_` and `GetChance` of the address manager: selection ends with probability one only, and weighs entries in floating point.
- `Clear` of the address manager: it empties neither map of entries, so restoring is modelled on a new manager only.
- Streams under the address manager's file: a file is the record of what the stream holds; its bytes are not modelled.
- AddrMan.Manager.Unserialize: negative entry counts are not modelled, with which ids would run through the mark of an empty slot; what a manager holds after a failed read is left open.
- AddrMan.Manager.Add: the draw with odds one in two to the number of references is an arbitrary boolean, and routability is an argument.
- `GetSerializeSize` of coins: it computes the header code with factor 8 where the serializer uses 16, so it is not the length of what is written.
- `GetBestBlock` and the best-block hash of the coins views, and LevelDB below them: the bottom layer is a plain map.
- CoinsCache.RunsRefine: only the top cache is modified, and no modification stays open across other operations, as the code asserts.
- `ClearUnspendable` and `FromTx` of coins: filling a record from a transaction is an arbitrary edit of the cache.
- Compressor.SpecialFormInverts: whether a public key is valid, and its decompression, are parameters with the inverse law.
- Script compression is modelled on values: `Compress` and `Decompress` fill buffers by copying, and the copies are slices here.
- CheckQueue.ReachableStates: thread interruption and `fQuit` are not modelled; notify-one reaches an arbitrary waiting worker or none, waiting threads may also wake without a notification, and a check is its outcome.
- CheckQueue.SessionsEnd: that a thread which can step does so, which is up to the scheduler, is not modelled.
- Integer widths: sequence lengths, counters, heights and amounts are unbounded, except in VARINT and amount compression, where 32 and 64 bits are written out.
- CoinSelection.SelectMintsFromList: targets are not negative, mints carry their denomination and whether they are used, nothing else, and the map of denominations held is the count of the unused mints listed; the code takes the two as separate arguments.
- `listSpends` and `getDenomWithMostCoins`: printing, and a lookup nothing here depends on.
- `CBase58Data`, addresses and keys, and the double hash behind the checksum, which is an arbitrary function with four bytes of result.
- `GetBlockTrust`, `Next`, `Genesis` and the proof-of-stake tip of the chain: one-line expressions or fixed-width arithmetic without its library.
- `CheckStakeKernelHash`, `CheckProofOfStake` and the stake modifier checksum: they depend on disk reads, transaction lookup or hashes only.
- StakeModifier.AddToChain: of adding a block to the index only the modifier is modelled; the modifier is a natural number below 2^64, and setting a clear bit is addition.
- `CanVote`, `IsScheduled`, message handling and signatures of masternode payments: `CanVote` remembers only the last height, so one vote per masternode and height does not follow from it.
- Payments.FillBlockPayee: the payee is an argument, whether voted for or the fallback of the masternode manager; the double-precision factor 0.6 is exact sixty per cent.
- `IsPaidAlready`, budget votes with their timing rules, collateral and the finalization window: conditions on time and on transactions elsewhere.
- Budget.GetBudget: votes are taken as already marked valid or not, the total budget is an arbitrary function of the height (that of the main network in `Budget.TooManyPayments`), and allotments are those of the proposals returned; the code also resets, in place, that of a passing proposal that did not fit.
- Payments.Registry.CleanPaymentList: the height of the tip and the limit are arguments.
- Networking, relay, RPC, wallet, mining and initialization: input and output around the parts modelled.
