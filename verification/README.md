# A verified model of the local energy market

Bidders place encrypted buy and sell bids on a ledger, slot by slot; a regulator ends each slot; the
chaincode then decrypts the slot's bids and clears the market by a double auction. This project models
that system in Dafny and proves what its parts promise, alone and together.

- **Auction** (`AuctionCurves`, `AuctionStack`, `AuctionTies`, `AuctionSettle`). `Stack` and `Settle`
  over arrays, with every tie-break `sort.Sort` may choose. The answer is tied to the demand and supply
  curves, defined on multisets: it clears the most units any price can clear, and does not depend on the
  order of the bids.
- **LRU container** (`LruSpec`, `LruContainer`). The linked list with two sentinels and the map into it,
  as heap objects, refine a sequence ordered by last use. The parameter `repair` says whether overwriting
  a key decrements the length; the code does not.
- **Ledger** (`LedgerKeys`, `LedgerModel`, `LedgerContract`, `LedgerCollections`, `LedgerClosure`,
  `LedgerCounters`, `LedgerCodec`). The contract as a class whose every invocation is one step of a
  transition relation over the key-value store and the counters. The parameter `exp` is the experiment;
  `agreed` says whether `markEnd` writes the key that the late guard reads; the codec stands for JSON,
  RSA and PEM. Which store accesses fail is an arbitrary part of each call.
- **One book** (`LedgerBook`, `LedgerTwoModels`, `LedgerSealed`). Over every history of bids, posted keys
  and other calls the shared maps of experiment 1 and the sliced keys of experiment 3 hold the same
  abstract book and settle alike, up to the one place where they part. In experiment 2 the regulator's
  key opens exactly the bids sealed for it.
- **Timing** (`Timing`, `Fanout`, `Broadcasting`, `Pipeline`). Heights become slots, slots are fanned out
  to bounded queues, and the regulator ends the slot before; one transition system, any interleaving.
- **Bidder and statistics** (`Bidder`, `BidderMemory`, `KeyPath`, `Stats`, `SlotTotals`,
  `LedgerEnergy`). The retry loop, the container that remembers which bids still need their key, the path
  of a key from the ledger's answer to the bid it opens, and the fold of reported lines into a slot's
  energy balance.

Every loop of the source is a method proved against a specification function or relation; the properties
are lemmas about those. `dafny verify dfyconfig.toml` checks everything.

## Where the code is not what one would expect

- The late guard of `bid` and `postKey` reads `<slot>-markEnd` (`chaincode/bid.go:24`,
  `chaincode/postkey.go:25`), but `markEnd` writes `<slot>-markEnd-<tx>` (`chaincode/markend.go:24`). As
  written nothing is ever late (`AsWrittenNothingIsLate`, `OpenAfterEndRun`). The closure property is
  proved for agreeing keys.
- Even then a key posting is guarded by the slot it is sent under, while the key it writes is taken from
  its payload: one sent under an open slot can write the book of a closed one (`ClosedBookWrittenExactly`
  says exactly when, `StrayRun` is such a run).
- The comment on `Stack` (`chaincode/dauction.go:102-104`) promises units that decrease monotonically.
  Across different prices they do (`StackMonotone`); among equal prices they need not
  (`StackTiesUnordered`, and `StackFallsExactly` for the exact condition). The answer of `Settle` does
  not depend on it unless a bid with negative units shares its price with another.
- `Put` does not decrement the length when it overwrites (`cmap/cmap.go:68-70`). `Drift` gives the exact
  error, `CapacityExactly`, `CounterBoundExactly` and `PanicsExactly` the runs it harms. A bidder that
  both buys and sells overwrites once a slot, so its container of capacity 100 counts past it from
  the second bid of its 51st slot (`RecentBidKeysOverflow`) and from then on only grows. That needs a
  `TraceLength` above 50 (`chaincode/schema/const.go:18` sets 35 and allows up to 35036).
- A retry after a commit whose answer was lost is harmless in experiment 1 and counts the bid twice in
  experiment 3 (`RepeatedCommitShared`, `RepeatedCommitSliced`), where the energy balance of the slot can
  then go negative (`TwiceBoughtOverdraws`).
- A side with bids but no posted key makes `markEnd` fail in experiment 1, and is an empty side in
  experiment 3. Where the keys agree the slot then stays open in one and is closed in the other
  (`KeylessEndDiverges`).
- A key posting whose own data does not decode is rejected without being counted
  (`chaincode/postkey.go:42-44`), although `README.md:194` says that failing to decode call arguments is
  (`PostingErrors`).
- A full subscriber queue ends the walk over the subscribers (`slotnotifier/notifier.go:84-85`), so a
  slow subscriber can cost others a notification (`MissesExactly`, `SlowSubscriberRun`).
- When something was traded, a slot's cell reconciles only if the mark line is the last of the slot and
  not the only one (`ReconcilesExactly`): a first line is taken over without deducting what was traded,
  and a later line overwrites the traded quantity.

## Model

| member | source | states |
|---|---|---|
| `AuctionStack.Swap` | chaincode/dauction.go:44-46 | two entries change places, the bids stay the same multiset |
| `AuctionStack.RunningSums` | chaincode/dauction.go:117-126 | the new array holds, at each position, the price there and the exact sum of units up to it |
| `AuctionStack.Stack` | chaincode/dauction.go:105-139 | the caller's array is only permuted (into the first sort order); the result is some re-sorting of the running sums of some price order of the bids, so every tie-break of both sorts is covered |
| `AuctionStack.RunningIsCurve` | chaincode/dauction.go:107-126 | unless a bid with negative units shares its price, a running sum never exceeds the side's total units at prices at least (buyers) or at most (sellers) its own, and the last one at each price equals it |
| `AuctionStack.StackBelowCurve` | chaincode/dauction.go:105-139 | every stack entry carries a bid's price and at most the cumulative curve there |
| `AuctionStack.StackMeetsCurve` | chaincode/dauction.go:105-139 | for every bid the stack has an entry with the bid's price and exactly the cumulative curve there: the largest entry at a price is the curve |
| `AuctionStack.StackPrices` | chaincode/dauction.go:119-138 | the output prices are a permutation of the input prices |
| `AuctionStack.StackMonotone` | chaincode/dauction.go:102-104 | across strictly different prices the units decrease along the stack, as the comment promises |
| `AuctionTies.StackFallsExactly` | chaincode/dauction.go:102-104 | with non-negative units: every stack of a side lists falling units, as the comment promises, if and only if no bid with units to trade shares its price with another bid |
| `AuctionStack.StackTiesUnordered` | chaincode/dauction.go:102-104 | an input for which the promise fails: two bids at one price, stacked with rising and with falling units |
| `AuctionSettle.Matches` | chaincode/dauction.go:66-76 | the candidate list holds exactly the matches of the feasible pairs: midpoint price, common units |
| `AuctionSettle.MatchExactly` | chaincode/dauction.go:74-75 | a match is the one point as far in price from the buyer as from the seller, whose units are those of one side and within the other's |
| `AuctionSettle.BestOf` | chaincode/dauction.go:78-97 | the answer is in the list and lexicographically greatest by units, then price; `result[0]` is in bounds |
| `AuctionSettle.Settle` | chaincode/dauction.go:56-100 | the answer is one `Settles` admits for the two multisets of bids, and both inputs are only permuted |
| `AuctionSettle.SettleClears` | chaincode/dauction.go:56-100 | whatever the four sorts do with ties, the answer is the greatest match of the two cumulative curves, described without any order |
| `AuctionSettle.SettleDeterministic` | chaincode/dauction.go:56-100 | order independence: two calls on the same multisets of bids give the same price and units, or the same error, as long as no bid with negative units shares its price with another of its side |
| `AuctionSettle.NegativeUnitsOrderMatters` | chaincode/dauction.go:56-100 | with such a tie two tie-breaks can give different answers |
| `AuctionSettle.VolumeOptimal` | chaincode/dauction.go:82-97 | the returned units are the smaller of demand and supply at the returned price, and no real price makes that larger |
| `AuctionSettle.HighestMidpoint` | chaincode/dauction.go:89-95 | no buyer and seller that can trade have more units in common than are cleared, and none with just as many have a higher midpoint |
| `AuctionSettle.ClearingPair` | chaincode/dauction.go:69-97 | the price is the midpoint of a buyer's and a seller's price, and the units are the smaller of demand and supply at these two prices; with HighestMidpoint, the price is the greatest such midpoint |
| `AuctionSettle.PriceWithinBids` | chaincode/dauction.go:69-76 | the price lies between a seller's and a buyer's, and inside any interval that holds all bid prices; for any units |
| `AuctionSettle.NoPriceExactly` | chaincode/dauction.go:60-63 | ErrNoPrice if and only if every buyer's price is below every seller's; for any units |
| `AuctionSettle.NoPriceNoMarket` | chaincode/dauction.go:60-83 | with positive units: ErrNoPrice if and only if no real price has both positive demand and positive supply |
| `AuctionSettle.TradedWithinReported` | chaincode/dauction.go:69-99 | the traded units are non-negative and at most the volume of either side, also when only some of the reported bids were settled |
| `LruContainer.RemoveNode` | cmap/dll.go:9-12 | the chain without that node, linked both ways |
| `LruContainer.AddToTail` | cmap/dll.go:14-18 | the chain with the new node just before the tail sentinel |
| `LruContainer.MoveToTail` | cmap/dll.go:20-23 | the chain with that node moved to just before the tail sentinel |
| `LruContainer.ChainDistinct` | cmap/cmap.go:16 | no node occurs twice between head and tail: mutually inverse pointers alone imply it |
| `LruContainer.New` | cmap/cmap.go:22-39 | no container exactly for a capacity below one; otherwise an empty, valid one |
| `LruContainer.Container.Get` | cmap/cmap.go:42-53 | refines `GetStep`: the stored value if the key is live, and the entry becomes the most recent; map and list keep holding the same nodes |
| `LruContainer.Container.MakeRoom` | cmap/cmap.go:65-78 | the removals before an insertion: drops the old entry of the key, else the head entry at capacity; panics exactly when the counter stands at capacity and the list is empty |
| `LruContainer.Container.Put` | cmap/cmap.go:56-86 | refines `PutStep`, repaired or as written, including when it panics |
| `LruContainer.Container.Delete` | cmap/cmap.go:89-102 | refines `DeleteStep`; the answer says whether the key was live, and it no longer is |
| `LruSpec.RunRecent` | cmap/cmap.go:42-102 | after any run the entries are duplicate-free, listed from least to most recently used, each with the value last put under its key |
| `LruSpec.EvictsLeastRecentlyUsed` | cmap/cmap.go:72-77 | a `Put` of a new key at capacity drops a key if and only if its last use is the oldest of all |
| `LruSpec.OnlyEvictionDrops` | cmap/cmap.go:56-102 | nothing but that eviction, or deleting the key, ever drops a key |
| `LruSpec.DeleteRemoves` | cmap/cmap.go:89-102 | a deleted key is gone, and every other key stays |
| `LruSpec.RepairedRun` | cmap/cmap.go:56-102 | with the length repaired on overwrite every run of Get, Put and Delete finishes, the counter is the number of entries and at most the capacity |
| `LruSpec.Drift` | cmap/cmap.go:65-83 | as written, the counter minus the number of entries is the number of overwriting Puts so far, in every run that does not panic |
| `LruSpec.ExactLengthIffNoOverwrite` | cmap/cmap.go:65-83 | as written, the counter is exact if and only if no Put overwrote |
| `LruSpec.CounterBoundExactly` | cmap/cmap.go:67-83 | as written, the counter is at most the capacity after every operation of a run if and only if no Put overwrote while it stood at the capacity |
| `LruSpec.PanicsExactly` | cmap/cmap.go:72-76 | as written, the next operation of a run panics if and only if it is a Put, the container is empty, and the overwriting Puts so far equal the capacity |
| `LruSpec.OverwritesCostPlaces` | cmap/cmap.go:72-83 | within the bound each overwrite has cost one place for good: entries and overwrites together are at most the capacity |
| `LruSpec.OverfullNeverEvicts` | cmap/cmap.go:72-77 | past the capacity nothing is evicted again: until a Delete exactly the keys held and the keys put since are live |
| `LruSpec.OvergrowthRun` | cmap/cmap.go:72-83 | for every capacity and every excess a run after which the entries exceed the capacity by just that many |
| `LruSpec.CapacityExactly` | cmap/cmap.go:7-11 | when the documented capacity holds, as written: at most cap entries after every operation of a run if and only if no Put of a new key meets a full container after an overwriting Put |
| `LruSpec.Unbounded` | cmap/cmap.go:7-11 | otherwise no bound holds on the entries, whatever the capacity |
| `LruSpec.PanicWitness` | cmap/cmap.go:73-76 | the smallest panic: capacity 1, put, overwrite, delete, put |
| `LedgerContract.Contract.Get` | chaincode/wrappers.go:14-37 | the stored value, nothing, or a refused read that bumps the read-error counter |
| `LedgerContract.Contract.Put` | chaincode/wrappers.go:40-62 | the store with that one key set, or a refused write that bumps the write-error counter |
| `LedgerContract.Contract.UpsertEntry` | chaincode/bid.go:48-73 | read the map under a key or start one, set one entry, write it back; the error paths leave the store alone |
| `LedgerContract.Contract.PostBid` | chaincode/bid.go:23-96 | the whole new state and response of `bid`: late guard and its counters, shared map (exp 1) or own key (exp 2, 3) |
| `LedgerContract.Contract.PostKey` | chaincode/postkey.go:24-101 | the whole new state and response of `postKey` in the three experiments |
| `LedgerContract.DecodeTable` | chaincode/markend.go:192-250 | in any order of the map: one outcome per stored bid; the collection holds the good ones and the counters count the bad ones |
| `LedgerContract.Iterate2` | chaincode/markend.go:269-303 | the same for the iterator of exp 2, which fails exactly when it breaks off before the last entry |
| `LedgerContract.Iterate3` | chaincode/markend.go:322-388 | the same for the iterator of exp 3, skipping entries that hold private keys |
| `LedgerContract.Contract.NewBidCollection1` | chaincode/markend.go:154-251 | the collection of exp 1, its failures and every counter it bumps |
| `LedgerContract.Contract.NewBidCollection2` | chaincode/markend.go:253-304 | the collection of exp 2, its failures and every counter it bumps |
| `LedgerContract.Contract.NewBidCollection3` | chaincode/markend.go:306-389 | the collection of exp 3, its failures and every counter it bumps |
| `LedgerContract.Contract.MarkEnd` | chaincode/markend.go:23-152 | `markEnd` moves the ledger by a step `MarkEndNext` admits: some iteration order, some tie-break |
| `LedgerContract.Contract.ClockTick` | chaincode/clock.go:13-33 | the new state and response of `clock` |
| `LedgerContract.Contract.Invoke` | chaincode/invoke.go:10-25 | every invocation is one step of the ledger's transition relation |
| `LedgerKeys.ItoaInjective` | chaincode/bid.go:24 | different slots have different decimal texts, so different keys |
| `LedgerKeys.ItoaReads` | chaincode/bid.go:24 | the text of a slot reads back as that number, without leading zeros |
| `LedgerKeys.KeyShapes` | chaincode/schema/const.go:22 | the keys the contract uses, attribute by attribute, for concrete slots |
| `LedgerClosure.OnlyTargetWritten` | chaincode/invoke.go:10-25 | every call writes at most the one key its arguments determine, deletes nothing, and writes nothing if rejected |
| `LedgerClosure.StoredAsSent` | chaincode/clock.go:13-33 | an accepted clock tick, or bid of exp 2 or 3, is stored as it was sent, under the key answered, and moves no counter |
| `LedgerClosure.KeyAnswered` | chaincode/postkey.go:47-98 | an accepted key posting answers its read key with the suffix, and in exp 2 changes nothing |
| `LedgerClosure.GuardTarget` | chaincode/markend.go:24 | the one call that can write the guard key of a slot is `markEnd` for that slot, and only with agreeing keys |
| `LedgerClosure.LateCountersExact` | chaincode/bid.go:28-39 | in every reachable state each of the four late counters of each slot is the number of calls for that slot rejected as late so far, by kind |
| `LedgerClosure.LateSum` | README.md:189-191 | LateTXsCount is the sum of late buys, late sells and late decrypts in every reachable state |
| `LedgerCounters.PostingErrors` | chaincode/wrappers.go:14-62 | bids and key postings: exactly when a read, a write or a decoding fails, ProblematicGetState-, -PutState- or -MarshalCount goes up by one; a posting that does not decode is rejected uncounted |
| `LedgerCounters.MarkEndErrors` | chaincode/markend.go:60-147 | `markEnd`: ProblematicBidCalc-, -Iter- and -PutStateCount go up by one exactly when no collection is had, its iterator breaks off, the write is refused; an undecodable key or payload is counted |
| `LedgerCounters.OwnSlot` | chaincode/wrappers.go:14-62 | a call moves the counters of its own slot alone |
| `LedgerCounters.BidCalcExact` | chaincode/markend.go:60-92 | in every reachable state ProblematicBidCalcCount of each slot is the number of `markEnd` calls for it rejected for want of a collection |
| `LedgerClosure.GuardNeverWritten` | chaincode/markend.go:24 | with the keys as written no run ever writes the key the guard reads |
| `LedgerClosure.AsWrittenNothingIsLate` | chaincode/postkey.go:25-35 | hence no call of any run is ever rejected as late, and the four counters stay zero |
| `LedgerClosure.LaterCallsRejected` | chaincode/bid.go:24-39 | with agreeing keys: after `markEnd` for a slot commits, every later bid or key posting for it is rejected without effect |
| `LedgerClosure.BookFrozen` | chaincode/postkey.go:25-35 | with agreeing keys: no key under the slot's bids changes afterwards, as long as no stray key posting is sent |
| `LedgerClosure.ClosedBookWrittenExactly` | chaincode/postkey.go:47-94 | exp 1 and 3, any store faults: a call writes into a marked slot's book if and only if it is a key posting under another, unmarked slot whose attributes point into that book, and no access it needs fails |
| `LedgerClosure.StrayRun` | chaincode/postkey.go:47-94 | a reachable run with agreeing keys in which such a posting adds a key to the book of a slot already ended |
| `LedgerClosure.OpenAfterEndRun` | chaincode/markend.go:24 | a reachable run with the keys as written in which a bid is accepted and stored after its slot was ended |
| `LedgerClosure.OthersDoNotContribute` | chaincode/markend.go:157-250 | a call changes what is collected for a slot and side only if the key it writes lies under them |
| `LedgerClosure.OtherCallsDoNotContribute` | chaincode/markend.go:157-250 | so no bid for another slot or side, clock tick or mark contributes |
| `LedgerClosure.OtherKeysDoNotContribute` | chaincode/postkey.go:47-94 | and no key posted for a bid, or bid map, of another slot or side |
| `LedgerCollections.NoBidLost` | chaincode/markend.go:196-250 | for each collection that does not fail: bids returned plus the increase of ProblematicDecryptCount is the number of bids stored for exactly that slot and side; key entries are not among them |
| `LedgerCollections.CollectionQuiet` | chaincode/markend.go:322-388 | collecting never touches a late counter, and accounts for each entry it looked at even when it breaks off |
| `LedgerCollections.CollectionIsolated` | chaincode/markend.go:306-389 | a collection depends on nothing but the keys under its slot and side |
| `LedgerCollections.PeersAgree` | chaincode/markend.go:196-248 | two peers that run the same `markEnd` on the same state, whatever their map orders and tie-breaks, store the same bytes and answer alike, if no bid with negative units shares its price with another |
| `LedgerCollections.MarkEndClearsMarket` | chaincode/markend.go:115-152 | what an answered `markEnd` stores is what the market does: the volume-optimal clearing of the collected bids, or no buyer meets a seller, or a side is empty; in exp 2 the regulator's private key is published with it |
| `LedgerCollections.MarkEndTrades` | chaincode/markend.go:115-136 | for any units, what it reports as traded was settled among the bids collected, or is zero |
| `LedgerCodec.LawfulCodecExists` | chaincode/wrappers.go:88-108 | the codec the lemmas ask for exists, with any finite set of bids brought back by it |
| `LedgerBook.SharedRun` | chaincode/bid.go:47-73 | exp 1, keys agreeing or not: every history of bids, bids committed again, posted keys and any other calls (clock ticks, marks of any slot), with any store faults, leaves exactly the shared maps of the bids and keys accepted, and every bid was answered with its map's key |
| `LedgerBook.SlicedRun` | chaincode/bid.go:74-80 | exp 3, likewise: exactly one entry per committed bid, repeated ones included, and per posted key among the bids, and every bid was answered with its own key |
| `LedgerTwoModels.SharedCollects` | chaincode/markend.go:154-251 | collecting from the shared maps is reading the book, except that it fails for a side with bids but no posted key |
| `LedgerTwoModels.SlicedCollects` | chaincode/markend.go:306-389 | collecting from the sliced keys is reading the book |
| `LedgerTwoModels.TwoModelsOneBook` | chaincode/markend.go:154-389 | ledgers of the two experiments with the same book, after any histories, collect the same multiset of bids per side, except that exp 1 fails if and only if the side has bids but not one posted key |
| `LedgerTwoModels.SameHistory` | chaincode/bid.go:23-96 | the same history, without faults in the bidders' calls and without a bid committed again, leaves the same book and the same slots marked: always with the keys as written, and with agreeing keys as long as every mark finds a key for each side with bids |
| `LedgerTwoModels.KeylessEndDiverges` | chaincode/markend.go:183-190 | with agreeing keys: ending a slot with a side that has bids and no key leaves it open in exp 1, where the next bid is accepted, and closes it in exp 3, where it is late; and only then do the two part |
| `LedgerTwoModels.ModelsSettleAlike` | chaincode/markend.go:59-152 | with the same book `markEnd` announces the same price, quantity and outcome in both, outside that exception |
| `LedgerTwoModels.KeyPathRoundTrip` | chaincode/postkey.go:47-94 | exp 1 and 3, after any history: a bid whose key was posted reappears with its price and quantity, given that decrypting and decoding undo encoding and encrypting for that bid |
| `LedgerTwoModels.RepeatedCommitShared` | chaincode/bid.go:66 | exp 1: committing the same bid again, under any transaction, leaves the book as one commit would |
| `LedgerTwoModels.RepeatedCommitSliced` | chaincode/bid.go:74-80 | exp 2 and 3: an accepted bid adds exactly one to the bids stored, or none if its transaction ID was used before |
| `LedgerSealed.BookBidsExactly` | chaincode/markend.go:154-389 | what a collection is to yield by the book is the multiset of bids that open with the key posted for them |
| `LedgerSealed.CollectsPosted` | chaincode/markend.go:154-389 | exp 1 and 3, after any history: a collection that succeeds yields exactly those bids |
| `LedgerSealed.PostedSettles` | chaincode/markend.go:59-152 | exp 1 and 3, after any history: what `markEnd` announces is the market of those bids |
| `LedgerSealed.SealedRun` | chaincode/bid.go:74-80 | exp 2: every history of bids, repeated ones, key postings and any other calls leaves exactly one entry per committed bid, and nothing else among the bids |
| `LedgerSealed.SealedCollects` | chaincode/markend.go:253-304 | exp 2, after any history: collecting with a key yields exactly the multiset of accepted bids of the slot and side that open with it |
| `LedgerSealed.SealedRoundTrip` | chaincode/markend.go:278-302 | exp 2, after any history: a bid sealed for the holder of a key reappears, price and quantity, when collecting with that key |
| `LedgerSealed.RegulatorSettles` | chaincode/markend.go:35-152 | exp 2, after any history: `markEnd` announces the market of the bids that open with the key the regulator sends, and publishes that key |
| `Timing.BlockNotifier.Run` | blocknotifier/notifier.go:150-183 | the slots sent are exactly the strict running maxima of the slots of the heights answered before the first failed query |
| `Timing.ObserveTriggersMaxima` | blocknotifier/notifier.go:164-177 | the filter on heights loses no slot: one poll extends the maxima of the slots by exactly what it sends |
| `Timing.MaximaExactly` | blocknotifier/notifier.go:171-175 | a slot is triggered if and only if it is met before anything as large |
| `Timing.SlotBegun` | blocknotifier/notifier.go:169-170 | a block is in slot s or later if and only if it is at or past the slot's first block |
| `Timing.SlotOfMax` | blocknotifier/notifier.go:164-172 | the largest slot is the slot of the largest block |
| `Timing.NoSkippedSlots` | blocknotifier/notifier.go:164-177 | if the first block at or past the start falls in slot 0 and each later one is at most a slot's blocks past its predecessor, the triggered slots are 0, 1, 2, ..., whatever came before the start |
| `Timing.PhaseLag` | main.go:149-166 | at any height past start + offset, with offset at most a slot's blocks, the bid notifier's slot exceeds the PostKey notifier's by 0 or 1 |
| `Fanout.SlotNotifier.Register` | slotnotifier/notifier.go:46-49 | a second registration of an ID is refused and never replaces the first queue |
| `Fanout.SlotNotifier.Receive` | slotnotifier/notifier.go:65-88 | a larger slot goes to the subscribers in map order, each while its queue holds fewer than its capacity; the first full queue ends the walk; a slot not larger than the last is dropped |
| `Fanout.Regulator.TakeSlot` | regulator/regulator.go:214-228 | slot 0 is skipped, another one becomes a task, and the regulator stops if a hundred tasks are waiting |
| `Fanout.Regulator.TakeTask` | regulator/regulator.go:125-138 | the oldest task N becomes a `markEnd` for slot N - 1 |
| `Fanout.DropsExactly` | regulator/regulator.go:214-228 | a task is dropped if and only if its slot is not 0 and a hundred are waiting |
| `Broadcasting.FanoutExact` | slotnotifier/notifier.go:61-90 | for any integers the source sends, and any registrations and readings in between: every history is a strictly increasing subsequence of the source's maxima, LastVal is the running maximum, and no queue ever exceeds its capacity, and if no broadcast met a full queue the history is exactly the maxima since the subscriber joined |
| `Broadcasting.MissesExactly` | slotnotifier/notifier.go:70-87 | a subscriber whose queue is below its capacity may miss a new value if and only if some queue is at its own |
| `Broadcasting.BlockedExactly` | slotnotifier/notifier.go:70-87 | a run is blocked if and only if, on a value larger than every one before, some queue was at its capacity |
| `Broadcasting.SlowSubscriberRun` | slotnotifier/notifier.go:70-87 | a reachable run in which a subscriber with room is skipped because another did not read |
| `Fanout.ReachesAll` | slotnotifier/notifier.go:70-87 | a broadcast reaches everyone if and only if every queue holds fewer entries than its capacity |
| `Pipeline.StepKeeps` | slotnotifier/notifier.go:61-90 | every step of every component, in any interleaving, keeps the pipeline invariant |
| `Pipeline.PipelineSafety` | regulator/regulator.go:125-138 | over every run the slots `markEnd` is invoked for are strictly increasing, never -1, and slot s only after a block at or past start + (s + 1) * blocksPerSlot was observed |
| `Pipeline.DrainedRegulator` | regulator/regulator.go:209-228 | conservation: with drained queues, none ever full, `markEnd` was invoked for the predecessor of every triggered slot but slot 0 |
| `Pipeline.StopsExactly` | regulator/regulator.go:214-228 | over every run: the regulator stops if and only if a slot other than 0 arrives while a hundred tasks wait |
| `Pipeline.EverySlotEnded` | regulator/regulator.go:209-228 | then, if the observed blocks come in step, the slots ended are exactly 0, 1, 2, ... up to the one before the latest slot begun |
| `Stats.Collector.SlotCalc` | stats/collector.go:106-137 | the slot's cell takes the line in by `Add`, no other cell changes, and LargestSlotSeen is the larger of the two |
| `Stats.Collector.Run` | stats/collector.go:64-93 | every cell is the fold of the lines for its slot, in the order drained, and LargestSlotSeen is the largest slot among them |
| `Stats.BiddersAddUp` | stats/collector.go:112-117 | bidder lines in any order add up to the volumes bid on each side |
| `Stats.EnergyAccounting` | stats/collector.go:127-133 | bidder lines followed by the mark line fold to use minus traded and generation minus traded, both non-negative when what was traded was settled among reported bids |
| `LedgerEnergy.WithinReports` | bidder/bidder.go:360-366 | the bids the ledger holds for a slot and side are among those reported, when every bid was reported under its event and no event placed two |
| `LedgerEnergy.LedgerBalances` | stats/collector.go:127-133 | end to end, exp 1 and 3: the balance of a slot after its mark line is what was drawn and generated less what `markEnd` traded, and never negative, under that condition |
| `LedgerEnergy.TwiceBoughtOverdraws` | chaincode/bid.go:74-80 | without it: a bid committed twice in exp 3 is settled twice, and the balance of the slot is negative |
| `LedgerEnergy.TwiceBoughtSound` | chaincode/bid.go:74-80 | that book is one of exp 3, and has an event that placed two bids |
| `Stats.ReconcilesExactly` | stats/collector.go:112-135 | with the mark line anywhere, the cell reconciles if and only if nothing was traded, or that line is last and not the only one |
| `Stats.GridPrices` | stats/collector.go:119-125 | with the mark line anywhere and any quantity traded, the grid prices kept are the highest reported by the bidder lines of each side |
| `Stats.FoldPrices` | stats/collector.go:119-125 | for any lines: the price paid and the price sold of the fold are the highest among the lines, or 0 |
| `SlotTotals.PlacedLines` | bidder/bidder.go:334-372 | the statistics lines of a bidder's turn: a quarter of its use or of its generation, and none if that is not positive |
| `SlotTotals.UntradedTotals` | stats/collector.go:106-137 | all bidders' turns in a slot, in any order, the mark line anywhere: with nothing traded the cell has a quarter of the total use and of the total generation |
| `SlotTotals.TradedTotals` | stats/collector.go:127-133 | with the mark line last, the same less what was traded |
| `Bidder.Retry` | bidder/bidder.go:381-440 | one line per attempt, numbered from 1, up to and including the first answered attempt or the last retry; the write key of that answer; the blocks waited |
| `Bidder.RetryBounded` | bidder/bidder.go:381-440 | for draws below their bound: at most R + 1 attempts and lines, all but the last failed, and in exp 1 at most alpha * (2^(R+1) - 1) - (R+1) blocks waited, otherwise none |
| `Bidder.WaitAttained` | bidder/bidder.go:382-386 | that bound is met when every draw is the largest |
| `Bidder.Exp2Sum` | bidder/bidder.go:383 | the bounds of the draws double from attempt to attempt |
| `Bidder.PriceInRange` | bidder/bidder.go:339 | the drawn price lies in [Lo, Hi] |
| `Bidder.PriceUniform` | bidder/bidder.go:339 | equal shares of the draws fall on equal shares of the range, from Hi downwards |
| `Bidder.PriceDrawn` | bidder/bidder.go:339 | every price above Lo and up to Hi is drawn |
| `Bidder.ClearingPriceInRange` | bidder/bidder.go:466 | if all bids are drawn between Lo and Hi, so is the clearing price |
| `Bidder.BidderState.Place` | bidder/bidder.go:334-580 | `Buy` and `Sell`: a buyer bids and reports a quarter of its use, a seller of its generation, at the price drawn; nothing happens if and only if that is not positive or the bid cannot be sealed; otherwise the transaction lines, and the bid recorded for key posting exactly when it was answered (exp 1, 3) |
| `Bidder.PostEach` | bidder/bidder.go:613-706 | one payload per recorded bid, addressed to the write key recorded for it, up to and including the first call that fails, with exactly the lines of those calls |
| `Bidder.OneSuccessEach` | bidder/bidder.go:642-706 | as many success lines as calls, less the failing one if there is one; every line is a key posting's, numbered from 1 to R + 1 |
| `Bidder.BidderState.PostKeys` | bidder/bidder.go:584-709 | the look-up makes the slot the most recent of the container; then the same for its recorded bids, or one failure line when nothing is recorded |
| `Bidder.BidderState.Merge` | bidder/bidder.go:254-263 | one answered bid leaves the queue for the container, which refines look-up, add and put back |
| `BidderMemory.LookKeeps` | bidder/bidder.go:590 | a look-up changes what is recorded for no slot |
| `BidderMemory.MergeRecords` | bidder/bidder.go:254-263 | after a merge the slot's record has the bid added; every other slot's is as before or evicted whole |
| `BidderMemory.TwoBidDrift` | bidder/bidder.go:254-263 | for every capacity and every number n of bids, two a slot, with look-ups anywhere between: the counter stands at n, less one if one was evicted, and half as many entries are held; nothing is evicted twice |
| `BidderMemory.RecentBidKeysOverflow` | bidder/bidder.go:144 | such a bidder's container (capacity 100) counts past its capacity if and only if it recorded 102 bids or more, and then grows by an entry a slot |
| `KeyPath.MemoryHoldsWriteKey` | bidder/bidder.go:254-263 | whatever was recorded and looked up around it, a recorded bid that was not evicted still carries the write key of a commit of that bid |
| `KeyPath.RecordedKeyOpensBid` | bidder/bidder.go:613-635 | for every recorded and not evicted bid, after any history of ledger and memory, repeated commits included: when the posting the bidder sends is accepted, it publishes the key where the collector reads it, and the price and quantity reappear at `markEnd` |

## Left out

- AuctionSettle.Settle: prices and units are real numbers; IEEE 754 rounding, infinities and NaN are not modelled, and order independence and volume optimality are claims of exact arithmetic.
- AuctionStack.SortBids: only the contract of `sort.Sort` (some sorted permutation) is used; its body here is a plain selection sort, not Go's algorithm.
- LruContainer.Container.Put: the state after a panic is not described; `Get` moving nodes under a read lock, and every other memory race, is not modelled.
- LedgerContract.Contract.Invoke: keys are attribute lists, so composite-key encoding, its failures and ProblematicKeyCount (which `README.md:197` calls a sum) are not modelled, and a partial-key iterator visits the keys with that attribute prefix; JSON, RSA and PEM are a parameter whose inverse laws (for what the contract itself encodes) are assumed only where a lemma asks for `Lawful`, and for a bid only where the lemma is about that bid; encoding never fails; the counters exist for every slot, where the source has arrays of TraceLength.
- LedgerContract.Contract.MarkEnd: bumps of one collection reach the counters after its loop, not inside it; the message is an enumeration, not text; events are off, as in the source.
- LedgerTwoModels.TwoModelsOneBook: no event and no transaction ID is used for two bids, no transaction ID is the private-key suffix, and the `markEnd` compared meets no store fault; experiment 2, where the regulator holds one key, has no posted keys to compare (see `LedgerSealed.SealedCollects`).
- LedgerBook.SharedRun: key postings among the bids are those the bidders send, for an accepted bid and under its slot; other ones are the subject of ClosedBookWrittenExactly.
- Timing.BlockNotifier.Run: the clock calls, the sleep between polls and the block statistics (`GetBlock`, switched off in the source) are not modelled.
- Fanout.SlotNotifier.Receive: registering one channel under two IDs is not modelled.
- Pipeline.PipelineSafety: one block notifier and one slot notifier; channels between them carry one slot at a time.
- Stats.Collector.Run: only the slot channel; transactions and blocks are appended to lists without further logic.
- Bidder.BidderState.Place: timers, latency and log text are not modelled; drawing random numbers, and encoding and encrypting a bid, are parameters.
- Bidder.BidderState.Merge: the map stored for a slot is a value that is put back; the source also updates it in place.
- The bidder's main loop that moves slots to its buy, sell and key queues: three bounded queues without further logic.
- The Fabric SDK, network set-up and certificates, the `metrics` and `slotvalues` queries, trace loading and metrics printing.
