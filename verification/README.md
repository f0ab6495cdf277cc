# Verified model of the Swarm node core

A Dafny model of the parts of this Swarm client whose correctness is not visible from any single function:
the concurrent Merkle hasher, the per-peer accounting, the local chunk store with its garbage collector,
historical pull syncing, and the byte-level forms of keys, distances and stamps.
`dafny verify dfyconfig.toml` checks everything. There are no assumptions in it: hash functions, signature
recovery, clocks, the network and LevelDB iteration order appear as parameters.

## Components

**Binary Merkle tree hasher** (`Bmt*.dfy`, `pkg/bmt`). `BmtProtocol` is a step machine: the writer's `Write` and
`Hash` calls, and one thread per section whose atomic steps are a slot write, a toggle and a hash. The tree has any
depth, the data any length and any split into writes, and threads interleave freely. `BmtInvariant` assigns every node
to the thread that has to carry its value; `BmtSteps` and `BmtRuns` show that each atomic step keeps this;
`BmtTheorems` draws the conclusions. `BmtReuse` runs chunk after chunk on one pooled tree, where goroutines of earlier
chunks may still step and send on the same result channel; `BmtAbandon` gives up a chunk before `Hash`. `BmtHasher` and
`BmtPool` are the mutable objects, proved against that machine.

**Accounting** (`Ledger*.dfy`, `Pricer.dfy`, `pkg/accounting`, `pkg/pricer`). `Ledger` gives each locked operation as a
function on a peer's ledger, `LedgerPeer` the objects that update the fields. `LedgerSession` runs any number of
requests, debit actions and one payment against one ledger; `LedgerPair` runs two nodes against each other, each with
its own settings and its own pricer.

**Local store** (`Localstore*.dfy`, `pkg/localstore`). Indexes are maps, a batch is applied as a whole, and reads inside
`put` and `set` see the database and not the batch. `LocalstoreRepeat` and `LocalstoreReplace` give, for whole calls
with any repetition of addresses and stamps, when gcSize still counts the gc index, and `LocalstoreHeld` which chunks a
call leaves in the store. What a call does to each chunk and to each index is stated in `LocalstorePins` for `set`, in
`LocalstoreEntries`, `LocalstoreStamps` and `LocalstoreEffects` for `put`, and in `LocalstoreUnreserve` for
`UnreserveBatch`. `LocalstoreGc` interleaves `put`, `set`, `updateGC` and the rounds of `UnreserveBatch` with the two
phases of garbage collection; `LocalstoreBins`, `LocalstoreListed` and `LocalstoreFiled` follow BinIDs, the pull index and
the chunk entries of the batches through whole runs, and `LocalstoreStale` the stamp indexes that outlive their chunks.
`Subscription` builds the pull feed on the byte-level index iteration of `Shed`, and `SubscriptionRun` subscribes to a
running store.

**Intervals, puller, pullsync** (`Intervals*.dfy`, `Puller.dfy`, `Pullsync.dfy`, `HistoricalSync.dfy`, `BitVector.dfy`).
The in-place interval list with uint64 wrap-around, its text form, the sync worker over the stored text, the
offer/want/deliver exchange, and the worker and the exchange together.

**Keys, distances, stamps** (`Shed.dfy`, `PullKeys.dfy`, `Distance.dfy`, `Retrieval.dfy`, `Stamps.dfy`).

## Where the code does less than it says

For each of these but `Reset` the first member named gives the exact condition under which the code does what it says; a
further one, where named, gives a concrete input where it does not.

- `toggle` uses Go's `%` on an int32: once a node has been used 2^30 times the counter is negative and the first arrival
  is taken for the second (`BmtProtocol.ToggleTellsFirst`, `BmtProtocol.ToggleOverflow`). `BmtReuse.PooledTree` therefore
  covers 2^30 chunks per tree.
- `Reset` starts the next chunk whether or not `Hash` has returned. After it has, the tree is at rest
  (`BmtReuse.TreeAfterHash`) and `Reset` is the step of `BmtReuse.PooledTree`. For a chunk given up before, a counter may
  be odd, and a goroutine stops at a node if and only if its counter is even and not negative (`BmtReuse.FirstArrival`):
  the next chunk can get a wrong hash although no goroutine is left (`BmtAbandon.AbandonedChunk`). Whether it does also
  depends on the hash function and the data.
- `Hash` pads with a fixed 64-byte section, so the last section is zeroed only if at most 64 bytes are missing
  (`BmtReuse.PaddingLimit`). With 32-byte segments this always holds.
- `Intervals.add` keeps the covered set right in all cases, but leaves overlapping or unsorted ranges for a range
  strictly inside a stored one and for a range up to the last uint64 (`AddKeeps` in `Intervals.Intervals.Add`,
  `Intervals.AddCanBreak`). For the same reason a list of several ranges ending at the last uint64 is not read back as
  it was written.
- `Intervals.Next` returns end 0 for "no end"; for a list that starts at 0 and lacks only the value 0 that is also a real
  end. A list that holds every uint64 reports a gap from 0 to the ceiling. Both are clauses of `Intervals.Intervals.Next`.
- A forward iteration whose start key lies below its prefix visits nothing if any key lies in between
  (`Shed.Index.Iterate`, `Shed.IterationMisses`). Backwards from a start that is not a key it begins at the next key
  above, and from a start behind all keys it visits nothing (`DownRight` in `Shed.Index.Iterate`).
- `Last` misses the last key if a shorter key lies between the prefix and its successor (`Shed.Index.Last`,
  `Shed.LastMisses`).
- `Set` reads the database for each address, so a chunk that moves in or out of the gc index and is given twice is
  counted twice, in all four modes (`LocalstoreRepeat.SetExact`, `LocalstoreRepeat.RepeatBreaks`).
- `Put` counts a chunk that a newer stamp replaces once per replacing item, or, in `putUpload` and `putSync`, not at all
  (`LocalstoreReplace.PutExact`, `LocalstoreReplace.OneReplacementBreaks`, `LocalstoreReplace.TwoReplacementsBreak`).
- `Put` marks the chunks it is given as dirty, but not the ones they replace (`Safe` in `LocalstoreGc.StoreStep`). A
  commit keeps gcSize right if and only if every unmarked candidate is still in the gc index (`LocalstoreGc.CommitExact`);
  a candidate replaced between selection and commit is counted out twice (`LocalstoreGc.ReplacedCandidate`).
- `Put` leaves out, without an error, a chunk whose stamp index is held by an equal or later stamp
  (`LocalstoreHeld.MissingHeld`, `LocalstoreHeld.DeclinedSilently`).
- Removing a chunk with `Set` leaves its stamp index behind. So does collecting one that was unpinned before, because
  `setUnpin` leaves the index out of the gc entry. A later stamp for that index is then refused: it goes through if and
  only if the chunk named by the index is still stored (`LocalstoreStale.BlockedIff`,
  `LocalstoreStale.RemovedChunkBlocks`, `LocalstoreStale.CollectedChunkBlocks`).
- `updateGC` with a stale item breaks the gc index (`LocalstoreMore.UpdateInv`, `LocalstoreMore.StaleUpdateBreaks`).
- A repeated missing hash in an offer makes the client call an honest peer's delivery unsolicited
  (`Pullsync.SyncInterval`, `Pullsync.RepeatedOffer`).
- A delivery with a bad stamp is skipped and the error is overwritten by the next read, so the interval is reported as
  done although not every asked chunk is held (`Pullsync.HeldIfStamped`, a clause of `Pullsync.Syncer.Receive`, and
  `Pullsync.SkippedStamp`).
- A stamp issuer whose depths differ by 32 or more is full from the start (`Stamps.CapacityExact`).
- `Connect` clears the balance and keeps the originated balance (`Ledger.ConnectKeepsOriginated`), after which `settle`
  can pay more than is owed (`Ledger.SettlePays`, `LedgerSession.KeptOriginatedOverpays`).
- Prices agree only between nodes with the same poPrice (`Pricer.PricesAgree`), and fall with the distance only while the
  highest price fits in a uint64 (`Pricer.NearerIsNotDearer`).

## Model

| member | source | states |
|---|---|---|
| BmtTree.SizeToParams | pkg/bmt/pool.go:151-157 | the smallest power of two that is at least 2 and covers n, with its exponent |
| BmtTree.NewConf | pkg/bmt/pool.go:35-59 | every entry of the zero table is the reference hash of an all-zero subtree of that height |
| BmtTree.RootIsRefHash | pkg/bmt/reference/reference.go:38-79 | the value the tree defines bottom-up at its root is the recursive halving hash of the whole buffer |
| BmtTree.ZeroValue | pkg/bmt/bmt.go:216-221 | right of the last section every subtree value is the zero-table entry the final walker fills in |
| BmtPool.NewTree | pkg/bmt/pool.go:118-141 | the linked nodes form the full binary tree of that depth, all new and at rest |
| BmtPool.Climb | pkg/bmt/bmt.go:138-142 | l parent links above leaf t lead to position t / 2^l of level l, with the right left/right flag, and the root has no parent |
| BmtProtocol.ToggleTellsFirst | pkg/bmt/pool.go:143-148 | from a resting counter toggle tells first from second arrival if and only if the int32 counter is not negative |
| BmtProtocol.ToggleOverflow | pkg/bmt/pool.go:143-148 | the concrete counter value at which it fails |
| BmtHasher.Hasher.Reset | pkg/bmt/bmt.go:125-130 | buffer and tree are left as they are and no goroutine is stopped; every next chunk starts from the new state; after Hash has returned this is the pooled tree's step to the next chunk |
| BmtHasher.Hasher.Write | pkg/bmt/bmt.go:102-122 | the object's new state is the protocol's write step; returns the number of bytes taken |
| BmtHasher.Hasher.StartHash | pkg/bmt/bmt.go:79-86 | the object's new state is the protocol's hash step: the result at once for an empty chunk, otherwise padding and the final thread |
| BmtRuns.WriteInv | pkg/bmt/bmt.go:102-122 | a write step keeps the ownership invariant: every thread it starts reads a section that is complete and final |
| BmtRuns.HashInv | pkg/bmt/bmt.go:79-86 | padding and starting the final walker keep the invariant |
| BmtRuns.ThreadStepInv | pkg/bmt/bmt.go:165-264 | every atomic step of every walker keeps the invariant: one owner per node, counter parity, written slots hold the right values |
| BmtTheorems.ResultIsReference | pkg/bmt/bmt.go:79-264 | in every run, for every depth, length, split and interleaving, whatever Hash returns is the reference hash of the zero-padded data |
| BmtTheorems.HashIsTotal | pkg/bmt/bmt.go:79-264 | a run that cannot go on has returned that hash: no interleaving loses or blocks the result |
| BmtTheorems.RunsAreBounded | pkg/bmt/bmt.go:79-264 | every run ends, within a bound linear in sections times depth |
| BmtTheorems.NoDeadlock | pkg/bmt/bmt.go:165-264 | while nothing has been returned some thread can step |
| BmtTheorems.AllGone | pkg/bmt/bmt.go:165-264 | once the result is delivered every goroutine is gone: it has not started, has stopped, or is the final walker with nothing in hand and nothing to write; none waits to send a second result |
| BmtTheorems.CountersRest | pkg/bmt/bmt.go:165-264 | when the result is out each counter has moved by 0 or 2 |
| BmtReuse.TreeAfterHash | pkg/bmt/bmt.go:165-264 | after a hash the tree is at rest again, with only stale slot contents |
| BmtReuse.StaleGoroutines | pkg/bmt/bmt.go:205-213 | no step after the result changes a node or the result |
| BmtReuse.NothingLeft | pkg/bmt/bmt.go:165-264 | the same for every run: after Hash has returned no goroutine holds a hash, waits to send one or has a node to write |
| BmtReuse.GoneIsHarmless | pkg/bmt/bmt.go:125-130 | a step of a goroutine left over from an earlier chunk changes neither the tree nor the run of the current chunk |
| BmtReuse.PooledTree | pkg/bmt/pool.go:74-93 | in every run of up to 2^30 chunks on one tree, with the goroutines of earlier chunks still interleaving and the result channel shared, each chunk is a run of its own and gets the reference hash of its data |
| BmtReuse.FirstArrival | pkg/bmt/pool.go:143-148 | a goroutine stops at a node if and only if the counter is even and has not overflowed; otherwise it hashes the node |
| BmtAbandon.AbandonedChunk | pkg/bmt/bmt.go:125-130 | a concrete run of a chunk given up before Hash, all its goroutines gone, and a run of the next chunk on that tree which returns a wrong hash |
| BmtReuse.NodesAreExclusive | pkg/bmt/bmt.go:165-264 | at no moment of a run do two threads have a write or hash to do on the same slot |
| BmtReuse.PaddingLimit | pkg/bmt/bmt.go:83 | whatever an earlier chunk left in the buffer, the last section is zero-padded if and only if at most 64 bytes are missing |
| Ledger.SettlePays | pkg/accounting/accounting.go:336-408 | settle keeps originated >= min(0, balance); a payment is at least the minimum and enters the shadow reserve; it is at most the real debt if and only if that bound held or settle refreshed first |
| Ledger.ConnectKeepsOriginated | pkg/accounting/accounting.go:1060-1081 | the originated bound survives a Connect if and only if the kept originated balance is not negative |
| Ledger.CreditBooks | pkg/accounting/accounting.go:271-330 | an originated credit keeps originated = min(0, balance), and adds its price to the originated debt up to the debt; any other credit leaves the originated balance alone |
| Ledger.PaymentSplits | pkg/accounting/accounting.go:783-853 | a received payment first reduces a positive balance, only the rest becomes surplus, and our own debt is untouched |
| Ledger.DebitUsesSurplus | pkg/accounting/accounting.go:907-974 | a debit uses up the surplus first, and a payment in advance of the same amount is undone by it |
| Ledger.ReleaseFrees | pkg/accounting/accounting.go:252-268 | a release gives back exactly what the reservation took, and never goes below zero |
| Ledger.SettlesEarly | pkg/accounting/accounting.go:212-246 | Reserve settles if and only if we are in debt and the expected debt less the shadow reserve is within earlyPayment of the threshold; when it refreshes, when that fails, and when and how much it pays |
| Ledger.ReserveExact | pkg/accounting/accounting.go:195-249 | each error of Reserve exactly when it is due: no connection, or a debt beyond the threshold after settling; an overdraft reserves nothing |
| Ledger.NotTooSoon | pkg/accounting/accounting.go:336-381 | no refreshment before time has passed, and no payment within the interval after a failed one |
| LedgerPeer.AccountingPeer.DecreaseOriginatedBalanceTo | pkg/accounting/accounting.go:1084-1110 | only raises a negative originated balance, to the limit |
| LedgerPeer.AccountingPeer.ExpectedDebt | pkg/accounting/accounting.go:169-191 | the debt if everything reserved and the new price are credited |
| LedgerPeer.AccountingPeer.DoSettle | pkg/accounting/accounting.go:336-408 | the fields after settle, its error, and what it refreshed and paid |
| LedgerPeer.AccountingPeer.DoReserve | pkg/accounting/accounting.go:195-249 | the fields after Reserve and which of its errors it returns |
| LedgerPeer.AccountingPeer.DoRelease | pkg/accounting/accounting.go:252-268 | the reserve falls by the price, clamped at zero |
| LedgerPeer.AccountingPeer.DoCredit | pkg/accounting/accounting.go:271-330 | balance and originated balance after a credit; the originated bound is kept, and CreditBooks says what the new values are |
| LedgerPeer.AccountingPeer.NotifyPaymentSent | pkg/accounting/accounting.go:728-769 | the reserve of the payment ends, and on success the balance rises |
| LedgerPeer.AccountingPeer.NotifyPaymentReceived | pkg/accounting/accounting.go:783-853 | how balance and surplus split a received payment |
| LedgerPeer.AccountingPeer.NotifyRefreshmentReceived | pkg/accounting/accounting.go:856-881 | the balance falls by the refreshment |
| LedgerPeer.AccountingPeer.DoPrepareDebit | pkg/accounting/accounting.go:884-905 | the price enters the shadow reserve; no action without a connection |
| LedgerPeer.AccountingPeer.DoIncreaseBalance | pkg/accounting/accounting.go:907-974 | surplus is used first, the originated balance never falls below the debt |
| LedgerPeer.AccountingPeer.DoConnect | pkg/accounting/accounting.go:1060-1081 | which fields a new session clears |
| LedgerPeer.DebitAction.Apply | pkg/accounting/accounting.go:977-1011 | moves the price from shadow reserve to balance; the peer is disconnected if and only if the balance reaches threshold plus tolerance |
| LedgerPeer.DebitAction.Cleanup | pkg/accounting/accounting.go:1014-1026 | an unapplied action leaves its price in the ghost balance, and blocklists if and only if that exceeds threshold plus tolerance; an applied one changes nothing |
| LedgerSession.BooksKept | pkg/accounting/accounting.go:195-1026 | every operation keeps: reserve = sum of held requests, shadow reserve = prepared actions + the one payment, ghost balance = cleaned actions |
| LedgerSession.OriginatedKept | pkg/accounting/accounting.go:195-1026 | every operation keeps originated >= min(0, balance) |
| LedgerSession.BooksConsequences | pkg/accounting/accounting.go:252-268 | no reserve is ever negative and Release never reaches its clamp |
| LedgerSession.FieldsKept | pkg/accounting/accounting.go:195-1145 | the failure time, the threshold, the connection and the refreshment time are each set by one operation and kept by all others; the surplus grows only by payments and shrinks only by debits |
| LedgerSession.NoPaymentSoonAfterFailure | pkg/accounting/accounting.go:388-404 | over any session, after a failed payment none is started until the interval has passed |
| LedgerSession.SessionBooks | pkg/accounting/accounting.go:195-1026 | the books hold at every moment of every session, also one that opens with kept originated debt |
| LedgerSession.SessionOriginated | pkg/accounting/accounting.go:195-1026 | a session that opens without originated debt never counts more as originated than it owes |
| LedgerSession.NoOverspend | pkg/accounting/accounting.go:169-295 | debt plus all reserved and uncredited prices never exceeds the peer's threshold, for any interleaving of requests and any kept originated balance |
| LedgerSession.RefreshmentLimit | pkg/accounting/accounting.go:856-881 | a refreshment is harmless in every ledger with that balance if and only if it is no larger than the positive balance |
| LedgerSession.ThresholdLimit | pkg/accounting/accounting.go:772-780 | a new threshold is harmless in every ledger if and only if it is not lower |
| LedgerSession.PaymentsCoverDebt | pkg/accounting/accounting.go:369-408 | in every session each payment starts while none is in flight; it is at most the debt at that moment if and only if the originated bound held or settle refreshed first, and always in a session that opens without originated debt |
| LedgerSession.KeptOriginatedOverpays | pkg/accounting/accounting.go:1060-1081 | a concrete session after a Connect that kept originated debt: it comes to owe 1 and its next Reserve pays 5 |
| LedgerSession.OwnKept | pkg/accounting/accounting.go:195-1026 | with originated = min(0, balance), a step keeps it if and only if it credits nothing to others on debt, pays no more than the debt and takes no excess refreshment |
| LedgerSession.SessionOwn | pkg/accounting/accounting.go:195-1026 | a session that opens with originated 0 and takes only such steps keeps originated = min(0, balance) at every moment |
| LedgerSession.PaysWholeDebt | pkg/accounting/accounting.go:369-408 | in such a session a payment that Reserve starts is exactly the whole debt |
| LedgerPair.Bookings | pkg/accounting/accounting.go:271-295 | each booking moves the compensated balance by exactly its amount, however surplus and balance split it |
| LedgerPair.ConservedStep | pkg/accounting/accounting.go:728-1011 | every step of either node, each with its own settings and prices, keeps: the two compensated balances sum to what one side has booked and the other has not or booked differently |
| LedgerPair.Conservation | pkg/accounting/accounting.go:462-482 | that sum at every moment of every two-node run |
| LedgerPair.SameBooking | pkg/pricer/pricer.go:34-41 | with the same poPrice what the requester books by PeerPrice is what the server books by Price, for every exchange |
| LedgerPair.MirrorBalances | pkg/accounting/accounting.go:462-482 | with nothing half-booked and the same poPrice the two compensated balances are exact negatives, whatever the other settings |
| LocalstoreInv.PinKept | pkg/localstore/mode_set.go:261-299 | setPin keeps the indexes in agreement and its -1 is justified; what it does is SetEffects and PinUnpin |
| LocalstoreInv.SyncKept | pkg/localstore/mode_set.go:124-196 | setSync keeps the indexes in agreement and reports the change of the gc index |
| LocalstoreInv.RemoveKept | pkg/localstore/mode_set.go:201-257 | setRemove keeps the indexes in agreement and reports the change of the gc index |
| LocalstoreInv.UnpinKept | pkg/localstore/mode_set.go:304-359 | setUnpin keeps the indexes in agreement and reports the change of the gc index |
| LocalstoreBatch.ReadsAgree | pkg/localstore/mode_set.go:47-121 | reading the database instead of the pending batch makes no difference for an untouched chunk |
| LocalstoreRepeat.SetExact | pkg/localstore/mode_set.go:47-121 | a set call in any mode with any repetition keeps the invariant, gcSize included, if and only if it is refused or no chunk that moves in or out of the gc index is given twice |
| LocalstoreRepeat.SetElsewhere | pkg/localstore/mode_set.go:47-121 | a set call touches no entry of a chunk it is not given |
| LocalstoreGc.SetRefused | pkg/localstore/mode_set.go:47-121 | a set call that is refused because of one address changes nothing |
| LocalstoreRepeat.RepeatBreaks | pkg/localstore/mode_set.go:124-359 | in each mode a concrete store and a repeated address that break gcSize |
| LocalstorePins.SetEffects | pkg/localstore/mode_set.go:47-359 | what a call has done to each chunk it was given, once however often it was given: pin adds one pin and takes it out of the gc index; unpin takes one pin, and the last one makes the chunk collectable unless it waits to be synced; sync ends the waiting, pins, and gives an access time; remove leaves nothing of it |
| LocalstorePins.PinUnpin | pkg/localstore/mode_set.go:261-359 | for all n and m: a stored chunk pinned n times and then unpinned m times stays pinned and out of the gc index while m < n; after n unpins the pin index is what it was, and a chunk not pinned before that does not wait is collectable |
| LocalstoreListed.SetDrops | pkg/localstore/mode_set.go:201-257 | a removing call takes the chunks with their places in the pull index; any other takes no data and no place |
| LocalstoreFiled.SetUnfiles | pkg/localstore/mode_set.go:201-257 | the same for the chunk entries of the batches |
| LocalstoreReplace.PutExact | pkg/localstore/mode_put.go:59-190 | for whole calls in any mode: the indexes always agree; gcSize moves by the change of the gc index if and only if no collectable chunk is replaced twice, or, where removals are not counted, none is replaced that stays unpinned; the invariant holds exactly then, when the call is refused, or when the underflow guard makes up for it |
| LocalstoreReplace.CallFails | pkg/localstore/mode_put.go:209-235 | a put call fails if and only if some new item's stamp index is taken and either its batch is immutable or its stamp is later and the chunk it would replace is gone |
| LocalstoreReplace.CallGc | pkg/localstore/mode_put.go:59-190 | the gc keys after a call: the old ones but those pinned or replaced, and one new one for each chunk it caches |
| LocalstoreReplace.OneReplacementBreaks | pkg/localstore/mode_put.go:281-339 | a concrete store and one replacing chunk that leave gcSize wrong in the modes that drop the count |
| LocalstoreReplace.TwoReplacementsBreak | pkg/localstore/mode_put.go:209-278 | the same for two chunks that replace one stored chunk, in the other modes |
| LocalstoreHeld.HeldAfter | pkg/localstore/mode_put.go:59-190 | the chunks held after a call that succeeds: those held before without the replaced ones, and those whose stamp let them in |
| LocalstoreHeld.MissingHeld | pkg/localstore/mode_put.go:342-388 | of missing chunks given once each, all are held after the call if and only if every stamp index is free or held by an older stamp of a mutable batch whose chunk is there |
| LocalstoreHeld.DeclinedSilently | pkg/localstore/mode_put.go:351-364 | a concrete chunk with a stamp that is not later: the call succeeds and the chunk is not held |
| LocalstoreEntries.PutLists | pkg/localstore/mode_put.go:195-417 | after a put that succeeds each new chunk has the stamp of its item, an id its bin had not given, a chunk entry, and, in every mode but PutRequestCache, its place in the pull index; every old pull entry stays except at the places of replaced chunks; no other entry appears |
| LocalstoreEntries.PutCounts | pkg/localstore/mode_put.go:457-466 | a bin counter goes up by the number of chunks stored in the bin, so that no id is skipped |
| LocalstoreStamps.PutStamps | pkg/localstore/mode_put.go:209-261 | a stamp index names the last chunk stored with it, or what it named before; the chunk entries are the old ones without the replaced chunks and those of the stored ones |
| LocalstoreEffects.PutEffects | pkg/localstore/mode_put.go:195-455 | after a put that succeeds: an upload waits to be synced and has no access time, any other new chunk has one from the call; a new chunk gets a pin exactly when its mode or radius says so and is collectable exactly when cached; a replaced chunk is gone; everything else is as it was, except that PutUploadPin pins what it was given and did not store |
| LocalstoreFiled.CachedWithStamp | pkg/localstore/mode_put.go:420-455 | a cached chunk is in the gc index with the batch and index of its stamp |
| LocalstoreGc.ShortcutIsPut | pkg/localstore/mode_put.go:60-72 | the early return of put leaves what the whole call would have left |
| LocalstoreListed.PutUnlists | pkg/localstore/mode_put.go:209-261 | in an index that lists chunks at their own ids, an entry stays if its chunk is not replaced, and the place of a replaced chunk is free |
| LocalstoreStale.BlockedIff | pkg/localstore/mode_put.go:209-226 | a later stamp for a taken index goes through if and only if the chunk the index names is still stored; otherwise the call changes nothing |
| LocalstoreStale.RemovedChunkBlocks | pkg/localstore/mode_set.go:201-257 | after a removing call no later stamp for the index of a removed chunk goes through |
| LocalstoreStale.UnpinDropsIndex | pkg/localstore/mode_set.go:326-355 | the last unpin puts a chunk into the gc index without the index of its stamp |
| LocalstoreStale.CollectedChunkBlocks | pkg/localstore/gc.go:169-204 | after a commit a later stamp for an index goes through if and only if the chunk it names was not collected or some collected entry carried the index |
| LocalstorePutInv.PutBins | pkg/localstore/mode_put.go:457-466 | for every put call, replacing or not: counters only grow, and new pull entries and new chunks lie above all ids the bin has given |
| LocalstoreMore.UpdateInv | pkg/localstore/mode_get.go:126-180 | updateGC keeps the invariant if and only if its item carries the chunk's current BinID |
| LocalstoreMore.UpdateMovesLast | pkg/localstore/mode_get.go:126-180 | the access time of the chunk becomes now, and a collectable chunk the last to be collected: every other gc entry is older |
| LocalstoreMore.StaleUpdateBreaks | pkg/localstore/mode_get.go:126-180 | a concrete stale item that breaks it |
| LocalstoreMore.UnreserveInv | pkg/localstore/reserve.go:64-87 | one bin of UnreserveBatch keeps the invariant and only adds to the gc index |
| LocalstoreUnreserve.UnreserveExact | pkg/localstore/reserve.go:19-110 | UnreserveBatch unpins, once, every stored chunk of the batch in the bins from the recorded radius up to the new one, and no other chunk; it returns how many of them were pinned, changes no other index, and keeps the invariant |
| LocalstoreUnreserve.RadiusAfter | pkg/localstore/reserve.go:64-98 | the new radius is recorded; none when it is MaxPO+1 and a bin was left, and what was recorded stays when none was |
| LocalstoreGc.SelectCandidates | pkg/localstore/gc.go:116-147 | the candidates are the oldest entries, at most a batch; taking them never brings the counter below the target, and brings it to the target unless the batch or the index is used up |
| LocalstoreGc.CollectsDownToTarget | pkg/localstore/gc.go:93-217 | selecting from the current gcSize and committing leaves gcSize at the target or a batch lower than before, whichever is more, plus the candidates touched in between, so never below the target |
| LocalstoreGc.CollectionCycle | pkg/localstore/gc.go:93-217 | a collection that nothing interrupts takes exactly the oldest entries out of the gc index, down to the target or by a batch, and leaves the store ready for the next one |
| LocalstoreGc.CommitIsSafe | pkg/localstore/gc.go:150-217 | every candidate not marked dirty is still there under its key and not pinned, and gcSize cannot underflow |
| LocalstoreGc.CommitExact | pkg/localstore/gc.go:150-217 | a commit leaves the invariant, gcSize included, if and only if every candidate not marked dirty is still in the gc index, also where the unsigned counter wraps |
| LocalstoreFiled.CommitCollects | pkg/localstore/gc.go:150-217 | every candidate not marked dirty is gone from data, access, gc and pull index and from the chunk entries, and the stamp indexes their gc entries carry are free; nothing else changes |
| LocalstoreGc.StoreStep | pkg/localstore/gc.go:93-217 | a step of any interleaving keeps the invariant, including the safety of the coming commit, if and only if it is safe: no collectable chunk counted twice, no candidate replaced unmarked, no stale updateGC item |
| LocalstoreGc.PutStepExact | pkg/localstore/mode_put.go:59-190 | the put case of it, during a collection |
| LocalstoreGc.ReplacedCandidate | pkg/localstore/mode_put.go:209-235 | a concrete replaced candidate: gcSize is right after the put and wrong after the commit |
| LocalstoreGc.IndexesAgree | pkg/localstore/gc.go:93-217 | the invariant at every moment of every run of safe steps |
| LocalstoreGc.WhatTheIndexesSay | pkg/localstore/mode_set.go:124-359 | in every run: gcSize counts the gc index, its entries are current and unpinned, an accessed unpinned chunk is collectable |
| LocalstoreBins.BinsKeptByStep | pkg/localstore/mode_put.go:457-466 | every step of every operation keeps the bins, whatever it replaces or repeats |
| LocalstoreBins.BinIDsIncrease | pkg/localstore/mode_put.go:457-466 | over any run at all, what a bin gets later, in the pull index or only in the store, has a higher BinID than all it was given before, and an id never names another chunk |
| LocalstoreListed.StepKeeps | pkg/localstore/gc.go:150-217 | every step keeps: no two chunks of a bin share an id, the pull index lists only stored chunks, at their ids, and a listed chunk that is still stored stays listed |
| LocalstoreListed.ListedWhileStored | pkg/localstore/mode_put.go:264-272 | over any safe run a chunk put in any mode but PutRequestCache is in the pull index, at the id it was given, as long as it is stored |
| LocalstoreFiled.FiledAlways | pkg/localstore/mode_put.go:246-253 | over any safe run in which updateGC is given the stamps of its chunks, the chunk entries of the batches are those of the stored chunks, and gc entries carry the batch of their chunk |
| LocalstoreObject.LocalStore.SetChunks | pkg/localstore/mode_set.go:47-121 | the loop computes Set, whose effects are SetEffects, SetDrops and SetUnfiles; marks dirty addresses; changes nothing on error |
| LocalstoreObject.LocalStore.PutChunks | pkg/localstore/mode_put.go:59-190 | the loop computes Put, whose effects are PutLists, PutStamps, PutCounts and PutEffects; exist tells for each chunk whether it was stored or repeated |
| LocalstoreObject.LocalStore.CommitGarbage | pkg/localstore/gc.go:150-217 | dirty candidates are weeded out, the rest removed from every index, the count is what was removed, and it is done exactly when gcSize is at most the target |
| LocalstoreObject.LocalStore.UnreserveBatch | pkg/localstore/reserve.go:19-110 | the loop over bins and chunks computes Unreserve, whose effects are UnreserveExact and RadiusAfter |
| Intervals.Intervals.Add | pkg/intervalstore/intervals.go:65-112 | the covered set grows by exactly the clipped range; the list stays merged if and only if AddKeeps |
| Intervals.AddCanBreak | pkg/intervalstore/intervals.go:65-112 | concrete calls that leave an unmerged list |
| Intervals.Canonical | pkg/intervalstore/intervals.go:37-41 | a merged list is determined by what it covers |
| Intervals.Intervals.Next | pkg/intervalstore/intervals.go:137-166 | exactly the first gap, its end, the ceiling cut and when it is empty; where the end 0 is ambiguous; what a full list reports |
| Intervals.Intervals.MarshalBinary | pkg/intervalstore/intervals.go:189-197 | the text form of the list |
| Intervals.Intervals.UnmarshalBinary | pkg/intervalstore/intervals.go:200-234 | fails exactly for text that does not decode; covers what was read; gives the list back unless it has several ranges and ends at the last uint64 |
| IntervalsText.DecodeEncode | pkg/intervalstore/intervals.go:189-234 | reading what was written gives the same bound and ranges, through base 36, join and split, for every list |
| IntervalsText.TextExample | pkg/intervalstore/intervals.go:189-197 | two ranges as they are written: 1;2,z;10,1z |
| IntervalsText.BothCases | pkg/intervalstore/intervals.go:200-234 | numbers are read alike in either case |
| Puller.Puller.GetOrCreateInterval | pkg/puller/puller.go:473-490 | what is read is what was stored; a missing entry is created empty from 1 |
| Puller.Puller.NextPeerInterval | pkg/puller/puller.go:462-471 | the first missing value of the stored intervals |
| Puller.Puller.AddPeerInterval | pkg/puller/puller.go:449-460 | what is stored grows by exactly the range and stays merged |
| Puller.Puller.HistSyncWorker | pkg/puller/puller.go:323-382 | it ends; on normal exit everything up to the cursor is recorded; otherwise it was told to quit or got an error in that very round; only confirmed ranges are recorded, and no start is asked for twice |
| HistoricalSync.SyncBin | pkg/puller/puller.go:323-382 | worker and exchange together: when it finishes the node holds every chunk an honest peer lists up to the cursor; it always finishes if no address is listed twice; what was held stays |
| BitVector.BitVector.New | pkg/bitvector/bitvector.go:34-36 | all bits zero, and enough bytes |
| BitVector.BitVector.NewFromBytes | pkg/bitvector/bitvector.go:41-52 | fails exactly for a length that is not positive or does not fit |
| BitVector.BitVector.Get | pkg/bitvector/bitvector.go:55-58 | reads the bit |
| BitVector.BitVector.SetTo | pkg/bitvector/bitvector.go:61-67 | changes that bit and no other |
| BitVector.LeastFirst | pkg/bitvector/bitvector.go:55-67 | bits are counted from the least significant one of each byte |
| Pullsync.Syncer.MakeOffer | pkg/pullsync/pullsync.go:356-368 | hash i of the offer is address i |
| Pullsync.Syncer.Want | pkg/pullsync/pullsync.go:156-198 | exactly the missing hashes are marked, collected and counted; a cut offer is refused |
| Pullsync.Syncer.ProcessWant | pkg/pullsync/pullsync.go:372-388 | the chunks whose bits are set, in order; fails exactly for a short vector or a missing chunk |
| Pullsync.SelectedIsMissing | pkg/pullsync/pullsync.go:372-388 | bits written by the client select exactly what it misses, in order |
| Pullsync.Syncer.Receive | pkg/pullsync/pullsync.go:212-259 | for any peer: the outcome is determined by the deliveries and where reading ends; what is stored was asked for, is stamped and valid; fatal errors store nothing; on Topmost every asked hash is held if and only if every delivery was stamped |
| Pullsync.HeldIfStamped | pkg/pullsync/pullsync.go:212-259 | as many accepted deliveries as asked hashes are all of them, and all are held if and only if all are stamped |
| Pullsync.SkippedStamp | pkg/pullsync/pullsync.go:212-259 | two deliveries, the first without a valid stamp: the interval counts as synced and only the second chunk is held |
| Pullsync.SyncInterval | pkg/pullsync/pullsync.go:118-259 | with an honest peer it succeeds if and only if no missing hash is offered twice, and then holds every offered chunk and nothing else changed |
| Pullsync.RepeatedOffer | pkg/pullsync/pullsync.go:212-225 | an honest exchange that offers one missing chunk twice ends as unsolicited |
| Shed.PrefixRange | pkg/shed/index.go:426-442 | a key has prefix p if and only if p <= key < increment(p), or p <= key when p is all 0xFF |
| Shed.BytesIncrement | pkg/shed/index.go:426-442 | the least key above all keys with the prefix, none for 0xFF only |
| Shed.IncByteSlice | pkg/shed/index.go:510-523 | the next key of the same length, none for 0xFF only |
| Shed.SuccessorIsNext | pkg/shed/index.go:510-523 | read as a big-endian number that key is one more |
| Shed.Index.Iterate | pkg/shed/index.go:330-422 | forward: exactly the wanted keys in order up to a stop, or nothing if a key lies between start and prefix; reverse without a start: the same from the last key down, and when it fails; reverse from a start: the keys at or below it if and only if DownRight |
| Shed.IterationMisses | pkg/shed/index.go:330-422 | a concrete iteration that visits nothing although a key is wanted |
| Shed.Index.Last | pkg/shed/index.go:482-503 | is the maximum with the prefix if and only if no key lies between the prefix and its successor (or, for 0xFF, no other index follows) |
| Shed.LastMisses | pkg/shed/index.go:482-503 | a concrete index for which Last finds nothing although a key has the prefix |
| Shed.LongKeys | pkg/shed/index.go:482-503 | keys at least as long as the prefix rule that out |
| PullKeys.KeyOrder | pkg/localstore/localstore.go:359-384 | byte order of pull index keys within a bin is the order of BinIDs |
| Subscription.VisitedIds | pkg/localstore/subscription_pull.go:89-124 | an iteration visits the bin's ids from the cursor on, in order |
| Subscription.Iterated | pkg/localstore/subscription_pull.go:79-147 | one more iteration keeps: nothing repeated, nothing of any snapshot so far missed |
| Subscription.RunIsFeed | pkg/localstore/mode_put.go:457-466 | snapshots of any run of the store at all satisfy what the subscription relies on |
| Subscription.SubscribePull | pkg/localstore/subscription_pull.go:39-147 | strictly increasing ids, each genuine and in range; every entry in range of every snapshot is delivered, also when it closes early |
| SubscriptionRun.SubscribeToRun | pkg/localstore/subscription_pull.go:39-147 | SubscribePull over snapshots of any safe run sends, with its id, each chunk of the bin and range that was put before a snapshot in any mode but PutRequestCache and is stored since |
| Distance.DistanceRaw | pkg/swarm/distance.go:26-35 | the bytewise XOR, or an error for unequal lengths |
| Distance.DistanceCmp | pkg/swarm/distance.go:43-59 | agrees with comparing the XOR integers; 0 exactly for equal addresses |
| Distance.Proximity | pkg/swarm/proximity.go:20-38 | the nested loops find the first different bit among those examined, or MaxPO |
| Distance.FirstDifferentIs | pkg/swarm/proximity.go:20-38 | all bits before the proximity order agree and the bit at it differs |
| Distance.CloserByProximity | pkg/swarm/proximity.go:20-38 | strictly larger proximity means strictly smaller distance |
| Distance.ProximitySymmetric | pkg/swarm/proximity.go:20-38 | proximity is symmetric |
| Distance.AddressInBinIsInBin | pkg/localstore/subscription_pull.go:223-228 | addressInBin(bin) has proximity bin, up to MaxPO |
| Retrieval.ClosestPeer | pkg/retrieval/retrieval.go:343-392 | the unique nearest peer not skipped, nearer than this node unless upstream is allowed; NotFound exactly when there is none; the length error exactly when two addresses that get compared differ in length |
| Retrieval.OrderDoesNotMatter | pkg/retrieval/retrieval.go:343-392 | the answer does not depend on the order of the peers |
| Retrieval.HopsComeNearer | pkg/retrieval/retrieval.go:343-392 | a chain of hops without upstream peers strictly decreases the distance, never lowers the proximity and never revisits a node |
| Pricer.PricesAgree | pkg/pricer/pricer.go:34-41 | the price a requester expects is the price the server asks, for every chunk, if and only if both use the same poPrice |
| Pricer.PriceIs | pkg/pricer/pricer.go:34-36 | where prices fit, a peer at proximity po asks MaxPO - po + 1 times poPrice |
| Pricer.NearerIsNotDearer | pkg/pricer/pricer.go:34-36 | a nearer peer never asks for a higher price, for all chunks and peers, if and only if the highest price fits in a uint64 |
| Stamps.BucketInRange | pkg/postage/stampissuer.go:80-83 | a bucket is below 2^bucketDepth, so that the bucket array has a place for it |
| Stamps.BucketIsPrefix | pkg/postage/stampissuer.go:80-83 | bucket b holds the addresses whose first 32 bits lie from b to b + 1 times 2^(32-bucketDepth) |
| Stamps.SameBucket | pkg/postage/stampissuer.go:80-83 | two addresses share a bucket if and only if their first bucketDepth bits agree |
| Stamps.StampIssuer.Inc | pkg/postage/stampissuer.go:63-76 | the object gives what the model step gives; Counters, IssuesInOrder and IndexesDistinct say what that is over any calls |
| Stamps.Counters | pkg/postage/stampissuer.go:63-76 | after any calls a bucket counts its issues, never above capacity, and MaxBucketCount is their maximum |
| Stamps.IssuesInOrder | pkg/postage/stampissuer.go:63-76 | a call fails exactly when its bucket has given 2^(depth-bucketDepth) indexes, otherwise gives the next one |
| Stamps.CapacityExact | pkg/postage/stampissuer.go:68-70 | the capacity is 2^(depth-bucketDepth) if and only if the difference is below 32, and zero otherwise |
| Stamps.IndexesDistinct | pkg/postage/stampissuer.go:63-76 | no index is issued twice in any sequence of calls |
| Stamps.IndexRoundTrip | pkg/postage/stampissuer.go:88-100 | bytesToIndex undoes indexToBytes, and the bytes are bucket, then index, most significant first |
| Stamps.StampRoundTrip | pkg/postage/stamp.go:72-91 | a stamp survives its byte form if and only if its parts have their lengths, and then the form is batch, index, timestamp, signature |
| Stamps.PartsInPlace | pkg/postage/stamp.go:72-80 | whatever their lengths, each part stands in its place, cut where it is too long |
| Stamps.BytesRoundTrip | pkg/postage/stamp.go:72-91 | 113 bytes read and written again are unchanged |
| Stamps.PassesExactly | pkg/postage/stamp.go:156-162 | an index passes the checks if and only if its bucket is what the address begins with and it is below 2^(depth-bucketDepth) |
| Stamps.IssuedPasses | pkg/postage/stamp.go:156-162 | every issued index, through the bytes of the stamp, passes the bucket and index checks for its chunk, and for another chunk if and only if their first bucketDepth bits agree |

## Left out

- Hash errors in `pkg/bmt`: the base hash is total.
- Accounting across a `Connect` with operations outstanding, and failures of the state store.
- `reserveSize` in the local store, and the eviction workers: increments within one batch are lost, so it is no exact count.
- StoreStep: the clock increases strictly from step to step, and the addresses of one unreserve step are those of an index and so distinct.
- UnreserveInv: models one bin of `UnreserveBatch` as one step under the lock; in the source it may run outside it.
- UnreserveExact: nothing else happens between the bins of one call, and the store does not fail.
- FiledAlways: the item given to `updateGC` was read from the store and carries the stamp of the chunk.
- `Intervals.Merge`, and live syncing on the same key as historical syncing.
- Puller.Puller.HistSyncWorker: relies on a peer answering with a top no lower than the start asked for and below the last uint64.
- HistoricalSync.SyncBin: the peer's bin does not change while it is synced, its pages end at or below the cursor, and the store takes every chunk, as in SyncInterval.
- Shed.Index.Iterate: items are not decoded from keys.
- Subscription.SubscribePull: stop, close and context cancellation of a subscription, and trigger timing.
- Pullsync.SyncInterval: the asking node's store is a map that takes every chunk and drops none; which chunks the local store takes and replaces is stated by MissingHeld and HeldAfter. Storage errors, time-outs, cancellation, and the unwrapping of content chunks.
- Keccak, signature recovery and the owner check of `Stamp.Valid`.
- HTTP and debug APIs, libp2p, protobuf, metrics, logging, configuration, tags, pinning service, kademlia, cheques, pss, file splitting and joining: they would add members without hard properties.
