# On-demand coretime: a verified model

A parachain on on-demand coretime buys its block space order by order. Collators
take turns: relay heights are cut into slots of `2^width` heights, and the authority
`authorities[slot % n]` is to place the order for a slot. The parachain runtime then
rewards the collator whose turn it was, once per slot, against a proof that the order
exists. This project models both sides in Dafny and proves what holds of them over
every input, every run and every interleaving.

| file | what it models |
|---|---|
| `SlotArithmetic.dfy` | slots, order lifetimes and the round robin that node and pallet share |
| `OnDemandPallet.dfy` | the pallet as a class over its storage, and each call as a function of the state |
| `RewardRuns.dfy` | uniqueness, conservation and slot-width changes over runs of calls |
| `BlockRuns.dfy` | chains of blocks from genesis, and agreement of node and pallet |
| `OrderProtocol.dfy` | any number of collators as interleaved steps over their locked records |
| `OrderService.dfy` | one collator's tasks as code, shown to be courses of those steps |
| `EndToEnd.dfy` | network and pallet composed: the order behind each reward, and how often one order pays |
| `NarrowingChains.dfy` | the exact condition under which a chain never rewards more often than the network ordered |
| `EquivocationDefender.dfy` | the LRU counter against the unbounded counter it stands for |
| `ImportVerifier.dfy` | the import verifier that consults it |
| `SlotGuards.dfy` | the shared `fetch_max` guard and the basic collator's guard |
| `FeeCriteria.dfy` | the node's pool fold and the runtime's fee criterion |
| `CoreSearch.dfy` | the search for on-demand cores |
| `Wrappers.dfy` | `Option`, and a fact about set sizes |

Run `dafny verify dfyconfig.toml`.

## Readings of the source

- `>>` and `<<` on `u32` keep the low five bits of the amount, as Rust does without
  overflow checks; `ShiftAmount` says so. With overflow checks a width of 32 or more
  would panic instead. For widths below 32 the two agree and `ShiftAmount(w) == w`.
- The remainder by an empty authority list panics. The node can reach it
  (`Panicked`, `NoAuthorities`); the pallet cannot (`OrderPlacerAt` requires a
  non-empty list and its only caller proves it).
- `PreviousSlot` is set even if the currency refuses to mint. The model therefore
  speaks of *settlements* (slots used up) and of *paid* settlements (reward events).
- A `create_order` that errs or panics leaves the state alone. Since it is a mandatory
  inherent, such a block would not be valid; the chains here may contain it, so what
  is proved covers the valid ones and more.
- `create_order` checks the events for the para id that the inherent itself names.
- The core search's result stops the node when it is *true*, while the log line says
  the opposite (services/order/src/lib.rs:289-296). `HandleRelaychainStream` follows
  the code; the protocol leaves the gates open, so no run-level statement depends on it.
- The comment above the core search promises "any cores"; the code looks at the first
  busy core only. `AnswersExactlyWhenFirstBusyDecides` says exactly when the two agree.
- The comment above the basic collator's guard promises one block per slot per relay
  fork. `SameSlotTwiceOnOneFork` is a run that breaks it, on a block and its child.
  `OncePerForkExactly` is the exact condition for any notion of fork: between two
  arrivals of one fork the relay numbers must strictly rise.
  `OncePerSlotExactlyWhenRising` is the case of all blocks taken as one fork.
- Rewarded heights can go back after slots were made narrower.
  `RisingHeightsExactlyWhenNotNarrower` and `HeightsRiseUnlessNarrowed` give the exact
  condition, `NarrowingRewardsBackwards` the runs that show it.
- One order can be rewarded twice. The recorded relay block hash is never cleared
  (services/order/src/lib.rs:163, 350), so later blocks can carry the same proof, and
  `PreviousSlot` is the only guard against it; but the same relay height has a later
  slot once slots are narrower. `NarrowingPaysTwice` and `PaidTwice` show it for every
  narrowing, and `OrdersPayOnceExactly` is the exact condition: rewards are covered by
  orders if and only if the widths that admins set never get narrower.
  `NoMoreRewardsThanOrders` bounds the excess on every run.
- Everything other pallets, the relay chain, the client and the keystore answer is a
  parameter. Session key owners and Aura's list are what the runtime holds at the time.
- An atomic read-modify-write on one cell has one total order, relaxed or not, so the
  calls of all clones form one sequence.

## Model

| member | source | states |
|---|---|---|
| `SlotArithmetic.ShiftsBitByBit` | services/order/src/config.rs:77-80 | slots are `u32` shifts: nothing at zero, one bit per place on either side, amounts modulo 32 |
| `SlotArithmetic.LifetimeIsExactlyTheSlot` | services/order/src/chain.rs:122-133 | the heights in the anchor-and-length window an order asks for are exactly those with the order's slot |
| `SlotArithmetic.LifetimesPartitionHeights` | services/order/src/chain.rs:122-133 | every height lies in its own window and two windows are the same or disjoint |
| `SlotArithmetic.IncludedOrderHasItsPlacer` | services/order/src/config.rs:65-80 | an order included within its window falls in the slot, and under the placer, it was made for |
| `SlotArithmetic.PlacerExactlyInTurn` | services/order/src/config.rs:65-80 | among distinct authorities the `i`-th is the placer of exactly the heights whose slot is the `i`-th of its round |
| `SlotArithmetic.NewerSlotIffHeight` | pallets/on-demand/src/lib.rs:300-305 | a slot is newer than the previous one exactly from height `(previous + 1) * 2^w` on |
| `SlotArithmetic.SameSlotExactlyWhenSameShift` | pallets/on-demand/src/lib.rs:408-412 | beyond slot 0 a height has the same slot under two widths if and only if they shift by the same amount |
| `SlotArithmetic.RisingSlotsRisingHeights` | pallets/on-demand/src/lib.rs:408-412 | rising slots mean rising heights if slots did not get narrower |
| `SlotArithmetic.RisingHeightsExactlyWhenNotNarrower` | pallets/on-demand/src/lib.rs:346-353 | that holds for all heights if and only if the second width is not narrower |
| `SlotArithmetic.OneTurnPerRound` | services/order/src/config.rs:71-79 | any `n` consecutive slots give each of `n` authorities one turn |
| `SlotArithmetic.RoundRobinIsFair` | services/order/src/config.rs:71-79 | over any `k` consecutive slots each authority has floor(k/n) or ceil(k/n) turns |
| `SlotArithmetic.EqualShareOfHeights` | pallets/on-demand/src/lib.rs:397-412 | over any `n` whole slots each authority is scheduled for exactly `2^w` heights |
| `OnDemandPallet.OrdersPlaced` | template/runtime/src/configs/mod.rs:343-364 | a price and placer are returned exactly if the readable events hold that order for the expected para |
| `OnDemandPallet.OrdersPlacedInOrder` | template/runtime/src/configs/mod.rs:343-364 | orders come in the order of the events, one for each event that is an order for the para |
| `OnDemandPallet.Mint` | pallets/on-demand/src/lib.rs:421-423 | minting is all or nothing, touches one account, and when it fails |
| `OnDemandPallet.RewardSize` | pallets/on-demand/src/lib.rs:432-437 | the fixed reward is the configured amount |
| `OnDemandPallet.Paid` | pallets/on-demand/src/lib.rs:419-429 | a reward changes ledger and events together or nothing, and the event names payee and amount |
| `OnDemandPallet.PaidExactly` | pallets/on-demand/src/lib.rs:419-429 | when a reward is paid, in terms of issuance, balance and existential deposit |
| `OnDemandPallet.DueExactly` | pallets/on-demand/src/lib.rs:285-305 | the early returns let an order pass if and only if bulk mode is off, there are authorities, the exact fees reach the threshold and the height is past the slots already used up |
| `OnDemandPallet.OrderChangesStateExactly` | pallets/on-demand/src/lib.rs:277-338 | exactly when `create_order` changes the state, down to the events shown, and the state it then leaves |
| `OnDemandPallet.Pallet.constructor` | pallets/on-demand/src/lib.rs:223-231 | genesis sets threshold and mode; every other item starts empty or at zero |
| `OnDemandPallet.Pallet.CreateOrder` | pallets/on-demand/src/lib.rs:277-338 | the cascade of early returns changes state exactly under one condition (`Settles`), and which outcome each failure has |
| `OnDemandPallet.Pallet.OrderPlacerAt` | pallets/on-demand/src/lib.rs:397-406 | on a non-empty list the lookup always finds the scheduled key |
| `OnDemandPallet.Pallet.Reward` | pallets/on-demand/src/lib.rs:419-428 | mints first, logs only if the mint succeeded |
| `OnDemandPallet.Pallet.SetSlotWidth` | pallets/on-demand/src/lib.rs:346-353 | only an admin changes the width, any `u32` is accepted, nothing else changes |
| `OnDemandPallet.Pallet.SetThresholdParameter` | pallets/on-demand/src/lib.rs:362-372 | only an admin changes the threshold, nothing else changes |
| `OnDemandPallet.Pallet.SetBulkMode` | pallets/on-demand/src/lib.rs:381-393 | only an admin changes the mode, nothing else changes |
| `OnDemandPallet.Pallet.OnFinalize` | pallets/on-demand/src/lib.rs:236-242 | replaces the authorities by Aura's, nothing else |
| `RewardRuns.RewardsAreUnique` | pallets/on-demand/src/lib.rs:300-337 | on every run `PreviousSlot` never falls, settled slots strictly rise, and it is the slot of the last settlement |
| `RewardRuns.LaterStepLaterSlot` | pallets/on-demand/src/lib.rs:300-335 | of any two settling steps the later one has the later slot |
| `RewardRuns.StepConserves` | pallets/on-demand/src/lib.rs:334-335 | in each step money and reward events move together |
| `RewardRuns.MoneyIsConserved` | pallets/on-demand/src/lib.rs:419-428 | on every run each account's balance moves by the reward times its reward events, plus what other pallets did |
| `RewardRuns.IssuanceIsConserved` | pallets/on-demand/src/lib.rs:419-428 | the issuance moves by the reward times all reward events, plus what other pallets did |
| `RewardRuns.RewardsAreBounded` | pallets/on-demand/src/lib.rs:301-335 | reward events are the paid settlements, at most final minus initial `PreviousSlot` |
| `RewardRuns.SettingsAreLastSet` | pallets/on-demand/src/lib.rs:340-393 | on every run width, threshold, mode and authorities are those last set, by root, the admin origin or the hook |
| `RewardRuns.LogTellsSettings` | pallets/on-demand/src/lib.rs:340-393 | the event log only grows, and replaying it gives the settings |
| `RewardRuns.LogCounts` | pallets/on-demand/src/lib.rs:340-428 | it has one event for each call that changed a setting, one for each reward, and no others |
| `RewardRuns.BulkModeStopsRewards` | pallets/on-demand/src/lib.rs:286-288 | from the call that switches bulk mode on, nothing is settled or paid until an admin switches it off |
| `RewardRuns.HeightsRiseUnlessNarrowed` | pallets/on-demand/src/lib.rs:346-353 | if slots never get narrower along a run, settled heights strictly rise |
| `RewardRuns.NarrowingRewardsBackwards` | pallets/on-demand/src/lib.rs:346-353 | for every narrowing there is a run that settles a height no greater than the one before |
| `RewardRuns.NarrowingPaysTwice` | pallets/on-demand/src/lib.rs:300-335 | for every narrowing, one and the same inherent is paid before the change and again after it |
| `RewardRuns.NeverNarrowerExactly` | pallets/on-demand/src/lib.rs:346-353 | a run never narrows slots if and only if the list of widths its admins set never does |
| `RewardRuns.SplitAtLastNarrowing` | pallets/on-demand/src/lib.rs:346-353 | a run is one up to its last narrowing, followed by one that never narrows, with the settlements of both |
| `RewardRuns.NoRewardBeforeNextSlotBegins` | pallets/on-demand/src/lib.rs:300-305 | no settlement below height `(PreviousSlot + 1) * 2^w` |
| `RewardRuns.FirstRewardWaits` | pallets/on-demand/src/lib.rs:300-305 | after any width change, until the next one, all settlements wait for that height |
| `RewardRuns.NoRewardBeyondLastHeight` | pallets/on-demand/src/lib.rs:408-412 | if that height is not a `u32`, no run without a width change ever settles again |
| `RewardRuns.RewardReachableExactly` | pallets/on-demand/src/lib.rs:300-335 | a reward is reachable under the current width if and only if that height is a `u32` |
| `BlockRuns.SnapshotAfterBlock` | pallets/on-demand/src/lib.rs:236-242 | after a block the pallet holds Aura's list as of its end |
| `BlockRuns.InherentSeesPreviousBlock` | pallets/on-demand/src/lib.rs:236-242 | every inherent works with the list and the width the previous block left; at genesis with no list |
| `BlockRuns.RewardGoesToScheduledOwner` | pallets/on-demand/src/lib.rs:314-335 | every settlement pays the session owner of `authorities[slot % n]` of the previous block, whose order is proven; the first block never settles |
| `BlockRuns.EverySettlementIsAnInherent` | pallets/on-demand/src/lib.rs:245-281 | in a well-formed chain every step that settles is an inherent of some block, so the row above misses no reward |
| `BlockRuns.ChainIsARun` | pallets/on-demand/src/lib.rs:234-243 | a chain of blocks is one run of the pallet's steps |
| `BlockRuns.SlotSettledOnceInChain` | pallets/on-demand/src/lib.rs:301-305 | no slot is settled twice in a chain, within or across blocks |
| `BlockRuns.NodeAndPalletAgree` | services/order/src/lib.rs:312-314 | the key a node picks at the head of block N is the key the pallet picks in block N+1 for every height of the slot |
| `OrderProtocol.InvHolds` | services/order/src/lib.rs:301-351 | the lock and record invariant holds after every interleaving of every number of collators |
| `OrderProtocol.DoubleOrderNeedsDisagreement` | services/order/src/lib.rs:298-351 | with no assumption on views, two orders for one slot come from two nodes that saw different placers |
| `OrderProtocol.OneOrderPerSlot` | services/order/src/lib.rs:298-351 | with one view and no shared key, at most one order per slot goes through, by the holder of `authorities[slot % n]` |
| `OrderProtocol.SafeExactlyWithoutClash` | services/order/src/config.rs:65-80 | all runs over a set of heads are safe if and only if no two nodes can both be placer of a slot at them; all heads under given views are such a set |
| `OrderProtocol.AgreementHasNoClash` | services/order/src/lib.rs:312-326 | with no shared key nobody clashes as long as heads of one slot name one placer, however the list rotates from slot to slot |
| `OrderProtocol.ClashGivesTwoOrders` | services/order/src/lib.rs:312-351 | any two nodes that clash can both order the slot |
| `OrderProtocol.RecordStepLaws` | services/order/src/lib.rs:347-351 | each step: `last_slot` changes only upward and only when a successful submission is written; a failed one leaves the record alone |
| `OrderProtocol.RecordOnlyGrows` | services/order/src/lib.rs:162-163 | over every schedule `last_slot` never falls and a recorded hash never becomes `None` |
| `OrderProtocol.EventPassWritesHash` | services/order/src/lib.rs:162-163 | the event task's pass over a free record writes the hash and nothing else |
| `OrderProtocol.InherentPassReads` | template/node/src/service.rs:278-286 | the inherent builder's pass under the lock changes nothing |
| `OrderProtocol.RecordIsWhatWasWritten` | services/order/src/lib.rs:162-163 | after every interleaving a record is what its node's moves wrote: hash of the last event write, hash and slot of the last head ordered for |
| `OrderProtocol.LockIsExclusive` | services/order/src/lib.rs:301-302 | while one task holds the lock no other changes the record or gets the lock, whatever everybody else does |
| `OrderProtocol.HeadIsHandledToTheEnd` | services/order/src/lib.rs:204-234 | until the handling of a head ends, its task works with that head |
| `OrderProtocol.ChecksDecide` | services/order/src/lib.rs:303-327 | a head that is checked is stale, without authorities, somebody else's or the node's own, and exactly one of these |
| `OrderProtocol.LastSlotIsLatestOrder` | services/order/src/lib.rs:303-310 | with no write pending `last_slot` is exactly the slot of the node's latest order |
| `OrderProtocol.SlotZeroIsNeverOrdered` | template/node/src/service.rs:485-487 | a fresh record already counts slot 0 as done |
| `OrderService.Collator.constructor` | template/node/src/service.rs:485-487 | the record starts with no hash and slot 0 |
| `OrderService.Collator.HandleRelaychainStream` | services/order/src/lib.rs:238-354 | an order is placed exactly under one condition (`Places`), the record is written in full then and not at all otherwise, and when the task panics |
| `OrderService.Collator.OndemandEventTask` | services/order/src/lib.rs:145-169 | the hash is recorded exactly if an order for the para comes before a decoding failure; `last_slot` is untouched |
| `OrderService.PlacesExactly` | services/order/src/lib.rs:257-354 | when an order is placed and when the task panics, reading by reading, and the record that is left |
| `OrderService.OrderSeenStepByStep` | services/order/src/lib.rs:146-161 | events are looked at one by one and the first that cannot be decoded ends the pass |
| `OrderService.EventTaskIsACourse` | services/order/src/lib.rs:145-169 | the event task in one go does what its lock and write steps do one by one |
| `OrderService.EventTaskInNetwork` | services/order/src/lib.rs:145-169 | in the network it leaves the hash, and nothing else anywhere |
| `OrderService.LockCanBeReleased` | services/order/src/lib.rs:301-351 | whoever holds the lock can always give it back by a move of its own |
| `OrderService.HandlerIsACourse` | services/order/src/lib.rs:238-354 | the handler in one go does what its protocol steps do one by one, and submits exactly when it reports so |
| `OrderService.CourseIsARun` | services/order/src/lib.rs:204-234 | one node's course is a run of the network that changes this node as the course says, no other node, and adds one order for each successful submission |
| `OrderService.HandlerInNetwork` | services/order/src/lib.rs:238-354 | the handler run in the network leaves the record it computes and adds exactly one order if it places one, none otherwise |
| `EndToEnd.NetworkIsOrderly` | services/order/src/lib.rs:298-351 | every run over heads at which no two nodes clash leaves orders with distinct slots, each by a holder of its placer's key |
| `EndToEnd.OrderlyThroughRotations` | services/order/src/lib.rs:298-351 | so does every run, through rotations, joins and leaves, whose heads of one slot name one placer, if no key is shared |
| `EndToEnd.OneViewHasNoClash` | services/order/src/config.rs:65-80 | under one view it is enough that no key is in two keystores |
| `EndToEnd.RewardHasItsOrder` | pallets/on-demand/src/lib.rs:314-335 | whoever else orders for the para, a settlement has an order of the network, included at the settled height and signed for the rewarded owner |
| `EndToEnd.BackingOrderAnswers` | pallets/on-demand/src/lib.rs:300-335 | that order is for the settled slot if and only if slots are as wide as its collator saw them, and under the pallet's view it is by the scheduled key's holder |
| `EndToEnd.SettlementAnswered` | pallets/on-demand/src/lib.rs:314-335 | both hold of every settlement of every run, through changes of authorities and width |
| `EndToEnd.OneSettlementPerOrder` | pallets/on-demand/src/lib.rs:301-335 | on runs that never narrow slots no order stands behind two settlements |
| `EndToEnd.NoMoreRewardsThanOrders` | pallets/on-demand/src/lib.rs:301-335 | on every run rewards are at most the orders times one more than the number of narrowings |
| `EndToEnd.NoMoreUnlessNarrowed` | pallets/on-demand/src/lib.rs:301-335 | without a narrowing, at most the orders |
| `EndToEnd.ChainRewardHasItsOrder` | pallets/on-demand/src/lib.rs:236-335 | in a chain read by the network: the order's slot is the settled one if and only if the width at the para head its collator read equals that at the settling block's parent; if the lists agree too it is by the scheduled key's holder, and the only order of its slot if heads of one slot name one placer |
| `EndToEnd.PlacedOrderIsRewardable` | services/order/src/lib.rs:257-327 | an order the node places at a head is one the pallet would reward at every height of its lifetime, but for fees, a later slot and the proof |
| `EndToEnd.BulkModeStopsOrders` | services/order/src/lib.rs:275-283 | at a para head whose pallet is in bulk mode nobody orders |
| `EndToEnd.ChainNoMoreRewardsThanOrders` | pallets/on-demand/src/lib.rs:236-353 | a chain whose admins never narrow slots holds no more rewards than the network placed orders, through every change of authorities |
| `NarrowingChains.OrdersPayOnceExactly` | pallets/on-demand/src/lib.rs:301-353 | for every list of widths: in all chains and network runs with these widths rewards are covered by orders, if and only if no width is narrower than the one before |
| `NarrowingChains.PaidTwice` | pallets/on-demand/src/lib.rs:301-353 | for every narrowing there is a chain, from genesis but for the first width, and a run of the network with one order and two rewards, under every assumption above |
| `EquivocationDefender.TouchRefines` | client/consensus/on-demand-aura/src/equivocation_import_queue.rs:41-52 | one call keeps the cache a faithful, recency-ordered image of the call history and answers as the reference does |
| `EquivocationDefender.CacheRepresents` | client/consensus/on-demand-aura/src/equivocation_import_queue.rs:29-53 | every run leaves such a cache |
| `EquivocationDefender.LruAnswersExactly` | client/consensus/on-demand-aura/src/equivocation_import_queue.rs:41-52 | a call is rejected exactly when the unbroken chain of calls it extends has reached the limit |
| `EquivocationDefender.NeverStricterThanUnbounded` | client/consensus/on-demand-aura/src/equivocation_import_queue.rs:26-53 | the cache never rejects what the unbounded counter accepts |
| `EquivocationDefender.AgreesOnCloseRuns` | client/consensus/on-demand-aura/src/equivocation_import_queue.rs:26-53 | both answer alike on every run with fewer than a window of other slots between calls for the same slot |
| `EquivocationDefender.AgreesExactlyUpToWindow` | client/consensus/on-demand-aura/src/equivocation_import_queue.rs:26-53 | both agree on all runs over `d` slots if and only if `d` fits the window |
| `EquivocationDefender.CrowdedOutIsForgiven` | client/consensus/on-demand-aura/src/equivocation_import_queue.rs:35-46 | after a window of other slots the next call is accepted although the unbounded counter rejects |
| `EquivocationDefender.AcceptsExactlyTheFirst` | client/consensus/on-demand-aura/src/equivocation_import_queue.rs:46-51 | on such runs exactly the first `limit` calls of each slot are accepted |
| `EquivocationDefender.NaiveEquivocationDefender.InsertAndCheck` | client/consensus/on-demand-aura/src/equivocation_import_queue.rs:41-52 | the mutable defender gives the reference answer for its whole history |
| `ImportVerifier.Verifier.Verify` | client/consensus/on-demand-aura/src/equivocation_import_queue.rs:75-191 | exactly which blocks are accepted, which are counted, and how the import parameters change, reading by reading |
| `ImportVerifier.VerifyAll` | client/consensus/on-demand-aura/src/equivocation_import_queue.rs:75-191 | over any sequence of blocks through one verifier, the accepted sealed blocks of a slot are those `LetThrough` counts, and at most 16 on runs with fewer than a window of other slots between blocks of a slot |
| `ImportVerifier.AtMostLimitPerSlot` | client/consensus/on-demand-aura/src/equivocation_import_queue.rs:125-131 | on such runs that count is at most 16 |
| `AtomicGuard.AuraConsensus.Clone` | client/consensus/on-demand-aura/src/lib.rs:56-66 | a clone shares the cell |
| `AtomicGuard.AtomicU64.FetchMax` | client/consensus/on-demand-aura/src/lib.rs:223-225 | returns the old value and keeps the maximum of everything offered |
| `AtomicGuard.AuraConsensus.ProduceCandidate` | client/consensus/on-demand-aura/src/lib.rs:194-230 | a call builds exactly if its slot is above zero and above everything any clone offered before |
| `AtomicGuard.PassesExactlyTheMaxima` | client/consensus/on-demand-aura/src/lib.rs:223-225 | the calls that pass are exactly the strict left-to-right maxima above zero |
| `AtomicGuard.NoSlotPassesTwice` | client/consensus/on-demand-aura/src/lib.rs:215-225 | passing slots rise, whatever the interleaving |
| `AtomicGuard.FinalCellIgnoresOrder` | client/consensus/on-demand-aura/src/lib.rs:223-225 | every order of the same calls leaves the same cell, and its value passed |
| `BasicCollator.Run` | client/consensus/on-demand-aura/src/collators/basic.rs:124-258 | the loop processes the claims of the specification, with and without a block |
| `BasicCollator.ProcessedOneMore` | client/consensus/on-demand-aura/src/collators/basic.rs:207-257 | what one more request does: when it is processed, with or without a block, and the claim it leaves |
| `BasicCollator.LastClaimHoldsBack` | client/consensus/on-demand-aura/src/collators/basic.rs:207-257 | the last claim, even one without a block, holds back every later one of a slot no higher at a higher number |
| `BasicCollator.SlotsRiseWithNumbers` | client/consensus/on-demand-aura/src/collators/basic.rs:207-211 | along any stretch of processed claims with rising relay numbers the slots rise |
| `BasicCollator.OncePerForkExactly` | client/consensus/on-demand-aura/src/collators/basic.rs:184-211 | for every notion of fork, with slots computed from the relay parent: one block per slot and fork, for all slots and endings, if and only if the relay numbers strictly rise between any two arrivals of one fork |
| `BasicCollator.OncePerSlotExactlyWhenRising` | client/consensus/on-demand-aura/src/collators/basic.rs:199-211 | one block per slot over all forks together if and only if the relay numbers strictly rise throughout |
| `BasicCollator.SameSlotTwiceOnOneFork` | client/consensus/on-demand-aura/src/collators/basic.rs:199-211 | in a concrete block tree one slot is built on a block and again on its child |
| `FeeCriteria.ShouldPlaceOrder` | template/node/src/service.rs:94-130 | the saturating fold is the capped exact sum, and the decision is that of the exact sum |
| `FeeCriteria.FeeSumAddsEachFee` | template/node/src/service.rs:103-116 | the sum takes every queried fee in full and once, wherever it stands |
| `FeeCriteria.FeeSumMonotone` | template/node/src/service.rs:103-116 | a pool that contains another in any order has at least its fees |
| `FeeCriteria.DecisionIgnoresOrder` | template/node/src/service.rs:103-129 | the decision does not depend on the pool's iteration order |
| `FeeCriteria.DecisionIsMonotone` | template/node/src/service.rs:103-129 | more transactions never turn it off; a zero threshold is always met; an unreadable one never |
| `FeeCriteria.TotalIsCappedSum` | pallets/on-demand/src/lib.rs:455-466 | the chained saturating sum is the exact sum capped once |
| `FeeCriteria.CriterionIsExact` | pallets/on-demand/src/lib.rs:466-468 | saturation never changes the decision: it is the exact sum against the threshold |
| `FeeCriteria.CriterionIsMonotone` | pallets/on-demand/src/lib.rs:451-469 | more weight, multiplier or bytes, or a lower threshold, never turns the criterion off |
| `CoreSearch.OnDemandCoresAvailable` | services/order/src/chain.rs:193-234 | fails exactly at an unreadable core before any busy one; true exactly if the first busy core has a pool assignment |
| `CoreSearch.SearchStepByStep` | services/order/src/chain.rs:206-233 | what the search does at each kind of core: pass over, fail, or answer whether a pool assignment is anywhere in it |
| `CoreSearch.AnswersExactlyWhenFirstBusyDecides` | services/order/src/chain.rs:192-234 | whenever the search does not fail: true has a pool core as witness, and the answer is right exactly if the first busy core has a pool assignment or no core has |
| `CoreSearch.PoolBehindTaskIsMissed` | services/order/src/chain.rs:217-229 | a pool core behind a busy one is missed |

## Left out

- RPC, subxt clients, transaction signing and keystore internals: foreign calls; their answers are parameters.
- The transaction era as subxt encodes it: only the requested anchor and length are modelled.
- Storage-proof verification, decoding and key hashing: a proof is malformed or a readable or unreadable list of events.
- The relay chain's order queue and spot price: of them, and of the inherents that settle, `EndToEnd` assumes (`Genuine`) that the para id they name is this para's; that accounts standing for session owners order for it only through the protocol, and events name the account that signed; and that an order shows up in the events of one relay height. Where an order's slot matters it also assumes inclusion within the lifetime asked for (`InTime`) and that collators read the para chain the pallet runs on (`ReadsChain`). Other accounts may order freely.
- Forks of the relay chain and of the para chain in `EndToEnd`: both are one line of blocks.
- Restarts: the record lives in memory, so runs of the protocol are runs without restart.
- A submission that reports an error after the relay chain took the order: such orders are not in the model's log.
- Hooks that dispatch an admin call before the inherents of a block: blocks run inherents first.
- Block proposing, sealing and import, and the lookahead collator the template node starts: wrappers over Substrate.
- XCM, genesis presets, chain specification, command line, weights, benchmarks and the template pallet: no hard property.
- Logging and telemetry, including the percentage message of the node's criterion: no effect on any decision.
