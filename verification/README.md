# The cookie canister, modelled and verified in Dafny

The repository is an Internet Computer canister for a Bitcoin game. Gamers register by paying a fee into a
pool, click to claim cookies, and at the end the cookies are minted as a rune. The canister keeps four stores
that must agree with each other although each is changed by different messages:

- the chain of pool states, which registrations append to, finalizing cuts at the front and rolling back cuts
  at the end;
- the gamers with their cookies;
- the window of recent blocks;
- the records of unconfirmed and confirmed transactions.

This project models all messages that change them and proves what every run of messages keeps.

## How it is organized

| files | what they hold |
|---|---|
| `Types.dfy`, `GameRules.dfy`, `PoolChain.dfy`, `BlockWindow.dfy` | the values and the rules on them, one file per source component, with the laws that need no run |
| `Messages.dfy` | `World` (all stores) and one transition function per message |
| `Memory.dfy`, `GameObject.dfy`, `State.dfy`, `Reorg.dfy`, `Canister.dfy` | the objects whose methods change the stores in place, loops included; each message method is proved to deliver exactly what its transition function says |
| `History.dfy` | runs of messages, with a ghost memory of what the stores forget: dropped states, forfeited cookies, where the premine was recorded, and the unbounded chain of accepted blocks |
| `Outcomes.dfy`, `Provenance.dfy` | for every message and every reachable state, exactly when it succeeds, all that it then changes, and how it is refused otherwise; which message stored links and seed came from |
| `Ledger.dfy`, `Cookies.dfy`, `Mint.dfy` | conservation of nonce, satoshis and cookies over all runs; life cycle; rate bound; where the premine is recorded and how long |
| `Refinement.dfy`, `Reorgs.dfy` | the held window refines the unbounded chain; reorganizations, duplicates, round trip |
| `Finality.dfy`, `Sweep.dfy`, `Alignment.dfy`, `Sealing.dfy` | what finalizing makes permanent, when it succeeds, the runs on which it always does, and that it misses nothing |
| `Inverse.dfy`, `Stability.dfy` | rolling back undoes a run; validating before an await and committing after it |
| `BlockRuns.dfy`, `MintRuns.dfy` | concrete runs: of blocks (one that finalizes, one that traps, depth 64, a low block) and of the mint (premine lost twice, premine overflowing) |

A message replies Ok, replies Err, or traps. A trap (panic or failed unwrap) discards all edits of its message;
an Err reply keeps them. `Canister.Canister.Discard` is that reversal. Unchecked integer operations wrap, as in
a release build; checked ones are the source's.

## What is assumed of the environment

Only where a theorem names it:

- `Refinement.Genuine`: block heights are from 63 to 2^32 - 2, and a block that arrives with the hash of the
  block held at its height is that block.
- `Finality.Unrepeated`: no transaction is in two blocks of one chain.
- `Sweep.Fresh`: a registration's transaction has no state in the chain yet.
- `Reorgs.AllAccepted`: the pool address is set before the first block.
- `Alignment.Orderly`: a chain of blocks lists no transaction twice, none that was rolled back, and each of the
  pool's behind those it builds on; a registration brings a new transaction; no rollback takes back a state whose
  transaction is on the chain. `BlockRuns.OrderlyRunFinalizes` is such a run.
- `Provenance.OwnPrincipal`: a registration does not take the principal of another gamer.
- `Sealing.BringsNew`: a registration brings a transaction without a state, finalized states included.

The theorems of `Ledger`, `Cookies` and `Mint` assume nothing. In particular the rate bound needs no assumption on the
cooldown, because a gamer can claim a first time only if the cooldown is smaller than the clock.

## Where the code does not do what one would expect

- The unwraps in the finalization sweep are not safe on every run. `Sweep.BlockOutcome` gives the exact
  condition, and `BlockRuns.FinalizingCanTrap` a concrete run: a registration is confirmed in block 100 and rolled
  back; block 163 then traps, since the record stays and its state is gone. On orderly runs the unwraps are safe
  (`Alignment.OrderlyRunsNeverTrap`).
- Below height 63 the finalization bound wraps above the height, and a block answered Ok is pruned at once
  (`Refinement.ConfirmedHeightExact`, `Refinement.LowBlockIsPruned`, and `BlockRuns.LowBlockVanishes` for a
  concrete run).
- The nominal reorganization limit is 64. A reorganization that deep is recoverable exactly while 64 blocks are
  held (`Reorgs.RevertibleDepths`). If the pool address is set before the first block, at most 63 ever are
  (`Reorgs.ReorgDepthBound`); blocks that arrive before it are stored in spite of their error reply and prune
  nothing, so that depth 64 can be reached (`BlockRuns.DepthSixtyFour`). After 64 accepted blocks reverting them all
  would trap (`Reorgs.ReorgRoundTrip`).
- A registration that is validated before the mint and committed after it loses the premine from the last
  state (`Stability.MintDuringRegistration`, and `MintRuns.CommitLosesPremine` for a concrete run); a late commit
  is right exactly when no premine other than zero was recorded meanwhile (`Stability.LateCommitExact`).
- Rolling back the minted state loses the premine for good, since the status does not go back
  (`Mint.PremineRecorded`, and `MintRuns.RollbackLosesPremine` for a concrete run).
- The premine product can exceed 128 bits; the premine covers the cookies exactly when it does not
  (`GameRules.PremineCovers`). `MintRuns.PremineOverflows` is a run with a premine of zero for 2^127 cookies.

## Model

| member | source | states |
|---|---|---|
| Canister.Canister.Process | src/canister.rs:56-539 | any message moves the stores as the transition functions say, so every theorem about runs is about the object |
| Canister.Canister.NewBlock | src/canister.rs:416-502 | classifying, reverting, storing, confirming, sweeping and pruning in place deliver the block transition; a trap restores every store |
| Canister.Canister.AcceptBlock | src/canister.rs:437-501 | the part after classification, with the error reply for a missing address only after the block is stored |
| Canister.Canister.FinalizeDeepBlocks | src/canister.rs:466-486 | the three nested loops finalize the pool's deep confirmed transactions in height and in-block order, and fail exactly when that list cannot be finalized |
| Canister.Canister.ConfirmTxids | src/canister.rs:451-458 | the loop equals confirming the set of listed transactions at once |
| Canister.Canister.PruneBlocks | src/canister.rs:489-499 | collecting and removing heights one by one equals keeping the blocks above the bound |
| Canister.Canister.RollbackTx | src/canister.rs:506-539 | the pool is rolled back once per listing of its address; any failure traps and restores every store |
| Canister.Canister.InitBtcUtxo | src/canister.rs:81-96 | the push is discarded when the status panics, so that the object does what `Outcomes.InitBtcOutcome` says |
| Canister.Canister.EndGame | src/canister.rs:144-149 | the end flag set before a panic is discarded, so that the object does what `Outcomes.EndGameOutcome` says |
| Canister.Canister.UpdateRuneInfo | src/canister.rs:180-195 | popping, asserting, pushing and changing the status are one step or none, so that the object does what `Outcomes.MintOutcome` says |
| Canister.Canister.RollbackPools | src/canister.rs:530-536 | the loop over listed pools equals rolling back once per hit |
| State.ExchangeState.Finalize | src/state.rs:355-370 | rotating and truncating in place leave exactly the suffix from the transaction's state |
| State.ExchangeState.Rollback | src/state.rs:372-414 | the popping loop delivers the unwinding of chain and gamers, failures included |
| GameObject.Game.Withdraw | src/game/game.rs:97-119 | pays a gamer out exactly once and only after the end, with the error that each other case gets |
| Reorg.HandleReorg | src/reorg.rs:84-105 | the descending loop removes exactly the given heights and un-confirms exactly their transactions, or traps on a missing block |
| Reorg.UnconfirmTxids | src/reorg.rs:90-97 | the loop equals un-confirming the set of listed transactions at once |
| PoolChain.SweepIsOneDrop | src/canister.rs:466-486 | finalizing a list in order succeeds if and only if the list follows the chain, and then equals one drop to the last listed transaction |
| PoolChain.FinalizeGoesToFirst | src/state.rs:355-365 | finalizing goes to the first state of the transaction and fails exactly if there is none, whatever the ids are |
| PoolChain.FinalizeLaws | src/state.rs:355-370 | finalizing keeps the last state, is idempotent, and finalizing an earlier transaction first makes no difference |
| PoolChain.UnwindClosedForm | src/state.rs:387-411 | unwinding succeeds if and only if no initial state is popped and every withdrawer is a gamer the states after it did not register; it then restores prefix and gamers in one stroke |
| PoolChain.WithdrawalUndone | src/state.rs:403-409 | unwinding a withdrawal gives back the gamers before it |
| PoolChain.WellFormedUnwinds | src/state.rs:387-411 | on a chain with withdrawals, each by somebody registered before, no gamer is ever missing; the chain left is well-formed and exactly the surviving gamers who withdrew in the popped states are marked as not withdrawn |
| BlockWindow.TakeWhileIsFilter | src/canister.rs:467-468 | cutting the ordered heights at the bound is filtering them by it |
| BlockWindow.BlockHitsConfirmed | src/canister.rs:469-485 | the sweep finalizes only confirmed transactions of blocks it goes through |
| BlockWindow.UnconfirmInvertsConfirm | src/reorg.rs:90-97 | un-confirming undoes confirming if and only if none of the transactions was confirmed before |
| BlockWindow.ConfirmTwice | src/canister.rs:451-458 | confirming two sets in turn is confirming their union |
| BlockWindow.UnconfirmTwice | src/reorg.rs:87-98 | un-confirming two sets in turn is un-confirming their union |
| GameRules.PremineExact | src/utils.rs:56-60 | the premine is 120 hundredths of the claimed cookies less what falls out of the 128-bit word and below a hundredth |
| GameRules.PremineCovers | src/utils.rs:56-60 | the premine covers the claimed cookies if and only if the product fits 128 bits, and then exceeds them by a fifth |
| History.RollbackEffect | src/canister.rs:519-536 | a rollback that changes anything keeps a non-empty prefix and restores the gamers behind it, however often the pool is listed |
| Ledger.RegistrationAccepted | src/state.rs:274-349 | the exact condition under which a registration is accepted |
| Ledger.PreparedState | src/state.rs:326-348 | an accepted registration consumes the last state's output and adds one to its nonce and the fee to its balance |
| Ledger.LedgerReachable | src/state.rs:39-103 | in every reachable state the chain since the start is balanced and the life cycle holds: gamers only after initialization, the end flag exactly past Play |
| Outcomes.StartedExactly | src/state.rs:39-75 | initialization is over exactly when there is an address and a state, whichever came first, and the game is played exactly from then to its end |
| Outcomes.InitKeyOutcome | src/canister.rs:57-78 | never traps; answers the stored address, or stores exactly the fetched key and address and starts the game if the pool is seeded, or reports that nothing was fetched |
| Outcomes.InitBtcOutcome | src/canister.rs:81-96 | succeeds exactly until there is an address and a state; puts its own output on top of all earlier seeds and starts the game if the address is set |
| Outcomes.RegisterOutcome | src/canister.rs:277-412 | a registration joins exactly if it passes all tests; it then adds one gamer without cookies, one state, one link and one record and changes nothing else; otherwise it gets the error of the first test it fails and changes nothing |
| Outcomes.ClaimOutcome | src/game/game.rs:54-95 | a claim succeeds exactly for a linked gamer before the end, past the unwrapped cooldown and without overflow of the total; it adds the amount to gamer and total; each refusal has its error and changes nothing |
| Outcomes.EndGameOutcome | src/canister.rs:144-149 | the game can be ended exactly while it is played, with or without gamers |
| Outcomes.MintOutcome | src/canister.rs:180-195 | a mint is recorded exactly if it brings the premine after the end and before any other; it sets rune, status and the last state's runes; otherwise it traps without effect |
| Outcomes.RollbackOutcome | src/canister.rs:506-539 | a rollback succeeds exactly for a tracked transaction whose state is held and not the first; it takes back that state, all later ones and their gamers; it is refused without an address and traps otherwise |
| Outcomes.BlockReply | src/canister.rs:417-464 | a block is admitted exactly if it fits the chain; too far away it is unrecoverable, at a height that left the window it is not found, without an address it is stored and refused |
| Outcomes.RecordsAfterBlock | src/canister.rs:451-458 | a stored block forgets no record; confirmed are then exactly the tracked transactions that it lists or that were confirmed and are not reverted |
| Outcomes.LiquidityExact | src/canister.rs:198-205 | the runes for liquidity are the premine less the total, wrapped exactly when the premine is below it |
| Outcomes.OutcomesApply | src/canister.rs:33-539 | what the outcomes rely on holds after any run from the start |
| Provenance.LinksAreRegistrations | src/canister.rs:346-348 | over any run a principal is linked to the address it registered last, and registrations of others never change that |
| Provenance.NobodyLockedOut | src/canister.rs:131-140 | over any run in which nobody takes the principal of another gamer every gamer stays linked |
| Provenance.SeedIsLastMessage | src/canister.rs:81-96 | after any run the balance is the satoshis of the last output that seeded the pool plus one fee per gamer |
| Ledger.Conservation | src/canister.rs:198-205 | after any run the nonce counts the gamers, the satoshis are the seed plus one fee each, and the liquidity query is exact and within the pool |
| Ledger.ChainShape | src/state.rs:284-414 | from the first held state on, initial states come first, every registration is of a gamer registered once and adds one nonce and one fee to the state before it, and a registration at the front means finalizing reached it |
| Cookies.CookieConservation | src/game/game.rs:76-95 | the total claimed is what gamers hold plus what rolled-back gamers held; a failing claim changes nothing |
| Cookies.RateBound | src/game/game.rs:54-74 | cookies times cooldown plus one are at most the claim amount times the last click time, and a whole number of claims |
| Cookies.ClaimEarns | src/game/gamer.rs:41-47 | the cooldown sum never wraps and each claim earns one more cooldown |
| Cookies.FrozenAfterEnd | src/game/game.rs:54-57 | after the end the total and every surviving gamer stay as they are, whatever follows |
| Cookies.CookieClaim | src/game/game.rs:76-95 | a claim keeps the total balanced and the gamer's cookies earned |
| Mint.MintRecords | src/canister.rs:180-195 | a successful mint records the recomputed premine in the last state and nowhere else |
| Mint.PremineRecorded | src/canister.rs:180-195 | over any run after the mint the states before the minted one carry no runes and it and all later ones exactly the recomputed premine, until a rollback pops the minted state; from then on no state carries any |
| Mint.PremineSolvency | src/canister.rs:180-205 | after any run the premine is recorded from the minted state on and nowhere else; it covers all gamers and leaves a fifth while the product fits |
| Refinement.ConfirmedHeightExact | src/canister.rs:460-461 | the bound is 63 below the height if and only if the height is at least 63; otherwise it is above it |
| Refinement.LowBlockIsPruned | src/canister.rs:489-499 | a block below height 63 that is answered Ok is not held afterwards |
| Refinement.DetectMatches | src/reorg.rs:31-82 | classifying against the held window gives what the unbounded chain gives |
| Refinement.EndOfHeights | src/reorg.rs:52-58 | above the last 32-bit height only a block at height 0 extends the chain and every other is unrecoverable |
| Refinement.RevertSucceeds | src/reorg.rs:84-99 | from any held height to the tip no block is missing, and exactly those blocks and transactions are reverted |
| Refinement.AdmittedBlocks | src/canister.rs:417-458 | storing an admitted block makes the stores hold the window of the extended chain, with only its transactions confirmed |
| Refinement.BlockInvRun | src/canister.rs:416-502 | every run of genuine blocks and other messages keeps the refinement |
| Reorgs.WindowRefinement | src/canister.rs:416-502 | in every reachable state the blocks are the chain above the peak less 63, and a recoverable block never meets a missing one |
| Reorgs.WindowBound | src/canister.rs:489-499 | after an accepted block at most 63 are held, and a duplicate adds none |
| Reorgs.RevertibleDepths | src/reorg.rs:59-78 | the depths of recoverable reorganizations are exactly those up to the number of blocks held, and up to 64 |
| Reorgs.ReorgDepthBound | src/reorg.rs:59-67 | after any run depth 64 is recoverable exactly while 64 blocks are held, and never if the address was set before the first block |
| Reorgs.DuplicateIsIdempotent | src/reorg.rs:68-73 | delivering an accepted block again is classified as a duplicate and changes no store |
| Reorgs.ReorgRoundTrip | src/reorg.rs:84-99 | extending by n blocks, or starting with them, and reverting n succeeds if and only if n is at most 63; blocks return less the pruned ones, records return if and only if none was confirmed before |
| Finality.FinalityOfStates | src/state.rs:355-411 | over any run the committed states are only continued and their gamers stay with no fewer cookies |
| Finality.FinalityOfRecords | src/reorg.rs:87-99 | over any run no confirmation below the window is ever taken back |
| Sweep.BlockOutcome | src/canister.rs:460-486 | an admitted block replies Ok if and only if the deep transactions follow the chain; it leaves the chain from the last of them on, or traps without effect |
| Sweep.DistinctRun | src/canister.rs:341-344 | with fresh transactions the ids in the chain stay distinct |
| Sweep.FinalizedAreSealed | src/canister.rs:466-499 | whatever an accepted block finalizes is confirmed below the window from then on |
| Sweep.FinalizedAreCommitted | src/canister.rs:466-486 | whatever an accepted block finalizes is among the committed states from then on |
| Sweep.RolledBackBlocksFinalizing | src/canister.rs:476-479 | a deep confirmed transaction without a state makes the block trap |
| Alignment.OrderlyReplies | src/canister.rs:466-486 | on aligned chains no orderly block traps, and it is answered Ok exactly when it is admitted with the address set |
| Alignment.OrderlyRunsNeverTrap | src/canister.rs:416-502 | on every orderly run from the start no block message traps, whatever reorganizations, rollbacks and duplicates it contains |
| BlockRuns.FinalizingCanTrap | src/canister.rs:476-479 | a concrete run from the start after which a block message traps |
| BlockRuns.OrderlyRunFinalizes | src/canister.rs:466-486 | a concrete orderly run whose registration is confirmed, gets deep and is finalized |
| BlockRuns.LowBlockVanishes | src/canister.rs:460-499 | a concrete run whose block at height 10 is answered Ok and changes nothing |
| Sealing.SealedAreCommitted | src/canister.rs:466-486 | over any run with distinct transactions everything confirmed below the window is finalized, and rolling it back traps |
| BlockRuns.DepthSixtyFour | src/canister.rs:445-464 | 64 blocks delivered before the address is set are all held and make a reorganization of depth 64 recoverable |
| Inverse.AfterRegister | src/canister.rs:317-412 | an accepted registration appends the state of its transaction, tracks it, and keeps the ledger |
| Inverse.RollbackInvertsRun | src/state.rs:372-414 | after a registration and any run that does not roll back below it, rolling it back succeeds if and only if finalizing has not reached it, and gives back the chain less the finalized part and the gamers before it |
| Inverse.TrackedRollback | src/canister.rs:519-536 | for a tracked transaction the rollback message is one rollback of the chain |
| Stability.ValidationIsStable | src/canister.rs:317-344 | claims, blocks, the end and repeated initialization between validation and commit change neither the new state nor the outcome |
| Stability.LateCommitExact | src/canister.rs:317-344 | whatever but registrations and rollbacks comes between, committing an earlier validation equals registering now if and only if the last state's runes are unchanged, that is if no premine other than zero was recorded in between |
| Stability.MintDuringRegistration | src/canister.rs:180-195 | over any such run with the mint in it, the commit leaves a last state without runes, and the premine stays recorded if and only if it is zero |
| MintRuns.CommitLosesPremine | src/canister.rs:317-344 | a concrete run on which a registration validated before a mint of 120 runes and committed after it leaves a last state with none |
| MintRuns.RollbackLosesPremine | src/canister.rs:180-195 | a concrete run on which the minted state is rolled back: only the seed is left and every further mint traps |
| MintRuns.PremineOverflows | src/utils.rs:56-60 | a concrete run with 2^127 cookies whose premine is zero and whose liquidity amount wraps |
| Stability.Reachable | src/canister.rs:33-539 | ledger, cookies, premine and records agree in every reachable state |

## Left out

- ExecuteRegister: one step from validation to commit; several registrations in flight at once are not modelled. `Stability` treats one registration with other messages in between.
- InitKey: one step from the address check to the update; two calls in flight at once are not modelled. The key service's answer is a parameter.
- RegisterCall: decoding the PSBT and its outpoint, signing it and resolving the principal are parameters that say whether they succeed; an intention index out of range is not modelled.
- Records: the map keyed by transaction and confirmation flag is held as two maps, one per flag.
- Utxo: its outpoint is an opaque string, as the formats live in ree_types, which is not part of this model.
- Game: the fields for the start time and for added liquidity are never read on a modelled path and are left out.
- The add_liquidity and withdraw arms and their validation end in an unfinished macro and never commit. Only `Game.Withdraw` and the rollback of a withdrawal are modelled.
- Error texts are shortened where the source formats arguments into them.
- `reset_blocks`, `post_upgrade`, access guards, `etch_rune` and the display queries.
- Stable-memory layout, serialization and logging.
- In a build with overflow checks the wrapping operations would trap instead; the theorems that rule out a wrap cover both builds, except that a block at height exactly 63 traps there.
