# Verified model of Swimchain

Dafny models of the parts of Swimchain that carry state or run a protocol, with
proofs of what those parts are for. `dafny verify dfyconfig.toml` checks the
whole project.

| part | files |
|---|---|
| Chain store: fork choice, height index, weight memo, branch ends, sync locators | `ChainModel`, `ForkChoice`, `ForkTips`, `HeightGap`, `Locator`, `ChainStore` |
| Fork and chain diagnosis tools | `ForkDiag` |
| IRC proxy: line framing and the session state machine | `IrcFraming`, `IrcSession`, `IrcProxy` |
| Message wall: polling against optimistic writes | `EpochGuard` |
| Chips: the fold, its rules in numbers, its order, settling copies, char supply and upgrade ladders | `ChipsEngine`, `ChipsRules`, `ChipsOrder`, `ChipsCopies`, `ChipsCredit`, `ChipsLedger`, `ChipsLadder`, `Shelf`, `FlowSim` |
| Chips: queue, sender, pending overlay, retirement and buy guard | `ChipsQueue`, `ChipsSender`, `ChipsPending`, `ChipsRetire`, `ChipsSettling`, `BuyDesk`, `ChipsBowl` |
| Network, lane and availability simulations | `PeerCache`, `NetworkSim`, `LaneSim`, `ApproxCache` |
| Rate limiter and claim proof of work | `RateLimiter`, `ClaimPow` |
| Shared option type and arithmetic | `Wrappers` |

Code that changes fields is a class whose methods are proved against value-level
functions; protocols are `Step` and `Run` functions with an invariant over every
run.

## Assumptions

- Hashes do not collide: a block carries its own hash, and one hash names one block.
- Heights rise by one along stored parent links (`Linked`). `src/blocks/validation.rs:622-662` says so,
  but no path that stores a block calls it: the header path checks linkage, difficulty and time only.
  What a block of another height does to the index is `HeightGap`. Where a proof needs parentless
  blocks at height zero it says so (`RootsAtZero`); nothing enforces that either.
- The IRC proxy receives decoded characters, and a WebSocket error counts as the client leaving.
- The upgrade catalogue has pairwise disjoint ladders of distinct jars (`WellFormed`);
  `FlowSim` also uses that prices and vendor depths rise along a ladder (`RisingLadders`).
- A queued bank claims the bits its proof has, since the client mined it (`Mined`, `TrueBits`). A content
  id on the chain is never a synthetic id of the pending overlay, and two entries never share one.
- In the buy guard, authoring times count up, as one millisecond allocator provides
  (`chips-client/src/lib/cooking.ts:373-379`); elsewhere they may repeat.
- Random draws, clock readings, network replies and map iteration orders are arbitrary.
- Floating-point arithmetic is exact; integers are unbounded except the saturating chain weight.
- The rate limiter is used from one thread, and a sleep lasts at least as long as asked.
  A rate of zero or a chunk size of zero makes the original loop for ever, so those
  calls are excluded by `requires`.

## Where the code and its promises differ

- A parentless block that claims a height above zero leaves stale entries in the height
  index: `ForkChoice.PutKeepsCanonicalIff` and `ForkChoice.RebaseIsExact` give the exact condition,
  `ForkChoice.StaleIndexWitness` a case. What still holds then is `ForkChoice.PutKeepsIndexed`.
- A heavier branch whose lower blocks arrive last is not adopted on delivery
  (`ForkChoice.PutKeepsHeaviestIff`, `ForkChoice.OutOfOrderWitness`). The adoption pass repairs this
  if and only if no branch end past the six it lists outweighs what it picks
  (`ChainStoreModule.ChainStore.AdoptHeaviestFork`, `ForkTips.UnlistedDecide`); it can miss one with
  seven (`ForkTips.CrowdedOutWitness`).
- A header whose height does not follow its parent's is stored, can be adopted, and then leaves an index
  in which it does not stand on its parent (`HeightGap.ChildStaysClosedIff`, `HeightGap.GapWitness`).
- `chain_diag` calls an index truncated whenever a stored block lies above the tip, also right after
  a reorganisation to a shorter, heavier chain (`ForkDiag.TruncatedIff`, `ForkDiag.FalseAlarmWitness`).
- The locator documentation says an asker stuck behind a fork resumes from its branch end. It
  does so exactly when none of its three highest blocks is on the other chain
  (`Locator.ForkTipResumesIff`, `Locator.SharedTopWitness`).
- Lines from the IRC server that are completed while the browser's connection is closing are dropped
  (`IrcSession.NothingLostIff`, `IrcSession.ClosingLosesALine`).
- A written wall entry can leave the list once a whole page of newer entries buries it
  (`EpochGuard.PageMissesIff`, `EpochGuard.WrittenEntriesStay`, `EpochGuard.BuriedEntryLeaves`).
- `chipsSettling.ts` says a settling copy never changes the fold. That holds for banks, dips,
  tips and spends (`ChipsCopies.SettlingCopiesAreInvisible`, `ChipsCopies.SpendCopyIsNoOp`). A copy
  of a buy or a refusal is applied again exactly when the bowl has gone over since and the jar is
  open there (`ChipsCopies.BuyCopyActsIff`, `ChipsCopies.BurnCopyActsIff`, with
  `ChipsCopies.BuyCopyRebuysAfterTip` and `ChipsCopies.BurnCopyPaysAgainAfterTip`), and such copies
  do linger (`ChipsSettling.UngrantedBuyLingers`, `ChipsSettling.BurnsNeverMatch`).
- `confirmedBase.ts` promises that a reply once verified stays verified. `mergeConfirmed` looks up
  verification results by content id while `verifyReplies` stores them by proof, so the confirmed
  base keeps none of them: a bank is counted exactly as long as its proof is queued
  (`ChipsSettling.BankCountedIff`), and a retired one is lost (`ChipsSettling.RetiredBankIsLost`).
  Retiring confirmed entries is invisible exactly when every retired bank's proof is queued once more
  (`ChipsRetire.RetiringIsInvisibleIff`, `ChipsSettling.PollRetiresUnseenIff`).
- The header of `chipsSettling.ts` says the confirmed twin is always folded first. A twin served from the
  mempool has no height and sorts after the copy of the same millisecond, since `pending:` sorts before
  `sha256:`. That is harmless if nothing else of that millisecond is pending, or dips beside a dip only
  (`ChipsRetire.MempoolTwin`); otherwise it need not be (`ChipsRetire.TiedBuyIsUndone`).
- `moveKey` leaves the amount of a dip out, so a dip can be retired by another of the same millisecond,
  two of which the source records: it is counted exactly while its own amount is queued or on chain
  (`ChipsSettling.DipCountedIff`, `ChipsSettling.TwinTimeLosesDip`). Other moves than banks and dips are
  counted until they expire (`ChipsSettling.NoCreditGap`).
- A buy is to be retired only once the fold has honoured it, but the jars consulted include what the
  local copy itself buys (`ChipsSettling.RetiredBuyLosesJarIff`, `ChipsSettling.RetiringUnbuysJar`).
- Observers agree if a content id names one reply (`ChipsOrder.ObserversAgree`); otherwise they
  need not (`ChipsOrder.TwoCopiesDisagree`).
- Crumbs are meant to go soft; with the airtight bowl and both cellar shelves they grow
  (`BuyDesk.DecaysIff`, `BuyDesk.ShelvedCrumbsGrow`), so more can be shown than the fold has, and the
  fold can hold more than its bowl (`ChipsBowl.FullBowlHoldsIff`, `ChipsBowl.FullBowlRunsOver`).
- `sogProjection.ts` shows the bowl as it will be once the next move lands. With the tile ability the
  display does not soften but the fold does, so that holds exactly when the tile is not owned or nothing
  has softened (`BuyDesk.ScreenKeepsPromiseIff`, `BuyDesk.TileShowsMore`).
- The comment on `payoutFor` says no two of its steps may be swapped. Only the place of the seasoning
  matters, since nothing before it rounds (`ChipsRules.OnlySeasoningRounds`,
  `ChipsRules.SeasoningHasItsPlace`).
- Salt is meant to make two short runs beat one of twice the length; that holds exactly when each is
  deep enough to be tipped (`ChipsRules.TwoShortRunsBeatIff`).
- A click checks neither refusals nor ladder order, so an accepted buy can still be rejected by the
  fold (`BuyDesk.BurstFoldsIff`, `BuyDesk.Desk.Spree`, `BuyDesk.RejectedAnyway`).
- A jar carried through a tip breaks ladder order unless it is loose or a first rung
  (`ChipsLadder.TipKeepsLadderIff`, `ChipsLadder.CarriedRungWitness`).
- A click between a fold and its render can overspend (`BuyDesk.ClickBeforeRender`, `BuyDesk.Overspend`).
- The approximate cache counter can underflow (`ApproxCache.SafeIff`).
- The lane assignment loop cannot finish with too few lanes (`LaneSim.AssignmentFinishesIff`).
- `flowsim.ts` keeps shorter ladders than the catalogue; buying cheapest first still respects
  the full ones (`FlowSim.CheapestIsInOrder`). Its early exit never fires, because the first
  dip tier never yields an event.

## Model

| member | source | states |
|---|---|---|
| `ChainModel.IndexDomain` | src/storage/chain.rs:2438-2545 | the ancestry of a block has exactly one entry per height from its lowest reachable ancestor to itself |
| `ChainModel.IndexPrefix` | src/storage/chain.rs:2438-2545 | entry k of an ancestry is a stored block of height k whose own ancestry is the part up to k |
| `ChainModel.WeightStable` | src/storage/chain.rs:2294-2350 | a weight once known never changes as more blocks are stored, which is what makes the memo sound |
| `ChainModel.IndexStable` | src/storage/chain.rs:2438-2545 | the ancestry of a fully linked block never changes as more blocks are stored |
| `ChainModel.ParentIsLighter` | src/storage/chain.rs:2308-2350 | weights never fall along a chain, saturation included |
| `ChainModel.WeightIsWork` | src/storage/chain.rs:2308-2350 | a fully linked block weighs the summed work of every block of its ancestry, cut off at the largest 64-bit number |
| `ForkChoice.RebaseIsExact` | src/storage/chain.rs:2438-2545 | the in-place rewrite of the height index (stop at the first agreeing entry, delete above the new tip) yields exactly the new ancestry if and only if the new chain starts no higher than the old one |
| `ForkChoice.ClosedIsAncestry` | src/storage/chain.rs:2438-2545 | every entry of an index closed under parents has its whole ancestry in the index, height by height |
| `ForkChoice.CanonicalIff` | src/storage/chain.rs:2438-2545 | on a node the index is exactly the ancestry of the tip if and only if it holds nothing below the lowest ancestor of the tip |
| `ForkChoice.PutKeepsIndexed` | src/storage/chain.rs:2582-2611 | every block whose height follows its stored relatives, parentless or not, complete or not, leaves an index closed under parents that ends in the tip and lists nothing heavier than it |
| `ForkChoice.PutAdoptsIff` | src/storage/chain.rs:2253-2292 | a delivery makes the block the tip if and only if its ancestry is stored and there is no tip to beat, or it extends the tip, or outweighs it, or the tip has a gap below it and records less cumulative work; otherwise only the block is filed |
| `ForkChoice.PutKeepsCanonicalIff` | src/storage/chain.rs:2582-2611 | an index that was exactly the ancestry of the tip stays so if and only if the block is not adopted or its chain starts no higher than the old one |
| `ForkChoice.RootedAtZeroIsCanonical` | src/storage/chain.rs:2438-2545 | with parentless blocks at height zero the index is always exactly the ancestry of the tip |
| `ForkChoice.TipAfterPut` | src/storage/chain.rs:2582-2611 | the tip after filing a block weighs exactly the heavier of the old tip and the block, if the block is fully linked, and as much as the old tip otherwise |
| `ForkChoice.StaleIndexWitness` | src/storage/chain.rs:2438-2545 | a parentless block at height 5 is adopted and leaves foreign entries below it |
| `ForkChoice.PutKeepsHeaviestIff` | src/storage/chain.rs:2582-2611 | after filing a block the tip is still a heaviest complete chain if and only if no block already waiting on the arrival would outweigh both the tip and the arrival; the condition reads only the state before the call |
| `ForkChoice.PutKeepsHeaviest` | src/storage/chain.rs:2582-2611 | filing a block with no stored children keeps the tip heaviest |
| `ForkChoice.OutOfOrderWitness` | src/storage/chain.rs:908-924 | a heavier branch completed from below is not adopted by the delivery that completes it |
| `ForkChoice.RunKeepsIndexed` | src/storage/chain.rs:2582-2611 | over every run of such deliveries, in any order, the index is closed under parents and ends in the tip, and is exactly its ancestry when parentless blocks are at height zero |
| `ForkChoice.ParentFirstRunIsHeaviest` | src/storage/chain.rs:2253-2292 | over every run that delivers parents first, the tip is a heaviest stored chain |
| `ForkChoice.NodesConverge` | src/storage/chain.rs:2253-2292 | two nodes that receive the same blocks, each parents first and in any order, end on tips of equal weight, and on the same tip when one chain is strictly heaviest |
| `ForkTips.CollectLeaves` | src/storage/chain.rs:799-820 | the scan finds exactly the off-chain blocks no off-chain block builds on |
| `ForkTips.FirstInOrder` | src/storage/chain.rs:799-820 | sorting and truncating keeps the foremost leaves: strictly ordered, all leaves when they fit, and nothing dropped precedes anything kept |
| `ForkTips.TipsAreHighest` | src/storage/chain.rs:799-820 | the listed ends fall in height, rise in hash at equal height, are six at most, and no end left out is higher than one listed |
| `ForkTips.LeafAbove` | src/storage/chain.rs:908-924 | every fully linked off-chain block is continued by a branch end at least as heavy |
| `ForkTips.PutKeepsRooted` | src/storage/chain.rs:2582-2611 | a node that has a tip keeps one, and a complete stored block implies a tip |
| `ForkTips.UnlistedDecide` | src/storage/chain.rs:925-948 | for any number of branch ends: nothing stored outweighs w if and only if no unlisted complete branch end does |
| `ForkTips.StayingIsHeaviestIff` | src/storage/chain.rs:925-948 | when the pass finds nothing, the tip is a heaviest chain if and only if no unlisted complete branch end outweighs it |
| `ForkTips.AdoptingIsHeaviestIff` | src/storage/chain.rs:925-948 | after the pass adopts its pick, the tip is a heaviest chain if and only if no unlisted complete branch end outweighs the pick |
| `ForkTips.LeavesDecideHeaviest` | src/storage/chain.rs:908-924 | the tip is a heaviest chain if and only if no complete branch end outweighs it |
| `ForkTips.FewAreAllListed` | src/storage/chain.rs:799-820 | with at most six branch ends none is unlisted |
| `ForkTips.CrowdedOutWitness` | src/storage/chain.rs:799-820 | with seven branch ends the pass can miss a heavier complete chain |
| `Locator.SameAncestry` | src/storage/chain.rs:1055-1071 | two consistent stores holding the same block completely give it the same ancestry |
| `Locator.AgreeBelow` | src/storage/chain.rs:1055-1071 | canonical chains that agree at a height agree at every lower height |
| `Locator.LeafIsAbove` | src/storage/chain.rs:978-1035 | a branch end of one node that is canonical on the other lies above everything the two share |
| `Locator.ResumePoint` | src/storage/chain.rs:1055-1071 | for any two nodes on one genesis a match exists, it backs off at most twice the distance to the deepest agreement, and the next block streamed connects to a block the asker holds |
| `Locator.ForkTipResumesIff` | src/storage/chain.rs:978-1035 | for an asker with a branch end on the other chain, the match resumes at or above that branch end if and only if none of the asker's three highest blocks is on the other chain |
| `Locator.SharedTopWitness` | src/storage/chain.rs:978-1035 | two concrete nodes: the match is genesis although the asker holds, and lists, a block two heights above it |
| `Locator.NextLinks` | src/storage/chain.rs:1086-1109 | consecutive index entries are parent and child, so a streamed range is a chain |
| `ChainStoreModule.BranchIsRebase` | src/storage/chain.rs:2438-2545 | writing the collected branch over the old index is exactly the value-level rewrite of the index |
| `ChainStoreModule.ReorgIs` | src/storage/chain.rs:2438-2545 | truncating and writing together give the rewritten index, which stays coherent when the new tip is no lighter, and list exactly the displaced blocks |
| `ChainStoreModule.DisplacedIsExact` | src/storage/chain.rs:2438-2545 | the collected list is exactly the blocks that were canonical and no longer are |
| `ChainStoreModule.ChainStore.constructor` | src/storage/chain.rs:2294-2350 | an empty store satisfies every invariant |
| `ChainStoreModule.ChainStore.ChainWeight` | src/storage/chain.rs:2308-2350 | the memoised walk returns the saturating sum over the ancestry, None exactly when an ancestor is missing, and keeps the memo true |
| `ChainStoreModule.ChainStore.LatestHeight` | src/storage/chain.rs:770-784 | the greatest indexed height, None exactly when the index is empty |
| `ChainStoreModule.ChainStore.IsHeavierThanBestTip` | src/storage/chain.rs:2253-2292 | for any tip, present, missing or with missing ancestors, the weight comparison with its cumulative-work fallback |
| `ChainStoreModule.ChainStore.NewBranch` | src/storage/chain.rs:2438-2545 | the parent walk collects the branch down to the first canonical block, and fails exactly when an ancestor is missing |
| `ChainStoreModule.ChainStore.Truncate` | src/storage/chain.rs:2438-2545 | entries above the new tip are removed and listed |
| `ChainStoreModule.ChainStore.Reassign` | src/storage/chain.rs:2438-2545 | entries along the branch are overwritten and the displaced ones listed |
| `ChainStoreModule.ChainStore.MakeCanonical` | src/storage/chain.rs:2438-2545 | either nothing changes because an ancestor is missing, or the index is rewritten onto the new ancestry, is exactly that ancestry when parentless blocks are at height zero, and the result lists once each the blocks that lost their place |
| `ChainStoreModule.ChainStore.MakeChildCanonical` | src/storage/chain.rs:2438-2545 | for a block of any claimed height on a canonical parent: the index it leaves, the blocks it displaces, and that the index stays closed under parents if and only if the height is one above the parent's |
| `ChainStoreModule.ChainStore.PutRootBlock` | src/storage/chain.rs:331-339 | filing a block leaves index, tip and memo right |
| `ChainStoreModule.ChainStore.PutRootBlockWithForkResolution` | src/storage/chain.rs:2582-2611 | the method refines the value-level step, reports a new tip exactly when the block is adopted, and lists exactly the displaced blocks |
| `ChainStoreModule.ChainStore.ForkBranchTips` | src/storage/chain.rs:799-820 | the branch ends, foremost first, at most six |
| `ChainStoreModule.ChainStore.HeaviestAdoptableForkTip` | src/storage/chain.rs:925-948 | the heaviest complete listed branch end that outweighs the tip, None exactly when there is none |
| `ChainStoreModule.ChainStore.AdoptHeaviestFork` | src/node/router/router.rs:1953-1985 | the pass ends on the heaviest of the tip and the listed complete branch ends, reorganises exactly when one of those is heavier than the tip, and leaves the node on a heaviest chain if and only if no unlisted complete branch end outweighs that |
| `ChainStoreModule.ChainStore.GenerateLocator` | src/storage/chain.rs:978-1035 | the best tip comes first, every listed branch end is named, canonical hashes run downwards, and the list is logarithmically long; with no gap in the index the two heights below the tip follow it and every height is covered to within twice its depth |
| `ChainStoreModule.ChainStore.RootsAtZeroIsGapless` | src/storage/chain.rs:978-1035 | the index has no gap when parentless blocks are at height zero |
| `ChainStoreModule.ChainStore.TopThree` | src/storage/chain.rs:978-1035 | the first entries are the three highest blocks |
| `ChainStoreModule.ChainStore.AddForkTips` | src/storage/chain.rs:978-1035 | exactly the branch ends are appended, and order and cover are kept |
| `ChainStoreModule.ChainStore.BackOff` | src/storage/chain.rs:978-1035 | the doubling walk adds canonical hashes only, logarithmically many, and with a full index covers every height |
| `ChainStoreModule.ChainStore.FindLocatorMatch` | src/storage/chain.rs:1055-1071 | the height of the first locator entry that is canonical here |
| `HeightGap.ChildStaysClosedIff` | src/sync/header_sync.rs:46-77 | adopting a header of any claimed height on a canonical parent leaves the index closed under parents if and only if the height is one above the parent's |
| `HeightGap.ChildIsPutBlock` | src/storage/chain.rs:2582-2611 | for a header of the right height, adoption and index are those of the general step |
| `HeightGap.GapWitness` | src/node/router/router.rs:5901-5969 | a header that claims height nine on a chain of height one is adopted and leaves seven heights without an entry |
| `ForkDiag.KeysEqualIff` | examples/fork_diag.rs:19-26 | two actions have one key if and only if both carry the same content hash, or neither carries one and the signatures are equal |
| `ForkDiag.SpaceActionsAre` | examples/fork_diag.rs:28-43 | the actions of a block are exactly those its stored space and content blocks hold |
| `ForkDiag.SpacesInOrder` | examples/fork_diag.rs:28-43 | they are listed space block by space block |
| `ForkDiag.ContentsInOrder` | examples/fork_diag.rs:28-43 | and within a space content block by content block, as stored |
| `ForkDiag.BlockActions` | examples/fork_diag.rs:28-43 | the loops build exactly that list |
| `ForkDiag.ReachedIff` | examples/fork_diag.rs:62-74 | a key was collected on the canonical walk if and only if a canonical block carries the same action |
| `ForkDiag.CanonicalWalk` | examples/fork_diag.rs:52-74 | the walk terminates and collects exactly the stored ancestors of the tip and their action keys |
| `ForkDiag.OneAncestorPerHeight` | examples/fork_diag.rs:113-126 | at most one competitor per height is canonical |
| `ForkDiag.WalkAgreesWithIndex` | examples/fork_diag.rs:52-74 | on a node the invariants hold for, the walked chain is the height index |
| `ForkDiag.GroupByHeight` | examples/fork_diag.rs:81-87 | every stored block is grouped once, under its height |
| `ForkDiag.GroupIsHeight` | examples/fork_diag.rs:81-87 | a height's group is the set of blocks stored at that height |
| `ForkDiag.CountHeights` | examples/chain_diag.rs:51-71 | the per-height counts and the greatest height are exact and the counts sum to the stored total |
| `ForkDiag.TruncatedIff` | examples/chain_diag.rs:73-83 | on a coherent store the TRUNCATED verdict is given if and only if some stored block lies above the best tip |
| `ForkDiag.FalseAlarmWitness` | examples/chain_diag.rs:73-83 | a store whose index is exactly its heaviest chain and which the verdict calls truncated |
| `ForkDiag.ContestedAgree` | examples/fork_diag.rs:81-94 | without a height filter the two tools list the same contested heights |
| `ForkDiag.IsTied` | examples/fork_diag.rs:105-112 | the distinct-count test finds a tie exactly when two competitors share a cumulative work |
| `ForkDiag.TieIsHeightTie` | examples/fork_diag.rs:105-112 | a group is tied exactly when two different blocks stored at that height share a cumulative work |
| `ForkDiag.SortedContested` | examples/fork_diag.rs:89-94 | the heights with more than one block that pass the filter, ascending |
| `ForkDiag.ScanBlock` | examples/fork_diag.rs:113-151 | one block contributes its lost actions, in order, and nothing when canonical |
| `ForkDiag.DiagnoseHeight` | examples/fork_diag.rs:105-151 | one height adds its tie and its lost actions |
| `ForkDiag.Diagnose` | examples/fork_diag.rs:102-158 | an action is listed LOST exactly when its block is non-canonical at an examined height and no canonical block carries an action with its content hash or, if it has none, a hashless action with its signature; ties counts the tied heights |
| `IrcFraming.FramingUnique` | bridge-client/proxy/irc-proxy.js:152-165 | a stream has one division into CR-LF-free lines and a tail |
| `IrcFraming.FramingExtends` | bridge-client/proxy/irc-proxy.js:152-165 | framing the carried tail with the next chunk continues the framing of the whole stream |
| `IrcFraming.Split` | bridge-client/proxy/irc-proxy.js:156-158 | splitting at CR-LF gives that division |
| `IrcFraming.WhiteByCode` | bridge-client/proxy/irc-proxy.js:161-161 | white space is what the trim of ECMAScript removes, code point by code point |
| `IrcFraming.LineIsKeptIff` | bridge-client/proxy/irc-proxy.js:160-164 | a line is sent if and only if some character of it is not white space |
| `IrcFraming.OneChunk` | bridge-client/proxy/irc-proxy.js:152-165 | one handler call sends exactly the lines the chunk completes |
| `IrcFraming.ChunkingIsIrrelevant` | bridge-client/proxy/irc-proxy.js:152-165 | for every way of cutting the stream the lines sent are the non-blank lines of the whole and the buffer is its tail |
| `IrcSession.StepKeepsInv` | bridge-client/proxy/irc-proxy.js:78-215 | every event keeps the session invariant |
| `IrcSession.RunKeepsInv` | bridge-client/proxy/irc-proxy.js:78-215 | so does every run |
| `IrcSession.EveryRun` | bridge-client/proxy/irc-proxy.js:78-215 | in every run each session has sent exactly the non-blank lines it had received when the browser left, in order; a session over by then received no more and ended with exactly one terminal message and nothing after it, one still open sent none; with no socket there is no timer, listener or buffered text |
| `IrcSession.NothingLostIff` | bridge-client/proxy/irc-proxy.js:97-101 | in every run a session has sent every non-blank line it ever received if and only if none was completed after the browser left |
| `IrcSession.ClosingLosesALine` | bridge-client/proxy/irc-proxy.js:97-101 | a run in which a line arrives while the browser's connection is closing and is never sent |
| `IrcSession.TimerRunsUntilConnected` | bridge-client/proxy/irc-proxy.js:137-150 | in every run the timer of the session in progress is armed exactly until its socket connects, no other is, and no session is told both that it connected and that it timed out |
| `IrcSession.ConnectingEndsTimer` | bridge-client/proxy/irc-proxy.js:143-150 | once a session has connected its timer is gone, and firing it changes nothing however the run goes on |
| `IrcSession.SessionEndsIff` | bridge-client/proxy/irc-proxy.js:137-199 | in every run the session in progress ends on a disconnect, on the close or error of its socket or on its own timer, with the message that says which, and on nothing else while the browser stays |
| `IrcSession.RefusedRequestsAreAnswered` | bridge-client/proxy/irc-proxy.js:103-205 | in every run a refused request is answered once with its reason and changes nothing, and a connect that is not refused opens the next session with a timer |
| `IrcSession.NothingAfterGone` | bridge-client/proxy/irc-proxy.js:207-215 | in every run, once the browser has gone no socket, timer or listener is left and no event changes anything |
| `IrcSession.EverySendIsWritten` | bridge-client/proxy/irc-proxy.js:181-194 | in every run the socket of a session is written exactly what the browser sent to that session, in order |
| `IrcProxyModule.IrcProxy.constructor` | bridge-client/proxy/irc-proxy.js:75-81 | a fresh connection is the start state |
| `IrcProxyModule.IrcProxy.DoCleanup` | bridge-client/proxy/irc-proxy.js:83-95 | clears timer, listeners, socket and buffer |
| `IrcProxyModule.IrcProxy.OnConnect` | bridge-client/proxy/irc-proxy.js:113-179 | refines the connect step |
| `IrcProxyModule.IrcProxy.OnSend` | bridge-client/proxy/irc-proxy.js:181-194 | refines the send step: what is written, and the refusals, a destroyed socket included |
| `IrcProxyModule.IrcProxy.OnDisconnect` | bridge-client/proxy/irc-proxy.js:196-199 | refines the disconnect step |
| `IrcProxyModule.IrcProxy.OnBadMessage` | bridge-client/proxy/irc-proxy.js:103-205 | refines the malformed-message steps |
| `IrcProxyModule.IrcProxy.OnClientClosing` | bridge-client/proxy/irc-proxy.js:97-101 | refines the step by which nothing more reaches the browser |
| `IrcProxyModule.IrcProxy.OnClientGone` | bridge-client/proxy/irc-proxy.js:207-215 | refines the close of the WebSocket |
| `IrcProxyModule.IrcProxy.OnSocketConnected` | bridge-client/proxy/irc-proxy.js:143-150 | refines the connected step, which disarms the timer of the session |
| `IrcProxyModule.IrcProxy.SendLines` | bridge-client/proxy/irc-proxy.js:159-164 | the loop sends exactly the non-blank lines, in order |
| `IrcProxyModule.IrcProxy.OnData` | bridge-client/proxy/irc-proxy.js:152-165 | the split, pop and send loop refines the data step |
| `IrcProxyModule.IrcProxy.OnSocketClosed` | bridge-client/proxy/irc-proxy.js:167-171 | refines the close of the IRC socket |
| `IrcProxyModule.IrcProxy.OnSocketError` | bridge-client/proxy/irc-proxy.js:173-177 | refines the socket error step |
| `IrcProxyModule.IrcProxy.OnTimeout` | bridge-client/proxy/irc-proxy.js:137-141 | refines the connect timeout |
| `EpochGuard.PageMissesIff` | defcon-client/src/Wall.tsx:280-289 | a page lacks an accepted entry if and only if a full page of newer ones buries it |
| `EpochGuard.StepKeepsInv` | defcon-client/src/Wall.tsx:35-73 | every event keeps the protocol invariant, with any number of fetches and submissions in flight |
| `EpochGuard.RunKeepsInv` | defcon-client/src/Wall.tsx:35-73 | so does every run |
| `EpochGuard.WrittenEntriesStay` | defcon-client/src/Wall.tsx:280-338 | in every run a written entry is still listed unless a page of newer entries buries it, and no entry is listed more than twice |
| `EpochGuard.NewEntryTopsList` | defcon-client/src/Wall.tsx:324-336 | in every run a returning submission puts its entry on top of the list as it stood, and no fetch then in flight changes that |
| `EpochGuard.EpochCounts` | defcon-client/src/Wall.tsx:35-73 | the epoch counts the submissions that have finished, well or badly |
| `EpochGuard.FetchAppliesIff` | defcon-client/src/Wall.tsx:277-294 | a fetch replaces the list if and only if no submission finished between its start and its return |
| `EpochGuard.OnListIff` | defcon-client/src/Wall.tsx:280-338 | in every run an entry not yet written is listed if and only if the last fetch applied with it was not followed by one without it |
| `EpochGuard.SecondCopyIff` | defcon-client/src/Wall.tsx:313-336 | a returning submission adds a second copy if and only if, since the server accepted it, a fetch that brought the entry was applied and no later one dropped it; the condition is over the events of the run |
| `EpochGuard.BuriedEntryLeaves` | defcon-client/src/Wall.tsx:280-289 | for every page size, a run in which a written entry leaves the list |
| `EpochGuard.AppliedFetchIsDistinct` | defcon-client/src/Wall.tsx:284-289 | every applied fetch restores distinct ids |
| `EpochGuard.FlagGuardLosesEntry` | defcon-client/src/Wall.tsx:35-64 | a guard that only tests a submission-in-flight flag admits a run that loses a written entry |
| `ChipsEngine.Isqrt` | chips-client/src/lib/chipsEngine.ts:377-380 | the floor of the square root in the salt formula |
| `ChipsEngine.FoldAppend` | chips-client/src/lib/chipsEngine.ts:573-886 | folding in two stretches is folding at once |
| `ChipsOrder.OrderedSorts` | chips-client/src/lib/chipsEngine.ts:352-365 | the replay order is strictly increasing and loses nothing |
| `ChipsOrder.IncreasingUnique` | chips-client/src/lib/chipsEngine.ts:352-365 | the replay order is determined by the set replayed |
| `ChipsOrder.ReplayedIs` | chips-client/src/lib/chipsEngine.ts:341-365 | what is replayed is exactly the owner's replies |
| `ChipsOrder.ReplayOrder` | chips-client/src/lib/chipsEngine.ts:352-365 | replay is by height, then authoring time, then content id, with the pending ones last |
| `ChipsOrder.DedupeKeepsFirst` | chips-client/src/lib/chipsEngine.ts:341-350 | of several entries with one content id the first is kept |
| `ChipsOrder.ObserversAgree` | chips-client/src/lib/chipsEngine.ts:553-574 | two observers served the same owner replies in any order, with any strangers and repeats, fold to the same state |
| `ChipsOrder.PendingReplayLast` | chips-client/src/lib/chipsEngine.ts:352-365 | pending replies replay after every confirmed one |
| `ChipsOrder.TwoCopiesDisagree` | chips-client/src/lib/chipsEngine.ts:341-350 | a content id served with two heights makes the serving order matter |
| `ChipsRules.ChipPays` | chips-client/src/lib/chipsEngine.ts:455-464 | an honoured chip pays a thousand crumbs doubled per bit over eight, five halves if golden, eleven tenths under guacamole, double under queso left alone for twelve hours, then the seasoning, each rounded down and in this order, and twice that on a double dip, into what room the bowl has |
| `ChipsRules.PlainChipPays` | chips-client/src/lib/chipsEngine.ts:600-634 | on a table without bonuses that is exactly a thousand crumbs doubled per bit over eight |
| `ChipsRules.OnlySeasoningRounds` | chips-client/src/lib/chipsEngine.ts:440-464 | only the seasoning ever rounds, so the steps before it could be taken in any order, although the comment says no two may be swapped |
| `ChipsRules.SeasoningHasItsPlace` | chips-client/src/lib/chipsEngine.ts:440-464 | figures that change when the seasoning is moved past the gold, the dip, the congealing or the double dip |
| `ChipsRules.ChipCounts` | chips-client/src/lib/chipsEngine.ts:600-634 | what else an honoured chip changes: lifetime, crispest chip, tier, bank time and its proof, and nothing more |
| `ChipsRules.ChipRefused` | chips-client/src/lib/chipsEngine.ts:600-634 | a chip not honoured changes nothing and is answered by the first objection: unverified, too few bits, banked before |
| `ChipsRules.TierFollowsLifetime` | chips-client/src/lib/chipsEngine.ts:386-392 | over every fold the dip tier is the deepest the lifetime of the run has reached |
| `ChipsRules.TickSoftens` | chips-client/src/lib/chipsEngine.ts:401-440 | a confirmed reply softens the bowl for each whole hour since the last, thirty days at most, by the numerator of tier, airtight bowl and shelves, and moves the clock on but never back; a pending one does neither |
| `ChipsRules.ClockIsLatest` | chips-client/src/lib/chipsEngine.ts:585-598 | the clock after any fold is the latest creation time of a confirmed, parsed reply, whatever became of its move |
| `ChipsRules.DipCounts` | chips-client/src/lib/chipsEngine.ts:859-880 | a dip stores what fits and counts chips to the nearest thousand crumbs, at least one |
| `ChipsRules.BurnPays` | chips-client/src/lib/chipsEngine.ts:694-730 | a refused jar pays seven tenths of its price, rounded down, into what room there is |
| `ChipsRules.JarGives` | chips-client/src/lib/chipsEngine.ts:889-943 | a jar bought takes its price, sets and adds what it says, and leaves the rest of the table as it was |
| `ChipsRules.TipLeaves` | chips-client/src/lib/chipsEngine.ts:637-692 | a tip too shallow for salt changes nothing; any other leaves a new bowl with the salt and the prestige |
| `ChipsRules.TipCarriesJar` | chips-client/src/lib/chipsEngine.ts:671-688 | with the crack an owned jar is fitted to the new bowl as a purchase would fit it, for nothing |
| `ChipsRules.SaltIs` | chips-client/src/lib/chipsEngine.ts:377-380 | the salt of a run is the floor of ten times the square root of its four-thousands, none below the first |
| `ChipsRules.TwoShortRunsBeatIff` | chips-client/src/lib/chipsEngine.ts:367-380 | two runs earn more salt than one of twice the length if and only if each is deep enough to be tipped |
| `ChipsRules.BlowRefused` | chips-client/src/lib/chipsEngine.ts:752-800 | a blow past the last band or short of the depth changes nothing |
| `ChipsRules.BlowChips` | chips-client/src/lib/chipsEngine.ts:800-822 | a blow that leaves the damage short of the bar adds to it and freezes the bar |
| `ChipsRules.BlowBreaks` | chips-client/src/lib/chipsEngine.ts:823-857 | a blow that reaches the bar breaks the band, mints char for a new depth only, and after the last band leaves a new bowl |
| `ChipsRules.BandFallsIff` | chips-client/src/lib/chipsConst.ts:414-445 | however a fight is split into blows, the band falls with the one that brings their sum to the bar, and not before |
| `ChipsRules.MarksEqualIff` | chips-client/src/lib/chipsEngine.ts:525-551 | two accumulating moves count as one if and only if verb, amount and authoring time agree |
| `ChipsRules.CopyOnlyTicks` | chips-client/src/lib/chipsEngine.ts:553-559 | a move already counted only moves the clock |
| `ChipsRules.RefusedBodies` | chips-client/src/lib/chipsEngine.ts:573-598 | an oversize bank is refused after the clock moved on, an unparsed body before |
| `ChipsCopies.StepRemembers` | chips-client/src/lib/chipsEngine.ts:573-886 | proofs, seen moves and abilities are never forgotten, jars and refusals only when the bowl goes over |
| `ChipsCopies.FoldRemembers` | chips-client/src/lib/chipsEngine.ts:573-886 | the same over every fold |
| `ChipsCopies.CopiesAnywhere` | chips-client/src/lib/chipsEngine.ts:496-551 | pending replies that are inert, or come anywhere after a confirmed twin, can be removed from any fold without changing any balance |
| `ChipsCopies.SettlingCopiesAreInvisible` | chips-client/src/lib/chipsEngine.ts:496-551 | settling copies of dips, tips and banks, placed anywhere after their originals and among any other moves, change no balance of the fold |
| `ChipsCopies.SpendCopyIsNoOp` | chips-client/src/lib/chipsEngine.ts:732-750 | a copy of an honoured spend is never charged again, whatever came between |
| `ChipsCopies.BuyCopyActsIff` | chips-client/src/lib/chipsEngine.ts:889-920 | a copy of an honoured buy is applied again if and only if the bowl has gone over since and the jar can be bought there |
| `ChipsCopies.BurnCopyActsIff` | chips-client/src/lib/chipsEngine.ts:694-730 | a copy of an honoured refusal is applied again if and only if the bowl has gone over since and the jar can be refused there |
| `ChipsCopies.BuyCopyRebuysAfterTip` | chips-client/src/lib/chipsSettling.ts:15-27 | after a tip a lingering copy of a buy is applied again |
| `ChipsCopies.BurnCopyPaysAgainAfterTip` | chips-client/src/lib/chipsSettling.ts:15-27 | after a tip a lingering copy of a refusal is honoured again and pays a second refund |
| `ChipsLedger.SupplyIsCharTotal` | chips-client/src/lib/chipsConst.ts:245-256 | all bands together mint the stated total |
| `ChipsLedger.StepIsBalanced` | chips-client/src/lib/chipsEngine.ts:732-857 | each reply changes char by what new depth mints less what is spent |
| `ChipsLedger.FoldIsBalanced` | chips-client/src/lib/chipsEngine.ts:732-857 | the same over every fold |
| `ChipsLedger.CharIsConserved` | chips-client/src/lib/chipsEngine.ts:732-857 | over every fold char held plus char spent equals what the deepest band reached has minted, and never exceeds the total |
| `ChipsLadder.PrefixOwnedIff` | chips-client/src/App.tsx:1198-1204 | the pay-time check, the fold's order check and owning every lower rung are one condition |
| `ChipsLadder.NextRungIff` | chips-client/src/Tunnel.tsx:462-469 | a rung is the shelf's next one if and only if it is unowned and nothing below it is missing |
| `ChipsLadder.ShelfAgreesWithFold` | chips-client/src/Tunnel.tsx:450-473 | a jar is on the shelf if and only if it is available and the fold would accept it or object to its price only |
| `ChipsLadder.RefusableAgreesWithFold` | chips-client/src/App.tsx:1496-1509 | the refuse button is offered if and only if the fold would honour the refusal |
| `ChipsLadder.BuyKeepsLadder` | chips-client/src/lib/chipsEngine.ts:889-920 | a buy keeps every ladder in order |
| `ChipsLadder.BurnKeepsLadder` | chips-client/src/lib/chipsEngine.ts:694-730 | a refusal keeps every ladder in order, with at most one refused rung |
| `ChipsLadder.TipKeepsLadderIff` | chips-client/src/lib/chipsEngine.ts:637-692 | a tip keeps the ladders in order if and only if the jar it carries over is loose or a first rung |
| `ChipsLadder.CarriedRungWitness` | chips-client/src/lib/chipsEngine.ts:637-692 | a fold whose tip carries a second rung over and leaves it owned without the first |
| `ChipsLadder.FoldKeepsLadder` | chips-client/src/lib/chipsEngine.ts:573-920 | over every fold the ladders are in order but for the one jar the last tip carried over |
| `ChipsLadder.LaddersHold` | chips-client/src/lib/chipsEngine.ts:637-920 | over every fold, an owned rung has every lower rung owned unless it is the jar carried over; at most one rung of a ladder is refused, and at or above it nothing is owned but the jar carried over, and nothing is shown or sold |
| `Shelf.OpenWithinReach` | chips-client/src/Tunnel.tsx:450-473 | no jar is on sale before the layer of its vendor has been reached, and reaching a deeper one takes none away |
| `Shelf.OpenJars` | chips-client/src/Tunnel.tsx:459-473 | the jars on sale are exactly the open ones, each once |
| `Shelf.Group` | chips-client/src/Tunnel.tsx:480-487 | every jar with a vendor lands on that vendor's one stall, and each stall holds its jars in the order of the row |
| `Shelf.ByLayerSorts` | chips-client/src/Tunnel.tsx:488-488 | the sort orders stalls by depth and keeps them all |
| `Shelf.ByLayerIsStable` | chips-client/src/Tunnel.tsx:475-488 | stalls of one depth keep the order in which they were opened |
| `Shelf.OwnedJars` | chips-client/src/Tunnel.tsx:474-474 | the jars listed as bought are exactly the owned ones |
| `Shelf.ShelfStalls` | chips-client/src/Tunnel.tsx:450-490 | the shelf shows exactly the open jars that have a vendor, once each, in depth order |
| `FlowSim.Cheapest` | chips-client/scripts/flowsim.ts:101-104 | the pick is a cheapest permitted affordable jar, the earliest in catalogue order of those, none exactly when there is none |
| `FlowSim.NothingDearerThanBowl` | chips-client/scripts/flowsim.ts:73-79 | what is on offer is unowned, of a vendor already met, and no dearer than the bowl holds |
| `FlowSim.SimAllows` | chips-client/scripts/flowsim.ts:73-79 | the simulator's shorter ladders permit whatever the fold's permit |
| `FlowSim.CheapestIsInOrder` | chips-client/scripts/flowsim.ts:101-107 | buying the cheapest first never skips a rung of the fold's ladders, given prices and vendor depths that rise along them |
| `FlowSim.DipIndexIsTier` | chips-client/scripts/flowsim.ts:68-72 | the tier is the deepest whose floor the chips have reached |
| `FlowSim.RateIs` | chips-client/scripts/flowsim.ts:88-92 | a hundred crumbs a second per fryer, times the seasoning and the double-dip bonus |
| `FlowSim.EarnIs` | chips-client/scripts/flowsim.ts:92-95 | five seconds add a chip of lifetime per thousand crumbs of rate, and the crumbs that still fit the bowl |
| `FlowSim.PayFits` | chips-client/scripts/flowsim.ts:105-113 | a purchase takes the price and sets each figure the jar names, nought excepted |
| `FlowSim.BuyAll` | chips-client/scripts/flowsim.ts:101-113 | one step buys each jar at most once and in order, never overdraws, pays exactly the prices, and leaves no permitted affordable jar |
| `FlowSim.Simulate` | chips-client/scripts/flowsim.ts:57-116 | over the whole run each jar is bought at most once, in ladder order, the wallet is never negative, and what is held and spent never exceeds a thousand crumbs per chip earned; the run ends exactly at its horizon |
| `ChipsQueue.TakeBatch` | chips-client/src/lib/chipsQueue.ts:139-155 | a batch is a prefix of the queue: the head alone if it is no bank, otherwise as many banks as stand together there, up to twenty-four |
| `ChipsQueue.OneBatchOnly` | chips-client/src/lib/chipsQueue.ts:139-155 | no two different batches fit that description |
| `ChipsQueue.SendableIs` | chips-client/src/lib/chipsSender.ts:33-82 | the sendable moves are exactly the active, unsent, submittable ones, in order |
| `ChipsQueue.MarkSentIs` | chips-client/src/lib/chipsQueue.ts:187-197 | marking stamps exactly the unsent taken moves |
| `ChipsQueue.PlanIsBatch` | chips-client/src/lib/chipsSender.ts:73-106 | the plan is that batch of the sendable moves |
| `ChipsQueue.SubmittableIff` | chips-client/src/lib/chipsSender.ts:33-47 | a queued move can be sent if and only if its figures are within the limits of the body grammar |
| `ChipsQueue.PlanIs` | chips-client/src/lib/chipsSender.ts:73-106 | nothing sendable with a smaller id is left behind by a plan, and the plan is empty exactly when nothing is sendable |
| `ChipsSender.StepKeepsLively` | chips-client/src/App.tsx:740-867 | every event keeps the no-stall invariant |
| `ChipsSender.SenderNeverStalls` | chips-client/src/App.tsx:740-867 | so does every run |
| `ChipsSender.EveryRunIsLively` | chips-client/src/App.tsx:740-867 | in every run, sendable work always has a flight, a timer or a scheduled effect ahead of it; the lock is held exactly while there is one flight; backoff stays within its cap |
| `ChipsSender.CancelledRetryStalls` | chips-client/src/App.tsx:823-855 | a retry skipped for superseded attempts admits a run that stalls |
| `ChipsSender.SupersededFailureStalls` | chips-client/src/App.tsx:823-855 | under that variant every failure of a superseded flight with no timer stalls |
| `ChipsSender.EveryFlightIsOneBody` | chips-client/src/App.tsx:764-811 | in every run whatever is in flight is one body of the table and identity in play: a single move, or two to twenty-four banks, all submittable |
| `ChipsSender.FlightLife` | chips-client/src/App.tsx:740-867 | a flight starts exactly when the effect is due, the page ready and something sendable, and ends exactly on failure, on success after being superseded, or when the refresh after a success is done |
| `ChipsSender.FlightKeepsMoves` | chips-client/src/App.tsx:740-867 | a flight keeps its moves, and is superseded by the next run of the effect only |
| `ChipsSender.RetireDrops` | chips-client/src/App.tsx:671-713 | retiring drops exactly the named entries and wakes the effect if it dropped any |
| `ChipsSender.WorkCanGoOut` | chips-client/src/App.tsx:740-867 | in every reachable state with work the runtime and the network can get a move acknowledged in at most four events of their own |
| `ChipsSender.EveryWaitIsDue` | chips-client/src/App.tsx:823-855 | in every run the wait before a retry is two seconds doubled for each further failure in a row, a minute at most, and none after a success |
| `ChipsSender.MovesLandInQueueOrder` | chips-client/src/App.tsx:764-811 | in every run acknowledged moves are in queue order, none twice, and everything still sendable was queued later |
| `ChipsSettling.ConfirmedMoveKeys` | chips-client/src/lib/chipsSettling.ts:97-127 | the keys of a poll are exactly those some reply by the author proves |
| `ChipsSettling.SameKeyIff` | chips-client/src/lib/moveKey.ts:24-39 | two sendable moves have one key if and only if verb, table, identity and mark agree |
| `ChipsSettling.MergeConfirmed` | chips-client/src/lib/confirmedBase.ts:67-84 | the loops append the replies not yet held and copy the verification results found under a content id |
| `ChipsSettling.VerifyIsByProof` | chips-client/src/lib/chipsVerify.ts:138-176 | verification gives the true bits, keyed by proof, of every chip of every bank of the owner |
| `ChipsSettling.MergeLosesProofs` | chips-client/src/lib/confirmedBase.ts:67-84 | so a merge copies no verification result at all |
| `ChipsSettling.MergeAddsUnknown` | chips-client/src/lib/confirmedBase.ts:67-84 | a merge keeps the base in place and adds behind it exactly the polled replies whose content id it did not have |
| `ChipsSettling.CopyIsByContent` | chips-client/src/lib/confirmedBase.ts:67-84 | a merge copies exactly the results filed under the content id of a new reply |
| `ChipsSettling.MergeHoldsPoll` | chips-client/src/lib/confirmedBase.ts:67-84 | merging loses no reply, invents none, and holds every key the base or the poll proves |
| `ChipsSettling.RetireIs` | chips-client/src/lib/chipsSettling.ts:170-287 | retirement keeps exactly the unsent, the unconfirmed in time, and the confirmed buys not yet granted |
| `ChipsSettling.LeavesQueueIff` | chips-client/src/lib/chipsSettling.ts:170-287 | an entry leaves the queue if and only if a poll proves it, for a buy only once owned and for a spend never, or it was sent ten and a half minutes or more away from now |
| `ChipsSettling.LeavesOnlyIf` | chips-client/src/App.tsx:671-713 | an entry leaves the queue on exactly two occasions: the clock runs out on it, or the update of a merged poll that shows it |
| `ChipsSettling.StepKeepsInv` | chips-client/src/App.tsx:671-713 | every event keeps the credit invariant |
| `ChipsSettling.RunKeepsInv` | chips-client/src/App.tsx:671-713 | so does every run |
| `ChipsSettling.HeldUntilExpired` | chips-client/src/App.tsx:671-713 | in every run with overlapping polls every move entered is in the queue, in the confirmed base, or has expired |
| `ChipsSettling.NoCreditGap` | chips-client/src/App.tsx:671-713 | in every such run: a bank is counted if and only if a bank with its proof is queued; a dip if and only if a dip of its amount and time is queued or in the base, and otherwise it expired or the base has a dip of another amount at its time; every other move is counted until it expires (a tip or boss payment marked as seen, a buy, refusal or spend present in the replay) |
| `ChipsSettling.DipCountedIff` | chips-client/src/lib/chipsEngine.ts:525-551 | in every reachable state the fold counts a dip if and only if a dip of its amount and authoring time is queued or in the base |
| `ChipsSettling.TwinTimeLosesDip` | chips-client/src/lib/chipsSettling.ts:97-127 | a run in which a queued dip is retired by a dip of another amount made in the same millisecond and is counted no more, without expiring |
| `ChipsSettling.BankCountedIff` | chips-client/src/App.tsx:671-713 | in every reachable state a bank is counted by the fold if and only if a bank with its proof is still queued |
| `ChipsSettling.OnlyQueuedBanksCredit` | chips-client/src/lib/confirmedBase.ts:67-84 | no proof is credited from the base alone |
| `ChipsSettling.RetiredBankIsLost` | chips-client/src/lib/confirmedBase.ts:67-84 | a run in which a bank is counted while queued and no longer once it is confirmed and retired |
| `ChipsSettling.PollRetiresUnseenIff` | chips-client/src/App.tsx:707-711 | in every reachable state, a queue update that retires entries the base has twins of leaves table, credited proofs and seen moves of the displayed fold as they were if and only if every retired bank has another entry with its proof queued |
| `ChipsSettling.RetiredBuyLosesJarIff` | chips-client/src/lib/chipsSettling.ts:205-237 | with the displayed jars consulted, a buy that replays last is retired and takes its jar with it if and only if the jar is still for sale without the local copy |
| `ChipsSettling.RetiringUnbuysJar` | chips-client/src/lib/chipsSettling.ts:205-237 | a jar bought, tipped away and bought again by its lingering copy, which the poll then retires |
| `ChipsSettling.GivenUpWaited` | chips-client/src/lib/chipsSettling.ts:138-140 | an unconfirmed sent move is given up only a full waiting time away from its stamp |
| `ChipsSettling.UngrantedBuyLingers` | chips-client/src/lib/chipsSettling.ts:170-287 | a confirmed buy whose jar is not granted stays in the queue until it times out |
| `ChipsSettling.BurnsNeverMatch` | chips-client/src/lib/chipsSettling.ts:97-127 | no poll ever recognises a refusal, a boss payment or a spend |
| `ChipsPending.WithPending` | chips-client/src/lib/chipsPending.ts:36-89 | the loop adds one synthetic reply per active submittable entry, in queue order, and seeds the proofs of queued banks |
| `ChipsPending.SeedHas` | chips-client/src/lib/chipsPending.ts:36-89 | a proof is seeded if and only if it was verified or an active queued bank carries it |
| `ChipsPending.SyntheticCarries` | chips-client/src/lib/chipsPending.ts:36-89 | a queued move stands in the overlay with the authoring time its body will carry, that of its chip for a bank |
| `ChipsPending.PendingTimeIsIgnored` | chips-client/src/lib/chipsEngine.ts:573-636 | the creation time of an unconfirmed reply never affects the fold |
| `ChipsPending.LatestReplaysLast` | chips-client/src/lib/chipsPending.ts:36-89 | a new entry with the latest authoring time replays last |
| `ChipsPending.ShownAppend` | chips-client/src/App.tsx:503-515 | so the displayed fold after a move is the last one with that move applied |
| `ChipsRetire.DropAll` | chips-client/src/lib/chipsEngine.ts:352-365 | any set of pending copies can be removed from a replay without changing any balance if each has a kept twin that replays before it, or next after it but for replies that say the same or are dips beside a dip |
| `ChipsRetire.FoldReadsCredit` | chips-client/src/lib/chipsEngine.ts:600-634 | a fold depends on its verification map only through which replayed chips it credits |
| `ChipsRetire.RetiringIsInvisibleIff` | chips-client/src/lib/chipsPending.ts:36-89 | retiring entries the base has twins of leaves the displayed fold, verification map included, as it was if and only if every retired bank's proof is still in the seeded map |
| `ChipsRetire.ConfirmedTwin` | chips-client/src/lib/chipsSettling.ts:15-27 | a copy of a guarded reply that is in a block stands in for the entry |
| `ChipsRetire.MempoolTwin` | chips-client/src/lib/chipsSettling.ts:87-91 | so does one without a height, if whatever else is pending from the same millisecond is harmless; of a batch, for the chip that dates it and every later one |
| `ChipsRetire.TiedBuyIsUndone` | chips-client/src/lib/chipsEngine.ts:352-365 | a dip and a buy of one millisecond: retiring the dip for a twin without a height makes the buy replay first and fail |
| `ChipsCredit.FoldCounts` | chips-client/src/lib/chipsEngine.ts:573-636 | over every fold, exactly the proofs of verified sufficient banks, and the authoring keys of the tips, boss payments and dips replayed, are counted; what a counted chip pays is `ChipsRules.ChipPays` |
| `ChipsCredit.ReplaysEveryCid` | chips-client/src/lib/chipsEngine.ts:341-365 | every content id of the owner is replayed, and nothing else |
| `BuyDesk.FoldedCostsNothing` | chips-client/src/lib/chipsAfford.ts:69-80 | a buy already folded is never charged again |
| `BuyDesk.DecaysIff` | chips-client/src/lib/sogProjection.ts:30-46 | no balance ever grows while it goes soft if and only if the hourly numerator is at most a hundred |
| `BuyDesk.ScreenKeepsPromiseIff` | chips-client/src/lib/sogProjection.ts:21-46 | the crumbs shown are those the fold will have once a move lands if and only if the tile is not owned or nothing has softened |
| `BuyDesk.TileShowsMore` | chips-client/src/lib/sogProjection.ts:38-38 | with the tile a hundred crumbs show as a hundred an hour later and fold as ninety-seven |
| `BuyDesk.UnchangedIff` | chips-client/src/lib/sogProjection.ts:41-45 | a bowl comes through any number of hours unchanged if and only if it comes through the first unchanged |
| `BuyDesk.ShownIsAffordable` | chips-client/src/lib/sogProjection.ts:30-46 | with such a numerator the crumbs shown never exceed those of the fold |
| `BuyDesk.ShelvedCrumbsGrow` | chips-client/src/lib/sogProjection.ts:30-46 | with the airtight bowl and both cellar shelves the numerator is 103 and a hundred crumbs show as 103 after an hour |
| `BuyDesk.NeverTooDear` | chips-client/src/lib/chipsEngine.ts:889-920 | buys of distinct unowned jars whose total fits the balance are never refused for their price |
| `BuyDesk.BurstFoldsIff` | chips-client/src/lib/chipsEngine.ts:889-920 | such buys are all folded, for exactly their total, if and only if each jar is unrefused and in ladder order when its turn comes |
| `BuyDesk.BurstShown` | chips-client/src/App.tsx:503-515 | the fold after a burst is the fold before it with the accepted buys applied in turn |
| `BuyDesk.Desk.constructor` | chips-client/src/App.tsx:447-470 | a fresh desk owes nothing |
| `BuyDesk.Desk.PendingBuyCost` | chips-client/src/lib/chipsAfford.ts:69-80 | the loop sums exactly the queued buys the last fold has not consumed |
| `BuyDesk.Desk.OnBuy` | chips-client/src/App.tsx:1129-1176 | a click is accepted exactly when the jar is known, unowned, not queued and affordable beside what is pending |
| `BuyDesk.Desk.FoldNow` | chips-client/src/App.tsx:503-515 | the fold of the base and the whole active queue, after which nothing pending is owed |
| `BuyDesk.Desk.Render` | chips-client/src/App.tsx:503-515 | the fold reaches the screen, softened to the present |
| `BuyDesk.Desk.Burst` | chips-client/src/App.tsx:1129-1176 | any burst of clicks between folds keeps the pending total within the crumbs shown, takes no jar twice, and passes over no clicked jar it could still have paid for |
| `BuyDesk.Desk.Spree` | chips-client/src/App.tsx:1129-1176 | fold, render, any burst of clicks, fold: no clicked jar is passed over that could still have been paid for, and when no more is shown than the fold has, no accepted buy is refused for its price, and all are bought for exactly the pending total if and only if each is unrefused and in ladder order |
| `BuyDesk.ClickBeforeRender` | chips-client/src/App.tsx:1129-1176 | a click between a fold and its render stays covered if and only if its price is within the balance then shown |
| `BuyDesk.Overspend` | chips-client/src/App.tsx:1129-1176 | such a click, accepted on a desk of ten crumbs, that cannot be paid for |
| `BuyDesk.RejectedAnyway` | chips-client/src/App.tsx:1129-1176 | a desk of ten crumbs on which a click on a ten-crumb upper rung is accepted and the fold rejects the buy |
| `ChipsBowl.FullBowlHoldsIff` | chips-client/src/lib/chipsEngine.ts:406-440 | an hour or more over a full bowl, the fold stays within the bowl if and only if the numerator is at most a hundred |
| `ChipsBowl.BuyStaysWithinIff` | chips-client/src/lib/chipsEngine.ts:889-943 | a purchase stays within the bowl it leaves if and only if what is left over fits |
| `ChipsBowl.CalmFoldStaysWithin` | chips-client/src/lib/chipsEngine.ts:573-920 | a fold with numerator at most a hundred at every confirmed reply, and no purchase of a bowl too small for what is left, is within its bowl throughout |
| `ChipsBowl.FullBowlRunsOver` | chips-client/src/lib/chipsConst.ts:75-79 | a fold from nothing, at the prices of the catalogue, to a full airtight bowl with both cellar shelves: an hour later more is shown than the fold has, and the next confirmed reply leaves more than the bowl holds |
| `PeerCache.ShortestIsUnique` | simulations/network_simulation.rs:72-77 | the shortest sufficient eviction is unique |
| `PeerCache.UserNode.constructor` | simulations/network_simulation.rs:36-47 | an empty node satisfies the cache invariant |
| `PeerCache.UserNode.AddOwnContent` | simulations/network_simulation.rs:49-52 | own content grows by the blob and its size, and the cache invariant holds afterwards if and only if the blob was not cached |
| `PeerCache.UserNode.EvictFor` | simulations/network_simulation.rs:72-77 | eviction drops the shortest prefix that makes room |
| `PeerCache.UserNode.CacheContent` | simulations/network_simulation.rs:61-84 | ids stay distinct and apart from own content, recorded use is the true sum within the limit, the shortest sufficient prefix is dropped, and a blob within the limit is held afterwards |
| `NetworkSim.OwnSumsAreAll` | simulations/network_simulation.rs:311-343 | own content summed over authors is all content |
| `NetworkSim.NetworkSimulation.constructor` | simulations/network_simulation.rs:114-146 | a fresh network satisfies every invariant |
| `NetworkSim.NetworkSimulation.ToggleOnline` | simulations/network_simulation.rs:168-171 | toggling keeps every invariant |
| `NetworkSim.WeightedPick` | simulations/network_simulation.rs:177-199 | somebody is drawn exactly when somebody on line is active, namely the first on line at whom the running total of activity reaches the drawn share of the whole |
| `NetworkSim.NetworkSimulation.PickAuthor` | simulations/network_simulation.rs:177-199 | the draw is a user on line, or nobody |
| `NetworkSim.NetworkSimulation.Post` | simulations/network_simulation.rs:201-217 | one blob is recorded under the next id |
| `NetworkSim.NetworkSimulation.CreatePosts` | simulations/network_simulation.rs:173-218 | the posts of a tick are numbered on, and older blobs stay placed |
| `NetworkSim.NetworkSimulation.StoreAll` | simulations/network_simulation.rs:220-223 | afterwards every blob is with its author |
| `NetworkSim.NetworkSimulation.View` | simulations/network_simulation.rs:246-252 | a view counts once, caches media only, and keeps every cache entry true to its blob |
| `NetworkSim.NetworkSimulation.SimulateTick` | simulations/network_simulation.rs:165-255 | every tick keeps all cache and ownership invariants of all users, carries every old blob over unchanged but for its views, and dates every new one |
| `NetworkSim.NetworkSimulation.EveryBlobHasItsAuthor` | simulations/network_simulation.rs:201-223 | in every reachable state recorded own content sums to the size of all blobs and every blob is held by its author |
| `NetworkSim.NetworkSimulation.ContentAvailability` | simulations/network_simulation.rs:257-272 | the two figures are the numbers of holders, and of holders on line |
| `NetworkSim.NetworkSimulation.AvailabilityAnalysis` | simulations/network_simulation.rs:274-309 | available and unavailable add up to the blob count, available counts exactly the blobs with a holder on line, and the age buckets are exact and sum to both figures |
| `NetworkSim.AgeInDays` | simulations/network_simulation.rs:282-298 | the age of a blob is the whole days of twenty-four ticks since it was made |
| `NetworkSim.CountedIsExact` | simulations/network_simulation.rs:282-298 | the counters and buckets are exact after every prefix of every iteration order |
| `NetworkSim.NetworkSimulation.StorageAnalysis` | simulations/network_simulation.rs:311-343 | total own content equals total blob size, and the extremes bound every user and are attained |
| `LaneSim.OneLaneOnePlace` | simulations/extended_scenarios.rs:207-234 | each blob is at exactly one place of exactly one lane list, its own lane's |
| `LaneSim.FilingKeepsIndex` | simulations/extended_scenarios.rs:217-230 | filing a new blob keeps every list in creation order |
| `LaneSim.AssignmentFinishesIff` | simulations/extended_scenarios.rs:134-142 | the lane assignment loop can finish if and only if there are at least as many lanes as it must assign |
| `LaneSim.LaneSimulation.constructor` | simulations/extended_scenarios.rs:111-159 | a fresh simulation satisfies the lane invariant |
| `LaneSim.LaneSimulation.AssignLanes` | simulations/extended_scenarios.rs:134-142 | the loop joins the distinct lanes drawn, up to the quota |
| `LaneSim.LaneSimulation.Post` | simulations/extended_scenarios.rs:207-233 | a post is filed under a lane its author follows |
| `LaneSim.LaneSimulation.PostAll` | simulations/extended_scenarios.rs:207-253 | the blobs of a tick are numbered on, each in a lane its author follows, and each author holds its own |
| `LaneSim.LaneSimulation.View` | simulations/extended_scenarios.rs:255-274 | a view is of the blob so many places from the newest in a followed lane, counts once and caches media only |
| `LaneSim.LaneSimulation.SimulateTick` | simulations/extended_scenarios.rs:172-277 | every tick keeps the lane index, every blob's lane, and every holder within its lanes |
| `LaneSim.LaneSimulation.HoldersFollow` | simulations/extended_scenarios.rs:207-276 | in every reachable state any holder of a blob, as author or in cache, follows the blob's lane |
| `ApproxCache.ViewIsMonotone` | simulations/availability_simulation.rs:49-67 | whatever the sizes, the counter stays within the limit and neither it nor the number of cached blobs ever falls |
| `ApproxCache.RunIsSound` | simulations/availability_simulation.rs:49-67 | over every run the cache holds distinct stored blobs and the counter is within the limit |
| `ApproxCache.CacheIsMostRecent` | simulations/availability_simulation.rs:49-67 | over every run the cached ids stand in order of last view, latest first, and no stored blob left out was viewed later than one cached |
| `ApproxCache.ViewedBlobHeadsCache` | simulations/availability_simulation.rs:56-58 | the blob just viewed is at the front unless the cache is empty |
| `ApproxCache.EvictedBlobIsStalest` | simulations/availability_simulation.rs:60-66 | at most one blob leaves on a view, and it is the one viewed longest ago |
| `ApproxCache.HalfSizedRunIsSafe` | simulations/availability_simulation.rs:49-67 | with no blob over half the cache no run underflows and the counter covers each cached blob |
| `ApproxCache.OversizedRunUnderflows` | simulations/availability_simulation.rs:49-67 | for every larger bound some catalogue and run underflow |
| `ApproxCache.SafeIff` | simulations/availability_simulation.rs:49-67 | no run over blobs up to a bound underflows if and only if twice the bound is at most the limit plus one |
| `ApproxCache.EqualSizesAreExact` | simulations/availability_simulation.rs:49-67 | when all blobs have one size the counter is the exact total and never underflows |
| `ApproxCache.User.constructor` | simulations/availability_simulation.rs:37-46 | an empty cache |
| `ApproxCache.User.ViewContent` | simulations/availability_simulation.rs:49-67 | the move-to-front and eviction loop refine the closed form, leave the viewed blob in front and the others in their order, and the loop body runs at most once |
| `RateLimiter.RefillKeepsWithin` | benches/mobile_sync.rs:60-73 | floored and capped refills never create tokens beyond the rate or the elapsed time |
| `RateLimiter.RefillAdds` | benches/mobile_sync.rs:60-73 | a refill keeps the tokens there are and adds what the time earned, rounded down and up to one second of the rate; less than a token leaves the clock alone |
| `RateLimiter.TakeMoves` | benches/mobile_sync.rs:75-90 | a take moves tokens to the account, no more than wanted, and stops short only when the bucket is empty |
| `RateLimiter.GrantedByTime` | benches/mobile_sync.rs:52-98 | bytes granted by any time are at most rate times one second plus the time passed |
| `RateLimiter.EmptyPollIsRecent` | benches/mobile_sync.rs:60-96 | a poll that gets nothing is less than a second after the last refill, so waiting ends |
| `RateLimiter.SimpleRateLimiter.constructor` | benches/mobile_sync.rs:44-50 | a full bucket |
| `RateLimiter.SimpleRateLimiter.Reset` | benches/mobile_sync.rs:100-104 | a full bucket and a fresh account |
| `RateLimiter.SimpleRateLimiter.Poll` | benches/mobile_sync.rs:60-90 | one round takes what is there up to what is needed and credits it |
| `RateLimiter.SimpleRateLimiter.WaitForTokens` | benches/mobile_sync.rs:52-98 | terminates having removed exactly the bytes asked for |
| `RateLimiter.SimpleRateLimiter.Transfer` | benches/mobile_sync.rs:128-140 | the chunk loop moves exactly the total, within the rate bound |
| `RateLimiter.DiscardingNeverReturns` | benches/mobile_sync.rs:53-57 | discarding partial amounts grants nothing for ever once no sleep earns a whole request |
| `ClaimPow.ByteZeros` | scripts/bvt_e2e_sponsorship.py:58-61 | the inner loop counts the zero bits before the first one bit of a byte |
| `ClaimPow.CountBits` | scripts/bvt_e2e_sponsorship.py:53-62 | the loops count exactly the leading zero bits of the digest |
| `ClaimPow.EnoughBitsIff` | scripts/bvt_e2e_sponsorship.py:63-64 | the count reaches d if and only if the digest as a big-endian number is below 2 to the power of its bits less d |
| `ClaimPow.LeadingZerosUnique` | scripts/bvt_e2e_sponsorship.py:53-62 | that count is unique |
| `ClaimPow.PackRoundTrip` | scripts/bvt_e2e_sponsorship.py:50-52 | four little-endian bytes determine the nonce |
| `ClaimPow.PreimageLayout` | scripts/bvt_e2e_sponsorship.py:50-52 | the preimage is the 32-byte nonce space, the nonce at offset 32 least significant byte first, and four zero bytes |
| `ClaimPow.PreimagesDiffer` | scripts/bvt_e2e_sponsorship.py:50-52 | preimages have forty bytes and distinct nonces give distinct preimages |
| `ClaimPow.MineClaimPow` | scripts/bvt_e2e_sponsorship.py:46-66 | the miner returns the least nonce under the cap whose digest meets the numeric bound, and fails exactly when there is none |

## Left out

- Decay, branches, sponsorship, networking, RPC and the other node subsystems under `src/`: outside the chain store's fork choice.
- `rollback_block_at_height`, and the direct height-index writes of `src/sync/continuous.rs` and `src/sync/initial_sync.rs`: the index is written by fork resolution only.
- On-disk encoding, transactions and errors of the chain store: the store is its decoded maps.
- Parsing of move bodies, signature and proof verification: replies arrive parsed, with their verification results.
- The chess, reef and other clients, React rendering, sounds and styling.
- Cooking, overcooking and payout display: averages and animation.
- Averages, medians, percentiles and rates of the simulation reports: floating-point statistics.
- `Network` of the availability simulation beyond one user's cache: it only routes views to users.
- Multi-threaded use of the rate limiter: its refill is not atomic and the benchmark uses one thread.
- SHA-256 is any function from byte strings to 32-byte digests.
- ApproxCache.User.ViewContent: an underflow is reported and ends the run, as in a checked build; wrap-around of an unchecked build is not modelled.
- LaneSim.LaneSimulation.constructor: takes the finite run of draws each user makes, because unbounded random draws have no termination proof; a run too short leaves the user with fewer lanes.
- EpochGuard.NewEntryTopsList: the list of posts; a thread of replies appends instead and sorts each page by time, which changes neither what is listed nor when.
- EpochGuard.WrittenEntriesStay: entries are their ids; the server's list contains every accepted entry.
- ChainStoreModule.ChainStore.GenerateLocator: a chain of only a genesis lists no branch ends, as the code returns early there.
- ForkChoice.PutKeepsIndexed: blocks whose height does not follow a stored relative's are excluded, because the index is then not closed under parents (`HeightGap.ChildStaysClosedIff`); the same holds for `RunKeepsIndexed`, `PutRootBlock` and `PutRootBlockWithForkResolution`.
- HeightGap.ChildStaysClosedIff: the parent is canonical; a wrong height further down a side branch is not modelled.
- IrcProxyModule.IrcProxy.OnBadMessage: the JSON text `null`, on which the handler throws instead of answering, is not modelled.
- ChipsSettling.RetiredBuyLosesJarIff: the buy is the last move to replay; one followed by other pending moves is not covered.
- ChipsRetire.MempoolTwin: pending moves of one millisecond other than copies and dips are excluded, because their order then matters (`ChipsRetire.TiedBuyIsUndone`).
- BuyDesk.Desk.Spree: the confirmed base does not change during a burst; a poll that lands between two clicks is not modelled.
- FlowSim.Simulate: the recorded event times are not modelled, only what is bought and when the run ends.
