# Agent Bazaar: a verified model

Agent Bazaar lets a buyer agent request work, choose among signed quotes, lock
the price in an escrow contract, and release it after delivery. This project
models the parts of it that hold state or decide something, and proves what
they keep over every run.

Code that changes its storage in place is a class or a method with loops
(`*Contract.dfy`, `MockUSDC.dfy`, and the classes `Cache`, `AxlNode`,
`Marketplace`, `BuyerAgent`); each of its methods is proved equal to a function
on values. What the system promises is then proved about those functions:

- `Options`: values that may be missing. `MapSums`: sums over maps.
- `Evm`, `TokenLedger`, `MockUSDC`: Solidity's integers and the ERC-20 ledger.
  `Allowances`: what an approval is worth over a run.
- `Escrow`, `EscrowContract`: the calls of the escrow, and transactions and runs
  that mix them with any calls on the tokens.
- `EscrowSafety`: solvency and payability. `EscrowHistory`: what the state of a
  deal says about its past, and its exact payments. `EscrowOrder`: independence
  of deals. `KeeperSweep`: the scheduled pass over all deals. `KeeperRace`: the
  same pass while others send transactions of their own.
- `RatingAverage`, `Registries`, `RegistryContracts`: identity, feedback, and the
  drift of the floor-rounded average.
- `DescendingSort`, `Matching`, `Playback`: the two ways a winner is chosen, and
  the quota of the demo marketplace.
- `ReplayGuard`, `Discovery`: the replay cache and the peer handshake.
- `Utf8`, `JsonText`, `Json`, `Signing`: canonical bytes, signatures and transport.
- `BuyerFlow`: from the inbox to the lock and the release. `DeliveredHash`: the hash
  that the buyer checks against the one that the seller confirmed on the chain.

A Solidity call that reverts is a result that leaves the state as it was. Block
times, callers, inbox contents, schedules and the answers of outside services
are parameters, so every result holds for all of them. Escrow runs start with no
deals and any ledgers whose balances add up; their transactions come from
any account but the zero address and the escrow, and can go to any token.

Some things do not hold as the code's own comments and documents have them, or
hold only under a condition. The model follows the code:

- The delivery deadline is computed on the block time cut to 64 bits and compared
  with the whole block time. `EarlyRefundIff` says exactly when a refund can come
  before the delivery window is over. The dispute window is not affected:
  `NeverEarly` holds for it in every run.
- The replay guard drops entries by the clock. `AcceptsIffForgotten` says what it
  accepts under any clock, `FaithfulIffClockAllows` for which clock readings that
  is what the full history would accept, and `ClockSetBackReadmits` shows one
  where it is not.
- The announce back makes discovery mutual exactly when no two nodes share a name
  (`SymmetricIffDistinctIds`). A peer entered by `register_peer` before its first
  message is never announced back to (`EntryStopsAnswer`), so the registries are
  mutual exactly when for each such entry the node was also entered on the other
  side or announced itself there (`EntriesSymmetricIff`).
- The poll loop retries only after an HTTP error or a `JSONDecodeError`. Any other
  exception while a body is decoded ends it for good: `SentIsPolledIff` says exactly
  what still arrives, and `MalformedEndsPolling` shows one such body.
- The reputation average does not tend to the mean of the ratings: `DriftBound`
  bounds the drift, `RisesIff` says exactly when one more rating lifts it, and
  `StuckAtZero` shows that no number of later ratings need repair it.
- The score formula in the heading of `matching.py` leaves out the floor of 0.01
  on the success rate; `WinnersAgreeIff` says exactly when that shows.
- The capacity step of the demo server finds the listing by id and not by
  position; `ConsumesSelectedIff` says exactly when it hits the selected one.
- New listings are named after the second they are posted in. `QuotaConservedIff`
  says exactly when quota is conserved, and `PostsOfOneSecond` how two posts of one
  second break it.
- The buyer compares the delivered content with the hash in the same message, not
  with the hash on the chain as the comment there has it. `AcceptedWhateverConfirmed`
  shows that an honest delivery is accepted whatever hash its seller confirmed, and
  says exactly when the two agree; the contract takes any hash
  (`ConfirmTakesAnyHash`).

## Model

| member | source | states |
|---|---|---|
| TokenLedger.MintConserves | contracts/MockUSDC.sol:17-21 | a mint succeeds iff the total supply does not overflow, and keeps the balances adding up to it |
| TokenLedger.TransferConserves | contracts/MockUSDC.sol:41-46 | a transfer fails exactly when the sender is short, no credit ever overflows, and the balances still add up (self-transfers included) |
| TokenLedger.TransferFromConserves | contracts/MockUSDC.sol:33-39 | `transferFrom` fails only for a short balance or a short allowance, the infinite allowance included |
| TokenLedger.TransferMoves | contracts/MockUSDC.sol:41-46 | what a transfer does to every account, the sender's own included |
| TokenLedger.TransferFromMoves | contracts/MockUSDC.sol:33-46 | the same for `transferFrom`, and that an owner without allowances keeps none |
| TokenLedger.TransferFromSpends | contracts/MockUSDC.sol:33-39 | a pull lowers the puller's own finite allowance by its amount, and no other and no infinite one; the supply stays |
| TokenLedger.ApproveSets | contracts/MockUSDC.sol:23-27 | an approval sets the caller's allowance for the spender, no other, and moves no tokens |
| TokenLedger.MintMoves | contracts/MockUSDC.sol:17-21 | a mint credits one account and the supply, and touches no allowance |
| Allowances.AllowanceIsSpent | contracts/MockUSDC.sol:33-39 | over every run without a new approval, a finite allowance loses exactly what its spender pulled, locks of the escrow included |
| Allowances.ApprovalIsHonoured | contracts/MockUSDC.sol:23-39 | from an approval of a finite amount to the owner's next, over every run, what the spender pulled plus what is left is the amount |
| Allowances.TokenCallMoves | contracts/MockUSDC.sol:17-46 | every call on a token from outside changes every account by exactly what it says |
| TokenLedger.TransfersCommute | contracts/MockUSDC.sol:41-46 | two payments out of one account lead to the same ledger in either order |
| MockUSDCContract.MockUSDC.Mint | contracts/MockUSDC.sol:17-21 | the storage after the call is the ledger function's, and untouched on a revert |
| MockUSDCContract.MockUSDC.Approve | contracts/MockUSDC.sol:23-27 | sets one allowance and nothing else |
| MockUSDCContract.MockUSDC.Transfer | contracts/MockUSDC.sol:29-31 | the storage after the call is the ledger function's, and untouched on a revert |
| MockUSDCContract.MockUSDC.TransferFrom | contracts/MockUSDC.sol:33-39 | spends a finite allowance, keeps an infinite one, and undoes the spending when the transfer reverts |
| MockUSDCContract.MockUSDC.Move | contracts/MockUSDC.sol:41-46 | debit before credit, both or neither |
| EscrowContract.AgentBazaarEscrow.LockFunds | contracts/AgentBazaarEscrow.sol:61-91 | same guards in the same order, one new deal, one pull from the caller; a refused pull leaves no deal |
| EscrowContract.AgentBazaarEscrow.ConfirmDelivery | contracts/AgentBazaarEscrow.sol:94-106 | the three writes of a confirmation, or a revert without any |
| EscrowContract.AgentBazaarEscrow.ReleaseFunds | contracts/AgentBazaarEscrow.sol:109-114 | the buyer's release as specified |
| EscrowContract.AgentBazaarEscrow.OptimisticRelease | contracts/AgentBazaarEscrow.sol:117-123 | the keeper's release as specified |
| EscrowContract.AgentBazaarEscrow.RaiseDispute | contracts/AgentBazaarEscrow.sol:126-133 | the dispute as specified; funds stay |
| EscrowContract.AgentBazaarEscrow.ClaimRefund | contracts/AgentBazaarEscrow.sol:136-146 | the refund as specified |
| EscrowContract.AgentBazaarEscrow.Release | contracts/AgentBazaarEscrow.sol:176-182 | the state is written before the payment, and undone if the payment reverts |
| EscrowContract.AgentBazaarEscrow.Submit | contracts/AgentBazaarEscrow.sol:61-182 | any transaction, to the escrow or to a token, changes the contracts' storage as the model's `Execute` says, and reports its error |
| EscrowContract.AgentBazaarEscrow.SubmitAll | contracts/AgentBazaarEscrow.sol:61-182 | so a run of transactions leaves the contracts as `Run` says, and every result about runs holds of them |
| EscrowSafety.CallShape | contracts/AgentBazaarEscrow.sol:94-146 | every call on a locked deal is refused by that deal alone, or else rewrites it and pays its amount to one payee |
| EscrowSafety.LockShape | contracts/AgentBazaarEscrow.sol:69-85 | a successful lock writes one deal, for its caller, under an rfqId not used before |
| EscrowSafety.PayoutGoesThrough | contracts/AgentBazaarEscrow.sol:141-143 | the token never refuses to pay out a deal that is still held |
| EscrowSafety.BuyerReleaseSucceedsIff | contracts/AgentBazaarEscrow.sol:109-114 | succeeds exactly for the buyer of a DELIVERED deal |
| EscrowSafety.KeeperReleaseSucceedsIff | contracts/AgentBazaarEscrow.sol:117-123 | succeeds exactly on a DELIVERED deal strictly after its dispute deadline |
| EscrowSafety.RefundSucceedsIff | contracts/AgentBazaarEscrow.sol:136-146 | succeeds exactly on a LOCKED deal strictly after its delivery deadline |
| EscrowSafety.LockSucceedsIff | contracts/AgentBazaarEscrow.sol:69-88 | succeeds exactly on a fresh rfqId, a positive amount, a seller, a deadline within 64 bits, and a covered and approved pull |
| EscrowSafety.LockRefusedBecause | contracts/AgentBazaarEscrow.sol:69-88 | the reason of a refused lock is the first guard that fails, or that the pull is not covered or not approved |
| EscrowSafety.SolvencyStep | contracts/AgentBazaarEscrow.sol:61-182 | each transaction keeps the invariant and changes each token's surplus by exactly what it gave the escrow beyond its deals |
| EscrowSafety.Solvency | contracts/AgentBazaarEscrow.sol:61-182 | over every run and for every token, the escrow's balance covers its open deals, and what it holds beyond them grows by exactly what it was given |
| EscrowSafety.LedgersStayConserved | contracts/MockUSDC.sol:17-46 | in every reachable state the balances add up to the total supply and only a short sender makes a transfer fail |
| EscrowHistory.Lifecycle | contracts/AgentBazaarEscrow.sol:69-146 | after every run the state of a deal determines which calls succeeded on it, by whom and when; they are at most three |
| EscrowHistory.ForwardOnly | contracts/AgentBazaarEscrow.sol:12-14 | the terms of a deal never change, states only move forward, and RELEASED, DISPUTED and REFUNDED are final |
| EscrowHistory.MovesAreTransfers | contracts/AgentBazaarEscrow.sol:87-88 | an escrow call changes every account in every token by exactly the moves ascribed to it |
| EscrowHistory.ExactAccounting | docs/integrations/keeperhub-workflows.md:47 | over every run the amount is pulled once, from the buyer, and paid at most once: to the seller iff RELEASED, to the buyer iff REFUNDED |
| EscrowHistory.NeverEarly | contracts/AgentBazaarEscrow.sol:101-146 | a release is the buyer's own or came strictly after the whole dispute window, at any block time and from any account; a refund waits for the whole delivery window if the time of the lock fits into 64 bits |
| EscrowHistory.EarlyRefundIff | contracts/AgentBazaarEscrow.sol:73-139 | at every time from the lock to the end of the delivery window, a refund succeeds iff the time of the lock exceeds 64 bits |
| EscrowHistory.ReadsZeroIffNeverLocked | contracts/AgentBazaarEscrow.sol:149-174 | after every run `getDeal` reads as the zero struct, with a zero buyer, and as OPEN, each iff no call on the rfqId has ever succeeded |
| EscrowOrder.VerdictIsRefusal | contracts/AgentBazaarEscrow.sol:94-146 | in every reachable state the outcome of a call, its error included, is decided by its own deal |
| EscrowOrder.Independence | contracts/AgentBazaarEscrow.sol:94-146 | two calls on different deals have the same outcomes in either order and lead to the same deals and ledgers |
| KeeperSweep.VisitPays | docs/integrations/keeperhub-workflows.md:38-62 | a visit to a due deal goes through and pays its recipient its amount |
| KeeperSweep.SweepSettles | docs/integrations/keeperhub-workflows.md:34-62 | a pass at any time over any list never reverts, settles exactly the listed deals that are due, and pays every account exactly what they owe it |
| KeeperSweep.SweptIsUnique | docs/integrations/keeperhub-workflows.md:34-62 | that description fixes the final state |
| KeeperSweep.SweepOrderIrrelevant | docs/integrations/keeperhub-workflows.md:47 | the order of the visits and repeated visits leave no trace |
| KeeperSweep.SweepLeavesOnlyDisputes | contracts/AgentBazaarEscrow.sol:117-146 | after a pass over all deals past their deadlines only DISPUTED obligations remain |
| KeeperSweep.EligibleIffReleasable | agents/lib/threat_defense.py:60-67 | the off-chain condition agrees with the on-chain call exactly when `now` is positive or the wall clock finds nothing due |
| KeeperSweep.EligibleByTheClock | agents/lib/threat_defense.py:60-67 | without a `now`, the off-chain condition holds iff the call would succeed at the time of the wall clock |
| KeeperRace.RunPass | docs/integrations/keeperhub-workflows.md:34-62 | the keeper's loop over the contracts, with the reading and the call at different times and other transactions in between, computes the pass and counts its reverts |
| KeeperRace.UndisturbedPassIsSweep | docs/integrations/keeperhub-workflows.md:34-62 | a pass that nobody disturbs is the sweep |
| KeeperRace.DueDealSettlesOnce | contracts/AgentBazaarEscrow.sol:94-146 | from the time a deal is due, every run leaves it as it is or settles it as is due and pays its amount once |
| KeeperRace.RaceIsHarmless | docs/integrations/keeperhub-workflows.md:47 | the keeper's late call succeeds iff nobody has settled the deal since the reading, else reverts over its state alone; either way the deal is settled and paid once |
| KeeperRace.RevertsAreCounted | docs/integrations/keeperhub-workflows.md:47 | a visit counts a revert iff somebody else has settled the deal since it was read as due; it then leaves the chain as it is |
| KeeperRace.RacePassSettles | docs/integrations/keeperhub-workflows.md:47-64 | whatever lands during a pass, every visited deal that was due at its start ends up settled as was due, with one payment to the right party |
| RatingAverage.DriftBound | contracts/AgentReputationRegistry.sol:49-52 | after n ratings the average is at most the true mean and at least the mean less (n-1)/2 |
| RatingAverage.AverageBetween | contracts/AgentReputationRegistry.sol:49-52 | the average lies between the worst and the best rating |
| RatingAverage.AverageMonotone | contracts/AgentReputationRegistry.sol:49-52 | better ratings, one for one, never give a worse average |
| RatingAverage.RisesIff | contracts/AgentReputationRegistry.sol:52 | one more rating lifts the average iff it exceeds it by more than the number of ratings so far |
| RatingAverage.NeverRecovers | contracts/AgentReputationRegistry.sol:52 | after ten thousand ratings no later history lifts the average |
| RatingAverage.StuckAtZero | contracts/AgentReputationRegistry.sol:52 | ten thousand zeros hold the average at zero for ever |
| Registries.IdentityBijective | contracts/AgentIdentityRegistry.sol:19-29 | over every run the ids are dense and `ownerOf` and `agentIdOf` undo each other |
| Registries.OwnersNeverChange | contracts/AgentIdentityRegistry.sol:19-34 | a registration survives every later run |
| Registries.OnlyOwnerSetsURI | contracts/AgentIdentityRegistry.sol:31-34 | only the owner of an agent ever changes its URI |
| Registries.RateSummarises | contracts/AgentReputationRegistry.sol:48-52 | one update keeps counts and average exact, and the 16-bit cast cuts nothing |
| Registries.FeedbackIsGenuine | contracts/AgentReputationRegistry.sol:43-52 | over every run a record summarises exactly the accepted ratings, all of a registered agent and none by its owner |
| Registries.SuccessRateInRange | agents/lib/erc8004_client.py:80-82 | over every run the derived success rate is the share of fours and fives among the accepted ratings, and 0 without any |
| Registries.RegistersIff | contracts/AgentIdentityRegistry.sol:19-29 | over every run a registration succeeds iff its caller has not registered before and an id is left; it hands out the next id with its URI and changes nothing else |
| Registries.SetsURIIff | contracts/AgentIdentityRegistry.sol:31-34 | over every run setting a URI succeeds iff the caller owns the agent; the URI then reads as set, and nothing else changes |
| Registries.RatesIff | contracts/AgentReputationRegistry.sol:43-52 | over every run a rating is accepted iff it is at most five, of a registered agent, not by its owner, and no count is exhausted; a refusal names the first that fails |
| RegistryContracts.AgentIdentityRegistry.RegisterAgent | contracts/AgentIdentityRegistry.sol:19-29 | one id per caller, handed out in order; a second registration reverts |
| RegistryContracts.AgentIdentityRegistry.SetTokenURI | contracts/AgentIdentityRegistry.sol:31-34 | as specified, for the owner only |
| RegistryContracts.AgentReputationRegistry.SubmitFeedback | contracts/AgentReputationRegistry.sol:37-55 | same guards in the same order, and the update of the record |
| Registries.ReadsZeroIffNoFeedback | contracts/AgentReputationRegistry.sol:57-64 | after every run `getReputation` reads as the zero struct, or with a zero task count, iff no feedback on the agent was ever accepted |
| DescendingSort.SortIsStable | agents/lib/matching.py:60-63 | the sort is descending, stable, and a permutation |
| DescendingSort.StableSortIsUnique | agents/lib/matching.py:60-63 | there is only one stable descending sort |
| DescendingSort.SortPutsFirstBestFirst | agents/lib/matching.py:60-71 | its head is the first element with the highest key |
| Matching.RankQuotes | agents/lib/matching.py:46-64 | the loop computes the ranking |
| Matching.RankingIsComplete | agents/lib/matching.py:46-64 | a permutation of the annotated quotes: eligible ones first in the stable order, rejected ones after them in input order |
| Matching.PartsKeepOrder | agents/lib/matching.py:52-64 | the eligible and the rejected quotes keep the order of the input |
| Matching.PartsOfOne | agents/lib/matching.py:52-59 | each quote goes into one of the two lists, the eligible iff it meets the constraints |
| Matching.AnnotatedMeans | agents/lib/matching.py:27-35 | a quote is annotated as eligible iff it meets budget and minimum reputation, with its score, and otherwise with minus infinity, the price being named first |
| Matching.ScoreMeans | agents/lib/matching.py:38-43 | the score times the price is the confidence times the success rate, or times one per cent |
| Matching.RankedBestFirst | agents/lib/matching.py:60-64 | no eligible quote stands behind one with a lower score, nor with the same score and a later delivery |
| Matching.SelectBestIsFirstMaximum | agents/lib/matching.py:67-71 | None iff nothing is eligible, else the first lexicographic maximum of the sort key |
| Matching.WinnerIsUnbeaten | agents/lib/matching.py:60-71 | None iff no quote meets the constraints; else no quote that meets them has a higher score, or the same and an earlier delivery, and of equals the first wins |
| Matching.AppendQuote | agents/lib/matching.py:46-71 | one more quote wins iff it is eligible and strictly better than the winner so far |
| Matching.LooserNeverWorse | agents/lib/matching.py:27-35 | a larger budget and a lower minimum reputation never worsen the winner |
| Playback.ListingFromBody | scripts/serve_trade_playback.py:168-197 | every posted listing is within bounds and can serve at least once |
| Playback.ListingIsAsPosted | scripts/serve_trade_playback.py:176-195 | each number of a posted listing is kept, moved to its bound, or replaced by its default if missing or zero |
| Playback.RequestIsAsTraced | scripts/serve_trade_playback.py:204-207 | what a request asks for when a field is given and when it is not |
| Playback.Marketplace.PostListing | scripts/serve_trade_playback.py:90-92 | a new listing comes first |
| Playback.Marketplace.ApplySellerListings | scripts/serve_trade_playback.py:213-264 | the streaming loop marks the chosen listing and sorts the quotes |
| Playback.Marketplace.ConsumeSelected | scripts/serve_trade_playback.py:273-282 | the first listing with the selected id loses one unit, never below zero, and the selected quote of the trace shows what is left |
| Playback.Marketplace.PostRequest | scripts/serve_trade_playback.py:98-150 | the listings after the request, and the trace sent back: refreshed if the handler reaches the capacity step |
| Playback.TraceShowsLeft | scripts/serve_trade_playback.py:279-282 | after a served request the head of its trace shows the quota that the selected listing has left, if no earlier listing has its id |
| Playback.StatusOf | scripts/serve_trade_playback.py:219-234 | the reason is "eligible" exactly for the listings that are |
| Playback.ReasonHolds | scripts/serve_trade_playback.py:222-234 | a rejected listing is given the first reason that holds of it |
| Playback.TraceIsComplete | scripts/serve_trade_playback.py:213-264 | the trace shows every listing once, the chosen one marked and no other, best scores first, rejected ones last, equals in the order of the listings |
| Playback.StreamBestIsFirst | scripts/serve_trade_playback.py:210-254 | the streaming choice is the first of the eligible listings with the highest score |
| Playback.WinnerLeadsTrace | scripts/serve_trade_playback.py:251-265 | the marked quote is the only one found, at the head of the sorted trace; without an eligible listing there is none |
| Playback.WinnersAgreeIff | agents/lib/matching.py:38-43 | the two algorithms give the same winning score, or both none, on all listings iff the minimum reputation is at least 0.01 |
| Playback.OpenRequestsAgree | scripts/serve_trade_playback.py:204-207 | so they agree whenever the minimum reputation is left open |
| Playback.ConsumesSelectedIff | scripts/serve_trade_playback.py:273-282 | the capacity step hits the selected listing iff no earlier one has its id |
| Playback.QuotaConservedIff | scripts/serve_trade_playback.py:90-147 | over every run of posts, each published quota equals quota left plus requests served, and is never overdrawn, iff no request was served under an id that two listings share |
| Playback.QuotaConserved | scripts/serve_trade_playback.py:90-147 | so it does over every run of posts with distinct ids |
| Playback.PostsOfOneSecond | scripts/serve_trade_playback.py:185 | two listings posted in one second share an id, and a request served by either breaks the balance |
| ReplayGuard.Cache.CheckAndRecord | agents/lib/threat_defense.py:42-49 | evicts, answers and records as specified |
| ReplayGuard.Cache.Evict | agents/lib/threat_defense.py:51-54 | deleting the stale keys one by one leaves exactly the others |
| ReplayGuard.AcceptsIffForgotten | agents/lib/threat_defense.py:42-54 | under any clock, a key is accepted iff each acceptance of it less than ttl old has been overtaken by a check ttl or more after it; rejections change nothing |
| ReplayGuard.FaithfulIffClockAllows | agents/lib/threat_defense.py:42-54 | the guard decides as the full history would, for every choice of keys, iff no reading of the clock less than ttl old has been overtaken by ttl |
| ReplayGuard.AcceptsIffNotBlocked | agents/lib/threat_defense.py:42-54 | so under a clock that never goes back a key is accepted iff no earlier acceptance of it is less than ttl old |
| ReplayGuard.KeptEntriesAreFresh | agents/lib/threat_defense.py:51-54 | a kept entry is younger than ttl or was recorded just now |
| ReplayGuard.ClockSetBackReadmits | agents/lib/threat_defense.py:43-54 | with a clock set back, a key accepted less than ttl ago can be accepted again |
| Discovery.AxlNode.Register | scripts/axl_mock_node.py:151-170 | a peer is recorded, and announced back to iff it was new |
| Discovery.StripsTrailingSlashes | scripts/axl_mock_node.py:156 | an address loses all its trailing slashes and nothing else |
| Discovery.AnnounceAllWithRetry | scripts/axl_mock_node.py:221-235 | every entry of the address list that is up in one of fifteen rounds is posted to once, every other given up; two entries of one address can differ |
| Discovery.DeliveryIsRegistration | scripts/axl_mock_node.py:161-170 | a delivery changes the receiver's registry only, and sends a reply iff the peer was new |
| Discovery.KnowledgeIsMutual | scripts/axl_mock_node.py:161-170 | whoever learned of a peer is known to a node of that id, or that node's registration of it is in flight, shared ids and peers entered by hand included |
| Discovery.MessagesAreCounted | scripts/axl_mock_node.py:166-170 | messages sent are the initial announces plus one for each entry learned |
| Discovery.HandshakeEnds | scripts/axl_mock_node.py:166-170 | any schedule ends, after at most three deliveries for each announce |
| Discovery.QuietNetworkIsSymmetric | scripts/axl_mock_node.py:161-235 | with distinct ids and no entries by hand, once quiet, the registries hold exactly the announced pairs, both ways, whatever the schedule |
| Discovery.SymmetricIffDistinctIds | scripts/axl_mock_node.py:38-41 | every quiet run of messages leaves symmetric registries iff no two nodes share a peer id |
| Discovery.EntriesSymmetricIff | scripts/axl_mock_node.py:161-205 | a quiet network is symmetric iff each peer that a node got by `register_peer`, before any message of it, got the node by hand as well or by the node's own announce |
| Discovery.EntryStopsAnswer | scripts/axl_mock_node.py:166-205 | a node entered by hand that announces itself is known and never learns of the other |
| Utf8.DecodeEncoded | agents/lib/signing.py:19-21 | UTF-8 encoding loses nothing |
| JsonText.ParsePrintedInt | agents/lib/signing.py:19 | printed integers are read back |
| JsonText.ParseEscaped | agents/lib/signing.py:19 | an escaped string is read back inside any text, with and without `ensure_ascii`, surrogate pairs included |
| JsonText.IntegersLead | agents/lib/signing.py:19 | no superfluous zero stands in front of an integer, and a minus only before a negative one |
| JsonText.EscapesOnlyWhatItMust | agents/lib/signing.py:19 | a plain character stands for itself, seven take a short escape, all others lower-case code units |
| JsonText.PlainTextStands | agents/lib/signing.py:19 | a text of plain characters, ASCII or not without `ensure_ascii`, is printed as it is |
| Json.BeforeIff | agents/lib/signing.py:19 | keys are ordered by the first code point that differs, a prefix first |
| Json.SortedKeys | agents/lib/signing.py:19 | the keys of an object, each once, in ascending order |
| Json.ParsePrinted | agents/lib/axl_client.py:85-154 | `json.loads` undoes `json.dumps` on every value |
| Json.PrintedIsSorted | agents/lib/signing.py:19 | a reader that takes only strictly ascending keys, at every depth, reads every printed value back |
| Json.PrintedIsVisible | agents/lib/signing.py:19 | printed text has no control characters, and with `ensure_ascii` nothing beyond ASCII |
| Signing.CanonicalIffSameBody | agents/lib/signing.py:17-21 | equal canonical bytes iff equal payloads without `signature` and `_` keys |
| Signing.CanonicalIffAgree | agents/lib/signing.py:17-21 | equal canonical bytes iff the payloads agree on every key but `signature` and those that start with `_` |
| Signing.CanonicalIsSorted | agents/lib/signing.py:17-21 | the canonical bytes spell the body, with the keys of every object strictly ascending |
| Signing.CanonicalOfOneField | agents/lib/signing.py:17-21 | the canonical bytes of a text field, letter by letter, for plain text in any script |
| Signing.VerifiesIffSameBody | agents/lib/signing.py:24-38 | a signature made for one payload verifies on another iff their bodies are equal |
| Signing.VerifiesIffSigned | agents/lib/signing.py:29-38 | a payload verifies iff some secret key, whose public key the key text names, made its signature on its canonical bytes |
| Signing.UnsignedIsRefused | agents/lib/signing.py:30-32 | without a text as its signature no payload verifies |
| Signing.OtherKeyIsRefused | agents/lib/signing.py:29-38 | a signature does not verify under another key |
| Signing.TransportDelivers | agents/lib/axl_client.py:81-159 | a payload sent in gensyn mode arrives as sent, plus the two fields the transport adds, unless the interpreter cannot read it, which ends the polling |
| Signing.ArrivesKeyByKey | agents/lib/axl_client.py:81-159 | key by key: the sender's id, the peer that the node names, and everything else as sent |
| Signing.WireIsAscii | agents/lib/axl_client.py:85 | what is sent is ASCII, with all keys sorted |
| Signing.SentIsPolledIff | agents/lib/axl_client.py:116-159 | a payload sent reaches the inbox iff neither its body nor one polled before it makes decoding raise anything but a `JSONDecodeError` |
| Signing.MalformedEndsPolling | agents/lib/axl_client.py:125-154 | after one body that is not UTF-8 nothing is received any more |
| Signing.TransportKeepsVerdict | agents/lib/axl_client.py:81-159 | verification answers the same for what was sent and for what arrives of it, under every key |
| Signing.SignedArrivesVerified | agents/lib/signing.py:24-38 | a payload signed, sent and received verifies under the signer's key, the interpreter's limits being the only exception |
| BuyerFlow.BuyerAgent.RunOneTrade | agents/buyer_agent.py:86-121 | the outcome and the calls fired are those of the trade function |
| BuyerFlow.BuyerAgent.CollectQuotes | agents/buyer_agent.py:153-173 | the collecting loop, its crash on a key that is no string included |
| BuyerFlow.BuyerAgent.AwaitDelivery | agents/buyer_agent.py:204-217 | the waiting loop, its failure on a malformed delivery included |
| BuyerFlow.BuyerAgent.QuoteAndLock | agents/buyer_agent.py:175-202 | the lock is fired for the quote's own seller and price |
| BuyerFlow.BuyerAgent.Release | agents/buyer_agent.py:219-229 | the keeper's release first, the direct one only without a reference, and neither after an HTTP error |
| BuyerFlow.CrashesIff | agents/buyer_agent.py:157-163 | the collector crashes iff some message of the window is a signed quote message for the request whose key is no string |
| BuyerFlow.CollectedIff | agents/buyer_agent.py:157-168 | a quote is collected iff some message of the window brings it |
| BuyerFlow.ArrivesIff | agents/buyer_agent.py:204-217 | the wait ends well iff there is a good delivery before which every message is passed over |
| BuyerFlow.WaitsIff | agents/buyer_agent.py:204-217 | the wait goes on iff every message is passed over |
| BuyerFlow.SameHashIff | agents/buyer_agent.py:213 | the hashes compare equal iff they differ in the case of letters at most |
| BuyerFlow.LocksIff | agents/buyer_agent.py:102-110 | the buyer locks iff the swap quote comes, no message of the window crashes the collector, and some message brings a quote that meets the constraints |
| BuyerFlow.GivesUpIff | agents/buyer_agent.py:105-107 | the buyer gives up without a winner iff nothing crashes and no message brings a quote that meets the constraints |
| BuyerFlow.ReleasesIff | agents/buyer_agent.py:110-112 | the winner is locked for; the release is fired iff the lock started and a good delivery comes after messages passed over; the trade still waits iff all that came was passed over |
| BuyerFlow.TradedIffReleased | agents/buyer_agent.py:112-121 | a trade is done iff the keeper's release got a reference or the direct one went through; the direct one is made iff the keeper gave none, and no call is made twice |
| BuyerFlow.TradeIsSafe | agents/buyer_agent.py:102-113 | for every message stream, the first call locks the price of a signed, affordable, reputable and unbeaten quote, and a release follows only that lock and a delivery signed by its seller with the hash it names |
| BuyerFlow.HonestQuoteIsHeard | agents/buyer_agent.py:153-173 | a quote signed by its seller, sent over the transport and well formed, is collected; if it meets the constraints, the buyer locks for a right quote that it does not beat |
| BuyerFlow.HonestDeliveryArrives | agents/buyer_agent.py:204-217 | a delivery signed by the seller, sent over the transport, with the hash of its content, ends the wait |
| DeliveredHash.HashIsTheSellers | contracts/AgentBazaarEscrow.sol:94-106 | the hash of a deal comes from one confirmation, by its seller, over every run |
| DeliveredHash.ConfirmTakesAnyHash | contracts/AgentBazaarEscrow.sol:94-103 | in every reachable state the seller of a LOCKED deal can confirm it in time with any hash |
| DeliveredHash.AcceptedWhateverConfirmed | agents/buyer_agent.py:212-216 | an honest delivery is accepted whatever hash its seller confirmed, and its content has the confirmed hash iff the message names it |

## Left out

- Hostile or foreign token contracts and reentrancy: tokens are `MockUSDC` contracts, and a call to an address without one reverts.
- Resolution of disputes: the contract leaves it off the chain; DISPUTED is final here as there.
- Events, error payloads of the token, token metadata, feedback tags and proof URIs.
- Widths of addresses and of 32-byte words: both are only compared.
- IEEE rounding: confidences, rates and scores are real numbers; a JSON float is the token that `repr` gives it.
- Ed25519 and SHA3: signatures are an ideal scheme given as a parameter (`Signing.IdealSchemeExists` shows that the hypothesis can be met), the content hash is a parameter.
- Insertion order of a Python dict: objects are maps, so key order cannot be told apart, as in Python's own dict equality.
- Non-string dict keys and lone surrogates.
- How `json.loads` reads a body that no agent printed: a parameter (`Signing.Reader`), of which only what `ReadsBack` says is known (`Signing.ReaderExists` shows that it can be met). The parser of `Json` is the inverse of the printer, not a full `json.loads`.
- Lower case beyond ASCII: `str.lower` changes other letters as well, which no hexadecimal hash has.
- CrashesIff: does not model interpreter limits; a message nested so deep that `json.dumps` raises a RecursionError while it is verified takes the collector down as well.
- Interpreter limits while payloads are signed, verified or hashed; those met while a body is read are modelled (`Signing.Decoded`).
- The mock transport mode of the client and its envelopes; backoff and HTTP errors.
- Lost messages in the handshake: delivery is reliable, as the announce-back is sent once and never retried.
- Concurrent requests in the threaded demo server: requests are served one at a time.
- The validators of the message schemas: parameters that return checked fields and copy the strings they are given.
- A message that arrives while the collecting window is cut off, and the ERC-8004 feedback after a trade.
- Text fields of traces and timelines, demo data, clients of KeeperHub and Uniswap, configuration and shell scripts.
- `sanitize_text_field`, size limits, hash normalisation and pair names: trivial helpers.
