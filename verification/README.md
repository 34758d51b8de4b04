# Crosshub: verified models of the hub's core

Crosshub relays orders between SimpleChain and Hyperledger Fabric. This project models the parts of it
that keep state and proves, for every input, run or reachable state, what they promise.

| component | files | main results |
|---|---|---|
| cross-chain contract (Solidity) | `Bits`, `CrossStruct`, `AnchorTable`, `SignatureCount`, `Contract`, `Totals`, `ChainInvariant`, `ContractRuns`, `ContractTheorems`, `ContractScenarios`, `ContractAuthority`, `ContractAcceptance`, `ContractCounters`, `ContractPayments`, `CrossDemo` | the bit-mask count of signatures, the anchor table and the ring of removed anchors, one payout per order, conservation of money and everything sent, who may do what and when each call succeeds, the counters of the anchors, over whole runs |
| order encoding and signatures | `OrderEncoding` | hub and contract hash the same bytes, injectively, and recover the same signers |
| task executor | `Executor`, `ExecutorRuns` | first in first out, every task once, bounded time to shutdown, no deadlock |
| priority queue | `HeapOrder`, `QueueSpec`, `SStack`, `Prque` | the paged stack refines a sequence, the heap returns a maximum in wrap-around order, reported indices are true, draining is in time order |
| cached transaction store | `IndexDb` | a cached read is a table read after any run; what updates and deletions leave |
| message framing | `Framing` | any part of a stream is read as the messages whole in it |
| chaincode | `Chaincode` | a precommitted transfer is executed at most once, each balance is the sum of the movements, the total is conserved |
| block windows | `ChainView` | each block is scanned exactly once |
| shared | `Words`, `Options`, `Transactions` | machine integers, optional values, the hub's transaction |

Objects that the sources update in place are classes here, and the loops of the sources are loops. Each such
method is proved against a function of the old state, and the theorems are about those functions. A call
that reverts or fails is `None`. `dafny verify dfyconfig.toml` checks everything.

Taken as parameters: elliptic-curve recovery, Keccak, hexadecimal address parsing, number parsing and
splitting in the chaincode, whether a recipient accepts a transfer, the chain head, the evictions of the cache.
Comparing two texts by their Keccak hash is modelled as comparing the texts. An order identifier of the
contract (a hash of sender, nonce and chain) and a contract identifier of the chaincode (a hash that includes
the transaction identifier) are taken to be new where the results speak of single orders and contracts. What
holds of money, anchors, signatures and takers holds for any identifiers; `ReusedIdentifierIff`,
`ApproversNeverReturn` and `UsedUpIdentifierIsStuck` say what becomes of an identifier used again.

## Where the code differs from its own description

- `removeAnchors` rejects registered addresses (contract/crossdemo/crossdemo.sol:133-135), while its loop
  body is written for registered ones. The guard is modelled as written and, beside it, the guard the body
  needs. The body keeps the table exactly for registered addresses (`RemoveBodyKeepsTableIff`); with the
  guard as written the table is valid exactly until the first successful removal (`TableOverRuns`). Money,
  orders, ring and the soundness of takers hold with either guard.
- The contract admits 64 anchors, its storage comment speaks of 62 (contract/crossdemo/cross_struct.sol:8).
  `bitCount` is the population count modulo 63, so 62 is the right bound (`CountIsExactIff`): an order that
  all of 63 anchors have signed is refused (`FullCommitteeIsTakenIff`). No order is accepted with too few
  signatures because of that (`TakenOrderIsSigned`).
- A chain with purpose 0 reads as unregistered (`RegisterGivesTableIff`), and there every address never
  written counts as a current and as a remembered anchor, so accepted orders are properly signed exactly on
  the other chains (`TakenOrderIsSignedIff`, `AnySignatureCountsTwice`). A chain that requires no signature,
  such as one not registered, accepts orders without any (`UnsignedIsTakenIff`).
- Approvals of one order need not name one taker hash: some name the zero hash before the others name
  theirs (`ApprovalsAgreeIff`, `ApprovalsMayDiffer`). The receiver that the maker names is kept only if the
  maker's own text is not empty (`ReceiverIsKeptIff`).
- An order taken once can be taken again after its identifier was taken for another maker
  (`TakenOnceUnlessDisplaced`, `TakenTwice`).
- The required count of signatures stays between one and the number of anchors only if each registration asks
  for such a count, which `chainRegister` does not check (`QuorumIff`).
- Without a worker `Stop` returns only if nothing was submitted (`EveryRunShutsDownIff`,
  `NoWorkersDeadlock`).
- `Stop(false)` is documented to shut down immediately (fabric/fabric-cli/executor/executor.go:139-141). It
  waits for all tasks as well, because it takes every worker from the channel of available ones; without
  waiting it may begin with the workers while a task runs (`NotWaitingMayStopEarly`).
- `Writes` removes the transaction hash under the index of identifiers (database/indexdb.go:169), so cache
  entries by transaction hash go stale: exactly when `WriteKeepsHashesIff` says, and always when a row is
  replaced after it was read by its hash (`ReadThenReplaceGoesStale`).
- `WriteMsg` encodes codes of 128 and above in two bytes, `ReadMsg` reads one (`ReadWrittenIff`).
- `invoke` in the chaincode reports success even when its transfer fails
  (fabric/chaincode/chaincode_example02/go/chaincode_example02.go:99-104); nothing is written then
  (`SimpleChaincode.Invoke`). A transfer
  to oneself adds the amount (`InvocationMoves`, `TransferSum`), because both balances are read before either is written.

## Model

| member | source | states |
|---|---|---|
| Bits.BitCountIsPopcountModulo63 | contract/crossdemo/crossdemo.sol:45-48 | for every 64-bit word the branch-free count is the number of one bits modulo 63 |
| Bits.BitCountExactIff | contract/crossdemo/crossdemo.sol:45-48 | it is the number of one bits exactly when fewer than 63 are set |
| Bits.SubtractionsCountDigits | contract/crossdemo/crossdemo.sol:46 | the two masked subtractions leave in each octal digit its own bit count, without a borrow |
| Bits.PairsCountModulo63 | contract/crossdemo/crossdemo.sol:47 | the masked sum of neighbouring digits is the bit count modulo 63, without a carry |
| Bits.SetBit | contract/crossdemo/crossdemo.sol:300 | or-ing a shifted one switches on that bit alone and adds one to the bit count unless it was on |
| AnchorTable.AddAllKeepsTable | contract/crossdemo/crossdemo.sol:110-121 | a completed addition keeps list, positions and registrations in agreement, keeps current and removed anchors apart, and appends the given addresses in order |
| AnchorTable.AddAllFailsIff | contract/crossdemo/crossdemo.sol:111-117 | an addition succeeds exactly when no address is repeated, registered or still remembered as removed |
| AnchorTable.RegisterAllKeepsTable | contract/crossdemo/crossdemo.sol:91-97 | registering a chain lists the given anchors in order with their bit positions |
| AnchorTable.RemoveListedKeepsTable | contract/crossdemo/crossdemo.sol:137-146 | removing a registered address takes exactly that address off the list and keeps the table valid |
| AnchorTable.RemoveBodyKeepsTableIff | contract/crossdemo/crossdemo.sol:137-146 | from a valid table the loop body reaches a valid table if and only if the address is registered |
| AnchorTable.RemoveUnlistedOrphans | contract/crossdemo/crossdemo.sol:137-146 | removing an unregistered address drops some listed anchor, which stays registered |
| AnchorTable.RemoveAllKeepsTableIff | contract/crossdemo/crossdemo.sol:132-147 | a completed removal keeps a valid table if and only if the guard asks for registered addresses or nothing is removed |
| AnchorTable.RemovalCollision | contract/crossdemo/crossdemo.sol:132-147 | a concrete removal with the guard as written after which two registered anchors share position 0 |
| AnchorTable.DeleteKeepsRing | contract/crossdemo/crossdemo.sol:151-172 | remembering a removed address keeps the ring equal to the last 64 removed, with true positions |
| AnchorTable.DeleteForgetsOldest | contract/crossdemo/crossdemo.sol:163-171 | a full ring forgets exactly the address removed 64 removals ago |
| AnchorTable.RingIsLast64 | contract/crossdemo/crossdemo.sol:157-171 | an address is remembered if and only if it is among the last 64 removed |
| AnchorTable.RemoveAllKeepsRing | contract/crossdemo/crossdemo.sol:132-147 | a completed removal appends its addresses to the history the ring holds, whichever the guard |
| SignatureCount.TallyMask | contract/crossdemo/crossdemo.sol:294-302 | after the loop the mask has exactly the bits of the available signers, repetitions in the list notwithstanding |
| SignatureCount.CountIsSound | contract/crossdemo/crossdemo.sol:291-304 | the count never exceeds the number of distinct available signers, even if positions collide |
| SignatureCount.CountIsExactIff | contract/crossdemo/crossdemo.sol:291-304 | from a valid table it is that number if and only if fewer than 63 signed, always so with at most 62 anchors |
| SignatureCount.OwnerCountIsSound | contract/crossdemo/crossdemo.sol:306-325 | the owner's count never exceeds the number of current plus remembered signers |
| SignatureCount.OwnerCountIsExactIff | contract/crossdemo/crossdemo.sol:306-325 | from a valid table and ring it counts each current or remembered signer once if and only if each kind has fewer than 63 |
| SignatureCount.TallyCounters | contract/crossdemo/crossdemo.sol:298-301 | verification adds to an anchor's counter once per signature of an available anchor and changes nothing else |
| SignatureCount.OwnerTallyCounters | contract/crossdemo/crossdemo.sol:315-322 | the owner's verification changes only counters |
| SignatureCount.OwnerTallyCounts | contract/crossdemo/crossdemo.sol:315-322 | the owner's verification adds to the counter of a current and of a remembered anchor once per signature, modulo 2^256 |
| ContractRuns.ApprovalFits | contract/crossdemo/crossdemo.sol:271-289 | one more approval keeps the stored order in step with what was started, approved and paid |
| ContractRuns.StepKeepsInv | contract/crossdemo/crossdemo.sol:51-345 | every transaction, successful or not, keeps conservation, the chain invariants and the books of approvers and takings, whatever identifiers orders have |
| ContractRuns.RunKeepsInv | contract/crossdemo/crossdemo.sol:24-345 | so does every run from the deployment |
| ContractRuns.StepKeepsOrders | contract/crossdemo/crossdemo.sol:254-289 | when a started order has a new identifier, every transaction keeps each stored order equal to what was started, approved and paid |
| ContractRuns.RunKeepsOrders | contract/crossdemo/crossdemo.sol:24-345 | so does every run whose orders have identifiers of their own |
| ContractTheorems.BalanceIsConserved | contract/crossdemo/crossdemo.sol:59-65 | in every reachable state the balance is the open orders plus the rewards of all chains plus the value attached to approvals |
| ContractTheorems.BalanceCovers | contract/crossdemo/crossdemo.sol:254-289 | the balance covers any order and reward pot together |
| ContractTheorems.PayoutsAreFunded | contract/crossdemo/crossdemo.sol:284-288 | in every reachable state no permitted payout or reward fails for lack of funds |
| ContractPayments.BalanceIsInMinusOut | contract/crossdemo/crossdemo.sol:24-345 | over any run the balance is the sum attached to successful transactions minus the sum sent |
| ContractPayments.SentIsDue | contract/crossdemo/crossdemo.sol:59-345 | over any run with new identifiers the contract has sent exactly, in order, the rewards to their anchors, the values attached to takings to the makers, and the value of each completed order to the taker its last approval names |
| ContractAcceptance.RewardIsPaidIff | contract/crossdemo/crossdemo.sol:59-65 | on a chain with a nonzero number a reward is paid if and only if the owner asks, attaches nothing, the pot covers it, and the receiver is an anchor and takes it; it goes to that anchor out of that pot |
| ContractAcceptance.OrderMayStartIff | contract/crossdemo/crossdemo.sol:254-268 | in every reachable state with new identifiers an order starts if and only if the chain is registered, the attached value covers the reward and is below the limit, no order is open under the identifier and the pot does not overflow |
| ContractAcceptance.StartedWithinLimit | contract/crossdemo/crossdemo.sol:255 | over any run the value of a started order with its reward was below the limit of the chain at that moment |
| ContractTheorems.OrderPaysOnce | contract/crossdemo/crossdemo.sol:271-289 | in every run with new identifiers an order pays at most once, its stored value, to the taker of the last approval, after enough approvals by different callers, each available when it called |
| ContractAcceptance.ApprovalIsAcceptedIff | contract/crossdemo/crossdemo.sol:271-289 | in every reachable state with new identifiers an approval is accepted if and only if it comes from an available anchor that has not approved, of an open order, names sender, receiver and taker hash as started and approved before, and the taker takes the money if it completes the order |
| ContractAcceptance.ApprovalEffect | contract/crossdemo/crossdemo.sol:278-288 | an accepted approval pays the value of the order to the taker it names and closes the order if and only if it makes the number of approvals the required one |
| ContractTheorems.ApprovalsNameTheParties | contract/crossdemo/crossdemo.sol:275-276 | every approval names the maker and, when the maker named a receiver and itself by a nonempty text, that receiver or the maker |
| ContractScenarios.ReceiverIsKeptIff | contract/crossdemo/crossdemo.sol:276-280 | for given texts all runs keep to the receiver the maker named, or the maker, if and only if both texts are nonempty; otherwise a run pays out after an approval that names anybody |
| ContractTheorems.ApprovalsAgreeIff | contract/crossdemo/crossdemo.sol:277-281 | all approvals of an order name one taker hash if and only if the first names a nonzero one or the last names zero |
| ContractScenarios.ApprovalsMayDiffer | contract/crossdemo/crossdemo.sol:277-281 | a run that pays an order out after approvals naming the zero hash and another one |
| ContractTheorems.CounterCountsApprovers | contract/crossdemo/crossdemo.sol:278-279 | while an order is open its 8-bit counter is the number of recorded approvers and at most 254, so it never wraps |
| ContractTheorems.ReusedIdentifierIff | contract/crossdemo/crossdemo.sol:257-265 | after any run an order just started has a counter equal to its recorded approvers if and only if nobody approved under its identifier before |
| ContractTheorems.ApproversNeverReturn | contract/crossdemo/crossdemo.sol:273-278 | who approved an order never approves again under its identifier in any continuation of the run, so all approvals under an identifier have different callers |
| ContractTheorems.UsedUpIdentifierIsStuck | contract/crossdemo/crossdemo.sol:272-274 | once all available anchors have approved under an identifier no order under it can be approved |
| ContractTheorems.RingOverRuns | contract/crossdemo/crossdemo.sol:151-172 | in every reachable state the ring holds exactly the last 64 removed, in distinct slots, the next slot being the oldest, and no current anchor |
| ContractTheorems.TableOverRuns | contract/crossdemo/crossdemo.sol:101-149 | in every reachable state the table is valid if and only if the guard asks for registered addresses or nothing was removed; the list always has at most 64 different, registered entries |
| ContractTheorems.RegisterGivesTableIff | contract/crossdemo/crossdemo.sol:68-99 | registering anchors gives a valid table if and only if the purpose is not zero |
| ContractAcceptance.ChainMayBeRegisteredIff | contract/crossdemo/crossdemo.sol:68-97 | a chain with a nonzero number can be registered if and only if the owner asks, once, with at most 64 different anchors |
| ContractAcceptance.AnchorsMayBeAddedIff | contract/crossdemo/crossdemo.sol:103-121 | anchors can be added if and only if the owner asks, for a registered chain, at most 63 at once and 64 in all, all different, none registered nor among the last 64 removed |
| ContractAcceptance.AnchorsMayBeRemovedIff | contract/crossdemo/crossdemo.sol:126-147 | anchors can be removed if and only if the owner asks, enough remain or there were too few before, and each address passes the guard and the memory of the last 64 removed at its turn |
| ContractAcceptance.StatusMayBeSetIff | contract/crossdemo/crossdemo.sol:181-196 | an anchor can be switched off if and only if more are available than required, and on at any time |
| ContractAcceptance.SettingsMayChangeIff | contract/crossdemo/crossdemo.sol:51-214 | reward, limit, required count and router can be set if and only if the owner asks and the value is within its bounds |
| ContractAuthority.OnlyTheOwnerRules | contract/crossdemo/crossdemo.sol:19-22 | in every reachable state a transaction of anybody but the deployer leaves on all chains the list, the ring, the standing of every anchor and all settings as they are and takes nothing from a pot |
| ContractAuthority.AdministrationIsConfined | contract/crossdemo/crossdemo.sol:51-214 | an administrative call that succeeds is the deployer's, carries no money, and touches one chain, no order or taking, and no money but for a reward |
| ContractAuthority.SettingsAfter | contract/crossdemo/crossdemo.sol:51-214 | the settings of its chain after each administrative call |
| ContractAuthority.StatusAfter | contract/crossdemo/crossdemo.sol:181-196 | switching an anchor changes the availability of that anchor alone |
| ContractAuthority.QuorumIff | contract/crossdemo/crossdemo.sol:68-214 | throughout a run the required count of a chain is between one and the number of its anchors if and only if each of its registrations asks for such a count |
| ContractCounters.CountersOverRuns | contract/crossdemo/crossdemo.sol:271-325 | over any run the counters of a registered anchor are, modulo 2^256, the numbers of its signatures on orders taken and of its approvals since it was listed; that of a remembered one its signatures on orders taken by their makers since it was removed |
| ContractCounters.TakingCountsSignatures | contract/crossdemo/crossdemo.sol:291-345 | a taking adds to the counter of each anchor that qualifies the number of its signatures, and changes nothing else about any anchor |
| ContractTheorems.DisableKeepsQuorum | contract/crossdemo/crossdemo.sol:181-196 | on a chain with a nonzero number switching an anchor off leaves at least as many available as are required, also when removals have broken the table |
| ContractTheorems.RemovalKeepsQuorumIff | contract/crossdemo/crossdemo.sol:129 | a removal leaves as many anchors as are required if and only if there were as many before; otherwise the subtraction wrapped |
| ContractTheorems.TakenOrderIsSigned | contract/crossdemo/crossdemo.sol:329-345 | in every reachable state an order accepted from a chain with a nonzero number carries signatures of as many different anchors as are required, all registered, or for the maker itself also remembered |
| ContractTheorems.TakenOrderIsSignedIff | contract/crossdemo/crossdemo.sol:291-345 | an accepted order carries as many signatures of current or remembered anchors as are required if and only if its chain has a nonzero number or requires none |
| ContractScenarios.AnySignatureCountsTwice | contract/crossdemo/crossdemo.sol:315-324 | on a chain registered as zero any single signature satisfies a required count of two, though no anchor signed |
| ContractTheorems.UnsignedIsTakenIff | contract/crossdemo/crossdemo.sol:333-341 | in every reachable state an unsigned order passes if and only if its chain requires no signature, which includes every unregistered chain with a nonzero number |
| ContractTheorems.RetakenIff | contract/crossdemo/crossdemo.sol:333-341 | in every reachable state an order just taken is refused to everybody if it has a value; the same call succeeds again if and only if it has none |
| ContractTheorems.TakenOnceUnlessDisplaced | contract/crossdemo/crossdemo.sol:333 | over any run an identifier taken with a value is taken again for the same maker only after another maker |
| ContractTheorems.LastTakingDecides | contract/crossdemo/crossdemo.sol:333-341 | earlier takings hinder an order if and only if the last one under its identifier has a value and the same maker |
| ContractScenarios.TakenTwice | contract/crossdemo/crossdemo.sol:333-341 | a run in which an order with a value is taken twice |
| ContractTheorems.OrderIsTakenIff | contract/crossdemo/crossdemo.sol:329-345 | in every reachable state an order is accepted if and only if it is addressed to the sender, new, paid for, and the number of bit positions of its available signers modulo 63 suffices; for the maker itself those of current and remembered signers; it is recorded then and the attached value passed on |
| ContractTheorems.HubOrderIsTakenIff | contract/crossdemo/crossdemo.sol:338-341 | so is an order signed on the hub, by the anchors that signed there |
| ContractTheorems.PositionsAreAnchors | contract/crossdemo/crossdemo.sol:291-325 | while the table is valid those numbers of positions are numbers of anchors, at most 64 each |
| ContractScenarios.FullCommitteeIsTakenIff | contract/crossdemo/crossdemo.sol:45-48 | an order that all n anchors signed, one signature being required, is refused exactly when n is 0 or 63 |
| CrossDemo.CrossDemoContract.ChainRegister | contract/crossdemo/crossdemo.sol:68-99 | the method with its loop has the effect the theorems speak of, and none when it reverts |
| CrossDemo.CrossDemoContract.AddAnchors | contract/crossdemo/crossdemo.sol:103-123 | the same for addAnchors |
| CrossDemo.CrossDemoContract.RemoveAnchors | contract/crossdemo/crossdemo.sol:126-149 | the same for removeAnchors with the guard as written |
| CrossDemo.CrossDemoContract.DeleteOne | contract/crossdemo/crossdemo.sol:151-172 | the same for deleteAnchor, list growth and ring replacement |
| CrossDemo.CrossDemoContract.AvailableCount | contract/crossdemo/crossdemo.sol:183-188 | the 8-bit loop counts the available anchors of the list |
| CrossDemo.CrossDemoContract.MakerStart | contract/crossdemo/crossdemo.sol:254-268 | the order and the reward pot after makerStart, and every revert of it |
| CrossDemo.CrossDemoContract.MakerFinish | contract/crossdemo/crossdemo.sol:271-289 | the order, counters and balance after makerFinish, with or without payout, and every revert of it |
| CrossDemo.CrossDemoContract.VerifySignAndCount | contract/crossdemo/crossdemo.sol:291-304 | the loop over the signatures computes the counters and the count the theorems speak of |
| CrossDemo.CrossDemoContract.VerifyOwnerSignAndCount | contract/crossdemo/crossdemo.sol:306-325 | the same for the loop with two masks |
| CrossDemo.CrossDemoContract.Taker | contract/crossdemo/crossdemo.sol:329-345 | the record and counters after taker, and every revert of it |
| OrderEncoding.EncodingsAgree | core/cross_transaction_signing.go:158-174 | the bytes SimpleHash hashes are the packed encoding the contract hashes |
| OrderEncoding.LayoutIff | core/cross_transaction_signing.go:164-165 | the bytes have the fixed layout if and only if both amounts fit in 256 bits |
| OrderEncoding.PackedInjective | contract/crossdemo/crossdemo.sol:335-340 | orders with the same packed bytes agree on every signed field |
| OrderEncoding.SimpleInputInjective | core/cross_transaction_signing.go:158-174 | transactions with nonnegative amounts of at most 256 bits and the same bytes agree on every field but the signature |
| OrderEncoding.SimpleInputAmbiguous | core/cross_transaction_signing.go:164-165 | a negative amount has the bytes of its absolute value |
| OrderEncoding.LongAmountAmbiguous | core/cross_transaction_signing.go:164-165 | an amount of 2^256 has the bytes of one 256 times smaller with the following fields moved by one byte |
| OrderEncoding.RecoveryAgreesIff | core/cross_transaction_signing.go:114-138 | hub and contract get back 27 plus the recovery bit from V, and EIP-155 its chain identifier, if and only if that is not zero |
| OrderEncoding.HubSignersRecovered | contract/crossdemo/crossdemo.sol:294-297 | from an order signed on the hub the contract recovers exactly the signers |
| Executor.StepKeepsInv | fabric/fabric-cli/executor/executor.go:101-182 | every step of client, dispatcher and workers keeps order, wait groups, task conservation, phases and worker places |
| Executor.StepKeepsPlaces | fabric/fabric-cli/executor/worker/workerpool.go:80-113 | a ready worker is in exactly one place: the available channel, or held by the dispatcher, or by the stopping client |
| Executor.ReadySendNeverBlocks | fabric/fabric-cli/executor/worker/workerpool.go:97-101 | the channel of available workers is never full when a worker announces itself |
| Executor.Progress | fabric/fabric-cli/executor/executor.go:142-182 | before Stop returns some step is enabled in every reachable state, given a worker or no task |
| Executor.RunsAreBounded | fabric/fabric-cli/executor/worker/worker.go:78-98 | no run is longer than the measure of its first state |
| Executor.ReturnedMeansDone | fabric/fabric-cli/executor/worker/workerpool.go:57-77 | when Stop has returned, waiting or not, all tasks were handed over in order and completed once, and all workers stopped |
| Executor.EveryRunShutsDownIff | fabric/fabric-cli/executor/executor.go:101-182 | every run is bounded; Stop has returned, with everything done, if and only if the run cannot be continued and there is a worker or no task |
| ExecutorRuns.WaitingStopsNobodyEarly | fabric/fabric-cli/executor/worker/workerpool.go:57-77 | with waiting no worker is told to stop before every task has been handed over in order and completed once |
| ExecutorRuns.NotWaitingMayStopEarly | fabric/fabric-cli/executor/worker/workerpool.go:57-77 | a run without waiting that begins with the workers while a task is being invoked |
| Executor.HandedInOrder | fabric/fabric-cli/executor/executor.go:169-182 | in every reachable state what was handed over is a prefix of what was accepted, each task running or completed, at most one per worker running |
| ExecutorRuns.ChannelFills | fabric/fabric-cli/executor/executor.go:101-117 | Submit does not block while the task channel has room: some run fills it to its capacity |
| Executor.NoWorkersDeadlock | fabric/fabric-cli/executor/worker/workerpool.go:80-91 | without workers and with any nonempty list of tasks no run returns from Stop; each ends with the first task waiting for a worker |
| HeapOrder.UpRepairs | fabric/courier/utils/prque/prque.go:20-22 | sifting up repairs a heap that is wrong at one place |
| HeapOrder.DownRepairs | fabric/courier/utils/prque/prque.go:26-29 | sifting down leaves at most the start wrong, and nothing once an item moved |
| HeapOrder.RemovedIsHeap | fabric/courier/utils/prque/prque.go:37-42 | removal at any index brings that key to the end and leaves a heap |
| QueueSpec.PushAddsOne | fabric/courier/utils/prque/prque.go:20-22 | Push adds exactly the item, whatever the priorities |
| QueueSpec.PopTakesOne | fabric/courier/utils/prque/prque.go:26-29 | Pop takes exactly the item it returns, whatever the priorities |
| QueueSpec.RemoveTakesOne | fabric/courier/utils/prque/prque.go:37-42 | so does Remove |
| QueueSpec.RemoveReturnsItemAt | fabric/courier/utils/prque/prque.go:37-42 | Remove returns the item at the given index, whatever the priorities |
| QueueSpec.PushedTrackedIff | fabric/courier/utils/prque/sstack.go:57-59 | reported indices stay true on a push if and only if the value is not queued already |
| QueueSpec.PushTracked | fabric/courier/utils/prque/sstack.go:93-101 | after a Push every queued value was last reported at its true position |
| QueueSpec.PopTracked | fabric/courier/utils/prque/sstack.go:74-77 | after a Pop too, and the value taken was reported at -1 |
| QueueSpec.RemoveByReportedIndex | fabric/courier/utils/prque/prque.go:36-42 | removing at the index last reported for a queued item takes that item and no other |
| QueueSpec.BeforeComparesRanks | fabric/courier/utils/prque/sstack.go:88-90 | for priorities in one cyclic window shorter than 2^63 the wrap-around comparison compares distances from its base |
| QueueSpec.BeforeIsGreaterIff | fabric/courier/utils/prque/sstack.go:10-11 | it is the comparison of integers if and only if the difference fits in 64 bits |
| QueueSpec.BeforeCanCycle | fabric/courier/utils/prque/sstack.go:10-11 | three priorities outside a window of which each precedes the next |
| QueueSpec.PushKeepsHeap | fabric/courier/utils/prque/prque.go:20-22 | within a window Push keeps heap order |
| QueueSpec.RemoveKeepsHeap | fabric/courier/utils/prque/prque.go:37-42 | so does Remove |
| QueueSpec.PopReturnsMaximum | fabric/courier/utils/prque/prque.go:24-29 | within a window Pop returns an item no queued item precedes, and keeps heap order |
| QueueSpec.DrainedPermutes | fabric/courier/txmanager.go:155-159 | draining returns every queued item exactly once, whatever the priorities |
| QueueSpec.DrainedDescends | fabric/courier/txmanager.go:155-159 | within a window it returns them by falling rank |
| PagedStack.SStack.Push | fabric/courier/utils/prque/sstack.go:47-64 | across block boundaries Push appends one item, fills one slot and reports its index |
| PagedStack.SStack.Pop | fabric/courier/utils/prque/sstack.go:67-80 | Pop removes the last item, clears its slot and reports -1 |
| PagedStack.SStack.Less | fabric/courier/utils/prque/sstack.go:88-90 | Less compares the two items in wrap-around order |
| PagedStack.SStack.Swap | fabric/courier/utils/prque/sstack.go:93-101 | Swap exchanges two items, in any blocks, and reports both new indices |
| PagedStack.SStack.Reset | fabric/courier/utils/prque/sstack.go:104-106 | Reset leaves an empty stack |
| PriorityQueue.Prque.Push | fabric/courier/utils/prque/prque.go:20-22 | the loops over Less and Swap have the effect the theorems speak of |
| PriorityQueue.Prque.Pop | fabric/courier/utils/prque/prque.go:26-29 | the same for Pop |
| PriorityQueue.Prque.Remove | fabric/courier/utils/prque/prque.go:37-42 | the same for Remove; a negative index takes nothing |
| PriorityQueue.TxManager.AddCrossTxs | fabric/courier/txmanager.go:102-118 | transactions are split by status, those pending are pushed at their negated time, none is lost |
| PriorityQueue.TxManager.Drain | fabric/courier/txmanager.go:154-160 | the drain loop empties the queue and yields it in the order of repeated Pop |
| PriorityQueue.PendingDrainsInTimeOrder | fabric/courier/txmanager.go:151-160 | pending transactions whose time stamps lie less than 2^63 apart come out each once, oldest first |
| PriorityQueue.SplitByStatus | fabric/courier/txmanager.go:102-118 | exactly the transactions neither finished nor completed outgoing ones are queued, and all but the latter stored, as often as given |
| PriorityQueue.AddedDrainsInTimeOrder | fabric/courier/txmanager.go:102-160 | what is added to an empty manager and drained comes out each pending transaction once, oldest first |
| IndexDb.IndexedRoundTrip | database/ctx_list.go:127-166 | a transaction stored and read back is the same, whatever its key, and is found by its own fields |
| IndexDb.PriceComparesRatios | core/cross_transaction.go:194-199 | stored prices order transactions with positive values by the ratio of charge to value |
| IndexDb.NoValueIsDearest | core/cross_transaction.go:195-197 | a transaction without value has the highest price of all whose price fits in 64 bits |
| IndexDb.WriteOneEffect | database/indexdb.go:134-171 | a write inserts, replaces under the same key or leaves the row, affects no other row and does not fail |
| IndexDb.WritesEffect | database/indexdb.go:110-174 | Writes succeeds, and then a lookup gives the last written transaction if replacing, else the stored or first written one; keys are kept |
| IndexDb.WriteKeeps | database/indexdb.go:100-108 | Write keeps the cache coherent and the table gives what was written |
| IndexDb.ReadKeeps | database/indexdb.go:201-219 | a read gives what the table holds and keeps the cache coherent |
| IndexDb.UpdatesKeep | database/indexdb.go:225-250 | Updates with updaters that clear the key, keep it or keep the identifier keep the cache coherent; failed ones leave the table |
| IndexDb.DeletesKeep | database/indexdb.go:252-273 | Deletes removes exactly the named transactions and keeps the cache coherent |
| IndexDb.CachedReadIsTableRead | database/indexdb.go:176-219 | after any run of operations and evictions a read, cached or not, is a table read, and identifiers are unique |
| IndexDb.WriteKeepsHashesIff | database/indexdb.go:134-171 | a write keeps the entries by transaction hash true if and only if it replaces nothing, writes what is there, or no entry shows the replaced row or a later one with the new hash |
| IndexDb.ReadThenReplaceGoesStale | database/indexdb.go:167-170 | replacing a row after it was read by its transaction hash leaves a stale entry |
| IndexDb.UpdateKeepsHashesIff | database/indexdb.go:240-247 | an update under its key keeps the entries by transaction hash true if and only if it keeps the hash or the entry of the old one does not show the row |
| IndexDb.DeleteKeepsHashes | database/indexdb.go:259-268 | a deletion always keeps them true |
| IndexDb.HashReadIsTableRead | database/indexdb.go:184-199 | after any run whose writes meet the condition and whose updaters keep the hash, a read by transaction hash, cached or not, gives the first row that has it |
| IndexDb.UpdaterKeepsIff | database/indexdb.go:240-247 | an updater keeps every coherent store coherent if and only if it is of that kind |
| IndexDb.UpdatesEffectIff | database/indexdb.go:225-250 | updates that keep key and identifier succeed if and only if there is one for each identifier and all are stored; then each row has gone through its updaters in order and the others are as before |
| IndexDb.IndexDB.Writes | database/indexdb.go:110-174 | the loop inside the transaction, with roll-back of the table on an error, has the effect the theorems speak of |
| IndexDb.IndexDB.Read | database/indexdb.go:176-182 | the method returns the table's transaction and leaves the table |
| IndexDb.IndexDB.Updates | database/indexdb.go:225-250 | the loop with roll-back has the effect the theorems speak of |
| IndexDb.IndexDB.Deletes | database/indexdb.go:252-273 | the same for Deletes |
| Framing.ReadWrittenIff | hubnet/rlpx.go:24-96 | a message, whatever follows it, is read back as sent if and only if its code is below 128 and its size is the length of its payload |
| Framing.ReadWouldBeWritten | hubnet/rlpx.go:57-96 | what is read off any stream would be written as the bytes it was read from, but for the unused part of the head |
| Framing.FrameIsWrittenIff | hubnet/rlpx.go:24-43 | a message is written if and only if its payload with the code fits in 24 bits or wraps the 32-bit sum to zero |
| Framing.WireFormat | hubnet/rlpx.go:24-55 | the bytes of a frame: size, zeros, code, payload |
| Framing.CutFrameFails | hubnet/rlpx.go:57-96 | a frame cut short is never taken for a message; the places where the error is a plain end of stream |
| Framing.PrefixIsRead | hubnet/handle.go:20-35 | from any part of a stream the receive loop gets exactly the messages that lie whole in it |
| Framing.StreamRoundTrip | hubnet/handle.go:20-35 | from the whole stream it gets the whole list and consumes every byte |
| Framing.P2pRW.WriteMsg | hubnet/rlpx.go:24-55 | the three writes put one frame on the wire, or nothing when it is too long |
| Framing.P2pRW.ReadMsg | hubnet/rlpx.go:57-96 | the three reads take one frame off the stream |
| Framing.P2pRW.HandleNewStream | hubnet/handle.go:20-35 | the loop hands on what is read and resets the stream unless it ended |
| Chaincode.StepKeepsInv | fabric/chaincode/chaincode_example02/go/contract.go:101-155 | every transaction keeps each contract as requested, initial and not executed, or finished with the receipt of the one commit that executed it |
| Chaincode.AppliedAtMostOnce | fabric/chaincode/chaincode_example02/go/contract.go:101-164 | over any run, with deletions and repeated commits, a precommitted transfer is executed at most once, with the recorded arguments |
| Chaincode.DocumentShowsRequest | fabric/chaincode/chaincode_example02/go/contract.go:16-155 | over any run a stored document shows every field its precommit asked for, and is finished, with the receipt of the commit, if and only if it was executed |
| Chaincode.CommitAppliesIff | fabric/chaincode/chaincode_example02/go/contract.go:101-164 | a commit executes a contract if and only if it has a receipt, the document is there and not executed, and it asks for an invocation between existing accounts of a numeric amount |
| Chaincode.InvocationMoves | fabric/chaincode/chaincode_example02/go/chaincode_example02.go:106-160 | an invocation or a commit from outside lets the balance of the payer fall and that of the payee rise by the amount, in 64 bits, and changes nothing else; to oneself it only rises |
| Chaincode.CommitMoves | fabric/chaincode/chaincode_example02/go/contract.go:101-155 | a commit noted as executing moves exactly the recorded amount between the recorded accounts and finishes the document; any other changes nothing |
| Chaincode.BalanceIsFlow | fabric/chaincode/chaincode_example02/go/contract.go:59-164 | over any run a balance is the first one plus everything received and minus everything paid in invocations, commits from outside and contracts noted as executed, in 64 bits |
| Chaincode.CommitIsIdempotent | fabric/chaincode/chaincode_example02/go/contract.go:116-118 | a second commit succeeds and writes nothing |
| Chaincode.TransferSum | fabric/chaincode/chaincode_example02/go/chaincode_example02.go:106-160 | what a transfer does to the sum of balances, wrap-around and equal parties included |
| Chaincode.TransferConservesIff | fabric/chaincode/chaincode_example02/go/chaincode_example02.go:106-160 | without overflow a transfer keeps the sum if and only if the parties differ or nothing is transferred |
| Chaincode.CleanStepKeepsSum | fabric/chaincode/chaincode_example02/go/contract.go:59-164 | a transaction with clean transfers and identifiers that are no account names keeps the sum |
| Chaincode.RunConserves | fabric/chaincode/chaincode_example02/go/contract.go:16-164 | over any run of such transactions the sum of balances never changes |
| Chaincode.SimpleChaincode.Transfer | fabric/chaincode/chaincode_example02/go/chaincode_example02.go:106-160 | the writes of a transfer against the stub, and every error of it |
| Chaincode.SimpleChaincode.Invoke | fabric/chaincode/chaincode_example02/go/chaincode_example02.go:99-104 | success is reported whatever became of the transfer; a failed one leaves no writes |
| Chaincode.PrecommitStoresIff | fabric/chaincode/chaincode_example02/go/contract.go:16-57 | a precommit under a new identifier stores the document it asks for if and only if it has five arguments and a call, and changes nothing else |
| Chaincode.SimpleChaincode.PrecommitCall | fabric/chaincode/chaincode_example02/go/contract.go:16-57 | the document a precommit writes |
| Chaincode.SimpleChaincode.RegularCommitCall | fabric/chaincode/chaincode_example02/go/contract.go:101-155 | the writes of a regular commit, and every error of it |
| ChainView.Viewer.GetEvents | chainview/chainview.go:203-223 | one tick: the window, the new height, and its bounds when the head is at least 99 |
| ChainView.WindowBelowHeadIff | chainview/chainview.go:204-209 | a window stays below the head if and only if the head is at least 99 |
| ChainView.TickIsExactIff | chainview/chainview.go:204-223 | a tick goes on by 100 blocks, or to the head if nearer, if and only if the head is at least 99 |
| ChainView.WindowsAreShort | chainview/chainview.go:204-209 | no window has more than 100 blocks, whatever the heights and heads |
| ChainView.EveryBlockOnce | chainview/chainview.go:203-223 | over any ticks with non-decreasing heads each block from the start to the height reached is scanned exactly once, no other ever |
| ChainView.WindowsAreContiguous | chainview/chainview.go:210-223 | each window starts right after the one before |
| ChainView.HeadIsReached | chainview/chainview.go:204-223 | a head that stays is reached within the gap over 100 ticks plus one, and kept |

## Left out

- Contract: events, getters, the fields `anchorsPositionBit` and `delsPositionBit` (never read), gas, money forced on the contract from outside; loops over more than 255 addresses, which no reachable list has.
- ContractTheorems.OrderPaysOnce: is about runs in which no order identifier is started twice, as the hash of sender and nonce promises; for other runs `ApproversNeverReturn` and the results on money, anchors and takers hold.
- Contract: transfers are atomic, so a recipient that calls back is not modelled.
- Elliptic curves, Keccak and SHA-256 themselves; `Hash` and `Sender` beyond the V value.
- Executor: goroutines that interleave are steps of a transition system on values, not methods of objects; `SubmitDelayed`, `Wait`, submitting while stopping, tasks that panic or do not end, the error returns of calls in the wrong state; a task is a handle.
- PriorityQueue: the sift loops are those of Go's `container/heap`, which is not part of the repository; `Remove` returns the item, as the code does.
- TxManager: everything but the split of new transactions and the drain; signing, sending and the database.
- IndexDb: `Update` of the storage library is taken to replace the whole row, although the library may skip zero fields; errors of the disk; goroutines that interleave with a transaction; shared big integers; the precision of the price.
- Framing: write errors of the connection, deadlines and the time of receipt.
- Chaincode: `Init`, queries, events, parsing of the creator's certificate and the JSON text; documents are stored as records with the fields of the JSON.
- ChainView: failed calls to the node (the height advances all the same), reading the logs, and heads beyond 63 bits.
- Everything else in the repository is input, output or glue: peers, command lines, configuration, keys and certificates.
