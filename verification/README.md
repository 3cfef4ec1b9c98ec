# MultiSig and DeadManSwitch, modelled in Dafny

Two small Ethereum contracts, described by their Hardhat test suites:

- **MultiSig** — a multi-signature wallet. An ordered list of signers and a
  threshold form the registry; any signer may add or remove a signer while
  setting a new threshold, propose a transfer (`submitTransaction`), confirm
  it (`confirmTransaction`) and, once the number of confirmations reaches the
  threshold, execute it (`executeTransaction`).
- **DeadManSwitch** — a liveness timer. The deployer owns the contract and
  names a nominee; the owner refreshes `last_alive_block` with `stillAlive`,
  and once ten blocks have passed without a refresh, `deadManSwitch` sends the
  whole contract balance to the nominee.

The Solidity sources of the two contracts are not part of this model. The
behaviour modelled is the one the test files assert, and the table below
cites their lines.

Every MultiSig call is a pure function from the contract state to
`Result<State>` (`common.dfy`): `Ok` with the new state, or `Err` with the
revert reason. The DeadManSwitch calls that cannot revert (`Deploy`,
`Receive`, `StillAlive`) return the new `Switch` directly, and firing maps a
`World` (the switch plus account balances) to `Result<World>`. A reverted
call carries no state, so it changes nothing;
`MultiSigRuns.Commit` and `DeadManSwitch.FireCommit` spell out the host's
rule that a reverted call leaves the old state in place.

Files:

- `common.dfy` — addresses, the error datatype (one constructor per revert
  reason), `Result`.
- `quorum.dfy` — the signer registry: validation at deployment, adding and
  removing a signer together with the threshold, and the registry invariant
  (distinct signers, `1 <= threshold <= |signers|`).
- `ledger.dfy` — the transaction record (`to`, `value`, payload, `executed`,
  `confirmations`, the set of confirming signers) and its updates.
- `multisig.dfy` — the MultiSig calls, the read-only views, and the contract
  invariant: valid registry, `confirmations == |confirmedBy|` for every
  record, and exactly one transfer per executed transaction.
- `multisig_runs.dfy` — arbitrary sequences of calls: the invariant holds in
  every reachable state, records evolve only forward, non-signers change
  nothing, and distinct confirmations add up.
- `multisig_scenarios.dfy` — the MultiSig test cases stated as lemmas about the model.
- `dead_man_switch.dfy` — the liveness timer, its window predicate, and the
  test cases stated as lemmas about the model. Unlike the MultiSig, whose
  test cases have their own module, the few DeadManSwitch cases sit at the
  end of the model module.

Decisions the tests leave open:

- Revert order. A non-signer is refused before anything else is looked at:
  confirming or executing record 0 of an empty ledger reports `OnlySigners`.
  Confirmation then checks existence, a repeated confirmation, and execution,
  in that order; execution checks existence, a repeated execution, and the
  threshold.
- The tests only exercise a threshold above the signer count. As its own
  decision, which the tests neither require nor rule out, the model also
  refuses a zero threshold (`InvalidThreshold`), a signer added twice
  (`DuplicateSigner`), and the removal of an address that is not a signer
  (`SignerNotFound`). Together these keep every signer list non-empty and
  duplicate-free. The `NoDup` part of `MultiSig.Inv`, and the clause of
  `Quorum.RemoveSigner` that equates removal with the order-preserving
  `Quorum.Filter`, depend on this choice.
- Removal keeps the remaining signers in their relative order. This is a
  design choice the model makes, not something the tests settle: the one
  removal test (signer 2 out of
  `[1, 2, 3]`, expecting `[1, 3]`) cannot tell this apart from swapping the
  last signer into the gap and shortening the list, which gives the same
  `[1, 3]`; the two differ only when another position is removed (signer 1
  gives `[2, 3]` here, `[3, 2]` with the swap). The `Quorum.Filter` clause of
  `Quorum.RemoveSigner` and `Quorum.RemoveIsFilter` state this choice.
- A confirmation stays counted after its signer is removed: the record keeps
  its counter and confirmer set, and those confirmations still count toward
  the threshold (`MultiSigScenarios.RemovedSignerStillCounts`).
- Three tests in `test/multi-sig-test.js` are commented out (lines 148-156,
  164-171, 182-188): execution once two confirmations are in, no second
  execution, and no confirmation after execution. No running test asserts
  them. The model adopts them as the intended behaviour, with the revert
  reason `AlreadyExecuted`.
- Executing a transaction appends `Payment(id, to, value)` to a transfer log
  (`State.paid`); the ether transfer itself belongs to the host.
- `getTransaction` past the end reverts (`TxNotFound`); `isConfirmed` for a
  missing record reads the mapping default, `false`.
- The dead man's switch fires iff `now - last_alive_block >= 10`. The tests do
  not decide between `>= 10` and `> 10`: the firing test calls in the
  eleventh block after deployment and the refusing test one block after the
  refresh. The comparison lives only in `DeadManSwitch.WindowElapsed`.
- The payload of `submitTransaction` is optional (it defaults to `[]`) and
  never interpreted.

## Model

| member | source | states |
|---|---|---|
| Quorum.Create | test/multi-sig-test.js:24-38 | deployment keeps the signers in the given order and the threshold, succeeds exactly when the threshold fits and the signers are distinct, refuses a threshold above the signer count with InvalidThreshold and a repeated signer with DuplicateSigner, and yields a valid registry |
| Quorum.AddSigner | test/multi-sig-test.js:55-76 | the signer goes to the end of the list and the threshold is replaced, accepted iff the new threshold is between 1 and the new signer count and the signer is new; otherwise InvalidThreshold or DuplicateSigner; validity is preserved |
| Quorum.RemoveSigner | test/multi-sig-test.js:80-101 | succeeds iff the signer is present and the new threshold is between 1 and the remaining signer count; the new list is the old multiset minus exactly that signer, and on a valid registry it equals the old list with that signer filtered out, in order; validity is preserved |
| Quorum.IndexOf | test/multi-sig-test.js:80-87 | the index found holds the signer and no earlier position does |
| Quorum.Remove | test/multi-sig-test.js:80-87 | cutting out the signer shortens the list by one and removes exactly one copy of it |
| Quorum.RemovePreservesNoDup | test/multi-sig-test.js:80-87 | on a duplicate-free list the result is duplicate-free and no longer contains the removed signer |
| Quorum.RemoveIsFilter | test/multi-sig-test.js:80-87 | on a duplicate-free list, removal equals the order-preserving filter that keeps every other signer |
| Quorum.Filter | test/multi-sig-test.js:80-87 | the reference removal: an address is in the result iff it is in the list and is not the removed one |
| Quorum.FilterAbsent | test/multi-sig-test.js:80-87 | filtering out an address that is not in the list leaves the list unchanged |
| Quorum.FilterAppended | test/multi-sig-test.js:55-87 | filtering out an address that was appended to a list not containing it gives back the list |
| Quorum.AddThenRemove | test/multi-sig-test.js:55-87 | on a valid registry, removing the signer just added, with the old threshold, restores the registry exactly |
| Ledger.Proposed | test/multi-sig-test.js:109-116 | a new record keeps recipient, amount and payload, is not executed and has no confirmations |
| Ledger.Confirmed | test/multi-sig-test.js:124-136 | a confirmation adds the confirmer to the set and one to the counter, keeping them in step |
| Ledger.Executed | test/multi-sig-test.js:164-171 | execution sets the flag and leaves the proposal and confirmations as they were |
| MultiSig.Deploy | test/multi-sig-test.js:12-38 | deployment exposes the given signers and threshold, starts with no transactions and no transfers, satisfies the invariant, and reverts with InvalidThreshold when the threshold exceeds the signer count |
| MultiSig.GetTransaction | test/multi-sig-test.js:109-116 | reading record id succeeds iff it exists and returns that record; otherwise TxNotFound |
| MultiSig.IsConfirmed | test/multi-sig-test.js:131-136 | a confirmation is only ever reported for an existing record |
| MultiSig.AddSignerAndThreshold | test/multi-sig-test.js:54-77 | a non-signer gets OnlySigners; a signer gets the registry update, the new signer last and the new threshold, with the ledger untouched; the invariant is preserved |
| MultiSig.RemoveSignerAndThreshold | test/multi-sig-test.js:79-102 | a non-signer gets OnlySigners; a signer gets exactly one copy of the named signer removed, the others in order, the new threshold, the ledger untouched; the invariant is preserved |
| MultiSig.SubmitTransaction | test/multi-sig-test.js:104-117 | succeeds iff the caller is a signer; the record appended after the last one carries to, value and payload, is unexecuted with zero confirmations; the invariant is preserved |
| MultiSig.ConfirmTransaction | test/multi-sig-test.js:119-156 | OnlySigners before TxNotFound before AlreadyConfirmed before AlreadyExecuted; on success the counter rises by exactly one, the caller is recorded as confirmed, no other record changes, and the invariant is preserved |
| MultiSig.ExecuteTransaction | test/multi-sig-test.js:159-188 | OnlySigners before TxNotFound before AlreadyExecuted before ThresholdNotMet; succeeds iff the counter has reached the threshold; marks only that record executed and logs one transfer of its value to its recipient; the invariant is preserved |
| MultiSig.ExecutePreservesInv | test/multi-sig-test.js:182-188 | after an execution every executed record still has exactly one transfer in the log |
| MultiSigRuns.NonSignerChangesNothing | test/multi-sig-test.js:64-71 | any call by a non-signer, including confirm or execute of a missing record, reverts with OnlySigners and leaves the state as it was |
| MultiSigRuns.StepPreservesInv | test/multi-sig-test.js:33-38 | one committed call keeps the threshold within the signer count, the counters exact and transfers one per executed record |
| MultiSigRuns.StepEvolves | test/multi-sig-test.js:182-188 | one committed call only appends records, keeps each proposal, only adds confirmations, never un-executes or alters an executed record, and only appends transfers |
| MultiSigRuns.RunPreservesInv | test/multi-sig-test.js:33-38 | the invariant holds after any sequence of calls |
| MultiSigRuns.RunEvolves | test/multi-sig-test.js:182-188 | across any sequence of calls records only evolve forward: an executed record is never touched again and no transfer is undone |
| MultiSigRuns.Reachable | test/multi-sig-test.js:12-21 | every state reachable from a successful deployment satisfies the invariant, so no transaction is ever paid twice |
| MultiSigRuns.ConfirmOne | test/multi-sig-test.js:124-129 | a signer's first confirmation of an unexecuted record is committed and counted once |
| MultiSigRuns.SubmitThenRead | test/multi-sig-test.js:109-116 | a submitted transaction reads back at the next index with the given recipient and amount, unexecuted and with no confirmations |
| MultiSigRuns.ConfirmTwiceRefused | test/multi-sig-test.js:142-146 | right after a confirmation went through, the same signer confirming again reverts with AlreadyConfirmed |
| MultiSigRuns.ExecutedIsFinal | test/multi-sig-test.js:182-188 | once executed, a record stays the same after any sequence of calls, every later execute or confirm of it reverts, and it has exactly one transfer in the log |
| MultiSigRuns.PaidExactlyOnce | test/multi-sig-test.js:164-171 | under the invariant an executed transaction has exactly one transfer in the log |
| MultiSigRuns.ConfirmsAccumulate | test/multi-sig-test.js:164-171 | when distinct signers confirm one after another, the counter grows by their number and exactly they are added to the confirmers |
| MultiSigScenarios.DeploymentScenario | test/multi-sig-test.js:23-51 | deploying [1,2,3] with threshold 2 succeeds with those values; threshold 4 reverts with InvalidThreshold |
| MultiSigScenarios.AddSignerScenario | test/multi-sig-test.js:54-77 | the add-signer test cases give [1,2,3,4] with threshold 4, OnlySigners, and InvalidThreshold |
| MultiSigScenarios.RemoveMiddleSigner | test/multi-sig-test.js:80-87 | on the registry [1,2,3] with threshold 2, removing signer 2 with threshold 2 gives [1,3] with threshold 2 |
| MultiSigScenarios.RemoveSignerScenario | test/multi-sig-test.js:80-87 | the contract-level removal of signer 2 succeeds and reads back [1,3] with threshold 2 |
| MultiSigScenarios.RemoveSignerRefusedScenario | test/multi-sig-test.js:89-101 | removal by non-signer 5 gives OnlySigners; threshold 3 for two remaining signers gives InvalidThreshold |
| MultiSigScenarios.SubmitScenario | test/multi-sig-test.js:104-117 | the submit test cases give OnlySigners, and record 0 with to 4, value 1, unexecuted, no confirmations |
| MultiSigScenarios.ConfirmScenario | test/multi-sig-test.js:119-146 | the confirm test cases give OnlySigners, one confirmation recorded for signer 1, TxNotFound, and AlreadyConfirmed |
| MultiSigScenarios.ExecuteScenario | test/multi-sig-test.js:159-180 | the execute test cases give OnlySigners, ThresholdNotMet with no confirmation (and also with one), and TxNotFound |
| MultiSigScenarios.QuorumScenario | test/multi-sig-test.js:148-188 | the disabled test cases: two confirmations let execution pay 1 to account 4, after which execution and confirmation both revert with AlreadyExecuted |
| MultiSigScenarios.RemovedSignerStillCounts | test/multi-sig-test.js:80-87 | after signers 1 and 2 confirm record 0 and signer 2 is removed, the list is [1,3], the record still has two confirmations including signer 2's, and signer 1 can execute it |
| DeadManSwitch.Deploy | test/dead-man-switch-test.js:17-28 | the deployer becomes owner, the nominee is stored, and the deployment block is the last-alive block |
| DeadManSwitch.Receive | test/dead-man-switch-test.js:51-54 | ether sent to the contract adds to its holdings and changes nothing else |
| DeadManSwitch.StillAlive | test/dead-man-switch-test.js:39-43 | the last-alive block becomes the current block, owner, nominee and holdings are untouched, and the switch cannot fire in that block |
| DeadManSwitch.Fire | test/dead-man-switch-test.js:46-87 | fires iff the window has elapsed, otherwise WindowNotElapsed; the nominee gains exactly the held amount, the contract is left with 0, every other balance is untouched |
| DeadManSwitch.FireConserves | test/dead-man-switch-test.js:65-66 | held funds plus the nominee's balance are the same before and after any firing attempt |
| DeadManSwitch.RefreshBlocksWindow | test/dead-man-switch-test.js:70-87 | after stillAlive in block n, firing at a later block succeeds iff that block is at least n + 10 |
| DeadManSwitch.ElapsedStaysElapsed | test/dead-man-switch-test.js:47-67 | once the window has elapsed it stays elapsed at every later block |
| DeadManSwitch.FireTwice | test/dead-man-switch-test.js:48-67 | a second firing is allowed but moves nothing |
| DeadManSwitch.DeploymentScenario | test/dead-man-switch-test.js:16-36 | owner, nominee and last-alive block read back as set at deployment, and getOwnerAdd returns the owner |
| DeadManSwitch.SilentOwnerScenario | test/dead-man-switch-test.js:48-67 | funded after deployment and fired eleven blocks after it, the switch pays the nominee exactly the funded amount and keeps nothing |
| DeadManSwitch.LiveOwnerScenario | test/dead-man-switch-test.js:71-87 | refreshed in block d+10 and fired in block d+11, the switch reverts with WindowNotElapsed and the nominee's balance is unchanged |

## Left out

- Hardhat deployment, block mining and balance queries: block numbers are the
  `now` parameter, balances are a map of naturals.
- Ether transfer mechanics, gas and unit conversion (`parseEther`): a
  MultiSig execution appends to the transfer log, and the switch moves an
  integer between the contract and the nominee.
- Transfer failure: there is no evidence of how a failed transfer is handled,
  so execution and firing always succeed once their checks pass. Funding of
  the MultiSig is not modelled either.
- MultiSig.ExecuteTransaction: does not model a failed ether transfer
  reverting the execution, because the tests give no evidence for it.
- The transaction payload is carried as an opaque `seq<int>` and never
  interpreted.
- Signature recovery and address derivation: callers are opaque addresses
  given with each call.
- An owner-only restriction on `stillAlive` and an un-confirm operation: no
  test asserts either.
- Integer widths: Solidity `uint256` arithmetic is modelled on unbounded
  naturals; a confirmation counter is bounded by the number of distinct
  addresses that were ever signers, and amounts are only moved, never
  multiplied.
- Deposits: ether sent to the DeadManSwitch (`DeadManSwitch.Receive`) is
  added to the contract's holdings but not debited from the sender, because
  the sender's balance belongs to the host, not to the contract.
- `getSigners`, `threshold`, the public `owner`, `nominee` and
  `last_alive_block` getters and `getOwnerAdd` are field reads
  (`MultiSig.GetSigners`, `MultiSig.Threshold`, `DeadManSwitch.GetOwnerAdd`);
  their behaviour is stated through the contracts and scenarios above.
